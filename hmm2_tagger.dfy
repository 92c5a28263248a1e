/** `HMM2::tagger`: the online trigram Viterbi decoder. Words are buffered
    in `wpend`; for each word the scores `alpha` and best paths `best` of
    every (previous tag, tag) pair are computed in one of two parity slots
    from the other; when a word and the one before it both have a single
    tag, the best path to that pair is emitted for the buffered words and
    decoding restarts from it. The probabilities are `real`s. */
module Hmm2Tagger {
  import opened Common
  import opened AmbiguityClasses
  import opened Hmm2Train

  // ---------------------------------------------------------------------
  // The classes of the words
  // ---------------------------------------------------------------------

  /** The class the decoder uses for a word: its tags or the open class,
      replaced by `find_similar_ambiguity_class` over the first m classes
      when it is not registered. */
  function DecoderClass(output: Registry, m: nat, openClass: TagSet, w: Word): TagSet
    requires m <= |output|
  {
    var c := ClassOf(w, openClass);
    if HasNot(output, c) then FindSimilar(output, m, openClass, c) else c
  }

  /** The classes of all the words. */
  function DecoderClasses(output: Registry, m: nat, openClass: TagSet, words: seq<Word>): (cls: seq<TagSet>)
    requires m <= |output|
    ensures |cls| == |words|
    ensures forall q :: 0 <= q < |words| ==> cls[q] == DecoderClass(output, m, openClass, words[q])
  {
    seq(|words|, q requires 0 <= q < |words| => DecoderClass(output, m, openClass, words[q]))
  }

  /** With the open class registered, every class the decoder uses is
      registered, so `output[tags]` never appends and its id is in range. */
  lemma DecoderClassesRegistered(output: Registry, m: nat, openClass: TagSet, words: seq<Word>)
    requires m <= |output| && openClass in output
    ensures var cls := DecoderClasses(output, m, openClass, words);
            forall q :: 0 <= q < |cls| ==> cls[q] in output && 0 <= Ids(output, cls)[q] < |output|
  {
    var cls := DecoderClasses(output, m, openClass, words);
    forall q | 0 <= q < |cls|
      ensures cls[q] in output && 0 <= Ids(output, cls)[q] < |output|
    {
      var c := ClassOf(words[q], openClass);
      if HasNot(output, c) {
        FindSimilarRegistered(output, m, openClass, c);
        if cls[q] != openClass {
          var b :| 0 <= b < m && output[..m][b] == cls[q];
          assert output[b] == cls[q];
        }
      }
    }
  }

  // ---------------------------------------------------------------------
  // The recurrence
  // ---------------------------------------------------------------------

  /** The model the decoder reads: N tags, M ambiguity classes, the
      transition probabilities A[k2][j][i] and the emission probabilities
      B[j][i][k], as values. */
  datatype Hmm = Hmm(n: nat, m: nat, A: (Tag, Tag, Tag) -> real, B: (Tag, Tag, int) -> real)

  /** A consistent decoding problem: the end-of-sentence tag and every
      class lie in 0 .. N-1, and every class id is one of the M classes. */
  predicate Fits(h: Hmm, cls: seq<TagSet>, ks: seq<int>, eos: Tag)
  {
    && 0 <= eos < h.n && |ks| == |cls|
    && forall q :: 0 <= q < |cls| ==> InRange(cls[q], h.n) && 0 <= ks[q] < h.m
  }

  /** The class two words before word p (`prepretags`): the end of sentence
      for the first two words. */
  function Before2(cls: seq<TagSet>, eos: Tag, p: nat): TagSet
    requires p <= |cls|
  {
    if p <= 1 then {eos} else cls[p - 2]
  }

  /** Word p starts a run of buffered words: it is the first word, or the
      words before it were flushed. */
  predicate Start(cls: seq<TagSet>, eos: Tag, p: nat)
    requires p <= |cls|
  {
    p == 0 || Anchor(cls, eos, p - 1)
  }

  /** Where the buffer `wpend` starts after n words: just after the last
      word whose pair of classes was flushed. */
  function Open(cls: seq<TagSet>, eos: Tag, n: nat): (o: nat)
    requires n <= |cls|
    ensures o <= n && (o == n <==> Start(cls, eos, n))
  {
    if n == 0 then 0 else if Anchor(cls, eos, n - 1) then n else Open(cls, eos, n - 1)
  }

  /** The buffer after word p: emptied by an anchor, else unchanged. */
  lemma OpenStep(cls: seq<TagSet>, eos: Tag, p: nat)
    requires p < |cls|
    ensures Open(cls, eos, p + 1) == if Anchor(cls, eos, p) then p + 1 else Open(cls, eos, p)
  {
  }

  /** The tags around word p lie in 0 .. N-1. */
  lemma InRangeAround(h: Hmm, cls: seq<TagSet>, ks: seq<int>, eos: Tag, p: nat)
    requires Fits(h, cls, ks, eos) && p < |cls|
    ensures InRange(cls[p], h.n) && InRange(Before(cls, eos, p), h.n)
    ensures InRange(Before2(cls, eos, p), h.n)
  {
    if p >= 1 {
      assert InRange(cls[p - 1], h.n);
    }
    if p >= 2 {
      assert InRange(cls[p - 2], h.n);
    }
  }

  /** The score through k2: `alpha[k2][j] * A[k2][j][i] * B[j][i][k]`. */
  function Through(alpha: real, t: real, e: real): real
  {
    alpha * t * e
  }

  /** The tags of the word two before word p, in the order the innermost
      loop visits them (increasing). */
  ghost function K2s(cls: seq<TagSet>, eos: Tag, p: nat): (k2s: seq<Tag>)
    requires p <= |cls|
    ensures forall t :: t in k2s <==> t in Before2(cls, eos, p)
  {
    Asc(Before2(cls, eos, p))
  }

  /** The score and best path of the pair (j, i) at word p: `Relax` over
      all the tags of the word two before, for j a tag of the word before
      and i one of word p; (0, []) for any other pair, as the slot is
      cleared. */
  ghost function Cell(h: Hmm, cls: seq<TagSet>, ks: seq<int>, eos: Tag,
                      p: nat, j: int, i: int): (real, seq<Tag>)
    requires Fits(h, cls, ks, eos) && p < |cls|
    decreases p, 1
  {
    if j in Before(cls, eos, p) && i in cls[p] then Relax(h, cls, ks, eos, p, j, i, |K2s(cls, eos, p)|)
    else (0.0, [])
  }

  /** The innermost loop of the induction after its first q tags k2: the
      score through k2 is the score of (k2, j) at the word before (1 right
      after a flush) times A[k2][j][i] times B[j][i][k]; when the score so
      far is `<=` it, it is taken and the path becomes that of (k2, j)
      with i appended (after a flush, the path so far with i appended). */
  ghost function Relax(h: Hmm, cls: seq<TagSet>, ks: seq<int>, eos: Tag,
                       p: nat, j: Tag, i: Tag, q: nat): (real, seq<Tag>)
    requires Fits(h, cls, ks, eos) && p < |cls| && j in Before(cls, eos, p) && i in cls[p]
    requires q <= |K2s(cls, eos, p)|
    decreases p, 0, q
  {
    if q == 0 then (0.0, [])
    else
      var acc := Relax(h, cls, ks, eos, p, j, i, q - 1);
      var k2 := K2s(cls, eos, p)[q - 1];
      var prev := if Start(cls, eos, p) then (1.0, []) else Cell(h, cls, ks, eos, p - 1, k2, j);
      var x := Through(prev.0, h.A(k2, j, i), h.B(j, i, ks[p]));
      if acc.0 <= x then (x, (if Start(cls, eos, p) then acc.1 else prev.1) + [i]) else acc
  }

  /** Right after a flush (or at the first word) the word two before has a
      single tag. */
  lemma StartSingle(cls: seq<TagSet>, eos: Tag, p: nat)
    requires p < |cls| && Start(cls, eos, p)
    ensures |Before2(cls, eos, p)| == 1 && |Asc(Before2(cls, eos, p))| == 1
  {
    AscLength(Before2(cls, eos, p));
  }

  /** No best path is longer than the buffer. */
  lemma {:induction false} PathBound(h: Hmm, cls: seq<TagSet>, ks: seq<int>, eos: Tag,
                                     p: nat, j: int, i: int)
    requires Fits(h, cls, ks, eos) && p < |cls|
    ensures |Cell(h, cls, ks, eos, p, j, i).1| <= p - Open(cls, eos, p) + 1
    decreases p, 1
  {
    if j in Before(cls, eos, p) && i in cls[p] {
      RelaxBound(h, cls, ks, eos, p, j, i, |K2s(cls, eos, p)|);
    }
  }

  lemma {:induction false} RelaxBound(h: Hmm, cls: seq<TagSet>, ks: seq<int>, eos: Tag,
                                      p: nat, j: Tag, i: Tag, q: nat)
    requires Fits(h, cls, ks, eos) && p < |cls| && j in Before(cls, eos, p) && i in cls[p]
    requires q <= |K2s(cls, eos, p)|
    ensures |Relax(h, cls, ks, eos, p, j, i, q).1| <= p - Open(cls, eos, p) + 1
    decreases p, 0, q
  {
    if q > 0 {
      RelaxBound(h, cls, ks, eos, p, j, i, q - 1);
      if Start(cls, eos, p) {
        StartSingle(cls, eos, p);
      } else {
        PathBound(h, cls, ks, eos, p - 1, K2s(cls, eos, p)[q - 1], j);
      }
    }
  }

  /** No probability is negative. */
  ghost predicate NonNegative(h: Hmm)
  {
    && (forall x, y, z :: 0 <= x < h.n && 0 <= y < h.n && 0 <= z < h.n ==> h.A(x, y, z) >= 0.0)
    && (forall x, y, z :: 0 <= x < h.n && 0 <= y < h.n && 0 <= z < h.m ==> h.B(x, y, z) >= 0.0)
  }

  /** The best path of (j, i) at word p, for j a tag of the word before and
      i one of word p: one tag per buffered word, ending with i, each a tag
      of its own word's class; its score is not negative. */
  ghost predicate Shaped(cls: seq<TagSet>, eos: Tag, p: nat, i: Tag, c: (real, seq<Tag>))
    requires p < |cls|
  {
    && c.0 >= 0.0 && |c.1| == p - Open(cls, eos, p) + 1 && c.1[|c.1| - 1] == i
    && forall t :: 0 <= t < |c.1| ==> c.1[t] in cls[Open(cls, eos, p) + t]
  }

  lemma {:induction false} PathShape(h: Hmm, cls: seq<TagSet>, ks: seq<int>, eos: Tag,
                                     p: nat, j: Tag, i: Tag)
    requires Fits(h, cls, ks, eos) && NonNegative(h) && p < |cls|
    requires forall q :: 0 <= q < |cls| ==> cls[q] != {}
    requires j in Before(cls, eos, p) && i in cls[p]
    ensures Shaped(cls, eos, p, i, Cell(h, cls, ks, eos, p, j, i))
    decreases p, 1
  {
    assert Before2(cls, eos, p) != {} by {
      if p >= 2 {
        assert cls[p - 2] != {};
      }
    }
    AscLength(Before2(cls, eos, p));
    RelaxShape(h, cls, ks, eos, p, j, i, |K2s(cls, eos, p)|);
  }

  /** A product of three non-negative reals is not negative. */
  lemma ProductNonNegative(u: real, v: real, w: real)
    requires u >= 0.0 && v >= 0.0 && w >= 0.0
    ensures Through(u, v, w) >= 0.0
  {
    assert u * v >= 0.0;
  }

  /** A path begun at a run's first word is shaped. */
  lemma ShapedBegin(cls: seq<TagSet>, eos: Tag, p: nat, i: Tag, x: real)
    requires p < |cls| && Start(cls, eos, p) && i in cls[p] && x >= 0.0
    ensures Shaped(cls, eos, p, i, (x, [i]))
  {
  }

  /** A shaped path of the word before, extended with a tag of word p, is
      shaped. */
  lemma ShapedExtend(cls: seq<TagSet>, eos: Tag, p: nat, j: Tag, i: Tag, path: seq<Tag>, y: real, x: real)
    requires 0 < p < |cls| && !Start(cls, eos, p) && i in cls[p] && x >= 0.0
    requires Shaped(cls, eos, p - 1, j, (y, path))
    ensures Shaped(cls, eos, p, i, (x, path + [i]))
  {
    var o := Open(cls, eos, p);
    assert o == Open(cls, eos, p - 1);
    forall t | 0 <= t < |path| + 1
      ensures (path + [i])[t] in cls[o + t]
    {
      if t < |path| {
        assert (path + [i])[t] == path[t];
      }
    }
  }

  lemma {:induction false} RelaxShape(h: Hmm, cls: seq<TagSet>, ks: seq<int>, eos: Tag,
                                      p: nat, j: Tag, i: Tag, q: nat)
    requires Fits(h, cls, ks, eos) && NonNegative(h) && p < |cls|
    requires forall q :: 0 <= q < |cls| ==> cls[q] != {}
    requires j in Before(cls, eos, p) && i in cls[p]
    requires 0 < q <= |K2s(cls, eos, p)|
    ensures Shaped(cls, eos, p, i, Relax(h, cls, ks, eos, p, j, i, q))
    decreases p, 0, q
  {
    var k2 := K2s(cls, eos, p)[q - 1];
    assert k2 in Before2(cls, eos, p);
    var acc := Relax(h, cls, ks, eos, p, j, i, q - 1);
    var start := Start(cls, eos, p);
    if start {
      StartSingle(cls, eos, p);
      assert acc == (0.0, []);
    } else if q > 1 {
      RelaxShape(h, cls, ks, eos, p, j, i, q - 1);
    }
    var prev := if start then (1.0, []) else Cell(h, cls, ks, eos, p - 1, k2, j);
    InRangeAround(h, cls, ks, eos, p);
    var x := Through(prev.0, h.A(k2, j, i), h.B(j, i, ks[p]));
    if !start {
      PathShape(h, cls, ks, eos, p - 1, k2, j);
    }
    assert h.A(k2, j, i) >= 0.0 && h.B(j, i, ks[p]) >= 0.0;
    ProductNonNegative(prev.0, h.A(k2, j, i), h.B(j, i, ks[p]));
    var r := Relax(h, cls, ks, eos, p, j, i, q);
    if acc.0 <= x {
      if start {
        assert acc.1 + [i] == [i];
        ShapedBegin(cls, eos, p, i, x);
      } else {
        assert r == (x, prev.1 + [i]);
        ShapedExtend(cls, eos, p, j, i, prev.1, prev.0, x);
      }
    } else {
      assert r == acc;
    }
  }

  // ---------------------------------------------------------------------
  // What is written
  // ---------------------------------------------------------------------

  /** The buffered words paired with the tags of a path, one per tag. */
  function Zip(ws: seq<Word>, path: seq<Tag>): (z: seq<(Word, Tag)>)
    requires |path| <= |ws|
    ensures |z| == |path| && forall t :: 0 <= t < |path| ==> z[t] == (ws[t], path[t])
  {
    seq(|path|, t requires 0 <= t < |path| => (ws[t], path[t]))
  }

  /** What a flush at word p writes: the buffered words with the best path
      to (pretag, tag), the only tags of the word before and of word p. */
  ghost function Flushed(words: seq<Word>, h: Hmm, cls: seq<TagSet>, ks: seq<int>,
                         eos: Tag, p: nat): seq<(Word, Tag)>
    requires Fits(h, cls, ks, eos) && |words| == |cls| && p < |cls| && Anchor(cls, eos, p)
  {
    InRangeAround(h, cls, ks, eos, p);
    var pretag := MinTag(Before(cls, eos, p), h.n);
    var tag := MinTag(cls[p], h.n);
    PathBound(h, cls, ks, eos, p, pretag, tag);
    Zip(words[Open(cls, eos, p)..p + 1], Cell(h, cls, ks, eos, p, pretag, tag).1)
  }

  /** Everything written after the first n words. */
  ghost function Emitted(words: seq<Word>, h: Hmm, cls: seq<TagSet>, ks: seq<int>,
                         eos: Tag, n: nat): seq<(Word, Tag)>
    requires Fits(h, cls, ks, eos) && |words| == |cls| && n <= |cls|
  {
    if n == 0 then []
    else
      Emitted(words, h, cls, ks, eos, n - 1)
      + if Anchor(cls, eos, n - 1) then Flushed(words, h, cls, ks, eos, n - 1) else []
  }

  /** A flush writes each buffered word once, in order, with a tag of its
      own class. */
  lemma FlushedShape(words: seq<Word>, h: Hmm, cls: seq<TagSet>, ks: seq<int>,
                     eos: Tag, p: nat)
    requires Fits(h, cls, ks, eos) && NonNegative(h) && |words| == |cls| && p < |cls| && Anchor(cls, eos, p)
    requires forall q :: 0 <= q < |cls| ==> cls[q] != {}
    ensures var f := Flushed(words, h, cls, ks, eos, p);
            var o := Open(cls, eos, p);
            |f| == p - o + 1 && forall t :: 0 <= t < |f| ==> f[t].0 == words[o + t] && f[t].1 in cls[o + t]
  {
    InRangeAround(h, cls, ks, eos, p);
    var pretag := MinTag(Before(cls, eos, p), h.n);
    var tag := MinTag(cls[p], h.n);
    PathShape(h, cls, ks, eos, p, pretag, tag);
    var c := Cell(h, cls, ks, eos, p, pretag, tag);
    ZipShaped(words, cls, eos, p, tag, c);
    assert Flushed(words, h, cls, ks, eos, p) == Zip(words[Open(cls, eos, p)..p + 1], c.1);
  }

  /** The buffered words zipped with a shaped path: each once, in order,
      with a tag of its own class. */
  lemma ZipShaped(words: seq<Word>, cls: seq<TagSet>, eos: Tag, p: nat, i: Tag, c: (real, seq<Tag>))
    requires |words| == |cls| && p < |cls| && Shaped(cls, eos, p, i, c)
    ensures var o := Open(cls, eos, p);
            var f := Zip(words[o..p + 1], c.1);
            |f| == p - o + 1 && forall t :: 0 <= t < |f| ==> f[t].0 == words[o + t] && f[t].1 in cls[o + t]
  {
    var o := Open(cls, eos, p);
    var ws := words[o..p + 1];
    var f := Zip(ws, c.1);
    forall t | 0 <= t < |f|
      ensures f[t].0 == words[o + t] && f[t].1 in cls[o + t]
    {
      assert f[t] == (ws[t], c.1[t]);
    }
  }

  /** `e` writes the first n words, each once, in order, with a tag of its
      own class. */
  predicate Covers(words: seq<Word>, cls: seq<TagSet>, e: seq<(Word, Tag)>, n: nat)
    requires n <= |words| == |cls|
  {
    |e| == n && forall t :: 0 <= t < |e| ==> e[t].0 == words[t] && e[t].1 in cls[t]
  }

  /** Writing words o .. n-1 after the first o covers the first n. */
  lemma CoversAppend(words: seq<Word>, cls: seq<TagSet>, e0: seq<(Word, Tag)>, f: seq<(Word, Tag)>, o: nat, n: nat)
    requires o <= n <= |words| == |cls| && Covers(words, cls, e0, o)
    requires |f| == n - o && forall t :: 0 <= t < |f| ==> f[t].0 == words[o + t] && f[t].1 in cls[o + t]
    ensures Covers(words, cls, e0 + f, n)
  {
    forall t | 0 <= t < n
      ensures (e0 + f)[t].0 == words[t] && (e0 + f)[t].1 in cls[t]
    {
      if t >= o {
        assert (e0 + f)[t] == f[t - o];
      }
    }
  }

  /** A flush at an anchor p completes the cover up to p + 1. */
  lemma FlushCovers(words: seq<Word>, h: Hmm, cls: seq<TagSet>, ks: seq<int>, eos: Tag, p: nat,
                    e0: seq<(Word, Tag)>)
    requires Fits(h, cls, ks, eos) && NonNegative(h) && |words| == |cls| && p < |cls| && Anchor(cls, eos, p)
    requires forall q :: 0 <= q < |cls| ==> cls[q] != {}
    requires Covers(words, cls, e0, Open(cls, eos, p))
    ensures Covers(words, cls, e0 + Flushed(words, h, cls, ks, eos, p), p + 1)
  {
    FlushedShape(words, h, cls, ks, eos, p);
    CoversAppend(words, cls, e0, Flushed(words, h, cls, ks, eos, p), Open(cls, eos, p), p + 1);
  }

  /** With probabilities that are not negative and no empty class, the
      words up to the last flush are each written once, in order, with a
      tag of their own class; the words after it are still buffered. */
  lemma {:induction false} EmittedCovers(words: seq<Word>, h: Hmm, cls: seq<TagSet>, ks: seq<int>, eos: Tag, n: nat)
    requires Fits(h, cls, ks, eos) && NonNegative(h) && |words| == |cls| && n <= |cls|
    requires forall q :: 0 <= q < |cls| ==> cls[q] != {}
    ensures Covers(words, cls, Emitted(words, h, cls, ks, eos, n), Open(cls, eos, n))
  {
    if n > 0 {
      var p := n - 1;
      EmittedCovers(words, h, cls, ks, eos, p);
      var e0 := Emitted(words, h, cls, ks, eos, p);
      var f := EmittedStep(words, h, cls, ks, eos, p);
      OpenStep(cls, eos, p);
      if Anchor(cls, eos, p) {
        FlushCovers(words, h, cls, ks, eos, p, e0);
      } else {
        assert e0 + f == e0;
      }
    }
  }

  /** One step of `Emitted`: word p adds its flush, if any. */
  lemma EmittedStep(words: seq<Word>, h: Hmm, cls: seq<TagSet>, ks: seq<int>, eos: Tag, p: nat)
    returns (f: seq<(Word, Tag)>)
    requires Fits(h, cls, ks, eos) && |words| == |cls| && p < |cls|
    ensures f == if Anchor(cls, eos, p) then Flushed(words, h, cls, ks, eos, p) else []
    ensures Emitted(words, h, cls, ks, eos, p + 1) == Emitted(words, h, cls, ks, eos, p) + f
  {
    f := if Anchor(cls, eos, p) then Flushed(words, h, cls, ks, eos, p) else [];
  }

  // ---------------------------------------------------------------------
  // The decoder
  // ---------------------------------------------------------------------

  /** The arrays of the tagger data hold the model: A is N x N x N and B is
      N x N x M. */
  ghost predicate Represents(h: Hmm, a: array3<real>, b: array3<real>)
    reads a, b
  {
    && a.Length0 == h.n && a.Length1 == h.n && a.Length2 == h.n
    && b.Length0 == h.n && b.Length1 == h.n && b.Length2 == h.m
    && (forall x, y, z :: 0 <= x < h.n && 0 <= y < h.n && 0 <= z < h.n ==> a[x, y, z] == h.A(x, y, z))
    && (forall x, y, z :: 0 <= x < h.n && 0 <= y < h.n && 0 <= z < h.m ==> b[x, y, z] == h.B(x, y, z))
  }

  /** `alpha` and `best`: two parity slots of N x N cells each. */
  predicate Slots(alpha: array3<real>, best: array3<seq<Tag>>, n: nat)
  {
    alpha.Length0 == 2 && alpha.Length1 == n && alpha.Length2 == n
    && best.Length0 == 2 && best.Length1 == n && best.Length2 == n
  }

  /** Slot s holds the scores and best paths of word p. */
  ghost predicate Holds(h: Hmm, cls: seq<TagSet>, ks: seq<int>, eos: Tag,
                        alpha: array3<real>, best: array3<seq<Tag>>, s: nat, p: nat)
    requires Fits(h, cls, ks, eos) && p < |cls| && Slots(alpha, best, h.n) && s < 2
    reads alpha, best
  {
    forall y, z :: 0 <= y < h.n && 0 <= z < h.n ==>
      alpha[s, y, z] == Cell(h, cls, ks, eos, p, y, z).0 && best[s, y, z] == Cell(h, cls, ks, eos, p, y, z).1
  }

  /** The slot word n reads: the other one than it writes. */
  function Other(cls: seq<TagSet>, eos: Tag, n: nat): nat
    requires n <= |cls|
  {
    (n - Open(cls, eos, n)) % 2
  }

  /** The slot word p writes is the other one than it reads. */
  lemma OtherSlot(cls: seq<TagSet>, eos: Tag, p: nat, nwpend: nat)
    requires p < |cls| && nwpend == p - Open(cls, eos, p) + 1
    ensures 1 - nwpend % 2 == Other(cls, eos, p)
  {
  }

  /** What word n reads from the other slot is in place: 1 for the pair
      flushed last (or (eos, eos) at the start), the scores and paths of
      the word before otherwise. */
  ghost predicate Ready(h: Hmm, cls: seq<TagSet>, ks: seq<int>, eos: Tag,
                        alpha: array3<real>, best: array3<seq<Tag>>, n: nat)
    requires Fits(h, cls, ks, eos) && n <= |cls| && Slots(alpha, best, h.n)
    reads alpha, best
  {
    var r := Other(cls, eos, n);
    forall k2, j :: 0 <= k2 < h.n && 0 <= j < h.n && k2 in Before2(cls, eos, n) && j in Before(cls, eos, n) ==>
      if Start(cls, eos, n) then alpha[r, k2, j] == 1.0
      else alpha[r, k2, j] == Cell(h, cls, ks, eos, n - 1, k2, j).0 && best[r, k2, j] == Cell(h, cls, ks, eos, n - 1, k2, j).1
  }

  /** What `Ready` says of one pair (k2, j): the cell the relaxation
      reads, as `Relax` reads it. */
  lemma ReadyAt(h: Hmm, cls: seq<TagSet>, ks: seq<int>, eos: Tag,
                alpha: array3<real>, best: array3<seq<Tag>>, p: nat, k2: Tag, j: Tag)
    returns (prev: (real, seq<Tag>))
    requires Fits(h, cls, ks, eos) && p < |cls| && Slots(alpha, best, h.n)
    requires Ready(h, cls, ks, eos, alpha, best, p)
    requires k2 in Before2(cls, eos, p) && j in Before(cls, eos, p)
    ensures InRange(Before2(cls, eos, p), h.n) && InRange(Before(cls, eos, p), h.n)
    ensures prev == if Start(cls, eos, p) then (1.0, []) else Cell(h, cls, ks, eos, p - 1, k2, j)
    ensures alpha[Other(cls, eos, p), k2, j] == prev.0
    ensures !Start(cls, eos, p) ==> best[Other(cls, eos, p), k2, j] == prev.1
  {
    InRangeAround(h, cls, ks, eos, p);
    prev := if Start(cls, eos, p) then (1.0, []) else Cell(h, cls, ks, eos, p - 1, k2, j);
  }

  /** One step of the innermost loop: the score through k2s[q] is taken
      when the score so far is `<=` it. */
  method RelaxOne(a: array3<real>, b: array3<real>, alpha: array3<real>, best: array3<seq<Tag>>,
                  r: nat, j: Tag, i: Tag, k2s: seq<Tag>, q: nat, k: int, nwpend: nat, v: real, path: seq<Tag>,
                  ghost h: Hmm, ghost cls: seq<TagSet>, ghost ks: seq<int>, eos: Tag, ghost p: nat)
    returns (v': real, path': seq<Tag>)
    requires Represents(h, a, b) && Fits(h, cls, ks, eos) && p < |cls| && Slots(alpha, best, h.n)
    requires nwpend == p - Open(cls, eos, p) + 1 && r == Other(cls, eos, p) && k == ks[p]
    requires j in Before(cls, eos, p) && i in cls[p] && k2s == K2s(cls, eos, p) && q < |k2s|
    requires Ready(h, cls, ks, eos, alpha, best, p)
    requires (v, path) == Relax(h, cls, ks, eos, p, j, i, q)
    ensures (v', path') == Relax(h, cls, ks, eos, p, j, i, q + 1)
  {
    var k2 := k2s[q];
    assert k2 in k2s;
    ghost var prev := ReadyAt(h, cls, ks, eos, alpha, best, p, k2, j);
    assert nwpend > 1 <==> !Start(cls, eos, p);
    InRangeAround(h, cls, ks, eos, p);
    assert a[k2, j, i] == h.A(k2, j, i) && b[j, i, k] == h.B(j, i, k);
    var x := Through(alpha[r, k2, j], a[k2, j, i], b[j, i, k]);
    v', path' := v, path;
    if v <= x {
      if nwpend > 1 {
        path' := best[r, k2, j];
      }
      path' := path' + [i];
      v' := x;
    }
  }

  /** The innermost loop for the pair (j, i) of word p: over the tags k2 of
      the word two before, in increasing order. The cell being relaxed is
      kept in `v` and `path` (the loop reads only the other slot, so this is
      the cell's value). */
  method RelaxCell(a: array3<real>, b: array3<real>, alpha: array3<real>, best: array3<seq<Tag>>,
                   r: nat, j: Tag, i: Tag, k2s: seq<Tag>, k: int, nwpend: nat,
                   ghost h: Hmm, ghost cls: seq<TagSet>, ghost ks: seq<int>, eos: Tag, ghost p: nat)
    returns (v: real, path: seq<Tag>)
    requires Represents(h, a, b) && Fits(h, cls, ks, eos) && p < |cls| && Slots(alpha, best, h.n)
    requires nwpend == p - Open(cls, eos, p) + 1 && r == Other(cls, eos, p) && k == ks[p]
    requires j in Before(cls, eos, p) && i in cls[p] && k2s == K2s(cls, eos, p)
    requires Ready(h, cls, ks, eos, alpha, best, p)
    ensures (v, path) == Cell(h, cls, ks, eos, p, j, i)
  {
    v, path := 0.0, [];
    var q := 0;
    while q < |k2s|
      invariant 0 <= q <= |k2s|
      invariant (v, path) == Relax(h, cls, ks, eos, p, j, i, q)
    {
      v, path := RelaxOne(a, b, alpha, best, r, j, i, k2s, q, k, nwpend, v, path, h, cls, ks, eos, p);
      q := q + 1;
    }
  }

  /** What cell (y, z) of word p's slot holds once written (`filled`) or
      before: cleared to score 0 and the empty path. */
  ghost function Want(h: Hmm, cls: seq<TagSet>, ks: seq<int>, eos: Tag, p: nat, y: Tag, z: Tag, filled: bool)
    : (real, seq<Tag>)
    requires Fits(h, cls, ks, eos) && p < |cls|
  {
    if filled then Cell(h, cls, ks, eos, p, y, z) else (0.0, [])
  }

  /** Slot s part-way through word p: the columns `cols` are done, and so
      are the rows `rows` of the column in `col`; every other cell is
      cleared. */
  ghost predicate Partial(h: Hmm, cls: seq<TagSet>, ks: seq<int>, eos: Tag,
                          alpha: array3<real>, best: array3<seq<Tag>>, s: nat, p: nat,
                          cols: set<Tag>, col: set<Tag>, rows: set<Tag>)
    requires Fits(h, cls, ks, eos) && p < |cls| && Slots(alpha, best, h.n) && s < 2
    reads alpha, best
  {
    forall y, z :: 0 <= y < h.n && 0 <= z < h.n ==>
      alpha[s, y, z] == Want(h, cls, ks, eos, p, y, z, z in cols || (z in col && y in rows)).0
      && best[s, y, z] == Want(h, cls, ks, eos, p, y, z, z in cols || (z in col && y in rows)).1
  }

  /** The clearing of slot s before each word; the other slot, r, is
      untouched. */
  method Clear(alpha: array3<real>, best: array3<seq<Tag>>, s: nat, ghost r: nat)
    requires Slots(alpha, best, alpha.Length1) && s < 2 && r == 1 - s
    modifies alpha, best
    ensures forall y, z :: 0 <= y < alpha.Length1 && 0 <= z < alpha.Length2 ==>
              alpha[s, y, z] == 0.0 && best[s, y, z] == []
    ensures forall y, z :: 0 <= y < alpha.Length1 && 0 <= z < alpha.Length2 ==>
              alpha[r, y, z] == old(alpha[r, y, z]) && best[r, y, z] == old(best[r, y, z])
  {
    var n := alpha.Length1;
    var i := 0;
    while i < n
      invariant 0 <= i <= n
      invariant forall y, z :: 0 <= y < i && 0 <= z < n ==> alpha[s, y, z] == 0.0 && best[s, y, z] == []
      invariant forall y, z :: 0 <= y < n && 0 <= z < n ==>
                  alpha[r, y, z] == old(alpha[r, y, z]) && best[r, y, z] == old(best[r, y, z])
    {
      var j := 0;
      while j < n
        invariant 0 <= j <= n
        invariant forall y, z :: 0 <= y < i && 0 <= z < n ==> alpha[s, y, z] == 0.0 && best[s, y, z] == []
        invariant forall z :: 0 <= z < j ==> alpha[s, i, z] == 0.0 && best[s, i, z] == []
        invariant forall y, z :: 0 <= y < n && 0 <= z < n ==>
                    alpha[r, y, z] == old(alpha[r, y, z]) && best[r, y, z] == old(best[r, y, z])
      {
        alpha[s, i, j] := 0.0;
        best[s, i, j] := [];
        j := j + 1;
      }
      i := i + 1;
    }
  }

  /** One cell of slot s of word p is written with its value: one more row
      of the open column is done, and what word p reads, in the other
      slot, is untouched. */
  method Put(alpha: array3<real>, best: array3<seq<Tag>>, s: nat, j: Tag, i: Tag, val: real, path: seq<Tag>,
             ghost h: Hmm, ghost cls: seq<TagSet>, ghost ks: seq<int>, eos: Tag, ghost p: nat,
             ghost cols: set<Tag>, ghost rows: set<Tag>)
    requires Fits(h, cls, ks, eos) && p < |cls| && Slots(alpha, best, h.n)
    requires s == 1 - Other(cls, eos, p) && 0 <= j < h.n && 0 <= i < h.n && i !in cols
    requires (val, path) == Cell(h, cls, ks, eos, p, j, i)
    requires Partial(h, cls, ks, eos, alpha, best, s, p, cols, {i}, rows)
    requires Ready(h, cls, ks, eos, alpha, best, p)
    modifies alpha, best
    ensures Partial(h, cls, ks, eos, alpha, best, s, p, cols, {i}, rows + {j})
    ensures Ready(h, cls, ks, eos, alpha, best, p)
  {
    alpha[s, j, i] := val;
    best[s, j, i] := path;
  }

  /** A column whose remaining rows are not tags of the word before is
      done. */
  lemma ColumnDone(h: Hmm, cls: seq<TagSet>, ks: seq<int>, eos: Tag,
                   alpha: array3<real>, best: array3<seq<Tag>>, s: nat, p: nat,
                   cols: set<Tag>, i: Tag, rows: set<Tag>)
    requires Fits(h, cls, ks, eos) && p < |cls| && Slots(alpha, best, h.n) && s < 2
    requires Partial(h, cls, ks, eos, alpha, best, s, p, cols, {i}, rows)
    requires forall y :: 0 <= y < h.n && y !in rows ==> y !in Before(cls, eos, p)
    ensures Partial(h, cls, ks, eos, alpha, best, s, p, cols + {i}, {}, {})
  {
    forall y, z | 0 <= y < h.n && 0 <= z < h.n
      ensures Want(h, cls, ks, eos, p, y, z, z in cols || (z in {i} && y in rows))
           == Want(h, cls, ks, eos, p, y, z, z in cols + {i})
    {
      if z == i && z !in cols && y !in rows {
        assert y !in Before(cls, eos, p);
      }
    }
  }

  /** A slot whose remaining columns are not tags of word p holds word p. */
  lemma SlotDone(h: Hmm, cls: seq<TagSet>, ks: seq<int>, eos: Tag,
                 alpha: array3<real>, best: array3<seq<Tag>>, s: nat, p: nat, cols: set<Tag>)
    requires Fits(h, cls, ks, eos) && p < |cls| && Slots(alpha, best, h.n) && s < 2
    requires Partial(h, cls, ks, eos, alpha, best, s, p, cols, {}, {})
    requires forall z :: 0 <= z < h.n && z !in cols ==> z !in cls[p]
    ensures Holds(h, cls, ks, eos, alpha, best, s, p)
  {
    forall y, z | 0 <= y < h.n && 0 <= z < h.n
      ensures Want(h, cls, ks, eos, p, y, z, z in cols || (z in {} && y in {})) == Cell(h, cls, ks, eos, p, y, z)
    {
      if z !in cols {
        assert z !in cls[p];
      }
    }
  }

  /** The middle loop for tag i of word p: every tag j of the word before,
      in increasing order, gets the cell (j, i) of slot s, and column i is
      done. */
  method RelaxColumn(a: array3<real>, b: array3<real>, alpha: array3<real>, best: array3<seq<Tag>>,
                     s: nat, i: Tag, js: seq<Tag>, k2s: seq<Tag>, k: int, nwpend: nat,
                     ghost h: Hmm, ghost cls: seq<TagSet>, ghost ks: seq<int>, eos: Tag, ghost p: nat,
                     ghost cols: set<Tag>)
    requires Represents(h, a, b) && Fits(h, cls, ks, eos) && p < |cls| && Slots(alpha, best, h.n)
    requires alpha != a && alpha != b
    requires nwpend == p - Open(cls, eos, p) + 1 && s == nwpend % 2 && k == ks[p]
    requires i in cls[p] && i !in cols && js == Asc(Before(cls, eos, p)) && k2s == K2s(cls, eos, p)
    requires Ready(h, cls, ks, eos, alpha, best, p)
    requires Partial(h, cls, ks, eos, alpha, best, s, p, cols, {}, {})
    modifies alpha, best
    ensures Partial(h, cls, ks, eos, alpha, best, s, p, cols + {i}, {}, {})
    ensures Ready(h, cls, ks, eos, alpha, best, p)
  {
    InRangeAround(h, cls, ks, eos, p);
    var r := 1 - s;
    OtherSlot(cls, eos, p, nwpend);
    ghost var done: set<Tag> := {};
    assert Partial(h, cls, ks, eos, alpha, best, s, p, cols, {i}, done);
    var v := 0;
    while v < |js|
      invariant 0 <= v <= |js|
      invariant forall q :: 0 <= q < v ==> js[q] in done
      invariant Represents(h, a, b)
      invariant Partial(h, cls, ks, eos, alpha, best, s, p, cols, {i}, done)
      invariant Ready(h, cls, ks, eos, alpha, best, p)
    {
      var j := js[v];
      assert j in js;
      var val, path := RelaxCell(a, b, alpha, best, r, j, i, k2s, k, nwpend, h, cls, ks, eos, p);
      Put(alpha, best, s, j, i, val, path, h, cls, ks, eos, p, cols, done);
      done := done + {j};
      v := v + 1;
    }
    forall y | 0 <= y < h.n && y !in done
      ensures y !in Before(cls, eos, p)
    {
      assert y !in js;
    }
    ColumnDone(h, cls, ks, eos, alpha, best, s, p, cols, i, done);
  }

  /** The induction for word p: every tag i of the word (`its`, in
      increasing order) gets its column of slot s, which then holds word p. */
  method Induction(a: array3<real>, b: array3<real>, alpha: array3<real>, best: array3<seq<Tag>>,
                   s: nat, its: seq<Tag>, js: seq<Tag>, k2s: seq<Tag>, k: int, nwpend: nat,
                   ghost h: Hmm, ghost cls: seq<TagSet>, ghost ks: seq<int>, eos: Tag, ghost p: nat)
    requires Represents(h, a, b) && Fits(h, cls, ks, eos) && p < |cls| && Slots(alpha, best, h.n)
    requires alpha != a && alpha != b
    requires nwpend == p - Open(cls, eos, p) + 1 && s == nwpend % 2 && k == ks[p]
    requires its == Asc(cls[p]) && js == Asc(Before(cls, eos, p)) && k2s == K2s(cls, eos, p)
    requires Ready(h, cls, ks, eos, alpha, best, p)
    requires forall y, z :: 0 <= y < h.n && 0 <= z < h.n ==> alpha[s, y, z] == 0.0 && best[s, y, z] == []
    modifies alpha, best
    ensures Holds(h, cls, ks, eos, alpha, best, s, p)
  {
    ghost var done: set<Tag> := {};
    assert Partial(h, cls, ks, eos, alpha, best, s, p, done, {}, {});
    var u := 0;
    while u < |its|
      invariant 0 <= u <= |its|
      invariant forall q :: 0 <= q < u ==> its[q] in done
      invariant u < |its| ==> forall z :: z in done ==> z < its[u]
      invariant Represents(h, a, b)
      invariant Partial(h, cls, ks, eos, alpha, best, s, p, done, {}, {})
      invariant Ready(h, cls, ks, eos, alpha, best, p)
    {
      var i := its[u];
      assert i in its && i !in done;
      RelaxColumn(a, b, alpha, best, s, i, js, k2s, k, nwpend, h, cls, ks, eos, p, done);
      done := done + {i};
      u := u + 1;
    }
    forall z | 0 <= z < h.n && z !in done
      ensures z !in cls[p]
    {
      assert z !in its;
    }
    SlotDone(h, cls, ks, eos, alpha, best, s, p, done);
  }

  /** The class of a word and its id: `get_tags()` or the open class, then
      `find_similar_ambiguity_class` over the first m classes when it is
      new, then `output[tags]`, which finds it. */
  method ClassFor(output: Registry, m: nat, openClass: TagSet, w: Word) returns (tags: TagSet, k: int)
    requires m <= |output| && openClass in output
    ensures tags == DecoderClass(output, m, openClass, w) && tags in output
    ensures k == IndexFrom(output, tags, 0) && 0 <= k < |output|
  {
    tags := w.tags;
    if |tags| == 0 {
      tags := openClass;
    }
    if HasNot(output, tags) {
      tags := FindSimilarClass(output, m, openClass, tags);
      ghost var c := ClassOf(w, openClass);
      FindSimilarRegistered(output, m, openClass, c);
      if tags != openClass {
        var b :| 0 <= b < m && output[..m][b] == tags;
        assert output[b] == tags;
      }
    }
    k := Lookup(output, tags).1;
  }

  /** The buffered words written with the tags of a path, one per tag. */
  method Emit(out: seq<(Word, Tag)>, wpend: seq<Word>, path: seq<Tag>) returns (out': seq<(Word, Tag)>)
    requires |path| <= |wpend|
    ensures out' == out + Zip(wpend, path)
  {
    out' := out;
    var t := 0;
    while t < |path|
      invariant 0 <= t <= |path|
      invariant out' == out + Zip(wpend, path[..t])
    {
      assert Zip(wpend, path[..t + 1]) == Zip(wpend, path[..t]) + [(wpend[t], path[t])];
      out' := out' + [(wpend[t], path[t])];
      t := t + 1;
    }
    assert path[..t] == path;
  }

  /** The decoder between words: n words read, the buffer `wpend` holds
      those since the last flush, `tags` and `pretags` are the classes of
      the last word and the one before, `out` is what has been written,
      and the scores word n reads are in place. */
  ghost predicate Decoding(words: seq<Word>, h: Hmm, cls: seq<TagSet>, ks: seq<int>, eos: Tag,
                           alpha: array3<real>, best: array3<seq<Tag>>, n: nat,
                           wpend: seq<Word>, tags: TagSet, pretags: TagSet, out: seq<(Word, Tag)>)
    requires Fits(h, cls, ks, eos) && |words| == |cls| && n <= |cls| && Slots(alpha, best, h.n)
    reads alpha, best
  {
    && wpend == words[Open(cls, eos, n)..n]
    && tags == Before(cls, eos, n) && pretags == Before2(cls, eos, n)
    && out == Emitted(words, h, cls, ks, eos, n)
    && Ready(h, cls, ks, eos, alpha, best, n)
  }

  /** Without a flush, word p + 1 reads the slot word p writes. */
  lemma OtherNext(cls: seq<TagSet>, eos: Tag, p: nat)
    requires p < |cls| && !Anchor(cls, eos, p)
    ensures !Start(cls, eos, p + 1) && Other(cls, eos, p + 1) == (p - Open(cls, eos, p) + 1) % 2
  {
    OpenStep(cls, eos, p);
  }

  /** Without a flush, word p + 1 reads word p's slot. */
  lemma ReadyNext(h: Hmm, cls: seq<TagSet>, ks: seq<int>, eos: Tag,
                  alpha: array3<real>, best: array3<seq<Tag>>, s: nat, p: nat)
    requires Fits(h, cls, ks, eos) && p < |cls| && Slots(alpha, best, h.n) && s < 2
    requires !Anchor(cls, eos, p) && s == (p - Open(cls, eos, p) + 1) % 2
    requires Holds(h, cls, ks, eos, alpha, best, s, p)
    ensures Ready(h, cls, ks, eos, alpha, best, p + 1)
  {
    OtherNext(cls, eos, p);
    forall k2, j | 0 <= k2 < h.n && 0 <= j < h.n
      ensures alpha[s, k2, j] == Cell(h, cls, ks, eos, p, k2, j).0 && best[s, k2, j] == Cell(h, cls, ks, eos, p, k2, j).1
    {
    }
  }

  /** After a flush, word p + 1 starts from the flushed pair with score 1. */
  lemma ReadyRestart(h: Hmm, cls: seq<TagSet>, ks: seq<int>, eos: Tag,
                     alpha: array3<real>, best: array3<seq<Tag>>, p: nat, pretag: Tag, tag: Tag)
    requires Fits(h, cls, ks, eos) && p < |cls| && Slots(alpha, best, h.n)
    requires Anchor(cls, eos, p) && pretag in Before(cls, eos, p) && tag in cls[p]
    requires alpha[0, pretag, tag] == 1.0
    ensures Ready(h, cls, ks, eos, alpha, best, p + 1)
  {
    OpenStep(cls, eos, p);
    Singleton(Before(cls, eos, p), pretag);
    Singleton(cls[p], tag);
    assert Other(cls, eos, p + 1) == 0;
  }

  /** The backtracking at an anchor p: the best path to the only pair of
      tags is written for the buffered words, and word p + 1 starts from
      that pair. */
  method Flush(alpha: array3<real>, best: array3<seq<Tag>>, s: nat, tags: TagSet, pretags: TagSet,
               wpend: seq<Word>, out: seq<(Word, Tag)>,
               ghost words: seq<Word>, ghost h: Hmm, ghost cls: seq<TagSet>, ghost ks: seq<int>, eos: Tag, ghost p: nat)
    returns (out': seq<(Word, Tag)>)
    requires Fits(h, cls, ks, eos) && |words| == |cls| && p < |cls| && Slots(alpha, best, h.n) && s < 2
    requires Anchor(cls, eos, p) && tags == cls[p] && pretags == Before(cls, eos, p)
    requires wpend == words[Open(cls, eos, p)..p + 1] && out == Emitted(words, h, cls, ks, eos, p)
    requires Holds(h, cls, ks, eos, alpha, best, s, p)
    modifies alpha
    ensures out' == Emitted(words, h, cls, ks, eos, p + 1)
    ensures Ready(h, cls, ks, eos, alpha, best, p + 1)
  {
    InRangeAround(h, cls, ks, eos, p);
    var tag := SetMin(tags);
    var pretag := SetMin(pretags);
    assert tag == MinTag(cls[p], h.n) && pretag == MinTag(Before(cls, eos, p), h.n);
    var path := best[s, pretag, tag];
    PathBound(h, cls, ks, eos, p, pretag, tag);
    out' := Emit(out, wpend, path);
    ghost var f := EmittedStep(words, h, cls, ks, eos, p);
    alpha[0, pretag, tag] := 1.0;
    ReadyRestart(h, cls, ks, eos, alpha, best, p, pretag, tag);
  }

  /** The slot word p writes is the one word p + 1 reads from, and what
      word p reads is kept when the slot is cleared. */
  method ClearFor(alpha: array3<real>, best: array3<seq<Tag>>, s: nat,
                  ghost h: Hmm, ghost cls: seq<TagSet>, ghost ks: seq<int>, eos: Tag, ghost p: nat)
    requires Fits(h, cls, ks, eos) && p < |cls| && Slots(alpha, best, h.n)
    requires s == (p - Open(cls, eos, p) + 1) % 2
    requires Ready(h, cls, ks, eos, alpha, best, p)
    modifies alpha, best
    ensures forall y, z :: 0 <= y < h.n && 0 <= z < h.n ==> alpha[s, y, z] == 0.0 && best[s, y, z] == []
    ensures Ready(h, cls, ks, eos, alpha, best, p)
  {
    OtherSlot(cls, eos, p, p - Open(cls, eos, p) + 1);
    Clear(alpha, best, s, 1 - s);
  }

  /** The scores of word p, given those of the word before: the class of
      the word and its id are found, the slot `nwpend % 2` is cleared and
      filled by the induction. */
  method Scores(a: array3<real>, b: array3<real>, alpha: array3<real>, best: array3<seq<Tag>>,
                output: Registry, openClass: TagSet, w: Word, nwpend: nat, pretags: TagSet, prepretags: TagSet,
                ghost words: seq<Word>, ghost h: Hmm, ghost cls: seq<TagSet>, ghost ks: seq<int>, eos: Tag, ghost p: nat)
    returns (tags: TagSet, s: nat)
    requires Represents(h, a, b) && alpha != a && alpha != b && Slots(alpha, best, h.n)
    requires h.m <= |output| && openClass in output
    requires cls == DecoderClasses(output, h.m, openClass, words) && ks == Ids(output, cls)
    requires Fits(h, cls, ks, eos) && p < |words| && w == words[p]
    requires nwpend == p - Open(cls, eos, p) + 1
    requires pretags == Before(cls, eos, p) && prepretags == Before2(cls, eos, p)
    requires Ready(h, cls, ks, eos, alpha, best, p)
    modifies alpha, best
    ensures tags == cls[p] && s == nwpend % 2
    ensures Holds(h, cls, ks, eos, alpha, best, s, p)
  {
    var k;
    tags, k := ClassFor(output, b.Length2, openClass, w);
    s := nwpend % 2;
    ClearFor(alpha, best, s, h, cls, ks, eos, p);
    var its := AscendingTags(tags);
    var js := AscendingTags(pretags);
    var k2s := AscendingTags(prepretags);
    Induction(a, b, alpha, best, s, its, js, k2s, k, nwpend, h, cls, ks, eos, p);
  }

  /** The end of word p: at an anchor the buffer is flushed and emptied,
      otherwise it is kept; either way the decoder is ready for word p + 1. */
  method Finish(alpha: array3<real>, best: array3<seq<Tag>>, s: nat, tags: TagSet, pretags: TagSet,
                wpend: seq<Word>, out: seq<(Word, Tag)>,
                ghost words: seq<Word>, ghost h: Hmm, ghost cls: seq<TagSet>, ghost ks: seq<int>, eos: Tag, ghost p: nat)
    returns (wpend': seq<Word>, out': seq<(Word, Tag)>)
    requires Fits(h, cls, ks, eos) && |words| == |cls| && p < |cls| && Slots(alpha, best, h.n)
    requires s == (p - Open(cls, eos, p) + 1) % 2
    requires tags == cls[p] && pretags == Before(cls, eos, p)
    requires wpend == words[Open(cls, eos, p)..p + 1] && out == Emitted(words, h, cls, ks, eos, p)
    requires Holds(h, cls, ks, eos, alpha, best, s, p)
    modifies alpha
    ensures Decoding(words, h, cls, ks, eos, alpha, best, p + 1, wpend', tags, pretags, out')
  {
    OpenStep(cls, eos, p);
    if |tags| == 1 && |pretags| == 1 {
      out' := Flush(alpha, best, s, tags, pretags, wpend, out, words, h, cls, ks, eos, p);
      wpend' := [];
    } else {
      ghost var f := EmittedStep(words, h, cls, ks, eos, p);
      out' := out;
      wpend' := wpend;
      ReadyNext(h, cls, ks, eos, alpha, best, s, p);
    }
  }

  /** One word of `HMM2::tagger`: it is buffered, its scores computed, and
      the buffer flushed at an anchor. */
  method Step(a: array3<real>, b: array3<real>, alpha: array3<real>, best: array3<seq<Tag>>,
              output: Registry, openClass: TagSet, w: Word,
              wpend: seq<Word>, tags: TagSet, pretags: TagSet, out: seq<(Word, Tag)>,
              ghost words: seq<Word>, ghost h: Hmm, ghost cls: seq<TagSet>, ghost ks: seq<int>, eos: Tag, ghost p: nat)
    returns (wpend': seq<Word>, tags': TagSet, pretags': TagSet, out': seq<(Word, Tag)>)
    requires Represents(h, a, b) && alpha != a && alpha != b && Slots(alpha, best, h.n)
    requires h.m <= |output| && openClass in output
    requires cls == DecoderClasses(output, h.m, openClass, words) && ks == Ids(output, cls)
    requires Fits(h, cls, ks, eos) && p < |words| && w == words[p]
    requires Decoding(words, h, cls, ks, eos, alpha, best, p, wpend, tags, pretags, out)
    modifies alpha, best
    ensures Decoding(words, h, cls, ks, eos, alpha, best, p + 1, wpend', tags', pretags', out')
  {
    var buffered := wpend + [w];
    assert buffered == words[Open(cls, eos, p)..p + 1];
    var s;
    pretags' := tags;
    tags', s := Scores(a, b, alpha, best, output, openClass, w, |buffered|, tags, pretags, words, h, cls, ks, eos, p);
    wpend', out' := Finish(alpha, best, s, tags', pretags', buffered, out, words, h, cls, ks, eos, p);
  }

  /** The classes and ids the decoder uses fit the model when the open
      class is registered and every registered class is in range. */
  lemma DecoderFits(output: Registry, h: Hmm, openClass: TagSet, words: seq<Word>, eos: Tag)
    requires |output| == h.m && openClass in output && ClassesInRange(output, h.n) && 0 <= eos < h.n
    ensures var cls := DecoderClasses(output, h.m, openClass, words);
            Fits(h, cls, Ids(output, cls), eos)
  {
    var cls := DecoderClasses(output, h.m, openClass, words);
    DecoderClassesRegistered(output, h.m, openClass, words);
    forall q | 0 <= q < |cls|
      ensures InRange(cls[q], h.n)
    {
      var k := Ids(output, cls)[q];
      assert output[k] == cls[q];
    }
  }

  /** `HMM2::tagger`: everything it writes for the words, given the model
      in the arrays `a` and `b`. The scores start at 0 rather than
      uninitialised. */
  method Tagger(words: seq<Word>, openClass: TagSet, output: Registry, eos: Tag,
                a: array3<real>, b: array3<real>, ghost h: Hmm)
    returns (out: seq<(Word, Tag)>)
    requires Represents(h, a, b) && |output| == h.m && openClass in output
    requires ClassesInRange(output, h.n) && 0 <= eos < h.n
    ensures var cls := DecoderClasses(output, h.m, openClass, words);
            Fits(h, cls, Ids(output, cls), eos)
            && out == Emitted(words, h, cls, Ids(output, cls), eos, |words|)
  {
    ghost var cls := DecoderClasses(output, h.m, openClass, words);
    ghost var ks := Ids(output, cls);
    DecoderFits(output, h, openClass, words, eos);
    var n := a.Length0;
    var alpha := new real[2, n, n]((x, y, z) => 0.0);
    var best := new seq<Tag>[2, n, n]((x, y, z) => []);
    alpha[0, eos, eos] := 1.0;
    var wpend: seq<Word> := [];
    var tags: TagSet := {eos};
    var pretags: TagSet := {eos};
    out := [];
    var p := 0;
    while p < |words|
      invariant 0 <= p <= |words|
      invariant Represents(h, a, b) && Slots(alpha, best, h.n) && alpha != a && alpha != b
      invariant Decoding(words, h, cls, ks, eos, alpha, best, p, wpend, tags, pretags, out)
    {
      wpend, tags, pretags, out := Step(a, b, alpha, best, output, openClass, words[p],
                                        wpend, tags, pretags, out, words, h, cls, ks, eos, p);
      p := p + 1;
    }
  }
}
