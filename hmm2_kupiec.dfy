/** `HMM2::init_probabilities_kupiec`: the counts of ambiguity classes,
    class pairs and class triples in an untagged text, and their spreading
    over tags and tag n-grams. A `map<int, double>` of `++` counters is
    modelled as a multiset (the count of a key is its multiplicity); the
    real-valued accumulators are maps read with a default of 0, as
    `operator[]` of std::map reads them. The smoothing that turns these
    counts into A and B is not part of this model. */
module Hmm2Kupiec {
  import opened Common
  import opened AmbiguityClasses

  type Pair = (int, int)
  type Triple = (int, int, int)

  // ---------------------------------------------------------------------
  // Counting the classes of the text
  // ---------------------------------------------------------------------

  /** The registry and the ids after `output[c]` for each class of `cls`
      in turn (a class not registered yet is appended). */
  function Scan(reg: Registry, cls: seq<TagSet>): (r: (Registry, seq<int>))
    ensures |r.1| == |cls|
    decreases |cls|
  {
    if cls == [] then (reg, [])
    else
      var p := Scan(reg, cls[..|cls| - 1]);
      var l := Lookup(p.0, cls[|cls| - 1]);
      (l.0, p.1 + [l.1])
  }

  /** The registry only grows, and each id names its class in the
      registry afterwards. */
  lemma {:induction false} ScanIds(reg: Registry, cls: seq<TagSet>)
    ensures var r := Scan(reg, cls);
            |reg| <= |r.0| && r.0[..|reg|] == reg
            && forall i :: 0 <= i < |cls| ==> 0 <= r.1[i] < |r.0| && r.0[r.1[i]] == cls[i]
    decreases |cls|
  {
    if cls != [] {
      var front := cls[..|cls| - 1];
      ScanIds(reg, front);
      var p := Scan(reg, front);
      var l := Lookup(p.0, cls[|cls| - 1]);
      assert l.0[..|p.0|] == p.0;
      assert forall i :: 0 <= i < |front| ==> front[i] == cls[i];
    }
  }

  /** One step of `Scan`: the lookup of class n. */
  lemma ScanStep(reg: Registry, cls: seq<TagSet>, n: nat)
    requires n < |cls|
    ensures var p := Scan(reg, cls[..n]);
            Scan(reg, cls[..n + 1]) == (Lookup(p.0, cls[n]).0, p.1 + [Lookup(p.0, cls[n]).1])
  {
    assert cls[..n + 1][..n] == cls[..n];
  }

  /** A known word whose class has no id: `fatal_error`. (An unknown word
      takes the open class, which `output[...]` registers if need be.) */
  predicate Fatal(reg: Registry, w: Word)
  {
    w.tags != {} && w.tags !in reg
  }

  /** None of the first n words is fatal, the registry growing as `Scan`
      says from `reg1`. */
  ghost predicate Admitted(words: seq<Word>, openClass: TagSet, reg1: Registry, n: nat)
    requires n <= |words|
  {
    forall j :: 0 <= j < n ==> !FatalAt(words, openClass, reg1, j)
  }

  /** Word j is fatal against the registry the words before it leave. */
  ghost predicate FatalAt(words: seq<Word>, openClass: TagSet, reg1: Registry, j: nat)
    requires j < |words|
  {
    Fatal(Scan(reg1, ClassesOf(words, openClass)[..j]).0, words[j])
  }

  /** Reading ends after word j (never the first word): its class is
      `{eos}` and `corpus_length` (when positive) words are read. */
  predicate EndsAt(cls: seq<TagSet>, eos: Tag, corpusLength: int, j: nat)
    requires j < |cls|
  {
    1 <= j && cls[j] == {eos} && corpusLength > 0 && j + 1 >= corpusLength
  }

  /** No word before n ends the reading. */
  predicate RunsPast(cls: seq<TagSet>, eos: Tag, corpusLength: int, n: nat)
    requires n <= |cls|
  {
    forall j :: 0 <= j < n ==> !EndsAt(cls, eos, corpusLength, j)
  }

  /** The adjacent pairs of `ks`. */
  function Pairs(ks: seq<int>): multiset<Pair>
  {
    if |ks| < 2 then multiset{} else Pairs(ks[..|ks| - 1]) + multiset{(ks[|ks| - 2], ks[|ks| - 1])}
  }

  /** The adjacent triples of `ks`. */
  function Triples(ks: seq<int>): multiset<Triple>
  {
    if |ks| < 3 then multiset{}
    else Triples(ks[..|ks| - 1]) + multiset{(ks[|ks| - 3], ks[|ks| - 2], ks[|ks| - 1])}
  }

  /** `Pairs` counts every adjacent pair, and nothing else. */
  lemma {:induction false} PairsAdjacent(ks: seq<int>, a: int, b: int)
    ensures (a, b) in Pairs(ks) <==> exists i :: 0 <= i < |ks| - 1 && ks[i] == a && ks[i + 1] == b
    ensures |Pairs(ks)| == if |ks| < 2 then 0 else |ks| - 1
  {
    if |ks| >= 2 {
      var front := ks[..|ks| - 1];
      PairsAdjacent(front, a, b);
      assert forall i :: 0 <= i < |front| ==> front[i] == ks[i];
      if (a, b) in Pairs(ks) && (a, b) !in Pairs(front) {
        assert ks[|ks| - 2] == a && ks[|ks| - 1] == b;
      }
    }
  }

  /** `Triples` counts every adjacent triple, and nothing else. */
  lemma {:induction false} TriplesAdjacent(ks: seq<int>, a: int, b: int, c: int)
    ensures (a, b, c) in Triples(ks) <==>
              exists i :: 0 <= i < |ks| - 2 && ks[i] == a && ks[i + 1] == b && ks[i + 2] == c
    ensures |Triples(ks)| == if |ks| < 3 then 0 else |ks| - 2
  {
    if |ks| >= 3 {
      var front := ks[..|ks| - 1];
      TriplesAdjacent(front, a, b, c);
      assert forall i :: 0 <= i < |front| ==> front[i] == ks[i];
      if (a, b, c) in Triples(ks) && (a, b, c) !in Triples(front) {
        assert ks[|ks| - 3] == a && ks[|ks| - 2] == b && ks[|ks| - 1] == c;
      }
    }
  }

  /** The counts after the ids `ks` (the end-of-sentence id first, then
      one id per word read, at least one word): the end-of-sentence class
      is counted twice before the words, and each class only once the
      next word is read, so the last two ids are not counted; the first
      pair twice, and the pair ending at the last id not at all; every
      triple once. */
  ghost predicate CountsOf(ks: seq<int>, occ: multiset<int>, pairs: multiset<Pair>, triples: multiset<Triple>)
    requires |ks| >= 2
  {
    occ == multiset{ks[0], ks[0]} + multiset(ks[..|ks| - 2])
    && pairs == multiset{(ks[0], ks[1])} + Pairs(ks[..|ks| - 1])
    && triples == Triples(ks)
  }

  /** So after n >= 1 words, n + 1 classes, n pairs and n - 1 triples are
      counted, and every counted pair and triple is adjacent in the text. */
  lemma CountTotals(ks: seq<int>, occ: multiset<int>, pairs: multiset<Pair>, triples: multiset<Triple>)
    requires |ks| >= 2 && CountsOf(ks, occ, pairs, triples)
    ensures |occ| == |ks| && |pairs| == |ks| - 1 && |triples| == |ks| - 2
    ensures forall a, b :: (a, b) in pairs ==> exists i :: 0 <= i < |ks| - 1 && ks[i] == a && ks[i + 1] == b
  {
    PairsAdjacent(ks[..|ks| - 1], 0, 0);
    TriplesAdjacent(ks, 0, 0, 0);
    forall a, b | (a, b) in pairs
      ensures exists i :: 0 <= i < |ks| - 1 && ks[i] == a && ks[i + 1] == b
    {
      if (a, b) != (ks[0], ks[1]) {
        PairsAdjacent(ks[..|ks| - 1], a, b);
        var i :| 0 <= i < |ks| - 2 && ks[..|ks| - 1][i] == a && ks[..|ks| - 1][i + 1] == b;
        assert ks[i] == a && ks[i + 1] == b;
      }
    }
  }

  /** One word of the counting loop after the first: its id counted with
      the two ids before it. */
  lemma CountStep(ks: seq<int>, k3: int, occ: multiset<int>, pairs: multiset<Pair>, triples: multiset<Triple>)
    requires |ks| >= 2 && CountsOf(ks, occ, pairs, triples)
    ensures var k1, k2 := ks[|ks| - 2], ks[|ks| - 1];
            CountsOf(ks + [k3], occ + multiset{k1}, pairs + multiset{(k1, k2)}, triples + multiset{(k1, k2, k3)})
  {
    var ks' := ks + [k3];
    var n := |ks|;
    var k1, k2 := ks[n - 2], ks[n - 1];
    assert ks'[..n] == ks;
    assert ks'[..n - 1] == ks[..n - 1];
    assert ks[..n - 1] == ks[..n - 2] + [k1];
    assert multiset(ks'[..n - 1]) == multiset(ks[..n - 2]) + multiset{k1};
    assert Pairs(ks'[..n]) == Pairs(ks[..n - 1]) + multiset{(k1, k2)};
    assert Triples(ks') == Triples(ks) + multiset{(k1, k2, k3)};
  }

  /** What the counting loop has read after `nw` words: the registry and
      the ids, the end-of-sentence id first. */
  ghost function Read(reg1: Registry, e: int, cls: seq<TagSet>, nw: nat): (r: (Registry, seq<int>))
    requires nw <= |cls|
    ensures |r.1| == nw + 1
  {
    var s := Scan(reg1, cls[..nw]);
    (s.0, [e] + s.1)
  }

  /** One step of `Read`: the lookup of class n. */
  lemma ReadStep(reg1: Registry, e: int, cls: seq<TagSet>, n: nat)
    requires n < |cls|
    ensures var p := Read(reg1, e, cls, n);
            Read(reg1, e, cls, n + 1) == (Lookup(p.0, cls[n]).0, p.1 + [Lookup(p.0, cls[n]).1])
  {
    ScanStep(reg1, cls, n);
    var s := Scan(reg1, cls[..n]);
    var l := Lookup(s.0, cls[n]);
    assert [e] + (s.1 + [l.1]) == ([e] + s.1) + [l.1];
  }

  /** The state of the counting loop after `nw` >= 1 words: none fatal,
      the registry and ids as `Read` says, `a` and `b` the last two ids,
      and the counts as `CountsOf` says. */
  ghost predicate Progress(words: seq<Word>, openClass: TagSet, reg1: Registry, e: int, nw: nat,
                           output: Registry, ks: seq<int>, a: int, b: int,
                           occ: multiset<int>, pairs: multiset<Pair>, triples: multiset<Triple>)
  {
    1 <= nw <= |words| && Admitted(words, openClass, reg1, nw)
    && ks == Read(reg1, e, ClassesOf(words, openClass), nw).1
    && output == Read(reg1, e, ClassesOf(words, openClass), nw).0
    && a == ks[|ks| - 2] && b == ks[|ks| - 1]
    && CountsOf(ks, occ, pairs, triples)
  }

  /** One word of the counting loop after the first, its class `tags`
      registered or the open class: the id of its class counted with the
      two before it. */
  method CountWord(words: seq<Word>, openClass: TagSet, ghost reg1: Registry, ghost e: int, nw: nat,
                   output: Registry, ghost ks: seq<int>, a: int, b: int,
                   occ: multiset<int>, pairs: multiset<Pair>, triples: multiset<Triple>, tags: TagSet)
    returns (output': Registry, ghost ks': seq<int>, b': int,
             occ': multiset<int>, pairs': multiset<Pair>, triples': multiset<Triple>)
    requires Progress(words, openClass, reg1, e, nw, output, ks, a, b, occ, pairs, triples)
    requires nw < |words| && tags == ClassesOf(words, openClass)[nw] && !Fatal(output, words[nw])
    ensures Progress(words, openClass, reg1, e, nw + 1, output', ks', b, b', occ', pairs', triples')
  {
    ghost var cls := ClassesOf(words, openClass);
    ReadStep(reg1, e, cls, nw);
    assert !FatalAt(words, openClass, reg1, nw);
    var r := Lookup(output, tags);
    var c := r.1;
    output' := r.0;
    CountStep(ks, c, occ, pairs, triples);
    occ' := occ + multiset{a};
    pairs' := pairs + multiset{(a, b)};
    triples' := triples + multiset{(a, b, c)};
    ks' := ks + [c];
    b' := c;
  }

  /** Where the counting loop after the first word leaves off: `Progress`
      after `nw` words, stopped at a fatal word, at the end of the text or
      where `EndsAt` first holds. */
  ghost predicate RestDone(words: seq<Word>, openClass: TagSet, eos: Tag, corpusLength: int,
                           reg1: Registry, e: int, nw: nat, output: Registry, ks: seq<int>, a: int, b: int,
                           end: Outcome, occ: multiset<int>, pairs: multiset<Pair>, triples: multiset<Triple>)
  {
    && Progress(words, openClass, reg1, e, nw, output, ks, a, b, occ, pairs, triples)
    && (end == Finished || end == NewClass)
    && (end == NewClass ==> nw < |words| && Fatal(output, words[nw]))
    && var cls := ClassesOf(words, openClass);
       RunsPast(cls, eos, corpusLength, nw - 1)
       && (end == Finished ==> nw == |words| || EndsAt(cls, eos, corpusLength, nw - 1))
  }

  /** The counting loop from the second word on, the first word read. */
  method CountRest(words: seq<Word>, openClass: TagSet, eos: Tag, corpusLength: int,
                   output0: Registry, k1: int, k2: int,
                   occ0: multiset<int>, pairs0: multiset<Pair>, triples0: multiset<Triple>,
                   ghost reg1: Registry, ghost e: int, ghost ks0: seq<int>)
    returns (output: Registry, nw: nat, end: Outcome, a: int, b: int,
             occ: multiset<int>, pairs: multiset<Pair>, triples: multiset<Triple>, ghost ks: seq<int>)
    requires Progress(words, openClass, reg1, e, 1, output0, ks0, k1, k2, occ0, pairs0, triples0)
    ensures RestDone(words, openClass, eos, corpusLength, reg1, e, nw, output, ks, a, b, end, occ, pairs, triples)
  {
    ghost var cls := ClassesOf(words, openClass);
    output, occ, pairs, triples := output0, occ0, pairs0, triples0;
    a, b := k1, k2;
    ks := ks0;
    nw := 1;
    end := Finished;
    while nw < |words|
      invariant Progress(words, openClass, reg1, e, nw, output, ks, a, b, occ, pairs, triples)
      invariant RunsPast(cls, eos, corpusLength, nw) && end == Finished
    {
      var stop;
      stop, end, nw, output, ks, a, b, occ, pairs, triples :=
        Advance(words, openClass, eos, corpusLength, reg1, e, nw, output, ks, a, b, occ, pairs, triples);
      if stop {
        return;
      }
    }
  }

  /** One turn of the loop of `CountRest`: either it stops, at a fatal
      word or where `EndsAt` holds, or the word is counted and the loop
      goes on. */
  method Advance(words: seq<Word>, openClass: TagSet, eos: Tag, corpusLength: int,
                 ghost reg1: Registry, ghost e: int, nw: nat, output: Registry, ghost ks: seq<int>, a: int, b: int,
                 occ: multiset<int>, pairs: multiset<Pair>, triples: multiset<Triple>)
    returns (stop: bool, end: Outcome, nw': nat, output': Registry, ghost ks': seq<int>, a': int, b': int,
             occ': multiset<int>, pairs': multiset<Pair>, triples': multiset<Triple>)
    requires nw < |words| && Progress(words, openClass, reg1, e, nw, output, ks, a, b, occ, pairs, triples)
    requires RunsPast(ClassesOf(words, openClass), eos, corpusLength, nw)
    ensures stop ==> RestDone(words, openClass, eos, corpusLength, reg1, e, nw', output', ks', a', b', end, occ', pairs', triples')
    ensures !stop ==> nw' == nw + 1 && end == Finished
                      && Progress(words, openClass, reg1, e, nw', output', ks', a', b', occ', pairs', triples')
                      && RunsPast(ClassesOf(words, openClass), eos, corpusLength, nw')
  {
    ghost var cls := ClassesOf(words, openClass);
    var tags := words[nw].tags;
    if |tags| == 0 {
      tags := openClass;
    } else if HasNot(output, tags) {
      return true, NewClass, nw, output, ks, a, b, occ, pairs, triples;
    }
    var c;
    output', ks', c, occ', pairs', triples' := CountWord(words, openClass, reg1, e, nw, output, ks, a, b, occ, pairs, triples, tags);
    a', b' := b, c;
    nw' := nw + 1;
    end := Finished;
    stop := corpusLength > 0 && nw' >= corpusLength && tags == {eos};
    assert stop == EndsAt(cls, eos, corpusLength, nw);
  }

  /** What the counting phase has done after `nw` words from the registry
      `output0`: `{eos}` looked up first, none of the words fatal and the
      registry grown as `Read` says, the counts as `CountsOf` says (only
      the end-of-sentence class counted before the first word), and it
      stopped at a fatal word, at the end of the text or where `EndsAt`
      first holds. */
  ghost predicate CountedText(words: seq<Word>, openClass: TagSet, eos: Tag, corpusLength: int,
                              output0: Registry, output: Registry, nw: nat, end: Outcome,
                              occ: multiset<int>, pairs: multiset<Pair>, triples: multiset<Triple>)
  {
    nw <= |words|
    && var l := Lookup(output0, {eos});
       var cls := ClassesOf(words, openClass);
       var r := Read(l.0, l.1, cls, nw);
       && Admitted(words, openClass, l.0, nw) && output == r.0
       && (end == NewClass ==> nw < |words| && Fatal(output, words[nw]))
       && (nw == 0 ==> occ == multiset{l.1} && pairs == multiset{} && triples == multiset{})
       && (nw >= 1 ==> CountsOf(r.1, occ, pairs, triples) && RunsPast(cls, eos, corpusLength, nw - 1))
       && (end == Finished ==> nw == |words| || (nw >= 1 && EndsAt(cls, eos, corpusLength, nw - 1)))
  }

  /** The counting phase of `HMM2::init_probabilities_kupiec` as written:
      the end-of-sentence class is counted, then the first word read is
      dereferenced without a check, so an empty text ends at a NULL word;
      otherwise the words are counted as `CountedText` says. */
  method KupiecCount(words: seq<Word>, openClass: TagSet, eos: Tag, corpusLength: int, output0: Registry)
    returns (output: Registry, nw: nat, end: Outcome,
             occ: multiset<int>, pairs: multiset<Pair>, triples: multiset<Triple>)
    ensures end == NullWord <==> |words| == 0
    ensures end == NullWord ==> occ == multiset{Lookup(output0, {eos}).1} && pairs == multiset{} && triples == multiset{}
    ensures end != NullWord ==> CountedText(words, openClass, eos, corpusLength, output0, output, nw, end, occ, pairs, triples)
  {
    var l := Lookup(output0, {eos});
    output := l.0;
    occ, pairs, triples := multiset{l.1}, multiset{}, multiset{};
    if |words| == 0 {
      return output, 0, NullWord, occ, pairs, triples;
    }
    output, nw, end, occ, pairs, triples := CountFirst(words, openClass, eos, corpusLength, output0);
  }

  /** The same with the first word checked like every other, the
      evidently intended reading: the pass never meets a NULL word, and an
      empty text ends normally with only the end-of-sentence class
      counted. */
  method KupiecCountChecked(words: seq<Word>, openClass: TagSet, eos: Tag, corpusLength: int, output0: Registry)
    returns (output: Registry, nw: nat, end: Outcome,
             occ: multiset<int>, pairs: multiset<Pair>, triples: multiset<Triple>)
    ensures end == Finished || end == NewClass
    ensures CountedText(words, openClass, eos, corpusLength, output0, output, nw, end, occ, pairs, triples)
    ensures |words| == 0 ==> end == Finished && nw == 0
  {
    var l := Lookup(output0, {eos});
    output := l.0;
    occ, pairs, triples := multiset{l.1}, multiset{}, multiset{};
    nw := 0;
    end := Finished;
    if |words| == 0 {
      return;
    }
    output, nw, end, occ, pairs, triples := CountFirst(words, openClass, eos, corpusLength, output0);
  }

  /** The first word and the rest of the counting loop, for a text that
      has a first word. */
  method CountFirst(words: seq<Word>, openClass: TagSet, eos: Tag, corpusLength: int, output0: Registry)
    returns (output: Registry, nw: nat, end: Outcome,
             occ: multiset<int>, pairs: multiset<Pair>, triples: multiset<Triple>)
    requires |words| >= 1
    ensures end == Finished || end == NewClass
    ensures CountedText(words, openClass, eos, corpusLength, output0, output, nw, end, occ, pairs, triples)
  {
    ghost var cls := ClassesOf(words, openClass);
    var l := Lookup(output0, {eos});
    output := l.0;
    var k1 := l.1;
    occ, pairs, triples := multiset{k1}, multiset{}, multiset{};
    var tags := words[0].tags;
    if |tags| == 0 {
      tags := openClass;
    } else if HasNot(output, tags) {
      assert Read(l.0, l.1, cls, 0).0 == output;
      return output, 0, NewClass, occ, pairs, triples;
    }
    assert tags == cls[0];
    ScanStep(l.0, cls, 0);
    var r := Lookup(output, tags);
    var k2 := r.1;
    output := r.0;
    occ := occ + multiset{k1};
    pairs := pairs + multiset{(k1, k2)};
    ghost var ks := Read(l.0, l.1, cls, 1).1;
    assert ks == [k1, k2];
    assert Admitted(words, openClass, l.0, 1);
    assert Progress(words, openClass, l.0, l.1, 1, output, ks, k1, k2, occ, pairs, triples);
    var a, b;
    output, nw, end, a, b, occ, pairs, triples, ks :=
      CountRest(words, openClass, eos, corpusLength, output, k1, k2, occ, pairs, triples, l.0, l.1, ks);
    RestCounted(words, openClass, eos, corpusLength, output0, nw, output, ks, a, b, end, occ, pairs, triples);
  }

  /** Where `CountRest` leaves off, the counting phase is done. */
  lemma RestCounted(words: seq<Word>, openClass: TagSet, eos: Tag, corpusLength: int, output0: Registry,
                    nw: nat, output: Registry, ks: seq<int>, a: int, b: int, end: Outcome,
                    occ: multiset<int>, pairs: multiset<Pair>, triples: multiset<Triple>)
    requires var l := Lookup(output0, {eos});
             RestDone(words, openClass, eos, corpusLength, l.0, l.1, nw, output, ks, a, b, end, occ, pairs, triples)
    ensures CountedText(words, openClass, eos, corpusLength, output0, output, nw, end, occ, pairs, triples)
  {
  }

  // ---------------------------------------------------------------------
  // Spreading the class counts over tags
  // ---------------------------------------------------------------------

  /** `x / (double)d`: a count shared among the d tag n-grams of a product
      of classes; 0 when there are none (no n-gram then receives it). */
  function Share(x: nat, d: nat): real
  {
    if d == 0 then 0.0 else x as real / d as real
  }

  /** A counter of the maps, 0 when absent. */
  function Get1(m: map<int, real>, k: int): real
  {
    if k in m then m[k] else 0.0
  }

  function Get2(m: map<Pair, real>, k: Pair): real
  {
    if k in m then m[k] else 0.0
  }

  function Get3(m: map<Triple, real>, k: Triple): real
  {
    if k in m then m[k] else 0.0
  }

  /** x added n times: what n increments of a counter by x add up to. */
  function Times(n: nat, x: real): real
  {
    if n == 0 then 0.0 else Times(n - 1, x) + x
  }

  /** The sum over b < n of `m[a][b]`. */
  function RowSum2(m: map<Pair, real>, a: int, n: nat): real
  {
    if n == 0 then 0.0 else RowSum2(m, a, n - 1) + Get2(m, (a, n - 1))
  }

  /** The sum over c < n of `m[a][b][c]`. */
  function RowSum3(m: map<Triple, real>, a: int, b: int, n: nat): real
  {
    if n == 0 then 0.0 else RowSum3(m, a, b, n - 1) + Get3(m, (a, b, n - 1))
  }

  /** Adding x to one counter adds x to the sum of its row, when it lies
      in the row, and changes no other row sum. */
  lemma {:induction false} RowSum2Add(m: map<Pair, real>, a: int, b: int, x: real, a': int, n: nat)
    ensures RowSum2(m[(a, b) := Get2(m, (a, b)) + x], a', n)
              == RowSum2(m, a', n) + if a' == a && 0 <= b < n then x else 0.0
  {
    if n > 0 {
      RowSum2Add(m, a, b, x, a', n - 1);
    }
  }

  lemma {:induction false} RowSum3Add(m: map<Triple, real>, a: int, b: int, c: int, x: real, a': int, b': int, n: nat)
    ensures RowSum3(m[(a, b, c) := Get3(m, (a, b, c)) + x], a', b', n)
              == RowSum3(m, a', b', n) + if a' == a && b' == b && 0 <= c < n then x else 0.0
  {
    if n > 0 {
      RowSum3Add(m, a, b, c, x, a', b', n - 1);
    }
  }

  /** Over the n tags, every tag count is the sum of its row of tag-pair
      counts, and every tag-pair count the sum of its row of tag-triple
      counts. */
  ghost predicate Balanced(count: map<int, real>, pairs: map<Pair, real>, triple: map<Triple, real>, n: nat)
  {
    (forall a :: 0 <= a < n ==> Get1(count, a) == RowSum2(pairs, a, n))
    && forall a, b :: 0 <= a < n && 0 <= b < n ==> Get2(pairs, (a, b)) == RowSum3(triple, a, b, n)
  }

  /** Empty counters are balanced. */
  lemma NothingCounted(n: nat)
    ensures Balanced(map[], map[], map[], n) && EmitBalanced(map[], map[], n)
  {
    var count: map<int, real>, pairs: map<Pair, real>, triple: map<Triple, real> := map[], map[], map[];
    forall a | 0 <= a < n
      ensures Get1(count, a) == RowSum2(pairs, a, n)
    {
      EmptyRows(a, 0, n);
    }
    forall a, b
      ensures Get2(pairs, (a, b)) == RowSum3(triple, a, b, n)
    {
      EmptyRows(a, b, n);
    }
  }

  lemma {:induction false} EmptyRows(a: int, b: int, n: nat)
    ensures RowSum2(map[], a, n) == 0.0 && RowSum3(map[], a, b, n) == 0.0
  {
    if n > 0 {
      EmptyRows(a, b, n - 1);
    }
  }

  /** The three increments of the spreading loop keep the counts balanced. */
  lemma AddKeepsBalance(count: map<int, real>, pairs: map<Pair, real>, triple: map<Triple, real>,
                        t1: int, t2: int, t3: int, x: real, n: nat)
    requires Balanced(count, pairs, triple, n) && 0 <= t1 < n && 0 <= t2 < n && 0 <= t3 < n
    ensures Balanced(count[t1 := Get1(count, t1) + x], pairs[(t1, t2) := Get2(pairs, (t1, t2)) + x],
                     triple[(t1, t2, t3) := Get3(triple, (t1, t2, t3)) + x], n)
  {
    var count' := count[t1 := Get1(count, t1) + x];
    var pairs' := pairs[(t1, t2) := Get2(pairs, (t1, t2)) + x];
    var triple' := triple[(t1, t2, t3) := Get3(triple, (t1, t2, t3)) + x];
    forall a | 0 <= a < n
      ensures Get1(count', a) == RowSum2(pairs', a, n)
    {
      RowSum2Add(pairs, t1, t2, x, a, n);
    }
    forall a, b | 0 <= a < n && 0 <= b < n
      ensures Get2(pairs', (a, b)) == RowSum3(triple', a, b, n)
    {
      RowSum3Add(triple, t1, t2, t3, x, a, b, n);
    }
  }

  /** The innermost spreading loop, over the tags t3 of C3 in ascending
      order (how a `std::set` is iterated): x added to each tag triple
      (t1, t2, t3), and once per such t3 to the tag pair (t1, t2) and to
      the tag t1. */
  method SpreadRow(count: map<int, real>, pairs: map<Pair, real>, triple: map<Triple, real>,
                   t1: int, t2: int, c3: TagSet, x: real, ghost n: nat)
    returns (count': map<int, real>, pairs': map<Pair, real>, triple': map<Triple, real>)
    ensures forall a, b, c :: Get3(triple', (a, b, c))
              == Get3(triple, (a, b, c)) + if a == t1 && b == t2 && c in c3 then x else 0.0
    ensures forall a, b :: Get2(pairs', (a, b))
              == Get2(pairs, (a, b)) + if a == t1 && b == t2 then Times(|c3|, x) else 0.0
    ensures forall a :: Get1(count', a) == Get1(count, a) + if a == t1 then Times(|c3|, x) else 0.0
    ensures 0 <= t1 < n && 0 <= t2 < n && InRange(c3, n) && Balanced(count, pairs, triple, n) ==>
              Balanced(count', pairs', triple', n)
  {
    ghost var ok := 0 <= t1 < n && 0 <= t2 < n && InRange(c3, n) && Balanced(count, pairs, triple, n);
    count', pairs', triple' := count, pairs, triple;
    var rest := c3;
    var r := 0;
    assert Times(r, x) == 0.0;
    while rest != {}
      invariant rest <= c3 && r + |rest| == |c3|
      invariant ok ==> Balanced(count', pairs', triple', n)
      invariant forall a, b, c :: Get3(triple', (a, b, c))
                  == Get3(triple, (a, b, c)) + if a == t1 && b == t2 && c in c3 && c !in rest then x else 0.0
      invariant forall a, b :: Get2(pairs', (a, b))
                  == Get2(pairs, (a, b)) + if a == t1 && b == t2 then Times(r, x) else 0.0
      invariant forall a :: Get1(count', a) == Get1(count, a) + if a == t1 then Times(r, x) else 0.0
      decreases |rest|
    {
      var t3 := SetMin(rest);
      if ok {
        AddKeepsBalance(count', pairs', triple', t1, t2, t3, x, n);
      }
      triple' := triple'[(t1, t2, t3) := Get3(triple', (t1, t2, t3)) + x];
      pairs' := pairs'[(t1, t2) := Get2(pairs', (t1, t2)) + x];
      count' := count'[t1 := Get1(count', t1) + x];
      rest := rest - {t3};
      r := r + 1;
    }
  }

  /** The two inner spreading loops: x added to each tag triple (t1, t2, t3)
      of {t1}×C2×C3, |C3|·x to each tag pair (t1, t2) of {t1}×C2, and
      |C2|·|C3|·x to the tag t1. */
  method SpreadPlane(count: map<int, real>, pairs: map<Pair, real>, triple: map<Triple, real>,
                     t1: int, c2: TagSet, c3: TagSet, x: real, ghost n: nat)
    returns (count': map<int, real>, pairs': map<Pair, real>, triple': map<Triple, real>)
    ensures forall a, b, c :: Get3(triple', (a, b, c))
              == Get3(triple, (a, b, c)) + if a == t1 && b in c2 && c in c3 then x else 0.0
    ensures forall a, b :: Get2(pairs', (a, b))
              == Get2(pairs, (a, b)) + if a == t1 && b in c2 then Times(|c3|, x) else 0.0
    ensures forall a :: Get1(count', a)
              == Get1(count, a) + if a == t1 then Times(|c2|, Times(|c3|, x)) else 0.0
    ensures 0 <= t1 < n && InRange(c2, n) && InRange(c3, n) && Balanced(count, pairs, triple, n) ==>
              Balanced(count', pairs', triple', n)
  {
    ghost var ok := 0 <= t1 < n && InRange(c2, n) && InRange(c3, n) && Balanced(count, pairs, triple, n);
    count', pairs', triple' := count, pairs, triple;
    var rest := c2;
    var q := 0;
    assert Times(q, Times(|c3|, x)) == 0.0;
    while rest != {}
      invariant rest <= c2 && q + |rest| == |c2|
      invariant ok ==> Balanced(count', pairs', triple', n)
      invariant forall a, b, c :: Get3(triple', (a, b, c))
                  == Get3(triple, (a, b, c)) + if a == t1 && b in c2 && b !in rest && c in c3 then x else 0.0
      invariant forall a, b :: Get2(pairs', (a, b))
                  == Get2(pairs, (a, b)) + if a == t1 && b in c2 && b !in rest then Times(|c3|, x) else 0.0
      invariant forall a :: Get1(count', a)
                  == Get1(count, a) + if a == t1 then Times(q, Times(|c3|, x)) else 0.0
      decreases |rest|
    {
      var t2 := SetMin(rest);
      count', pairs', triple' := SpreadRow(count', pairs', triple', t1, t2, c3, x, n);
      rest := rest - {t2};
      q := q + 1;
    }
  }

  /** The spreading of one class triple's share x over the tag triples of
      the product C1×C2×C3 of its classes: each tag triple of the product
      receives x, each tag pair of C1×C2 receives |C3|·x (x for each tag
      triple it starts), and each tag of C1 receives |C2|·|C3|·x. */
  method SpreadTriple(count: map<int, real>, pairs: map<Pair, real>, triple: map<Triple, real>,
                      c1: TagSet, c2: TagSet, c3: TagSet, x: real, ghost n: nat)
    returns (count': map<int, real>, pairs': map<Pair, real>, triple': map<Triple, real>)
    ensures forall a, b, c :: Get3(triple', (a, b, c))
              == Get3(triple, (a, b, c)) + if a in c1 && b in c2 && c in c3 then x else 0.0
    ensures forall a, b :: Get2(pairs', (a, b))
              == Get2(pairs, (a, b)) + if a in c1 && b in c2 then Times(|c3|, x) else 0.0
    ensures forall a :: Get1(count', a)
              == Get1(count, a) + if a in c1 then Times(|c2|, Times(|c3|, x)) else 0.0
    ensures InRange(c1, n) && InRange(c2, n) && InRange(c3, n) && Balanced(count, pairs, triple, n) ==>
              Balanced(count', pairs', triple', n)
  {
    count', pairs', triple' := count, pairs, triple;
    var rest := c1;
    while rest != {}
      invariant rest <= c1
      invariant InRange(c1, n) && InRange(c2, n) && InRange(c3, n) && Balanced(count, pairs, triple, n) ==>
                  Balanced(count', pairs', triple', n)
      invariant forall a, b, c :: Get3(triple', (a, b, c))
                  == Get3(triple, (a, b, c)) + if a in c1 && a !in rest && b in c2 && c in c3 then x else 0.0
      invariant forall a, b :: Get2(pairs', (a, b))
                  == Get2(pairs, (a, b)) + if a in c1 && a !in rest && b in c2 then Times(|c3|, x) else 0.0
      invariant forall a :: Get1(count', a)
                  == Get1(count, a) + if a in c1 && a !in rest then Times(|c2|, Times(|c3|, x)) else 0.0
      decreases |rest|
    {
      var t1 := SetMin(rest);
      count', pairs', triple' := SpreadPlane(count', pairs', triple', t1, c2, c3, x, n);
      rest := rest - {t1};
    }
  }

  /** A counter of the Kupiec method: a tag, a tag pair or a tag triple. */
  datatype Counter = TagCounter(a: int) | PairCounter(a: int, b: int) | TripleCounter(a: int, b: int, c: int)

  /** What class triple (k1, k2, k3) adds to counter u: its count divided
      by |C1|·|C2|·|C3|, once for each tag triple of C1×C2×C3 that u
      covers (a tag triple itself, a tag pair and every tag of C3, a tag
      and every tag pair of C2×C3). */
  function Gain(triples: multiset<Triple>, output: Registry, k1: nat, k2: nat, k3: nat, u: Counter): real
    requires k1 < |output| && k2 < |output| && k3 < |output|
  {
    var c1, c2, c3 := output[k1], output[k2], output[k3];
    var x := Share(triples[(k1, k2, k3)], |c1| * |c2| * |c3|);
    match u
    case TagCounter(a) => if a in c1 then Times(|c2|, Times(|c3|, x)) else 0.0
    case PairCounter(a, b) => if a in c1 && b in c2 then Times(|c3|, x) else 0.0
    case TripleCounter(a, b, c) => if a in c1 && b in c2 && c in c3 then x else 0.0
  }

  /** The sum of `Gain` over the class triples (k1, k2, k3) with k3 < n. */
  function GainsK3(triples: multiset<Triple>, output: Registry, k1: nat, k2: nat, n: nat, u: Counter): real
    requires k1 < |output| && k2 < |output| && n <= |output|
  {
    if n == 0 then 0.0 else GainsK3(triples, output, k1, k2, n - 1, u) + Gain(triples, output, k1, k2, n - 1, u)
  }

  /** The sum of `Gain` over the class triples (k1, k2, k3) with k2 < n and
      k3 < m. */
  function GainsK2(triples: multiset<Triple>, output: Registry, m: nat, k1: nat, n: nat, u: Counter): real
    requires m <= |output| && k1 < |output| && n <= m
  {
    if n == 0 then 0.0 else GainsK2(triples, output, m, k1, n - 1, u) + GainsK3(triples, output, k1, n - 1, m, u)
  }

  /** The sum of `Gain` over the class triples with k1 < n and k2, k3 < m. */
  function GainsK1(triples: multiset<Triple>, output: Registry, m: nat, n: nat, u: Counter): real
    requires m <= |output| && n <= m
  {
    if n == 0 then 0.0 else GainsK1(triples, output, m, n - 1, u) + GainsK2(triples, output, m, n - 1, m, u)
  }

  /** The body of the innermost class loop: the share of the class triple
      (k1, k2, k3) spread over the tag triples of its product, so each
      counter gains its `Gain`. */
  method SpreadClassTriple(count: map<int, real>, pairs: map<Pair, real>, triple: map<Triple, real>,
                           triples: multiset<Triple>, output: Registry, k1: nat, k2: nat, k3: nat, m: nat, ghost n: nat)
    returns (count': map<int, real>, pairs': map<Pair, real>, triple': map<Triple, real>)
    requires k1 < m && k2 < m && k3 < m && m <= |output|
    ensures forall a, b, c {:trigger Get3(triple', (a, b, c))} :: Get3(triple', (a, b, c))
              == Get3(triple, (a, b, c)) + Gain(triples, output, k1, k2, k3, TripleCounter(a, b, c))
    ensures forall a, b {:trigger Get2(pairs', (a, b))} :: Get2(pairs', (a, b))
              == Get2(pairs, (a, b)) + Gain(triples, output, k1, k2, k3, PairCounter(a, b))
    ensures forall a {:trigger Get1(count', a)} :: Get1(count', a)
              == Get1(count, a) + Gain(triples, output, k1, k2, k3, TagCounter(a))
    ensures ClassesInRange(output[..m], n) && Balanced(count, pairs, triple, n) ==> Balanced(count', pairs', triple', n)
  {
    var c1, c2, c3 := output[k1], output[k2], output[k3];
    if ClassesInRange(output[..m], n) {
      assert output[..m][k1] == c1 && output[..m][k2] == c2 && output[..m][k3] == c3;
    }
    var x := Share(triples[(k1, k2, k3)], |c1| * |c2| * |c3|);
    count', pairs', triple' := SpreadTriple(count, pairs, triple, c1, c2, c3, x, n);
  }

  /** The innermost class loop: for each class k3 below m, the share of
      the class triple (k1, k2, k3) spread over the tag triples of its
      product, so each counter gains its `Gain` over those class triples. */
  method SpreadClassRow(count: map<int, real>, pairs: map<Pair, real>, triple: map<Triple, real>,
                        triples: multiset<Triple>, output: Registry, k1: nat, k2: nat, m: nat, ghost n: nat)
    returns (count': map<int, real>, pairs': map<Pair, real>, triple': map<Triple, real>)
    requires k1 < m && k2 < m && m <= |output|
    ensures forall a, b, c {:trigger Get3(triple', (a, b, c))} :: Get3(triple', (a, b, c))
              == Get3(triple, (a, b, c)) + GainsK3(triples, output, k1, k2, m, TripleCounter(a, b, c))
    ensures forall a, b {:trigger Get2(pairs', (a, b))} :: Get2(pairs', (a, b))
              == Get2(pairs, (a, b)) + GainsK3(triples, output, k1, k2, m, PairCounter(a, b))
    ensures forall a {:trigger Get1(count', a)} :: Get1(count', a)
              == Get1(count, a) + GainsK3(triples, output, k1, k2, m, TagCounter(a))
    ensures ClassesInRange(output[..m], n) && Balanced(count, pairs, triple, n) ==> Balanced(count', pairs', triple', n)
  {
    ghost var ok := ClassesInRange(output[..m], n) && Balanced(count, pairs, triple, n);
    count', pairs', triple' := count, pairs, triple;
    var k3 := 0;
    assert forall u :: GainsK3(triples, output, k1, k2, k3, u) == 0.0;
    while k3 < m
      invariant 0 <= k3 <= m
      invariant ok ==> Balanced(count', pairs', triple', n)
      invariant forall a, b, c {:trigger Get3(triple', (a, b, c))} :: Get3(triple', (a, b, c))
                  == Get3(triple, (a, b, c)) + GainsK3(triples, output, k1, k2, k3, TripleCounter(a, b, c))
      invariant forall a, b {:trigger Get2(pairs', (a, b))} :: Get2(pairs', (a, b))
                  == Get2(pairs, (a, b)) + GainsK3(triples, output, k1, k2, k3, PairCounter(a, b))
      invariant forall a {:trigger Get1(count', a)} :: Get1(count', a)
                  == Get1(count, a) + GainsK3(triples, output, k1, k2, k3, TagCounter(a))
    {
      count', pairs', triple' := SpreadClassTriple(count', pairs', triple', triples, output, k1, k2, k3, m, n);
      k3 := k3 + 1;
    }
  }

  /** The two inner class loops: for each class pair (k2, k3) below m, the
      share of the class triple (k1, k2, k3) spread over its tag triples. */
  method SpreadClassPlane(count: map<int, real>, pairs: map<Pair, real>, triple: map<Triple, real>,
                          triples: multiset<Triple>, output: Registry, k1: nat, m: nat, ghost n: nat)
    returns (count': map<int, real>, pairs': map<Pair, real>, triple': map<Triple, real>)
    requires k1 < m <= |output|
    ensures forall a, b, c {:trigger Get3(triple', (a, b, c))} :: Get3(triple', (a, b, c))
              == Get3(triple, (a, b, c)) + GainsK2(triples, output, m, k1, m, TripleCounter(a, b, c))
    ensures forall a, b {:trigger Get2(pairs', (a, b))} :: Get2(pairs', (a, b))
              == Get2(pairs, (a, b)) + GainsK2(triples, output, m, k1, m, PairCounter(a, b))
    ensures forall a {:trigger Get1(count', a)} :: Get1(count', a)
              == Get1(count, a) + GainsK2(triples, output, m, k1, m, TagCounter(a))
    ensures ClassesInRange(output[..m], n) && Balanced(count, pairs, triple, n) ==> Balanced(count', pairs', triple', n)
  {
    count', pairs', triple' := count, pairs, triple;
    var k2 := 0;
    assert forall u :: GainsK2(triples, output, m, k1, k2, u) == 0.0;
    while k2 < m
      invariant 0 <= k2 <= m
      invariant ClassesInRange(output[..m], n) && Balanced(count, pairs, triple, n) ==> Balanced(count', pairs', triple', n)
      invariant forall a, b, c {:trigger Get3(triple', (a, b, c))} :: Get3(triple', (a, b, c))
                  == Get3(triple, (a, b, c)) + GainsK2(triples, output, m, k1, k2, TripleCounter(a, b, c))
      invariant forall a, b {:trigger Get2(pairs', (a, b))} :: Get2(pairs', (a, b))
                  == Get2(pairs, (a, b)) + GainsK2(triples, output, m, k1, k2, PairCounter(a, b))
      invariant forall a {:trigger Get1(count', a)} :: Get1(count', a)
                  == Get1(count, a) + GainsK2(triples, output, m, k1, k2, TagCounter(a))
    {
      count', pairs', triple' := SpreadClassRow(count', pairs', triple', triples, output, k1, k2, m, n);
      k2 := k2 + 1;
    }
  }

  /** The tag, tag-pair and tag-triple counts of the Kupiec method: each
      class triple (k1, k2, k3) with ids below M, its count divided by
      |C1|·|C2|·|C3|, is added to every tag triple of C1×C2×C3, and as
      often to the tag pairs and tags they start with, so that each counter
      holds the sum of its `Gain` over all class triples below M. When the
      classes hold tags below N, the counts come out balanced: a tag's
      count is the sum of its tag-pair counts, and a pair's the sum of its
      tag-triple counts. */
  method TagTriples(triples: multiset<Triple>, output: Registry, N: nat, M: nat)
    returns (count: map<int, real>, pairs: map<Pair, real>, triple: map<Triple, real>)
    requires M <= |output|
    ensures forall a, b, c {:trigger Get3(triple, (a, b, c))} :: Get3(triple, (a, b, c))
              == GainsK1(triples, output, M, M, TripleCounter(a, b, c))
    ensures forall a, b {:trigger Get2(pairs, (a, b))} :: Get2(pairs, (a, b))
              == GainsK1(triples, output, M, M, PairCounter(a, b))
    ensures forall a {:trigger Get1(count, a)} :: Get1(count, a) == GainsK1(triples, output, M, M, TagCounter(a))
    ensures ClassesInRange(output[..M], N) ==> Balanced(count, pairs, triple, N)
  {
    count, pairs, triple := map[], map[], map[];
    NothingCounted(N);
    var k1 := 0;
    assert forall u :: GainsK1(triples, output, M, k1, u) == 0.0;
    while k1 < M
      invariant 0 <= k1 <= M
      invariant ClassesInRange(output[..M], N) ==> Balanced(count, pairs, triple, N)
      invariant forall a, b, c {:trigger Get3(triple, (a, b, c))} :: Get3(triple, (a, b, c))
                  == GainsK1(triples, output, M, k1, TripleCounter(a, b, c))
      invariant forall a, b {:trigger Get2(pairs, (a, b))} :: Get2(pairs, (a, b))
                  == GainsK1(triples, output, M, k1, PairCounter(a, b))
      invariant forall a {:trigger Get1(count, a)} :: Get1(count, a) == GainsK1(triples, output, M, k1, TagCounter(a))
    {
      count, pairs, triple := SpreadClassPlane(count, pairs, triple, triples, output, k1, M, N);
      k1 := k1 + 1;
    }
  }

  /** What tag i emits of class k: `classes_ocurrences[k] / |class k|`
      when i is in class k, nothing otherwise. */
  function EmitShare(occ: multiset<int>, output: Registry, i: int, k: nat): real
    requires k < |output|
  {
    if i in output[k] then Share(occ[k], |output[k]|) else 0.0
  }

  /** The sum over k < m of `EmitShare(i, k)`. */
  function EmitSum(occ: multiset<int>, output: Registry, i: int, m: nat): real
    requires m <= |output|
  {
    if m == 0 then 0.0 else EmitSum(occ, output, i, m - 1) + EmitShare(occ, output, i, m - 1)
  }

  /** `tags_count_for_emis`: for each tag below N, the shares of the
      classes below M that hold it. */
  method TagCountForEmission(occ: multiset<int>, output: Registry, N: nat, M: nat) returns (cfe: map<int, real>)
    requires M <= |output|
    ensures forall i :: i in cfe <==> 0 <= i < N
    ensures forall i :: 0 <= i < N ==> cfe[i] == EmitSum(occ, output, i, M)
  {
    cfe := map[];
    var i := 0;
    while i < N
      invariant 0 <= i <= N
      invariant forall t :: t in cfe <==> 0 <= t < i
      invariant forall t :: 0 <= t < i ==> cfe[t] == EmitSum(occ, output, t, M)
    {
      cfe := cfe[i := 0.0];
      var k := 0;
      while k < M
        invariant 0 <= k <= M
        invariant forall t :: t in cfe <==> 0 <= t <= i
        invariant forall t :: 0 <= t < i ==> cfe[t] == EmitSum(occ, output, t, M)
        invariant cfe[i] == EmitSum(occ, output, i, k)
      {
        if i in output[k] {
          cfe := cfe[i := cfe[i] + Share(occ[k], |output[k]|)];
        }
        k := k + 1;
      }
      i := i + 1;
    }
  }

  /** `emis`: tag i emits class k (both in range) exactly when i is in
      class k, with `EmitShare`; no other entry is set. */
  method Emissions(occ: multiset<int>, output: Registry, N: nat, M: nat) returns (emis: map<Pair, real>)
    requires M <= |output|
    ensures forall i, k :: (i, k) in emis <==> 0 <= i < N && 0 <= k < M && i in output[k]
    ensures forall i, k :: 0 <= i < N && 0 <= k < M ==> Get2(emis, (i, k)) == EmitShare(occ, output, i, k)
  {
    emis := map[];
    var i := 0;
    while i < N
      invariant 0 <= i <= N
      invariant forall t, k :: (t, k) in emis <==> 0 <= t < i && 0 <= k < M && t in output[k]
      invariant forall t, k :: 0 <= t < i && 0 <= k < M ==> Get2(emis, (t, k)) == EmitShare(occ, output, t, k)
    {
      var k := 0;
      while k < M
        invariant 0 <= k <= M
        invariant forall t, c :: (t, c) in emis <==>
                    ((0 <= t < i && 0 <= c < M) || (t == i && 0 <= c < k)) && t in output[c]
        invariant forall t, c :: (0 <= t < i && 0 <= c < M) || (t == i && 0 <= c < k) ==>
                    Get2(emis, (t, c)) == EmitShare(occ, output, t, c)
      {
        if i in output[k] {
          emis := emis[(i, k) := Share(occ[k], |output[k]|)];
        }
        k := k + 1;
      }
      i := i + 1;
    }
  }

  /** So the count of tag i for emission is the sum of its row of `emis`. */
  lemma {:induction false} EmissionRows(occ: multiset<int>, output: Registry, N: nat, M: nat, emis: map<Pair, real>, i: int, m: nat)
    requires m <= M <= |output| && 0 <= i < N
    requires forall i, k :: 0 <= i < N && 0 <= k < M ==> Get2(emis, (i, k)) == EmitShare(occ, output, i, k)
    ensures RowSum2(emis, i, m) == EmitSum(occ, output, i, m)
  {
    if m > 0 {
      EmissionRows(occ, output, N, M, emis, i, m - 1);
    }
  }

  /** Over the M classes, every tag pair's count for emission is the sum
      of its row of `emis2`. */
  ghost predicate EmitBalanced(emis2: map<Triple, real>, pfe2: map<Pair, real>, m: nat)
  {
    forall a, b :: Get2(pfe2, (a, b)) == RowSum3(emis2, a, b, m)
  }

  /** The inner emission loop, over the tags t2 of C2 in ascending order:
      x added to `emis2[t1][t2][k]` and to the pair count for emission of
      (t1, t2). */
  method SpreadEmitRow(emis2: map<Triple, real>, pfe2: map<Pair, real>, t1: int, c2: TagSet, k: int, x: real,
                       ghost m: nat)
    returns (emis2': map<Triple, real>, pfe2': map<Pair, real>)
    ensures forall a, b, c :: Get3(emis2', (a, b, c))
              == Get3(emis2, (a, b, c)) + if a == t1 && b in c2 && c == k then x else 0.0
    ensures forall a, b :: Get2(pfe2', (a, b)) == Get2(pfe2, (a, b)) + if a == t1 && b in c2 then x else 0.0
    ensures forall a, b, c :: (a, b, c) in emis2' ==> (a, b, c) in emis2 || (c == k && b in c2)
    ensures 0 <= k < m && EmitBalanced(emis2, pfe2, m) ==> EmitBalanced(emis2', pfe2', m)
  {
    ghost var ok := 0 <= k < m && EmitBalanced(emis2, pfe2, m);
    emis2', pfe2' := emis2, pfe2;
    var rest := c2;
    while rest != {}
      invariant rest <= c2
      invariant ok ==> EmitBalanced(emis2', pfe2', m)
      invariant forall a, b, c :: Get3(emis2', (a, b, c))
                  == Get3(emis2, (a, b, c)) + if a == t1 && b in c2 && b !in rest && c == k then x else 0.0
      invariant forall a, b :: Get2(pfe2', (a, b))
                  == Get2(pfe2, (a, b)) + if a == t1 && b in c2 && b !in rest then x else 0.0
      invariant forall a, b, c :: (a, b, c) in emis2' ==> (a, b, c) in emis2 || (c == k && b in c2)
      decreases |rest|
    {
      var t2 := SetMin(rest);
      if ok {
        EmitStep(emis2', pfe2', t1, t2, k, x, m);
      }
      emis2' := emis2'[(t1, t2, k) := Get3(emis2', (t1, t2, k)) + x];
      pfe2' := pfe2'[(t1, t2) := Get2(pfe2', (t1, t2)) + x];
      rest := rest - {t2};
    }
  }

  /** The spreading of one class pair's share x as emissions of class k
      (its second class): x added to `emis2[t1][t2][k]` and to the pair
      count for emission of (t1, t2), for each tag pair of C1×C2. */
  method SpreadEmit(emis2: map<Triple, real>, pfe2: map<Pair, real>, c1: TagSet, c2: TagSet, k: int, x: real,
                    ghost m: nat)
    returns (emis2': map<Triple, real>, pfe2': map<Pair, real>)
    ensures forall a, b, c :: Get3(emis2', (a, b, c))
              == Get3(emis2, (a, b, c)) + if a in c1 && b in c2 && c == k then x else 0.0
    ensures forall a, b :: Get2(pfe2', (a, b)) == Get2(pfe2, (a, b)) + if a in c1 && b in c2 then x else 0.0
    ensures forall a, b, c :: (a, b, c) in emis2' ==> (a, b, c) in emis2 || (c == k && b in c2)
    ensures 0 <= k < m && EmitBalanced(emis2, pfe2, m) ==> EmitBalanced(emis2', pfe2', m)
  {
    emis2', pfe2' := emis2, pfe2;
    var rest := c1;
    while rest != {}
      invariant rest <= c1
      invariant 0 <= k < m && EmitBalanced(emis2, pfe2, m) ==> EmitBalanced(emis2', pfe2', m)
      invariant forall a, b, c :: Get3(emis2', (a, b, c))
                  == Get3(emis2, (a, b, c)) + if a in c1 && a !in rest && b in c2 && c == k then x else 0.0
      invariant forall a, b :: Get2(pfe2', (a, b))
                  == Get2(pfe2, (a, b)) + if a in c1 && a !in rest && b in c2 then x else 0.0
      invariant forall a, b, c :: (a, b, c) in emis2' ==> (a, b, c) in emis2 || (c == k && b in c2)
      decreases |rest|
    {
      var t1 := SetMin(rest);
      emis2', pfe2' := SpreadEmitRow(emis2', pfe2', t1, c2, k, x, m);
      rest := rest - {t1};
    }
  }

  /** What class pair (k1, k2) adds to `emis2[a][b][k2]`: its count divided
      by |C1|·|C2| when a is in C1 and b in C2. */
  function EmitGain(pairs: multiset<Pair>, output: Registry, k1: nat, k2: nat, a: int, b: int): real
    requires k1 < |output| && k2 < |output|
  {
    if a in output[k1] && b in output[k2] then Share(pairs[(k1, k2)], |output[k1]| * |output[k2]|) else 0.0
  }

  /** The sum of `EmitGain` over the class pairs (k1, k) with k1 < n. */
  function EmitGains(pairs: multiset<Pair>, output: Registry, n: nat, k: nat, a: int, b: int): real
    requires n <= |output| && k < |output|
  {
    if n == 0 then 0.0 else EmitGains(pairs, output, n - 1, k, a, b) + EmitGain(pairs, output, n - 1, k, a, b)
  }

  /** `emis2` and `tags_pair_for_emis2`: each class pair (k1, k2) with ids
      below M, its count divided by |C1|·|C2|, is spread over the tag pairs
      (t1, t2) of C1×C2 as emissions of class k2. So `emis2[a][b][k]` is
      the sum over k1 < M of `EmitGain` for (k1, k) when k < M and 0
      otherwise, a tag pair emits only classes that hold its second tag,
      and its count for emission is the sum of what it emits. */
  method TagPairEmissions(pairs: multiset<Pair>, output: Registry, M: nat)
    returns (emis2: map<Triple, real>, pfe2: map<Pair, real>)
    requires M <= |output|
    ensures forall a, b, k :: Get3(emis2, (a, b, k)) == if 0 <= k < M then EmitGains(pairs, output, M, k, a, b) else 0.0
    ensures EmitBalanced(emis2, pfe2, M)
    ensures forall t1, t2, k :: (t1, t2, k) in emis2 ==> 0 <= k < M && t2 in output[k]
  {
    emis2, pfe2 := map[], map[];
    NothingCounted(M);
    var k1 := 0;
    while k1 < M
      invariant 0 <= k1 <= M && EmitBalanced(emis2, pfe2, M)
      invariant forall a, b, k :: Get3(emis2, (a, b, k)) == if 0 <= k < M then EmitGains(pairs, output, k1, k, a, b) else 0.0
      invariant forall t1, t2, k :: (t1, t2, k) in emis2 ==> 0 <= k < M && t2 in output[k]
    {
      var k2 := 0;
      while k2 < M
        invariant 0 <= k2 <= M && EmitBalanced(emis2, pfe2, M)
        invariant forall a, b, k :: Get3(emis2, (a, b, k))
                    == if 0 <= k < M
                       then EmitGains(pairs, output, k1, k, a, b) + (if k < k2 then EmitGain(pairs, output, k1, k, a, b) else 0.0)
                       else 0.0
        invariant forall t1, t2, k :: (t1, t2, k) in emis2 ==> 0 <= k < M && t2 in output[k]
      {
        var x := Share(pairs[(k1, k2)], |output[k1]| * |output[k2]|);
        emis2, pfe2 := SpreadEmit(emis2, pfe2, output[k1], output[k2], k2, x, M);
        k2 := k2 + 1;
      }
      k1 := k1 + 1;
    }
  }

  /** The two increments of the emission loop keep it balanced. */
  lemma EmitStep(emis2: map<Triple, real>, pfe2: map<Pair, real>, t1: int, t2: int, k: int, x: real, m: nat)
    requires EmitBalanced(emis2, pfe2, m) && 0 <= k < m
    ensures EmitBalanced(emis2[(t1, t2, k) := Get3(emis2, (t1, t2, k)) + x], pfe2[(t1, t2) := Get2(pfe2, (t1, t2)) + x], m)
  {
    var emis2' := emis2[(t1, t2, k) := Get3(emis2, (t1, t2, k)) + x];
    var pfe2' := pfe2[(t1, t2) := Get2(pfe2, (t1, t2)) + x];
    forall a, b
      ensures Get2(pfe2', (a, b)) == RowSum3(emis2', a, b, m)
    {
      RowSum3Add(emis2, t1, t2, k, x, a, b, m);
    }
  }

  /** The counting phase only appends to the registry it starts from. */
  lemma ReadExtends(output0: Registry, eos: Tag, cls: seq<TagSet>, nw: nat)
    requires nw <= |cls|
    ensures var l := Lookup(output0, {eos});
            var r := Read(l.0, l.1, cls, nw).0;
            |output0| <= |r| && r[..|output0|] == output0
  {
    var l := Lookup(output0, {eos});
    ScanIds(l.0, cls[..nw]);
    var r := Read(l.0, l.1, cls, nw).0;
    assert r[..|output0|] == r[..|l.0|][..|output0|];
  }

  /** The counts `init_probabilities_kupiec` hands to the smoothing, the
      class counts they come from, and the number of words read. */
  datatype KupiecCounts = KupiecCounts(
    tagCount: map<int, real>, tagPairs: map<Pair, real>, tagTriples: map<Triple, real>,
    classCount: multiset<int>, classPairs: multiset<Pair>, classTriples: multiset<Triple>,
    emis2: map<Triple, real>, emis: map<Pair, real>,
    pairForEmis2: map<Pair, real>, countForEmis: map<int, real>, nw: nat)

  /** `HMM2::init_probabilities_kupiec` up to the smoothing: the counting
      phase as written, then (when it ends normally) the spreading over the
      N tags of the classes with ids below M, the M of the tagger data when
      the pass starts. */
  method InitProbabilitiesKupiec(words: seq<Word>, openClass: TagSet, eos: Tag, corpusLength: int,
                                 output0: Registry, N: nat, M: nat)
    returns (output: Registry, end: Outcome, counts: Option<KupiecCounts>)
    requires M <= |output0|
    ensures end == NullWord <==> |words| == 0
    ensures counts.Some? <==> end == Finished
    ensures counts.Some? ==>
              var c := counts.value;
              && M <= |output| && output[..M] == output0[..M]
              && CountedText(words, openClass, eos, corpusLength, output0, output, c.nw, end,
                             c.classCount, c.classPairs, c.classTriples)
              && (forall a, b, t :: Get3(c.tagTriples, (a, b, t))
                    == GainsK1(c.classTriples, output, M, M, TripleCounter(a, b, t)))
              && (forall a, b :: Get2(c.tagPairs, (a, b)) == GainsK1(c.classTriples, output, M, M, PairCounter(a, b)))
              && (forall a :: Get1(c.tagCount, a) == GainsK1(c.classTriples, output, M, M, TagCounter(a)))
              && (ClassesInRange(output0[..M], N) ==> Balanced(c.tagCount, c.tagPairs, c.tagTriples, N))
              && (forall i :: i in c.countForEmis <==> 0 <= i < N)
              && (forall i :: 0 <= i < N ==> c.countForEmis[i] == RowSum2(c.emis, i, M))
              && (forall i, k :: (i, k) in c.emis <==> 0 <= i < N && 0 <= k < M && i in output0[k])
              && (forall i, k :: 0 <= i < N && 0 <= k < M ==> Get2(c.emis, (i, k)) == EmitShare(c.classCount, output, i, k))
              && (forall a, b, k :: Get3(c.emis2, (a, b, k))
                    == if 0 <= k < M then EmitGains(c.classPairs, output, M, k, a, b) else 0.0)
              && EmitBalanced(c.emis2, c.pairForEmis2, M)
  {
    var nw, occ, pairs, triples;
    output, nw, end, occ, pairs, triples := KupiecCount(words, openClass, eos, corpusLength, output0);
    if end != Finished {
      return output, end, None;
    }
    ReadExtends(output0, eos, ClassesOf(words, openClass), nw);
    assert output[..M] == output0[..M];
    var cfe := TagCountForEmission(occ, output, N, M);
    var count, tagPairs, triple := TagTriples(triples, output, N, M);
    var emis := Emissions(occ, output, N, M);
    forall i | 0 <= i < N
      ensures cfe[i] == RowSum2(emis, i, M)
    {
      EmissionRows(occ, output, N, M, emis, i, M);
    }
    var emis2, pfe2 := TagPairEmissions(pairs, output, M);
    counts := Some(KupiecCounts(count, tagPairs, triple, occ, pairs, triples, emis2, emis, pfe2, cfe, nw));
  }
}
