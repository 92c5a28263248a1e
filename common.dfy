/** Vocabulary shared by every part of the tagger model: tags, ambiguity
    classes, words read from the morphological stream, and the small
    positive constant written into forbidden cells. */
module Common {

  /** A fine-grained morphological tag (TTag); valid ids are 0 .. N-1. */
  type Tag = int

  /** An ambiguity class: the set of tags a surface form may carry. */
  type TagSet = set<Tag>

  datatype Option<T> = None | Some(value: T)

  /** A word as the morphological stream delivers it: its surface form and
      its candidate tags (an empty set marks an unknown word). */
  datatype Word = Word(surface: string, tags: TagSet)

  /** How a pass over a text ends: normally, at `fatal_error` on a class
      the data does not know, at a dereference of a NULL word, at the
      dereference of `begin()` of the empty tag set of a word, or at the
      exit when a tagged and an untagged text are not aligned. */
  datatype Outcome = Finished | NewClass | NullWord | EmptyClass | Misaligned

  /** The constant written into forbidden transition cells: 1e-10. */
  const ZERO: real := 0.0000000001

  /** Every tag of `s` is a valid index below `n`. */
  predicate InRange(s: TagSet, n: int)
  {
    forall t :: t in s ==> 0 <= t < n
  }

  /** A non-empty set of tags has an element (stated for `int` so that a
      `:|` choice over tags can use it). */
  lemma HasTag(s: set<Tag>)
    requires s != {}
    ensures exists x :: x in s
  {
    if forall x :: x !in s {
      assert false;
    }
  }

  /** Strictly increasing: the order in which a `std::set` is iterated. */
  predicate Ascending(xs: seq<int>)
  {
    forall p, q :: 0 <= p < q < |xs| ==> xs[p] < xs[q]
  }

  /** A non-empty set of tags has a least element. */
  lemma {:induction false} HasMin(s: set<Tag>)
    requires s != {}
    ensures exists m :: m in s && forall t :: t in s ==> m <= t
    decreases |s|
  {
    HasTag(s);
    var x :| x in s;
    if s - {x} != {} {
      HasMin(s - {x});
      var m :| m in s - {x} && forall t :: t in s - {x} ==> m <= t;
      var least := if x < m then x else m;
      forall t | t in s ensures least <= t {
        if t != x {
          assert t in s - {x};
        }
      }
    } else {
      forall t | t in s ensures x <= t {
        assert t !in s - {x};
      }
    }
  }

  /** The tags of `s` in ascending order: how a `std::set<TTag>` is
      iterated. */
  ghost function Asc(s: set<Tag>): (xs: seq<Tag>)
    ensures Ascending(xs) && forall t :: t in xs <==> t in s
    decreases |s|
  {
    if s == {} then []
    else
      HasMin(s);
      var m :| m in s && forall t :: t in s ==> m <= t;
      [m] + Asc(s - {m})
  }

  /** Two ascending lists of the same elements are the same list. */
  lemma {:induction false} AscendingSame(xs: seq<int>, ys: seq<int>)
    requires Ascending(xs) && Ascending(ys) && forall t :: t in xs <==> t in ys
    ensures xs == ys
    decreases |xs|
  {
    if ys != [] {
      assert ys[0] in ys && ys[0] in xs;
    }
    if xs != [] {
      SameHead(xs, ys);
      SameRest(xs, ys);
      AscendingRest(xs);
      AscendingRest(ys);
      AscendingSame(xs[1..], ys[1..]);
      assert xs == [xs[0]] + xs[1..] && ys == [ys[0]] + ys[1..];
    }
  }

  /** Two non-empty ascending lists of the same elements start alike. */
  lemma SameHead(xs: seq<int>, ys: seq<int>)
    requires Ascending(xs) && Ascending(ys) && forall t :: t in xs <==> t in ys
    requires xs != []
    ensures ys != [] && xs[0] == ys[0]
  {
    assert xs[0] in xs;
    var p :| 0 <= p < |ys| && ys[p] == xs[0];
    assert ys[0] in ys;
    var q :| 0 <= q < |xs| && xs[q] == ys[0];
    assert xs[0] <= ys[0] by {
      if q > 0 {
        assert xs[0] < xs[q];
      }
    }
    assert ys[0] <= xs[0] by {
      if p > 0 {
        assert ys[0] < ys[p];
      }
    }
  }

  /** Without their common head, they still hold the same elements. */
  lemma SameRest(xs: seq<int>, ys: seq<int>)
    requires Ascending(xs) && Ascending(ys) && forall t :: t in xs <==> t in ys
    requires xs != [] && ys != [] && xs[0] == ys[0]
    ensures forall t :: t in xs[1..] <==> t in ys[1..]
  {
    forall t ensures t in xs[1..] ==> t in ys[1..] {
      if t in xs[1..] {
        var a :| 0 <= a < |xs[1..]| && xs[1..][a] == t;
        assert xs[a + 1] == t && xs[0] < t;
        assert t in xs;
        var b :| 0 <= b < |ys| && ys[b] == t;
        assert ys[1..][b - 1] == t;
      }
    }
    forall t ensures t in ys[1..] ==> t in xs[1..] {
      if t in ys[1..] {
        var a :| 0 <= a < |ys[1..]| && ys[1..][a] == t;
        assert ys[a + 1] == t && ys[0] < t;
        assert t in ys;
        var b :| 0 <= b < |xs| && xs[b] == t;
        assert xs[1..][b - 1] == t;
      }
    }
  }

  /** An ascending list stays ascending without its head. */
  lemma AscendingRest(xs: seq<int>)
    requires Ascending(xs) && xs != []
    ensures Ascending(xs[1..])
  {
    forall p, q | 0 <= p < q < |xs| - 1 ensures xs[1..][p] < xs[1..][q] {
      assert xs[1..][p] == xs[p + 1] && xs[1..][q] == xs[q + 1];
    }
  }

  /** An ascending list has as many elements as it has distinct ones. */
  lemma {:induction false} AscendingCard(xs: seq<int>)
    requires Ascending(xs)
    ensures |set t | t in xs| == |xs|
    decreases |xs|
  {
    if xs != [] {
      AscendingCard(xs[1..]);
      assert (set t | t in xs) == {xs[0]} + (set t | t in xs[1..]);
      assert xs[0] !in (set t | t in xs[1..]);
    }
  }

  /** A set with exactly one element is that element's singleton. */
  lemma Singleton(s: TagSet, t: Tag)
    requires |s| == 1 && t in s
    ensures s == {t}
  {
    assert |s - {t}| == 0;
  }

  /** The iteration order lists every tag once. */
  lemma AscLength(s: set<Tag>)
    ensures |Asc(s)| == |s|
  {
    AscendingCard(Asc(s));
    assert (set t | t in Asc(s)) == s;
  }

  /** The smallest element of a non-empty set of tags. */
  method SetMin(s: set<Tag>) returns (m: Tag)
    requires s != {}
    ensures m in s && forall t :: t in s ==> m <= t
  {
    HasTag(s);
    m :| m in s;
    var rest := s - {m};
    while rest != {}
      invariant rest <= s && m in s
      invariant forall t :: t in s && t !in rest ==> m <= t
      decreases |rest|
    {
      HasTag(rest);
      var t :| t in rest;
      if t < m {
        m := t;
      }
      rest := rest - {t};
    }
  }

  /** A set of tags listed in iteration order. */
  method AscendingTags(s: set<Tag>) returns (xs: seq<Tag>)
    ensures xs == Asc(s)
  {
    xs := [];
    var rest := s;
    while rest != {}
      invariant rest <= s && Ascending(xs)
      invariant forall t :: t in xs <==> t in s && t !in rest
      invariant forall p, t :: 0 <= p < |xs| && t in rest ==> xs[p] < t
      decreases |rest|
    {
      var m := SetMin(rest);
      xs := xs + [m];
      rest := rest - {m};
    }
    AscendingSame(xs, Asc(s));
  }

  /** An n x n x n tensor. */
  predicate Cube(a: array3<real>, n: nat)
  {
    a.Length0 == n && a.Length1 == n && a.Length2 == n
  }

  /** The class the taggers use for a word: its own tags, or the open class
      when the word is unknown. */
  function ClassOf(w: Word, openClass: TagSet): TagSet
  {
    if |w.tags| == 0 then openClass else w.tags
  }

  /** The classes of the words, unknown words taking the open class. */
  function ClassesOf(words: seq<Word>, openClass: TagSet): (cls: seq<TagSet>)
    ensures |cls| == |words| && forall i :: 0 <= i < |words| ==> cls[i] == ClassOf(words[i], openClass)
  {
    seq(|words|, i requires 0 <= i < |words| => ClassOf(words[i], openClass))
  }

  /** The smallest tag of a non-empty class whose tags lie in `lo .. n-1`
      (what `begin()` of an ordered std::set yields), found by scanning
      upwards from `lo`. */
  function MinTagFrom(s: TagSet, lo: int, n: int): (m: Tag)
    requires s != {} && forall t :: t in s ==> lo <= t < n
    ensures m in s && forall t :: t in s ==> m <= t
    decreases n - lo
  {
    if lo in s then lo else MinTagFrom(s, lo + 1, n)
  }

  /** The smallest tag of a non-empty class of valid tags. */
  function MinTag(s: TagSet, n: int): (m: Tag)
    requires s != {} && InRange(s, n)
    ensures m in s && forall t :: t in s ==> m <= t
  {
    MinTagFrom(s, 0, n)
  }
}
