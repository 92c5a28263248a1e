/** The bookkeeping of the HMM2 Baum-Welch pass (`HMM2::train`): the queue
    of pending ambiguity classes that the forward pass grows and each
    backward pass cuts back, the count of each class, and where reading
    stops. The forward and backward probabilities themselves are not part
    of this model. */
module Hmm2Train {
  import opened Common
  import opened AmbiguityClasses

  /** The class before word i: that of word i-1, or the end-of-sentence
      class the pass starts from. */
  function Before(cls: seq<TagSet>, eos: Tag, i: nat): TagSet
    requires i <= |cls|
  {
    if i == 0 then {eos} else cls[i - 1]
  }

  /** Word i and the word before it are unambiguous: the point where the
      backward pass runs and the queue is cut back. */
  predicate Anchor(cls: seq<TagSet>, eos: Tag, i: nat)
    requires i < |cls|
  {
    |cls[i]| == 1 && |Before(cls, eos, i)| == 1
  }

  /** The queue `pending` after the classes `cls`: a class is pushed, except
      when it and the last queued class are singletons; then all but the
      oldest entry are popped and the two singletons pushed. */
  function Pending(cls: seq<TagSet>, eos: Tag): (p: seq<TagSet>)
  {
    if cls == [] then [{eos}, {eos}]
    else
      var p := Pending(cls[..|cls| - 1], eos);
      var c := cls[|cls| - 1];
      if |c| == 1 && |p[|p| - 1]| == 1 then [p[0], p[|p| - 1], c] else p + [c]
  }

  /** The last anchor among the words `cls`, or -1. */
  function LastAnchor(cls: seq<TagSet>, eos: Tag): (a: int)
    ensures -1 <= a < |cls|
    ensures a >= 0 ==> Anchor(cls, eos, a)
    ensures forall i :: a < i < |cls| ==> !Anchor(cls, eos, i)
  {
    if cls == [] then -1
    else if Anchor(cls, eos, |cls| - 1) then |cls| - 1
    else
      var a := LastAnchor(cls[..|cls| - 1], eos);
      assert forall i :: 0 <= i < |cls| - 1 ==> Anchor(cls[..|cls| - 1], eos, i) == Anchor(cls, eos, i);
      a
  }

  /** The queue never has fewer than two entries, its oldest is the
      end-of-sentence class, and its last is the class of the last word. */
  lemma {:induction false} PendingEnds(cls: seq<TagSet>, eos: Tag)
    ensures |Pending(cls, eos)| >= 2 && Pending(cls, eos)[0] == {eos}
    ensures Pending(cls, eos)[|Pending(cls, eos)| - 1] == Before(cls, eos, |cls|)
  {
    if cls != [] {
      PendingEnds(cls[..|cls| - 1], eos);
    }
  }

  /** The queue always holds the end-of-sentence class the pass started
      from, then the class before the words since the last anchor (or
      since the start), then those words' classes. So the oldest entry is
      never popped. */
  lemma {:induction false} PendingShape(cls: seq<TagSet>, eos: Tag)
    ensures var a := if LastAnchor(cls, eos) < 0 then 0 else LastAnchor(cls, eos);
            Pending(cls, eos) == [{eos}, Before(cls, eos, a)] + cls[a..]
  {
    if cls != [] {
      var n := |cls| - 1;
      var prefix := cls[..n];
      PendingEnds(prefix, eos);
      assert Before(prefix, eos, n) == Before(cls, eos, n);
      if Anchor(cls, eos, n) {
        assert cls[n..] == [cls[n]];
      } else {
        PendingShape(prefix, eos);
        var a0 := if LastAnchor(prefix, eos) < 0 then 0 else LastAnchor(prefix, eos);
        assert Before(prefix, eos, a0) == Before(cls, eos, a0);
        assert prefix[a0..] + [cls[n]] == cls[a0..];
      }
    }
  }

  /** Reading ends after word i: an anchor whose tag is the end of
      sentence, once `corpus_length` (when positive) words are read. */
  predicate Stops(cls: seq<TagSet>, eos: Tag, corpusLength: int, i: nat)
    requires i < |cls|
  {
    Anchor(cls, eos, i) && cls[i] == {eos} && corpusLength > 0 && i + 1 >= corpusLength
  }

  /** The classes of the first n words are registered. */
  predicate Known(cls: seq<TagSet>, output: Registry, n: nat)
    requires n <= |cls|
  {
    forall i :: 0 <= i < n ==> cls[i] in output
  }

  /** No word before n ends the reading. */
  predicate NoStopBefore(cls: seq<TagSet>, eos: Tag, corpusLength: int, n: nat)
    requires n <= |cls|
  {
    forall i :: 0 <= i < n ==> !Stops(cls, eos, corpusLength, i)
  }

  /** How many of the ids `ks` are k. */
  function Occurrences(ks: seq<int>, k: int): nat
  {
    if ks == [] then 0 else Occurrences(ks[..|ks| - 1], k) + if ks[|ks| - 1] == k then 1 else 0
  }

  lemma OccurrencesStep(ks: seq<int>, n: nat, k: int)
    requires n < |ks|
    ensures Occurrences(ks[..n + 1], k) == Occurrences(ks[..n], k) + if ks[n] == k then 1 else 0
  {
    assert ks[..n + 1][..n] == ks[..n];
  }

  /** One step of `Pending`: the queue after word n from the queue before it. */
  lemma PendingStep(cls: seq<TagSet>, eos: Tag, n: nat)
    requires n < |cls|
    ensures |Pending(cls[..n], eos)| >= 2
    ensures Pending(cls[..n], eos)[|Pending(cls[..n], eos)| - 1] == Before(cls, eos, n)
    ensures var p := Pending(cls[..n], eos);
            Pending(cls[..n + 1], eos) ==
              if |cls[n]| == 1 && |p[|p| - 1]| == 1 then [p[0], p[|p| - 1], cls[n]] else p + [cls[n]]
  {
    PendingEnds(cls[..n], eos);
    assert cls[..n + 1][..n] == cls[..n];
  }

  /** `counts` holds, for every class id, how many of the first n ids are it. */
  ghost predicate Counted(counts: map<int, real>, ids: seq<int>, n: nat)
    requires n <= |ids|
  {
    forall k :: Get(counts, k) == Occurrences(ids[..n], k) as real
  }

  /** The count of class id `k` goes up by one as the id of word n is read. */
  method Count(counts: map<int, real>, ghost ids: seq<int>, n: nat, k: int) returns (r: map<int, real>)
    requires n < |ids| && ids[n] == k
    requires Counted(counts, ids, n)
    ensures Counted(r, ids, n + 1)
  {
    r := counts[k := Get(counts, k) + 1.0];
    forall k' | true
      ensures Get(r, k') == Occurrences(ids[..n + 1], k') as real
    {
      OccurrencesStep(ids, n, k');
    }
  }

  /** The ids of the classes `cls`. */
  function Ids(output: Registry, cls: seq<TagSet>): (ks: seq<int>)
    ensures |ks| == |cls|
  {
    seq(|cls|, i requires 0 <= i < |cls| => IndexFrom(output, cls[i], 0))
  }

  /** A count of the map, 0 when absent. */
  function Get(m: map<int, real>, k: int): real
  {
    if k in m then m[k] else 0.0
  }

  /** The queue operation for one class. */
  method Push(pending: seq<TagSet>, c: TagSet) returns (p: seq<TagSet>)
    requires |pending| >= 2
    ensures p == if |c| == 1 && |pending[|pending| - 1]| == 1 then [pending[0], pending[|pending| - 1], c]
                 else pending + [c]
  {
    var len := |pending|;
    var pretags := pending[len - 1];
    if !(|c| == 1 && |pretags| == 1) {
      p := pending + [c];
    } else {
      // the backward pass: len - 1 entries popped, one at a time
      p := pending;
      var t := 0;
      while t < len - 1
        invariant 0 <= t <= len - 1 && p == pending[..len - t]
      {
        p := p[..|p| - 1];
        t := t + 1;
      }
      p := p + [pretags] + [c];
    }
  }

  /** After the first n words: their classes are registered, queued as
      `Pending` says, and their ids counted. */
  ghost predicate Consumed(cls: seq<TagSet>, ids: seq<int>, output: Registry, eos: Tag, n: nat,
                           pending: seq<TagSet>, counts: map<int, real>)
    requires n <= |cls| == |ids|
  {
    Known(cls, output, n) && pending == Pending(cls[..n], eos) && Counted(counts, ids, n)
  }

  /** One word of the forward pass, its class registered: its id counted,
      its class queued, and whether it is an anchor. */
  method ReadWord(pending: seq<TagSet>, counts: map<int, real>, ghost cls: seq<TagSet>, ghost ids: seq<int>,
                  eos: Tag, n: nat, tags: TagSet, output: Registry)
    returns (pending': seq<TagSet>, counts': map<int, real>, anchor: bool)
    requires n < |cls| && ids == Ids(output, cls) && tags == cls[n] && tags in output
    requires Consumed(cls, ids, output, eos, n, pending, counts)
    ensures Consumed(cls, ids, output, eos, n + 1, pending', counts')
    ensures anchor == Anchor(cls, eos, n)
  {
    var k := Lookup(output, tags).1;
    counts' := Count(counts, ids, n, k);
    PendingStep(cls, eos, n);
    anchor := |tags| == 1 && |pending[|pending| - 1]| == 1;
    pending' := Push(pending, tags);
  }

  /** `HMM2::train` without its arithmetic: the classes read, up to the
      first unregistered class (fatal) or the end-of-sentence anchor that
      ends the corpus, with the queue and the count of each class id. The
      final warning about the last tag is always given, as the queue never
      has fewer than two entries. */
  method Train(words: seq<Word>, openClass: TagSet, output: Registry, eos: Tag, corpusLength: int)
    returns (nw: nat, end: Outcome, pending: seq<TagSet>, counts: map<int, real>, warned: bool)
    ensures nw <= |words| && (end == Finished || end == NewClass)
    ensures var cls := ClassesOf(words, openClass);
            && Known(cls, output, nw)
            && NoStopBefore(cls, eos, corpusLength, if nw == 0 then 0 else nw - 1)
            && (end == NewClass ==> nw < |words| && cls[nw] !in output)
            && (end == Finished ==> nw == |words| || (nw > 0 && Stops(cls, eos, corpusLength, nw - 1)))
            && pending == Pending(cls[..nw], eos)
            && Counted(counts, Ids(output, cls), nw)
    ensures end == Finished ==> warned
  {
    ghost var cls := ClassesOf(words, openClass);
    ghost var ids := Ids(output, cls);
    pending := [{eos}, {eos}];
    counts := map[];
    nw := 0;
    warned := false;
    end := Finished;
    while nw < |words|
      invariant 0 <= nw <= |words|
      invariant Consumed(cls, ids, output, eos, nw, pending, counts)
      invariant NoStopBefore(cls, eos, corpusLength, nw)
    {
      var tags := words[nw].tags;
      if |tags| == 0 {
        tags := openClass;
      }
      if HasNot(output, tags) {
        end := NewClass;
        break;
      }
      assert tags == cls[nw];
      var anchor;
      pending, counts, anchor := ReadWord(pending, counts, cls, ids, eos, nw, tags, output);
      nw := nw + 1;
      if anchor && tags == {eos} && corpusLength > 0 && nw >= corpusLength {
        assert Stops(cls, eos, corpusLength, nw - 1);
        break;
      }
      assert !Stops(cls, eos, corpusLength, nw - 1);
    }
    if end == Finished {
      PendingEnds(cls[..nw], eos);
      warned := |pending| > 1;
    }
  }
}
