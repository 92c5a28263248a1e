/** What the two sliding-window taggers (LSWPoST and SWPoST) share: the
    windows of three consecutive words a pass over the text sees, a total
    view of tensor cells, and the running-maximum choice of a tag. */
module Windows {
  import opened Common
  import opened AmbiguityClasses

  /** The classes of a word and of its neighbours. */
  datatype Window = Window(left: TagSet, mid: TagSet, right: TagSet)

  /** The windows seen while `word_right` is not NULL: one per word of
      `ws` that has a word on each side, unknown words taking the open
      class. */
  function Slide(ws: seq<Word>, openClass: TagSet): (r: seq<Window>)
    ensures |r| == if |ws| < 2 then 0 else |ws| - 2
  {
    seq(if |ws| < 2 then 0 else |ws| - 2, i requires 0 <= i < |ws| - 2 =>
      Window(ClassOf(ws[i], openClass), ClassOf(ws[i + 1], openClass), ClassOf(ws[i + 2], openClass)))
  }

  /** Every class of every window has an id (`has_not` fails for none). */
  predicate Registered(ws: seq<Window>, output: Registry)
  {
    forall i :: 0 <= i < |ws| ==> ws[i].left in output && ws[i].mid in output && ws[i].right in output
  }

  /** One more registered window keeps the prefix registered. */
  lemma RegisteredStep(ws: seq<Window>, i: nat, output: Registry)
    requires i < |ws| && Registered(ws[..i], output)
    requires ws[i].left in output && ws[i].mid in output && ws[i].right in output
    ensures Registered(ws[..i + 1], output)
  {
    assert forall k :: 0 <= k < i ==> ws[..i + 1][k] == ws[..i][k];
  }

  /** A cell of the tensor, 0 outside it. SWPoST can ask for C at the id
      of a class new to the registry, past the end of C: the source then
      reads outside its array, and the model reads 0 instead. */
  function Cell(d: array3<real>, x: int, y: int, z: int): real
    reads d
  {
    if 0 <= x < d.Length0 && 0 <= y < d.Length1 && 0 <= z < d.Length2 then d[x, y, z] else 0.0
  }

  /** The scan `if (n > max) { max = n; tag_max = t; }` over candidate tags
      `ts` with scores `sc`, from the initial maximum and tag: the final
      maximum and tag. */
  function Best(ts: seq<Tag>, sc: seq<real>, max0: real, tag0: Tag): (real, Tag)
    requires |ts| == |sc|
    decreases |ts|
  {
    if ts == [] then (max0, tag0)
    else
      var prev := Best(ts[..|ts| - 1], sc[..|sc| - 1], max0, tag0);
      if sc[|sc| - 1] > prev.0 then (sc[|sc| - 1], ts[|ts| - 1]) else prev
  }

  /** Score q is the largest, and no earlier score equals it. */
  predicate FirstLargest(sc: seq<real>, q: int)
  {
    0 <= q < |sc| && (forall p :: 0 <= p < |sc| ==> sc[p] <= sc[q]) && (forall p :: 0 <= p < q ==> sc[p] < sc[q])
  }

  /** When no score exceeds the initial maximum the initial tag stays;
      otherwise the chosen tag is the first candidate of largest score. */
  lemma {:induction false} BestSpec(ts: seq<Tag>, sc: seq<real>, max0: real, tag0: Tag)
    requires |ts| == |sc|
    ensures (forall q :: 0 <= q < |sc| ==> sc[q] <= max0) ==> Best(ts, sc, max0, tag0) == (max0, tag0)
    ensures (exists q :: 0 <= q < |sc| && sc[q] > max0) ==>
              exists q :: 0 <= q < |sc| && Best(ts, sc, max0, tag0) == (sc[q], ts[q])
                && sc[q] > max0 && FirstLargest(sc, q)
    decreases |ts|
  {
    if ts != [] {
      var k := |ts| - 1;
      var ts', sc' := ts[..k], sc[..k];
      BestSpec(ts', sc', max0, tag0);
      var prev := Best(ts', sc', max0, tag0);
      if exists q :: 0 <= q < k && sc'[q] > max0 {
        var q :| 0 <= q < k && prev == (sc'[q], ts'[q]) && sc'[q] > max0 && FirstLargest(sc', q);
        assert forall p :: 0 <= p < k ==> sc[p] == sc'[p];
        if sc[k] > prev.0 {
          assert Best(ts, sc, max0, tag0) == (sc[k], ts[k]);
          assert FirstLargest(sc, k);
        } else {
          assert Best(ts, sc, max0, tag0) == (sc[q], ts[q]);
          assert FirstLargest(sc, q);
        }
      } else {
        assert forall p :: 0 <= p < k ==> sc[p] == sc'[p] && sc[p] <= max0;
        if sc[k] > max0 {
          assert Best(ts, sc, max0, tag0) == (sc[k], ts[k]);
          assert FirstLargest(sc, k);
        }
      }
    }
  }

  /** The copy of a scratch tensor into the tagger data, cell by cell. */
  method CopyInto(dst: array3<real>, src: array3<real>)
    requires dst != src
    requires dst.Length0 == src.Length0 && dst.Length1 == src.Length1 && dst.Length2 == src.Length2
    modifies dst
    ensures forall x, y, z :: 0 <= x < dst.Length0 && 0 <= y < dst.Length1 && 0 <= z < dst.Length2 ==>
              dst[x, y, z] == src[x, y, z]
  {
    var i := 0;
    while i < dst.Length0
      invariant 0 <= i <= dst.Length0
      invariant forall x, y, z :: 0 <= x < dst.Length0 && 0 <= y < dst.Length1 && 0 <= z < dst.Length2 ==>
                  dst[x, y, z] == if x < i then src[x, y, z] else old(dst[x, y, z])
    {
      var j := 0;
      while j < dst.Length1
        invariant 0 <= j <= dst.Length1
        invariant forall x, y, z :: 0 <= x < dst.Length0 && 0 <= y < dst.Length1 && 0 <= z < dst.Length2 ==>
                    dst[x, y, z] == if x < i || (x == i && y < j) then src[x, y, z] else old(dst[x, y, z])
      {
        var k := 0;
        while k < dst.Length2
          invariant 0 <= k <= dst.Length2
          invariant forall x, y, z :: 0 <= x < dst.Length0 && 0 <= y < dst.Length1 && 0 <= z < dst.Length2 ==>
                      dst[x, y, z] == if x < i || (x == i && (y < j || (y == j && z < k))) then src[x, y, z]
                                      else old(dst[x, y, z])
        {
          dst[i, j, k] := src[i, j, k];
          k := k + 1;
        }
        j := j + 1;
      }
      i := i + 1;
    }
  }

  /** Every tag of the list is a tag of the tensor (below n). */
  predicate Within(xs: seq<Tag>, n: nat)
  {
    forall q :: 0 <= q < |xs| ==> 0 <= xs[q] < n
  }

  /** Every tag of every word is below n. */
  predicate WordsInRange(words: seq<Word>, n: nat)
  {
    forall i :: 0 <= i < |words| ==> InRange(words[i].tags, n)
  }

  /** The classes of every window hold tags below n. */
  predicate WindowsWithin(ws: seq<Window>, n: nat)
  {
    forall i :: 0 <= i < |ws| ==> InRange(ws[i].left, n) && InRange(ws[i].mid, n) && InRange(ws[i].right, n)
  }

  /** `1.0 / normalization`, taken as 0 for a mass of 0 (where the
      floating-point division gives infinity). */
  function Recip(x: real): real
  {
    if x == 0.0 then 0.0 else 1.0 / x
  }

  /** A list of the tags of a class of valid tags holds valid tags. */
  lemma ListedWithin(xs: seq<Tag>, s: TagSet, n: nat)
    requires InRange(s, n) && forall t :: t in xs <==> t in s
    ensures Within(xs, n)
  {
    assert forall q :: 0 <= q < |xs| ==> xs[q] in xs;
  }

  /** Where `t` stands in a list that holds it. */
  function IndexOf(ts: seq<Tag>, t: Tag): (p: nat)
    requires t in ts
    ensures p < |ts| && ts[p] == t
  {
    if ts[0] == t then 0 else 1 + IndexOf(ts[1..], t)
  }

  /** From a start every score beats, the running maximum over an
      ascending list ends on a largest score, the first of them. */
  lemma BestOfListed(ts: seq<Tag>, sc: seq<real>) returns (q: nat)
    requires |ts| == |sc| > 0 && Ascending(ts)
    requires forall q :: 0 <= q < |sc| ==> sc[q] > -1.0
    ensures q < |ts| && Best(ts, sc, -1.0, 0).1 == ts[q]
    ensures forall p :: 0 <= p < |ts| ==> sc[p] <= sc[q]
    ensures forall p :: 0 <= p < |ts| && ts[p] < ts[q] ==> sc[p] < sc[q]
  {
    BestSpec(ts, sc, -1.0, 0);
    assert sc[0] > -1.0;
    q :| 0 <= q < |sc| && Best(ts, sc, -1.0, 0) == (sc[q], ts[q])
         && (forall p :: 0 <= p < |sc| ==> sc[p] <= sc[q])
         && (forall p :: 0 <= p < q ==> sc[p] < sc[q]);
    assert forall p :: 0 <= p < |ts| && ts[p] < ts[q] ==> p < q;
  }

  /** The windows of words with tags below n have classes with tags below n. */
  lemma SlideWithin(ws: seq<Word>, openClass: TagSet, n: nat)
    requires InRange(openClass, n) && WordsInRange(ws, n)
    ensures WindowsWithin(Slide(ws, openClass), n)
  {
    assert forall i :: 0 <= i < |ws| ==> InRange(ClassOf(ws[i], openClass), n);
  }
}
