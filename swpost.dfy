/** The sliding-window tagger (SWPoST): a tensor C indexed [left class
    id][right class id][tag], holding for each context of two ambiguity
    classes how often each tag of the middle word occurs; filled from the
    windows of three consecutive words, sharpened by a training pass, and
    used to choose the middle tag of every window. */
module Swpost {
  import opened Common
  import opened AmbiguityClasses
  import opened Windows

  /** C is M x M x N: M registered classes, N tags. */
  predicate Shape(c: array3<real>, m: nat, n: nat)
  {
    c.Length0 == m && c.Length1 == m && c.Length2 == n
  }

  /** The id `output[c]` gives a registered class. */
  function Id(output: Registry, c: TagSet): int
  {
    IndexFrom(output, c, 0)
  }

  /** The loop over the middle tags of a window: `inc` added to cell
      [a][b][t] for every t of `ts`, each cell once. */
  method AddMid(p: array3<real>, a: int, b: int, ts: seq<Tag>, inc: real)
    requires 0 <= a < p.Length0 && 0 <= b < p.Length1 && Within(ts, p.Length2) && Ascending(ts)
    modifies p
    ensures forall x, y, z :: 0 <= x < p.Length0 && 0 <= y < p.Length1 && 0 <= z < p.Length2 ==>
              p[x, y, z] == old(p[x, y, z]) + if x == a && y == b && z in ts then inc else 0.0
  {
    var k := 0;
    while k < |ts|
      invariant 0 <= k <= |ts|
      invariant forall x, y, z :: 0 <= x < p.Length0 && 0 <= y < p.Length1 && 0 <= z < p.Length2 ==>
                  p[x, y, z] == old(p[x, y, z]) + if x == a && y == b && z in ts[..k] then inc else 0.0
    {
      assert ts[..k + 1] == ts[..k] + [ts[k]];
      p[a, b, ts[k]] := p[a, b, ts[k]] + inc;
      k := k + 1;
    }
    assert ts[..k] == ts;
  }

  // ------------------------------------------------------------ init

  /** The window `w` falls in context (a, b) and has `t` among its middle
      tags. */
  predicate Hit(output: Registry, w: Window, a: int, b: int, t: Tag)
  {
    Id(output, w.left) == a && Id(output, w.right) == b && t in w.mid
  }

  /** How many windows of `ws` have context (a, b) and middle tag t: the
      count `para_matrix[a][b][t]`. */
  function Hits(output: Registry, ws: seq<Window>, a: int, b: int, t: Tag): nat
  {
    if ws == [] then 0
    else Hits(output, ws[..|ws| - 1], a, b, t) + if Hit(output, ws[|ws| - 1], a, b, t) then 1 else 0
  }

  /** How many windows of `ws` have context (a, b): `para_matrix_sum[a][b]`. */
  function Seen(output: Registry, ws: seq<Window>, a: int, b: int): nat
  {
    if ws == [] then 0
    else
      var w := ws[|ws| - 1];
      Seen(output, ws[..|ws| - 1], a, b) + if Id(output, w.left) == a && Id(output, w.right) == b then 1 else 0
  }

  /** One more window adds its hit to every count, and its context to the
      context counts. */
  lemma CountsStep(output: Registry, ws: seq<Window>, i: nat)
    requires i < |ws|
    ensures forall a, b, t :: Hits(output, ws[..i + 1], a, b, t) ==
              Hits(output, ws[..i], a, b, t) + if Hit(output, ws[i], a, b, t) then 1 else 0
    ensures forall a, b :: Seen(output, ws[..i + 1], a, b) ==
              Seen(output, ws[..i], a, b) + if Id(output, ws[i].left) == a && Id(output, ws[i].right) == b then 1 else 0
  {
    assert ws[..i + 1][..i] == ws[..i];
  }

  /** A count divided by its context count; a context never seen gives 0
      (where the floating-point 0/0 gives NaN). */
  function Ratio(x: real, s: int): real
  {
    if s == 0 then 0.0 else x / (s as real)
  }

  /** A window counts for a tag only if it counts for its context. */
  lemma {:induction false} HitsAtMostSeen(output: Registry, ws: seq<Window>, a: int, b: int, t: Tag)
    ensures Hits(output, ws, a, b, t) <= Seen(output, ws, a, b)
  {
    if ws != [] {
      HitsAtMostSeen(output, ws[..|ws| - 1], a, b, t);
    }
  }

  /** The entries `init_probabilities` leaves in C lie in [0, 1]. */
  lemma RatioInUnit(output: Registry, ws: seq<Window>, a: int, b: int, t: Tag)
    ensures 0.0 <= Ratio(Hits(output, ws, a, b, t) as real, Seen(output, ws, a, b)) <= 1.0
  {
    HitsAtMostSeen(output, ws, a, b, t);
  }

  /** The body of the `init_probabilities` loop for one registered window:
      its middle tags counted in its context, and the context counted once. */
  method CountWindow(p: array3<real>, sums: array2<int>, output: Registry, w: Window)
    requires p.Length0 == |output| && p.Length1 == |output| && sums.Length0 == |output| && sums.Length1 == |output|
    requires w.left in output && w.right in output && InRange(w.mid, p.Length2)
    modifies p, sums
    ensures forall x, y, z :: 0 <= x < p.Length0 && 0 <= y < p.Length1 && 0 <= z < p.Length2 ==>
              p[x, y, z] == old(p[x, y, z]) + if Hit(output, w, x, y, z) then 1.0 else 0.0
    ensures forall x, y :: 0 <= x < sums.Length0 && 0 <= y < sums.Length1 ==>
              sums[x, y] == old(sums[x, y]) + if Id(output, w.left) == x && Id(output, w.right) == y then 1 else 0
  {
    var left := Lookup(output, w.left);
    var right := Lookup(output, w.right);
    var sl, sr := left.1, right.1;
    var ts := AscendingTags(w.mid);
    ListedWithin(ts, w.mid, p.Length2);
    AddMid(p, sl, sr, ts, 1.0);
    sums[sl, sr] := sums[sl, sr] + 1;
  }

  /** The normalisation loops: every count divided by its context count. */
  method Divide(p: array3<real>, sums: array2<int>)
    requires sums.Length0 == p.Length0 && sums.Length1 == p.Length1
    modifies p
    ensures forall x, y, z :: 0 <= x < p.Length0 && 0 <= y < p.Length1 && 0 <= z < p.Length2 ==>
              p[x, y, z] == Ratio(old(p[x, y, z]), sums[x, y])
  {
    var i := 0;
    while i < p.Length0
      invariant 0 <= i <= p.Length0
      invariant forall x, y, z :: 0 <= x < p.Length0 && 0 <= y < p.Length1 && 0 <= z < p.Length2 ==>
                  p[x, y, z] == if x < i then Ratio(old(p[x, y, z]), sums[x, y]) else old(p[x, y, z])
    {
      var j := 0;
      while j < p.Length1
        invariant 0 <= j <= p.Length1
        invariant forall x, y, z :: 0 <= x < p.Length0 && 0 <= y < p.Length1 && 0 <= z < p.Length2 ==>
                    p[x, y, z] == if x < i || (x == i && y < j) then Ratio(old(p[x, y, z]), sums[x, y]) else old(p[x, y, z])
      {
        var k := 0;
        while k < p.Length2
          invariant 0 <= k <= p.Length2
          invariant forall x, y, z :: 0 <= x < p.Length0 && 0 <= y < p.Length1 && 0 <= z < p.Length2 ==>
                      p[x, y, z] == if x < i || (x == i && (y < j || (y == j && z < k))) then Ratio(old(p[x, y, z]), sums[x, y])
                                    else old(p[x, y, z])
        {
          p[i, j, k] := Ratio(p[i, j, k], sums[i, j]);
          k := k + 1;
        }
        j := j + 1;
      }
      i := i + 1;
    }
  }

  /** The counting loop of `init_probabilities`: the counts and context
      counts of the windows, or false at the first window with an
      unregistered class. */
  method CountAll(output: Registry, n: nat, ws: seq<Window>) returns (ok: bool, p: array3<real>, sums: array2<int>)
    requires WindowsWithin(ws, n)
    ensures fresh(p) && fresh(sums) && Shape(p, |output|, n) && sums.Length0 == |output| && sums.Length1 == |output|
    ensures ok == Registered(ws, output)
    ensures ok ==> forall x, y, z :: 0 <= x < |output| && 0 <= y < |output| && 0 <= z < n ==>
                     p[x, y, z] == Hits(output, ws, x, y, z) as real && sums[x, y] == Seen(output, ws, x, y)
  {
    p := new real[|output|, |output|, n]((x, y, z) => 0.0);
    sums := new int[|output|, |output|]((x, y) => 0);
    var i := 0;
    while i < |ws|
      invariant 0 <= i <= |ws|
      invariant Shape(p, |output|, n) && sums.Length0 == |output| && sums.Length1 == |output|
      invariant Registered(ws[..i], output)
      invariant forall x, y, z :: 0 <= x < |output| && 0 <= y < |output| && 0 <= z < n ==>
                  p[x, y, z] == Hits(output, ws[..i], x, y, z) as real
      invariant forall x, y :: 0 <= x < |output| && 0 <= y < |output| ==> sums[x, y] == Seen(output, ws[..i], x, y)
      modifies p, sums
    {
      var w := ws[i];
      if HasNot(output, w.mid) || HasNot(output, w.left) || HasNot(output, w.right) {
        return false, p, sums;
      }
      RegisteredStep(ws, i, output);
      CountWindow(p, sums, output, w);
      CountsStep(output, ws, i);
      i := i + 1;
    }
    assert ws[..i] == ws;
    ok := true;
  }

  /** `SWPoST::init_probabilities`. With fewer than three words C is left
      alone. Otherwise every window must have registered classes (else the
      pass stops fatally, C untouched), and C[a][b][t] becomes the share of
      the windows in context (a, b) whose middle word may take tag t. */
  method InitProbabilities(c: array3<real>, n: nat, words: seq<Word>, openClass: TagSet, output: Registry)
    returns (ok: bool)
    requires Shape(c, |output|, n) && InRange(openClass, n) && WordsInRange(words, n)
    modifies c
    ensures ok == Registered(Slide(words, openClass), output)
    ensures !ok || |words| < 3 ==>
              forall x, y, z :: 0 <= x < |output| && 0 <= y < |output| && 0 <= z < n ==> c[x, y, z] == old(c[x, y, z])
    ensures ok && |words| >= 3 ==>
              forall x, y, z :: 0 <= x < |output| && 0 <= y < |output| && 0 <= z < n ==>
                c[x, y, z] == Ratio(Hits(output, Slide(words, openClass), x, y, z) as real, Seen(output, Slide(words, openClass), x, y))
  {
    if |words| < 3 {
      return true;
    }
    var ws := Slide(words, openClass);
    SlideWithin(words, openClass, n);
    var p, sums;
    ok, p, sums := CountAll(output, n, ws);
    if !ok {
      return;
    }
    Divide(p, sums);
    CopyInto(c, p);
  }

  // ------------------------------------------------------------ train

  /** Sum of C[a][b][t] over the tags `ts`, in list order. */
  function SumMid(c: array3<real>, a: int, b: int, ts: seq<Tag>): real
    reads c
  {
    if ts == [] then 0.0 else SumMid(c, a, b, ts[..|ts| - 1]) + Cell(c, a, b, ts[|ts| - 1])
  }

  /** The `normalization` loop of `train`. */
  method MidSum(c: array3<real>, a: int, b: int, ts: seq<Tag>) returns (s: real)
    requires 0 <= a < c.Length0 && 0 <= b < c.Length1 && Within(ts, c.Length2)
    ensures s == SumMid(c, a, b, ts)
  {
    s := 0.0;
    var k := 0;
    while k < |ts|
      invariant 0 <= k <= |ts|
      invariant s == SumMid(c, a, b, ts[..k])
    {
      assert ts[..k + 1][..k] == ts[..k];
      s := s + c[a, b, ts[k]];
      k := k + 1;
    }
    assert ts[..k] == ts;
  }

  /** The mass C gives the middle class of `w` in its context. */
  ghost function Norm(c: array3<real>, output: Registry, w: Window): real
    reads c
  {
    SumMid(c, Id(output, w.left), Id(output, w.right), Asc(w.mid))
  }

  /** The new value `train` computes for cell [a][b][t]: each window in
      context (a, b) whose middle class holds t adds the reciprocal of the
      mass of that class under C. */
  ghost function Gain(c: array3<real>, output: Registry, ws: seq<Window>, a: int, b: int, t: Tag): real
    reads c
  {
    if ws == [] then 0.0
    else
      var w := ws[|ws| - 1];
      Gain(c, output, ws[..|ws| - 1], a, b, t) + if Hit(output, w, a, b, t) then Recip(Norm(c, output, w)) else 0.0
  }

  /** One more window adds its reciprocal mass to the cells it hits. */
  lemma GainStep(c: array3<real>, output: Registry, ws: seq<Window>, i: nat)
    requires i < |ws|
    ensures forall a, b, t :: Gain(c, output, ws[..i + 1], a, b, t) ==
              Gain(c, output, ws[..i], a, b, t) + if Hit(output, ws[i], a, b, t) then Recip(Norm(c, output, ws[i])) else 0.0
  {
    assert ws[..i + 1][..i] == ws[..i];
  }

  /** The body of the `train` loop for one registered window. */
  method ReinforceWindow(c: array3<real>, p: array3<real>, output: Registry, w: Window)
    requires c != p && Shape(c, |output|, c.Length2) && Shape(p, |output|, c.Length2)
    requires w.left in output && w.right in output && InRange(w.mid, c.Length2)
    modifies p
    ensures forall x, y, z :: 0 <= x < p.Length0 && 0 <= y < p.Length1 && 0 <= z < p.Length2 ==>
              p[x, y, z] == old(p[x, y, z]) + if Hit(output, w, x, y, z) then Recip(Norm(c, output, w)) else 0.0
  {
    var left := Lookup(output, w.left);
    var right := Lookup(output, w.right);
    var sl, sr := left.1, right.1;
    var ts := AscendingTags(w.mid);
    ListedWithin(ts, w.mid, c.Length2);
    var norm := MidSum(c, sl, sr, ts);
    AddMid(p, sl, sr, ts, Recip(norm));
  }

  /** The loop of `train` over the windows: `para_matrix_new`, or false at
      the first window with an unregistered class. */
  method NewCounts(c: array3<real>, output: Registry, ws: seq<Window>) returns (ok: bool, p: array3<real>)
    requires Shape(c, |output|, c.Length2) && WindowsWithin(ws, c.Length2)
    ensures fresh(p) && Shape(p, |output|, c.Length2)
    ensures ok == Registered(ws, output)
    ensures ok ==> forall x, y, z :: 0 <= x < p.Length0 && 0 <= y < p.Length1 && 0 <= z < p.Length2 ==>
                     p[x, y, z] == Gain(c, output, ws, x, y, z)
  {
    p := new real[|output|, |output|, c.Length2]((x, y, z) => 0.0);
    var i := 0;
    while i < |ws|
      invariant 0 <= i <= |ws|
      invariant Shape(p, |output|, c.Length2)
      invariant Registered(ws[..i], output)
      invariant forall x, y, z :: 0 <= x < p.Length0 && 0 <= y < p.Length1 && 0 <= z < p.Length2 ==>
                  p[x, y, z] == Gain(c, output, ws[..i], x, y, z)
      modifies p
    {
      var w := ws[i];
      if HasNot(output, w.left) || HasNot(output, w.mid) || HasNot(output, w.right) {
        return false, p;
      }
      RegisteredStep(ws, i, output);
      ReinforceWindow(c, p, output, w);
      GainStep(c, output, ws, i);
      i := i + 1;
    }
    assert ws[..i] == ws;
    ok := true;
  }

  /** `SWPoST::train`. With fewer than three words C is left alone.
      Otherwise every window must have registered classes (else the pass
      stops fatally, C untouched), and C is overwritten with the new counts. */
  method Train(c: array3<real>, n: nat, words: seq<Word>, openClass: TagSet, output: Registry) returns (ok: bool)
    requires Shape(c, |output|, n) && InRange(openClass, n) && WordsInRange(words, n)
    modifies c
    ensures ok == Registered(Slide(words, openClass), output)
    ensures !ok || |words| < 3 ==>
              forall x, y, z :: 0 <= x < |output| && 0 <= y < |output| && 0 <= z < n ==> c[x, y, z] == old(c[x, y, z])
    ensures ok && |words| >= 3 ==>
              forall x, y, z :: 0 <= x < |output| && 0 <= y < |output| && 0 <= z < n ==>
                c[x, y, z] == old(Gain(c, output, Slide(words, openClass), x, y, z))
  {
    if |words| < 3 {
      return true;
    }
    var ws := Slide(words, openClass);
    SlideWithin(words, openClass, n);
    var p;
    ok, p := NewCounts(c, output, ws);
    if !ok {
      return;
    }
    CopyInto(c, p);
  }

  /** The new values of `train` are never negative when C is not. */
  lemma {:induction false} GainNonNegative(c: array3<real>, output: Registry, ws: seq<Window>, a: int, b: int, t: Tag)
    requires forall x, y, z :: 0 <= x < c.Length0 && 0 <= y < c.Length1 && 0 <= z < c.Length2 ==> c[x, y, z] >= 0.0
    ensures Gain(c, output, ws, a, b, t) >= 0.0
  {
    if ws != [] {
      var w := ws[|ws| - 1];
      GainNonNegative(c, output, ws[..|ws| - 1], a, b, t);
      SumMidNonNegative(c, Id(output, w.left), Id(output, w.right), Asc(w.mid));
    }
  }

  lemma {:induction false} SumMidNonNegative(c: array3<real>, a: int, b: int, ts: seq<Tag>)
    requires forall x, y, z :: 0 <= x < c.Length0 && 0 <= y < c.Length1 && 0 <= z < c.Length2 ==> c[x, y, z] >= 0.0
    ensures SumMid(c, a, b, ts) >= 0.0
  {
    if ts != [] {
      SumMidNonNegative(c, a, b, ts[..|ts| - 1]);
    }
  }

  // ------------------------------------------------------------ tagger

  /** The registry after the tagger has looked up the left and then the
      right class of each window of `ws` in turn (`output[...]` appends a
      class it does not hold). */
  function Grown(reg: Registry, ws: seq<Window>): (r: Registry)
    ensures |reg| <= |r| && r[..|reg|] == reg
  {
    if ws == [] then reg
    else
      var w := ws[|ws| - 1];
      Lookup(Lookup(Grown(reg, ws[..|ws| - 1]), w.left).0, w.right).0
  }

  /** The scores C[a][b][t] of the middle tags `ts` (`Cell` reads 0
      outside C, where the source's read is undefined). */
  ghost function Scores(c: array3<real>, a: int, b: int, ts: seq<Tag>): (sc: seq<real>)
    reads c
    ensures |sc| == |ts|
  {
    seq(|ts|, q requires 0 <= q < |ts| reads c => Cell(c, a, b, ts[q]))
  }

  /** The tag chosen for window `w` when the registry is `reg`: the ids of
      its left and right classes, then the running maximum over its middle
      tags from `max0` and tag 0. */
  ghost function Choice(c: array3<real>, reg: Registry, w: Window, max0: real): Tag
    reads c
  {
    var left := Lookup(reg, w.left);
    var right := Lookup(left.0, w.right);
    var ts := Asc(w.mid);
    Best(ts, Scores(c, left.1, right.1, ts), max0, 0).1
  }

  /** The tags chosen for the windows `ws` in turn, each with the registry
      its predecessors left. */
  ghost function Choices(c: array3<real>, reg: Registry, ws: seq<Window>, max0: real): (tags: seq<Tag>)
    reads c
    ensures |tags| == |ws|
  {
    if ws == [] then []
    else Choices(c, reg, ws[..|ws| - 1], max0) + [Choice(c, Grown(reg, ws[..|ws| - 1]), ws[|ws| - 1], max0)]
  }

  /** The choice loop: a score per middle tag, in iteration order, kept
      when strictly above the running maximum. */
  method ChooseTag(c: array3<real>, a: int, b: int, ts: seq<Tag>, max0: real) returns (tag: Tag)
    ensures tag == Best(ts, Scores(c, a, b, ts), max0, 0).1
  {
    ghost var sc := Scores(c, a, b, ts);
    var max := max0;
    tag := 0;
    var q := 0;
    while q < |ts|
      invariant 0 <= q <= |ts|
      invariant (max, tag) == Best(ts[..q], sc[..q], max0, 0)
    {
      var score := Cell(c, a, b, ts[q]);
      assert ts[..q + 1][..q] == ts[..q] && sc[..q + 1][..q] == sc[..q];
      if score > max {
        max := score;
        tag := ts[q];
      }
      q := q + 1;
    }
    assert ts[..q] == ts && sc[..q] == sc;
  }

  /** The body of the tagger loop for one window: the lookups of the left
      and right classes, then the choice. */
  method TagWindow(c: array3<real>, reg: Registry, w: Window, max0: real) returns (tag: Tag, reg': Registry)
    ensures tag == Choice(c, reg, w, max0)
    ensures reg' == Lookup(Lookup(reg, w.left).0, w.right).0
  {
    var left := Lookup(reg, w.left);
    var right := Lookup(left.0, w.right);
    var ts := AscendingTags(w.mid);
    tag := ChooseTag(c, left.1, right.1, ts, max0);
    reg' := right.0;
  }

  /** One more window: its choice is made with the registry the windows
      before it left, which it then grows. */
  lemma ChoicesStep(c: array3<real>, reg: Registry, ws: seq<Window>, i: nat, max0: real)
    requires i < |ws|
    ensures Choices(c, reg, ws[..i + 1], max0) == Choices(c, reg, ws[..i], max0) + [Choice(c, Grown(reg, ws[..i]), ws[i], max0)]
    ensures Grown(reg, ws[..i + 1]) == Lookup(Lookup(Grown(reg, ws[..i]), ws[i].left).0, ws[i].right).0
  {
    assert ws[..i + 1][..i] == ws[..i];
  }

  /** The loop of the tagger over the windows: the tag of each, and the
      registry it leaves. */
  method TagWindows(c: array3<real>, reg0: Registry, ws: seq<Window>, max0: real) returns (tags: seq<Tag>, reg: Registry)
    ensures tags == Choices(c, reg0, ws, max0) && reg == Grown(reg0, ws)
  {
    tags, reg := [], reg0;
    var i := 0;
    while i < |ws|
      invariant 0 <= i <= |ws|
      invariant tags == Choices(c, reg0, ws[..i], max0) && reg == Grown(reg0, ws[..i])
    {
      var tag;
      ChoicesStep(c, reg0, ws, i, max0);
      tag, reg := TagWindow(c, reg, ws[i], max0);
      tags := tags + [tag];
      i := i + 1;
    }
    assert ws[..i] == ws;
  }

  /** `SWPoST::taggerSWPoST` as written, over a text of `words`, with the
      registry `output`: the tags emitted, how the pass ends and the
      registry afterwards. The three first words are written to the
      diagnostic stream before the check that they exist, so a text of
      fewer than three words ends at a NULL dereference. The first word is
      emitted with the smallest of its own tags (none for an unknown word),
      each word with two neighbours with its choice, and the last word is
      then taken from the right word, which is NULL when the loop ends. */
  method Tagger(c: array3<real>, n: nat, words: seq<Word>, openClass: TagSet, output: Registry)
    returns (tags: seq<Tag>, end: Outcome, reg: Registry)
    requires WordsInRange(words, n)
    ensures |words| < 3 ==> tags == [] && end == NullWord && reg == output
    ensures |words| >= 3 && words[0].tags == {} ==> tags == [] && end == EmptyClass && reg == output
    ensures |words| >= 3 && words[0].tags != {} ==>
              && tags == [MinTag(words[0].tags, n)] + Choices(c, output, Slide(words, openClass), 0.0)
              && end == NullWord
              && reg == Grown(output, Slide(words, openClass))
  {
    if |words| < 3 {
      return [], NullWord, output;
    }
    if words[0].tags == {} {
      return [], EmptyClass, output;
    }
    var first := MinTag(words[0].tags, n);
    var picks;
    picks, reg := TagWindows(c, output, Slide(words, openClass), 0.0);
    tags := [first] + picks;
    end := NullWord;
  }

  /** The tagger with the three first words checked before they are used,
      the last word taken from `word` (which holds it when the loop ends),
      and the running maximum started below every score, as the LSWPoST
      tagger does. A text of fewer than three words yields no tag; an
      unknown first or last word still has no tag to be emitted with. */
  method TaggerFixed(c: array3<real>, n: nat, words: seq<Word>, openClass: TagSet, output: Registry)
    returns (tags: seq<Tag>, end: Outcome, reg: Registry)
    requires WordsInRange(words, n)
    ensures end == Finished || end == EmptyClass
    ensures end == Finished <==> |words| < 3 || (words[0].tags != {} && words[|words| - 1].tags != {})
    ensures |words| < 3 ==> tags == [] && reg == output
    ensures |words| >= 3 && end == Finished ==>
              && |tags| == |words|
              && tags[0] == MinTag(words[0].tags, n)
              && tags[1..|words| - 1] == Choices(c, output, Slide(words, openClass), -1.0)
              && tags[|words| - 1] == MinTag(words[|words| - 1].tags, n)
              && reg == Grown(output, Slide(words, openClass))
  {
    if |words| < 3 {
      return [], Finished, output;
    }
    if words[0].tags == {} {
      return [], EmptyClass, output;
    }
    var first := MinTag(words[0].tags, n);
    var picks;
    picks, reg := TagWindows(c, output, Slide(words, openClass), -1.0);
    tags := [first] + picks;
    var last := words[|words| - 1];
    if last.tags == {} {
      return tags, EmptyClass, reg;
    }
    tags := tags + [MinTag(last.tags, n)];
    end := Finished;
  }

  /** As written, a window none of whose middle tags scores above 0 gets
      tag 0, whatever its class. */
  lemma {:induction false} NoPositiveScore(c: array3<real>, reg: Registry, w: Window)
    requires forall t :: t in w.mid ==>
               Cell(c, Lookup(reg, w.left).1, Lookup(Lookup(reg, w.left).0, w.right).1, t) <= 0.0
    ensures Choice(c, reg, w, 0.0) == 0
  {
    var left := Lookup(reg, w.left);
    var right := Lookup(left.0, w.right);
    var ts := Asc(w.mid);
    var sc := Scores(c, left.1, right.1, ts);
    assert forall q :: 0 <= q < |ts| ==> ts[q] in w.mid;
    BestSpec(ts, sc, 0.0, 0);
  }

  /** A case that stays inside C: both neighbouring classes are registered
      and C sized to the registry, but C holds 0 for every middle tag of
      the window (a context never seen in training). The word then gets
      tag 0, which need not be one of its tags. */
  lemma UnseenContext(c: array3<real>, reg: Registry, w: Window)
    requires w.left in reg && w.right in reg && c.Length0 == |reg| && c.Length1 == |reg|
    requires forall t :: t in w.mid ==> 0 <= t < c.Length2
    requires forall t :: t in w.mid ==> c[Lookup(reg, w.left).1, Lookup(reg, w.right).1, t] == 0.0
    ensures Choice(c, reg, w, 0.0) == 0
    ensures 0 !in w.mid ==> Choice(c, reg, w, 0.0) !in w.mid
  {
    NoPositiveScore(c, reg, w);
  }

  /** With C never negative, the corrected choice for a window with a
      non-empty middle class is one of its tags, of the largest score, and
      the smallest such tag. */
  lemma ChoiceIsBest(c: array3<real>, reg: Registry, w: Window)
    requires w.mid != {}
    requires forall x, y, z :: 0 <= x < c.Length0 && 0 <= y < c.Length1 && 0 <= z < c.Length2 ==> c[x, y, z] >= 0.0
    ensures var left := Lookup(reg, w.left);
            var right := Lookup(left.0, w.right);
            var best := Choice(c, reg, w, -1.0);
            && best in w.mid
            && (forall t :: t in w.mid ==> Cell(c, left.1, right.1, t) <= Cell(c, left.1, right.1, best))
            && (forall t :: t in w.mid && t < best ==> Cell(c, left.1, right.1, t) < Cell(c, left.1, right.1, best))
  {
    var left := Lookup(reg, w.left);
    var right := Lookup(left.0, w.right);
    var ts := Asc(w.mid);
    var sc := Scores(c, left.1, right.1, ts);
    AscLength(w.mid);
    var q := BestOfListed(ts, sc);
    var best := ts[q];
    assert best in w.mid;
    forall t | t in w.mid
      ensures Cell(c, left.1, right.1, t) <= Cell(c, left.1, right.1, best)
      ensures t < best ==> Cell(c, left.1, right.1, t) < Cell(c, left.1, right.1, best)
    {
      var p := IndexOf(ts, t);
      assert Cell(c, left.1, right.1, t) == sc[p];
    }
  }
}
