/** The lightweight sliding-window tagger (LSWPoST): a tensor D indexed
    [left tag][right tag][middle tag], filled from the windows of three
    consecutive words of a text, sharpened by a training pass, cut by the
    hard rules, and used to choose the middle tag of every window. */
module Lswpost {
  import opened Common
  import opened AmbiguityClasses
  import opened TaggerRecords
  import opened Windows

  // ------------------------------------------------------------ the rules

  /** Cell [x][y][z] of D is written by forbid rule `r`: a left `tagi`
      with a middle `tagj`, or a middle `tagi` with a right `tagj`; the
      third label is not looked at. */
  predicate ForbidHit(r: ForbidRule, x: int, y: int, z: int)
  {
    (x == r.tagi && z == r.tagj) || (y == r.tagj && z == r.tagi)
  }

  /** Cell [x][y][z] of D is written by enforce rule `r`: a left `tagi`
      with a middle tag outside `tagsj`, or a middle `tagi` with a right tag
      outside `tagsj`; `tagsk` is not looked at. */
  predicate EnforceHit(r: EnforceRule, x: int, y: int, z: int)
  {
    (x == r.tagi && z !in r.tagsj) || (z == r.tagi && y !in r.tagsj)
  }

  /** The rule pass indexes D with these tags. */
  predicate RulesInRange(forbid: seq<ForbidRule>, enforce: seq<EnforceRule>, n: nat)
  {
    && (forall q :: 0 <= q < |forbid| ==> 0 <= forbid[q].tagi < n && 0 <= forbid[q].tagj < n)
    && (forall q :: 0 <= q < |enforce| ==> 0 <= enforce[q].tagi < n)
  }

  method ForbidOne(d: array3<real>, n: nat, r: ForbidRule)
    requires Cube(d, n) && 0 <= r.tagi < n && 0 <= r.tagj < n
    modifies d
    ensures forall x, y, z :: 0 <= x < n && 0 <= y < n && 0 <= z < n ==>
              d[x, y, z] == if ForbidHit(r, x, y, z) then ZERO else old(d[x, y, z])
  {
    var k := 0;
    while k < n
      invariant 0 <= k <= n
      invariant forall x, y, z :: 0 <= x < n && 0 <= y < n && 0 <= z < n ==>
                  d[x, y, z] == if (x == r.tagi && z == r.tagj && y < k) || (y == r.tagj && z == r.tagi && x < k)
                                then ZERO else old(d[x, y, z])
    {
      d[r.tagi, k, r.tagj] := ZERO;
      d[k, r.tagj, r.tagi] := ZERO;
      k := k + 1;
    }
  }

  /** The `found` scan of `tagsj`, which stops at the first match. */
  method Listed(tags: seq<Tag>, t: Tag) returns (found: bool)
    ensures found == (t in tags)
  {
    found := false;
    var j := 0;
    while j < |tags|
      invariant 0 <= j <= |tags|
      invariant t !in tags[..j]
    {
      if t == tags[j] {
        found := true;
        break;
      }
      assert tags[..j + 1] == tags[..j] + [tags[j]];
      j := j + 1;
    }
    assert found || tags[..j] == tags;
  }

  method EnforceOne(d: array3<real>, n: nat, r: EnforceRule)
    requires Cube(d, n) && (n > 0 ==> 0 <= r.tagi < n)
    modifies d
    ensures forall x, y, z :: 0 <= x < n && 0 <= y < n && 0 <= z < n ==>
              d[x, y, z] == if EnforceHit(r, x, y, z) then ZERO else old(d[x, y, z])
  {
    var t := 0;
    while t < n
      invariant 0 <= t <= n
      invariant forall x, y, z :: 0 <= x < n && 0 <= y < n && 0 <= z < n ==>
                  d[x, y, z] == if (x == r.tagi && z !in r.tagsj && z < t) || (z == r.tagi && y !in r.tagsj && y < t)
                                then ZERO else old(d[x, y, z])
    {
      var found := Listed(r.tagsj, t);
      if !found {
        var o := 0;
        while o < n
          invariant 0 <= o <= n
          invariant forall x, y, z :: 0 <= x < n && 0 <= y < n && 0 <= z < n ==>
                      d[x, y, z] == if (x == r.tagi && z !in r.tagsj && (z < t || (z == t && y < o)))
                                       || (z == r.tagi && y !in r.tagsj && (y < t || (y == t && x < o)))
                                    then ZERO else old(d[x, y, z])
        {
          d[r.tagi, o, t] := ZERO;
          d[o, t, r.tagi] := ZERO;
          o := o + 1;
        }
      }
      t := t + 1;
    }
  }

  /** `LSWPoST::apply_rules`: ZERO in every cell some rule hits, every other
      cell as before; nothing is renormalised. */
  method ApplyRules(d: array3<real>, n: nat, forbid: seq<ForbidRule>, enforce: seq<EnforceRule>)
    requires Cube(d, n) && RulesInRange(forbid, enforce, n)
    modifies d
    ensures forall x, y, z :: 0 <= x < n && 0 <= y < n && 0 <= z < n ==>
              d[x, y, z] == if (exists q :: 0 <= q < |forbid| && ForbidHit(forbid[q], x, y, z))
                               || (exists q :: 0 <= q < |enforce| && EnforceHit(enforce[q], x, y, z))
                            then ZERO else old(d[x, y, z])
  {
    var i := 0;
    while i < |forbid|
      invariant 0 <= i <= |forbid|
      invariant forall x, y, z :: 0 <= x < n && 0 <= y < n && 0 <= z < n ==>
                  d[x, y, z] == if exists q :: 0 <= q < i && ForbidHit(forbid[q], x, y, z)
                                then ZERO else old(d[x, y, z])
    {
      ForbidOne(d, n, forbid[i]);
      i := i + 1;
    }
    i := 0;
    while i < |enforce|
      invariant 0 <= i <= |enforce|
      invariant forall x, y, z :: 0 <= x < n && 0 <= y < n && 0 <= z < n ==>
                  d[x, y, z] == if (exists q :: 0 <= q < |forbid| && ForbidHit(forbid[q], x, y, z))
                                   || (exists q :: 0 <= q < i && EnforceHit(enforce[q], x, y, z))
                                then ZERO else old(d[x, y, z])
    {
      EnforceOne(d, n, enforce[i]);
      i := i + 1;
    }
  }

  // ------------------------------------------------------------- sums of D

  /** Sum over right tags `rs` of D[l][r][t], added in list order. */
  function SumR(d: array3<real>, l: Tag, rs: seq<Tag>, t: Tag): real
    reads d
  {
    if rs == [] then 0.0 else SumR(d, l, rs[..|rs| - 1], t) + Cell(d, l, rs[|rs| - 1], t)
  }

  /** Sum over left tags `ls` and right tags `rs` of D[l][r][t]: the score
      of middle tag t. */
  function SumLR(d: array3<real>, ls: seq<Tag>, rs: seq<Tag>, t: Tag): real
    reads d
  {
    if ls == [] then 0.0 else SumLR(d, ls[..|ls| - 1], rs, t) + SumR(d, ls[|ls| - 1], rs, t)
  }

  /** Sum over middle tags `ts` of their scores: the mass of a window. */
  function SumTLR(d: array3<real>, ts: seq<Tag>, ls: seq<Tag>, rs: seq<Tag>): real
    reads d
  {
    if ts == [] then 0.0 else SumTLR(d, ts[..|ts| - 1], ls, rs) + SumLR(d, ls, rs, ts[|ts| - 1])
  }

  /** Sums of cells that are never negative are never negative. */
  lemma {:induction false} SumsNonNegative(d: array3<real>, ls: seq<Tag>, rs: seq<Tag>, t: Tag)
    requires forall x, y, z :: 0 <= x < d.Length0 && 0 <= y < d.Length1 && 0 <= z < d.Length2 ==> d[x, y, z] >= 0.0
    ensures SumLR(d, ls, rs, t) >= 0.0
    decreases |ls|
  {
    if ls != [] {
      SumsNonNegative(d, ls[..|ls| - 1], rs, t);
      SumRNonNegative(d, ls[|ls| - 1], rs, t);
    }
  }

  lemma {:induction false} SumRNonNegative(d: array3<real>, l: Tag, rs: seq<Tag>, t: Tag)
    requires forall x, y, z :: 0 <= x < d.Length0 && 0 <= y < d.Length1 && 0 <= z < d.Length2 ==> d[x, y, z] >= 0.0
    ensures SumR(d, l, rs, t) >= 0.0
    decreases |rs|
  {
    if rs != [] {
      SumRNonNegative(d, l, rs[..|rs| - 1], t);
    }
  }

  /** The innermost loop of a sum: adds D[l][r][t] for r in `rs`. */
  method AccRight(d: array3<real>, n: nat, acc: real, l: Tag, rs: seq<Tag>, t: Tag) returns (s: real)
    requires Cube(d, n) && 0 <= l < n && 0 <= t < n && Within(rs, n)
    ensures s == acc + SumR(d, l, rs, t)
  {
    s := acc;
    var k := 0;
    while k < |rs|
      invariant 0 <= k <= |rs|
      invariant s == acc + SumR(d, l, rs[..k], t)
    {
      assert rs[..k + 1][..k] == rs[..k];
      s := s + d[l, rs[k], t];
      k := k + 1;
    }
    assert rs[..k] == rs;
  }

  /** The two inner loops of a sum: adds the score of middle tag t. */
  method AccLeftRight(d: array3<real>, n: nat, acc: real, ls: seq<Tag>, rs: seq<Tag>, t: Tag) returns (s: real)
    requires Cube(d, n) && 0 <= t < n && Within(ls, n) && Within(rs, n)
    ensures s == acc + SumLR(d, ls, rs, t)
  {
    s := acc;
    var k := 0;
    while k < |ls|
      invariant 0 <= k <= |ls|
      invariant s == acc + SumLR(d, ls[..k], rs, t)
    {
      assert ls[..k + 1][..k] == ls[..k];
      s := AccRight(d, n, s, ls[k], rs, t);
      k := k + 1;
    }
    assert ls[..k] == ls;
  }

  /** The `normalization` loops of `train`: the mass of a window under D. */
  method WindowSum(d: array3<real>, n: nat, ts: seq<Tag>, ls: seq<Tag>, rs: seq<Tag>) returns (s: real)
    requires Cube(d, n) && Within(ts, n) && Within(ls, n) && Within(rs, n)
    ensures s == SumTLR(d, ts, ls, rs)
  {
    s := 0.0;
    var k := 0;
    while k < |ts|
      invariant 0 <= k <= |ts|
      invariant s == SumTLR(d, ts[..k], ls, rs)
    {
      assert ts[..k + 1][..k] == ts[..k];
      s := AccLeftRight(d, n, s, ls, rs, ts[k]);
      k := k + 1;
    }
    assert ts[..k] == ts;
  }

  // ------------------------------------------------- adding to a window

  method AddRight(p: array3<real>, n: nat, l: Tag, rs: seq<Tag>, t: Tag, c: real)
    requires Cube(p, n) && 0 <= l < n && 0 <= t < n && Within(rs, n) && Ascending(rs)
    modifies p
    ensures forall x, y, z :: 0 <= x < n && 0 <= y < n && 0 <= z < n ==>
              p[x, y, z] == old(p[x, y, z]) + if x == l && y in rs && z == t then c else 0.0
  {
    var k := 0;
    while k < |rs|
      invariant 0 <= k <= |rs|
      invariant forall x, y, z :: 0 <= x < n && 0 <= y < n && 0 <= z < n ==>
                  p[x, y, z] == old(p[x, y, z]) + if x == l && y in rs[..k] && z == t then c else 0.0
    {
      assert rs[..k + 1] == rs[..k] + [rs[k]];
      p[l, rs[k], t] := p[l, rs[k], t] + c;
      k := k + 1;
    }
    assert rs[..k] == rs;
  }

  method AddLeftRight(p: array3<real>, n: nat, ls: seq<Tag>, rs: seq<Tag>, t: Tag, c: real)
    requires Cube(p, n) && 0 <= t < n && Within(ls, n) && Within(rs, n) && Ascending(ls) && Ascending(rs)
    modifies p
    ensures forall x, y, z :: 0 <= x < n && 0 <= y < n && 0 <= z < n ==>
              p[x, y, z] == old(p[x, y, z]) + if x in ls && y in rs && z == t then c else 0.0
  {
    var k := 0;
    while k < |ls|
      invariant 0 <= k <= |ls|
      invariant forall x, y, z :: 0 <= x < n && 0 <= y < n && 0 <= z < n ==>
                  p[x, y, z] == old(p[x, y, z]) + if x in ls[..k] && y in rs && z == t then c else 0.0
    {
      assert ls[..k + 1] == ls[..k] + [ls[k]];
      AddRight(p, n, ls[k], rs, t, c);
      k := k + 1;
    }
    assert ls[..k] == ls;
  }

  /** The increment loops of a window: `c` is added to [l][r][t] for every
      middle tag t, left tag l and right tag r, each cell once. */
  method AddWindow(p: array3<real>, n: nat, ts: seq<Tag>, ls: seq<Tag>, rs: seq<Tag>, c: real)
    requires Cube(p, n) && Within(ts, n) && Within(ls, n) && Within(rs, n)
    requires Ascending(ts) && Ascending(ls) && Ascending(rs)
    modifies p
    ensures forall x, y, z :: 0 <= x < n && 0 <= y < n && 0 <= z < n ==>
              p[x, y, z] == old(p[x, y, z]) + if x in ls && y in rs && z in ts then c else 0.0
  {
    var k := 0;
    while k < |ts|
      invariant 0 <= k <= |ts|
      invariant forall x, y, z :: 0 <= x < n && 0 <= y < n && 0 <= z < n ==>
                  p[x, y, z] == old(p[x, y, z]) + if x in ls && y in rs && z in ts[..k] then c else 0.0
    {
      assert ts[..k + 1] == ts[..k] + [ts[k]];
      AddLeftRight(p, n, ls, rs, ts[k], c);
      k := k + 1;
    }
    assert ts[..k] == ts;
  }

  /** `D[x][y][z] := D[x][y][z] * p[x][y][z]` for every cell. */
  method ScaleBy(d: array3<real>, p: array3<real>, n: nat)
    requires Cube(d, n) && Cube(p, n) && d != p
    modifies d
    ensures forall x, y, z :: 0 <= x < n && 0 <= y < n && 0 <= z < n ==>
              d[x, y, z] == Scaled(old(d[x, y, z]), p[x, y, z])
  {
    var i := 0;
    while i < n
      invariant 0 <= i <= n
      invariant forall x, y, z :: 0 <= x < n && 0 <= y < n && 0 <= z < n ==>
                  d[x, y, z] == if x < i then Scaled(old(d[x, y, z]), p[x, y, z]) else old(d[x, y, z])
    {
      var j := 0;
      while j < n
        invariant 0 <= j <= n
        invariant forall x, y, z :: 0 <= x < n && 0 <= y < n && 0 <= z < n ==>
                    d[x, y, z] == if x < i || (x == i && y < j) then Scaled(old(d[x, y, z]), p[x, y, z]) else old(d[x, y, z])
      {
        var k := 0;
        while k < n
          invariant 0 <= k <= n
          invariant forall x, y, z :: 0 <= x < n && 0 <= y < n && 0 <= z < n ==>
                      d[x, y, z] == if x < i || (x == i && (y < j || (y == j && z < k))) then Scaled(old(d[x, y, z]), p[x, y, z])
                                    else old(d[x, y, z])
        {
          d[i, j, k] := d[i, j, k] * p[i, j, k];
          k := k + 1;
        }
        j := j + 1;
      }
      i := i + 1;
    }
  }

  // ------------------------------------------------------ the text windows

  /** The `word_left` every pass starts with: a word whose only tag is the
      end-of-sentence tag. */
  function Opening(eos: Tag): Word
  {
    Word([], {eos})
  }

  /** The windows of a pass over `words`: one per word that has a right
      neighbour, the first word's left neighbour being the opening word. */
  function TextWindows(eos: Tag, words: seq<Word>, openClass: TagSet): (r: seq<Window>)
    ensures |r| == if words == [] then 0 else |words| - 1
  {
    Slide([Opening(eos)] + words, openClass)
  }

  lemma WindowsInRange(eos: Tag, words: seq<Word>, openClass: TagSet, n: nat)
    requires 0 <= eos < n && InRange(openClass, n) && WordsInRange(words, n)
    ensures WindowsWithin(TextWindows(eos, words, openClass), n)
  {
    var all := [Opening(eos)] + words;
    forall i | 0 <= i < |all|
      ensures InRange(ClassOf(all[i], openClass), n)
    {
      if i > 0 {
        assert all[i] == words[i - 1];
      }
    }
  }

  // ------------------------------------------------------------ init

  /** The share `1 / (|T| |L| |R|)` of one combination of a window. */
  function Weight(w: Window): real
  {
    var size := |w.mid| * |w.left| * |w.right|;
    if size == 0 then 0.0 else 1.0 / (size as real)
  }

  /** What window `w` adds to cell [x][y][z] in `init_probabilities`. */
  function Share(w: Window, x: int, y: int, z: int): real
  {
    if x in w.left && y in w.right && z in w.mid then Weight(w) else 0.0
  }

  /** What the windows `ws` add to cell [x][y][z] together. */
  function Mass(ws: seq<Window>, x: int, y: int, z: int): real
  {
    if ws == [] then 0.0 else Mass(ws[..|ws| - 1], x, y, z) + Share(ws[|ws| - 1], x, y, z)
  }

  /** One more window adds its share to every cell. */
  lemma MassStep(ws: seq<Window>, i: nat)
    requires i < |ws|
    ensures forall x, y, z :: Mass(ws[..i + 1], x, y, z) == Mass(ws[..i], x, y, z) + Share(ws[i], x, y, z)
  {
    assert ws[..i + 1][..i] == ws[..i];
  }

  /** The body of the `init_probabilities` loop for one window: the three
      nested loops over the classes in iteration order. */
  method Spread(p: array3<real>, n: nat, left: TagSet, mid: TagSet, right: TagSet)
    requires Cube(p, n) && InRange(left, n) && InRange(mid, n) && InRange(right, n)
    modifies p
    ensures forall x, y, z :: 0 <= x < n && 0 <= y < n && 0 <= z < n ==>
              p[x, y, z] == old(p[x, y, z]) + Share(Window(left, mid, right), x, y, z)
  {
    var ts := AscendingTags(mid);
    var ls := AscendingTags(left);
    var rs := AscendingTags(right);
    SpreadListed(p, n, Window(left, mid, right), ts, ls, rs);
  }

  /** `Spread` once the classes are listed in iteration order. */
  method SpreadListed(p: array3<real>, n: nat, w: Window, ts: seq<Tag>, ls: seq<Tag>, rs: seq<Tag>)
    requires Cube(p, n) && InRange(w.left, n) && InRange(w.mid, n) && InRange(w.right, n)
    requires Ascending(ts) && Ascending(ls) && Ascending(rs)
    requires forall t :: (t in ts <==> t in w.mid) && (t in ls <==> t in w.left) && (t in rs <==> t in w.right)
    modifies p
    ensures forall x, y, z :: 0 <= x < n && 0 <= y < n && 0 <= z < n ==>
              p[x, y, z] == old(p[x, y, z]) + Share(w, x, y, z)
  {
    assert Within(ts, n) && Within(ls, n) && Within(rs, n) by {
      assert forall q :: 0 <= q < |ts| ==> ts[q] in ts;
      assert forall q :: 0 <= q < |ls| ==> ls[q] in ls;
      assert forall q :: 0 <= q < |rs| ==> rs[q] in rs;
    }
    var size := |w.mid| * |w.left| * |w.right|;
    if size > 0 {
      AddWindow(p, n, ts, ls, rs, 1.0 / (size as real));
    } else {
      assert w.mid == {} || w.left == {} || w.right == {};
    }
  }

  /** `LSWPoST::init_probabilities`. With no word the data is left alone.
      Otherwise every window must have registered classes (else the pass
      stops fatally, the data untouched), and D becomes the mass the windows
      spread evenly over their combinations. */
  method InitProbabilities(d: array3<real>, n: nat, words: seq<Word>, eos: Tag, openClass: TagSet, output: Registry)
    returns (ok: bool)
    requires Cube(d, n) && 0 <= eos < n && InRange(openClass, n) && WordsInRange(words, n)
    modifies d
    ensures ok == Registered(TextWindows(eos, words, openClass), output)
    ensures !ok || words == [] ==>
              forall x, y, z :: 0 <= x < n && 0 <= y < n && 0 <= z < n ==> d[x, y, z] == old(d[x, y, z])
    ensures ok && words != [] ==>
              forall x, y, z :: 0 <= x < n && 0 <= y < n && 0 <= z < n ==>
                d[x, y, z] == Mass(TextWindows(eos, words, openClass), x, y, z)
  {
    if words == [] {
      return true;
    }
    var ws := TextWindows(eos, words, openClass);
    WindowsInRange(eos, words, openClass, n);
    var p := new real[n, n, n]((x, y, z) => 0.0);
    var i := 0;
    while i < |ws|
      invariant 0 <= i <= |ws|
      invariant Cube(p, n)
      invariant Registered(ws[..i], output)
      invariant forall x, y, z :: 0 <= x < n && 0 <= y < n && 0 <= z < n ==> p[x, y, z] == Mass(ws[..i], x, y, z)
      invariant forall x, y, z :: 0 <= x < n && 0 <= y < n && 0 <= z < n ==> d[x, y, z] == old(d[x, y, z])
    {
      var w := ws[i];
      if HasNot(output, w.left) || HasNot(output, w.mid) || HasNot(output, w.right) {
        return false;
      }
      RegisteredStep(ws, i, output);
      Spread(p, n, w.left, w.mid, w.right);
      MassStep(ws, i);
      i := i + 1;
    }
    assert ws[..i] == ws;
    CopyInto(d, p);
    ok := true;
  }

  // --------------------------------------- every window spreads mass one

  /** How many elements of `s` lie below `k`. */
  function CountBelow(s: TagSet, k: nat): nat
  {
    if k == 0 then 0 else CountBelow(s, k - 1) + if k - 1 in s then 1 else 0
  }

  lemma {:induction false} CountBelowIsCard(s: TagSet, k: nat)
    requires forall t :: t in s ==> 0 <= t
    ensures CountBelow(s, k) == |set t | t in s && t < k|
  {
    if k == 0 {
      assert (set t | t in s && t < k) == {};
    } else {
      CountBelowIsCard(s, k - 1);
      var below := set t | t in s && t < k - 1;
      if k - 1 in s {
        assert (set t | t in s && t < k) == below + {k - 1};
      } else {
        assert (set t | t in s && t < k) == below;
      }
    }
  }

  /** Counting the tags of a class of valid tags below n counts the class. */
  lemma CountBelowAll(s: TagSet, n: nat)
    requires InRange(s, n)
    ensures CountBelow(s, n) == |s|
  {
    CountBelowIsCard(s, n);
    assert (set t | t in s && t < n) == s;
  }

  /** Sum of a window's shares over the middle tags below k. */
  function ShareZ(w: Window, x: int, y: int, k: nat): real
  {
    if k == 0 then 0.0 else ShareZ(w, x, y, k - 1) + Share(w, x, y, k - 1)
  }

  /** Sum over the right tags below k and all middle tags below n. */
  function ShareYZ(w: Window, x: int, n: nat, k: nat): real
  {
    if k == 0 then 0.0 else ShareYZ(w, x, n, k - 1) + ShareZ(w, x, k - 1, n)
  }

  /** Sum over the left tags below k and all other tags below n. */
  function ShareXYZ(w: Window, n: nat, k: nat): real
  {
    if k == 0 then 0.0 else ShareXYZ(w, n, k - 1) + ShareYZ(w, k - 1, n, n)
  }

  /** Sum over the tags below k of `r` for each tag of `s`. */
  function Indicator(s: TagSet, k: nat, r: real): real
  {
    if k == 0 then 0.0 else Indicator(s, k - 1, r) + if k - 1 in s then r else 0.0
  }

  lemma {:induction false} IndicatorSum(s: TagSet, k: nat, r: real)
    ensures Indicator(s, k, r) == (CountBelow(s, k) as real) * r
  {
    if k > 0 {
      IndicatorSum(s, k - 1, r);
    }
  }

  lemma {:induction false} ShareZValue(w: Window, x: int, y: int, k: nat)
    ensures ShareZ(w, x, y, k) == Indicator(w.mid, k, if x in w.left && y in w.right then Weight(w) else 0.0)
  {
    if k > 0 {
      ShareZValue(w, x, y, k - 1);
    }
  }

  lemma {:induction false} ShareYZValue(w: Window, x: int, n: nat, k: nat)
    requires InRange(w.mid, n)
    ensures ShareYZ(w, x, n, k) == Indicator(w.right, k, if x in w.left then (|w.mid| as real) * Weight(w) else 0.0)
  {
    if k > 0 {
      ShareYZValue(w, x, n, k - 1);
      ShareZValue(w, x, k - 1, n);
      var r := if x in w.left && k - 1 in w.right then Weight(w) else 0.0;
      IndicatorSum(w.mid, n, r);
      CountBelowAll(w.mid, n);
    }
  }

  lemma {:induction false} ShareXYZValue(w: Window, n: nat, k: nat)
    requires InRange(w.mid, n) && InRange(w.right, n)
    ensures ShareXYZ(w, n, k) == Indicator(w.left, k, (|w.right| as real) * ((|w.mid| as real) * Weight(w)))
  {
    if k > 0 {
      ShareXYZValue(w, n, k - 1);
      ShareYZValue(w, k - 1, n, n);
      var r := if k - 1 in w.left then (|w.mid| as real) * Weight(w) else 0.0;
      IndicatorSum(w.right, n, r);
      CountBelowAll(w.right, n);
    }
  }

  /** A window whose classes are non-empty sets of valid tags adds exactly
      one unit of mass to D in `init_probabilities`. */
  lemma WindowMassOne(w: Window, n: nat)
    requires InRange(w.left, n) && InRange(w.mid, n) && InRange(w.right, n)
    requires w.left != {} && w.mid != {} && w.right != {}
    ensures ShareXYZ(w, n, n) == 1.0
  {
    ShareXYZValue(w, n, n);
    IndicatorSum(w.left, n, (|w.right| as real) * ((|w.mid| as real) * Weight(w)));
    CountBelowAll(w.left, n);
    var a, b, c := |w.left|, |w.right|, |w.mid|;
    assert a > 0 && b > 0 && c > 0;
    var size := c * a * b;
    assert size > 0;
    assert Weight(w) == 1.0 / (size as real);
    assert (a as real) * (b as real) * (c as real) == size as real;
  }

  // ------------------------------------------------------------ train

  /** The mass D gives window `w`: the `normalization` of `train`. */
  ghost function Norm(d: array3<real>, w: Window): real
    reads d
  {
    SumTLR(d, Asc(w.mid), Asc(w.left), Asc(w.right))
  }

  /** What the windows `ws` add to cell [x][y][z] of the new counts of
      `train`: each window covering the cell adds the reciprocal of its
      mass under D. */
  ghost function Gain(d: array3<real>, ws: seq<Window>, x: int, y: int, z: int): real
    reads d
  {
    if ws == [] then 0.0
    else
      var w := ws[|ws| - 1];
      Gain(d, ws[..|ws| - 1], x, y, z) + if x in w.left && y in w.right && z in w.mid then Recip(Norm(d, w)) else 0.0
  }

  /** One more window adds its reciprocal mass to the cells it covers. */
  lemma GainStep(d: array3<real>, ws: seq<Window>, i: nat)
    requires i < |ws|
    ensures forall x, y, z :: Gain(d, ws[..i + 1], x, y, z) == Gain(d, ws[..i], x, y, z) +
              if x in ws[i].left && y in ws[i].right && z in ws[i].mid then Recip(Norm(d, ws[i])) else 0.0
  {
    assert ws[..i + 1][..i] == ws[..i];
  }

  /** The body of the `train` loop for one window: its mass under D, then
      the reciprocal added to every combination of the window. */
  method Reinforce(d: array3<real>, p: array3<real>, n: nat, w: Window)
    requires Cube(d, n) && Cube(p, n) && d != p
    requires InRange(w.left, n) && InRange(w.mid, n) && InRange(w.right, n)
    modifies p
    ensures forall x, y, z :: 0 <= x < n && 0 <= y < n && 0 <= z < n ==>
              p[x, y, z] == old(p[x, y, z]) + if x in w.left && y in w.right && z in w.mid then Recip(Norm(d, w)) else 0.0
  {
    var ts := AscendingTags(w.mid);
    var ls := AscendingTags(w.left);
    var rs := AscendingTags(w.right);
    ListedWithin(ts, w.mid, n);
    ListedWithin(ls, w.left, n);
    ListedWithin(rs, w.right, n);
    var norm := WindowSum(d, n, ts, ls, rs);
    AddWindow(p, n, ts, ls, rs, Recip(norm));
  }

  /** The loop of `train` over the windows: `para_matrix_new`, or false
      at the first window with an unregistered class. */
  method NewCounts(d: array3<real>, n: nat, ws: seq<Window>, output: Registry) returns (ok: bool, p: array3<real>)
    requires Cube(d, n) && WindowsWithin(ws, n)
    ensures fresh(p) && Cube(p, n)
    ensures ok == Registered(ws, output)
    ensures ok ==> forall x, y, z :: 0 <= x < n && 0 <= y < n && 0 <= z < n ==> p[x, y, z] == Gain(d, ws, x, y, z)
  {
    p := new real[n, n, n]((x, y, z) => 0.0);
    var i := 0;
    while i < |ws|
      invariant 0 <= i <= |ws|
      invariant Cube(p, n)
      invariant Registered(ws[..i], output)
      invariant forall x, y, z :: 0 <= x < n && 0 <= y < n && 0 <= z < n ==> p[x, y, z] == Gain(d, ws[..i], x, y, z)
      modifies p
    {
      var w := ws[i];
      if HasNot(output, w.left) || HasNot(output, w.mid) || HasNot(output, w.right) {
        return false, p;
      }
      RegisteredStep(ws, i, output);
      label before:
      Reinforce(d, p, n, w);
      GainStep(d, ws, i);
      forall x, y, z | 0 <= x < n && 0 <= y < n && 0 <= z < n
        ensures p[x, y, z] == Gain(d, ws[..i + 1], x, y, z)
      {
        assert old@before(p[x, y, z]) == old@before(Gain(d, ws[..i], x, y, z)) == Gain(d, ws[..i], x, y, z);
      }
      i := i + 1;
    }
    assert ws[..i] == ws;
    ok := true;
  }

  /** `LSWPoST::train`. With no word the data is left alone. Otherwise
      every window must have registered classes (else the pass stops
      fatally, the data untouched), and every cell of D is multiplied by
      what the windows covering it add: the reciprocal of each window's
      mass under the old D. */
  method Train(d: array3<real>, n: nat, words: seq<Word>, eos: Tag, openClass: TagSet, output: Registry)
    returns (ok: bool)
    requires Cube(d, n) && 0 <= eos < n && InRange(openClass, n) && WordsInRange(words, n)
    modifies d
    ensures ok == Registered(TextWindows(eos, words, openClass), output)
    ensures !ok || words == [] ==>
              forall x, y, z :: 0 <= x < n && 0 <= y < n && 0 <= z < n ==> d[x, y, z] == old(d[x, y, z])
    ensures ok && words != [] ==>
              forall x, y, z :: 0 <= x < n && 0 <= y < n && 0 <= z < n ==>
                d[x, y, z] == Scaled(old(d[x, y, z]), old(Gain(d, TextWindows(eos, words, openClass), x, y, z)))
  {
    if words == [] {
      return true;
    }
    var ws := TextWindows(eos, words, openClass);
    WindowsInRange(eos, words, openClass, n);
    var p;
    ok, p := NewCounts(d, n, ws, output);
    if !ok {
      return;
    }
    label counted:
    Reweight(d, p, n, ws);
    forall x, y, z | 0 <= x < n && 0 <= y < n && 0 <= z < n
      ensures d[x, y, z] == Scaled(old(d[x, y, z]), old(Gain(d, ws, x, y, z)))
    {
      assert old@counted(d[x, y, z]) == old(d[x, y, z]);
      assert old@counted(Gain(d, ws, x, y, z)) == old(Gain(d, ws, x, y, z));
    }
  }

  /** The last step of `train`: D multiplied, cell by cell, by the new
      counts, which are what the windows add under the old D. */
  method Reweight(d: array3<real>, p: array3<real>, n: nat, ghost ws: seq<Window>)
    requires Cube(d, n) && Cube(p, n) && d != p
    requires forall x, y, z :: 0 <= x < n && 0 <= y < n && 0 <= z < n ==> p[x, y, z] == Gain(d, ws, x, y, z)
    modifies d
    ensures forall x, y, z :: 0 <= x < n && 0 <= y < n && 0 <= z < n ==>
              d[x, y, z] == Scaled(old(d[x, y, z]), old(Gain(d, ws, x, y, z)))
  {
    ScaleBy(d, p, n);
    forall x, y, z | 0 <= x < n && 0 <= y < n && 0 <= z < n
      ensures d[x, y, z] == Scaled(old(d[x, y, z]), old(Gain(d, ws, x, y, z)))
    {
      assert d[x, y, z] == Scaled(old(d[x, y, z]), p[x, y, z]);
    }
  }

  /** A cell u of D multiplied by v. */
  function Scaled(u: real, v: real): real
  {
    u * v
  }

  /** The new counts of `train` are never negative when D is not. */
  lemma {:induction false} GainNonNegative(d: array3<real>, ws: seq<Window>, x: int, y: int, z: int)
    requires forall a, b, c :: 0 <= a < d.Length0 && 0 <= b < d.Length1 && 0 <= c < d.Length2 ==> d[a, b, c] >= 0.0
    ensures Gain(d, ws, x, y, z) >= 0.0
  {
    if ws != [] {
      var w := ws[|ws| - 1];
      GainNonNegative(d, ws[..|ws| - 1], x, y, z);
      MassNonNegative(d, Asc(w.mid), Asc(w.left), Asc(w.right));
    }
  }

  lemma {:induction false} MassNonNegative(d: array3<real>, ts: seq<Tag>, ls: seq<Tag>, rs: seq<Tag>)
    requires forall a, b, c :: 0 <= a < d.Length0 && 0 <= b < d.Length1 && 0 <= c < d.Length2 ==> d[a, b, c] >= 0.0
    ensures SumTLR(d, ts, ls, rs) >= 0.0
  {
    if ts != [] {
      MassNonNegative(d, ts[..|ts| - 1], ls, rs);
      SumsNonNegative(d, ls, rs, ts[|ts| - 1]);
    }
  }

  /** A cell no window covers gets nothing from `init_probabilities` and
      is zeroed by `train`. */
  lemma {:induction false} Uncovered(d: array3<real>, ws: seq<Window>, x: int, y: int, z: int)
    requires forall k :: 0 <= k < |ws| ==> !(x in ws[k].left && y in ws[k].right && z in ws[k].mid)
    ensures Mass(ws, x, y, z) == 0.0 && Gain(d, ws, x, y, z) == 0.0
  {
    if ws != [] {
      Uncovered(d, ws[..|ws| - 1], x, y, z);
    }
  }

  // ------------------------------------------------------------ tagger

  /** The scores `n` of the middle tags `ts` for left tags `ls` and right
      tags `rs`. */
  ghost function Scores(d: array3<real>, ls: seq<Tag>, rs: seq<Tag>, ts: seq<Tag>): (sc: seq<real>)
    reads d
    ensures |sc| == |ts|
  {
    seq(|ts|, q requires 0 <= q < |ts| reads d => SumLR(d, ls, rs, ts[q]))
  }

  /** The right class the tagger scores with: the class itself when it is
      registered, its fallback otherwise. */
  function RightClass(w: Window, output: Registry, m: nat, openClass: TagSet): TagSet
    requires m <= |output|
  {
    if w.right in output then w.right else FindSimilar(output, m, openClass, w.right)
  }

  /** The score of middle tag `t` in window `w`. */
  ghost function Score(d: array3<real>, w: Window, output: Registry, m: nat, openClass: TagSet, t: Tag): real
    requires m <= |output|
    reads d
  {
    SumLR(d, Asc(w.left), Asc(RightClass(w, output, m, openClass)), t)
  }

  /** The tag the running maximum settles on for window `w`, starting from
      max -1 and tag 0. */
  ghost function Pick(d: array3<real>, w: Window, output: Registry, m: nat, openClass: TagSet): Tag
    requires m <= |output|
    reads d
  {
    var ts := Asc(w.mid);
    Best(ts, Scores(d, Asc(w.left), Asc(RightClass(w, output, m, openClass)), ts), -1.0, 0).1
  }

  /** `tags` and `end` are what tagging the windows `ws` yields: the pick
      of each window in turn, up to the end or, in debug mode, up to the
      first window whose right class is unregistered, where the pass stops
      fatally. */
  ghost predicate Tagged(d: array3<real>, ws: seq<Window>, output: Registry, m: nat, openClass: TagSet, debug: bool,
                         tags: seq<Tag>, end: Outcome)
    requires m <= |output|
    reads d
  {
    && |tags| <= |ws|
    && (forall i :: 0 <= i < |tags| ==> tags[i] == Pick(d, ws[i], output, m, openClass))
    && (end == Finished ==> |tags| == |ws|)
    && (end == NewClass ==> debug && |tags| < |ws| && ws[|tags|].right !in output)
    && (debug ==> forall i :: 0 <= i < |tags| ==> ws[i].right in output)
    && (end == Finished || end == NewClass)
  }

  /** The choice loop of the tagger: a score per middle tag, in iteration
      order, kept when strictly above the running maximum. */
  method ChooseTag(d: array3<real>, n: nat, ls: seq<Tag>, rs: seq<Tag>, ts: seq<Tag>) returns (tag: Tag)
    requires Cube(d, n) && Within(ls, n) && Within(rs, n) && Within(ts, n)
    ensures tag == Best(ts, Scores(d, ls, rs, ts), -1.0, 0).1
  {
    ghost var sc := Scores(d, ls, rs, ts);
    var max := -1.0;
    tag := 0;
    var q := 0;
    while q < |ts|
      invariant 0 <= q <= |ts|
      invariant (max, tag) == Best(ts[..q], sc[..q], -1.0, 0)
    {
      var score := AccLeftRight(d, n, 0.0, ls, rs, ts[q]);
      assert ts[..q + 1][..q] == ts[..q] && sc[..q + 1][..q] == sc[..q];
      if score > max {
        max := score;
        tag := ts[q];
      }
      q := q + 1;
    }
    assert ts[..q] == ts && sc[..q] == sc;
  }

  /** The body of the tagger loop for one window, past the debug check:
      the fallback for an unregistered right class, then the choice. */
  method TagWindow(d: array3<real>, n: nat, w: Window, openClass: TagSet, output: Registry, m: nat)
    returns (tag: Tag)
    requires Cube(d, n) && InRange(w.left, n) && InRange(w.mid, n) && InRange(w.right, n) && InRange(openClass, n)
    requires m <= |output| && ClassesInRange(output, n)
    ensures tag == Pick(d, w, output, m, openClass)
  {
    var right := w.right;
    if HasNot(output, right) {
      right := FindSimilarClass(output, m, openClass, right);
      FindSimilarRegistered(output, m, openClass, w.right);
      assert right == openClass || right in output[..m];
    }
    var ts := AscendingTags(w.mid);
    var ls := AscendingTags(w.left);
    var rs := AscendingTags(right);
    ListedWithin(ts, w.mid, n);
    ListedWithin(ls, w.left, n);
    ListedWithin(rs, right, n);
    tag := ChooseTag(d, n, ls, rs, ts);
  }

  /** The loop of `LSWPoST::tagger` over the windows. */
  method TagWindows(d: array3<real>, n: nat, ws: seq<Window>, openClass: TagSet, output: Registry, m: nat, debug: bool)
    returns (tags: seq<Tag>, end: Outcome)
    requires Cube(d, n) && WindowsWithin(ws, n) && InRange(openClass, n)
    requires m <= |output| && ClassesInRange(output, n)
    ensures Tagged(d, ws, output, m, openClass, debug, tags, end)
  {
    ghost var picks := seq(|ws|, j requires 0 <= j < |ws| reads d => Pick(d, ws[j], output, m, openClass));
    tags := [];
    var i := 0;
    while i < |ws|
      invariant 0 <= i <= |ws| && tags == picks[..i]
      invariant debug ==> forall j :: 0 <= j < i ==> ws[j].right in output
    {
      var w := ws[i];
      if HasNot(output, w.right) && debug {
        return tags, NewClass;
      }
      var tag := TagWindow(d, n, w, openClass, output, m);
      assert picks[..i + 1] == picks[..i] + [tag];
      tags := tags + [tag];
      i := i + 1;
    }
    end := Finished;
  }

  /** `LSWPoST::tagger` as written: one tag per word that has a right
      neighbour. A text of one word ends at the dereference of the NULL
      right word before the loop. */
  method Tagger(d: array3<real>, n: nat, words: seq<Word>, eos: Tag, openClass: TagSet, output: Registry, m: nat,
                debug: bool) returns (tags: seq<Tag>, end: Outcome)
    requires Cube(d, n) && 0 <= eos < n && InRange(openClass, n) && WordsInRange(words, n)
    requires m <= |output| && ClassesInRange(output, n)
    ensures |words| == 1 ==> tags == [] && end == NullWord
    ensures |words| != 1 ==> Tagged(d, TextWindows(eos, words, openClass), output, m, openClass, debug, tags, end)
  {
    if words == [] {
      return [], Finished;
    }
    if |words| == 1 {
      return [], NullWord;
    }
    WindowsInRange(eos, words, openClass, n);
    tags, end := TagWindows(d, n, TextWindows(eos, words, openClass), openClass, output, m, debug);
  }

  /** The tagger with the right word checked before its first use, as the
      loop does for every later right word: a text of one word yields no
      tag and ends normally. */
  method TaggerGuarded(d: array3<real>, n: nat, words: seq<Word>, eos: Tag, openClass: TagSet, output: Registry, m: nat,
                       debug: bool) returns (tags: seq<Tag>, end: Outcome)
    requires Cube(d, n) && 0 <= eos < n && InRange(openClass, n) && WordsInRange(words, n)
    requires m <= |output| && ClassesInRange(output, n)
    ensures Tagged(d, TextWindows(eos, words, openClass), output, m, openClass, debug, tags, end)
    ensures |tags| <= |words| && (end == Finished ==> |tags| == if words == [] then 0 else |words| - 1)
  {
    if words == [] {
      return [], Finished;
    }
    WindowsInRange(eos, words, openClass, n);
    tags, end := TagWindows(d, n, TextWindows(eos, words, openClass), openClass, output, m, debug);
  }

  /** With D never negative, the pick of a window with a non-empty middle
      class is one of its tags, of the largest score, and the smallest such
      tag: the -1 start is always beaten. */
  lemma PickIsBest(d: array3<real>, w: Window, output: Registry, m: nat, openClass: TagSet)
    requires m <= |output| && w.mid != {}
    requires forall a, b, c :: 0 <= a < d.Length0 && 0 <= b < d.Length1 && 0 <= c < d.Length2 ==> d[a, b, c] >= 0.0
    ensures Pick(d, w, output, m, openClass) in w.mid
    ensures forall t :: t in w.mid ==> Score(d, w, output, m, openClass, t) <= Score(d, w, output, m, openClass, Pick(d, w, output, m, openClass))
    ensures forall t :: t in w.mid && t < Pick(d, w, output, m, openClass) ==>
              Score(d, w, output, m, openClass, t) < Score(d, w, output, m, openClass, Pick(d, w, output, m, openClass))
  {
    ChoiceIsBest(d, Asc(w.left), Asc(RightClass(w, output, m, openClass)), w.mid);
  }

  /** `PickIsBest` for any lists of left and right tags. */
  lemma ChoiceIsBest(d: array3<real>, ls: seq<Tag>, rs: seq<Tag>, mid: TagSet)
    requires mid != {}
    requires forall a, b, c :: 0 <= a < d.Length0 && 0 <= b < d.Length1 && 0 <= c < d.Length2 ==> d[a, b, c] >= 0.0
    ensures var best := Best(Asc(mid), Scores(d, ls, rs, Asc(mid)), -1.0, 0).1;
              && best in mid
              && (forall t :: t in mid ==> SumLR(d, ls, rs, t) <= SumLR(d, ls, rs, best))
              && (forall t :: t in mid && t < best ==> SumLR(d, ls, rs, t) < SumLR(d, ls, rs, best))
  {
    var ts := Asc(mid);
    var sc := Scores(d, ls, rs, ts);
    AscLength(mid);
    forall q | 0 <= q < |sc|
      ensures sc[q] > -1.0
    {
      SumsNonNegative(d, ls, rs, ts[q]);
    }
    var q := BestOfListed(ts, sc);
    var best := ts[q];
    assert best in mid;
    forall t | t in mid
      ensures SumLR(d, ls, rs, t) <= SumLR(d, ls, rs, best)
      ensures t < best ==> SumLR(d, ls, rs, t) < SumLR(d, ls, rs, best)
    {
      var p := IndexOf(ts, t);
      assert SumLR(d, ls, rs, t) == sc[p];
      assert SumLR(d, ls, rs, best) == sc[q];
    }
  }

}
