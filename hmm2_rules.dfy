/** `HMM2::apply_rules`: the hard rules of the tagger definition write ZERO
    into cells of the transition tensor A in place, and every row A[i][j][.]
    is then normalised to sum 1 (or cleared when its sum is not positive). */
module Hmm2Rules {
  import opened Common
  import opened TaggerRecords
  import opened TaggerData

  // ---------------------------------------------------------- which cells

  /** Cell (x, y, z) of A is written by forbid rule `r`: with two labels,
      every trigram that starts or ends with the bigram (tagi, tagj); with
      three, only (tagi, tagj, tagk). */
  predicate ForbidHit(r: ForbidRule, x: int, y: int, z: int)
  {
    if r.tagk == NO_TAGK then (x == r.tagi && y == r.tagj) || (y == r.tagi && z == r.tagj)
    else x == r.tagi && y == r.tagj && z == r.tagk
  }

  /** Cell (x, y, z) of A is written by enforce rule `r`: without `tagsk`,
      the cells (x, tagi, j) for a listed j; with `tagsk`, the cells
      (tagi, j, z) for a listed j and an unlisted z. */
  predicate EnforceHit(r: EnforceRule, x: int, y: int, z: int)
  {
    if |r.tagsk| == 0 then y == r.tagi && z in r.tagsj
    else x == r.tagi && y in r.tagsj && z !in r.tagsk
  }

  /** Some rule writes ZERO into cell (x, y, z). */
  predicate RuleHit(forbid: seq<ForbidRule>, enforce: seq<EnforceRule>, x: int, y: int, z: int)
  {
    (exists q :: 0 <= q < |forbid| && ForbidHit(forbid[q], x, y, z))
    || (exists q :: 0 <= q < |enforce| && EnforceHit(enforce[q], x, y, z))
  }

  /** The rule pass indexes A with these tags only, so they must be tags of
      the tensor (the third of a two-label rule is the marker). */
  predicate RulesInRange(forbid: seq<ForbidRule>, enforce: seq<EnforceRule>, n: nat)
  {
    && (forall q :: 0 <= q < |forbid| ==>
          && 0 <= forbid[q].tagi < n && 0 <= forbid[q].tagj < n
          && (forbid[q].tagk == NO_TAGK || 0 <= forbid[q].tagk < n))
    && (forall q :: 0 <= q < |enforce| ==> 0 <= enforce[q].tagi < n)
  }

  // ------------------------------------------------------------ row sums

  /** The sum the normalisation loop accumulates, added left to right. */
  function Sum(xs: seq<real>): real
  {
    if xs == [] then 0.0 else Sum(xs[..|xs| - 1]) + xs[|xs| - 1]
  }

  /** Row (x, y) of a tensor. */
  function Row(a: array3<real>, x: int, y: int): (r: seq<real>)
    reads a
    requires 0 <= x < a.Length0 && 0 <= y < a.Length1
    ensures |r| == a.Length2 && forall z :: 0 <= z < a.Length2 ==> r[z] == a[x, y, z]
  {
    seq(a.Length2, z requires 0 <= z < a.Length2 reads a => a[x, y, z])
  }

  /** A row after normalisation: divided by its sum when that is positive,
      all zero otherwise. */
  function Normalised(xs: seq<real>): (r: seq<real>)
    ensures |r| == |xs|
  {
    var s := Sum(xs);
    seq(|xs|, k requires 0 <= k < |xs| => if s > 0.0 then xs[k] / s else 0.0)
  }

  /** A row with the cells some rule hits replaced by ZERO. */
  function Masked(row: seq<real>, forbid: seq<ForbidRule>, enforce: seq<EnforceRule>, x: int, y: int): (r: seq<real>)
    ensures |r| == |row|
  {
    seq(|row|, z requires 0 <= z < |row| => if RuleHit(forbid, enforce, x, y, z) then ZERO else row[z])
  }

  /** Dividing every element by `s` divides the sum by `s`. */
  lemma {:induction false} SumScaled(xs: seq<real>, s: real)
    requires s != 0.0
    ensures Sum(seq(|xs|, k requires 0 <= k < |xs| => xs[k] / s)) == Sum(xs) / s
    decreases |xs|
  {
    var ys := seq(|xs|, k requires 0 <= k < |xs| => xs[k] / s);
    if xs != [] {
      var init := xs[..|xs| - 1];
      SumScaled(init, s);
      assert ys[..|ys| - 1] == seq(|init|, k requires 0 <= k < |init| => init[k] / s);
    }
  }

  /** A row whose sum is positive sums to 1 after normalisation. */
  lemma NormalisedSumsToOne(xs: seq<real>)
    requires Sum(xs) > 0.0
    ensures Sum(Normalised(xs)) == 1.0
  {
    SumScaled(xs, Sum(xs));
    assert Sum(xs) / Sum(xs) == 1.0;
    assert Normalised(xs) == seq(|xs|, k requires 0 <= k < |xs| => xs[k] / Sum(xs));
  }

  /** Sum of a row of zeros. */
  lemma {:induction false} SumZeros(xs: seq<real>)
    requires forall k :: 0 <= k < |xs| ==> xs[k] == 0.0
    ensures Sum(xs) == 0.0
    decreases |xs|
  {
    if xs != [] {
      SumZeros(xs[..|xs| - 1]);
    }
  }

  /** Every normalised row sums to 1 or is all zero, and which one is
      decided by the sign of its sum beforehand. */
  lemma NormalisedRow(xs: seq<real>)
    ensures Sum(xs) > 0.0 ==> Sum(Normalised(xs)) == 1.0
    ensures Sum(xs) <= 0.0 ==> forall k :: 0 <= k < |xs| ==> Normalised(xs)[k] == 0.0
    ensures Sum(xs) <= 0.0 ==> Sum(Normalised(xs)) == 0.0
  {
    if Sum(xs) > 0.0 {
      NormalisedSumsToOne(xs);
    } else {
      SumZeros(Normalised(xs));
    }
  }

  // ----------------------------------------------------------- the passes

  /** One forbid rule: the `k` loop of a two-label rule, or one cell. */
  method ForbidOne(a: array3<real>, n: nat, r: ForbidRule)
    requires Cube(a, n)
    requires 0 <= r.tagi < n && 0 <= r.tagj < n && (r.tagk == NO_TAGK || 0 <= r.tagk < n)
    modifies a
    ensures forall x, y, z :: 0 <= x < n && 0 <= y < n && 0 <= z < n ==>
              a[x, y, z] == if ForbidHit(r, x, y, z) then ZERO else old(a[x, y, z])
  {
    if r.tagk == NO_TAGK {
      var k := 0;
      while k < n
        invariant 0 <= k <= n
        invariant forall x, y, z :: 0 <= x < n && 0 <= y < n && 0 <= z < n ==>
                    a[x, y, z] == if (x == r.tagi && y == r.tagj && z < k) || (y == r.tagi && z == r.tagj && x < k)
                                  then ZERO else old(a[x, y, z])
      {
        a[r.tagi, r.tagj, k] := ZERO;
        a[k, r.tagi, r.tagj] := ZERO;
        k := k + 1;
      }
    } else {
      a[r.tagi, r.tagj, r.tagk] := ZERO;
    }
  }

  /** The forbid-rule loop. */
  method ForbidAll(a: array3<real>, n: nat, forbid: seq<ForbidRule>)
    requires Cube(a, n) && RulesInRange(forbid, [], n)
    modifies a
    ensures forall x, y, z :: 0 <= x < n && 0 <= y < n && 0 <= z < n ==>
              a[x, y, z] == if exists q :: 0 <= q < |forbid| && ForbidHit(forbid[q], x, y, z)
                            then ZERO else old(a[x, y, z])
  {
    var i := 0;
    while i < |forbid|
      invariant 0 <= i <= |forbid|
      invariant forall x, y, z :: 0 <= x < n && 0 <= y < n && 0 <= z < n ==>
                  a[x, y, z] == if exists q :: 0 <= q < i && ForbidHit(forbid[q], x, y, z)
                                then ZERO else old(a[x, y, z])
    {
      ForbidOne(a, n, forbid[i]);
      i := i + 1;
    }
  }

  /** Cell (x, y, z) is written for the pair (j, k) of the enforce loops of
      rule `r`: the j2 scan finds j in `tagsj`, and then either `tagsk` is
      empty and the cell is (k, tagi, j), or k is not in `tagsk` and the
      cell is (tagi, j, k). */
  predicate PairHit(r: EnforceRule, j: int, k: int, x: int, y: int, z: int)
  {
    j in r.tagsj
    && if |r.tagsk| == 0 then x == k && y == r.tagi && z == j
       else x == r.tagi && y == j && z == k && k !in r.tagsk
  }

  /** The body of the `k` loop of one enforce rule: the scan of `tagsj`
      with its `found` flag, and of `tagsk` for each match. */
  method EnforcePair(a: array3<real>, n: nat, r: EnforceRule, j: nat, k: nat)
    requires Cube(a, n) && 0 <= r.tagi < n && j < n && k < n
    modifies a
    ensures forall x, y, z :: 0 <= x < n && 0 <= y < n && 0 <= z < n ==>
              a[x, y, z] == if PairHit(r, j, k, x, y, z) then ZERO else old(a[x, y, z])
  {
    var found := false;
    var j2 := 0;
    while j2 < |r.tagsj|
      invariant 0 <= j2 <= |r.tagsj|
      invariant found == (j in r.tagsj[..j2] && (|r.tagsk| == 0 || k in r.tagsk))
      invariant forall x, y, z :: 0 <= x < n && 0 <= y < n && 0 <= z < n ==>
                  a[x, y, z] == if j in r.tagsj[..j2] && PairHit(r, j, k, x, y, z) then ZERO else old(a[x, y, z])
    {
      if r.tagsj[j2] == j {
        if |r.tagsk| == 0 {
          found := true;
          a[k, r.tagi, j] := ZERO;
        }
        var k2 := 0;
        while k2 < |r.tagsk|
          invariant 0 <= k2 <= |r.tagsk|
          invariant found == (|r.tagsk| == 0 || (k in r.tagsk && j in r.tagsj[..j2]) || k in r.tagsk[..k2])
        {
          if r.tagsk[k2] == k {
            found := true;
            break;
          }
          assert r.tagsk[..k2 + 1] == r.tagsk[..k2] + [r.tagsk[k2]];
          k2 := k2 + 1;
        }
        assert found == (|r.tagsk| == 0 || k in r.tagsk);
        if !found {
          a[r.tagi, j, k] := ZERO;
        }
      }
      assert r.tagsj[..j2 + 1] == r.tagsj[..j2] + [r.tagsj[j2]];
      j2 := j2 + 1;
    }
    assert r.tagsj[..j2] == r.tagsj;
  }

  /** Cells written by the pairs (j', k') before (j, k) in the loop order. */
  predicate HitBefore(r: EnforceRule, j: int, k: int, x: int, y: int, z: int)
  {
    if |r.tagsk| == 0 then y == r.tagi && z in r.tagsj && (z < j || (z == j && x < k))
    else x == r.tagi && y in r.tagsj && z !in r.tagsk && (y < j || (y == j && z < k))
  }

  /** The `j` and `k` loops of one enforce rule. */
  method EnforceOne(a: array3<real>, n: nat, r: EnforceRule)
    requires Cube(a, n) && 0 <= r.tagi < n
    modifies a
    ensures forall x, y, z :: 0 <= x < n && 0 <= y < n && 0 <= z < n ==>
              a[x, y, z] == if EnforceHit(r, x, y, z) then ZERO else old(a[x, y, z])
  {
    var j := 0;
    while j < n
      invariant 0 <= j <= n
      invariant forall x, y, z :: 0 <= x < n && 0 <= y < n && 0 <= z < n ==>
                  a[x, y, z] == if HitBefore(r, j, 0, x, y, z) then ZERO else old(a[x, y, z])
    {
      var k := 0;
      while k < n
        invariant 0 <= k <= n
        invariant forall x, y, z :: 0 <= x < n && 0 <= y < n && 0 <= z < n ==>
                    a[x, y, z] == if HitBefore(r, j, k, x, y, z) then ZERO else old(a[x, y, z])
      {
        EnforcePair(a, n, r, j, k);
        k := k + 1;
      }
      j := j + 1;
    }
  }

  /** The enforce-rule loop. */
  method EnforceAll(a: array3<real>, n: nat, enforce: seq<EnforceRule>)
    requires Cube(a, n) && RulesInRange([], enforce, n)
    modifies a
    ensures forall x, y, z :: 0 <= x < n && 0 <= y < n && 0 <= z < n ==>
              a[x, y, z] == if exists q :: 0 <= q < |enforce| && EnforceHit(enforce[q], x, y, z)
                            then ZERO else old(a[x, y, z])
  {
    var i := 0;
    while i < |enforce|
      invariant 0 <= i <= |enforce|
      invariant forall x, y, z :: 0 <= x < n && 0 <= y < n && 0 <= z < n ==>
                  a[x, y, z] == if exists q :: 0 <= q < i && EnforceHit(enforce[q], x, y, z)
                                then ZERO else old(a[x, y, z])
    {
      EnforceOne(a, n, enforce[i]);
      i := i + 1;
    }
  }

  /** The normalisation loops: every row is replaced by its normalised form. */
  method NormaliseRows(a: array3<real>, n: nat)
    requires Cube(a, n)
    modifies a
    ensures forall x, y :: 0 <= x < n && 0 <= y < n ==> Row(a, x, y) == Normalised(old(Row(a, x, y)))
  {
    var i := 0;
    while i < n
      invariant 0 <= i <= n
      invariant forall x, y :: 0 <= x < i && 0 <= y < n ==> Row(a, x, y) == Normalised(old(Row(a, x, y)))
      invariant forall x, y :: i <= x < n && 0 <= y < n ==> Row(a, x, y) == old(Row(a, x, y))
    {
      var j := 0;
      while j < n
        invariant 0 <= j <= n
        invariant forall x, y :: 0 <= x < i && 0 <= y < n ==> Row(a, x, y) == Normalised(old(Row(a, x, y)))
        invariant forall y :: 0 <= y < j ==> Row(a, i, y) == Normalised(old(Row(a, i, y)))
        invariant forall x, y :: 0 <= x < n && 0 <= y < n && (x > i || (x == i && y >= j)) ==>
                    Row(a, x, y) == old(Row(a, x, y))
      {
        NormaliseRow(a, n, i, j);
        j := j + 1;
      }
      i := i + 1;
    }
  }

  /** One row: sum it, then divide by the sum or clear it. */
  method NormaliseRow(a: array3<real>, n: nat, i: nat, j: nat)
    requires Cube(a, n) && i < n && j < n
    modifies a
    ensures Row(a, i, j) == Normalised(old(Row(a, i, j)))
    ensures forall x, y :: 0 <= x < n && 0 <= y < n && (x != i || y != j) ==> Row(a, x, y) == old(Row(a, x, y))
  {
    ghost var row := Row(a, i, j);
    var sum := 0.0;
    var k := 0;
    while k < n
      invariant 0 <= k <= n
      invariant sum == Sum(row[..k])
    {
      assert row[..k + 1][..k] == row[..k];
      sum := sum + a[i, j, k];
      k := k + 1;
    }
    assert row[..k] == row;
    k := 0;
    while k < n
      invariant 0 <= k <= n
      invariant forall z :: 0 <= z < k ==> a[i, j, z] == Normalised(row)[z]
      invariant forall z :: k <= z < n ==> a[i, j, z] == row[z]
      invariant forall x, y, z :: 0 <= x < n && 0 <= y < n && 0 <= z < n && (x != i || y != j) ==>
                  a[x, y, z] == old(a[x, y, z])
    {
      if sum > 0.0 {
        a[i, j, k] := a[i, j, k] / sum;
      } else {
        a[i, j, k] := 0.0;
      }
      k := k + 1;
    }
    forall x, y | 0 <= x < n && 0 <= y < n && (x != i || y != j) ensures Row(a, x, y) == old(Row(a, x, y)) {
      assert forall z :: 0 <= z < n ==> Row(a, x, y)[z] == old(Row(a, x, y))[z];
    }
  }

  /** `HMM2::apply_rules` on the tensor A of `td`: every row of A becomes
      the normalised form of the old row with ZERO in the cells some rule
      hits. */
  method ApplyRules(td: TaggerDataTrigram)
    requires td.Valid() && td.a != null
    requires RulesInRange(td.forbidRules, td.enforceRules, td.N)
    modifies td.a
    ensures forall x, y :: 0 <= x < td.N && 0 <= y < td.N ==>
              Row(td.a, x, y) == Normalised(Masked(old(Row(td.a, x, y)), td.forbidRules, td.enforceRules, x, y))
  {
    var a, n := td.a, td.N;
    ForbidAll(a, n, td.forbidRules);
    EnforceAll(a, n, td.enforceRules);
    forall x, y | 0 <= x < n && 0 <= y < n
      ensures Row(a, x, y) == Masked(old(Row(a, x, y)), td.forbidRules, td.enforceRules, x, y)
    {
    }
    NormaliseRows(a, n);
  }
}
