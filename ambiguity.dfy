/** The ambiguity-class registry (the `Collection` every tagger keeps in
    its data): an append-only sequence of distinct tag sets whose positions
    are the class ids; the dictionary pass that fills it; and the fallback
    that maps an unregistered class to a registered one. */
module AmbiguityClasses {
  import opened Common

  /** Registered classes; the id of a class is its position. */
  type Registry = seq<TagSet>

  /** No class is registered twice. */
  ghost predicate Distinct(reg: Registry)
  {
    forall i, j :: 0 <= i < j < |reg| ==> reg[i] != reg[j]
  }

  /** Every registered class holds tags below n. */
  predicate ClassesInRange(output: Registry, n: nat)
  {
    forall k :: 0 <= k < |output| ==> InRange(output[k], n)
  }

  /** `Collection::has_not`: the class has no id yet. */
  predicate HasNot(reg: Registry, c: TagSet)
  {
    c !in reg
  }

  /** Position of the first occurrence of `c` at or after `i`, or -1. */
  function IndexFrom(reg: Registry, c: TagSet, i: nat): (k: int)
    requires i <= |reg|
    ensures k == -1 || i <= k < |reg|
    ensures k >= 0 ==> reg[k] == c && forall x :: i <= x < k ==> reg[x] != c
    ensures k == -1 <==> forall x :: i <= x < |reg| ==> reg[x] != c
    decreases |reg| - i
  {
    if i == |reg| then -1
    else if reg[i] == c then i
    else IndexFrom(reg, c, i + 1)
  }

  /** `output[c]`: the id of `c`, appending `c` first when it is new. The
      result is the registry afterwards and the id. */
  function Lookup(reg: Registry, c: TagSet): (r: (Registry, nat))
    ensures r.1 < |r.0| && r.0[r.1] == c
    ensures c in reg ==> r.0 == reg && forall x :: 0 <= x < r.1 ==> reg[x] != c
    ensures c !in reg ==> r.0 == reg + [c] && r.1 == |reg|
    ensures Distinct(reg) ==> Distinct(r.0)
  {
    var k := IndexFrom(reg, c, 0);
    if k >= 0 then (reg, k) else (reg + [c], |reg|)
  }

  /** Classes that the dictionary pass may add: a non-empty class of some
      dictionary word, the open class, or a singleton of a valid tag. */
  ghost predicate FromDictionary(c: TagSet, words: seq<Word>, openClass: TagSet, n: int)
  {
    (exists w :: w in words && w.tags != {} && c == w.tags)
    || c == openClass
    || (exists t :: 0 <= t < n && c == {t})
  }

  /** The registration part of `read_dictionary` (identical in the HMM2,
      LSWPoST and SWPoST taggers): every non-empty class of the dictionary,
      then the open class, then `{t}` for each tag t in 0 .. n-1. Ids given
      before stay where they were, and nothing else is added. */
  method RegisterDictionary(reg0: Registry, words: seq<Word>, openClass: TagSet, n: nat)
    returns (reg: Registry)
    requires Distinct(reg0)
    ensures Distinct(reg) && |reg0| <= |reg| && reg[..|reg0|] == reg0
    ensures forall w :: w in words && w.tags != {} ==> w.tags in reg
    ensures openClass in reg
    ensures forall t :: 0 <= t < n ==> {t} in reg
    ensures forall c :: c in reg ==> c in reg0 || FromDictionary(c, words, openClass, n)
  {
    reg := reg0;
    var i := 0;
    while i < |words|
      invariant 0 <= i <= |words|
      invariant Distinct(reg) && |reg0| <= |reg| && reg[..|reg0|] == reg0
      invariant forall x :: 0 <= x < i && words[x].tags != {} ==> words[x].tags in reg
      invariant forall c :: c in reg ==> c in reg0 || FromDictionary(c, words, openClass, n)
    {
      var tags := words[i].tags;
      if |tags| > 0 {
        var r := Lookup(reg, tags);
        reg := r.0;
      }
      i := i + 1;
    }
    var r := Lookup(reg, openClass);
    reg := r.0;
    var t := 0;
    while t != n
      invariant 0 <= t <= n
      invariant Distinct(reg) && |reg0| <= |reg| && reg[..|reg0|] == reg0
      invariant forall w :: w in words && w.tags != {} ==> w.tags in reg
      invariant openClass in reg
      invariant forall u :: 0 <= u < t ==> {u} in reg
      invariant forall c :: c in reg ==> c in reg0 || FromDictionary(c, words, openClass, n)
    {
      r := Lookup(reg, {t});
      reg := r.0;
      t := t + 1;
    }
  }

  /** Registered class `k` is a fallback candidate for the unseen class `c`:
      a subset of `c` with fewer tags. */
  ghost predicate Candidate(reg: Registry, c: TagSet, k: int)
    requires 0 <= k < |reg|
  {
    reg[k] <= c && |reg[k]| < |c|
  }

  /** The scan of `find_similar_ambiguity_class` from id `k` on, with the
      size and class kept so far. */
  function FindSimilarFrom(reg: Registry, m: nat, c: TagSet, k: nat, sizeRet: int, ret: TagSet): TagSet
    requires k <= m <= |reg|
    decreases m - k
  {
    if k == m then ret
    else if sizeRet < |reg[k]| && |reg[k]| < |c| && reg[k] <= c then
      FindSimilarFrom(reg, m, c, k + 1, |reg[k]|, reg[k])
    else
      FindSimilarFrom(reg, m, c, k + 1, sizeRet, ret)
  }

  /** `find_similar_ambiguity_class(c)` over the first `m` registered classes
      (`m` is the tagger's M), starting from the open class and size -1. */
  function FindSimilar(reg: Registry, m: nat, openClass: TagSet, c: TagSet): TagSet
    requires m <= |reg|
  {
    FindSimilarFrom(reg, m, c, 0, -1, openClass)
  }

  /** The scan from `k` on returns the kept class when no later candidate is
      larger than `sizeRet`, and otherwise the earliest of the largest such
      candidates. */
  lemma {:induction false} FindSimilarFromSpec(reg: Registry, m: nat, c: TagSet, k: nat, sizeRet: int, ret: TagSet)
    requires k <= m <= |reg|
    ensures (forall x :: k <= x < m ==> !(Candidate(reg, c, x) && |reg[x]| > sizeRet)) ==>
              FindSimilarFrom(reg, m, c, k, sizeRet, ret) == ret
    ensures (exists x :: k <= x < m && Candidate(reg, c, x) && |reg[x]| > sizeRet) ==>
              exists b :: k <= b < m && Candidate(reg, c, b) && |reg[b]| > sizeRet
                && FindSimilarFrom(reg, m, c, k, sizeRet, ret) == reg[b]
                && (forall x :: k <= x < m && Candidate(reg, c, x) ==> |reg[x]| <= |reg[b]|)
                && (forall x :: k <= x < b && Candidate(reg, c, x) ==> |reg[x]| < |reg[b]|)
    decreases m - k
  {
    if k < m {
      if sizeRet < |reg[k]| && |reg[k]| < |c| && reg[k] <= c {
        FindSimilarFromSpec(reg, m, c, k + 1, |reg[k]|, reg[k]);
        if exists x :: k + 1 <= x < m && Candidate(reg, c, x) && |reg[x]| > |reg[k]| {
          var b :| k + 1 <= b < m && Candidate(reg, c, b) && |reg[b]| > |reg[k]|
                   && FindSimilarFrom(reg, m, c, k + 1, |reg[k]|, reg[k]) == reg[b]
                   && (forall x :: k + 1 <= x < m && Candidate(reg, c, x) ==> |reg[x]| <= |reg[b]|)
                   && (forall x :: k + 1 <= x < b && Candidate(reg, c, x) ==> |reg[x]| < |reg[b]|);
          assert FindSimilarFrom(reg, m, c, k, sizeRet, ret) == reg[b];
        } else {
          assert FindSimilarFrom(reg, m, c, k, sizeRet, ret) == reg[k];
          assert Candidate(reg, c, k);
        }
      } else {
        FindSimilarFromSpec(reg, m, c, k + 1, sizeRet, ret);
      }
    }
  }

  /** The fallback returns the open class when no registered class among
      the first `m` is a smaller subset of `c`; otherwise it returns
      such a class of the largest size, the earliest registered among equals
      (the size test is a strict `>`). */
  lemma FindSimilarSpec(reg: Registry, m: nat, openClass: TagSet, c: TagSet)
    requires m <= |reg|
    ensures (forall x :: 0 <= x < m ==> !Candidate(reg, c, x)) ==>
              FindSimilar(reg, m, openClass, c) == openClass
    ensures (exists x :: 0 <= x < m && Candidate(reg, c, x)) ==>
              exists b :: 0 <= b < m && Candidate(reg, c, b)
                && FindSimilar(reg, m, openClass, c) == reg[b]
                && (forall x :: 0 <= x < m && Candidate(reg, c, x) ==> |reg[x]| <= |reg[b]|)
                && (forall x :: 0 <= x < b && Candidate(reg, c, x) ==> |reg[x]| < |reg[b]|)
  {
    FindSimilarFromSpec(reg, m, c, 0, -1, openClass);
  }

  /** What the fallback returns is the open class or a registered class. */
  lemma FindSimilarRegistered(reg: Registry, m: nat, openClass: TagSet, c: TagSet)
    requires m <= |reg|
    ensures FindSimilar(reg, m, openClass, c) == openClass
         || FindSimilar(reg, m, openClass, c) in reg[..m]
  {
    FindSimilarSpec(reg, m, openClass, c);
    if exists x :: 0 <= x < m && Candidate(reg, c, x) {
      var b :| 0 <= b < m && Candidate(reg, c, b) && FindSimilar(reg, m, openClass, c) == reg[b];
      assert reg[..m][b] == reg[b];
    }
  }

  /** The inner loop of the fallback: is every tag of `a` a tag of `c`?
      It stops at the first tag that is not. */
  method Subset(a: TagSet, c: TagSet) returns (r: bool)
    ensures r == (a <= c)
  {
    var xs := AscendingTags(a);
    r := true;
    var q := 0;
    while q < |xs|
      invariant 0 <= q <= |xs|
      invariant forall p :: 0 <= p < q ==> xs[p] in c
    {
      if xs[q] !in c {
        r := false;
        break;
      }
      q := q + 1;
    }
    assert r ==> forall t :: t in a ==> t in xs;
  }

  /** `find_similar_ambiguity_class`: the loop over the first `m`
      registered classes that keeps the largest strict subset of `c`. */
  method FindSimilarClass(reg: Registry, m: nat, openClass: TagSet, c: TagSet) returns (ret: TagSet)
    requires m <= |reg|
    ensures ret == FindSimilar(reg, m, openClass, c)
  {
    var sizeRet := -1;
    ret := openClass;
    var k := 0;
    while k < m
      invariant 0 <= k <= m
      invariant FindSimilarFrom(reg, m, c, k, sizeRet, ret) == FindSimilar(reg, m, openClass, c)
    {
      if |reg[k]| > sizeRet && |reg[k]| < |c| {
        var within := Subset(reg[k], c);
        if within {
          sizeRet := |reg[k]|;
          ret := reg[k];
        }
      }
      k := k + 1;
    }
  }
}
