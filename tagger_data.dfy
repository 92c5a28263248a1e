/** The model store of the trigram tagger (`TaggerDataTrigram`): tag
    inventory, hard rules, the ambiguity-class registry, the transition
    tensor A (N x N x N) and the emission tensor B (N x N x M), with the
    operations that copy, clear, write and read it. */
module TaggerData {
  import opened Common
  import opened AmbiguityClasses
  import opened TaggerRecords
  import opened ModelFile

  /** The tensor's values as nested sequences. */
  function Block(x: array3<real>): (c: seq<seq<seq<real>>>)
    reads x
    ensures Shaped(c, x.Length0, x.Length1, x.Length2)
    ensures forall i, j, k :: 0 <= i < x.Length0 && 0 <= j < x.Length1 && 0 <= k < x.Length2 ==>
              c[i][j][k] == x[i, j, k]
  {
    seq(x.Length0, i requires 0 <= i < x.Length0 reads x =>
      seq(x.Length1, j requires 0 <= j < x.Length1 reads x =>
        seq(x.Length2, k requires 0 <= k < x.Length2 reads x => x[i, j, k])))
  }

  /** The emission entries `write` stores for row (i, j), cells k' < k:
      those whose class k' contains tag j, in increasing k'. */
  ghost function RowEntries(b: array3<real>, output: Registry, i: nat, j: nat, k: nat): seq<BEntry>
    requires i < b.Length0 && j < b.Length1 && k <= b.Length2 <= |output|
    reads b
  {
    if k == 0 then []
    else RowEntries(b, output, i, j, k - 1)
         + (if j in output[k - 1] then [BEntry(i, j, k - 1, b[i, j, k - 1])] else [])
  }

  /** The entries of plane i, rows j' < j. */
  ghost function PlaneEntries(b: array3<real>, output: Registry, i: nat, j: nat): seq<BEntry>
    requires i < b.Length0 && j <= b.Length1 && b.Length2 <= |output|
    reads b
  {
    if j == 0 then []
    else PlaneEntries(b, output, i, j - 1) + RowEntries(b, output, i, j - 1, b.Length2)
  }

  /** The entries of planes i' < i: with i = N, all of B's stored part in
      row-major order. */
  ghost function BlockEntries(b: array3<real>, output: Registry, i: nat): seq<BEntry>
    requires i <= b.Length0 && b.Length2 <= |output|
    reads b
  {
    if i == 0 then []
    else BlockEntries(b, output, i - 1) + PlaneEntries(b, output, i - 1, b.Length1)
  }

  /** Keys of `map` written as entries: each once, with its value. */
  ghost predicate Enumerates(es: seq<(string, int)>, m: map<string, int>)
  {
    && (forall p, q :: 0 <= p < q < |es| ==> es[p].0 != es[q].0)
    && (forall q :: 0 <= q < |es| ==> es[q].0 in m && m[es[q].0] == es[q].1)
    && (forall key :: key in m ==> exists q :: 0 <= q < |es| && es[q].0 == key)
  }

  /** `tag_index[key] = value` for each entry read, in order. */
  function Apply(m: map<string, int>, es: seq<(string, int)>): map<string, int>
    decreases |es|
  {
    if es == [] then m else Apply(m[es[0].0 := es[0].1], es[1..])
  }

  lemma HasKey(s: set<string>)
    requires s != {}
    ensures exists x :: x in s
  {
    if forall x :: x !in s {
      assert false;
    }
  }

  /** The tag index as a list of entries, each key once. */
  method EntriesOf(m: map<string, int>) returns (es: seq<(string, int)>)
    ensures Enumerates(es, m)
  {
    es := [];
    var rest := m.Keys;
    while rest != {}
      invariant rest <= m.Keys
      invariant forall p, q :: 0 <= p < q < |es| ==> es[p].0 != es[q].0
      invariant forall q :: 0 <= q < |es| ==> es[q].0 in m && es[q].0 !in rest && m[es[q].0] == es[q].1
      invariant forall key :: key in m && key !in rest ==> exists q :: 0 <= q < |es| && es[q].0 == key
      decreases |rest|
    {
      HasKey(rest);
      var key :| key in rest;
      ghost var before := es;
      es := es + [(key, m[key])];
      forall k | k in m && k !in rest - {key} ensures exists q :: 0 <= q < |es| && es[q].0 == k {
        if k == key {
          assert es[|es| - 1].0 == k;
        } else {
          var q :| 0 <= q < |before| && before[q].0 == k;
          assert es[q] == before[q];
        }
      }
      rest := rest - {key};
    }
  }

  /** The stored part of B in the order `write` emits it: for every
      (i, j, k) in row-major order, the cell when class k contains tag j. */
  method CollectStored(b: array3<real>, output: Registry) returns (es: seq<BEntry>)
    requires b.Length2 <= |output|
    ensures es == BlockEntries(b, output, b.Length0)
  {
    es := [];
    var i := 0;
    while i < b.Length0
      invariant 0 <= i <= b.Length0
      invariant es == BlockEntries(b, output, i)
    {
      var j := 0;
      while j < b.Length1
        invariant 0 <= j <= b.Length1
        invariant es == BlockEntries(b, output, i) + PlaneEntries(b, output, i, j)
      {
        var k := 0;
        while k < b.Length2
          invariant 0 <= k <= b.Length2
          invariant es == BlockEntries(b, output, i) + PlaneEntries(b, output, i, j)
                          + RowEntries(b, output, i, j, k)
        {
          if j in output[k] {
            es := es + [BEntry(i, j, k, b[i, j, k])];
          }
          k := k + 1;
        }
        j := j + 1;
      }
      i := i + 1;
    }
  }

  /** A fresh tensor holding the leading d0 x d1 x d2 block of `src`. */
  method CopyBlock(src: array3<real>, d0: nat, d1: nat, d2: nat) returns (dst: array3<real>)
    requires d0 <= src.Length0 && d1 <= src.Length1 && d2 <= src.Length2
    ensures fresh(dst) && dst.Length0 == d0 && dst.Length1 == d1 && dst.Length2 == d2
    ensures forall i, j, k :: 0 <= i < d0 && 0 <= j < d1 && 0 <= k < d2 ==> dst[i, j, k] == src[i, j, k]
  {
    dst := new real[d0, d1, d2];
    var i := 0;
    while i < d0
      invariant 0 <= i <= d0
      invariant forall x, y, z :: 0 <= x < i && 0 <= y < d1 && 0 <= z < d2 ==> dst[x, y, z] == src[x, y, z]
    {
      var j := 0;
      while j < d1
        invariant 0 <= j <= d1
        invariant forall x, y, z :: 0 <= x < i && 0 <= y < d1 && 0 <= z < d2 ==> dst[x, y, z] == src[x, y, z]
        invariant forall y, z :: 0 <= y < j && 0 <= z < d2 ==> dst[i, y, z] == src[i, y, z]
      {
        var k := 0;
        while k < d2
          invariant 0 <= k <= d2
          invariant forall x, y, z :: 0 <= x < i && 0 <= y < d1 && 0 <= z < d2 ==> dst[x, y, z] == src[x, y, z]
          invariant forall y, z :: 0 <= y < j && 0 <= z < d2 ==> dst[i, y, z] == src[i, y, z]
          invariant forall z :: 0 <= z < k ==> dst[i, j, z] == src[i, j, z]
        {
          dst[i, j, k] := src[i, j, k];
          k := k + 1;
        }
        j := j + 1;
      }
      i := i + 1;
    }
  }

  /** Fills `x` from a block of the same shape. */
  method Fill(x: array3<real>, c: seq<seq<seq<real>>>)
    requires Shaped(c, x.Length0, x.Length1, x.Length2)
    modifies x
    ensures forall i, j, k :: 0 <= i < x.Length0 && 0 <= j < x.Length1 && 0 <= k < x.Length2 ==>
              x[i, j, k] == c[i][j][k]
  {
    var i := 0;
    while i < x.Length0
      invariant 0 <= i <= x.Length0
      invariant forall p, q, r :: 0 <= p < i && 0 <= q < x.Length1 && 0 <= r < x.Length2 ==> x[p, q, r] == c[p][q][r]
    {
      var j := 0;
      while j < x.Length1
        invariant 0 <= j <= x.Length1
        invariant forall p, q, r :: 0 <= p < i && 0 <= q < x.Length1 && 0 <= r < x.Length2 ==> x[p, q, r] == c[p][q][r]
        invariant forall q, r :: 0 <= q < j && 0 <= r < x.Length2 ==> x[i, q, r] == c[i][q][r]
      {
        var k := 0;
        while k < x.Length2
          invariant 0 <= k <= x.Length2
          invariant forall p, q, r :: 0 <= p < i && 0 <= q < x.Length1 && 0 <= r < x.Length2 ==> x[p, q, r] == c[p][q][r]
          invariant forall q, r :: 0 <= q < j && 0 <= r < x.Length2 ==> x[i, q, r] == c[i][q][r]
          invariant forall r :: 0 <= r < k ==> x[i, j, r] == c[i][j][r]
        {
          x[i, j, k] := c[i][j][k];
          k := k + 1;
        }
        j := j + 1;
      }
      i := i + 1;
    }
  }

  /** The tensors `read` builds: A filled densely, B zero-filled and then
      set entry by entry. */
  method LoadTensors(img: Image) returns (na: array3<real>, nb: array3<real>)
    requires Shaped(img.a, img.n, img.n, img.n) && InBlock(img.b, img.n, img.m)
    ensures fresh(na) && fresh(nb) && na != nb
    ensures na.Length0 == img.n && na.Length1 == img.n && na.Length2 == img.n
    ensures nb.Length0 == img.n && nb.Length1 == img.n && nb.Length2 == img.m
    ensures forall i, j, k :: 0 <= i < img.n && 0 <= j < img.n && 0 <= k < img.n ==> na[i, j, k] == img.a[i][j][k]
    ensures forall i, j, k :: 0 <= i < img.n && 0 <= j < img.n && 0 <= k < img.m ==>
              nb[i, j, k] == StoredValue(img.b, i, j, k)
  {
    var n, m := img.n, img.m;
    na := new real[n, n, n];
    nb := new real[n, n, m];
    Fill(na, img.a);
    var zero := seq(n, i => seq(n, j => seq(m, k => 0.0)));
    Fill(nb, zero);
    var q := 0;
    while q < |img.b|
      invariant 0 <= q <= |img.b|
      invariant forall i, j, k :: 0 <= i < n && 0 <= j < n && 0 <= k < n ==> na[i, j, k] == img.a[i][j][k]
      invariant forall i, j, k :: 0 <= i < n && 0 <= j < n && 0 <= k < m ==>
                  nb[i, j, k] == StoredValue(img.b[..q], i, j, k)
    {
      var e := img.b[q];
      nb[e.i, e.j, e.k] := e.v;
      assert img.b[..q + 1][..q] == img.b[..q];
      q := q + 1;
    }
    assert img.b[..q] == img.b;
  }

  class TaggerDataTrigram {
    var openClass: set<Tag>
    var forbidRules: seq<ForbidRule>
    var tagIndex: map<string, int>
    var arrayTags: seq<string>
    var enforceRules: seq<EnforceRule>
    var preferRules: seq<string>
    var constants: map<string, int>
    var output: Registry
    var N: nat
    var M: nat
    var a: array3?<real>
    var b: array3?<real>
    var plist: seq<PatternOp>
    var discard: seq<string>

    /** A and B exist together, as two distinct tensors of the declared sizes. */
    ghost predicate Valid()
      reads this
    {
      && (a == null <==> b == null)
      && (a != null ==>
            && a != b
            && a.Length0 == N && a.Length1 == N && a.Length2 == N
            && b.Length0 == N && b.Length1 == N && b.Length2 == M)
    }

    /** What `write` needs: valid tensors, present whenever N > 0, a class
        for every ambiguity-class index of B, and tags, tag ids and rules
        that fit the unsigned multibyte encoding. */
    ghost predicate Storable()
      reads this
    {
      && Valid()
      && (N > 0 ==> a != null && M <= |output|)
      && (forall t :: t in openClass ==> t >= 0)
      && (forall q :: 0 <= q < |forbidRules| ==> ForbidWritable(forbidRules[q]))
      && (forall key :: key in tagIndex ==> tagIndex[key] >= 0)
      && (forall q :: 0 <= q < |enforceRules| ==> EnforceWritable(enforceRules[q]))
    }

    constructor ()
      ensures Valid() && a == null && b == null && N == 0 && M == 0
      ensures openClass == {} && forbidRules == [] && tagIndex == map[] && arrayTags == []
      ensures enforceRules == [] && preferRules == [] && constants == map[] && output == []
      ensures plist == [] && discard == []
    {
      a, b, N, M := null, null, 0, 0;
      openClass, forbidRules, tagIndex, arrayTags := {}, [], map[], [];
      enforceRules, preferRules, constants, output := [], [], map[], [];
      plist, discard := [], [];
    }

    /** Releases both tensors and zeroes the sizes; nothing else changes. */
    method Destroy()
      modifies this`a, this`b, this`N, this`M
      ensures Valid() && a == null && b == null && N == 0 && M == 0
    {
      a, b, N, M := null, null, 0, 0;
    }

    /** Replaces the sizes and tensors. With both sizes non-zero, fresh
        tensors are allocated and filled from `myA`/`myB` when given (left
        unspecified otherwise); with either size zero there are none. */
    method SetProbabilities(myN: nat, myM: nat, myA: array3?<real>, myB: array3?<real>)
      requires myA != null ==> myN <= myA.Length0 && myN <= myA.Length1 && myN <= myA.Length2
      requires myB != null ==> myN <= myB.Length0 && myN <= myB.Length1 && myM <= myB.Length2
      modifies this`a, this`b, this`N, this`M
      ensures Valid() && N == myN && M == myM
      ensures (myN == 0 || myM == 0) <==> a == null
      ensures a != null ==> fresh(a) && fresh(b)
      ensures a != null && myA != null ==>
                forall i, j, k :: 0 <= i < N && 0 <= j < N && 0 <= k < N ==> a[i, j, k] == myA[i, j, k]
      ensures a != null && myB != null ==>
                forall i, j, k :: 0 <= i < N && 0 <= j < N && 0 <= k < M ==> b[i, j, k] == myB[i, j, k]
    {
      Destroy();
      N, M := myN, myM;
      if N != 0 && M != 0 {
        var na: array3<real>;
        var nb: array3<real>;
        if myA != null {
          na := CopyBlock(myA, N, N, N);
        } else {
          na := new real[N, N, N];
        }
        if myB != null {
          nb := CopyBlock(myB, N, N, M);
        } else {
          nb := new real[N, N, M];
        }
        a, b := na, nb;
      } else {
        a, b := null, null;
      }
    }

    /** `copy`: every member is taken from `o` except the discard list,
        which `copy` does not mention (see the findings). */
    method Copy(o: TaggerDataTrigram)
      requires o != this && o.Valid()
      modifies this
      ensures Valid() && discard == old(discard)
      ensures openClass == o.openClass && forbidRules == o.forbidRules && tagIndex == o.tagIndex
      ensures arrayTags == o.arrayTags && enforceRules == o.enforceRules
      ensures preferRules == o.preferRules && constants == o.constants && output == o.output
      ensures plist == o.plist && N == o.N && M == o.M
      ensures (a == null) == (o.N == 0 || o.M == 0)
      ensures a != null ==> fresh(a) && fresh(b)
      ensures a != null && o.a != null ==>
                forall i, j, k :: 0 <= i < N && 0 <= j < N && 0 <= k < N ==> a[i, j, k] == o.a[i, j, k]
      ensures a != null && o.a != null ==>
                forall i, j, k :: 0 <= i < N && 0 <= j < N && 0 <= k < M ==> b[i, j, k] == o.b[i, j, k]
    {
      CopyTables(o);
      SetProbabilities(o.N, o.M, o.a, o.b);
    }

    /** The part of `copy` that takes over the tag inventory, the rules,
        the constants, the classes and the pattern list. */
    method CopyTables(o: TaggerDataTrigram)
      requires o != this
      modifies this`openClass, this`forbidRules, this`tagIndex, this`arrayTags, this`enforceRules
      modifies this`preferRules, this`constants, this`output, this`plist
      ensures openClass == o.openClass && forbidRules == o.forbidRules && tagIndex == o.tagIndex
      ensures arrayTags == o.arrayTags && enforceRules == o.enforceRules
      ensures preferRules == o.preferRules && constants == o.constants && output == o.output
      ensures plist == o.plist
    {
      openClass, forbidRules, tagIndex := o.openClass, o.forbidRules, o.tagIndex;
      arrayTags, enforceRules, preferRules := o.arrayTags, o.enforceRules, o.preferRules;
      constants, output, plist := o.constants, o.output, o.plist;
    }

    /** `copy` as evidently intended: the discard list is copied too. */
    method CopyAll(o: TaggerDataTrigram)
      requires o != this && o.Valid()
      modifies this
      ensures Valid() && discard == o.discard
      ensures openClass == o.openClass && forbidRules == o.forbidRules && tagIndex == o.tagIndex
      ensures arrayTags == o.arrayTags && enforceRules == o.enforceRules
      ensures preferRules == o.preferRules && constants == o.constants && output == o.output
      ensures plist == o.plist && N == o.N && M == o.M
      ensures (a == null) == (o.N == 0 || o.M == 0)
      ensures a != null ==> fresh(a) && fresh(b)
      ensures a != null && o.a != null ==>
                forall i, j, k :: 0 <= i < N && 0 <= j < N && 0 <= k < N ==> a[i, j, k] == o.a[i, j, k]
      ensures a != null && o.a != null ==>
                forall i, j, k :: 0 <= i < N && 0 <= j < N && 0 <= k < M ==> b[i, j, k] == o.b[i, j, k]
    {
      Copy(o);
      discard := o.discard;
    }

    /** `operator=`: assigning an object to itself changes nothing. */
    method Assign(o: TaggerDataTrigram)
      requires o.Valid()
      modifies this
      ensures o == this ==> unchanged(this)
      ensures o != this ==>
                && Valid() && discard == old(discard)
                && openClass == o.openClass && forbidRules == o.forbidRules && tagIndex == o.tagIndex
                && arrayTags == o.arrayTags && enforceRules == o.enforceRules
                && preferRules == o.preferRules && constants == o.constants && output == o.output
                && plist == o.plist && N == o.N && M == o.M
      ensures o != this ==> (a == null) == (o.N == 0 || o.M == 0)
      ensures o != this && a != null ==> fresh(a) && fresh(b)
      ensures o != this && a != null && o.a != null ==>
                forall i, j, k :: 0 <= i < N && 0 <= j < N && 0 <= k < N ==> a[i, j, k] == o.a[i, j, k]
      ensures o != this && a != null && o.a != null ==>
                forall i, j, k :: 0 <= i < N && 0 <= j < N && 0 <= k < M ==> b[i, j, k] == o.b[i, j, k]
    {
      if o != this {
        Destroy();
        Copy(o);
      }
    }

    /** `addDiscard`: appends one tag sequence to the discard list. */
    method AddDiscard(tags: string)
      modifies this`discard
      ensures discard == old(discard) + [tags]
    {
      discard := discard + [tags];
    }

    /** `img` is exactly what this store holds, laid out as a model file:
        the open class ascending, the tag index entry by entry, A whole and
        B's cells whose class contains their tag. */
    ghost predicate Describes(img: Image)
      reads this, a, b
      requires Valid()
    {
      && Ascending(img.openClass) && (forall t :: t in img.openClass <==> t in openClass)
      && img.forbid == forbidRules && img.arrayTags == arrayTags
      && Enumerates(img.tagIndex, tagIndex)
      && img.enforce == enforceRules && img.prefer == preferRules
      && img.constants == constants && img.output == output
      && img.n == N && img.m == M
      && (a != null && M <= |output| ==> img.a == Block(a) && img.b == BlockEntries(b, output, N))
      && (N == 0 ==> img.a == [] && img.b == [])
      && img.plist == plist && img.discard == discard
    }

    /** `write`: the items of the model file for the current contents. */
    method Write() returns (out: seq<Item>, img: Image)
      requires Storable()
      ensures Describes(img) && Writable(img) && out == Encode(img)
    {
      var oc := AscendingTags(openClass);
      var ti := EntriesOf(tagIndex);
      var cube: seq<seq<seq<real>>> := [];
      var stored: seq<BEntry> := [];
      if a != null && M <= |output| {
        cube := Block(a);
        stored := CollectStored(b, output);
      }
      img := Image(oc, forbidRules, arrayTags, ti, enforceRules, preferRules, constants, output,
                   N, M, cube, stored, plist, discard);
      assert N == 0 ==> stored == [] by {
        if N == 0 && a != null && M <= |output| {
          assert stored == BlockEntries(b, output, 0);
        }
      }
      assert AtLeast(oc, 0) by {
        forall q | 0 <= q < |oc| ensures 0 <= oc[q] {
          assert oc[q] in oc;
        }
      }
      out := Encode(img);
    }

    /** `read`: the tensors are released, the file is parsed, the rule and
        tag lists are appended to, the tag index updated entry by entry, and
        B is zero-filled before the stored cells are set. A truncated or
        malformed file yields false with the tensors released. */
    method Read(s: seq<Item>) returns (ok: bool)
      modifies this
      ensures Valid() && ok == Decode(s).Some?
      ensures !ok ==>
                && a == null && N == 0 && M == 0 && discard == old(discard)
                && openClass == old(openClass) && forbidRules == old(forbidRules)
                && arrayTags == old(arrayTags) && tagIndex == old(tagIndex)
                && enforceRules == old(enforceRules) && preferRules == old(preferRules)
                && constants == old(constants) && output == old(output) && plist == old(plist)
      ensures ok ==>
                var img := Decode(s).value;
                && openClass == old(openClass) + (set t | t in img.openClass)
                && forbidRules == old(forbidRules) + img.forbid
                && arrayTags == old(arrayTags) + img.arrayTags
                && tagIndex == Apply(old(tagIndex), img.tagIndex)
                && enforceRules == old(enforceRules) + img.enforce
                && preferRules == old(preferRules) + img.prefer
                && constants == img.constants && output == img.output
                && N == img.n && M == img.m && a != null && fresh(a) && fresh(b)
                && (forall i, j, k :: 0 <= i < N && 0 <= j < N && 0 <= k < N ==> a[i, j, k] == img.a[i][j][k])
                && (forall i, j, k :: 0 <= i < N && 0 <= j < N && 0 <= k < M ==>
                      b[i, j, k] == StoredValue(img.b, i, j, k))
                && plist == img.plist && discard == img.discard
    {
      Destroy();
      var parsed := Decode(s);
      if parsed.None? {
        return false;
      }
      var img := parsed.value;
      ReadTables(img);
      N, M := img.n, img.m;
      a, b := LoadTensors(img);
      ok := true;
    }

    /** The part of `read` that fills everything but the tensors: the open
        class, rules, tag names and prefer rules are added to, the tag index
        updated entry by entry, the rest replaced. */
    method ReadTables(img: Image)
      modifies this`openClass, this`forbidRules, this`tagIndex, this`arrayTags, this`enforceRules
      modifies this`preferRules, this`constants, this`output, this`plist, this`discard
      ensures openClass == old(openClass) + (set t | t in img.openClass)
      ensures forbidRules == old(forbidRules) + img.forbid
      ensures arrayTags == old(arrayTags) + img.arrayTags
      ensures tagIndex == Apply(old(tagIndex), img.tagIndex)
      ensures enforceRules == old(enforceRules) + img.enforce
      ensures preferRules == old(preferRules) + img.prefer
      ensures constants == img.constants && output == img.output
      ensures plist == img.plist && discard == img.discard
    {
      openClass := openClass + (set t | t in img.openClass);
      forbidRules := forbidRules + img.forbid;
      arrayTags := arrayTags + img.arrayTags;
      tagIndex := Apply(tagIndex, img.tagIndex);
      enforceRules := enforceRules + img.enforce;
      preferRules := preferRules + img.prefer;
      constants, output := img.constants, img.output;
      plist, discard := img.plist, img.discard;
    }
  }

  // ------------------------------------------------------ what write stores

  /** Without its first entry, an enumeration lists the map without the
      first key. */
  lemma EnumeratesTail(es: seq<(string, int)>, m: map<string, int>)
    requires Enumerates(es, m) && es != []
    ensures Enumerates(es[1..], m - {es[0].0})
  {
    var m' := m - {es[0].0};
    forall q | 0 <= q < |es[1..]| ensures es[1..][q].0 in m' && m'[es[1..][q].0] == es[1..][q].1 {
      assert es[1..][q] == es[q + 1];
    }
    forall key | key in m' ensures exists q :: 0 <= q < |es[1..]| && es[1..][q].0 == key {
      var q :| 0 <= q < |es| && es[q].0 == key;
      assert q != 0;
      assert es[1..][q - 1].0 == key;
    }
  }

  /** Adding key k with its value in m, then the rest of m, adds m. */
  lemma MergeRemoved(m0: map<string, int>, m: map<string, int>, k: string)
    requires k in m
    ensures m0[k := m[k]] + (m - {k}) == m0 + m
  {
    var l, r := m0[k := m[k]] + (m - {k}), m0 + m;
    assert l.Keys == r.Keys;
    forall key | key in l ensures l[key] == r[key] {
      if key != k {
        assert key in m ==> key in m - {k};
      }
    }
  }

  lemma {:induction false} ApplyEnumeration(m0: map<string, int>, es: seq<(string, int)>, m: map<string, int>)
    requires Enumerates(es, m)
    ensures Apply(m0, es) == m0 + m
    decreases |es|
  {
    if es == [] {
      assert m == map[];
    } else {
      var k0, v0 := es[0].0, es[0].1;
      var m' := m - {k0};
      EnumeratesTail(es, m);
      ApplyEnumeration(m0[k0 := v0], es[1..], m');
      assert k0 in m && m[k0] == v0;
      MergeRemoved(m0, m, k0);
    }
  }

  /** Reading the written tag index into an empty map restores it. */
  lemma TagIndexRestored(es: seq<(string, int)>, m: map<string, int>)
    requires Enumerates(es, m)
    ensures Apply(map[], es) == m
  {
    ApplyEnumeration(map[], es, m);
    assert map[] + m == m;
  }

  lemma {:induction false} RowEntriesAt(b: array3<real>, output: Registry, i: nat, j: nat, k: nat)
    requires i < b.Length0 && j < b.Length1 && k <= b.Length2 <= |output|
    ensures forall x, y, z :: Mentions(RowEntries(b, output, i, j, k), x, y, z) <==>
              x == i && y == j && 0 <= z < k && j in output[z]
    ensures forall z :: 0 <= z < k ==>
              StoredValue(RowEntries(b, output, i, j, k), i, j, z) == if j in output[z] then b[i, j, z] else 0.0
  {
    if k > 0 {
      RowEntriesAt(b, output, i, j, k - 1);
      var xs := RowEntries(b, output, i, j, k - 1);
      var ys := if j in output[k - 1] then [BEntry(i, j, k - 1, b[i, j, k - 1])] else [];
      forall x, y, z ensures Mentions(xs + ys, x, y, z) <==> Mentions(xs, x, y, z) || Mentions(ys, x, y, z) {
        MentionsAppend(xs, ys, x, y, z);
      }
      forall z | 0 <= z < k
        ensures StoredValue(xs + ys, i, j, z) == if j in output[z] then b[i, j, z] else 0.0
      {
        LastWins(xs, ys, i, j, z);
        if z == k - 1 {
          UnmentionedIsZero(xs, i, j, z);
          assert Mentions(ys, i, j, z) ==> ys == [BEntry(i, j, k - 1, b[i, j, k - 1])];
          if Mentions(ys, i, j, z) {
            assert StoredValue(ys, i, j, z) == b[i, j, z];
          }
        } else {
          assert !Mentions(ys, i, j, z);
        }
      }
    }
  }

  lemma {:induction false} PlaneEntriesAt(b: array3<real>, output: Registry, i: nat, j: nat)
    requires i < b.Length0 && j <= b.Length1 && b.Length2 <= |output|
    ensures forall x, y, z :: Mentions(PlaneEntries(b, output, i, j), x, y, z) <==>
              x == i && 0 <= y < j && 0 <= z < b.Length2 && y in output[z]
    ensures forall y, z :: 0 <= y < j && 0 <= z < b.Length2 ==>
              StoredValue(PlaneEntries(b, output, i, j), i, y, z) == if y in output[z] then b[i, y, z] else 0.0
  {
    if j > 0 {
      PlaneEntriesAt(b, output, i, j - 1);
      RowEntriesAt(b, output, i, j - 1, b.Length2);
      var xs := PlaneEntries(b, output, i, j - 1);
      var ys := RowEntries(b, output, i, j - 1, b.Length2);
      forall x, y, z ensures Mentions(xs + ys, x, y, z) <==> Mentions(xs, x, y, z) || Mentions(ys, x, y, z) {
        MentionsAppend(xs, ys, x, y, z);
      }
      var last := j - 1;
      assert forall z :: !Mentions(xs, i, last, z);
      forall y, z | 0 <= y < j && 0 <= z < b.Length2
        ensures StoredValue(xs + ys, i, y, z) == if y in output[z] then b[i, y, z] else 0.0
      {
        LastWins(xs, ys, i, y, z);
        if y == j - 1 {
          UnmentionedIsZero(xs, i, y, z);
        } else {
          assert !Mentions(ys, i, y, z);
        }
      }
    }
  }

  lemma {:induction false} BlockEntriesAt(b: array3<real>, output: Registry, i: nat)
    requires i <= b.Length0 && b.Length2 <= |output|
    ensures forall x, y, z :: Mentions(BlockEntries(b, output, i), x, y, z) <==>
              0 <= x < i && 0 <= y < b.Length1 && 0 <= z < b.Length2 && y in output[z]
    ensures forall x, y, z :: 0 <= x < i && 0 <= y < b.Length1 && 0 <= z < b.Length2 ==>
              StoredValue(BlockEntries(b, output, i), x, y, z) == if y in output[z] then b[x, y, z] else 0.0
  {
    if i > 0 {
      BlockEntriesAt(b, output, i - 1);
      PlaneEntriesAt(b, output, i - 1, b.Length1);
      var xs := BlockEntries(b, output, i - 1);
      var ys := PlaneEntries(b, output, i - 1, b.Length1);
      forall x, y, z ensures Mentions(xs + ys, x, y, z) <==> Mentions(xs, x, y, z) || Mentions(ys, x, y, z) {
        MentionsAppend(xs, ys, x, y, z);
      }
      forall x, y, z | 0 <= x < i && 0 <= y < b.Length1 && 0 <= z < b.Length2
        ensures StoredValue(xs + ys, x, y, z) == if y in output[z] then b[x, y, z] else 0.0
      {
        LastWins(xs, ys, x, y, z);
        if x == i - 1 {
          UnmentionedIsZero(xs, x, y, z);
        }
      }
    }
  }

  /** Reading back what `write` stored for B gives every cell whose class
      contains its tag, and 0 in every other cell. */
  lemma StoredRestores(b: array3<real>, output: Registry)
    requires b.Length2 <= |output|
    ensures forall i, j, k :: 0 <= i < b.Length0 && 0 <= j < b.Length1 && 0 <= k < b.Length2 ==>
              StoredValue(BlockEntries(b, output, b.Length0), i, j, k)
                == if j in output[k] then b[i, j, k] else 0.0
    ensures forall q :: 0 <= q < |BlockEntries(b, output, b.Length0)| ==>
              var e := BlockEntries(b, output, b.Length0)[q];
              e.i < b.Length0 && e.j < b.Length1 && e.k < b.Length2
  {
    BlockEntriesAt(b, output, b.Length0);
    var es := BlockEntries(b, output, b.Length0);
    forall q | 0 <= q < |es| ensures es[q].i < b.Length0 && es[q].j < b.Length1 && es[q].k < b.Length2 {
      assert Mentions(es, es[q].i, es[q].j, es[q].k);
    }
  }

  /** The set of the tags listed in `xs` when they are those of `s`. */
  lemma SetOfTags(xs: seq<Tag>, s: TagSet)
    requires forall t :: t in xs <==> t in s
    ensures (set t | t in xs) == s
  {
    forall t ensures t in (set u | u in xs) <==> t in s {
      assert t in (set u | u in xs) <==> t in xs;
    }
  }

  /** A file written for a store whose two-label forbid rules do not store
      999 as their third tag reads back as itself. */
  lemma DescribedRoundTrips(src: TaggerDataTrigram, img: Image)
    requires src.Valid() && src.Describes(img) && Writable(img)
    requires src.N > 0 ==> src.a != null && src.M <= |src.output|
    requires forall q :: 0 <= q < |src.forbidRules| ==> src.forbidRules[q].tagk != STORED_NO_TAGK
    ensures RoundTrips(img)
  {
    if src.a != null && src.M <= |src.output| {
      StoredRestores(src.b, src.output);
    }
  }

  /** The tables read into an empty store from a file that describes `src`
      are those of `src`. */
  lemma TablesRestored(src: TaggerDataTrigram, dst: TaggerDataTrigram, img: Image)
    requires src.Valid() && src.Describes(img)
    requires dst.openClass == {} + (set t | t in img.openClass)
    requires dst.forbidRules == [] + img.forbid && dst.arrayTags == [] + img.arrayTags
    requires dst.tagIndex == Apply(map[], img.tagIndex)
    requires dst.enforceRules == [] + img.enforce && dst.preferRules == [] + img.prefer
    ensures dst.openClass == src.openClass && dst.forbidRules == src.forbidRules
    ensures dst.arrayTags == src.arrayTags && dst.tagIndex == src.tagIndex
    ensures dst.enforceRules == src.enforceRules && dst.preferRules == src.preferRules
  {
    TagIndexRestored(img.tagIndex, src.tagIndex);
    SetOfTags(img.openClass, src.openClass);
    assert {} + src.openClass == src.openClass;
    assert [] + src.forbidRules == src.forbidRules;
    assert [] + src.arrayTags == src.arrayTags;
    assert [] + src.enforceRules == src.enforceRules;
    assert [] + src.preferRules == src.preferRules;
  }

  /** A file that describes `src` holds A cell by cell, and stores for
      each B cell its value when the class contains its tag and 0 otherwise. */
  lemma DescribedCells(src: TaggerDataTrigram, img: Image)
    requires src.Valid() && src.Describes(img)
    requires src.N > 0 ==> src.a != null && src.M <= |src.output|
    ensures src.a != null ==>
              (forall i, j, k :: 0 <= i < src.N && 0 <= j < src.N && 0 <= k < src.N ==>
                 img.a[i][j][k] == src.a[i, j, k])
              && (forall i, j, k :: 0 <= i < src.N && 0 <= j < src.N && 0 <= k < src.M ==>
                 StoredValue(img.b, i, j, k) == if j in src.output[k] then src.b[i, j, k] else 0.0)
  {
    if src.a != null && src.M <= |src.output| {
      StoredRestores(src.b, src.output);
    }
  }

  /** The tensors read into a new store from a file that describes `src`
      hold its A, and its B on the cells whose class contains their tag. */
  lemma TensorsRestored(src: TaggerDataTrigram, dst: TaggerDataTrigram, img: Image)
    requires src.Valid() && src.Describes(img)
    requires src.N > 0 ==> src.a != null && src.M <= |src.output|
    requires dst.Valid() && dst.N == img.n && dst.M == img.m && dst.a != null
    requires forall i, j, k :: 0 <= i < dst.N && 0 <= j < dst.N && 0 <= k < dst.N ==>
               dst.a[i, j, k] == img.a[i][j][k]
    requires forall i, j, k :: 0 <= i < dst.N && 0 <= j < dst.N && 0 <= k < dst.M ==>
               dst.b[i, j, k] == StoredValue(img.b, i, j, k)
    ensures dst.a != null && src.a != null ==>
              (forall i, j, k :: 0 <= i < dst.N && 0 <= j < dst.N && 0 <= k < dst.N ==>
                 dst.a[i, j, k] == src.a[i, j, k])
              && (forall i, j, k :: 0 <= i < dst.N && 0 <= j < dst.N && 0 <= k < dst.M ==>
                 dst.b[i, j, k] == if j in src.output[k] then src.b[i, j, k] else 0.0)
  {
    DescribedCells(src, img);
  }

  /** Reading a well-formed file into a new store. */
  method ReadBack(s: seq<Item>, img: Image) returns (dst: TaggerDataTrigram)
    requires Decode(s) == Some(img)
    ensures fresh(dst) && dst.Valid() && fresh(dst.a) && fresh(dst.b)
    ensures dst.openClass == {} + (set t | t in img.openClass)
    ensures dst.forbidRules == [] + img.forbid && dst.arrayTags == [] + img.arrayTags
    ensures dst.tagIndex == Apply(map[], img.tagIndex)
    ensures dst.enforceRules == [] + img.enforce && dst.preferRules == [] + img.prefer
    ensures dst.constants == img.constants && dst.output == img.output
    ensures dst.N == img.n && dst.M == img.m && dst.plist == img.plist && dst.discard == img.discard
    ensures dst.a != null
    ensures forall i, j, k :: 0 <= i < dst.N && 0 <= j < dst.N && 0 <= k < dst.N ==>
              dst.a[i, j, k] == img.a[i][j][k]
    ensures forall i, j, k :: 0 <= i < dst.N && 0 <= j < dst.N && 0 <= k < dst.M ==>
              dst.b[i, j, k] == StoredValue(img.b, i, j, k)
  {
    dst := new TaggerDataTrigram();
    var ok := dst.Read(s);
  }

  /** What `write` stores for such a store decodes to the image it describes. */
  method WriteReadable(src: TaggerDataTrigram) returns (s: seq<Item>, img: Image)
    requires src.Storable()
    requires forall q :: 0 <= q < |src.forbidRules| ==> src.forbidRules[q].tagk != STORED_NO_TAGK
    ensures src.Describes(img) && Decode(s) == Some(img)
  {
    s, img := src.Write();
    DescribedRoundTrips(src, img);
    DecodeEncode(img);
  }

  /** Writing a store and reading the file into a new store gives back its
      rules, tag lists, classes and A, and B on the cells whose class
      contains their tag (0 elsewhere); the discard list survives too. */
  method WriteThenRead(src: TaggerDataTrigram) returns (dst: TaggerDataTrigram)
    requires src.Storable()
    requires forall q :: 0 <= q < |src.forbidRules| ==> src.forbidRules[q].tagk != STORED_NO_TAGK
    ensures fresh(dst) && dst.Valid()
    ensures dst.openClass == src.openClass && dst.forbidRules == src.forbidRules
    ensures dst.arrayTags == src.arrayTags && dst.tagIndex == src.tagIndex
    ensures dst.enforceRules == src.enforceRules && dst.preferRules == src.preferRules
    ensures dst.constants == src.constants && dst.output == src.output
    ensures dst.N == src.N && dst.M == src.M && dst.plist == src.plist && dst.discard == src.discard
    ensures dst.a != null && src.a != null ==>
              (forall i, j, k :: 0 <= i < dst.N && 0 <= j < dst.N && 0 <= k < dst.N ==>
                 dst.a[i, j, k] == src.a[i, j, k])
              && (forall i, j, k :: 0 <= i < dst.N && 0 <= j < dst.N && 0 <= k < dst.M ==>
                 dst.b[i, j, k] == if j in src.output[k] then src.b[i, j, k] else 0.0)
  {
    var s, img := WriteReadable(src);
    dst := ReadBack(s, img);
    TablesRestored(src, dst, img);
    TensorsRestored(src, dst, img);
  }

}
