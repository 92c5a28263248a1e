/** The binary model file of the trigram tagger, as a stream of items.
    Multi-byte integers (which are unsigned), 8-byte reals and strings are
    items of their own; the constants table, the ambiguity-class table and
    the pattern list are written by their own classes and are single opaque
    items here. `Encode` is the layout `write` produces, `Decode` the parse
    `read` performs, and `DecodeEncode` proves that one undoes the other. */
module ModelFile {
  import opened Common
  import opened AmbiguityClasses
  import opened TaggerRecords

  datatype Item =
    | Int(n: nat)
    | Real(r: real)
    | Str(s: string)
    | Constants(constants: map<string, int>)
    | Classes(classes: Registry)
    | Patterns(ops: seq<PatternOp>)

  /** One stored emission value B[i][j][k]. */
  datatype BEntry = BEntry(i: nat, j: nat, k: nat, v: real)

  /** Everything a model file holds, section by section, in file order. */
  datatype Image = Image(
    openClass: seq<Tag>,
    forbid: seq<ForbidRule>,
    arrayTags: seq<string>,
    tagIndex: seq<(string, int)>,
    enforce: seq<EnforceRule>,
    prefer: seq<string>,
    constants: map<string, int>,
    output: Registry,
    n: nat,
    m: nat,
    a: seq<seq<seq<real>>>,
    b: seq<BEntry>,
    plist: seq<PatternOp>,
    discard: seq<string>)

  /** A parse step: the value read and the items left after it. */
  type Parse<T> = Option<(T, seq<Item>)>

  predicate NonNegative(xs: seq<int>)
  {
    forall q :: 0 <= q < |xs| ==> xs[q] >= 0
  }

  predicate AtLeast(xs: seq<int>, lo: int)
  {
    forall q :: 0 <= q < |xs| ==> lo <= xs[q]
  }

  /** A forbid rule whose numbers a multi-byte integer can hold. */
  predicate ForbidWritable(r: ForbidRule)
  {
    r.tagi >= 0 && r.tagj >= 0 && (r.tagk >= 0 || r.tagk == NO_TAGK)
  }

  predicate EnforceWritable(r: EnforceRule)
  {
    r.tagi >= 0 && NonNegative(r.tagsj) && NonNegative(r.tagsk)
  }

  /** `c` is a d0 x d1 x d2 block of reals. */
  predicate Shaped(c: seq<seq<seq<real>>>, d0: nat, d1: nat, d2: nat)
  {
    |c| == d0 && forall i :: 0 <= i < d0 ==>
      |c[i]| == d1 && forall j :: 0 <= j < d1 ==> |c[i][j]| == d2
  }

  /** What `write` can store: the open class ascending and non-negative
      (it is delta-encoded), every integer non-negative, A an n x n x n block. */
  predicate Writable(img: Image)
  {
    && Ascending(img.openClass) && AtLeast(img.openClass, 0)
    && (forall q :: 0 <= q < |img.forbid| ==> ForbidWritable(img.forbid[q]))
    && (forall q :: 0 <= q < |img.tagIndex| ==> img.tagIndex[q].1 >= 0)
    && (forall q :: 0 <= q < |img.enforce| ==> EnforceWritable(img.enforce[q]))
    && Shaped(img.a, img.n, img.n, img.n)
  }

  /** Every entry lies inside the N x N x M block. */
  predicate InBlock(es: seq<BEntry>, n: nat, m: nat)
  {
    forall q :: 0 <= q < |es| ==> es[q].i < n && es[q].j < n && es[q].k < m
  }

  /** An image that `read` gives back unchanged: writable, no three-label
      forbid rule whose third tag is the sentinel 999, and every emission
      entry inside the N x N x M block. */
  predicate RoundTrips(img: Image)
  {
    && Writable(img)
    && (forall q :: 0 <= q < |img.forbid| ==> img.forbid[q].tagk != STORED_NO_TAGK)
    && InBlock(img.b, img.n, img.m)
  }

  // ---------------------------------------------------------------- writing

  function EncDeltas(xs: seq<int>, prev: int): seq<Item>
    requires Ascending(xs) && AtLeast(xs, prev)
  {
    if xs == [] then []
    else
      assert AtLeast(xs[1..], xs[0]) by {
        forall q | 0 <= q < |xs[1..]| ensures xs[0] <= xs[1..][q] {
          assert xs[1..][q] == xs[q + 1];
        }
      }
      [Int(xs[0] - prev)] + EncDeltas(xs[1..], xs[0])
  }

  function EncInts(xs: seq<int>): seq<Item>
    requires NonNegative(xs)
  {
    if xs == [] then [] else [Int(xs[0])] + EncInts(xs[1..])
  }

  function EncStrs(xs: seq<string>): seq<Item>
  {
    if xs == [] then [] else [Str(xs[0])] + EncStrs(xs[1..])
  }

  function EncForbid(r: ForbidRule): seq<Item>
    requires ForbidWritable(r)
  {
    [Int(r.tagi), Int(r.tagj), Int(if r.tagk != NO_TAGK then r.tagk else STORED_NO_TAGK)]
  }

  function EncForbids(rs: seq<ForbidRule>): seq<Item>
    requires forall q :: 0 <= q < |rs| ==> ForbidWritable(rs[q])
  {
    if rs == [] then [] else EncForbid(rs[0]) + EncForbids(rs[1..])
  }

  function EncEntries(es: seq<(string, int)>): seq<Item>
    requires forall q :: 0 <= q < |es| ==> es[q].1 >= 0
  {
    if es == [] then [] else [Str(es[0].0), Int(es[0].1)] + EncEntries(es[1..])
  }

  function EncEnforce(r: EnforceRule): seq<Item>
    requires EnforceWritable(r)
  {
    [Int(r.tagi), Int(|r.tagsj|)] + EncInts(r.tagsj) + [Int(|r.tagsk|)] + EncInts(r.tagsk)
  }

  function EncEnforces(rs: seq<EnforceRule>): seq<Item>
    requires forall q :: 0 <= q < |rs| ==> EnforceWritable(rs[q])
  {
    if rs == [] then [] else EncEnforce(rs[0]) + EncEnforces(rs[1..])
  }

  function EncReals(xs: seq<real>): seq<Item>
  {
    if xs == [] then [] else [Real(xs[0])] + EncReals(xs[1..])
  }

  function EncRows(rows: seq<seq<real>>): seq<Item>
  {
    if rows == [] then [] else EncReals(rows[0]) + EncRows(rows[1..])
  }

  /** The dense tensor in row-major (i, j, k) order. */
  function EncCube(c: seq<seq<seq<real>>>): seq<Item>
  {
    if c == [] then [] else EncRows(c[0]) + EncCube(c[1..])
  }

  function EncBEntries(es: seq<BEntry>): seq<Item>
  {
    if es == [] then []
    else [Int(es[0].i), Int(es[0].j), Int(es[0].k), Real(es[0].v)] + EncBEntries(es[1..])
  }

  /** The discard list is written only when it is non-empty. */
  function EncDiscard(d: seq<string>): seq<Item>
  {
    if |d| != 0 then [Int(|d|)] + EncStrs(d) else []
  }

  /** Open class, forbid rules and tag names. */
  function EncFront(img: Image): seq<Item>
    requires Writable(img)
  {
    [Int(|img.openClass|)] + EncDeltas(img.openClass, 0)
    + ([Int(|img.forbid|)] + EncForbids(img.forbid)
    + ([Int(|img.arrayTags|)] + EncStrs(img.arrayTags)))
  }

  /** Tag index, enforce rules and prefer rules. */
  function EncMiddle(img: Image): seq<Item>
    requires Writable(img)
  {
    [Int(|img.tagIndex|)] + EncEntries(img.tagIndex)
    + ([Int(|img.enforce|)] + EncEnforces(img.enforce)
    + ([Int(|img.prefer|)] + EncStrs(img.prefer)))
  }

  /** Constants, classes, N and M, A densely and B sparsely. */
  function EncTensors(img: Image): seq<Item>
  {
    [Constants(img.constants), Classes(img.output), Int(img.n), Int(img.m)]
    + (EncCube(img.a) + ([Int(|img.b|)] + EncBEntries(img.b)))
  }

  /** Pattern list and discard list. */
  function EncTail(img: Image): seq<Item>
  {
    [Patterns(img.plist)] + EncDiscard(img.discard)
  }

  /** The whole file `write` produces, section after section. */
  function Encode(img: Image): seq<Item>
    requires Writable(img)
  {
    EncFront(img) + (EncMiddle(img) + (EncTensors(img) + EncTail(img)))
  }

  // ---------------------------------------------------------------- reading

  function DecInt(s: seq<Item>): Parse<nat>
  {
    if |s| > 0 && s[0].Int? then Some((s[0].n, s[1..])) else None
  }

  function DecReal(s: seq<Item>): Parse<real>
  {
    if |s| > 0 && s[0].Real? then Some((s[0].r, s[1..])) else None
  }

  function DecStr(s: seq<Item>): Parse<string>
  {
    if |s| > 0 && s[0].Str? then Some((s[0].s, s[1..])) else None
  }

  /** Open-class ids: each read number is added to the running value. */
  function DecDeltas(s: seq<Item>, c: nat, val: int): Parse<seq<int>>
    decreases c
  {
    if c == 0 then Some(([], s))
    else match DecInt(s)
      case None => None
      case Some((d, s1)) =>
        match DecDeltas(s1, c - 1, val + d)
        case None => None
        case Some((xs, s2)) => Some(([val + d] + xs, s2))
  }

  function DecInts(s: seq<Item>, c: nat): Parse<seq<int>>
    decreases c
  {
    if c == 0 then Some(([], s))
    else match DecInt(s)
      case None => None
      case Some((x, s1)) =>
        match DecInts(s1, c - 1)
        case None => None
        case Some((xs, s2)) => Some(([x] + xs, s2))
  }

  function DecStrs(s: seq<Item>, c: nat): Parse<seq<string>>
    decreases c
  {
    if c == 0 then Some(([], s))
    else match DecStr(s)
      case None => None
      case Some((x, s1)) =>
        match DecStrs(s1, c - 1)
        case None => None
        case Some((xs, s2)) => Some(([x] + xs, s2))
  }

  /** A forbid rule; a stored third tag of 999 reads back as NO_TAGK. */
  function DecForbid(s: seq<Item>): Parse<ForbidRule>
  {
    match DecInt(s)
    case None => None
    case Some((i, s1)) =>
      match DecInt(s1)
      case None => None
      case Some((j, s2)) =>
        match DecInt(s2)
        case None => None
        case Some((k, s3)) =>
          Some((ForbidRule(i, j, if k == STORED_NO_TAGK then NO_TAGK else k), s3))
  }

  function DecForbids(s: seq<Item>, c: nat): Parse<seq<ForbidRule>>
    decreases c
  {
    if c == 0 then Some(([], s))
    else match DecForbid(s)
      case None => None
      case Some((x, s1)) =>
        match DecForbids(s1, c - 1)
        case None => None
        case Some((xs, s2)) => Some(([x] + xs, s2))
  }

  function DecEntries(s: seq<Item>, c: nat): Parse<seq<(string, int)>>
    decreases c
  {
    if c == 0 then Some(([], s))
    else match DecStr(s)
      case None => None
      case Some((key, s1)) =>
        match DecInt(s1)
        case None => None
        case Some((v, s2)) =>
          match DecEntries(s2, c - 1)
          case None => None
          case Some((es, s3)) => Some(([(key, v)] + es, s3))
  }

  function DecEnforce(s: seq<Item>): Parse<EnforceRule>
  {
    match DecInt(s)
    case None => None
    case Some((i, s1)) =>
      match DecInt(s1)
      case None => None
      case Some((cj, s2)) =>
        match DecInts(s2, cj)
        case None => None
        case Some((tj, s3)) =>
          match DecInt(s3)
          case None => None
          case Some((ck, s4)) =>
            match DecInts(s4, ck)
            case None => None
            case Some((tk, s5)) => Some((EnforceRule(i, tj, tk), s5))
  }

  function DecEnforces(s: seq<Item>, c: nat): Parse<seq<EnforceRule>>
    decreases c
  {
    if c == 0 then Some(([], s))
    else match DecEnforce(s)
      case None => None
      case Some((x, s1)) =>
        match DecEnforces(s1, c - 1)
        case None => None
        case Some((xs, s2)) => Some(([x] + xs, s2))
  }

  function DecReals(s: seq<Item>, c: nat): (r: Parse<seq<real>>)
    ensures r.Some? ==> |r.value.0| == c
    decreases c
  {
    if c == 0 then Some(([], s))
    else match DecReal(s)
      case None => None
      case Some((x, s1)) =>
        match DecReals(s1, c - 1)
        case None => None
        case Some((xs, s2)) => Some(([x] + xs, s2))
  }

  function DecRows(s: seq<Item>, r: nat, c: nat): (res: Parse<seq<seq<real>>>)
    ensures res.Some? ==> |res.value.0| == r && forall q :: 0 <= q < r ==> |res.value.0[q]| == c
    decreases r
  {
    if r == 0 then Some(([], s))
    else match DecReals(s, c)
      case None => None
      case Some((x, s1)) =>
        match DecRows(s1, r - 1, c)
        case None => None
        case Some((xs, s2)) => Some(([x] + xs, s2))
  }

  function DecCube(s: seq<Item>, d0: nat, d1: nat, d2: nat): (r: Parse<seq<seq<seq<real>>>>)
    ensures r.Some? ==> Shaped(r.value.0, d0, d1, d2)
    decreases d0
  {
    if d0 == 0 then Some(([], s))
    else match DecRows(s, d1, d2)
      case None => None
      case Some((x, s1)) =>
        match DecCube(s1, d0 - 1, d1, d2)
        case None => None
        case Some((xs, s2)) => Some(([x] + xs, s2))
  }

  /** An emission entry; indices outside the N x N x M block make the file
      unreadable (the source would write outside its arrays). */
  function DecBEntry(s: seq<Item>, n: nat, m: nat): Parse<BEntry>
  {
    match DecInt(s)
    case None => None
    case Some((i, s1)) =>
      match DecInt(s1)
      case None => None
      case Some((j, s2)) =>
        match DecInt(s2)
        case None => None
        case Some((k, s3)) =>
          match DecReal(s3)
          case None => None
          case Some((v, s4)) =>
            if i < n && j < n && k < m then Some((BEntry(i, j, k, v), s4)) else None
  }

  function DecBEntries(s: seq<Item>, c: nat, n: nat, m: nat): (r: Parse<seq<BEntry>>)
    ensures r.Some? ==> |r.value.0| == c && InBlock(r.value.0, n, m)
    decreases c
  {
    if c == 0 then Some(([], s))
    else match DecBEntry(s, n, m)
      case None => None
      case Some((x, s1)) =>
        match DecBEntries(s1, c - 1, n, m)
        case None => None
        case Some((xs, s2)) => Some(([x] + xs, s2))
  }

  /** A section that starts with its element count. */
  function DecCounted<T>(s: seq<Item>, body: (seq<Item>, nat) -> Parse<T>): Parse<T>
  {
    match DecInt(s)
    case None => None
    case Some((c, s1)) => body(s1, c)
  }

  /** The discard list: empty when the file ends before it (older files). */
  function DecDiscard(s: seq<Item>): Parse<seq<string>>
  {
    if s == [] then Some(([], s))
    else match DecInt(s)
      case None => None
      case Some((c, s1)) => DecStrs(s1, c)
  }

  function DecFront(s: seq<Item>): Parse<(seq<Tag>, seq<ForbidRule>, seq<string>)>
  {
    match DecCounted(s, (t, c) => DecDeltas(t, c, 0))
    case None => None
    case Some((oc, s1)) =>
      match DecCounted(s1, DecForbids)
      case None => None
      case Some((fr, s2)) =>
        match DecCounted(s2, DecStrs)
        case None => None
        case Some((at, s3)) => Some(((oc, fr, at), s3))
  }

  function DecMiddle(s: seq<Item>): Parse<(seq<(string, int)>, seq<EnforceRule>, seq<string>)>
  {
    match DecCounted(s, DecEntries)
    case None => None
    case Some((ti, s1)) =>
      match DecCounted(s1, DecEnforces)
      case None => None
      case Some((er, s2)) =>
        match DecCounted(s2, DecStrs)
        case None => None
        case Some((pr, s3)) => Some(((ti, er, pr), s3))
  }

  function DecTensors(s: seq<Item>)
    : (r: Parse<(map<string, int>, Registry, nat, nat, seq<seq<seq<real>>>, seq<BEntry>)>)
    ensures r.Some? ==> var (_, _, n, m, a, b) := r.value.0; Shaped(a, n, n, n) && InBlock(b, n, m)
  {
    if |s| < 4 || !s[0].Constants? || !s[1].Classes? || !s[2].Int? || !s[3].Int? then None
    else
      var n, m := s[2].n, s[3].n;
      match DecCube(s[4..], n, n, n)
      case None => None
      case Some((a, s1)) =>
        match DecCounted(s1, (t, c) => DecBEntries(t, c, n, m))
        case None => None
        case Some((b, s2)) => Some(((s[0].constants, s[1].classes, n, m, a, b), s2))
  }

  function DecTail(s: seq<Item>): Option<(seq<PatternOp>, seq<string>)>
  {
    if |s| == 0 || !s[0].Patterns? then None
    else match DecDiscard(s[1..])
      case None => None
      case Some((d, _)) => Some((s[0].ops, d))
  }

  /** The parse `read` performs; None for a truncated or malformed file.
      Items after the discard list are ignored. */
  function Decode(s: seq<Item>): (r: Option<Image>)
    ensures r.Some? ==>
              Shaped(r.value.a, r.value.n, r.value.n, r.value.n) && InBlock(r.value.b, r.value.n, r.value.m)
  {
    match DecFront(s)
    case None => None
    case Some(((oc, fr, at), s1)) =>
      match DecMiddle(s1)
      case None => None
      case Some(((ti, er, pr), s2)) =>
        match DecTensors(s2)
        case None => None
        case Some(((cs, out, n, m, a, b), s3)) =>
          match DecTail(s3)
          case None => None
          case Some((pl, d)) => Some(Image(oc, fr, at, ti, er, pr, cs, out, n, m, a, b, pl, d))
  }

  /** The value `read` leaves in B[i][j][k] after zero-filling B and
      storing the entries in order: the last entry for that cell, or 0. */
  function StoredValue(es: seq<BEntry>, i: int, j: int, k: int): real
  {
    if es == [] then 0.0
    else if es[|es| - 1].i == i && es[|es| - 1].j == j && es[|es| - 1].k == k then es[|es| - 1].v
    else StoredValue(es[..|es| - 1], i, j, k)
  }

  /** Some entry is for cell (i, j, k). */
  predicate Mentions(es: seq<BEntry>, i: int, j: int, k: int)
  {
    exists q :: 0 <= q < |es| && es[q].i == i && es[q].j == j && es[q].k == k
  }

  lemma MentionsAppend(xs: seq<BEntry>, ys: seq<BEntry>, i: int, j: int, k: int)
    ensures Mentions(xs + ys, i, j, k) <==> Mentions(xs, i, j, k) || Mentions(ys, i, j, k)
  {
    if Mentions(xs + ys, i, j, k) {
      var q :| 0 <= q < |xs + ys| && (xs + ys)[q].i == i && (xs + ys)[q].j == j && (xs + ys)[q].k == k;
      if q >= |xs| {
        assert ys[q - |xs|] == (xs + ys)[q];
      }
    }
    if Mentions(ys, i, j, k) {
      var q :| 0 <= q < |ys| && ys[q].i == i && ys[q].j == j && ys[q].k == k;
      var r := |xs| + q;
      assert (xs + ys)[r] == ys[q];
      assert 0 <= r < |xs + ys| && (xs + ys)[r].i == i && (xs + ys)[r].j == j && (xs + ys)[r].k == k;
    }
    if Mentions(xs, i, j, k) {
      var q :| 0 <= q < |xs| && xs[q].i == i && xs[q].j == j && xs[q].k == k;
      assert (xs + ys)[q] == xs[q];
    }
  }

  /** A cell no entry names stays 0. */
  lemma {:induction false} UnmentionedIsZero(es: seq<BEntry>, i: int, j: int, k: int)
    requires !Mentions(es, i, j, k)
    ensures StoredValue(es, i, j, k) == 0.0
    decreases |es|
  {
    if es != [] {
      var init := es[..|es| - 1];
      assert !Mentions(init, i, j, k);
      UnmentionedIsZero(init, i, j, k);
    }
  }

  /** Storing `xs` then `ys`: a cell named in `ys` ends with the value `ys`
      gives it, any other cell with the value `xs` gives it. */
  lemma {:induction false} LastWins(xs: seq<BEntry>, ys: seq<BEntry>, i: int, j: int, k: int)
    ensures StoredValue(xs + ys, i, j, k)
         == if Mentions(ys, i, j, k) then StoredValue(ys, i, j, k) else StoredValue(xs, i, j, k)
    decreases |ys|
  {
    if ys == [] {
      assert xs + ys == xs;
    } else {
      var last := ys[|ys| - 1];
      var init := ys[..|ys| - 1];
      assert (xs + ys)[..|xs + ys| - 1] == xs + init;
      assert (xs + ys)[|xs + ys| - 1] == last;
      LastWins(xs, init, i, j, k);
      MentionsAppend(init, [last], i, j, k);
      assert init + [last] == ys;
      if !(last.i == i && last.j == j && last.k == k) {
        assert !Mentions([last], i, j, k);
      } else {
        assert [last][0] == last;
      }
    }
  }

  // ---------------------------------------------------------------- round trip

  lemma Cons(x: Item, rest: seq<Item>)
    ensures ([x] + rest)[0] == x && ([x] + rest)[1..] == rest
  {
  }

  /** The ids after the first are ascending and above it. */
  lemma AscendingTail(xs: seq<int>)
    requires Ascending(xs) && xs != []
    ensures Ascending(xs[1..]) && AtLeast(xs[1..], xs[0])
  {
    forall q | 0 <= q < |xs[1..]| ensures xs[1..][q] == xs[q + 1] {
    }
  }

  lemma {:induction false} DeltasRoundTrip(xs: seq<int>, prev: int, rest: seq<Item>)
    requires Ascending(xs) && AtLeast(xs, prev)
    ensures DecDeltas(EncDeltas(xs, prev) + rest, |xs|, prev) == Some((xs, rest))
  {
    if xs == [] {
      assert EncDeltas(xs, prev) + rest == rest;
    } else {
      AscendingTail(xs);
      var s := EncDeltas(xs, prev) + rest;
      var tail := EncDeltas(xs[1..], xs[0]) + rest;
      assert s == [Int(xs[0] - prev)] + tail;
      Cons(Int(xs[0] - prev), tail);
      assert DecInt(s).Some? && DecInt(s).value.0 == xs[0] - prev && DecInt(s).value.1 == tail;
      DeltasRoundTrip(xs[1..], xs[0], rest);
      assert DecDeltas(s, |xs|, prev) == Some(([xs[0]] + xs[1..], rest));
      assert [xs[0]] + xs[1..] == xs;
    }
  }

  lemma {:induction false} IntsRoundTrip(xs: seq<int>, rest: seq<Item>)
    requires NonNegative(xs)
    ensures DecInts(EncInts(xs) + rest, |xs|) == Some((xs, rest))
  {
    if xs == [] {
      assert EncInts(xs) + rest == rest;
    } else {
      var tail := EncInts(xs[1..]) + rest;
      assert EncInts(xs) + rest == [Int(xs[0])] + tail;
      Cons(Int(xs[0]), tail);
      IntsRoundTrip(xs[1..], rest);
      assert [xs[0]] + xs[1..] == xs;
    }
  }

  lemma {:induction false} StrsRoundTrip(xs: seq<string>, rest: seq<Item>)
    ensures DecStrs(EncStrs(xs) + rest, |xs|) == Some((xs, rest))
  {
    if xs == [] {
      assert EncStrs(xs) + rest == rest;
    } else {
      var tail := EncStrs(xs[1..]) + rest;
      assert EncStrs(xs) + rest == [Str(xs[0])] + tail;
      Cons(Str(xs[0]), tail);
      StrsRoundTrip(xs[1..], rest);
      assert [xs[0]] + xs[1..] == xs;
    }
  }

  lemma ForbidRoundTrip(r: ForbidRule, rest: seq<Item>)
    requires ForbidWritable(r) && r.tagk != STORED_NO_TAGK
    ensures DecForbid(EncForbid(r) + rest) == Some((r, rest))
  {
    var k := if r.tagk != NO_TAGK then r.tagk else STORED_NO_TAGK;
    var s := EncForbid(r) + rest;
    assert s == [Int(r.tagi)] + ([Int(r.tagj)] + ([Int(k)] + rest));
    Cons(Int(r.tagi), [Int(r.tagj)] + ([Int(k)] + rest));
    Cons(Int(r.tagj), [Int(k)] + rest);
    Cons(Int(k), rest);
  }

  lemma {:induction false} ForbidsRoundTrip(rs: seq<ForbidRule>, rest: seq<Item>)
    requires forall q :: 0 <= q < |rs| ==> ForbidWritable(rs[q]) && rs[q].tagk != STORED_NO_TAGK
    ensures DecForbids(EncForbids(rs) + rest, |rs|) == Some((rs, rest))
  {
    if rs == [] {
      assert EncForbids(rs) + rest == rest;
    } else {
      var tail := EncForbids(rs[1..]) + rest;
      assert EncForbids(rs) + rest == EncForbid(rs[0]) + tail;
      ForbidRoundTrip(rs[0], tail);
      ForbidsRoundTrip(rs[1..], rest);
      assert [rs[0]] + rs[1..] == rs;
    }
  }

  lemma {:induction false} EntriesRoundTrip(es: seq<(string, int)>, rest: seq<Item>)
    requires forall q :: 0 <= q < |es| ==> es[q].1 >= 0
    ensures DecEntries(EncEntries(es) + rest, |es|) == Some((es, rest))
  {
    if es == [] {
      assert EncEntries(es) + rest == rest;
    } else {
      var tail := EncEntries(es[1..]) + rest;
      assert EncEntries(es) + rest == [Str(es[0].0)] + ([Int(es[0].1)] + tail);
      Cons(Str(es[0].0), [Int(es[0].1)] + tail);
      Cons(Int(es[0].1), tail);
      EntriesRoundTrip(es[1..], rest);
      assert [(es[0].0, es[0].1)] + es[1..] == es;
    }
  }

  lemma EnforceRoundTrip(r: EnforceRule, rest: seq<Item>)
    requires EnforceWritable(r)
    ensures DecEnforce(EncEnforce(r) + rest) == Some((r, rest))
  {
    var t3 := EncInts(r.tagsk) + rest;
    var t2 := [Int(|r.tagsk|)] + t3;
    var t1 := EncInts(r.tagsj) + t2;
    assert EncEnforce(r) + rest == [Int(r.tagi)] + ([Int(|r.tagsj|)] + t1);
    Cons(Int(r.tagi), [Int(|r.tagsj|)] + t1);
    Cons(Int(|r.tagsj|), t1);
    IntsRoundTrip(r.tagsj, t2);
    Cons(Int(|r.tagsk|), t3);
    IntsRoundTrip(r.tagsk, rest);
  }

  lemma {:induction false} EnforcesRoundTrip(rs: seq<EnforceRule>, rest: seq<Item>)
    requires forall q :: 0 <= q < |rs| ==> EnforceWritable(rs[q])
    ensures DecEnforces(EncEnforces(rs) + rest, |rs|) == Some((rs, rest))
  {
    if rs == [] {
      assert EncEnforces(rs) + rest == rest;
    } else {
      var tail := EncEnforces(rs[1..]) + rest;
      assert EncEnforces(rs) + rest == EncEnforce(rs[0]) + tail;
      EnforceRoundTrip(rs[0], tail);
      EnforcesRoundTrip(rs[1..], rest);
      assert [rs[0]] + rs[1..] == rs;
    }
  }

  lemma {:induction false} RealsRoundTrip(xs: seq<real>, rest: seq<Item>)
    ensures DecReals(EncReals(xs) + rest, |xs|) == Some((xs, rest))
  {
    if xs == [] {
      assert EncReals(xs) + rest == rest;
    } else {
      var tail := EncReals(xs[1..]) + rest;
      assert EncReals(xs) + rest == [Real(xs[0])] + tail;
      Cons(Real(xs[0]), tail);
      RealsRoundTrip(xs[1..], rest);
      assert [xs[0]] + xs[1..] == xs;
    }
  }

  lemma {:induction false} RowsRoundTrip(rows: seq<seq<real>>, c: nat, rest: seq<Item>)
    requires forall q :: 0 <= q < |rows| ==> |rows[q]| == c
    ensures DecRows(EncRows(rows) + rest, |rows|, c) == Some((rows, rest))
  {
    if rows == [] {
      assert EncRows(rows) + rest == rest;
    } else {
      var tail := EncRows(rows[1..]) + rest;
      assert EncRows(rows) + rest == EncReals(rows[0]) + tail;
      RealsRoundTrip(rows[0], tail);
      RowsRoundTrip(rows[1..], c, rest);
      assert [rows[0]] + rows[1..] == rows;
    }
  }

  lemma {:induction false} CubeRoundTrip(cube: seq<seq<seq<real>>>, d1: nat, d2: nat, rest: seq<Item>)
    requires Shaped(cube, |cube|, d1, d2)
    ensures DecCube(EncCube(cube) + rest, |cube|, d1, d2) == Some((cube, rest))
  {
    if cube == [] {
      assert EncCube(cube) + rest == rest;
    } else {
      var tail := EncCube(cube[1..]) + rest;
      assert EncCube(cube) + rest == EncRows(cube[0]) + tail;
      RowsRoundTrip(cube[0], d2, tail);
      assert Shaped(cube[1..], |cube[1..]|, d1, d2) by {
        forall i | 0 <= i < |cube[1..]|
          ensures |cube[1..][i]| == d1 && forall j :: 0 <= j < d1 ==> |cube[1..][i][j]| == d2
        {
          assert cube[1..][i] == cube[i + 1];
        }
      }
      CubeRoundTrip(cube[1..], d1, d2, rest);
      assert [cube[0]] + cube[1..] == cube;
    }
  }

  lemma {:induction false} BEntriesRoundTrip(es: seq<BEntry>, n: nat, m: nat, rest: seq<Item>)
    requires forall q :: 0 <= q < |es| ==> es[q].i < n && es[q].j < n && es[q].k < m
    ensures DecBEntries(EncBEntries(es) + rest, |es|, n, m) == Some((es, rest))
  {
    if es == [] {
      assert EncBEntries(es) + rest == rest;
    } else {
      var e := es[0];
      var tail := EncBEntries(es[1..]) + rest;
      assert EncBEntries(es) + rest == [Int(e.i)] + ([Int(e.j)] + ([Int(e.k)] + ([Real(e.v)] + tail)));
      Cons(Int(e.i), [Int(e.j)] + ([Int(e.k)] + ([Real(e.v)] + tail)));
      Cons(Int(e.j), [Int(e.k)] + ([Real(e.v)] + tail));
      Cons(Int(e.k), [Real(e.v)] + tail);
      Cons(Real(e.v), tail);
      BEntriesRoundTrip(es[1..], n, m, rest);
      assert [BEntry(e.i, e.j, e.k, e.v)] + es[1..] == es;
    }
  }

  /** The discard list reads back as itself. The empty list is written as
      nothing at all, so a file that ends right after the pattern list
      (written before discard lists existed) reads with an empty list. */
  lemma DiscardRoundTrip(d: seq<string>)
    ensures DecDiscard(EncDiscard(d)) == Some((d, []))
    ensures d == [] <==> EncDiscard(d) == []
  {
    if |d| != 0 {
      Cons(Int(|d|), EncStrs(d));
      StrsRoundTrip(d, []);
      assert EncStrs(d) + [] == EncStrs(d);
    }
  }

  lemma FrontRoundTrip(img: Image, rest: seq<Item>)
    requires RoundTrips(img)
    ensures DecFront(EncFront(img) + rest) == Some(((img.openClass, img.forbid, img.arrayTags), rest))
  {
    var s2 := EncStrs(img.arrayTags) + rest;
    var s1 := EncForbids(img.forbid) + ([Int(|img.arrayTags|)] + s2);
    var s0 := EncDeltas(img.openClass, 0) + ([Int(|img.forbid|)] + s1);
    assert EncFront(img) + rest == [Int(|img.openClass|)] + s0;
    Cons(Int(|img.openClass|), s0);
    DeltasRoundTrip(img.openClass, 0, [Int(|img.forbid|)] + s1);
    Cons(Int(|img.forbid|), s1);
    ForbidsRoundTrip(img.forbid, [Int(|img.arrayTags|)] + s2);
    Cons(Int(|img.arrayTags|), s2);
    StrsRoundTrip(img.arrayTags, rest);
  }

  lemma MiddleRoundTrip(img: Image, rest: seq<Item>)
    requires Writable(img)
    ensures DecMiddle(EncMiddle(img) + rest) == Some(((img.tagIndex, img.enforce, img.prefer), rest))
  {
    var s2 := EncStrs(img.prefer) + rest;
    var s1 := EncEnforces(img.enforce) + ([Int(|img.prefer|)] + s2);
    var s0 := EncEntries(img.tagIndex) + ([Int(|img.enforce|)] + s1);
    assert EncMiddle(img) + rest == [Int(|img.tagIndex|)] + s0;
    Cons(Int(|img.tagIndex|), s0);
    EntriesRoundTrip(img.tagIndex, [Int(|img.enforce|)] + s1);
    Cons(Int(|img.enforce|), s1);
    EnforcesRoundTrip(img.enforce, [Int(|img.prefer|)] + s2);
    Cons(Int(|img.prefer|), s2);
    StrsRoundTrip(img.prefer, rest);
  }

  lemma TensorsRoundTrip(img: Image, rest: seq<Item>)
    requires RoundTrips(img)
    ensures DecTensors(EncTensors(img) + rest)
         == Some(((img.constants, img.output, img.n, img.m, img.a, img.b), rest))
  {
    var s1 := EncBEntries(img.b) + rest;
    var s0 := EncCube(img.a) + ([Int(|img.b|)] + s1);
    var s := EncTensors(img) + rest;
    assert s == [Constants(img.constants), Classes(img.output), Int(img.n), Int(img.m)] + s0;
    assert s[4..] == s0;
    CubeRoundTrip(img.a, img.n, img.n, [Int(|img.b|)] + s1);
    Cons(Int(|img.b|), s1);
    BEntriesRoundTrip(img.b, img.n, img.m, rest);
  }

  lemma TailRoundTrip(img: Image)
    ensures DecTail(EncTail(img)) == Some((img.plist, img.discard))
  {
    Cons(Patterns(img.plist), EncDiscard(img.discard));
    DiscardRoundTrip(img.discard);
  }

  /** Reading a written file gives back exactly the image written. */
  lemma DecodeEncode(img: Image)
    requires RoundTrips(img)
    ensures Decode(Encode(img)) == Some(img)
  {
    var s3 := EncTail(img);
    var s2 := EncTensors(img) + s3;
    var s1 := EncMiddle(img) + s2;
    FrontRoundTrip(img, s1);
    MiddleRoundTrip(img, s2);
    TensorsRoundTrip(img, s3);
    TailRoundTrip(img);
  }

  /** The sentinel is ambiguous: a three-label forbid rule whose third tag
      is 999 reads back as a two-label rule. */
  lemma SentinelCollision(i: nat, j: nat, rest: seq<Item>)
    ensures DecForbid(EncForbid(ForbidRule(i, j, STORED_NO_TAGK)) + rest)
         == Some((ForbidRule(i, j, NO_TAGK), rest))
  {
    var s := EncForbid(ForbidRule(i, j, STORED_NO_TAGK)) + rest;
    assert s == [Int(i)] + ([Int(j)] + ([Int(STORED_NO_TAGK)] + rest));
    Cons(Int(i), [Int(j)] + ([Int(STORED_NO_TAGK)] + rest));
    Cons(Int(j), [Int(STORED_NO_TAGK)] + rest);
    Cons(Int(STORED_NO_TAGK), rest);
  }
}
