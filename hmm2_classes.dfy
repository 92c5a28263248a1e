/** The HMM2 tagger's passes over its ambiguity classes as a whole: the
    dictionary pass that fills the registry and sizes the tensors, and the
    file of classes it writes and reads back, as a stream of unsigned
    integers. */
module Hmm2Classes {
  import opened Common
  import opened AmbiguityClasses
  import opened ModelFile
  import opened TaggerData

  /** Every registered tag fits the unsigned encoding. */
  predicate Unsigned(reg: Registry)
  {
    forall k, t :: 0 <= k < |reg| && t in reg[k] ==> t >= 0
  }

  /** The tags read for one class. */
  function Elems(xs: seq<int>): TagSet
  {
    set t | t in xs
  }

  /** The classes file `write_ambiguity_classes` produces: for each class
      in id order its size, then its tags in increasing order. */
  ghost function EncodeClasses(reg: Registry): seq<int>
  {
    if reg == [] then [] else [|reg[0]|] + Asc(reg[0]) + EncodeClasses(reg[1..])
  }

  /** The classes `read_ambiguity_classes` adds for a stream: a size, then
      that many tags, for each class until the stream ends; a class with no
      tags is skipped. A class cut short by the end of the stream keeps
      the tags present. */
  function DecodeClasses(s: seq<int>): Registry
    requires NonNegative(s)
  {
    if s == [] then []
    else if s[0] > |s| - 1 then (if Elems(s[1..]) == {} then [] else [Elems(s[1..])])
    else
      var c := Elems(s[1..1 + s[0]]);
      (if c == {} then [] else [c]) + DecodeClasses(s[1 + s[0]..])
  }

  /** The classes of the registry that are not empty, in id order. */
  function NonEmpty(reg: Registry): (r: Registry)
    ensures |r| <= |reg| && forall c :: c in r <==> c in reg && c != {}
  {
    if reg == [] then [] else (if reg[0] == {} then [] else [reg[0]]) + NonEmpty(reg[1..])
  }

  lemma {:induction false} EncodeNonNegative(reg: Registry)
    requires Unsigned(reg)
    ensures NonNegative(EncodeClasses(reg))
  {
    if reg != [] {
      EncodeNonNegative(reg[1..]);
      var xs := Asc(reg[0]);
      assert forall q :: 0 <= q < |xs| ==> xs[q] in reg[0];
    }
  }

  /** Reading back what `write_ambiguity_classes` wrote yields the
      non-empty classes, in order. */
  lemma {:induction false} DecodeEncode(reg: Registry)
    requires Unsigned(reg)
    ensures NonNegative(EncodeClasses(reg)) && DecodeClasses(EncodeClasses(reg)) == NonEmpty(reg)
  {
    EncodeNonNegative(reg);
    if reg != [] {
      DecodeEncode(reg[1..]);
      var s := EncodeClasses(reg);
      var xs := Asc(reg[0]);
      AscLength(reg[0]);
      assert s[0] == |reg[0]|;
      assert s[1..1 + s[0]] == xs;
      assert s[1 + s[0]..] == EncodeClasses(reg[1..]);
      assert Elems(xs) == reg[0];
    }
  }

  /** So the ids survive the round trip exactly when no class is empty: an
      empty class (an empty open class) is dropped, and every later class
      comes back one id lower. */
  lemma ClassesRoundTrip(reg: Registry)
    requires Unsigned(reg)
    ensures NonNegative(EncodeClasses(reg))
    ensures (forall k :: 0 <= k < |reg| ==> reg[k] != {}) ==> DecodeClasses(EncodeClasses(reg)) == reg
    ensures (exists k :: 0 <= k < |reg| && reg[k] == {}) ==> |DecodeClasses(EncodeClasses(reg))| < |reg|
  {
    DecodeEncode(reg);
    NonEmptyLength(reg);
  }

  lemma {:induction false} NonEmptyLength(reg: Registry)
    ensures (forall k :: 0 <= k < |reg| ==> reg[k] != {}) ==> NonEmpty(reg) == reg
    ensures (exists k :: 0 <= k < |reg| && reg[k] == {}) ==> |NonEmpty(reg)| < |reg|
  {
    if reg != [] {
      NonEmptyLength(reg[1..]);
      if exists k :: 0 <= k < |reg| && reg[k] == {} {
        var k :| 0 <= k < |reg| && reg[k] == {};
        if k > 0 {
          assert reg[1..][k - 1] == {};
        }
      } else {
        assert forall k :: 0 <= k < |reg| - 1 ==> reg[1..][k] == reg[k + 1];
      }
    }
  }

  /** One step of `EncodeClasses` at class i. */
  lemma EncodeStep(reg: Registry, i: nat)
    requires i < |reg|
    ensures EncodeClasses(reg[i..]) == ([|reg[i]|] + Asc(reg[i])) + EncodeClasses(reg[i + 1..])
  {
    assert reg[i..][1..] == reg[i + 1..];
  }

  /** `HMM2::write_ambiguity_classes`: every class, in id order. */
  method WriteAmbiguityClasses(td: TaggerDataTrigram) returns (s: seq<int>)
    ensures s == EncodeClasses(td.output)
  {
    var reg := td.output;
    s := [];
    var i := 0;
    while i < |reg|
      invariant 0 <= i <= |reg|
      invariant s + EncodeClasses(reg[i..]) == EncodeClasses(reg)
    {
      var ac := reg[i];
      var tags := AscendingTags(ac);
      EncodeStep(reg, i);
      s := s + ([|ac|] + tags);
      i := i + 1;
    }
    assert reg[i..] == [];
  }

  /** The reads of one class: `ntags` tags from position `start`, as far
      as the stream goes. */
  method ReadClass(s: seq<int>, start: nat, ntags: nat) returns (c: TagSet, pos: nat)
    requires start <= |s|
    ensures pos == if start + ntags < |s| then start + ntags else |s|
    ensures c == Elems(s[start..pos])
  {
    pos := start;
    c := {};
    var left := ntags;
    while left != 0
      invariant 0 <= left <= ntags && start <= pos <= |s|
      invariant pos == if start + (ntags - left) < |s| then start + (ntags - left) else |s|
      invariant c == Elems(s[start..pos])
    {
      if pos < |s| {
        assert s[start..pos + 1] == s[start..pos] + [s[pos]];
        c := c + {s[pos]};
        pos := pos + 1;
      }
      left := left - 1;
    }
  }

  /** One step of `DecodeClasses` at position p of the stream: the class
      read there and where the next one starts. */
  lemma DecodeStep(s: seq<int>, p: nat) returns (e: nat, c: TagSet)
    requires NonNegative(s) && p < |s|
    ensures e == if p + 1 + s[p] < |s| then p + 1 + s[p] else |s|
    ensures c == Elems(s[p + 1..e])
    ensures DecodeClasses(s[p..]) == (if c == {} then [] else [c]) + DecodeClasses(s[e..])
  {
    e := if p + 1 + s[p] < |s| then p + 1 + s[p] else |s|;
    c := Elems(s[p + 1..e]);
    var rest := s[p..];
    assert rest[0] == s[p];
    if s[p] <= |rest| - 1 {
      assert rest[1..1 + s[p]] == s[p + 1..p + 1 + s[p]];
      assert rest[1 + s[p]..] == s[p + 1 + s[p]..];
    } else {
      assert rest[1..] == s[p + 1..];
      assert s[|s|..] == [] && DecodeClasses([]) == [];
      assert DecodeClasses(rest) == if Elems(rest[1..]) == {} then [] else [Elems(rest[1..])];
      assert p + 1 + s[p] >= |s|;
      assert s[p + 1..|s|] == rest[1..];
      assert DecodeClasses(s[p..]) == (if c == {} then [] else [c]);
    }
  }

  /** One turn of the reading loop of `read_ambiguity_classes`: the class
      that starts at `pos` is added unless it is empty, and the next one
      starts at `next`. */
  method ReadOne(s: seq<int>, pos: nat, classes: Registry) returns (classes': Registry, next: nat)
    requires NonNegative(s) && pos < |s|
    ensures pos < next <= |s|
    ensures classes' + DecodeClasses(s[next..]) == classes + DecodeClasses(s[pos..])
  {
    ghost var e, c' := DecodeStep(s, pos);
    var ambiguityClass;
    ambiguityClass, next := ReadClass(s, pos + 1, s[pos]);
    assert next == e;
    ghost var rest := DecodeClasses(s[next..]);
    assert ambiguityClass == c';
    if ambiguityClass != {} {
      Regroup(classes, ambiguityClass, rest);
      classes' := classes + [ambiguityClass];
    } else {
      classes' := classes;
      assert [] + rest == rest;
    }
  }

  lemma Regroup(xs: Registry, c: TagSet, ys: Registry)
    ensures xs + [c] + ys == xs + ([c] + ys)
  {
  }

  /** The reading loop of `read_ambiguity_classes`: the non-empty
      classes of the stream, in order. */
  method ReadClasses(s: seq<int>) returns (classes: Registry)
    requires NonNegative(s)
    ensures classes == DecodeClasses(s)
  {
    classes := [];
    var pos := 0;
    assert s[pos..] == s;
    while pos < |s|
      invariant 0 <= pos <= |s|
      invariant classes + DecodeClasses(s[pos..]) == DecodeClasses(s)
    {
      var next;
      classes, next := ReadOne(s, pos, classes);
      pos := next;
    }
    assert s[pos..] == [];
  }

  /** `HMM2::read_ambiguity_classes`: each non-empty class of the stream
      is added to the registry (added, not looked up: a class the registry
      holds already is added again), then the tensors are sized to the tag
      index and the registry. */
  method ReadAmbiguityClasses(td: TaggerDataTrigram, s: seq<int>)
    requires NonNegative(s)
    modifies td`output, td`a, td`b, td`N, td`M
    ensures td.output == old(td.output) + DecodeClasses(s)
    ensures td.Valid() && td.N == |td.tagIndex| && td.M == |td.output|
    ensures (td.N == 0 || td.M == 0) <==> td.a == null
  {
    var classes := ReadClasses(s);
    td.output := td.output + classes;
    td.SetProbabilities(|td.tagIndex|, |td.output|, null, null);
  }

  /** `HMM2::read_dictionary`: the classes of the dictionary words, the
      open class and one singleton per tag of the tag index are
      registered, then the tensors are sized to the tag index and the
      registry. */
  method ReadDictionary(td: TaggerDataTrigram, words: seq<Word>)
    requires Distinct(td.output)
    modifies td`output, td`a, td`b, td`N, td`M
    ensures Distinct(td.output) && |old(td.output)| <= |td.output| && td.output[..|old(td.output)|] == old(td.output)
    ensures forall w :: w in words && w.tags != {} ==> w.tags in td.output
    ensures td.openClass in td.output
    ensures forall t :: 0 <= t < |td.tagIndex| ==> {t} in td.output
    ensures forall c :: c in td.output ==> c in old(td.output) || FromDictionary(c, words, td.openClass, |td.tagIndex|)
    ensures td.Valid() && td.N == |td.tagIndex| && td.M == |td.output|
    ensures (td.N == 0 || td.M == 0) <==> td.a == null
  {
    td.output := RegisterDictionary(td.output, words, td.openClass, |td.tagIndex|);
    td.SetProbabilities(|td.tagIndex|, |td.output|, null, null);
  }
}
