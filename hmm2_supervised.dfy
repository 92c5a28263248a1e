/** `HMM2::init_probabilities_from_tagged_text`: the counts of tag
    n-grams and of tag/class emissions read off a hand-tagged text
    walked in step with the same text's morphological analysis. As in
    the Kupiec pass, a `map<int, double>` of `++` counters is modelled as
    a multiset; the smoothing of the counts is not part of this model. */
module Hmm2Supervised {
  import opened Common
  import opened AmbiguityClasses
  import opened Hmm2Kupiec

  /** The gold tag of a word of the tagged text, `prev` being the gold
      tag before it: -1 for an unknown word, `prev` again for an ambiguous
      one (only an error message is given), else its only tag. */
  ghost function Gold(prev: int, w: Word): (g: int)
    ensures |w.tags| == 0 ==> g == -1
    ensures |w.tags| > 1 ==> g == prev
    ensures |w.tags| == 1 ==> w.tags == {g}
  {
    if |w.tags| == 0 then -1
    else if |w.tags| > 1 then prev
    else
      HasTag(w.tags);
      var t :| t in w.tags;
      Singleton(w.tags, t);
      t
  }

  /** The gold tags: the end-of-sentence tag twice (tag2 and tag1 before
      the first word), then one per word of the tagged text. */
  ghost function Golds(tagged: seq<Word>, eos: Tag): (h: seq<int>)
    ensures |h| == |tagged| + 2 && h[0] == eos && h[1] == eos
    decreases |tagged|
  {
    if tagged == [] then [eos, eos]
    else
      var h := Golds(tagged[..|tagged| - 1], eos);
      h + [Gold(h[|h| - 1], tagged[|tagged| - 1])]
  }

  /** The gold tags of a prefix of the text are a prefix of its gold tags. */
  lemma {:induction false} GoldsPrefix(tagged: seq<Word>, eos: Tag, n: nat)
    requires n <= |tagged|
    ensures Golds(tagged[..n], eos) == Golds(tagged, eos)[..n + 2]
    decreases |tagged|
  {
    if n < |tagged| {
      var front := tagged[..|tagged| - 1];
      GoldsPrefix(front, eos, n);
      assert front[..n] == tagged[..n];
    } else {
      assert tagged[..n] == tagged;
    }
  }

  /** The gold tag of word i follows from the one before it: the word's
      only tag, -1 when it is unknown, and the tag before it kept when it
      is ambiguous. */
  lemma GoldsStep(tagged: seq<Word>, eos: Tag, i: nat)
    requires i < |tagged|
    ensures var h := Golds(tagged, eos);
            && h[i + 2] == Gold(h[i + 1], tagged[i])
            && (|tagged[i].tags| == 1 ==> tagged[i].tags == {h[i + 2]})
            && (|tagged[i].tags| == 0 ==> h[i + 2] == -1)
            && (|tagged[i].tags| > 1 ==> h[i + 2] == h[i + 1])
  {
    GoldsPrefix(tagged, eos, i);
    GoldsPrefix(tagged, eos, i + 1);
    assert tagged[..i + 1][..i] == tagged[..i];
  }

  /** The eight counters of the pass. */
  datatype Tally = Tally(tagsCount: multiset<Tag>, tagsPair: multiset<Pair>, tagsTriple: multiset<Triple>,
                         emis: multiset<Pair>, emis2: multiset<Triple>, ambclassCount: multiset<int>,
                         countForEmis: multiset<Tag>, pairForEmis2: multiset<Pair>)

  const NoTally := Tally(multiset{}, multiset{}, multiset{}, multiset{}, multiset{}, multiset{}, multiset{}, multiset{})

  /** The counts of one word whose gold tag is `tag1`, the two before it
      being `tag2` and `tag3`, and whose untagged class `c` has id k: the
      transition when tag1 and tag2 are known and tag3 is positive, the
      emission when tag1 and tag2 are known and tag1 lies in the class. */
  function Step(t: Tally, tag3: int, tag2: int, tag1: int, c: TagSet, k: int): Tally
  {
    var t := if tag1 >= 0 && tag2 >= 0 && tag3 > 0 then
               t.(tagsTriple := t.tagsTriple + multiset{(tag3, tag2, tag1)},
                  tagsPair := t.tagsPair + multiset{(tag3, tag2)},
                  tagsCount := t.tagsCount + multiset{tag3})
             else t;
    if tag2 >= 0 && tag1 >= 0 && tag1 in c then
      t.(emis2 := t.emis2 + multiset{(tag2, tag1, k)},
         emis := t.emis + multiset{(tag1, k)},
         countForEmis := t.countForEmis + multiset{tag1},
         pairForEmis2 := t.pairForEmis2 + multiset{(tag2, tag1)},
         ambclassCount := t.ambclassCount + multiset{k})
    else t
  }

  /** The counts of the first |ks| words, h being the gold tags, cls the
      untagged classes and ks their ids. */
  function Tallies(h: seq<int>, cls: seq<TagSet>, ks: seq<int>): Tally
    requires |ks| + 2 <= |h| && |ks| <= |cls|
    decreases |ks|
  {
    if ks == [] then NoTally
    else
      var n := |ks| - 1;
      Step(Tallies(h, cls, ks[..n]), h[n], h[n + 1], h[n + 2], cls[n], ks[n])
  }

  /** The counts of the first n + 1 words are one step from those of
      the first n. */
  lemma TalliesStep(h: seq<int>, cls: seq<TagSet>, ks: seq<int>)
    requires 0 < |ks| && |ks| + 2 <= |h| && |ks| <= |cls|
    ensures var n := |ks| - 1;
            Tallies(h, cls, ks) == Step(Tallies(h, cls, ks[..n]), h[n], h[n + 1], h[n + 2], cls[n], ks[n])
  {
  }

  /** One step adds at most one entry to each counter, together. */
  lemma StepSizes(t: Tally, tag3: int, tag2: int, tag1: int, c: TagSet, k: int)
    ensures var u := Step(t, tag3, tag2, tag1, c, k);
            var d := |u.tagsTriple| - |t.tagsTriple|;
            var e := |u.emis2| - |t.emis2|;
            && (d == 0 || d == 1) && (e == 0 || e == 1)
            && |u.tagsCount| == |t.tagsCount| + d && |u.tagsPair| == |t.tagsPair| + d
            && |u.emis| == |t.emis| + e && |u.ambclassCount| == |t.ambclassCount| + e
            && |u.countForEmis| == |t.countForEmis| + e && |u.pairForEmis2| == |t.pairForEmis2| + e
  {
  }

  /** A step counts the triple (tag3, tag2, tag1) when the two newest
      tags are known and the oldest is positive, and no other. */
  lemma StepTriple(t: Tally, tag3: int, tag2: int, tag1: int, c: TagSet, k: int, x: Triple)
    ensures x in Step(t, tag3, tag2, tag1, c, k).tagsTriple <==>
            x in t.tagsTriple || (tag1 >= 0 && tag2 >= 0 && tag3 > 0 && x == (tag3, tag2, tag1))
  {
  }

  /** A step counts the emission (tag2, tag1, k) when both tags are known
      and tag1 lies in the class, and no other. */
  lemma StepEmission(t: Tally, tag3: int, tag2: int, tag1: int, c: TagSet, k: int, x: Triple)
    ensures x in Step(t, tag3, tag2, tag1, c, k).emis2 <==>
            x in t.emis2 || (tag2 >= 0 && tag1 >= 0 && tag1 in c && x == (tag2, tag1, k))
  {
  }

  /** The n-gram counters grow together, and so do the five emission
      counters; there is at most one of each per word. */
  lemma {:induction false} TallySizes(h: seq<int>, cls: seq<TagSet>, ks: seq<int>)
    requires |ks| + 2 <= |h| && |ks| <= |cls|
    ensures var t := Tallies(h, cls, ks);
            && |t.tagsCount| == |t.tagsPair| == |t.tagsTriple| <= |ks|
            && |t.emis| == |t.emis2| == |t.ambclassCount| == |t.countForEmis| == |t.pairForEmis2| <= |ks|
    decreases |ks|
  {
    if ks != [] {
      var n := |ks| - 1;
      TallySizes(h, cls, ks[..n]);
      TalliesStep(h, cls, ks);
      StepSizes(Tallies(h, cls, ks[..n]), h[n], h[n + 1], h[n + 2], cls[n], ks[n]);
    }
  }

  /** Some word before n has gold tags a, b, c ending at it, the two
      newest known and the oldest positive. */
  predicate TripleAt(h: seq<int>, a: int, b: int, c: int, n: nat)
    requires n + 2 <= |h|
  {
    a > 0 && b >= 0 && c >= 0 && exists i :: 0 <= i < n && h[i] == a && h[i + 1] == b && h[i + 2] == c
  }

  lemma TripleAtStep(h: seq<int>, a: int, b: int, c: int, n: nat)
    requires n + 3 <= |h|
    ensures TripleAt(h, a, b, c, n + 1) <==>
            TripleAt(h, a, b, c, n) || (a > 0 && b >= 0 && c >= 0 && h[n] == a && h[n + 1] == b && h[n + 2] == c)
  {
    if TripleAt(h, a, b, c, n + 1) {
      var i :| 0 <= i < n + 1 && h[i] == a && h[i + 1] == b && h[i + 2] == c;
    }
  }

  /** A tag triple is counted exactly when three consecutive gold tags
      form it, the two newest known and the oldest positive. */
  lemma {:induction false} TransitionsCounted(h: seq<int>, cls: seq<TagSet>, ks: seq<int>, a: int, b: int, c: int)
    requires |ks| + 2 <= |h| && |ks| <= |cls|
    ensures (a, b, c) in Tallies(h, cls, ks).tagsTriple <==> TripleAt(h, a, b, c, |ks|)
    decreases |ks|
  {
    if ks != [] {
      var n := |ks| - 1;
      TransitionsCounted(h, cls, ks[..n], a, b, c);
      TalliesStep(h, cls, ks);
      StepTriple(Tallies(h, cls, ks[..n]), h[n], h[n + 1], h[n + 2], cls[n], ks[n], (a, b, c));
      TripleAtStep(h, a, b, c, n);
    }
  }

  /** Some word before n has gold tags b then c, both known, and an
      untagged class with id k that holds c. */
  predicate EmissionAt(h: seq<int>, cls: seq<TagSet>, ks: seq<int>, b: int, c: int, k: int, n: nat)
    requires n + 2 <= |h| && n <= |ks| && n <= |cls|
  {
    b >= 0 && c >= 0 && exists i :: 0 <= i < n && h[i + 1] == b && h[i + 2] == c && ks[i] == k && c in cls[i]
  }

  lemma EmissionAtStep(h: seq<int>, cls: seq<TagSet>, ks: seq<int>, b: int, c: int, k: int, n: nat)
    requires n + 3 <= |h| && n < |ks| && n < |cls|
    ensures EmissionAt(h, cls, ks, b, c, k, n + 1) <==>
            EmissionAt(h, cls, ks, b, c, k, n) || (b >= 0 && c >= 0 && h[n + 1] == b && h[n + 2] == c && ks[n] == k && c in cls[n])
  {
    if EmissionAt(h, cls, ks, b, c, k, n + 1) {
      var i :| 0 <= i < n + 1 && h[i + 1] == b && h[i + 2] == c && ks[i] == k && c in cls[i];
    }
  }

  /** The emissions before n depend only on the first n ids. */
  lemma EmissionAtPrefix(h: seq<int>, cls: seq<TagSet>, ks: seq<int>, b: int, c: int, k: int, n: nat)
    requires n + 2 <= |h| && n <= |ks| && n <= |cls|
    ensures EmissionAt(h, cls, ks[..n], b, c, k, n) <==> EmissionAt(h, cls, ks, b, c, k, n)
  {
    if EmissionAt(h, cls, ks, b, c, k, n) {
      var i :| 0 <= i < n && h[i + 1] == b && h[i + 2] == c && ks[i] == k && c in cls[i];
      assert ks[..n][i] == k;
    }
  }

  /** An emission (tag2, tag1, k) is counted exactly when some word has
      gold tags tag2 then tag1, both known, and its untagged class has id
      k and holds tag1. */
  lemma {:induction false} EmissionsCounted(h: seq<int>, cls: seq<TagSet>, ks: seq<int>, b: int, c: int, k: int)
    requires |ks| + 2 <= |h| && |ks| <= |cls|
    ensures (b, c, k) in Tallies(h, cls, ks).emis2 <==> EmissionAt(h, cls, ks, b, c, k, |ks|)
    decreases |ks|
  {
    if ks != [] {
      var n := |ks| - 1;
      EmissionsCounted(h, cls, ks[..n], b, c, k);
      TalliesStep(h, cls, ks);
      StepEmission(Tallies(h, cls, ks[..n]), h[n], h[n + 1], h[n + 2], cls[n], ks[n], (b, c, k));
      EmissionAtPrefix(h, cls, ks, b, c, k, n);
      EmissionAtStep(h, cls, ks, b, c, k, n);
    }
  }

  /** Only the open class can be new to the registry: a word whose class
      the registry lacks is fatal unless it is unknown, and an unknown
      word takes the open class, which `output[...]` appends. */
  lemma {:induction false} OnlyOpenClassAdded(untagged: seq<Word>, openClass: TagSet, output0: Registry, n: nat)
    requires n <= |untagged| && Admitted(untagged, openClass, output0, n)
    ensures var r := Scan(output0, ClassesOf(untagged, openClass)[..n]).0;
            |output0| <= |r| && r[..|output0|] == output0
            && forall j :: |output0| <= j < |r| ==> r[j] == openClass
  {
    if n > 0 {
      var cls := ClassesOf(untagged, openClass);
      OnlyOpenClassAdded(untagged, openClass, output0, n - 1);
      ScanStep(output0, cls, n - 1);
      assert !FatalAt(untagged, openClass, output0, n - 1);
    }
  }

  /** The first n words of both texts have the same surface forms. */
  predicate Aligned(tagged: seq<Word>, untagged: seq<Word>, n: nat)
    requires n <= |tagged| && n <= |untagged|
  {
    forall j :: 0 <= j < n ==> tagged[j].surface == untagged[j].surface
  }

  /** The pass after n words: the texts aligned so far, none of the
      untagged words fatal, the registry grown and the words counted as
      `Scan` and `Tallies` say. */
  ghost predicate Walked(tagged: seq<Word>, untagged: seq<Word>, openClass: TagSet, eos: Tag,
                         output0: Registry, n: nat, output: Registry, tally: Tally)
  {
    n <= |tagged| && n <= |untagged| && Aligned(tagged, untagged, n) && Admitted(untagged, openClass, output0, n)
    && var cls := ClassesOf(untagged, openClass);
       var s := Scan(output0, cls[..n]);
       output == s.0 && tally == Tallies(Golds(tagged, eos), cls, s.1)
  }

  /** Where the pass stops after n words: at the end of the tagged text,
      at the NULL untagged word the surface-form comparison dereferences
      when the untagged text is shorter, at two words whose surface forms
      differ, or at a fatal untagged word. */
  predicate Stopped(tagged: seq<Word>, untagged: seq<Word>, n: nat, output: Registry, end: Outcome)
  {
    && (end == Finished || end == NullWord || end == Misaligned || end == NewClass)
    && (end == Finished ==> n == |tagged|)
    && (end == NullWord ==> n == |untagged| < |tagged|)
    && (end == Misaligned ==> n < |tagged| && n < |untagged| && tagged[n].surface != untagged[n].surface)
    && (end == NewClass ==>
          n < |tagged| && n < |untagged| && tagged[n].surface == untagged[n].surface && Fatal(output, untagged[n]))
  }

  /** One aligned word pair, the untagged class `tags` known or open: the
      gold tag advanced and the word counted. */
  method TagWord(tagged: seq<Word>, untagged: seq<Word>, openClass: TagSet, eos: Tag, output0: Registry,
                 nw: nat, output: Registry, tally: Tally, tag3: int, tag2: int, tags: TagSet)
    returns (output': Registry, tally': Tally, tag1: int)
    requires Walked(tagged, untagged, openClass, eos, output0, nw, output, tally)
    requires nw < |tagged| && nw < |untagged| && tagged[nw].surface == untagged[nw].surface
    requires tags == ClassesOf(untagged, openClass)[nw] && !Fatal(output, untagged[nw])
    requires tag3 == Golds(tagged, eos)[nw] && tag2 == Golds(tagged, eos)[nw + 1]
    ensures Walked(tagged, untagged, openClass, eos, output0, nw + 1, output', tally')
    ensures tag1 == Golds(tagged, eos)[nw + 2]
  {
    ghost var cls := ClassesOf(untagged, openClass);
    ghost var s := Scan(output0, cls[..nw]);
    GoldsStep(tagged, eos, nw);
    ScanStep(output0, cls, nw);
    assert !FatalAt(untagged, openClass, output0, nw);
    var gold := tagged[nw].tags;
    tag1 := tag2;
    if |gold| == 0 {
      tag1 := -1;
    } else if |gold| == 1 {
      tag1 := SetMin(gold);
      Singleton(gold, tag1);
    }
    var r := Lookup(output, tags);
    var k := r.1;
    output' := r.0;
    tally' := Step(tally, tag3, tag2, tag1, output'[k], k);
    assert (s.1 + [k])[..nw] == s.1;
  }

  /** `HMM2::init_probabilities_from_tagged_text` up to the smoothing: the
      two texts walked in step from tag1 = tag2 = eos, each word counted
      as `Tallies` says, until one of the ends `Stopped` names. */
  method InitProbabilitiesFromTaggedText(tagged: seq<Word>, untagged: seq<Word>, openClass: TagSet, eos: Tag,
                                         output0: Registry)
    returns (output: Registry, nw: nat, end: Outcome, tally: Tally)
    ensures Walked(tagged, untagged, openClass, eos, output0, nw, output, tally)
    ensures Stopped(tagged, untagged, nw, output, end)
  {
    ghost var h := Golds(tagged, eos);
    output, nw, end, tally := output0, 0, Finished, NoTally;
    var tag1, tag2 := eos, eos;
    while nw < |tagged|
      invariant Walked(tagged, untagged, openClass, eos, output0, nw, output, tally)
      invariant tag2 == h[nw] && tag1 == h[nw + 1]
    {
      if nw >= |untagged| {
        end := NullWord;
        break;
      }
      if tagged[nw].surface != untagged[nw].surface {
        end := Misaligned;
        break;
      }
      var tags := untagged[nw].tags;
      if |tags| == 0 {
        tags := openClass;
      } else if HasNot(output, tags) {
        end := NewClass;
        break;
      }
      var tag3 := tag2;
      tag2 := tag1;
      output, tally, tag1 := TagWord(tagged, untagged, openClass, eos, output0, nw, output, tally, tag3, tag2, tags);
      nw := nw + 1;
    }
  }

  /** Every emission counted pairs a tag with a class of the registry
      that holds it, and every transition counted has a positive oldest
      tag (so tag 0, LPAR, never starts one) and known tags after it. */
  lemma CountedInClass(tagged: seq<Word>, untagged: seq<Word>, openClass: TagSet, eos: Tag,
                       output0: Registry, n: nat, output: Registry, tally: Tally)
    requires Walked(tagged, untagged, openClass, eos, output0, n, output, tally)
    ensures forall e :: e in tally.emis2 ==> 0 <= e.2 < |output| && e.1 in output[e.2] && e.0 >= 0 && e.1 >= 0
    ensures forall e :: e in tally.tagsTriple ==> e.0 > 0 && e.1 >= 0 && e.2 >= 0
  {
    var cls := ClassesOf(untagged, openClass);
    var s := Scan(output0, cls[..n]);
    var h := Golds(tagged, eos);
    ScanIds(output0, cls[..n]);
    forall e | e in tally.emis2
      ensures 0 <= e.2 < |output| && e.1 in output[e.2] && e.0 >= 0 && e.1 >= 0
    {
      EmissionsCounted(h, cls, s.1, e.0, e.1, e.2);
      var i :| 0 <= i < |s.1| && h[i + 1] == e.0 && h[i + 2] == e.1 && s.1[i] == e.2 && e.1 in cls[i];
      assert cls[..n][i] == cls[i];
    }
    forall e | e in tally.tagsTriple
      ensures e.0 > 0 && e.1 >= 0 && e.2 >= 0
    {
      TransitionsCounted(h, cls, s.1, e.0, e.1, e.2);
    }
  }
}
