/** What the TSX reader does with a tagger definition file, as functions over
    the list of events an XML text reader delivers: the tag tables it builds,
    the rules it collects and the errors it stops at.  The reader class in
    module TsxReader is proved against these functions. */
module TsxEvents {
  import opened Common
  import opened TaggerRecords

  /** The names of the nodes the reader tells apart, as the XML text reader
      spells them: "#text" and "#comment" for text and comments, the
      element names of the format, and any other name. */
  datatype Node =
    | TextNode | CommentNode | TaggerNode | TagsetNode | DefLabelNode | DefMultNode
    | TagsItemNode | LabelItemNode | SequenceNode | ForbidNode | LabelSequenceNode
    | EnforceRulesNode | EnforceAfterNode | LabelSetNode | PreferencesNode | PreferNode
    | DiscardOnAmbiguityNode | DiscardNode | OtherNode(s: string)

  /** The name the XML text reader reports for a node. */
  function XmlName(n: Node): string
  {
    match n
    case TextNode => "#text"
    case CommentNode => "#comment"
    case TaggerNode => "tagger"
    case TagsetNode => "tagset"
    case DefLabelNode => "def-label"
    case DefMultNode => "def-mult"
    case TagsItemNode => "tags-item"
    case LabelItemNode => "label-item"
    case SequenceNode => "sequence"
    case ForbidNode => "forbid"
    case LabelSequenceNode => "label-sequence"
    case EnforceRulesNode => "enforce-rules"
    case EnforceAfterNode => "enforce-after"
    case LabelSetNode => "label-set"
    case PreferencesNode => "preferences"
    case PreferNode => "prefer"
    case DiscardOnAmbiguityNode => "discard-on-ambiguity"
    case DiscardNode => "discard"
    case OtherNode(s) => s
  }

  /** The node a name reported by the XML text reader stands for. */
  function NodeOf(s: string): (n: Node)
    ensures XmlName(n) == s
  {
    if s == "#text" then TextNode
    else if s == "#comment" then CommentNode
    else if s == "tagger" then TaggerNode
    else if s == "tagset" then TagsetNode
    else if s == "def-label" then DefLabelNode
    else if s == "def-mult" then DefMultNode
    else if s == "tags-item" then TagsItemNode
    else if s == "label-item" then LabelItemNode
    else if s == "sequence" then SequenceNode
    else if s == "forbid" then ForbidNode
    else if s == "label-sequence" then LabelSequenceNode
    else if s == "enforce-rules" then EnforceRulesNode
    else if s == "enforce-after" then EnforceAfterNode
    else if s == "label-set" then LabelSetNode
    else if s == "preferences" then PreferencesNode
    else if s == "prefer" then PreferNode
    else if s == "discard-on-ambiguity" then DiscardOnAmbiguityNode
    else if s == "discard" then DiscardNode
    else OtherNode(s)
  }

  /** One node as the XML text reader reports it: its name, whether it is
      an end tag, and its attributes. */
  datatype Event = Event(name: Node, isEnd: bool, attrs: map<string, string>)

  /** An attribute's value; a missing attribute reads as the empty string. */
  function Attr(e: Event, key: string): string
  {
    if key in e.attrs then e.attrs[key] else ""
  }

  /** The reader's state before its first step: an empty name and a node
      type that is not an end tag. */
  const Before: Event := Event(OtherNode(""), false, map[])

  predicate Blank(e: Event)
  {
    e.name == TextNode || e.name == CommentNode
  }

  /** `e` is the end tag of `section`. */
  predicate Closes(e: Event, section: Node)
  {
    e.isEnd && e.name == section
  }

  /** The current event once `p` events have been read. */
  function Current(es: seq<Event>, p: nat): Event
    requires p <= |es|
  {
    if p == 0 then Before else es[p - 1]
  }

  /** The tables of the tagger data the reader fills. */
  datatype Tables = Tables(
    openClass: set<Tag>,
    forbid: seq<ForbidRule>,
    index: map<string, int>,
    arrayTags: seq<string>,
    enforce: seq<EnforceRule>,
    prefer: seq<string>,
    discard: seq<string>,
    plist: seq<PatternOp>,
    constants: map<string, int>)

  /** How a part of the reading ends: at a parse error (the program exits),
      or with `pos` events read and the tables `t`. */
  datatype Run = Failed | Reached(pos: nat, t: Tables)

  /** A tag id together with the tables after looking it up. */
  datatype Looked = Looked(t: Tables, id: int)

  function Key(tag: string): string
  {
    "TAG_" + tag
  }

  predicate Prefix<T(==)>(xs: seq<T>, ys: seq<T>)
  {
    |xs| <= |ys| && ys[..|xs|] == xs
  }

  /** `u` keeps everything `t` holds: no tag id changes, the lists only grow
      at their ends and the open class only gains tags. */
  predicate Extends(t: Tables, u: Tables)
  {
    && t.openClass <= u.openClass
    && Prefix(t.forbid, u.forbid)
    && Prefix(t.arrayTags, u.arrayTags)
    && Prefix(t.enforce, u.enforce)
    && Prefix(t.prefer, u.prefer)
    && Prefix(t.discard, u.discard)
    && Prefix(t.plist, u.plist)
    && (forall k :: k in t.index ==> k in u.index && u.index[k] == t.index[k])
  }

  /** A tag id that names an entry of array_tags. */
  predicate IdOk(x: int, n: int)
  {
    0 <= x < n
  }

  predicate ForbidOk(r: ForbidRule, n: int)
  {
    IdOk(r.tagi, n) && IdOk(r.tagj, n) && (r.tagk == NO_TAGK || IdOk(r.tagk, n))
  }

  predicate EnforceOk(r: EnforceRule, n: int)
  {
    && IdOk(r.tagi, n)
    && (forall q :: 0 <= q < |r.tagsj| ==> IdOk(r.tagsj[q], n))
    && (forall q :: 0 <= q < |r.tagsk| ==> IdOk(r.tagsk[q], n))
  }

  predicate PatternOk(op: PatternOp, n: int)
  {
    match op
    case InsertTags(tag, _, _) => IdOk(tag, n)
    case InsertLabel(tag, labelTag) => IdOk(tag, n) && IdOk(labelTag, n)
    case _ => true
  }

  /** Every tag id held anywhere in the tables names an entry of array_tags. */
  predicate WellFormed(t: Tables)
  {
    var n := |t.arrayTags|;
    && n > 0
    && (forall k :: k in t.index ==> IdOk(t.index[k], n))
    && (forall x :: x in t.openClass ==> IdOk(x, n))
    && (forall q :: 0 <= q < |t.forbid| ==> ForbidOk(t.forbid[q], n))
    && (forall q :: 0 <= q < |t.enforce| ==> EnforceOk(t.enforce[q], n))
    && (forall q :: 0 <= q < |t.plist| ==> PatternOk(t.plist[q], n))
  }

  /** Ids that were valid stay valid when array_tags grows. */
  lemma WellFormedGrows(t: Tables, u: Tables)
    requires |t.arrayTags| <= |u.arrayTags|
    requires u == t.(arrayTags := u.arrayTags, index := u.index, constants := u.constants)
    ensures WellFormed(t) && (forall k :: k in u.index ==> IdOk(u.index[k], |u.arrayTags|)) ==> WellFormed(u)
  {
    var n, m := |t.arrayTags|, |u.arrayTags|;
    if WellFormed(t) {
      forall q | 0 <= q < |u.enforce| ensures EnforceOk(u.enforce[q], m)
      {
        assert EnforceOk(t.enforce[q], n);
      }
      forall q | 0 <= q < |u.plist| ensures PatternOk(u.plist[q], m)
      {
        assert PatternOk(t.plist[q], n);
      }
    }
  }

  /** `(*tag_index)["TAG_" + label]`: std::map's operator[] adds a missing key
      with the id 0, so an unknown label silently stands for TAG_LPAR. */
  function Lookup(t: Tables, tag: string): (r: Looked)
    ensures Key(tag) in r.t.index && r.id == r.t.index[Key(tag)]
    ensures Key(tag) in t.index ==> r.t == t
    ensures Key(tag) !in t.index ==> r.id == 0 && r.t == t.(index := t.index[Key(tag) := 0])
  {
    if Key(tag) in t.index then Looked(t, t.index[Key(tag)])
    else Looked(t.(index := t.index[Key(tag) := 0]), 0)
  }

  /** Every tag `t` has an id for keeps that id in `u`. */
  predicate IndexKept(t: Tables, u: Tables)
  {
    forall k :: k in t.index ==> k in u.index && u.index[k] == t.index[k]
  }

  /** `u` keeps the tag ids of `t`, and every id stays valid if it was. */
  predicate Grows(t: Tables, u: Tables)
  {
    IndexKept(t, u) && (WellFormed(t) ==> WellFormed(u))
  }

  lemma GrowsTrans(t: Tables, u: Tables, v: Tables)
    requires Grows(t, u) && Grows(u, v)
    ensures Grows(t, v)
  {
  }

  /** A lookup keeps every table and, in well-formed tables, yields a valid id. */
  lemma LookupGrows(t: Tables, tag: string)
    ensures Grows(t, Lookup(t, tag).t)
    ensures WellFormed(t) ==> IdOk(Lookup(t, tag).id, |t.arrayTags|)
    ensures |Lookup(t, tag).t.arrayTags| == |t.arrayTags|
  {
  }

  /** The tag names clearTagIndex reserves, in the order of their ids. */
  const Reserved: seq<string> := ["LPAR", "RPAR", "LQUEST", "CM", "SENT", "kEOF", "kUNDEF"]

  /** newTagIndex: fails when "TAG_" + tag is already indexed; otherwise
      appends "TAG_" + tag to array_tags and indexes it by its position. */
  function NewTagIndex(t: Tables, tag: string): (r: Option<Tables>)
    ensures r.Some? <==> Key(tag) !in t.index
    ensures r.Some? ==> Defines(t, r.value, tag, Key(tag))
  {
    if Key(tag) in t.index then None
    else Some(t.(arrayTags := t.arrayTags + [Key(tag)], index := t.index[Key(tag) := |t.arrayTags|]))
  }

  /** newDefTag: as newTagIndex, but array_tags receives the bare name. */
  function NewDefTag(t: Tables, tag: string): (r: Option<Tables>)
    ensures r.Some? <==> Key(tag) !in t.index
    ensures r.Some? ==> Defines(t, r.value, tag, tag)
  {
    if Key(tag) in t.index then None
    else Some(t.(arrayTags := t.arrayTags + [tag], index := t.index[Key(tag) := |t.arrayTags|]))
  }

  /** `u` is `t` with one new entry `entry` at the end of array_tags, the key
      of `tag` naming that entry, and nothing else changed. */
  predicate Defines(t: Tables, u: Tables, tag: string, entry: string)
  {
    && u == t.(arrayTags := u.arrayTags, index := u.index)
    && Prefix(t.arrayTags, u.arrayTags) && |u.arrayTags| == |t.arrayTags| + 1
    && Key(tag) in u.index && u.index[Key(tag)] == |t.arrayTags|
    && u.arrayTags[u.index[Key(tag)]] == entry
    && u.index.Keys == t.index.Keys + {Key(tag)}
    && (forall k :: k in t.index ==> u.index[k] == t.index[k])
  }

  /** A definition keeps everything and keeps every id valid. */
  lemma DefinesExtends(t: Tables, u: Tables, tag: string, entry: string)
    requires Defines(t, u, tag, entry)
    ensures Extends(t, u)
    ensures WellFormed(t) ==> WellFormed(u)
  {
    WellFormedGrows(t, u);
  }

  /** newConstant: the constant gets the current size of array_tags and is
      appended to it; the tag index is left alone. */
  function NewConstant(t: Tables, c: string): (r: Tables)
    ensures |r.arrayTags| == |t.arrayTags| + 1 && c in r.constants && r.constants[c] == |t.arrayTags|
    ensures r.arrayTags[r.constants[c]] == c
    ensures r == t.(arrayTags := r.arrayTags, constants := r.constants) && Extends(t, r)
    ensures forall d :: d in t.constants && d != c ==> d in r.constants && r.constants[d] == t.constants[d]
    ensures WellFormed(t) ==> WellFormed(r)
  {
    var r := t.(constants := t.constants[c := |t.arrayTags|], arrayTags := t.arrayTags + [c]);
    WellFormedGrows(t, r);
    r
  }

  /** The tag index and array_tags as clearTagIndex leaves them. */
  const ReservedIndex: map<string, int> :=
    map["TAG_LPAR" := 0, "TAG_RPAR" := 1, "TAG_LQUEST" := 2, "TAG_CM" := 3,
        "TAG_SENT" := 4, "TAG_kEOF" := 5, "TAG_kUNDEF" := 6]
  const ReservedTags: seq<string> :=
    ["TAG_LPAR", "TAG_RPAR", "TAG_LQUEST", "TAG_CM", "TAG_SENT", "TAG_kEOF", "TAG_kUNDEF"]

  /** The reserved keys, their entries and their ids agree. */
  lemma ReservedFacts()
    ensures |Reserved| == |ReservedTags| == 7
    ensures forall q :: 0 <= q < |Reserved| ==>
              Key(Reserved[q]) == ReservedTags[q] && ReservedTags[q] in ReservedIndex && ReservedIndex[ReservedTags[q]] == q
    ensures forall k :: k in ReservedIndex ==> 0 <= ReservedIndex[k] < 7 && ReservedTags[ReservedIndex[k]] == k
  {
    assert Key("LPAR") == "TAG_LPAR" && Key("RPAR") == "TAG_RPAR" && Key("LQUEST") == "TAG_LQUEST";
    assert Key("CM") == "TAG_CM" && Key("SENT") == "TAG_SENT" && Key("kEOF") == "TAG_kEOF";
    assert Key("kUNDEF") == "TAG_kUNDEF";
    assert "TAG_LPAR"[4] == 'L' && "TAG_RPAR"[4] == 'R' && "TAG_LQUEST"[4] == 'L' && "TAG_CM"[4] == 'C';
    assert "TAG_SENT"[4] == 'S' && "TAG_kEOF"[5] == 'E' && "TAG_kUNDEF"[5] == 'U' && "TAG_LQUEST"[5] == 'Q';
    assert "TAG_LPAR"[5] == 'P' && |"TAG_CM"| == 6;
  }

  /** clearTagIndex: both tables emptied, then the seven reserved tags get
      the ids 0 .. 6 in order. */
  function ClearTagIndex(t: Tables): (r: Tables)
    ensures |r.arrayTags| == |Reserved|
    ensures forall q :: 0 <= q < |Reserved| ==>
              Key(Reserved[q]) in r.index && r.index[Key(Reserved[q])] == q && r.arrayTags[q] == Key(Reserved[q])
    ensures forall k :: k in r.index ==> IdOk(r.index[k], |r.arrayTags|) && r.arrayTags[r.index[k]] == k
  {
    ReservedFacts();
    t.(index := ReservedIndex, arrayTags := ReservedTags)
  }

  /** newTagIndex on each of `names` in turn, from position `i` on, as
      clearTagIndex does with the reserved names; a clash is a parse error. */
  function NewTagsFrom(t: Tables, names: seq<string>, i: nat): (r: Option<Tables>)
    requires i <= |names|
    decreases |names| - i
  {
    if i == |names| then Some(t)
    else match NewTagIndex(t, names[i])
      case None => None
      case Some(u) => NewTagsFrom(u, names, i + 1)
  }

  /** The tables hold exactly the first `i` of `keys`, each with its position. */
  ghost predicate HoldsFirst(t: Tables, keys: seq<string>, i: nat)
    requires i <= |keys|
  {
    && t.arrayTags == keys[..i]
    && (forall k :: k in t.index <==> k in keys[..i])
    && (forall q :: 0 <= q < i ==> t.index[keys[q]] == q)
  }

  lemma {:induction false} NewTagsFromHolds(t: Tables, names: seq<string>, keys: seq<string>, i: nat)
    requires |names| == |keys| && i <= |keys|
    requires forall q :: 0 <= q < |names| ==> Key(names[q]) == keys[q]
    requires forall q, q' :: 0 <= q < q' < |keys| ==> keys[q] != keys[q']
    requires HoldsFirst(t, keys, i)
    ensures var r := NewTagsFrom(t, names, i);
      r.Some? && HoldsFirst(r.value, keys, |keys|) && r.value.(index := t.index, arrayTags := t.arrayTags) == t
    decreases |names| - i
  {
    if i < |names| {
      var key := keys[i];
      var u := t.(arrayTags := t.arrayTags + [key], index := t.index[key := |t.arrayTags|]);
      HoldsFirstStep(t, keys, i);
      assert NewTagIndex(t, names[i]) == Some(u);
      NewTagsFromHolds(u, names, keys, i + 1);
    }
  }

  /** Adding the next key of a distinct list keeps HoldsFirst one further. */
  lemma HoldsFirstStep(t: Tables, keys: seq<string>, i: nat)
    requires i < |keys|
    requires forall q, q' :: 0 <= q < q' < |keys| ==> keys[q] != keys[q']
    requires HoldsFirst(t, keys, i)
    ensures keys[i] !in t.index
    ensures HoldsFirst(t.(arrayTags := t.arrayTags + [keys[i]], index := t.index[keys[i] := |t.arrayTags|]), keys, i + 1)
  {
    assert keys[i] !in keys[..i];
    assert keys[..i + 1] == keys[..i] + [keys[i]];
  }

  lemma ReservedDistinct()
    ensures forall q, q' :: 0 <= q < q' < |ReservedTags| ==> ReservedTags[q] != ReservedTags[q']
  {
    ReservedFacts();
    forall q, q' | 0 <= q < q' < |ReservedTags|
      ensures ReservedTags[q] != ReservedTags[q']
    {
      assert ReservedIndex[ReservedTags[q]] == q;
    }
  }

  /** A map holding exactly the reserved tags, each at its position, is ReservedIndex. */
  lemma ReservedIndexUnique(m: map<string, int>)
    requires forall k :: k in m <==> k in ReservedTags
    requires forall q :: 0 <= q < |ReservedTags| ==> m[ReservedTags[q]] == q
    ensures m == ReservedIndex
  {
    ReservedFacts();
    forall k | k in ReservedIndex
      ensures k in m
    {
      assert ReservedTags[ReservedIndex[k]] == k;
    }
    forall k | k in m
      ensures k in ReservedIndex && m[k] == ReservedIndex[k]
    {
      var q :| 0 <= q < |ReservedTags| && ReservedTags[q] == k;
    }
  }

  /** The seven newTagIndex calls of clearTagIndex, on emptied tables,
      all succeed and leave the tables clearTagIndex describes. */
  lemma ReservedInTurn(t: Tables)
    ensures NewTagsFrom(t.(index := map[], arrayTags := []), Reserved, 0) == Some(ClearTagIndex(t))
  {
    ReservedFacts();
    ReservedDistinct();
    var e := t.(index := map[], arrayTags := []);
    assert HoldsFirst(e, ReservedTags, 0);
    NewTagsFromHolds(e, Reserved, ReservedTags, 0);
    var r := NewTagsFrom(e, Reserved, 0).value;
    assert ReservedTags[..|ReservedTags|] == ReservedTags;
    ReservedIndexUnique(r.index);
  }

  // ---------------------------------------------------------------------
  // The rewriting of prefer and discard patterns

  /** StringUtils::substitute(s, ".", "><"): every dot becomes "><". */
  function Dots(s: string): (r: string)
    ensures '.' !in r
  {
    if s == [] then []
    else (if s[0] == '.' then "><" else [s[0]]) + Dots(s[1..])
  }

  /** The pattern stored for a `tags` attribute: "a.b" becomes "<a><b>". */
  function TagPattern(s: string): (r: string)
    ensures |r| >= 2 && r[0] == '<' && r[|r| - 1] == '>' && '.' !in r
  {
    "<" + Dots(s) + ">"
  }

  /** Reads a pattern back: "><" becomes a dot again. */
  function Undots(r: string): string
  {
    if |r| >= 2 && r[0] == '>' && r[1] == '<' then "." + Undots(r[2..])
    else if r == [] then []
    else [r[0]] + Undots(r[1..])
  }

  function Untag(r: string): string
    requires |r| >= 2
  {
    Undots(r[1..|r| - 1])
  }

  lemma {:induction false} DotsRoundTrip(s: string)
    requires '<' !in s && '>' !in s
    ensures Undots(Dots(s)) == s
  {
    if s != [] {
      var h := if s[0] == '.' then "><" else [s[0]];
      assert Dots(s) == h + Dots(s[1..]);
      DotsRoundTrip(s[1..]);
      if s[0] == '.' {
        assert (h + Dots(s[1..]))[2..] == Dots(s[1..]);
      } else {
        assert (h + Dots(s[1..]))[1..] == Dots(s[1..]);
      }
      assert s == [s[0]] + s[1..];
    }
  }

  /** A tags attribute without angle brackets is recovered from its pattern. */
  lemma TagPatternRoundTrip(s: string)
    requires '<' !in s && '>' !in s
    ensures Untag(TagPattern(s)) == s
  {
    var r := TagPattern(s);
    assert r[1..|r| - 1] == Dots(s);
    DotsRoundTrip(s);
  }

  /** The rewriting works piecewise: "a.b" gives "<a" + "><" + "b>". */
  lemma {:induction false} DotsAppend(a: string, b: string)
    ensures Dots(a + b) == Dots(a) + Dots(b)
  {
    if a != [] {
      assert (a + b)[0] == a[0] && (a + b)[1..] == a[1..] + b;
      DotsAppend(a[1..], b);
    } else {
      assert a + b == b;
    }
  }

  lemma TagPatternSplit(a: string, b: string)
    ensures TagPattern(a + "." + b) == "<" + (Dots(a) + "><" + Dots(b)) + ">"
  {
    var x, y := Dots(a), Dots(b);
    assert Dots(".") == "><" by {
      assert "."[0] == '.' && "."[1..] == [];
    }
    DotsAppend(a, ".");
    DotsAppend(a + ".", b);
    assert Dots(a + "." + b) == x + "><" + y;
  }


  // ---------------------------------------------------------------------
  // Reading sections

  /** step() and the loop that skips text and comments after it: the number
      of events read once the reader stands on the next significant event. */
  function NextSignificant(es: seq<Event>, p: nat): (r: Option<nat>)
    requires p <= |es|
    ensures r.Some? ==> p < r.value <= |es| && !Blank(es[r.value - 1])
    decreases |es| - p
  {
    if p == |es| then None
    else if Blank(es[p]) then NextSignificant(es, p + 1)
    else Some(p + 1)
  }

  /** What one event does inside a loop: the loop goes on with tables `t`,
      leaves with tables `t`, or stops at a parse error. */
  datatype Move = Go(t: Tables) | Done(t: Tables) | Stop

  /** The two sections made of tag patterns: preferences of `prefer`
      elements and discard-on-ambiguity of `discard` elements. */
  datatype PatternKind = Preferences | Discards

  function SectionName(k: PatternKind): Node
  {
    if k == Preferences then PreferencesNode else DiscardOnAmbiguityNode
  }

  function ElementName(k: PatternKind): Node
  {
    if k == Preferences then PreferNode else DiscardNode
  }

  /** The tables with `ps` appended to the list a section of kind `k` fills. */
  function AddPatterns(k: PatternKind, t: Tables, ps: seq<string>): Tables
  {
    if k == Preferences then t.(prefer := t.prefer + ps) else t.(discard := t.discard + ps)
  }

  lemma AddPatternsTwice(k: PatternKind, t: Tables, xs: seq<string>, ys: seq<string>)
    ensures AddPatterns(k, t, []) == t
    ensures AddPatterns(k, AddPatterns(k, t, xs), ys) == AddPatterns(k, t, xs + ys)
  {
    assert t.prefer + [] == t.prefer && t.discard + [] == t.discard;
    assert t.prefer + xs + ys == t.prefer + (xs + ys);
    assert t.discard + xs + ys == t.discard + (xs + ys);
  }

  /** Patterns touch no tag id. */
  lemma AddPatternsGrows(k: PatternKind, t: Tables, ps: seq<string>)
    ensures Grows(t, AddPatterns(k, t, ps))
  {
  }

  /** The pattern an event adds to a section of kind `k`: the rewritten
      `tags` of an open element tag, nothing for anything else. */
  function Added(k: PatternKind, e: Event): seq<string>
  {
    if e.name == ElementName(k) && !e.isEnd then [TagPattern(Attr(e, "tags"))] else []
  }

  /** One pass of the loop of procPreferences or procDiscardOnAmbiguity. */
  function PatternEvent(k: PatternKind, e: Event, t: Tables): (m: Move)
    ensures m.Go? ==> m.t == AddPatterns(k, t, Added(k, e)) && !Closes(e, SectionName(k))
    ensures m.Done? ==> Closes(e, SectionName(k)) && m.t == t && Added(k, e) == []
  {
    if e.name == ElementName(k) || Blank(e) then Go(AddPatterns(k, t, Added(k, e)))
    else if Closes(e, SectionName(k)) then Done(t)
    else Stop
  }

  /** procPreferences and procDiscardOnAmbiguity, which differ only in their
      names and the list they fill: the loop runs until the end tag of the
      section. */
  function PatternSection(es: seq<Event>, p: nat, k: PatternKind, t: Tables): (r: Run)
    requires p <= |es|
    ensures r.Reached? ==> p <= r.pos <= |es| && Closes(Current(es, r.pos), SectionName(k))
    decreases |es| - p
  {
    if Closes(Current(es, p), SectionName(k)) then Reached(p, t)
    else if p == |es| then Failed
    else match PatternEvent(k, es[p], t)
      case Go(u) => PatternSection(es, p + 1, k, u)
      case Done(u) => Reached(p + 1, u)
      case Stop => Failed
  }

  /** One pass of the loop on the event after `p`, case by case. */
  lemma PatternSectionStep(es: seq<Event>, p: nat, k: PatternKind, t: Tables)
    requires p < |es| && !Closes(Current(es, p), SectionName(k))
    ensures var e := es[p];
            e.name == ElementName(k) && !e.isEnd ==>
              PatternSection(es, p, k, t) == PatternSection(es, p + 1, k, AddPatterns(k, t, [TagPattern(Attr(e, "tags"))]))
    ensures var e := es[p];
            (e.name == ElementName(k) && e.isEnd) || Blank(e) ==>
              PatternSection(es, p, k, t) == PatternSection(es, p + 1, k, t)
    ensures var e := es[p];
            Closes(e, SectionName(k)) ==> PatternSection(es, p, k, t) == Reached(p + 1, t)
    ensures var e := es[p];
            e.name != ElementName(k) && !Blank(e) && !Closes(e, SectionName(k)) ==> PatternSection(es, p, k, t) == Failed
  {
    AddPatternsTwice(k, t, [], []);
  }

  /** The patterns the events `es` add to a section of kind `k`, in order. */
  function Patterns(es: seq<Event>, k: PatternKind): seq<string>
  {
    if es == [] then [] else Added(k, es[0]) + Patterns(es[1..], k)
  }

  lemma PatternsFirst(es: seq<Event>, p: nat, q: nat, k: PatternKind)
    requires p < q <= |es|
    ensures Patterns(es[p..q], k) == Added(k, es[p]) + Patterns(es[p + 1..q], k)
  {
    assert es[p..q][1..] == es[p + 1..q];
  }

  /** A pattern section appends exactly the patterns of the element tags
      it reads, in document order, and changes nothing else. */
  lemma {:induction false} PatternSectionAppends(es: seq<Event>, p: nat, k: PatternKind, t: Tables)
    requires p <= |es|
    ensures var r := PatternSection(es, p, k, t);
            r.Reached? ==> r.t == AddPatterns(k, t, Patterns(es[p..r.pos], k))
    decreases |es| - p
  {
    var r := PatternSection(es, p, k, t);
    if r.Reached? {
      if Closes(Current(es, p), SectionName(k)) {
        assert es[p..p] == [];
        AddPatternsTwice(k, t, [], []);
      } else {
        PatternsFirst(es, p, r.pos, k);
        match PatternEvent(k, es[p], t)
        case Go(u) =>
          PatternSectionAppends(es, p + 1, k, u);
          AddPatternsTwice(k, t, Added(k, es[p]), Patterns(es[p + 1..r.pos], k));
        case Done(u) =>
          assert es[p + 1..r.pos] == [];
          AddPatternsTwice(k, t, [], []);
      }
    }
  }

  /** A pattern section ends at the first end tag of the section. */
  lemma {:induction false} PatternSectionStops(es: seq<Event>, p: nat, k: PatternKind, t: Tables)
    requires p <= |es|
    ensures var r := PatternSection(es, p, k, t);
            r.Reached? ==> forall q :: p <= q < r.pos - 1 ==> !Closes(es[q], SectionName(k))
    decreases |es| - p
  {
    if !Closes(Current(es, p), SectionName(k)) && p < |es| {
      var m := PatternEvent(k, es[p], t);
      if m.Go? {
        assert PatternSection(es, p, k, t) == PatternSection(es, p + 1, k, m.t);
        PatternSectionStops(es, p + 1, k, m.t);
      }
    }
  }

  /** The tables as procEnforce's loop carries them along with its local
      rule `aux` and its counter of label-set open tags. */
  datatype EnforceMove = Carry(aux: EnforceRule, count: int, t: Tables) | EnforceDone(t: Tables) | EnforceError

  /** One pass of procEnforce's loop.  Label items go to tagsj while the
      counter is 1 and to tagsk while it is 2; an `enforce-after` end tag
      appends `aux` and empties its tagsj only; the counter is never reset. */
  function EnforceEvent(e: Event, aux: EnforceRule, count: int, t: Tables): (m: EnforceMove)
    ensures m.EnforceDone? ==> Closes(e, EnforceRulesNode) && m.t == t
  {
    if e.name == EnforceAfterNode then
      if !e.isEnd then
        var l := Lookup(t, Attr(e, "label"));
        Carry(aux.(tagi := l.id), count, l.t)
      else Carry(aux.(tagsj := []), count, t.(enforce := t.enforce + [aux]))
    else if e.name == LabelSetNode then Carry(aux, if e.isEnd then count else count + 1, t)
    else if e.name == LabelItemNode && (count == 1 || count == 2) then
      if e.isEnd then Carry(aux, count, t)
      else
        var l := Lookup(t, Attr(e, "label"));
        if count == 1 then Carry(aux.(tagsj := aux.tagsj + [l.id]), count, l.t)
        else Carry(aux.(tagsk := aux.tagsk + [l.id]), count, l.t)
    else if Blank(e) then Carry(aux, count, t)
    else if Closes(e, EnforceRulesNode) then EnforceDone(t)
    else EnforceError
  }

  /** procEnforce's loop. */
  function EnforceSection(es: seq<Event>, p: nat, aux: EnforceRule, count: int, t: Tables): (r: Run)
    requires p <= |es|
    ensures r.Reached? ==> p <= r.pos <= |es| && Closes(Current(es, r.pos), EnforceRulesNode)
    decreases |es| - p
  {
    if Closes(Current(es, p), EnforceRulesNode) then Reached(p, t)
    else if p == |es| then Failed
    else match EnforceEvent(es[p], aux, count, t)
      case Carry(aux', count', u) => EnforceSection(es, p + 1, aux', count', u)
      case EnforceDone(u) => Reached(p + 1, u)
      case EnforceError => Failed
  }

  /** The rule procEnforce starts from; its tagi is left uninitialised by
      the source and is 0 here. */
  const NoRule: EnforceRule := EnforceRule(0, [], [])

  lemma EnforceEventGrows(e: Event, aux: EnforceRule, count: int, t: Tables)
    ensures var m := EnforceEvent(e, aux, count, t);
            m.Carry? ==>
              && IndexKept(t, m.t) && |m.t.arrayTags| == |t.arrayTags|
              && (WellFormed(t) && EnforceOk(aux, |t.arrayTags|) ==> WellFormed(m.t) && EnforceOk(m.aux, |t.arrayTags|))
  {
    var n := |t.arrayTags|;
    LookupGrows(t, Attr(e, "label"));
    if e.name == EnforceAfterNode && e.isEnd {
      var u := t.(enforce := t.enforce + [aux]);
      if WellFormed(t) && EnforceOk(aux, n) {
        assert forall q :: 0 <= q < |u.enforce| ==> u.enforce[q] == if q < |t.enforce| then t.enforce[q] else aux;
      }
    }
  }

  /** procEnforce keeps every table, and every id stays valid. */
  lemma {:induction false} EnforceSectionGrows(es: seq<Event>, p: nat, aux: EnforceRule, count: int, t: Tables)
    requires p <= |es|
    ensures var r := EnforceSection(es, p, aux, count, t);
            r.Reached? ==> IndexKept(t, r.t) && (WellFormed(t) && EnforceOk(aux, |t.arrayTags|) ==> WellFormed(r.t))
    decreases |es| - p
  {
    if !Closes(Current(es, p), EnforceRulesNode) && p < |es| {
      var m := EnforceEvent(es[p], aux, count, t);
      EnforceEventGrows(es[p], aux, count, t);
      if m.Carry? {
        EnforceSectionGrows(es, p + 1, m.aux, m.count, m.t);
        assert EnforceSection(es, p, aux, count, t) == EnforceSection(es, p + 1, m.aux, m.count, m.t);
      }
    }
  }

  /** The tagsk lists of the rules from `base` on only ever grow from one
      rule to the next. */
  predicate Chained(rules: seq<EnforceRule>, base: nat)
  {
    forall q :: base <= q && q + 1 < |rules| ==> Prefix(rules[q].tagsk, rules[q + 1].tagsk)
  }

  /** The state from which later rules stay chained: the rules are chained
      and the last one's tagsk begins the tagsk being collected. */
  predicate ChainState(rules: seq<EnforceRule>, base: nat, aux: EnforceRule)
  {
    base <= |rules| && Chained(rules, base) && (base < |rules| ==> Prefix(rules[|rules| - 1].tagsk, aux.tagsk))
  }

  lemma EnforceEventChains(e: Event, aux: EnforceRule, count: int, t: Tables, base: nat)
    requires ChainState(t.enforce, base, aux)
    ensures var m := EnforceEvent(e, aux, count, t);
            (m.Carry? ==> ChainState(m.t.enforce, base, m.aux)) && (m.EnforceDone? ==> Chained(m.t.enforce, base))
  {
    var m := EnforceEvent(e, aux, count, t);
    if m.Carry? && m.t.enforce != t.enforce {
      var u := m.t.enforce;
      assert u == t.enforce + [aux];
      forall q | base <= q && q + 1 < |u| ensures Prefix(u[q].tagsk, u[q + 1].tagsk)
      {
        if q + 1 < |t.enforce| {
          assert u[q] == t.enforce[q] && u[q + 1] == t.enforce[q + 1];
        } else {
          assert u[q] == t.enforce[|t.enforce| - 1] && u[q + 1] == aux;
        }
      }
      assert u[|u| - 1].tagsk == m.aux.tagsk;
    } else if m.Carry? && |m.aux.tagsk| > |aux.tagsk| && base < |t.enforce| {
      var last := t.enforce[|t.enforce| - 1].tagsk;
      assert m.aux.tagsk[..|aux.tagsk|] == aux.tagsk;
      assert m.aux.tagsk[..|last|] == aux.tagsk[..|last|];
    }
  }

  /** Because tagsk is never cleared, every rule's tagsk begins with the
      tagsk of the rule before it. */
  lemma {:induction false} TagskAccumulates(es: seq<Event>, p: nat, aux: EnforceRule, count: int, t: Tables, base: nat)
    requires p <= |es| && ChainState(t.enforce, base, aux)
    ensures var r := EnforceSection(es, p, aux, count, t); r.Reached? ==> Chained(r.t.enforce, base)
    decreases |es| - p
  {
    if !Closes(Current(es, p), EnforceRulesNode) && p < |es| {
      var m := EnforceEvent(es[p], aux, count, t);
      EnforceEventChains(es[p], aux, count, t, base);
      if m.Carry? {
        TagskAccumulates(es, p + 1, m.aux, m.count, m.t, base);
        assert EnforceSection(es, p, aux, count, t) == EnforceSection(es, p + 1, m.aux, m.count, m.t);
      }
    }
  }

  /** Once a third label-set has been opened, a label item is an error. */
  lemma LateLabelItemFails(es: seq<Event>, p: nat, aux: EnforceRule, count: int, t: Tables)
    requires p < |es| && !Closes(Current(es, p), EnforceRulesNode)
    requires es[p].name == LabelItemNode && count >= 3
    ensures EnforceSection(es, p, aux, count, t) == Failed
  {
  }

  /** What procLabelSequence's read of one label item leaves: the events
      read, the id of the item's label and the tables after its lookup. */
  datatype ItemRead = ItemRead(pos: nat, id: int, t: Tables)

  /** procLabelSequence's read of one item: step over text and comments,
      demand a `label-item` and look up the id of its label. */
  function ReadLabelItem(es: seq<Event>, p: nat, t: Tables): (r: Option<ItemRead>)
    requires p <= |es|
    ensures r.Some? ==> NextSignificant(es, p) == Some(r.value.pos) && es[r.value.pos - 1].name == LabelItemNode
    ensures r.Some? ==> var key := Key(Attr(es[r.value.pos - 1], "label"));
                        key in r.value.t.index && r.value.t.index[key] == r.value.id
  {
    match NextSignificant(es, p)
    case None => None
    case Some(q) =>
      if es[q - 1].name != LabelItemNode then None
      else
        var l := Lookup(t, Attr(es[q - 1], "label"));
        Some(ItemRead(q, l.id, l.t))
  }

  /** Reading an item keeps every tag id, and in well-formed tables the
      label's id is valid. */
  lemma ReadLabelItemGrows(es: seq<Event>, p: nat, t: Tables)
    requires p <= |es|
    ensures var r := ReadLabelItem(es, p, t);
            r.Some? ==> && Grows(t, r.value.t) && |r.value.t.arrayTags| == |t.arrayTags|
                        && Key(Attr(es[r.value.pos - 1], "label")) in r.value.t.index
                        && r.value.t.index[Key(Attr(es[r.value.pos - 1], "label"))] == r.value.id
  {
    match NextSignificant(es, p)
    case None =>
    case Some(q) =>
      LookupGrows(t, Attr(es[q - 1], "label"));
  }

  /** procLabelSequence: two label items and an optional third, each after
      any text or comments, make one forbid rule.  With a third item the
      reader steps past it; without one the rule's tagk is NO_TAGK and the
      reader stays on the event that followed the second item. */
  function LabelSequence(es: seq<Event>, p: nat, t: Tables): (r: Run)
    requires p <= |es|
    ensures r.Reached? ==> p + 3 <= r.pos <= |es|
  {
    match ReadLabelItem(es, p, t)
    case None => Failed
    case Some(i) =>
      match ReadLabelItem(es, i.pos, i.t)
      case None => Failed
      case Some(j) => LabelSequenceEnd(es, j.pos, i.id, j.id, j.t)
  }

  /** The end of procLabelSequence, once the ids `tagi` and `tagj` are
      read: an optional third label item, then the rule is pushed. */
  function LabelSequenceEnd(es: seq<Event>, p: nat, tagi: int, tagj: int, t: Tables): (r: Run)
    requires p <= |es|
    ensures r.Reached? ==> p < r.pos <= |es|
  {
    match NextSignificant(es, p)
    case None => Failed
    case Some(q) => RuleAt(es, q, tagi, tagj, t)
  }

  /** The rule procLabelSequence pushes when the event after its second
      item is the `q`-th: a `label-item` there is the third item, read by
      one more step(); anything else leaves tagk NO_TAGK. */
  function RuleAt(es: seq<Event>, q: nat, tagi: int, tagj: int, t: Tables): (r: Run)
    requires 0 < q <= |es|
    ensures r.Reached? ==> q <= r.pos <= |es|
  {
    if es[q - 1].name != LabelItemNode then
      Reached(q, t.(forbid := t.forbid + [ForbidRule(tagi, tagj, NO_TAGK)]))
    else if q == |es| then Failed
    else
      var k := Lookup(t, Attr(es[q - 1], "label"));
      Reached(q + 1, k.t.(forbid := k.t.forbid + [ForbidRule(tagi, tagj, k.id)]))
  }

  /** The end of a label sequence adds one forbid rule and keeps every tag
      id, provided its first two ids are valid in well-formed tables. */
  lemma LabelSequenceEndGrows(es: seq<Event>, p: nat, tagi: int, tagj: int, t: Tables)
    requires p <= |es|
    requires WellFormed(t) ==> IdOk(tagi, |t.arrayTags|) && IdOk(tagj, |t.arrayTags|)
    ensures var r := LabelSequenceEnd(es, p, tagi, tagj, t);
            r.Reached? ==> Grows(t, r.t) && |r.t.forbid| == |t.forbid| + 1
  {
    var r := LabelSequenceEnd(es, p, tagi, tagj, t);
    if r.Reached? {
      var q := NextSignificant(es, p).value;
      if es[q - 1].name != LabelItemNode {
        ForbidRuleGrows(t, ForbidRule(tagi, tagj, NO_TAGK));
      } else {
        var k := Lookup(t, Attr(es[q - 1], "label"));
        LookupGrows(t, Attr(es[q - 1], "label"));
        ForbidRuleGrows(k.t, ForbidRule(tagi, tagj, k.id));
        GrowsTrans(t, k.t, r.t);
      }
    }
  }

  /** A label sequence adds one forbid rule and keeps every tag id. */
  lemma LabelSequenceGrows(es: seq<Event>, p: nat, t: Tables)
    requires p <= |es|
    ensures var r := LabelSequence(es, p, t);
            r.Reached? ==> Grows(t, r.t) && |r.t.forbid| == |t.forbid| + 1
  {
    var i := ReadLabelItem(es, p, t);
    if i.Some? {
      var j := ReadLabelItem(es, i.value.pos, i.value.t);
      if j.Some? {
        TwoItemsGrow(es, p, t);
        var u := j.value.t;
        LabelSequenceEndGrows(es, j.value.pos, i.value.id, j.value.id, u);
        var r := LabelSequenceEnd(es, j.value.pos, i.value.id, j.value.id, u);
        assert LabelSequence(es, p, t) == r;
        if r.Reached? {
          GrowsTrans(t, u, r.t);
        }
      }
    }
  }

  /** An id held in `t` is held in any `u` that keeps `t`'s ids, and is
      valid there when `u` is well formed. */
  lemma IdKept(t: Tables, u: Tables, key: string)
    requires key in t.index && IndexKept(t, u)
    ensures key in u.index && u.index[key] == t.index[key]
    ensures WellFormed(u) ==> IdOk(t.index[key], |u.arrayTags|)
  {
  }

  lemma ForbidRuleGrows(t: Tables, rule: ForbidRule)
    requires WellFormed(t) ==> ForbidOk(rule, |t.arrayTags|)
    ensures Grows(t, t.(forbid := t.forbid + [rule]))
  {
    var u := t.(forbid := t.forbid + [rule]);
    if WellFormed(t) {
      assert forall q :: 0 <= q < |u.forbid| ==> u.forbid[q] == if q < |t.forbid| then t.forbid[q] else rule;
    }
  }

  /** At the end of a label sequence, the third significant event decides
      the rule's tagk: a label item gives the id of its label, which is a
      real id in well-formed tables, and anything else gives NO_TAGK. */
  /** What a label sequence leaves once its first two items have given
      `tagi` and `tagj` and the reader has read `p` events, with `n` rules
      before it: exactly one new rule carrying those ids, and an optional
      third item.  With a third item the reader steps past it and, in
      well-formed tables (`wf`), the rule's tagk is a real id; without one
      the reader stays on the third significant event and tagk is NO_TAGK. */
  predicate EndsSequence(es: seq<Event>, p: nat, tagi: int, tagj: int, n: nat, wf: bool, r: Run)
    requires p <= |es|
  {
    r.Reached? ==>
      && NextSignificant(es, p).Some? && |r.t.forbid| == n + 1
      && r.t.forbid[n].tagi == tagi && r.t.forbid[n].tagj == tagj
      && var third := NextSignificant(es, p).value;
         && (r.pos == third + 1 <==> es[third - 1].name == LabelItemNode)
         && (es[third - 1].name != LabelItemNode ==> r.t.forbid[n].tagk == NO_TAGK)
         && (wf ==> (r.t.forbid[n].tagk != NO_TAGK <==> es[third - 1].name == LabelItemNode))
  }

  lemma ThirdItemEnd(es: seq<Event>, p: nat, tagi: int, tagj: int, t: Tables)
    requires p <= |es|
    ensures EndsSequence(es, p, tagi, tagj, |t.forbid|, WellFormed(t), LabelSequenceEnd(es, p, tagi, tagj, t))
  {
    var n := NextSignificant(es, p);
    if n.Some? && es[n.value - 1].name == LabelItemNode {
      LookupGrows(t, Attr(es[n.value - 1], "label"));
    }
  }

  /** Reading the first two items keeps every tag id, and in well-formed
      tables both ids they give are valid. */
  lemma TwoItemsGrow(es: seq<Event>, p: nat, t: Tables)
    requires p <= |es|
    ensures var i := ReadLabelItem(es, p, t);
            i.Some? ==> var j := ReadLabelItem(es, i.value.pos, i.value.t);
                        j.Some? ==>
                          && Grows(t, j.value.t)
                          && (WellFormed(j.value.t) ==>
                                IdOk(i.value.id, |j.value.t.arrayTags|) && IdOk(j.value.id, |j.value.t.arrayTags|))
  {
    var i := ReadLabelItem(es, p, t);
    if i.Some? {
      ReadLabelItemGrows(es, p, t);
      var j := ReadLabelItem(es, i.value.pos, i.value.t);
      if j.Some? {
        ReadLabelItemGrows(es, i.value.pos, i.value.t);
        GrowsTrans(t, i.value.t, j.value.t);
        ItemIdKept(es, p, t, j.value.t);
        ItemIdKept(es, i.value.pos, i.value.t, j.value.t);
      }
    }
  }

  /** The id a label item gives stays valid in any well-formed tables that
      keep the ids of the tables it leaves. */
  lemma ItemIdKept(es: seq<Event>, p: nat, t: Tables, u: Tables)
    requires p <= |es| && ReadLabelItem(es, p, t).Some?
    requires IndexKept(ReadLabelItem(es, p, t).value.t, u)
    ensures WellFormed(u) ==> IdOk(ReadLabelItem(es, p, t).value.id, |u.arrayTags|)
  {
    var i := ReadLabelItem(es, p, t).value;
    IdKept(i.t, u, Key(Attr(es[i.pos - 1], "label")));
  }

  /** A label sequence demands two label items, whose ids become the
      rule's tagi and tagj, and ends as EndsSequence says. */
  lemma ThirdItemOptional(es: seq<Event>, p: nat, t: Tables)
    requires p <= |es|
    ensures var r := LabelSequence(es, p, t);
            r.Reached? ==>
              var i := ReadLabelItem(es, p, t);
              && i.Some?
              && var j := ReadLabelItem(es, i.value.pos, i.value.t);
                 && j.Some?
                 && EndsSequence(es, j.value.pos, i.value.id, j.value.id, |t.forbid|, WellFormed(t), r)
  {
    var r := LabelSequence(es, p, t);
    if r.Reached? {
      var i := ReadLabelItem(es, p, t).value;
      var j := ReadLabelItem(es, i.pos, i.t).value;
      TwoItemsGrow(es, p, t);
      assert r == LabelSequenceEnd(es, j.pos, i.id, j.id, j.t);
      ThirdItemEnd(es, j.pos, i.id, j.id, j.t);
      assert |j.t.forbid| == |t.forbid|;
    }
  }

  /** What one pass of procForbid's loop leaves: the loop has ended (with
      `r`), or it goes on from `p` events read and tables `t`. */
  datatype Turn = Ends(r: Run) | Again(p: nat, t: Tables)

  /** One pass of procForbid's loop as the source writes it.  A
      `label-sequence` end tag takes the first branch and does nothing, so
      the loop never steps past it. */
  function ForbidTurn(es: seq<Event>, p: nat, t: Tables): (r: Turn)
    requires p <= |es|
    ensures r.Again? ==> p <= r.p <= |es|
  {
    var e := Current(es, p);
    if e.name == LabelSequenceNode then
      if e.isEnd then Again(p, t)
      else match LabelSequence(es, p, t)
        case Failed => Ends(Failed)
        case Reached(q, u) => Again(q, u)
    else if Blank(e) then
      if p == |es| then Ends(Failed) else Again(p + 1, t)
    else if e.name == ForbidNode then
      if e.isEnd then Ends(Reached(p, t)) else Ends(Failed)
    else Ends(Failed)
  }

  /** On a `label-sequence` end tag a pass of the loop changes nothing and
      the loop condition still holds: the loop runs for ever. */
  lemma ForbidStalls(es: seq<Event>, p: nat, t: Tables)
    requires 0 < p <= |es| && es[p - 1].name == LabelSequenceNode && es[p - 1].isEnd
    ensures ForbidTurn(es, p, t) == Again(p, t)
    ensures !Closes(Current(es, p), ForbidNode)
  {
  }

  /** The smallest forbid section: one label sequence of two items. */
  const ForbidExample: seq<Event> := [
    Event(ForbidNode, false, map[]),
    Event(LabelSequenceNode, false, map[]),
    Event(LabelItemNode, false, map["label" := "A"]),
    Event(LabelItemNode, false, map["label" := "B"]),
    Event(LabelSequenceNode, true, map[]),
    Event(ForbidNode, true, map[])]

  /** The example's label sequence ends on `</label-sequence>`. */
  lemma ExampleSequence(t: Tables)
    ensures LabelSequence(ForbidExample, 2, t).Reached?
    ensures LabelSequence(ForbidExample, 2, t).pos == 5
    ensures var i := ReadLabelItem(ForbidExample, 2, t);
            i.Some? && i.value.pos == 3 && var j := ReadLabelItem(ForbidExample, 3, i.value.t);
            j.Some? && j.value.pos == 4 && NextSignificant(ForbidExample, 4) == Some(5)
  {
    assert NextSignificant(ForbidExample, 2) == Some(3);
    assert NextSignificant(ForbidExample, 3) == Some(4);
    assert NextSignificant(ForbidExample, 4) == Some(5);
  }

  /** As written, procForbid reads the example's label sequence and then
      repeats the same pass on `</label-sequence>` for ever. */
  lemma ForbidExampleStalls(t: Tables)
    ensures ForbidTurn(ForbidExample, 2, t).Again?
    ensures var a := ForbidTurn(ForbidExample, 2, t);
            a.p == 5 && ForbidTurn(ForbidExample, a.p, a.t) == a
  {
    ExampleSequence(t);
    var a := ForbidTurn(ForbidExample, 2, t);
    ForbidStalls(ForbidExample, a.p, a.t);
  }

  /** procForbid's loop as evidently intended: a `label-sequence` end tag
      is stepped over like text.  It stops at the `forbid` end tag. */
  function ForbidSection(es: seq<Event>, p: nat, t: Tables): (r: Run)
    requires p <= |es|
    ensures r.Reached? ==> p <= r.pos <= |es| && Closes(Current(es, r.pos), ForbidNode)
    ensures r.Reached? ==> Grows(t, r.t)
    decreases |es| - p
  {
    var e := Current(es, p);
    if Closes(e, ForbidNode) then Reached(p, t)
    else if e.name == LabelSequenceNode && !e.isEnd then
      match LabelSequence(es, p, t)
      case Failed => Failed
      case Reached(q, u) =>
        LabelSequenceGrows(es, p, t);
        var r := ForbidSection(es, q, u);
        if r.Reached? then GrowsTrans(t, u, r.t); r else r
    else if Blank(e) || e.name == LabelSequenceNode then
      if p == |es| then Failed else ForbidSection(es, p + 1, t)
    else Failed
  }

  /** The corrected loop reads the example's rule and stops at `</forbid>`. */
  lemma ForbidExampleRead(t: Tables)
    ensures var r := ForbidSection(ForbidExample, 2, t);
            r.Reached? && r.pos == 6 && |r.t.forbid| == |t.forbid| + 1 && r.t.forbid[|t.forbid|].tagk == NO_TAGK
  {
    ExampleSequence(t);
    var l := LabelSequence(ForbidExample, 2, t);
    ThirdItemOptional(ForbidExample, 2, t);
    assert ForbidExample[4].name != LabelItemNode;
    assert ForbidSection(ForbidExample, 6, l.t) == Reached(6, l.t);
    assert ForbidSection(ForbidExample, 5, l.t) == Reached(6, l.t);
    assert ForbidSection(ForbidExample, 2, t) == Reached(6, l.t);
  }

  /** The pattern-list call for a `tags-item` of the definition `name`. */
  function TagsItem(e: Event, name: string, t: Tables): Tables
  {
    var own := Lookup(t, name);
    own.t.(plist := own.t.plist + [InsertTags(own.id, Attr(e, "lemma"), Attr(e, "tags"))])
  }

  /** The pattern-list call for a `label-item` of the definition `name`. */
  function LabelItem(e: Event, name: string, t: Tables): Tables
  {
    var own := Lookup(t, name);
    var lab := Lookup(own.t, Attr(e, "label"));
    lab.t.(plist := lab.t.plist + [InsertLabel(own.id, lab.id)])
  }

  lemma AddPatternOpGrows(t: Tables, op: PatternOp)
    requires WellFormed(t) ==> PatternOk(op, |t.arrayTags|)
    ensures Grows(t, t.(plist := t.plist + [op]))
  {
    var u := t.(plist := t.plist + [op]);
    if WellFormed(t) {
      assert forall q :: 0 <= q < |u.plist| ==> u.plist[q] == if q < |t.plist| then t.plist[q] else op;
    }
  }

  lemma ItemsGrow(e: Event, name: string, t: Tables)
    ensures Grows(t, TagsItem(e, name, t)) && Grows(t, LabelItem(e, name, t))
  {
    var own := Lookup(t, name);
    LookupGrows(t, name);
    AddPatternOpGrows(own.t, InsertTags(own.id, Attr(e, "lemma"), Attr(e, "tags")));
    GrowsTrans(t, own.t, TagsItem(e, name, t));
    var lab := Lookup(own.t, Attr(e, "label"));
    LookupGrows(own.t, Attr(e, "label"));
    GrowsTrans(t, own.t, lab.t);
    AddPatternOpGrows(lab.t, InsertLabel(own.id, lab.id));
    GrowsTrans(t, lab.t, LabelItem(e, name, t));
  }

  lemma DefLabelEventGrows(e: Event, name: string, t: Tables)
    ensures var m := DefLabelEvent(e, name, t); !m.Stop? ==> Grows(t, m.t)
  {
    ItemsGrow(e, name, t);
  }

  lemma SequenceEventGrows(e: Event, name: string, t: Tables)
    ensures var m := SequenceEvent(e, name, t); !m.Stop? ==> Grows(t, m.t)
  {
    ItemsGrow(e, name, t);
  }

  /** One pass of procDefLabel's loop: an open `tags-item` adds a pattern
      for the label's own id; any `def-label` event ends the loop. */
  function DefLabelEvent(e: Event, name: string, t: Tables): (m: Move)
    ensures m.Done? ==> m.t == t
  {
    if e.name == TagsItemNode then Go(if e.isEnd then t else TagsItem(e, name, t))
    else if e.name == DefLabelNode then Done(t)
    else if Blank(e) then Go(t)
    else Stop
  }

  /** procDefLabel's loop. */
  function DefLabelItems(es: seq<Event>, p: nat, name: string, t: Tables): (r: Run)
    requires p <= |es|
    ensures r.Reached? ==> p <= r.pos <= |es|
    decreases |es| - p
  {
    if Closes(Current(es, p), DefLabelNode) then Reached(p, t)
    else if p == |es| then Failed
    else match DefLabelEvent(es[p], name, t)
      case Go(u) => DefLabelItems(es, p + 1, name, u)
      case Done(u) => Reached(p + 1, u)
      case Stop => Failed
  }

  lemma {:induction false} DefLabelItemsGrow(es: seq<Event>, p: nat, name: string, t: Tables)
    requires p <= |es|
    ensures var r := DefLabelItems(es, p, name, t); r.Reached? ==> Grows(t, r.t)
    decreases |es| - p
  {
    if !Closes(Current(es, p), DefLabelNode) && p < |es| {
      var m := DefLabelEvent(es[p], name, t);
      DefLabelEventGrows(es[p], name, t);
      if m.Go? {
        DefLabelItemsGrow(es, p + 1, name, m.t);
        var r := DefLabelItems(es, p + 1, name, m.t);
        assert DefLabelItems(es, p, name, t) == r;
        if r.Reached? {
          GrowsTrans(t, m.t, r.t);
        }
      }
    }
  }

  /** One pass of the inner loop of procDefMult over a `sequence`: label
      items and tags items become pattern entries, any `sequence` event
      ends the loop and every other event is ignored. */
  function SequenceEvent(e: Event, name: string, t: Tables): (m: Move)
    ensures m.Done? ==> m.t == t
    ensures !m.Stop?
  {
    if e.name == LabelItemNode then Go(if e.isEnd then t else LabelItem(e, name, t))
    else if e.name == TagsItemNode then Go(if e.isEnd then t else TagsItem(e, name, t))
    else if e.name == SequenceNode then Done(t)
    else Go(t)
  }

  /** procDefMult's inner loop. */
  function SequenceItems(es: seq<Event>, p: nat, name: string, t: Tables): (r: Run)
    requires p <= |es|
    ensures r.Reached? ==> p <= r.pos <= |es|
    decreases |es| - p
  {
    if Closes(Current(es, p), SequenceNode) then Reached(p, t)
    else if p == |es| then Failed
    else match SequenceEvent(es[p], name, t)
      case Go(u) => SequenceItems(es, p + 1, name, u)
      case Done(u) => Reached(p + 1, u)
      case Stop => Failed
  }

  lemma {:induction false} SequenceItemsGrow(es: seq<Event>, p: nat, name: string, t: Tables)
    requires p <= |es|
    ensures var r := SequenceItems(es, p, name, t); r.Reached? ==> Grows(t, r.t)
    decreases |es| - p
  {
    if !Closes(Current(es, p), SequenceNode) && p < |es| {
      var m := SequenceEvent(es[p], name, t);
      SequenceEventGrows(es[p], name, t);
      if m.Go? {
        SequenceItemsGrow(es, p + 1, name, m.t);
        var r := SequenceItems(es, p + 1, name, m.t);
        assert SequenceItems(es, p, name, t) == r;
        if r.Reached? {
          GrowsTrans(t, m.t, r.t);
        }
      }
    }
  }

  /** One pass of procDefMult's outer loop from `p` events read: step(),
      then an open `sequence` runs the inner loop bracketed by the begin
      and end calls on the pattern list; text, comments and the other
      `sequence` and `def-mult` events are skipped. */
  function DefMultPass(es: seq<Event>, p: nat, name: string, t: Tables): (r: Run)
    requires p <= |es|
    ensures r.Reached? ==> p < r.pos <= |es|
  {
    if p == |es| then Failed
    else
      var e := es[p];
      if e.name == SequenceNode && !e.isEnd then SequenceBlock(es, p + 1, name, t)
      else if Blank(e) || e.name == SequenceNode || e.name == DefMultNode then Reached(p + 1, t)
      else Failed
  }

  /** An open `sequence` read by procDefMult: the inner loop between the
      begin and end calls on the pattern list. */
  function SequenceBlock(es: seq<Event>, p: nat, name: string, t: Tables): (r: Run)
    requires p <= |es|
    ensures r.Reached? ==> p <= r.pos <= |es|
  {
    match SequenceItems(es, p, name, t.(plist := t.plist + [BeginSequence]))
    case Failed => Failed
    case Reached(q, v) => Reached(q, v.(plist := v.plist + [EndSequence]))
  }

  lemma DefMultPassGrows(es: seq<Event>, p: nat, name: string, t: Tables)
    requires p <= |es|
    ensures var r := DefMultPass(es, p, name, t); r.Reached? ==> Grows(t, r.t)
  {
    if p < |es| && es[p].name == SequenceNode && !es[p].isEnd {
      var u := t.(plist := t.plist + [BeginSequence]);
      AddPatternOpGrows(t, BeginSequence);
      SequenceItemsGrow(es, p + 1, name, u);
      var s := SequenceItems(es, p + 1, name, u);
      if s.Reached? {
        AddPatternOpGrows(s.t, EndSequence);
        GrowsTrans(t, u, s.t);
        GrowsTrans(t, s.t, s.t.(plist := s.t.plist + [EndSequence]));
      }
    }
  }

  /** procDefMult's outer loop, up to `</def-mult>`. */
  function DefMultItems(es: seq<Event>, p: nat, name: string, t: Tables): (r: Run)
    requires p <= |es|
    ensures r.Reached? ==> p <= r.pos <= |es|
    decreases |es| - p
  {
    if Closes(Current(es, p), DefMultNode) then Reached(p, t)
    else match DefMultPass(es, p, name, t)
      case Failed => Failed
      case Reached(q, u) => DefMultItems(es, q, name, u)
  }

  lemma {:induction false} DefMultItemsGrow(es: seq<Event>, p: nat, name: string, t: Tables)
    requires p <= |es|
    ensures var r := DefMultItems(es, p, name, t); r.Reached? ==> Grows(t, r.t)
    decreases |es| - p
  {
    if !Closes(Current(es, p), DefMultNode) {
      var m := DefMultPass(es, p, name, t);
      DefMultPassGrows(es, p, name, t);
      if m.Reached? {
        DefMultItemsGrow(es, m.pos, name, m.t);
        var r := DefMultItems(es, m.pos, name, m.t);
        assert DefMultItems(es, p, name, t) == r;
        if r.Reached? {
          GrowsTrans(t, m.t, r.t);
        }
      }
    }
  }

  /** The start of procDefLabel and procDefMult: the definition's name gets
      the next id, and it joins the open class unless its `closed` attribute
      is exactly "true". */
  function Define(e: Event, t: Tables): (r: Option<Tables>)
    ensures var name := Attr(e, "name");
            r.Some? <==> Key(name) !in t.index
    ensures var name := Attr(e, "name");
            r.Some? ==>
              && Key(name) in r.value.index && r.value.index[Key(name)] == |t.arrayTags|
              && |r.value.arrayTags| == |t.arrayTags| + 1 && r.value.arrayTags[|t.arrayTags|] == name
              && r.value.openClass == (if Attr(e, "closed") != "true" then t.openClass + {|t.arrayTags|} else t.openClass)
              && Grows(t, r.value)
  {
    var name := Attr(e, "name");
    match NewDefTag(t, name)
    case None => None
    case Some(u) =>
      DefinesExtends(t, u, name, name);
      var id := u.index[Key(name)];
      Some(if Attr(e, "closed") != "true" then u.(openClass := u.openClass + {id}) else u)
  }

  /** procDefLabel, entered on a `def-label` open tag. */
  function DefLabel(es: seq<Event>, p: nat, t: Tables): (r: Run)
    requires 0 < p <= |es|
    ensures r.Reached? ==> p <= r.pos <= |es| && Grows(t, r.t)
  {
    match Define(es[p - 1], t)
    case None => Failed
    case Some(u) =>
      var name := Attr(es[p - 1], "name");
      DefLabelItemsGrow(es, p, name, u);
      var r := DefLabelItems(es, p, name, u);
      if r.Reached? then GrowsTrans(t, u, r.t); r else r
  }

  /** procDefMult, entered on a `def-mult` open tag. */
  function DefMult(es: seq<Event>, p: nat, t: Tables): (r: Run)
    requires 0 < p <= |es|
    ensures r.Reached? ==> p <= r.pos <= |es| && Grows(t, r.t)
  {
    match Define(es[p - 1], t)
    case None => Failed
    case Some(u) =>
      var name := Attr(es[p - 1], "name");
      DefMultItemsGrow(es, p, name, u);
      var r := DefMultItems(es, p, name, u);
      if r.Reached? then GrowsTrans(t, u, r.t); r else r
  }

  /** procTagset's first loop: up to the `tagset` open tag, allowing only
      text and `tagger` and `tagset` events on the way. */
  function TagsetOpen(es: seq<Event>, p: nat): (r: Option<nat>)
    requires p <= |es|
    ensures r.Some? ==> p <= r.value <= |es| && 0 < r.value && es[r.value - 1].name == TagsetNode && !es[r.value - 1].isEnd
    decreases |es| - p
  {
    var e := Current(es, p);
    if !e.isEnd && e.name == TagsetNode then Some(p)
    else if p == |es| then None
    else if es[p].name != TextNode && es[p].name != TaggerNode && es[p].name != TagsetNode then None
    else TagsetOpen(es, p + 1)
  }

  /** One pass of procTagset's second loop from `p` events read: step(),
      then an open `def-label` or `def-mult` is read by its procedure;
      text, comments, their end tags and `tagset` events are skipped. */
  function TagsetPass(es: seq<Event>, p: nat, t: Tables): (r: Run)
    requires p <= |es|
    ensures r.Reached? ==> p < r.pos <= |es| && Grows(t, r.t)
  {
    if p == |es| then Failed
    else
      var e := es[p];
      if e.name == DefLabelNode && !e.isEnd then DefLabel(es, p + 1, t)
      else if e.name == DefMultNode && !e.isEnd then DefMult(es, p + 1, t)
      else if e.name == DefLabelNode || e.name == DefMultNode || Blank(e) || e.name == TagsetNode then
        assert Grows(t, t);
        Reached(p + 1, t)
      else Failed
  }

  /** procTagset's second loop, up to the `tagset` end tag. */
  function TagsetBody(es: seq<Event>, p: nat, t: Tables): (r: Run)
    requires p <= |es|
    ensures r.Reached? ==> p <= r.pos <= |es| && Closes(Current(es, r.pos), TagsetNode)
    ensures r.Reached? ==> Grows(t, r.t)
    decreases |es| - p
  {
    if Closes(Current(es, p), TagsetNode) then
      assert Grows(t, t);
      Reached(p, t)
    else match TagsetPass(es, p, t)
      case Failed => Failed
      case Reached(q, u) =>
        var r := TagsetBody(es, q, u);
        if r.Reached? then GrowsTrans(t, u, r.t); r else r
  }

  /** procTagset: both loops. */
  function Tagset(es: seq<Event>, p: nat, t: Tables): (r: Run)
    requires p <= |es|
    ensures r.Reached? ==> r.pos <= |es| && Grows(t, r.t)
  {
    match TagsetOpen(es, p)
    case None => Failed
    case Some(q) => TagsetBody(es, q, t)
  }

  // ---------------------------------------------------------------------
  // The whole file

  /** After a section: step() and skip text and comments. */
  function Next(r: Run, es: seq<Event>): (n: Run)
    requires r.Reached? ==> r.pos <= |es|
    ensures n.Reached? ==> r.Reached? && r.pos < n.pos <= |es| && n.t == r.t
  {
    match r
    case Failed => Failed
    case Reached(p, t) =>
      match NextSignificant(es, p)
      case None => Failed
      case Some(q) => Reached(q, t)
  }

  /** The optional forbid section, run when the current event is named
      `forbid`: procForbid steps once before its loop. */
  function ForbidPart(r: Run, es: seq<Event>): (n: Run)
    requires r.Reached? ==> 0 < r.pos <= |es|
    ensures n.Reached? ==> r.Reached? && r.pos <= n.pos <= |es| && 0 < n.pos
  {
    match r
    case Failed => Failed
    case Reached(p, t) =>
      if es[p - 1].name != ForbidNode then r
      else if p == |es| then Failed
      else Next(ForbidSection(es, p + 1, t), es)
  }

  /** The optional enforce-rules section. */
  function EnforcePart(r: Run, es: seq<Event>): (n: Run)
    requires r.Reached? ==> 0 < r.pos <= |es|
    ensures n.Reached? ==> r.Reached? && r.pos <= n.pos <= |es| && 0 < n.pos
  {
    match r
    case Failed => Failed
    case Reached(p, t) =>
      if es[p - 1].name != EnforceRulesNode then r
      else Next(EnforceSection(es, p, NoRule, 0, t), es)
  }

  /** The optional preferences section. */
  function PreferencesPart(r: Run, es: seq<Event>): (n: Run)
    requires r.Reached? ==> 0 < r.pos <= |es|
    ensures n.Reached? ==> r.Reached? && r.pos <= n.pos <= |es| && 0 < n.pos
  {
    match r
    case Failed => Failed
    case Reached(p, t) =>
      if es[p - 1].name != PreferencesNode then r
      else Next(PatternSection(es, p, Preferences, t), es)
  }

  /** The optional discard-on-ambiguity section, run only from its open tag. */
  function DiscardPart(r: Run, es: seq<Event>): (n: Run)
    requires r.Reached? ==> 0 < r.pos <= |es|
    ensures n.Reached? ==> r.Reached? && r.pos <= n.pos <= |es|
  {
    match r
    case Failed => Failed
    case Reached(p, t) =>
      if es[p - 1].name != DiscardOnAmbiguityNode || es[p - 1].isEnd then r
      else PatternSection(es, p, Discards, t)
  }

  lemma ForbidPartGrows(r: Run, es: seq<Event>)
    requires r.Reached? ==> 0 < r.pos <= |es|
    ensures var n := ForbidPart(r, es); n.Reached? ==> Grows(r.t, n.t)
  {
  }

  lemma EnforcePartGrows(r: Run, es: seq<Event>)
    requires r.Reached? ==> 0 < r.pos <= |es|
    ensures var n := EnforcePart(r, es); n.Reached? ==> Grows(r.t, n.t)
  {
    if r.Reached? {
      EnforceSectionGrows(es, r.pos, NoRule, 0, r.t);
    }
  }

  lemma PatternPartsGrow(r: Run, es: seq<Event>)
    requires r.Reached? ==> 0 < r.pos <= |es|
    ensures var n := PreferencesPart(r, es); n.Reached? ==> Grows(r.t, n.t)
    ensures var n := DiscardPart(r, es); n.Reached? ==> Grows(r.t, n.t)
  {
    if r.Reached? {
      var p, t := r.pos, r.t;
      var a := PatternSection(es, p, Preferences, t);
      var b := PatternSection(es, p, Discards, t);
      PatternSectionAppends(es, p, Preferences, t);
      PatternSectionAppends(es, p, Discards, t);
      if a.Reached? {
        AddPatternsGrows(Preferences, t, Patterns(es[p..a.pos], Preferences));
      }
      if b.Reached? {
        AddPatternsGrows(Discards, t, Patterns(es[p..b.pos], Discards));
      }
    }
  }

  /** `read` after the tag set (the run `r0`) up to the last optional
      section.  Everything it does keeps the tag ids already given, and
      keeps every id valid. */
  function Sections(es: seq<Event>, r0: Run): (r: Run)
    requires r0.Reached? ==> r0.pos <= |es|
    ensures r.Reached? ==> r0.Reached? && r.pos <= |es| && Grows(r0.t, r.t)
    ensures r.Reached? && WellFormed(r0.t) && ReservedKept(r0.t) ==>
              WellFormed(r.t) && ReservedKept(r.t) && |r.t.arrayTags| >= |Reserved|
  {
    var r1 := Next(r0, es);
    ForbidPartGrows(r1, es);
    var r2 := ForbidPart(r1, es);
    EnforcePartGrows(r2, es);
    var r3 := EnforcePart(r2, es);
    PatternPartsGrow(r3, es);
    var r4 := PreferencesPart(r3, es);
    PatternPartsGrow(r4, es);
    var r5 := DiscardPart(r4, es);
    if r5.Failed? then r5
    else
      GrowsTrans(r0.t, r1.t, r2.t);
      GrowsTrans(r0.t, r2.t, r3.t);
      GrowsTrans(r0.t, r3.t, r4.t);
      GrowsTrans(r0.t, r4.t, r5.t);
      ReservedStay(r0.t, r5.t);
      r5
  }

  /** Tables that keep the tag ids of tables holding the reserved ids hold
      them too, and when well formed they have room for all seven. */
  lemma ReservedStay(t: Tables, u: Tables)
    requires Grows(t, u)
    ensures ReservedKept(t) ==> ReservedKept(u)
    ensures ReservedKept(u) && WellFormed(u) ==> |u.arrayTags| >= |Reserved|
  {
    if ReservedKept(u) && WellFormed(u) {
      assert ReservedTags[6] in u.index && IdOk(u.index[ReservedTags[6]], |u.arrayTags|);
    }
  }

  /** The constants `read` appends, in order. */
  const ConstantNames: seq<string> := ["kMOT", "kDOLLAR", "kBARRA", "kMAS", "kIGNORAR", "kBEGIN", "kUNKNOWN"]

  /** The constant names are distinct. */
  lemma ConstantNamesDistinct()
    ensures forall x, y :: 0 <= x < y < |ConstantNames| ==> ConstantNames[x] != ConstantNames[y]
  {
    assert "kMOT"[1] == 'M' && "kMAS"[2] == 'A' && "kMOT"[2] == 'O';
    assert "kBARRA"[1] == 'B' && "kBEGIN"[2] == 'E' && "kBARRA"[2] == 'A';
    assert "kIGNORAR"[1] == 'I' && "kUNKNOWN"[1] == 'U';
    assert |"kDOLLAR"| == 7 && |"kMOT"| == 4 && |"kBARRA"| == 6 && |"kIGNORAR"| == 8;
  }

  /** Appends the constants from position `i` of `names` on. */
  function AddConstants(t: Tables, names: seq<string>, i: nat): (r: Tables)
    requires i <= |names|
    ensures |r.arrayTags| == |t.arrayTags| + |names| - i
    ensures r == t.(arrayTags := r.arrayTags, constants := r.constants)
    decreases |names| - i
  {
    if i == |names| then t
    else AddConstants(NewConstant(t, names[i]), names, i + 1)
  }

  /** Appending constants only extends array_tags and keeps every id
      valid. */
  lemma {:induction false} ConstantsGrow(t: Tables, names: seq<string>, i: nat)
    requires i <= |names|
    ensures var r := AddConstants(t, names, i); Grows(t, r) && Prefix(t.arrayTags, r.arrayTags)
    decreases |names| - i
  {
    if i < |names| {
      var u := NewConstant(t, names[i]);
      var r := AddConstants(u, names, i + 1);
      ConstantsGrow(u, names, i + 1);
      assert AddConstants(t, names, i) == r;
      assert Grows(t, u);
      GrowsTrans(t, u, r);
      assert r.arrayTags[..|t.arrayTags|] == u.arrayTags[..|t.arrayTags|];
    } else {
      assert Grows(t, t);
    }
  }

  /** The first `i` of `names` have the positions `base` .. `base + i - 1`,
      and those entries of array_tags are their names. */
  predicate Assigned(tags: seq<string>, constants: map<string, int>, names: seq<string>, i: nat, base: nat)
    requires i <= |names|
  {
    && base + i <= |tags|
    && forall q :: 0 <= q < i ==>
         names[q] in constants && constants[names[q]] == base + q && tags[base + q] == names[q]
  }

  /** Appending name `i` at position `base + i` keeps the earlier ones when
      the names are distinct. */
  lemma AssignedStep(t: Tables, names: seq<string>, i: nat, base: nat)
    requires i < |names| && |t.arrayTags| == base + i
    requires forall x, y :: 0 <= x < y < |names| ==> names[x] != names[y]
    requires Assigned(t.arrayTags, t.constants, names, i, base)
    ensures var u := NewConstant(t, names[i]); Assigned(u.arrayTags, u.constants, names, i + 1, base)
  {
    var u := NewConstant(t, names[i]);
    forall q | 0 <= q < i + 1
      ensures names[q] in u.constants && u.constants[names[q]] == base + q
      ensures u.arrayTags[base + q] == names[q]
    {
      if q < i {
        assert u.arrayTags[base + q] == t.arrayTags[base + q];
      }
    }
  }

  /** Each constant is given the position it is appended at, and that entry
      of array_tags is the constant's own name. */
  lemma {:induction false} ConstantsAssigned(t: Tables, names: seq<string>, i: nat, base: nat)
    requires i <= |names| && |t.arrayTags| == base + i
    requires forall x, y :: 0 <= x < y < |names| ==> names[x] != names[y]
    requires Assigned(t.arrayTags, t.constants, names, i, base)
    ensures var r := AddConstants(t, names, i); Assigned(r.arrayTags, r.constants, names, |names|, base)
    decreases |names| - i
  {
    if i < |names| {
      var u := NewConstant(t, names[i]);
      AssignedStep(t, names, i, base);
      ConstantsAssigned(u, names, i + 1, base);
      assert AddConstants(t, names, i) == AddConstants(u, names, i + 1);
    }
  }

  /** The seven constants are the last entries of array_tags, in order,
      and each has its own position as value. */
  predicate ConstantsLast(tags: seq<string>, constants: map<string, int>)
  {
    && |tags| >= |ConstantNames|
    && Assigned(tags, constants, ConstantNames, |ConstantNames|, |tags| - |ConstantNames|)
  }

  lemma ConstantsAtEnd(t: Tables)
    ensures var c := AddConstants(t, ConstantNames, 0);
            |c.arrayTags| == |t.arrayTags| + |ConstantNames| && ConstantsLast(c.arrayTags, c.constants)
  {
    var base := |t.arrayTags|;
    var c := AddConstants(t, ConstantNames, 0);
    ConstantNamesDistinct();
    NoneAssigned(t.arrayTags, t.constants, ConstantNames);
    ConstantsAssigned(t, ConstantNames, 0, base);
    AssignedLast(c.arrayTags, c.constants, base);
  }

  lemma NoneAssigned(tags: seq<string>, constants: map<string, int>, names: seq<string>)
    ensures Assigned(tags, constants, names, 0, |tags|)
  {
  }

  lemma AssignedLast(tags: seq<string>, constants: map<string, int>, base: nat)
    requires |tags| == base + |ConstantNames| && Assigned(tags, constants, ConstantNames, |ConstantNames|, base)
    ensures ConstantsLast(tags, constants)
  {
  }

  /** The patterns `read` adds for the reserved punctuation tags. */
  const Punctuation: seq<string> := ["lpar", "rpar", "lquest", "cm", "sent"]

  /** The pattern-list calls `read` makes for them, with the ids
      clearTagIndex gave those tags. */
  const PunctuationOps: seq<PatternOp> := [
    InsertTags(0, "", "lpar"), InsertTags(1, "", "rpar"), InsertTags(2, "", "lquest"),
    InsertTags(3, "", "cm"), InsertTags(4, "", "sent")]

  /** The reserved tags still have the ids clearTagIndex gave them. */
  predicate ReservedKept(t: Tables)
  {
    forall q :: 0 <= q < |ReservedTags| ==> ReservedTags[q] in t.index && t.index[ReservedTags[q]] == q
  }

  /** Appends a pattern for each reserved punctuation tag from position `i`
      of Punctuation on, looking each tag up in the index. */
  function AddPunctuation(t: Tables, i: nat): Tables
    requires i <= |Punctuation|
    decreases |Punctuation| - i
  {
    if i == |Punctuation| then t
    else
      var own := Lookup(t, Reserved[i]);
      AddPunctuation(own.t.(plist := own.t.plist + [InsertTags(own.id, "", Punctuation[i])]), i + 1)
  }

  /** While the reserved tags keep their ids, the lookups add nothing and
      the patterns appended are PunctuationOps. */
  lemma {:induction false} PunctuationAppends(t: Tables, i: nat)
    requires i <= |Punctuation| && ReservedKept(t)
    ensures AddPunctuation(t, i) == t.(plist := t.plist + PunctuationOps[i..])
    decreases |Punctuation| - i
  {
    if i < |Punctuation| {
      var op := InsertTags(i, "", Punctuation[i]);
      var u := t.(plist := t.plist + [op]);
      ReservedLookup(t, i);
      assert AddPunctuation(t, i) == AddPunctuation(u, i + 1);
      PunctuationAppends(u, i + 1);
      OpsStep(t.plist, i);
    } else {
      assert t.plist + PunctuationOps[i..] == t.plist;
    }
  }

  /** A reserved punctuation tag whose id is kept is found at its position. */
  lemma ReservedLookup(t: Tables, i: nat)
    requires i < |Punctuation| && ReservedKept(t)
    ensures Lookup(t, Reserved[i]) == Looked(t, i)
  {
    ReservedFacts();
  }

  lemma OpsStep(ops: seq<PatternOp>, i: nat)
    requires i < |PunctuationOps|
    ensures ops + [PunctuationOps[i]] + PunctuationOps[i + 1..] == ops + PunctuationOps[i..]
  {
    assert PunctuationOps[i..] == [PunctuationOps[i]] + PunctuationOps[i + 1..];
  }

  /** The punctuation patterns keep every tag id valid. */
  lemma {:induction false} PunctuationGrows(t: Tables, i: nat)
    requires i <= |Punctuation|
    ensures Grows(t, AddPunctuation(t, i))
    decreases |Punctuation| - i
  {
    if i < |Punctuation| {
      var own := Lookup(t, Reserved[i]);
      LookupGrows(t, Reserved[i]);
      var u := own.t.(plist := own.t.plist + [InsertTags(own.id, "", Punctuation[i])]);
      AddPatternOpGrows(own.t, InsertTags(own.id, "", Punctuation[i]));
      PunctuationGrows(u, i + 1);
      GrowsTrans(t, own.t, u);
      GrowsTrans(t, u, AddPunctuation(u, i + 1));
      assert AddPunctuation(t, i) == AddPunctuation(u, i + 1);
    } else {
      assert Grows(t, t);
    }
  }

  /** `read` after the last section: the constants, the punctuation patterns
      and the call that builds the pattern transducer. */
  function Finish(t: Tables): Tables
  {
    var d := AddPunctuation(AddConstants(t, ConstantNames, 0), 0);
    d.(plist := d.plist + [BuildTransducer])
  }

  /** From well-formed tables that keep the reserved ids, the seven
      constants become the last entries of array_tags in order, each with
      its own position as value, and the pattern list ends with the
      punctuation patterns and the build call; every id stays valid. */
  lemma FinishResult(t: Tables)
    ensures var r := Finish(t);
            WellFormed(t) && ReservedKept(t) ==>
              && WellFormed(r) && ReservedKept(r)
              && |r.arrayTags| == |t.arrayTags| + |ConstantNames|
              && ConstantsLast(r.arrayTags, r.constants)
              && r.plist == t.plist + (PunctuationOps + [BuildTransducer])
  {
    var c := AddConstants(t, ConstantNames, 0);
    ConstantsAtEnd(t);
    ConstantsGrow(t, ConstantNames, 0);
    var d := AddPunctuation(c, 0);
    PunctuationGrows(c, 0);
    var f := d.(plist := d.plist + [BuildTransducer]);
    AddPatternOpGrows(d, BuildTransducer);
    GrowsTrans(t, c, d);
    GrowsTrans(t, d, f);
    if WellFormed(t) && ReservedKept(t) {
      ReservedStay(t, c);
      ReservedStay(t, f);
      PunctuationAppends(c, 0);
      assert d == c.(plist := c.plist + PunctuationOps);
      assert f.arrayTags == c.arrayTags && f.constants == c.constants;
      assert c.plist == t.plist;
      AppendAssoc(t.plist, PunctuationOps, [BuildTransducer]);
    }
  }

  lemma AppendAssoc<T>(xs: seq<T>, ys: seq<T>, zs: seq<T>)
    ensures xs + ys + zs == xs + (ys + zs)
  {
  }

  lemma SuffixOf<T>(xs: seq<T>, ys: seq<T>)
    ensures (xs + ys)[|xs + ys| - |ys|..] == ys
  {
  }

  /** The tables clearTagIndex leaves for a reader whose pattern list is
      still empty are well formed and hold the reserved ids. */
  lemma ClearedFacts(t: Tables)
    requires t.plist == []
    ensures var t0 := ClearTagIndex(t.(openClass := {}, forbid := [], enforce := []));
            WellFormed(t0) && ReservedKept(t0)
  {
    ReservedFacts();
  }

  /** What a successful `read` leaves: every tag id names an entry of
      array_tags, the reserved tags have the ids 0 .. 6, the constants are
      the last seven entries of array_tags, and the pattern list ends with
      the punctuation patterns and the build call. */
  predicate ReadOutcome(u: Tables)
  {
    var n := |u.arrayTags|;
    && WellFormed(u) && ReservedKept(u)
    && n >= |Reserved| + |ConstantNames|
    && ConstantsLast(u.arrayTags, u.constants)
    && |u.plist| >= |PunctuationOps| + 1
    && u.plist[|u.plist| - |PunctuationOps| - 1..] == PunctuationOps + [BuildTransducer]
  }

  /** The end of `read` once the sections are read. */
  function Finished(r: Run): (f: Run)
    ensures f.Reached? <==> r.Reached?
    ensures r.Reached? && WellFormed(r.t) && ReservedKept(r.t) && |r.t.arrayTags| >= |Reserved| ==>
              ReadOutcome(f.t)
  {
    match r
    case Failed => Failed
    case Reached(q, u) =>
      FinishResult(u);
      SuffixOf(u.plist, PunctuationOps + [BuildTransducer]);
      Reached(q, Finish(u))
  }

  /** `read`: the open class, forbid rules, tag index and enforce rules are
      cleared (the preferences, discards, patterns and constants are not),
      the tag set is read, then the optional forbid, enforce-rules,
      preferences and discard-on-ambiguity sections in that order, and
      last the constants and the punctuation patterns. */
  function ReadTsx(es: seq<Event>, t: Tables): Run
  {
    ReadCleared(es, ClearTagIndex(t.(openClass := {}, forbid := [], enforce := [])))
  }

  /** `read` once its tables are cleared. */
  function ReadCleared(es: seq<Event>, t0: Tables): Run
  {
    Finished(Sections(es, Tagset(es, 0, t0)))
  }

  /** For a reader whose pattern list is still empty, a successful read
      leaves every tag id naming an entry of array_tags, the reserved tags
      with the ids 0 .. 6, the constants as the last seven entries of
      array_tags, and the pattern list ending with the punctuation patterns
      and the build call. */
  lemma ReadTsxResult(es: seq<Event>, t: Tables)
    ensures var r := ReadTsx(es, t);
            t.plist == [] && r.Reached? ==> ReadOutcome(r.t)
  {
    if t.plist == [] {
      ClearedFacts(t);
      ReadFrom(es, ClearTagIndex(t.(openClass := {}, forbid := [], enforce := [])));
    }
  }

  /** `read` after clearTagIndex, from well-formed tables holding the
      reserved ids. */
  lemma ReadFrom(es: seq<Event>, t0: Tables)
    requires WellFormed(t0) && ReservedKept(t0)
    ensures var r := ReadCleared(es, t0);
            r.Reached? ==> ReadOutcome(r.t)
  {
    var r0 := Tagset(es, 0, t0);
    if r0.Reached? {
      ReservedStay(t0, r0.t);
      FinishedSections(es, r0);
    }
  }

  /** What the end of `read` leaves after a tag set that left well-formed
      tables holding the reserved ids. */
  lemma FinishedSections(es: seq<Event>, r0: Run)
    requires r0.Reached? && r0.pos <= |es| && WellFormed(r0.t) && ReservedKept(r0.t)
    ensures var r := Finished(Sections(es, r0));
            r.Reached? ==> ReadOutcome(r.t)
  {
  }
}
