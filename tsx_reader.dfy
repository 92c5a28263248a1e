/** TSXReaderTrigram: the reader that fills a TaggerDataTrigram's tag
    table, rules and pattern list from a tag-set description.  The XML
    reader is the sequence `doc` of its events and the number `pos` of
    events read so far; every method updates the tagger data in place and
    is proved to leave it as the matching function of TsxEvents says. */
module TsxReader {
  import opened Common
  import opened TaggerRecords
  import opened TaggerData
  import opened TsxEvents

  /** How one pass of a section's loop ends: the loop goes on, the
      section's end tag was read, or the event is a parse error. */
  datatype Pass = More | Closed | Broken

  /** `pass` reports the move `m` of the matching function. */
  predicate Matches(pass: Pass, m: Move)
  {
    match m
    case Go(_) => pass == More
    case Done(_) => pass == Closed
    case Stop => pass == Broken
  }

  class TsxReaderTrigram {
    /** The tagger data the reader fills (the source's `tdata` member). */
    const tdata: TaggerDataTrigram
    /** The document's events, as the XML reader would deliver them. */
    const doc: seq<Event>
    /** How many events `step` has read. */
    var pos: nat

    /** The tables of `tdata` the reader works on. */
    ghost function Snap(): Tables
      reads tdata
    {
      Tables(tdata.openClass, tdata.forbidRules, tdata.tagIndex, tdata.arrayTags,
             tdata.enforceRules, tdata.preferRules, tdata.discard, tdata.plist, tdata.constants)
    }

    constructor (d: seq<Event>)
      ensures fresh(tdata) && doc == d && pos == 0
      ensures Snap() == Tables({}, [], map[], [], [], [], [], [], map[])
    {
      tdata := new TaggerDataTrigram();
      doc := d;
      pos := 0;
    }

    /** `step`: reads the next event; at the end of the document the source
        reports "unexpected EOF" and exits. */
    method Step() returns (ok: bool)
      requires pos <= |doc|
      modifies this`pos
      ensures pos <= |doc|
      ensures ok <==> old(pos) < |doc|
      ensures pos == if ok then old(pos) + 1 else old(pos)
    {
      if pos < |doc| {
        pos := pos + 1;
        ok := true;
      } else {
        ok := false;
      }
    }

    /** `step()` followed by `while (name == "#text" || name == "#comment")
        step()`: the reader stops on the next significant event. */
    method Advance() returns (ok: bool)
      requires pos <= |doc|
      modifies this`pos
      ensures pos <= |doc|
      ensures var n := NextSignificant(doc, old(pos)); ok == n.Some? && (ok ==> pos == n.value)
    {
      ghost var goal := NextSignificant(doc, pos);
      ok := Step();
      while ok && Blank(doc[pos - 1])
        invariant pos <= |doc|
        invariant ok ==> 0 < pos && NextSignificant(doc, pos - 1) == goal
        invariant !ok ==> goal.None?
        decreases |doc| - pos, ok
      {
        ok := Step();
      }
    }

    /** `(*tag_index)["TAG_" + tag]`: the tag's id, a missing key being
        added with the id 0. */
    method TagId(tag: string) returns (id: int)
      modifies tdata`tagIndex
      ensures var l := Lookup(old(Snap()), tag); Snap() == l.t && id == l.id
    {
      if Key(tag) !in tdata.tagIndex {
        tdata.tagIndex := tdata.tagIndex[Key(tag) := 0];
      }
      id := tdata.tagIndex[Key(tag)];
    }

    /** `newTagIndex`: a tag already indexed is a parse error; otherwise
        "TAG_" + tag is appended to array_tags and indexed by its position. */
    method NewTagIndex(tag: string) returns (ok: bool)
      modifies tdata`tagIndex, tdata`arrayTags
      ensures var r := TsxEvents.NewTagIndex(old(Snap()), tag);
              ok == r.Some? && (ok ==> Snap() == r.value)
    {
      if Key(tag) in tdata.tagIndex {
        return false;
      }
      tdata.arrayTags := tdata.arrayTags + [Key(tag)];
      tdata.tagIndex := tdata.tagIndex[Key(tag) := |tdata.arrayTags| - 1];
      ok := true;
    }

    /** `newDefTag`: as `newTagIndex`, with the bare name in array_tags. */
    method NewDefTag(tag: string) returns (ok: bool)
      modifies tdata`tagIndex, tdata`arrayTags
      ensures var r := TsxEvents.NewDefTag(old(Snap()), tag);
              ok == r.Some? && (ok ==> Snap() == r.value)
    {
      if Key(tag) in tdata.tagIndex {
        return false;
      }
      tdata.arrayTags := tdata.arrayTags + [tag];
      tdata.tagIndex := tdata.tagIndex[Key(tag) := |tdata.arrayTags| - 1];
      ok := true;
    }

    /** `newConstant`: the constant gets the size of array_tags and is
        appended to it. */
    method NewConstant(c: string)
      modifies tdata`constants, tdata`arrayTags
      ensures Snap() == TsxEvents.NewConstant(old(Snap()), c)
    {
      tdata.constants := tdata.constants[c := |tdata.arrayTags|];
      tdata.arrayTags := tdata.arrayTags + [c];
    }

    /** `clearTagIndex`: both tables emptied, then newTagIndex on each of
        the seven reserved names in order (the source's seven calls). */
    method ClearTagIndex()
      modifies tdata`tagIndex, tdata`arrayTags
      ensures Snap() == TsxEvents.ClearTagIndex(old(Snap()))
    {
      ghost var t0 := Snap();
      tdata.tagIndex, tdata.arrayTags := map[], [];
      ghost var goal := NewTagsFrom(Snap(), Reserved, 0);
      ReservedInTurn(t0);
      for i := 0 to |Reserved|
        invariant NewTagsFrom(Snap(), Reserved, i) == goal
      {
        var ok := NewTagIndex(Reserved[i]);
      }
    }

    /** One pass of procPreferences' loop on the event `e`: an open
        `prefer` tag appends its rewritten `tags` attribute. */
    method PreferEvent(e: Event) returns (pass: Pass)
      modifies tdata`preferRules
      ensures var m := PatternEvent(Preferences, e, old(Snap()));
              Matches(pass, m) && (m.Go? ==> Snap() == m.t) && (!m.Go? ==> Snap() == old(Snap()))
    {
      if e.name == PreferNode || Blank(e) {
        if e.name == PreferNode && !e.isEnd {
          tdata.preferRules := tdata.preferRules + [TagPattern(Attr(e, "tags"))];
        }
        pass := More;
      } else if Closes(e, PreferencesNode) {
        pass := Closed;
      } else {
        pass := Broken;
      }
    }

    /** `procPreferences`: prefer tags up to `</preferences>`. */
    method ProcPreferences() returns (ok: bool)
      requires pos <= |doc|
      modifies this`pos, tdata`preferRules
      ensures pos <= |doc|
      ensures var r := PatternSection(doc, old(pos), Preferences, old(Snap()));
              ok == r.Reached? && (ok ==> pos == r.pos && Snap() == r.t)
    {
      ghost var goal := PatternSection(doc, pos, Preferences, Snap());
      while !Closes(Current(doc, pos), PreferencesNode)
        invariant pos <= |doc|
        invariant PatternSection(doc, pos, Preferences, Snap()) == goal
        decreases |doc| - pos
      {
        ok := Step();
        if !ok {
          return;
        }
        var pass := PreferEvent(doc[pos - 1]);
        if pass == Closed {
          return;
        } else if pass == Broken {
          return false;
        }
      }
      ok := true;
    }

    /** One pass of procDiscardOnAmbiguity's loop on the event `e`: an
        open `discard` tag adds its rewritten `tags` attribute through
        `addDiscard`. */
    method DiscardEvent(e: Event) returns (pass: Pass)
      modifies tdata`discard
      ensures var m := PatternEvent(Discards, e, old(Snap()));
              Matches(pass, m) && (m.Go? ==> Snap() == m.t) && (!m.Go? ==> Snap() == old(Snap()))
    {
      if e.name == DiscardNode || Blank(e) {
        if e.name == DiscardNode && !e.isEnd {
          tdata.AddDiscard(TagPattern(Attr(e, "tags")));
        }
        pass := More;
      } else if Closes(e, DiscardOnAmbiguityNode) {
        pass := Closed;
      } else {
        pass := Broken;
      }
    }

    /** `procDiscardOnAmbiguity`: discard tags up to
        `</discard-on-ambiguity>`. */
    method ProcDiscardOnAmbiguity() returns (ok: bool)
      requires pos <= |doc|
      modifies this`pos, tdata`discard
      ensures pos <= |doc|
      ensures var r := PatternSection(doc, old(pos), Discards, old(Snap()));
              ok == r.Reached? && (ok ==> pos == r.pos && Snap() == r.t)
    {
      ghost var goal := PatternSection(doc, pos, Discards, Snap());
      while !Closes(Current(doc, pos), DiscardOnAmbiguityNode)
        invariant pos <= |doc|
        invariant PatternSection(doc, pos, Discards, Snap()) == goal
        decreases |doc| - pos
      {
        ok := Step();
        if !ok {
          return;
        }
        var pass := DiscardEvent(doc[pos - 1]);
        if pass == Closed {
          return;
        } else if pass == Broken {
          return false;
        }
      }
      ok := true;
    }

    /** One pass of procEnforce's loop on the event `e`, with the rule
        `aux` being built and the counter of label sets. */
    method EnforceStep(e: Event, aux: EnforceRule, count: int) returns (pass: Pass, aux': EnforceRule, count': int)
      modifies tdata`enforceRules, tdata`tagIndex
      ensures var m := EnforceEvent(e, aux, count, old(Snap()));
              && (m.Carry? <==> pass == More) && (m.EnforceDone? <==> pass == Closed)
              && (m.Carry? ==> aux' == m.aux && count' == m.count && Snap() == m.t)
              && (m.EnforceDone? ==> Snap() == old(Snap()))
    {
      aux', count', pass := aux, count, More;
      if e.name == EnforceAfterNode {
        if !e.isEnd {
          var id := TagId(Attr(e, "label"));
          aux' := aux.(tagi := id);
        } else {
          tdata.enforceRules := tdata.enforceRules + [aux];
          aux' := aux.(tagsj := []);
        }
      } else if e.name == LabelSetNode {
        if !e.isEnd {
          count' := count + 1;
        }
      } else if e.name == LabelItemNode && count == 1 {
        if !e.isEnd {
          var id := TagId(Attr(e, "label"));
          aux' := aux.(tagsj := aux.tagsj + [id]);
        }
      } else if e.name == LabelItemNode && count == 2 {
        if !e.isEnd {
          var id := TagId(Attr(e, "label"));
          aux' := aux.(tagsk := aux.tagsk + [id]);
        }
      } else if Blank(e) {
      } else if Closes(e, EnforceRulesNode) {
        pass := Closed;
      } else {
        pass := Broken;
      }
    }

    /** `procEnforce`: enforce-after rules up to `</enforce-rules>`; the
        rule `aux` starts with tagi 0 and the counter of label sets is
        never reset. */
    method ProcEnforce() returns (ok: bool)
      requires pos <= |doc|
      modifies this`pos, tdata`enforceRules, tdata`tagIndex
      ensures pos <= |doc|
      ensures var r := EnforceSection(doc, old(pos), NoRule, 0, old(Snap()));
              ok == r.Reached? && (ok ==> pos == r.pos && Snap() == r.t)
    {
      var count := 0;
      var aux := NoRule;
      ghost var goal := EnforceSection(doc, pos, aux, count, Snap());
      while !Closes(Current(doc, pos), EnforceRulesNode)
        invariant pos <= |doc|
        invariant EnforceSection(doc, pos, aux, count, Snap()) == goal
        decreases |doc| - pos
      {
        ok := Step();
        if !ok {
          return;
        }
        var pass;
        pass, aux, count := EnforceStep(doc[pos - 1], aux, count);
        if pass == Closed {
          return;
        } else if pass == Broken {
          return false;
        }
      }
      ok := true;
    }

    /** The reads procLabelSequence repeats for its first two items: step
        past text and comments, demand a `label-item`, and look up the id
        of its label. */
    method LabelItem() returns (ok: bool, id: int)
      requires pos <= |doc|
      modifies this`pos, tdata`tagIndex
      ensures pos <= |doc|
      ensures var r := ReadLabelItem(doc, old(pos), old(Snap()));
              ok == r.Some? && (ok ==> pos == r.value.pos && id == r.value.id && Snap() == r.value.t)
    {
      ok := Advance();
      if !ok || doc[pos - 1].name != LabelItemNode {
        return false, 0;
      }
      id := TagId(Attr(doc[pos - 1], "label"));
    }

    /** `procLabelSequence`: two label items and an optional third, each
        after any text or comments, make one forbid rule; without a third
        item its tagk is NO_TAGK. */
    method ProcLabelSequence() returns (ok: bool)
      requires pos <= |doc|
      modifies this`pos, tdata`forbidRules, tdata`tagIndex
      ensures pos <= |doc|
      ensures var r := LabelSequence(doc, old(pos), old(Snap()));
              ok == r.Reached? && (ok ==> pos == r.pos && Snap() == r.t)
    {
      var tagi, tagj;
      ok, tagi := LabelItem();
      if !ok {
        return;
      }
      ok, tagj := LabelItem();
      if !ok {
        return;
      }
      ok := LabelSequenceEnd(tagi, tagj);
    }

    /** The end of procLabelSequence: an optional third label item gives
        tagk (NO_TAGK without one), and the rule is pushed. */
    method LabelSequenceEnd(tagi: int, tagj: int) returns (ok: bool)
      requires pos <= |doc|
      modifies this`pos, tdata`forbidRules, tdata`tagIndex
      ensures pos <= |doc|
      ensures var r := TsxEvents.LabelSequenceEnd(doc, old(pos), tagi, tagj, old(Snap()));
              ok == r.Reached? && (ok ==> pos == r.pos && Snap() == r.t)
    {
      ok := Advance();
      if !ok {
        return;
      }
      ok := RuleAt(tagi, tagj);
    }

    /** The rule of a label sequence, on the event after its second item. */
    method RuleAt(tagi: int, tagj: int) returns (ok: bool)
      requires 0 < pos <= |doc|
      modifies this`pos, tdata`forbidRules, tdata`tagIndex
      ensures pos <= |doc|
      ensures var r := TsxEvents.RuleAt(doc, old(pos), tagi, tagj, old(Snap()));
              ok == r.Reached? && (ok ==> pos == r.pos && Snap() == r.t)
    {
      var tagk := NO_TAGK;
      if doc[pos - 1].name == LabelItemNode {
        tagk := TagId(Attr(doc[pos - 1], "label"));
        ok := Step();
        if !ok {
          return;
        }
      }
      tdata.forbidRules := tdata.forbidRules + [ForbidRule(tagi, tagj, tagk)];
      ok := true;
    }

    /** `procForbid` with the end tag of a label sequence stepped over (as
        written, the loop stands on it for ever): label sequences up to
        `</forbid>`. */
    method ProcForbid() returns (ok: bool)
      requires pos <= |doc|
      modifies this`pos, tdata`forbidRules, tdata`tagIndex
      ensures pos <= |doc|
      ensures ok == (old(pos) < |doc| && ForbidSection(doc, old(pos) + 1, old(Snap())).Reached?)
      ensures ok ==> var r := ForbidSection(doc, old(pos) + 1, old(Snap())); pos == r.pos && Snap() == r.t
    {
      ok := Step();
      if !ok {
        return;
      }
      ghost var goal := ForbidSection(doc, pos, Snap());
      while !Closes(Current(doc, pos), ForbidNode)
        invariant pos <= |doc|
        invariant ForbidSection(doc, pos, Snap()) == goal
        decreases |doc| - pos
      {
        var e := doc[pos - 1];
        if e.name == LabelSequenceNode && !e.isEnd {
          ok := ProcLabelSequence();
        } else if e.name == LabelSequenceNode || Blank(e) {
          ok := Step();
        } else {
          ok := false;
        }
        if !ok {
          return;
        }
      }
    }

    /** The start of procDefLabel and procDefMult on the open tag `e`:
        newDefTag on its name, and the new id joins the open class unless
        the `closed` attribute is exactly "true". */
    method Define(e: Event) returns (ok: bool)
      modifies tdata`tagIndex, tdata`arrayTags, tdata`openClass
      ensures var r := TsxEvents.Define(e, old(Snap()));
              ok == r.Some? && (ok ==> Snap() == r.value)
    {
      var name := Attr(e, "name");
      ok := NewDefTag(name);
      if ok && Attr(e, "closed") != "true" {
        tdata.openClass := tdata.openClass + {tdata.tagIndex[Key(name)]};
      }
    }

    /** `plist->insert(id of name, lemma, tags)` for a `tags-item`. */
    method InsertTagsItem(e: Event, name: string)
      modifies tdata`tagIndex, tdata`plist
      ensures Snap() == TagsItem(e, name, old(Snap()))
    {
      var own := TagId(name);
      tdata.plist := tdata.plist + [InsertTags(own, Attr(e, "lemma"), Attr(e, "tags"))];
    }

    /** `plist->insert(id of name, id of label)` for a `label-item`. */
    method InsertLabelItem(e: Event, name: string)
      modifies tdata`tagIndex, tdata`plist
      ensures Snap() == TsxEvents.LabelItem(e, name, old(Snap()))
    {
      var own := TagId(name);
      var lab := TagId(Attr(e, "label"));
      tdata.plist := tdata.plist + [InsertLabel(own, lab)];
    }

    /** One pass of procDefLabel's loop on the event `e`. */
    method DefLabelStep(e: Event, name: string) returns (pass: Pass)
      modifies tdata`tagIndex, tdata`plist
      ensures var m := DefLabelEvent(e, name, old(Snap()));
              Matches(pass, m) && (m.Go? ==> Snap() == m.t) && (!m.Go? ==> Snap() == old(Snap()))
    {
      if e.name == TagsItemNode {
        if !e.isEnd {
          InsertTagsItem(e, name);
        }
        pass := More;
      } else if e.name == DefLabelNode {
        pass := Closed;
      } else if Blank(e) {
        pass := More;
      } else {
        pass := Broken;
      }
    }

    /** `procDefLabel`, entered on a `def-label` open tag: the label is
        defined, then its tags items up to the next `def-label` event. */
    method ProcDefLabel() returns (ok: bool)
      requires 0 < pos <= |doc|
      modifies this`pos, tdata`tagIndex, tdata`arrayTags, tdata`openClass, tdata`plist
      ensures pos <= |doc|
      ensures var r := DefLabel(doc, old(pos), old(Snap()));
              ok == r.Reached? && (ok ==> pos == r.pos && Snap() == r.t)
    {
      var e := doc[pos - 1];
      var name := Attr(e, "name");
      ok := Define(e);
      if !ok {
        return;
      }
      ghost var goal := DefLabelItems(doc, pos, name, Snap());
      while !Closes(Current(doc, pos), DefLabelNode)
        invariant pos <= |doc|
        invariant DefLabelItems(doc, pos, name, Snap()) == goal
        decreases |doc| - pos
      {
        ok := Step();
        if !ok {
          return;
        }
        var pass := DefLabelStep(doc[pos - 1], name);
        if pass == Closed {
          return;
        } else if pass == Broken {
          return false;
        }
      }
      ok := true;
    }

    /** One pass of procDefMult's inner loop on the event `e`: anything
        but a `sequence` event is skipped or inserted. */
    method SequenceStep(e: Event, name: string) returns (pass: Pass)
      modifies tdata`tagIndex, tdata`plist
      ensures var m := SequenceEvent(e, name, old(Snap()));
              Matches(pass, m) && (m.Go? ==> Snap() == m.t) && (!m.Go? ==> Snap() == old(Snap()))
    {
      pass := More;
      if e.name == LabelItemNode {
        if !e.isEnd {
          InsertLabelItem(e, name);
        }
      } else if e.name == TagsItemNode {
        if !e.isEnd {
          InsertTagsItem(e, name);
        }
      } else if e.name == SequenceNode {
        pass := Closed;
      }
    }

    /** procDefMult's inner loop, up to the next `sequence` event. */
    method SequenceLoop(name: string) returns (ok: bool)
      requires pos <= |doc|
      modifies this`pos, tdata`tagIndex, tdata`plist
      ensures pos <= |doc|
      ensures var r := SequenceItems(doc, old(pos), name, old(Snap()));
              ok == r.Reached? && (ok ==> pos == r.pos && Snap() == r.t)
    {
      ghost var goal := SequenceItems(doc, pos, name, Snap());
      while !Closes(Current(doc, pos), SequenceNode)
        invariant pos <= |doc|
        invariant SequenceItems(doc, pos, name, Snap()) == goal
        decreases |doc| - pos
      {
        ok := Step();
        if !ok {
          return;
        }
        var pass := SequenceStep(doc[pos - 1], name);
        if pass == Closed {
          return;
        }
      }
      ok := true;
    }

    /** An open `sequence`: beginSequence, the inner loop, endSequence. */
    method SequenceBlock(name: string) returns (ok: bool)
      requires pos <= |doc|
      modifies this`pos, tdata`tagIndex, tdata`plist
      ensures pos <= |doc|
      ensures var r := TsxEvents.SequenceBlock(doc, old(pos), name, old(Snap()));
              ok == r.Reached? && (ok ==> pos == r.pos && Snap() == r.t)
    {
      tdata.plist := tdata.plist + [BeginSequence];
      ok := SequenceLoop(name);
      if !ok {
        return;
      }
      tdata.plist := tdata.plist + [EndSequence];
    }

    /** One pass of procDefMult's outer loop: an open `sequence` runs the
        inner loop between beginSequence and endSequence. */
    method DefMultPass(name: string) returns (ok: bool)
      requires pos <= |doc|
      modifies this`pos, tdata`tagIndex, tdata`plist
      ensures pos <= |doc|
      ensures var r := TsxEvents.DefMultPass(doc, old(pos), name, old(Snap()));
              ok == r.Reached? && (ok ==> pos == r.pos && Snap() == r.t)
    {
      ok := Step();
      if !ok {
        return;
      }
      var e := doc[pos - 1];
      if e.name == SequenceNode && !e.isEnd {
        ok := SequenceBlock(name);
      } else if !(Blank(e) || e.name == SequenceNode || e.name == DefMultNode) {
        ok := false;
      }
    }

    /** `procDefMult`, entered on a `def-mult` open tag: the label is
        defined, then its sequences up to `</def-mult>`. */
    method ProcDefMult() returns (ok: bool)
      requires 0 < pos <= |doc|
      modifies this`pos, tdata`tagIndex, tdata`arrayTags, tdata`openClass, tdata`plist
      ensures pos <= |doc|
      ensures var r := DefMult(doc, old(pos), old(Snap()));
              ok == r.Reached? && (ok ==> pos == r.pos && Snap() == r.t)
    {
      var e := doc[pos - 1];
      var name := Attr(e, "name");
      ok := Define(e);
      if !ok {
        return;
      }
      ghost var goal := DefMultItems(doc, pos, name, Snap());
      while !Closes(Current(doc, pos), DefMultNode)
        invariant pos <= |doc|
        invariant DefMultItems(doc, pos, name, Snap()) == goal
        decreases |doc| - pos
      {
        ok := DefMultPass(name);
        if !ok {
          return;
        }
      }
      ok := true;
    }

    /** procTagset's first loop, up to the `tagset` open tag. */
    method TagsetOpen() returns (ok: bool)
      requires pos <= |doc|
      modifies this`pos
      ensures pos <= |doc|
      ensures var r := TsxEvents.TagsetOpen(doc, old(pos)); ok == r.Some? && (ok ==> pos == r.value)
    {
      ghost var goal := TsxEvents.TagsetOpen(doc, pos);
      while Current(doc, pos).isEnd || Current(doc, pos).name != TagsetNode
        invariant pos <= |doc|
        invariant TsxEvents.TagsetOpen(doc, pos) == goal
        decreases |doc| - pos
      {
        ok := Step();
        if !ok {
          return;
        }
        var n := doc[pos - 1].name;
        if n != TextNode && n != TaggerNode && n != TagsetNode {
          return false;
        }
      }
      ok := true;
    }

    /** One pass of procTagset's second loop. */
    method TagsetPass() returns (ok: bool)
      requires pos <= |doc|
      modifies this`pos, tdata`tagIndex, tdata`arrayTags, tdata`openClass, tdata`plist
      ensures pos <= |doc|
      ensures var r := TsxEvents.TagsetPass(doc, old(pos), old(Snap()));
              ok == r.Reached? && (ok ==> pos == r.pos && Snap() == r.t)
    {
      ok := Step();
      if !ok {
        return;
      }
      var e := doc[pos - 1];
      if e.name == DefLabelNode && !e.isEnd {
        ok := ProcDefLabel();
      } else if e.name == DefMultNode && !e.isEnd {
        ok := ProcDefMult();
      } else if !(e.name == DefLabelNode || e.name == DefMultNode || Blank(e) || e.name == TagsetNode) {
        ok := false;
      }
    }

    /** `procTagset`: the `tagset` open tag, then label definitions up to
        `</tagset>`. */
    method ProcTagset() returns (ok: bool)
      requires pos <= |doc|
      modifies this`pos, tdata`tagIndex, tdata`arrayTags, tdata`openClass, tdata`plist
      ensures pos <= |doc|
      ensures var r := Tagset(doc, old(pos), old(Snap()));
              ok == r.Reached? && (ok ==> pos == r.pos && Snap() == r.t)
    {
      ok := TagsetOpen();
      if !ok {
        return;
      }
      ghost var goal := TagsetBody(doc, pos, Snap());
      while !Closes(Current(doc, pos), TagsetNode)
        invariant pos <= |doc|
        invariant TagsetBody(doc, pos, Snap()) == goal
        decreases |doc| - pos
      {
        ok := TagsetPass();
        if !ok {
          return;
        }
      }
      ok := true;
    }

    /** `if (name == "forbid") { procForbid(); step(); ... }` in `read`. */
    method ForbidPart() returns (ok: bool)
      requires 0 < pos <= |doc|
      modifies this`pos, tdata`forbidRules, tdata`tagIndex
      ensures pos <= |doc|
      ensures var r := TsxEvents.ForbidPart(Reached(old(pos), old(Snap())), doc);
              ok == r.Reached? && (ok ==> pos == r.pos && Snap() == r.t)
    {
      if doc[pos - 1].name != ForbidNode {
        return true;
      }
      ok := ProcForbid();
      if !ok {
        return;
      }
      ok := Advance();
    }

    /** The optional enforce-rules section of `read`. */
    method EnforcePart() returns (ok: bool)
      requires 0 < pos <= |doc|
      modifies this`pos, tdata`enforceRules, tdata`tagIndex
      ensures pos <= |doc|
      ensures var r := TsxEvents.EnforcePart(Reached(old(pos), old(Snap())), doc);
              ok == r.Reached? && (ok ==> pos == r.pos && Snap() == r.t)
    {
      if doc[pos - 1].name != EnforceRulesNode {
        return true;
      }
      ok := ProcEnforce();
      if !ok {
        return;
      }
      ok := Advance();
    }

    /** The optional preferences section of `read`. */
    method PreferencesPart() returns (ok: bool)
      requires 0 < pos <= |doc|
      modifies this`pos, tdata`preferRules
      ensures pos <= |doc|
      ensures var r := TsxEvents.PreferencesPart(Reached(old(pos), old(Snap())), doc);
              ok == r.Reached? && (ok ==> pos == r.pos && Snap() == r.t)
    {
      if doc[pos - 1].name != PreferencesNode {
        return true;
      }
      ok := ProcPreferences();
      if !ok {
        return;
      }
      ok := Advance();
    }

    /** The optional discard-on-ambiguity section of `read`, entered only
        on its open tag. */
    method DiscardPart() returns (ok: bool)
      requires 0 < pos <= |doc|
      modifies this`pos, tdata`discard
      ensures pos <= |doc|
      ensures var r := TsxEvents.DiscardPart(Reached(old(pos), old(Snap())), doc);
              ok == r.Reached? && (ok ==> pos == r.pos && Snap() == r.t)
    {
      if doc[pos - 1].name != DiscardOnAmbiguityNode || doc[pos - 1].isEnd {
        return true;
      }
      ok := ProcDiscardOnAmbiguity();
    }

    /** `read` from the end of the tag set to the last optional section. */
    method ReadSections() returns (ok: bool)
      requires pos <= |doc|
      modifies this`pos, tdata`forbidRules, tdata`tagIndex, tdata`enforceRules, tdata`preferRules, tdata`discard
      ensures pos <= |doc|
      ensures var r := Sections(doc, Reached(old(pos), old(Snap())));
              ok == r.Reached? && (ok ==> pos == r.pos && Snap() == r.t)
    {
      ok := Advance();
      if !ok {
        return;
      }
      ok := ForbidPart();
      if !ok {
        return;
      }
      ok := EnforcePart();
      if !ok {
        return;
      }
      ok := PreferencesPart();
      if !ok {
        return;
      }
      ok := DiscardPart();
    }

    /** The seven `newConstant` calls at the end of `read`, in order. */
    method NewConstants()
      modifies tdata`constants, tdata`arrayTags
      ensures Snap() == AddConstants(old(Snap()), ConstantNames, 0)
    {
      ghost var goal := AddConstants(Snap(), ConstantNames, 0);
      for i := 0 to |ConstantNames|
        invariant AddConstants(Snap(), ConstantNames, i) == goal
      {
        NewConstant(ConstantNames[i]);
      }
    }

    /** The five punctuation patterns at the end of `read`, each looked up
        by its reserved tag. */
    method PunctuationPatterns()
      modifies tdata`tagIndex, tdata`plist
      ensures Snap() == AddPunctuation(old(Snap()), 0)
    {
      ghost var goal := AddPunctuation(Snap(), 0);
      for i := 0 to |Punctuation|
        invariant AddPunctuation(Snap(), i) == goal
      {
        var id := TagId(Reserved[i]);
        tdata.plist := tdata.plist + [InsertTags(id, "", Punctuation[i])];
      }
    }

    /** The end of `read`: the constants, the punctuation patterns and
        buildTransducer. */
    method Finish()
      modifies tdata`constants, tdata`arrayTags, tdata`tagIndex, tdata`plist
      ensures Snap() == TsxEvents.Finish(old(Snap()))
    {
      NewConstants();
      PunctuationPatterns();
      tdata.plist := tdata.plist + [BuildTransducer];
    }

    /** The start of `read`: the open class and the forbid rules are
        cleared, then clearTagIndex, then the enforce rules are cleared. */
    method Clear()
      modifies tdata`openClass, tdata`forbidRules, tdata`tagIndex, tdata`arrayTags, tdata`enforceRules
      ensures Snap() == TsxEvents.ClearTagIndex(old(Snap()).(openClass := {}, forbid := [], enforce := []))
    {
      tdata.openClass := {};
      tdata.forbidRules := [];
      ClearTagIndex();
      tdata.enforceRules := [];
    }

    /** `read`: the document is read from its first event. */
    method Read() returns (ok: bool)
      modifies this`pos, tdata`openClass, tdata`forbidRules, tdata`tagIndex, tdata`arrayTags
      modifies tdata`enforceRules, tdata`preferRules, tdata`discard, tdata`plist, tdata`constants
      ensures var r := ReadTsx(doc, old(Snap()));
              ok == r.Reached? && (ok ==> pos == r.pos && Snap() == r.t)
    {
      pos := 0;
      Clear();
      ghost var r0 := Tagset(doc, 0, Snap());
      ok := ProcTagset();
      if !ok {
        return;
      }
      ghost var r5 := Sections(doc, r0);
      ok := ReadSections();
      if !ok {
        return;
      }
      Finish();
    }
  }
}
