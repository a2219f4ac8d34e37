/** The section and unit parser of specification documents (`_Parser` in scripts/spec_structure.py):
    every method adds the events that the grammar of `SpecBlocks` gives for its lines, and keeps its
    fields those of the machine.  Which child counter is meant by a scope is told by whether a
    definition is being read. */
module SpecParser {
  import opened Wrappers
  import opened Bytes
  import opened Text
  import opened SpecUnits
  import opened SpecStack
  import opened SpecSlices
  import opened SpecMachine
  import opened SpecPositions
  import opened SpecBlocks
  import opened SpecLines
  import opened SpecKin

  // ---------- The parser ----------

  function BlockEvent(kind: Kind, blockKind: BlockKind, slice: Slice): Event {
    if kind == Table then AddTable(slice) else AddBlock(blockKind, slice)
  }

  /** The counters after the next position of the scope being read has been taken. */
  predicate Taken(s: State, stack: Stack, docPosition: nat, definitionPosition: nat, ordinal: nat) {
    if s.definition.Some? then
      stack == s.stack && docPosition == s.docPosition && ordinal == definitionPosition == s.definitionPosition + 1
    else
      && Counters(stack, docPosition) == Bump(s.stack, s.docPosition) && ordinal == Position(s.stack, s.docPosition) + 1
      && definitionPosition == s.definitionPosition
  }

  lemma BlockTo(lines: seq<Line>, whole: Slice, log: seq<Event>, s: State, kind: Kind, blockKind: BlockKind,
                slice: Slice,
                u: Unit, stack: Stack, docPosition: nat, definitionPosition: nat, ordinal: nat) returns (t: State)
    requires Ran(lines, whole, log, s)
    requires kind == Table || (kind == Block && blockKind != NoBlock)
    requires s.definition.Some? ==> s.definition.value < |s.units|
    requires Taken(s, stack, docPosition, definitionPosition, ordinal)
    requires var d := s.definition;
      u == BlockUnit(kind, blockKind, ChainOf(stack), if d.Some? then d.value else Container(stack),
                     if d.Some? then s.units[d.value].definitionId else "",
                     if d.Some? then s.units[d.value].definitionOrdinal else 0, ordinal)
    ensures Ran(lines, whole, log + [BlockEvent(kind, blockKind, slice)], t)
    ensures
      && t.units == s.units + [u] && t.slices == s.slices + [slice] && t.stack == stack && t.docPosition == docPosition
      && t.seen == s.seen && t.definition == s.definition && t.at == s.at && t.closed == s.closed
      && t.definitionPosition == definitionPosition && t.block == Some(|s.units|) && t.leaf == 0
  {
    BumpShape(s.stack, s.docPosition);
    t := Step(lines, s, BlockEvent(kind, blockKind, slice));
    RanMore(lines, whole, log, s, BlockEvent(kind, blockKind, slice));
  }

  function Popped(stack: Stack, n: nat): (rest: Stack)
    requires n <= |stack|
    ensures |rest| == |stack| - n
  {
    if n == 0 then stack else Below(Popped(stack, n - 1))
  }

  lemma {:induction false} PoppedPrefix(stack: Stack, n: nat)
    requires n <= |stack|
    ensures Popped(stack, n) == stack[..|stack| - n]
  {
    if n > 0 {
      PoppedPrefix(stack, n - 1);
    }
  }

  class Parser {
    const lines: seq<Line>
    const whole: Slice
    const lexer: Lexer
    var units: seq<Unit>
    var slices: seq<Slice>
    var seenSectionIds: set<string>
    var sectionStack: Stack
    var docPosition: nat
    var definitionPosition: nat
    /** What has happened so far, and the state of the machine after it. */
    ghost var log: seq<Event>
    ghost var model: State

    constructor (lines: seq<Line>, whole: Slice, lexer: Lexer)
      requires LinesOk(lines) && LexerOk(lexer)
      ensures Valid() && this.lines == lines && this.whole == whole && this.lexer == lexer && log == []
    {
      this.lines, this.whole, this.lexer := lines, whole, lexer;
      units, slices, seenSectionIds, sectionStack, docPosition, definitionPosition := [ROOT], [whole], {}, [], 0, 0;
      log, model := [], Initial(whole);
      new;
      RanNothing(lines, whole);
    }

    /** The fields are those of a run of the machine. */
    ghost predicate Valid()
      reads this
    {
      && LinesOk(lines) && LexerOk(lexer) && Ran(lines, whole, log, model)
      && units == model.units && slices == model.slices && seenSectionIds == model.seen && sectionStack == model.stack
      && docPosition == model.docPosition && definitionPosition == model.definitionPosition
    }

    /** The same, but for a position just taken. */
    ghost predicate Pending(ordinal: nat)
      reads this
    {
      && LinesOk(lines) && LexerOk(lexer) && Ran(lines, whole, log, model)
      && units == model.units && slices == model.slices && seenSectionIds == model.seen
      && Taken(model, sectionStack, docPosition, definitionPosition, ordinal)
    }

    /** Block or table `b` has just been added, still without leaves. */
    ghost predicate Started(definition: Option<nat>, at: nat, b: nat, kind: Kind, blockKind: BlockKind)
      reads this
    {
      && model.definition == definition && model.at == at && model.block == Some(b) && model.leaf == 0
      && b < |units| && units[b].kind == kind && units[b].leafOrdinal == 0
      && units[b].blockKind == if kind == Block then blockKind else NoBlock
    }

    method NextPosition(definition: Option<nat>) returns (ordinal: nat)
      requires Valid() && definition == model.definition
      modifies this`sectionStack, this`docPosition, this`definitionPosition
      ensures Pending(ordinal)
    {
      if definition.Some? {
        definitionPosition := definitionPosition + 1;
        ordinal := definitionPosition;
      } else {
        ordinal := Position(sectionStack, docPosition) + 1;
        CountPosition();
      }
    }

    method AppendBlock(kind: Kind, blockKind: BlockKind, definition: Option<nat>, ordinal: nat, slice: Slice)
        returns (b: nat)
      requires Pending(ordinal) && definition == model.definition
          && (kind == Table || (kind == Block && blockKind != NoBlock))
      modifies this`units, this`slices, this`log, this`model
      ensures Valid() && log == old(log) + [BlockEvent(kind, blockKind, slice)]
      ensures b == |old(units)| && |units| == b + 1 && slices == old(slices) + [slice]
      ensures Started(definition, old(model.at), b, kind, blockKind)
    {
      RanFacts(lines, whole, log, model);
      b := |units|;
      var owner := if definition.Some? then definition.value else Container(sectionStack);
      var id := if definition.Some? then units[definition.value].definitionId else "";
      var d := if definition.Some? then units[definition.value].definitionOrdinal else 0;
      var u := BlockUnit(kind, blockKind, ChainOf(sectionStack), owner, id, d, ordinal);
      ghost var t := BlockTo(lines, whole, log, model, kind, blockKind, slice, u, sectionStack, docPosition,
                             definitionPosition, ordinal);
      units := units + [u];
      slices := slices + [slice];
      log, model := log + [BlockEvent(kind, blockKind, slice)], t;
    }

    /** `_make_container_block`; a blockquote brings the position it took before. */
    method MakeContainerBlock(kind: Kind, blockKind: BlockKind, definition: Option<nat>, forced: Option<nat>,
                              slice: Slice)
      returns (b: nat)
      requires if forced.Some? then Pending(forced.value) else Valid()
      requires definition == model.definition && (kind == Table || (kind == Block && blockKind != NoBlock))
      modifies this
      ensures Valid() && log == old(log) + [BlockEvent(kind, blockKind, slice)]
      ensures b == |old(units)| && |units| == b + 1 && slices == old(slices) + [slice]
      ensures Started(definition, old(model.at), b, kind, blockKind)
    {
      var ordinal: nat;
      if forced.Some? {
        ordinal := forced.value;
      } else {
        ordinal := NextPosition(definition);
      }
      b := AppendBlock(kind, blockKind, definition, ordinal, slice);
    }

    /** A clause or row of the block or table added last. */
    method EmitLeaf(b: nat, n: nat, slice: Slice)
      requires Valid() && model.block == Some(b) && model.leaf == n && BearsLeaves(units, b)
      modifies this`units, this`slices, this`log, this`model
      ensures Valid() && log == old(log) + [AddLeaf(slice)] && old(units) <= units && BearsLeaves(units, b)
      ensures model.block == Some(b) && model.leaf == n + 1
      ensures model.definition == old(model.definition) && model.at == old(model.at)
    {
      ghost var t := LeafTo(lines, whole, log, model, slice);
      units := units + [LeafUnit(units[b], b, n + 1)];
      slices := slices + [slice];
      log, model := log + [AddLeaf(slice)], t;
    }

    /** Consistent, and block `b` has `leaf` leaves so far. */
    ghost predicate Bearing(b: nat, leaf: nat, definition: Option<nat>, at: nat)
      reads this
    {
      Valid() && model.block == Some(b) && model.leaf == leaf && BearsLeaves(units, b)
      && model.definition == definition && model.at == at
    }

    lemma StartedBears(definition: Option<nat>, at: nat, b: nat, kind: Kind, blockKind: BlockKind)
      requires Valid() && Started(definition, at, b, kind, blockKind)
      requires kind == Table || (kind == Block && blockKind in {Paragraph, ListItem})
      ensures Bearing(b, 0, definition, at)
    {
    }

    /** `_emit_clauses_for`: a clause for every range that is not blank. */
    method EmitClausesFor(b: nat)
      requires Valid() && b < |slices| && model.block == Some(b) && model.leaf == 0 && BearsLeaves(units, b)
      modifies this`units, this`slices, this`log, this`model
      ensures Valid() && log == old(log) + ClauseEvents(lexer.clauses(old(slices)[b]))
      ensures model.definition == old(model.definition) && model.at == old(model.at)
    {
      var ranges := lexer.clauses(slices[b]);
      var leaf := 0;
      for k := 0 to |ranges|
        invariant Bearing(b, leaf, old(model.definition), old(model.at))
        invariant log == old(log) + ClauseEvents(ranges[..k])
      {
        ClauseNext(ranges, k);
        if !ranges[k].blank {
          EmitLeaf(b, leaf, ranges[k].slice);
          leaf := leaf + 1;
        }
      }
      assert ranges[..|ranges|] == ranges;
    }

    // ---------- Headings ----------

    /** `_close_section`: the innermost section ends with its last line of text before line `next`. */
    method CloseSectionBefore(next: nat)
      requires Valid() && model.definition.None? && sectionStack != [] && model.at <= next <= |lines|
      modifies this`slices, this`sectionStack, this`log, this`model
      ensures Valid() && log == old(log) + [CloseSection(next)] && sectionStack == Below(old(sectionStack))
      ensures model.at == next && model.definition.None?
    {
      ghost var t := CloseTo(lines, whole, log, model, next);
      var entry := Top(sectionStack);
      var end := LastNonBlankBefore(entry.startLine, next);
      slices := slices[entry.unitIndex := Slice(lines[entry.startLine].start, end)];
      sectionStack := Below(sectionStack);
      log, model := log + [CloseSection(next)], t;
    }

    /** `_last_non_blank_before`. */
    method LastNonBlankBefore(startLine: nat, nextIndex: nat) returns (end: nat)
      requires startLine < |lines|
      ensures end == LastEnd(lines, startLine, if nextIndex < |lines| then nextIndex else |lines|)
    {
      end := lines[startLine].end;
      var upper := if nextIndex < |lines| then nextIndex else |lines|;
      var index := startLine;
      while index < upper
        invariant startLine <= index && (index <= upper || index == startLine)
        invariant end == LastEnd(lines, startLine, index)
      {
        if !Blank(lines[index].text) {
          end := lines[index].end;
        }
        index := index + 1;
      }
    }

    /** Pops every open section at `depth` or deeper, `n` of them. */
    method PopWhileDeep(index: nat, depth: nat) returns (ghost n: nat)
      requires Valid() && model.definition.None? && model.at <= index <= |lines|
      modifies this`slices, this`sectionStack, this`log, this`model
      ensures Valid() && model.definition.None? && model.at <= index
      ensures n <= |old(sectionStack)| && sectionStack == Popped(old(sectionStack), n)
      ensures log == old(log) + Closes(n, index)
      ensures sectionStack != [] ==> Top(sectionStack).depth < depth
      ensures n == 0 || |sectionStack| + 2 >= depth
    {
      ghost var before, start := sectionStack, log;
      n := 0;
      assert start + Closes(0, index) == start;
      while sectionStack != [] && Top(sectionStack).depth >= depth
        invariant Valid() && model.definition.None? && model.at <= index
        invariant n <= |before| && sectionStack == Popped(before, n) && log == start + Closes(n, index)
        invariant n == 0 || |sectionStack| + 2 >= depth
        decreases |sectionStack|
      {
        TopDepth();
        ClosesNext(start, n, index);
        CloseSectionBefore(index);
        n := n + 1;
      }
    }

    lemma TopDepth()
      requires Valid() && sectionStack != []
      ensures Top(sectionStack).depth == |sectionStack| + 1
    {
      RanTop(lines, whole, log, model);
    }

    /** In a stack of depths 2, 3, .. that leaves exactly the sections above `depth`. */
    method CloseDownTo(index: nat, depth: nat)
      requires Valid() && model.definition.None? && model.at <= index <= |lines| && depth >= 2
      modifies this`slices, this`sectionStack, this`log, this`model
      ensures Valid() && model.definition.None? && model.at <= index
      ensures |sectionStack| == if |old(sectionStack)| < depth - 2 then |old(sectionStack)| else depth - 2
      ensures sectionStack == old(sectionStack)[..|sectionStack|]
      ensures log == old(log) + Closes(|old(sectionStack)| - |sectionStack|, index)
    {
      ghost var n := PopWhileDeep(index, depth);
      PoppedPrefix(old(sectionStack), n);
      assert n == |old(sectionStack)| - |sectionStack|;
      OpenDepthsNow();
    }

    lemma OpenDepthsNow()
      requires Valid()
      ensures forall k :: 0 <= k < |sectionStack| ==> sectionStack[k].depth == k + 2
    {
      RanIsReplay(lines, whole, log, model);
      forall k | 0 <= k < |sectionStack|
        ensures sectionStack[k].depth == k + 2
      {
        OpenDepths(lines, whole, log, k);
      }
    }

    /** `_open_heading`: refused for an id met before or a skipped depth, else the sections at its
        depth and below close and the new one opens one level under what stays open. */
    method OpenHeading(index: nat, depth: nat, id: string) returns (error: Option<Error>)
      requires Valid() && model.definition.None? && model.at <= index < |lines|
      requires !Blank(lines[index].text) && depth >= 2
      modifies this
      ensures Valid() && model.definition.None?
      ensures error == if id in old(seenSectionIds) then Some(DuplicateSectionId(id))
                       else if depth > |old(sectionStack)| + 2 then Some(SkippedDepth(|old(sectionStack)| + 1, depth))
                       else None
      ensures error.None? ==>
          model.at == index + 1 && |sectionStack| == depth - 1
          && seenSectionIds == old(seenSectionIds) + {id}
          && log == old(log) + Closes(|old(sectionStack)| - (depth - 2), index) + [OpenSection(index, id)]
      ensures error.None? ==> SameSections(old(sectionStack)[..depth - 2], Below(sectionStack))
                              && Top(sectionStack) == SectionEntry(depth, Top(sectionStack).ordinal, id, |old(units)|,
                                                                   0, index)
    {
      if id in seenSectionIds {
        return Some(DuplicateSectionId(id));
      }
      OpenDepthsNow();
      CloseDownTo(index, depth);
      OpenDepthsNow();
      var parentDepth := if sectionStack != [] then Top(sectionStack).depth else 1;
      if depth > parentDepth + 1 {
        return Some(SkippedDepth(parentDepth, depth));
      }
      OpenNext(index, depth, id);
      return None;
    }

    /** The new section, one level under the open ones. */
    method OpenNext(index: nat, depth: nat, id: string)
      requires Valid() && model.definition.None? && model.at <= index < |lines|
      requires !Blank(lines[index].text) && depth == |sectionStack| + 2 && id !in seenSectionIds
      modifies this
      ensures Valid() && model.definition.None? && model.at == index + 1
      ensures log == old(log) + [OpenSection(index, id)] && |sectionStack| == depth - 1
      ensures seenSectionIds == old(seenSectionIds) + {id}
      ensures SameSections(old(sectionStack), Below(sectionStack))
      ensures Top(sectionStack) == SectionEntry(depth, Top(sectionStack).ordinal, id, |old(units)|, 0, index)
    {
      ghost var t := OpenTo(lines, whole, log, model, index, id);
      var ordinal := Position(sectionStack, docPosition) + 1;
      var entry := SectionEntry(depth, ordinal, id, |units|, 0, index);
      EnterSection(SectionUnit(sectionStack, depth, ordinal, id), entry, OpenSection(index, id), t);
    }

    /** Unit, counter and stack entry of a new section, which lead to the machine's state `t`. */
    method EnterSection(unit: Unit, entry: SectionEntry, ghost e: Event, ghost t: State)
      requires Valid() && Ran(lines, whole, log + [e], t)
      requires t.units == units + [unit] && t.slices == slices + [Slice(0, 0)] && t.seen == seenSectionIds + {entry.id}
      requires var c := Bump(sectionStack, docPosition); t.stack == c.stack + [entry] && t.docPosition == c.docPosition
      requires t.definitionPosition == definitionPosition
      modifies this
      ensures Valid() && model == t && log == old(log) + [e]
    {
      units := units + [unit];
      slices := slices + [Slice(0, 0)];
      seenSectionIds := seenSectionIds + {entry.id};
      PushSection(entry);
      log, model := log + [e], t;
    }

    method PushSection(entry: SectionEntry)
      modifies this`sectionStack, this`docPosition
      ensures var c := Bump(old(sectionStack), old(docPosition));
        sectionStack == c.stack + [entry] && docPosition == c.docPosition
    {
      CountPosition();
      sectionStack := sectionStack + [entry];
    }

    /** `next_position` of the innermost section or the document. */
    method CountPosition()
      modifies this`sectionStack, this`docPosition
      ensures Counters(sectionStack, docPosition) == Bump(old(sectionStack), old(docPosition))
    {
      if sectionStack == [] {
        docPosition := docPosition + 1;
      } else {
        var top := Top(sectionStack);
        sectionStack := Below(sectionStack) + [top.(childPosition := top.childPosition + 1)];
      }
    }

    // ---------- Blocks ----------

    /** Consistent, reading `definition`, headings read up to line `at`. */
    ghost predicate Steady(definition: Option<nat>, at: nat)
      reads this
    {
      Valid() && model.definition == definition && model.at == at
    }

    /** `_consume_raw_html_block`. */
    method ConsumeRawHtmlBlock(index: nat, minIndent: nat, definition: Option<nat>)
        returns (next: nat, error: Option<Error>)
      requires Steady(definition, model.at) && index < |lines| && !Blank(lines[index].text)
      requires ContentAt(lines[index], minIndent).Some?
      modifies this
      ensures Steady(definition, old(model.at))
      ensures match HtmlEnd(lexer, lines, index, minIndent, index, [])
        case None => error == Some(HtmlFailsClosed)
        case Some(end) =>
          && error.None? && index < next == end <= |lines|
          && log == old(log) + [AddBlock(Paragraph, Slice(lines[index].start + minIndent, lines[end - 1].end))]
    {
      var end := HtmlLines(index, minIndent);
      if end.None? {
        return index + 1, Some(HtmlFailsClosed);
      }
      var startByte := ContentAt(lines[index], minIndent).value.start;
      var b := MakeContainerBlock(Block, Paragraph, definition, None, Slice(startByte, lines[end.value - 1].end));
      return end.value, None;
    }

    /** The lines of a raw-HTML block, unless an element stays open. */
    method HtmlLines(index: nat, minIndent: nat) returns (end: Option<nat>)
      requires index < |lines| && !Blank(lines[index].text) && ContentAt(lines[index], minIndent).Some?
      ensures end == HtmlEnd(lexer, lines, index, minIndent, index, [])
      ensures end.Some? ==> index < end.value <= |lines|
    {
      ghost var all := HtmlEnd(lexer, lines, index, minIndent, index, []);
      var stack: seq<string> := [];
      var cursor := index;
      while cursor < |lines|
        invariant index <= cursor <= |lines| && (cursor == index ==> stack == [])
        invariant HtmlEnd(lexer, lines, index, minIndent, cursor, stack) == all
      {
        var line := lines[cursor];
        var isBlank := Blank(line.text);
        if stack != [] {
          if !isBlank && LeadingSpaces(line.text) < minIndent {
            break;
          }
        } else if cursor > index && (isBlank || LeadingSpaces(line.text) < minIndent) {
          break;
        }
        if isBlank {
          cursor := cursor + 1;
          continue;
        }
        var content := ContentAt(line, minIndent);
        if content.None? {
          break;
        }
        var scanned := lexer.scanHtml(content.value.text, stack);
        if scanned.None? {
          return None;
        }
        stack := scanned.value;
        cursor := cursor + 1;
        if stack == [] {
          return Some(cursor);
        }
      }
      return if stack == [] then Some(cursor) else None;
    }

    /** `_consume_fence`: up to the closing fence, or the end. */
    method ConsumeFence(index: nat, minIndent: nat, definition: Option<nat>) returns (next: nat, ghost slice: Slice)
      requires Steady(definition, model.at) && index < |lines| && ContentAt(lines[index], minIndent).Some?
      modifies this
      ensures Steady(definition, old(model.at))
      ensures next > 0 && FencedBy(lexer, lines, index, minIndent, next - 1, slice)
      ensures log == old(log) + [AddBlock(FencedCode, slice)]
    {
      var content := ContentAt(lines[index], minIndent).value;
      var closeIndex := index + 1;
      ghost var end := FirstStop(lexer, lines, FenceClose(content.text, minIndent), closeIndex);
      while closeIndex < |lines|
        invariant index < closeIndex <= |lines|
        invariant FirstStop(lexer, lines, FenceClose(content.text, minIndent), closeIndex) == end
      {
        var candidate := ContentAt(lines[closeIndex], minIndent);
        if candidate.Some? && lexer.fenceCloses(content.text, candidate.value.text) {
          break;
        }
        closeIndex := closeIndex + 1;
      }
      var endLine := if closeIndex < |lines| then closeIndex else |lines| - 1;
      var range := Slice(content.start, lines[endLine].end);
      var b := MakeContainerBlock(Block, FencedCode, definition, None, range);
      return closeIndex + 1, range;
    }

    /** The last line of a table: before the first line without a bar. */
    method LastRow(index: nat, minIndent: nat) returns (lastBody: nat)
      requires index + 1 < |lines|
      ensures index < lastBody < |lines| && lastBody + 1 == FirstStop(lexer, lines, NoRow(minIndent), index + 2)
    {
      ghost var stop, from := NoRow(minIndent), index + 2;
      lastBody := index + 1;
      var cursor := index + 2;
      while cursor < |lines|
        invariant cursor == lastBody + 1 <= |lines| && index < lastBody
        invariant FirstStop(lexer, lines, stop, cursor) == FirstStop(lexer, lines, stop, from)
      {
        var candidate := ContentAt(lines[cursor], minIndent);
        if candidate.None? || Blank(candidate.value.text) || !HasBar(candidate.value.text) {
          break;
        }
        lastBody := cursor;
        cursor := cursor + 1;
      }
    }

    /** `_consume_table`: a table, and a row for every body line. */
    method ConsumeTable(index: nat, minIndent: nat, definition: Option<nat>)
        returns (next: nat, ghost events: seq<Event>)
      requires Steady(definition, model.at) && IsTableStart(lexer, lines, index, minIndent)
      modifies this
      ensures Steady(definition, old(model.at)) && next == FirstStop(lexer, lines, NoRow(minIndent), index + 2)
      ensures events == TableEvents(lexer, lines, index, minIndent) && log == old(log) + events
    {
      var lastBody := LastRow(index, minIndent);
      var from, to := index + 2, lastBody + 1;
      var slice := Slice(ContentAt(lines[index], minIndent).value.start, lines[lastBody].end);
      ghost var rows: seq<Event>;
      rows, events := TableParts(lexer, lines, index, minIndent, from, to, slice);
      var table := MakeContainerBlock(Table, NoBlock, definition, None, slice);
      StartedBears(definition, old(model.at), table, Table, NoBlock);
      EmitRows(table, from, to, minIndent, rows);
      Reassociate(old(log), [AddTable(slice)], rows);
      return to, events;
    }

    method EmitRows(table: nat, from: nat, to: nat, minIndent: nat, ghost rows: seq<Event>)
      requires Bearing(table, 0, model.definition, model.at) && from <= to <= |lines|
      requires rows == RowEvents(lines, from, to, minIndent)
      requires forall k :: from <= k < to ==> ContentAt(lines[k], minIndent).Some?
      modifies this
      ensures Steady(old(model.definition), old(model.at)) && log == old(log) + rows
    {
      var leaf := 0;
      for rowIndex := from to to
        invariant Bearing(table, leaf, old(model.definition), old(model.at))
        invariant log == old(log) + rows[..rowIndex - from]
      {
        var content := ContentAt(lines[rowIndex], minIndent);
        if content.Some? {
          var slice := Slice(content.value.start, content.value.end);
          RowAt(lines, from, to, minIndent, rowIndex);
          NextRow(old(log), rows, rowIndex - from, AddLeaf(slice));
          EmitLeaf(table, leaf, slice);
          leaf := leaf + 1;
        }
      }
      assert rows[..to - from] == rows;
    }

    method QuoteLines(index: nat, minIndent: nat) returns (blockLines: seq<Content>, cursor: nat)
      requires index < |lines| && ContentAt(lines[index], minIndent).Some?
          && IsQuote(ContentAt(lines[index], minIndent).value.text)
      ensures index < cursor == FirstStop(lexer, lines, NoQuote(minIndent), index) <= |lines|
      ensures blockLines == QuoteBody(lines, index, cursor, minIndent)
    {
      ghost var end := FirstStop(lexer, lines, NoQuote(minIndent), index);
      blockLines := [];
      cursor := index;
      while cursor < |lines|
        invariant index <= cursor <= |lines| && FirstStop(lexer, lines, NoQuote(minIndent), cursor) == end
        invariant blockLines == QuoteBody(lines, index, cursor, minIndent)
      {
        var content := ContentAt(lines[cursor], minIndent);
        if content.None? || !IsQuote(content.value.text) {
          break;
        }
        QuoteNext(lines, index, cursor, minIndent);
        var quoted := Unquote(lines[cursor], minIndent, content.value);
        blockLines := blockLines + [quoted];
        cursor := cursor + 1;
      }
    }

    method Unquote(line: Line, minIndent: nat, content: Content) returns (quoted: Content)
      requires ContentAt(line, minIndent) == Some(content) && IsQuote(content.text)
      ensures quoted == Quoted(line, minIndent)
    {
      var inner := content.text[1..];
      if inner != "" && inner[0] == ' ' {
        inner := inner[1..];
      }
      quoted := Content(inner, content.start + (|content.text| - |inner|), content.end);
    }

    /** `_consume_blockquote`: a table inside the quote, or one block without clauses. */
    method ConsumeBlockquote(index: nat, minIndent: nat, definition: Option<nat>)
      returns (next: nat, ghost body: seq<Content>)
      requires Steady(definition, model.at) && index < |lines|
      requires ContentAt(lines[index], minIndent).Some? && IsQuote(ContentAt(lines[index], minIndent).value.text)
      modifies this
      ensures Steady(definition, old(model.at))
      ensures index < next == FirstStop(lexer, lines, NoQuote(minIndent), index) <= |lines|
      ensures body == QuoteBody(lines, index, next, minIndent)
      ensures log == old(log) + QuoteEvents(lexer, lines[index], lines[next - 1], body)
    {
      var blockLines, cursor := QuoteLines(index, minIndent);
      var ordinal := NextPosition(definition);
      EmitQuote(index, blockLines, definition, ordinal);
      return cursor, blockLines;
    }

    method EmitQuote(index: nat, blockLines: seq<Content>, definition: Option<nat>, ordinal: nat)
      requires Pending(ordinal) && model.definition == definition && 0 < |blockLines| && index + |blockLines| <= |lines|
      modifies this
      ensures Steady(definition, old(model.at))
      ensures log == old(log) + QuoteEvents(lexer, lines[index], lines[index + |blockLines| - 1], blockLines)
    {
      if |blockLines| >= 2 && HasBar(blockLines[0].text) && lexer.tableRule(blockLines[1].text) {
        QuotedTable(blockLines, definition, ordinal);
      } else {
        var slice := Slice(lines[index].start, lines[index + |blockLines| - 1].end);
        var b := MakeContainerBlock(Block, Blockquote, definition, Some(ordinal), slice);
      }
    }

    method QuotedTable(blockLines: seq<Content>, definition: Option<nat>, ordinal: nat)
      requires Pending(ordinal) && model.definition == definition && |blockLines| >= 2
      modifies this
      ensures Steady(definition, old(model.at))
      ensures log == old(log) + QuotedTableEvents(blockLines)
    {
      var lastBody := LastQuotedRow(blockLines);
      var slice := Slice(blockLines[0].start, blockLines[lastBody].end);
      var table := MakeContainerBlock(Table, NoBlock, definition, Some(ordinal), slice);
      StartedBears(definition, old(model.at), table, Table, NoBlock);
      EmitQuotedRows(table, blockLines, lastBody + 1);
      Reassociate(old(log), [AddTable(slice)], QuoteRows(blockLines, 2, lastBody + 1));
    }

    method LastQuotedRow(blockLines: seq<Content>) returns (lastBody: nat)
      requires |blockLines| >= 2
      ensures lastBody + 1 == BarsEnd(blockLines, 2)
    {
      lastBody := 1;
      var j := 2;
      while j < |blockLines|
        invariant 2 <= j == lastBody + 1 <= |blockLines| && BarsEnd(blockLines, j) == BarsEnd(blockLines, 2)
      {
        if !HasBar(blockLines[j].text) {
          break;
        }
        lastBody := j;
        j := j + 1;
      }
    }

    method EmitQuotedRows(table: nat, blockLines: seq<Content>, to: nat)
      requires Bearing(table, 0, model.definition, model.at) && 2 <= to <= |blockLines|
      modifies this
      ensures Steady(old(model.definition), old(model.at)) && log == old(log) + QuoteRows(blockLines, 2, to)
    {
      ghost var rows := QuoteRows(blockLines, 2, to);
      var leaf := 0;
      for k := 2 to to
        invariant Bearing(table, leaf, old(model.definition), old(model.at))
        invariant log == old(log) + rows[..k - 2]
      {
        var slice := Slice(blockLines[k].start, blockLines[k].end);
        NextRow(old(log), rows, k - 2, AddLeaf(slice));
        EmitLeaf(table, leaf, slice);
        leaf := leaf + 1;
      }
      assert rows[..to - 2] == rows;
    }

    /** A text block and its clauses. */
    method EmitTextBlock(blockKind: BlockKind, definition: Option<nat>, slice: Slice)
      requires Steady(definition, model.at) && blockKind in {Paragraph, ListItem}
      modifies this
      ensures Steady(definition, old(model.at))
      ensures log == old(log) + TextEvents(lexer, blockKind, slice)
    {
      RanFacts(lines, whole, log, model);
      var b := MakeContainerBlock(Block, blockKind, definition, None, slice);
      StartedBears(definition, old(model.at), b, Block, blockKind);
      EmitClausesFor(b);
    }

    /** The lines of a paragraph, which always takes the one it starts on. */
    method ParagraphLines(index: nat, minIndent: nat, inDefinition: bool) returns (slice: Slice, cursor: nat)
      requires index < |lines| && !Blank(lines[index].text)
      requires var content := ContentAt(lines[index], minIndent);
        content.Some? && !EndsParagraph(lexer, lines, index, minIndent, inDefinition, content.value.text)
      ensures index < cursor == FirstStop(lexer, lines, NoText(minIndent, inDefinition), index + 1) <= |lines|
      ensures slice == Slice(lines[index].start + minIndent, lines[cursor - 1].end)
    {
      ghost var stop := NoText(minIndent, inDefinition);
      ghost var end := FirstStop(lexer, lines, stop, index + 1);
      var body: seq<Content> := [];
      cursor := index;
      while cursor < |lines|
        invariant index <= cursor <= |lines| && |body| == cursor - index
        invariant body != [] ==>
            body[0].start == lines[index].start + minIndent && body[|body| - 1].end == lines[cursor - 1].end
        invariant cursor > index ==> FirstStop(lexer, lines, stop, cursor) == end
      {
        var line := lines[cursor];
        if Blank(line.text) || LeadingSpaces(line.text) < minIndent {
          break;
        }
        var content := ContentAt(line, minIndent);
        if content.None? || EndsParagraph(lexer, lines, cursor, minIndent, inDefinition, content.value.text) {
          break;
        }
        body := body + [content.value];
        cursor := cursor + 1;
      }
      slice := Slice(body[0].start, body[|body| - 1].end);
    }

    /** `_consume_paragraph`. */
    method ConsumeParagraph(index: nat, minIndent: nat, definition: Option<nat>) returns (next: nat, ghost slice: Slice)
      requires Steady(definition, model.at) && index < |lines| && !Blank(lines[index].text)
      requires var content := ContentAt(lines[index], minIndent);
        content.Some? && !EndsParagraph(lexer, lines, index, minIndent, definition.Some?, content.value.text)
      modifies this
      ensures Steady(definition, old(model.at))
      ensures index < next == FirstStop(lexer, lines, NoText(minIndent, definition.Some?), index + 1) <= |lines|
      ensures slice == Slice(lines[index].start + minIndent, lines[next - 1].end)
      ensures log == old(log) + TextEvents(lexer, TextKind(definition.Some?), slice)
    {
      var range, cursor := ParagraphLines(index, minIndent, definition.Some?);
      EmitTextBlock(TextKind(definition.Some?), definition, range);
      return cursor, range;
    }

    // ---------- Definitions and lists ----------

    method BeginDefinition(id: string) returns (d: nat)
      requires Steady(None, model.at)
      modifies this
      ensures Steady(Some(d), old(model.at)) && log == old(log) + [StartDefinition(id)] && d < |slices|
    {
      ghost var t := StartTo(lines, whole, log, model, id);
      RanFacts(lines, whole, log, model);
      d := |units|;
      units := units + [DefinitionUnit(sectionStack, id, Position(sectionStack, docPosition) + 1)];
      slices := slices + [Slice(0, 0)];
      CountPosition();
      definitionPosition := 0;
      log, model := log + [StartDefinition(id)], t;
    }

    method FinishDefinition(d: nat, slice: Slice)
      requires Steady(Some(d), model.at)
      modifies this`slices, this`log, this`model
      ensures Steady(None, old(model.at)) && log == old(log) + [EndDefinition(slice)]
    {
      ghost var t := EndTo(lines, whole, log, model, slice);
      slices := slices[d := slice];
      log, model := log + [EndDefinition(slice)], t;
    }

    /** The lines of a list item after its first: indented continuations. */
    method ItemEnd(index: nat, contentIndent: nat, firstEnd: nat) returns (cursor: nat, endByte: nat)
      requires index < |lines| && firstEnd == lines[index].end
      ensures index < cursor == FirstStop(lexer, lines, NoItem(contentIndent), index + 1) <= |lines|
      ensures endByte == lines[cursor - 1].end
    {
      cursor := index + 1;
      endByte := firstEnd;
      while cursor < |lines|
        invariant index < cursor <= |lines| && endByte == lines[cursor - 1].end
        invariant FirstStop(lexer, lines, NoItem(contentIndent), cursor)
                  == FirstStop(lexer, lines, NoItem(contentIndent), index + 1)
      {
        var nxt := lines[cursor];
        if Blank(nxt.text) || LeadingSpaces(nxt.text) < contentIndent {
          break;
        }
        var cont := ContentAt(nxt, contentIndent);
        if cont.None? {
          break;
        }
        endByte := cont.value.end;
        cursor := cursor + 1;
      }
    }

    /** `_consume_list_item`. */
    method ConsumeListItem(index: nat, minIndent: nat, definition: Option<nat>)
        returns (next: nat, error: Option<Error>)
      requires Steady(definition, model.at) && index < |lines| && ContentAt(lines[index], minIndent).Some?
      requires !Blank(lines[index].text)
      requires var text := ContentAt(lines[index], minIndent).value.text;
          lexer.bullet(text) > 0 || lexer.ordered(text) > 0
      modifies this
      ensures error.None? ==> Steady(definition, old(model.at))
      ensures Answers(ItemAt(lexer, lines, index, minIndent, definition.Some?), next, error, old(log), log)
      decreases |lines| - index, 1
    {
      var content := ContentAt(lines[index], minIndent).value;
      var text := content.text;
      var markerLen := if lexer.bullet(text) > 0 then lexer.bullet(text) else lexer.ordered(text);
      var form := lexer.definition(text[markerLen..]);
      if form.Some? && definition.None? && minIndent == 0 && lexer.bullet(text) > 0 {
        ItemIsDefinition(lexer, lines, index, markerLen, form.value);
        next, error := ConsumeDefinition(index, markerLen, form.value);
        return;
      }
      var cursor, endByte := ItemEnd(index, minIndent + markerLen, content.end);
      var slice := Slice(content.start + markerLen, endByte);
      ItemIsText(lexer, lines, index, minIndent, definition.Some?, markerLen, cursor, slice);
      EmitTextBlock(ListItem, definition, slice);
      return cursor, None;
    }

    /** The first text of a definition: the rest of its line, soft-wrapped and lazy continuations. */
    method DefinitionBody(index: nat, contentIndent: nat, first: seq<Content>) returns (body: seq<Content>, cursor: nat)
      requires index < |lines|
      ensures index < cursor == FirstStop(lexer, lines, NoBody(contentIndent), index + 1) <= |lines|
      ensures body == first + BodyLines(lines, index + 1, cursor, contentIndent)
    {
      body := first;
      var from := index + 1;
      cursor := from;
      ghost var end, more := FirstStop(lexer, lines, NoBody(contentIndent), from),
          BodyLines(lines, from, from, contentIndent);
      while cursor < |lines|
        invariant from <= cursor <= |lines|
        invariant FirstStop(lexer, lines, NoBody(contentIndent), cursor) == end
        invariant more == BodyLines(lines, from, cursor, contentIndent) && body == first + more
      {
        var line := Continuation(cursor, contentIndent);
        if line.None? {
          break;
        }
        BodyNext(lines, from, cursor, contentIndent, first, more, line.value);
        more := more + [line.value];
        body := body + [line.value];
        cursor := cursor + 1;
      }
    }

    /** An indented line that starts no block, or a lazy one at the margin. */
    method Continuation(cursor: nat, contentIndent: nat) returns (line: Option<Content>)
      requires cursor < |lines|
      ensures line == if StopsAt(lexer, lines, NoBody(contentIndent), cursor) then None
        else Some(BodyLine(lines[cursor], contentIndent))
    {
      var nxt := lines[cursor];
      if Blank(nxt.text) {
        return None;
      }
      var lead := LeadingSpaces(nxt.text);
      if lead >= contentIndent {
        var cont := ContentAt(nxt, contentIndent);
        if cont.None? || Interrupts(lexer, lines, cursor, contentIndent, cont.value.text) {
          return None;
        }
        return cont;
      }
      if lead == 0 && !StartsNewBlockAtZero(lexer, lines, cursor) {
        return Some(Content(nxt.text, nxt.start, nxt.end));
      }
      return None;
    }

    /** `_consume_definition`: its first text is a list-item block, what follows are its own blocks. */
    method ConsumeDefinition(index: nat, markerLen: nat, id: string) returns (next: nat, error: Option<Error>)
      requires Steady(None, model.at) && index < |lines| && markerLen <= |lines[index].text|
      modifies this
      ensures error.None? ==> Steady(None, old(model.at))
      ensures Answers(DefinitionAt(lexer, lines, index, markerLen, id), next, error, old(log), log)
      decreases |lines| - index, 0
    {
      ghost var start := log;
      var d := BeginDefinition(id);
      var first := DefinitionFirst(index, markerLen);
      var body, cursor := DefinitionBody(index, markerLen, first);
      DefinitionText(d, body);
      ghost var inner := Blocks(lexer, lines, cursor, markerLen, true);
      DefinitionParts(lexer, lines, index, markerLen, id, cursor, body, inner);
      next, error := ParseBlocks(cursor, markerLen, Some(d));
      if error.Some? {
        return;
      }
      ghost var slice := Slice(lines[index].start, LastEnd(lines, index, Least(next, |lines|)));
      EndDefinitionAt(d, index, next);
      FourParts(start, [StartDefinition(id)], FirstText(lexer, body), inner.events, [EndDefinition(slice)]);
    }

    method EndDefinitionAt(d: nat, index: nat, next: nat)
      requires Steady(Some(d), model.at) && index < |lines|
      modifies this`slices, this`log, this`model
      ensures Steady(None, old(model.at))
      ensures log == old(log) + [EndDefinition(Slice(lines[index].start, LastEnd(lines, index, Least(next, |lines|))))]
    {
      var endByte := LastNonBlankBefore(index, next);
      FinishDefinition(d, Slice(lines[index].start, endByte));
    }

    /** The text on the first line of a definition, after its marker and prefix. */
    method DefinitionFirst(index: nat, markerLen: nat) returns (first: seq<Content>)
      requires LexerOk(lexer) && index < |lines| && markerLen <= |lines[index].text|
      ensures first == DefinitionStart(lexer, lines[index], markerLen)
    {
      var line := lines[index];
      var afterMarker := line.text[markerLen..];
      var prefix := lexer.definitionPrefix(afterMarker);
      var remainder := afterMarker[prefix..];
      var firstText := remainder[LeadingBlanks(remainder)..];
      var bodyStart := line.start + ByteLen(line.text[..markerLen]) + ByteLen(afterMarker[..prefix])
                     + ByteLen(remainder[..LeadingBlanks(remainder)]);
      first := if firstText != "" then [Content(firstText, bodyStart, line.end)] else [];
    }

    method DefinitionText(d: nat, body: seq<Content>)
      requires Steady(Some(d), model.at)
      modifies this
      ensures Steady(Some(d), old(model.at)) && log == old(log) + FirstText(lexer, body)
    {
      if HasText(body) {
        EmitTextBlock(ListItem, Some(d), Slice(body[0].start, body[|body| - 1].end));
      }
    }

    /** `_parse_blocks`: blocks until a heading or, inside a definition, a dedented line. */
    method ParseBlocks(start: nat, minIndent: nat, definition: Option<nat>) returns (next: nat, error: Option<Error>)
      requires Steady(definition, model.at) && (definition.None? ==> minIndent == 0)
      modifies this
      ensures error.None? ==> Steady(definition, old(model.at))
      ensures Answers(Blocks(lexer, lines, start, minIndent, definition.Some?), next, error, old(log), log)
      decreases if start <= |lines| then |lines| - start else 0, 5
    {
      ghost var before, all := log, Blocks(lexer, lines, start, minIndent, definition.Some?);
      ghost var events: seq<Event> := [];
      AfterNothing(all);
      next := start;
      while next < |lines|
        invariant start <= next && Steady(definition, old(model.at)) && log == before + events
        invariant After(events, Blocks(lexer, lines, next, minIndent, definition.Some?)) == all
      {
        var line := lines[next];
        if Blank(line.text) {
          next := next + 1;
          continue;
        }
        if LeadingSpaces(line.text) < minIndent {
          return next, None;
        }
        if definition.None? {
          match InspectHeading(lexer, line.text)
          case Title => return next, Some(SecondTitle);
          case Invalid => return next, Some(InvalidHeading);
          case Heading(_, _) => return next, None;
          case NotHeading =>
        }
        ghost var block := BlockAt(lexer, lines, next, minIndent, definition.Some?);
        next, error := ConsumeBlock(next, minIndent, definition);
        if error.Some? {
          return;
        }
        AfterTwice(events, block.events, Blocks(lexer, lines, next, minIndent, definition.Some?));
        Reassociate(before, events, block.events);
        events := events + block.events;
      }
      return next, None;
    }

    /** The block that begins on line `index`, by what its text begins with. */
    method ConsumeBlock(index: nat, minIndent: nat, definition: Option<nat>) returns (next: nat, error: Option<Error>)
      requires Steady(definition, model.at) && index < |lines| && !Blank(lines[index].text)
      requires ContentAt(lines[index], minIndent).Some?
      requires definition.None? ==> minIndent == 0 && InspectHeading(lexer, lines[index].text).NotHeading?
      modifies this
      ensures error.None? ==> Steady(definition, old(model.at))
      ensures Answers(BlockAt(lexer, lines, index, minIndent, definition.Some?), next, error, old(log), log)
      decreases |lines| - index, 4
    {
      error := None;
      var text := ContentAt(lines[index], minIndent).value.text;
      if lexer.htmlStarts(text) {
        HtmlBlock(lexer, lines, index, minIndent, definition.Some?);
        next, error := ConsumeRawHtmlBlock(index, minIndent, definition);
      } else if lexer.fenceOpens(text) {
        ghost var slice: Slice;
        next, slice := ConsumeFence(index, minIndent, definition);
        FenceBlock(lexer, lines, index, minIndent, definition.Some?, next, slice);
      } else {
        next, error := ConsumeMarked(index, minIndent, definition);
      }
    }

    /** A block that is not opaque: a table or a quote, or else text. */
    method ConsumeMarked(index: nat, minIndent: nat, definition: Option<nat>) returns (next: nat, error: Option<Error>)
      requires Steady(definition, model.at) && index < |lines| && !Blank(lines[index].text)
      requires ContentAt(lines[index], minIndent).Some?
      requires var text := ContentAt(lines[index], minIndent).value.text;
          !lexer.htmlStarts(text) && !lexer.fenceOpens(text)
      requires definition.None? ==> minIndent == 0 && InspectHeading(lexer, lines[index].text).NotHeading?
      modifies this
      ensures error.None? ==> Steady(definition, old(model.at))
      ensures Answers(BlockAt(lexer, lines, index, minIndent, definition.Some?), next, error, old(log), log)
      decreases |lines| - index, 3
    {
      error := None;
      var text := ContentAt(lines[index], minIndent).value.text;
      if IsTableStart(lexer, lines, index, minIndent) {
        ghost var events: seq<Event>;
        next, events := ConsumeTable(index, minIndent, definition);
        TableBlock(lexer, lines, index, minIndent, definition.Some?, next, events);
      } else if IsQuote(text) {
        ghost var body: seq<Content>;
        next, body := ConsumeBlockquote(index, minIndent, definition);
        QuoteBlock(lexer, lines, index, minIndent, definition.Some?, next, lines[next - 1], body);
      } else {
        next, error := ConsumeText(index, minIndent, definition);
      }
    }

    /** A list item, or else a paragraph. */
    method ConsumeText(index: nat, minIndent: nat, definition: Option<nat>) returns (next: nat, error: Option<Error>)
      requires Steady(definition, model.at) && index < |lines| && !Blank(lines[index].text)
      requires ContentAt(lines[index], minIndent).Some? && !IsTableStart(lexer, lines, index, minIndent)
      requires var text := ContentAt(lines[index], minIndent).value.text;
        !lexer.htmlStarts(text) && !lexer.fenceOpens(text) && !IsQuote(text)
      requires definition.None? ==> minIndent == 0 && InspectHeading(lexer, lines[index].text).NotHeading?
      modifies this
      ensures error.None? ==> Steady(definition, old(model.at))
      ensures Answers(BlockAt(lexer, lines, index, minIndent, definition.Some?), next, error, old(log), log)
      decreases |lines| - index, 2
    {
      error := None;
      var text := ContentAt(lines[index], minIndent).value.text;
      if lexer.bullet(text) > 0 || lexer.ordered(text) > 0 {
        ItemBlock(lexer, lines, index, minIndent, definition.Some?);
        next, error := ConsumeListItem(index, minIndent, definition);
      } else {
        ghost var slice: Slice;
        next, slice := ConsumeParagraph(index, minIndent, definition);
        TextBlock(lexer, lines, index, minIndent, definition.Some?, next, TextKind(definition.Some?), slice);
      }
    }

    // ---------- Documents ----------

    /** `parse`: on success every section is closed. */
    method Parse() returns (error: Option<Error>)
      requires Valid() && log == []
      modifies this
      ensures error.None? ==> Valid() && sectionStack == []
      ensures match DocumentEvents(lexer, lines)
        case Stopped(e) => error == Some(e)
        case Done(_, events) => error.None? && log == events
    {
      if lines == [] {
        return Some(EmptyDocument);
      }
      if lines[0].start != 0 || !IsH1(lines[0].text) {
        return Some(NoTitle);
      }
      var index := 1;
      ghost var all := Sections(lexer, lines, 1, 0, {});
      AfterNothing(all);
      NothingRead();
      while index < |lines|
        invariant Steady(None, model.at) && model.at <= index
        invariant Following(index, all)
        decreases |lines| - index
      {
        var line := lines[index];
        if Blank(line.text) {
          index := index + 1;
          continue;
        }
        index, error := Turn(index, all);
        if error.Some? {
          return;
        }
      }
      RanFacts(lines, whole, log, model);
      CloseAllSections();
      return None;
    }

    /** One turn of the loop over the lines, at a line with text. */
    method Turn(index: nat, ghost all: Reading) returns (next: nat, error: Option<Error>)
      requires Steady(None, model.at) && model.at <= index < |lines| && !Blank(lines[index].text)
          && Following(index, all)
      modifies this
      ensures error.None? ==> index < next && Steady(None, model.at) && model.at <= next && Following(next, all)
      ensures error.Some? ==> all == Stopped(error.value)
    {
      match InspectHeading(lexer, lines[index].text)
      case Title => return index, Some(SecondTitle);
      case Invalid => return index, Some(InvalidHeading);
      case Heading(depth, id) =>
        next := index + 1;
        ghost var level, more := depth - 1, seenSectionIds + {id};
        ghost var rest := HeadingFollows(lexer, lines, index, |sectionStack|, seenSectionIds, depth, id, log, all,
                                         next, level, more);
        error := HeadingTurn(index, depth, id, all, rest);
      case NotHeading =>
        next, error := BlocksTurn(index, all);
    }

    lemma NothingRead()
      requires Valid() && log == []
      ensures model == Initial(whole)
    {
      RanIsReplay(lines, whole, log, model);
    }

    /** What is read and what is still to be read make up `all`. */
    ghost predicate Following(index: nat, all: Reading)
      requires LexerOk(lexer)
      reads this
    {
      After(log, Sections(lexer, lines, index, |sectionStack|, seenSectionIds)) == all
    }

    method HeadingTurn(index: nat, depth: nat, id: string, ghost all: Reading, ghost rest: Reading)
      returns (error: Option<Error>)
      requires Steady(None, model.at) && model.at <= index < |lines| && !Blank(lines[index].text) && depth >= 2
      requires HeadingLeads(log, |sectionStack|, seenSectionIds, index, depth, id, all, rest)
      modifies this
      ensures error.None? ==> Steady(None, index + 1) && After(log, rest) == all
      ensures error.None? ==> |sectionStack| == depth - 1 && seenSectionIds == old(seenSectionIds) + {id}
      ensures error.Some? ==> all == Stopped(error.value)
    {
      error := OpenHeading(index, depth, id);
    }

    method BlocksTurn(index: nat, ghost all: Reading) returns (next: nat, error: Option<Error>)
      requires Steady(None, model.at) && StartsBlock(lexer, lines, index) && Following(index, all)
      modifies this
      ensures match error
        case None => index < next && Steady(None, old(model.at)) && Following(next, all)
        case Some(e) => all == Stopped(e)
    {
      ghost var before, open, seen, blocks := log, |sectionStack|, seenSectionIds,
          Blocks(lexer, lines, index, 0, false);
      BlocksMove(lexer, lines, index);
      SectionsAtBlocks(lexer, lines, index, open, seen, blocks);
      next, error := TopBlocks(index);
      if error.None? {
        AfterTwice(before, blocks.events, Sections(lexer, lines, next, open, seen));
      }
    }

    /** Blocks between headings leave the open sections and the ids as they are. */
    method TopBlocks(start: nat) returns (next: nat, error: Option<Error>)
      requires Steady(None, model.at)
      modifies this
      ensures error.None? ==> Steady(None, old(model.at))
      ensures Answers(Blocks(lexer, lines, start, 0, false), next, error, old(log), log)
      ensures error.None? ==> |sectionStack| == |old(sectionStack)| && seenSectionIds == old(seenSectionIds)
    {
      ghost var before, was := log, model;
      next, error := ParseBlocks(start, 0, None);
      if error.None? {
        RanIsReplay(lines, whole, before, was);
        RanIsReplay(lines, whole, log, model);
        BlocksAreInert(lexer, lines, start, 0, false);
        InertRun(lines, whole, before, Blocks(lexer, lines, start, 0, false).events);
      }
    }

    /** `_close_all_sections`. */
    method CloseAllSections()
      requires Steady(None, model.at) && model.at <= |lines|
      modifies this`slices, this`sectionStack, this`log, this`model
      ensures Valid() && sectionStack == []
      ensures log == old(log) + Closes(|old(sectionStack)|, |lines|)
    {
      ghost var start, n := log, 0;
      assert start + Closes(0, |lines|) == start;
      while sectionStack != []
        invariant Valid() && model.definition.None? && model.at <= |lines|
        invariant n + |sectionStack| == |old(sectionStack)| && log == start + Closes(n, |lines|)
        decreases |sectionStack|
      {
        ClosesNext(start, n, |lines|);
        CloseSectionBefore(|lines|);
        n := n + 1;
      }
    }
  }

  // ---------- From text to a validated structure ----------

  datatype Outcome = Parsed(units: seq<Unit>, slices: seq<Slice>) | Failed(error: Error) | Refused(fault: Fault)

  ghost predicate SoundStructure(units: seq<Unit>, slices: seq<Slice>) {
    && |slices| == |units| && Tree(units) && Dense(units) && SectionIdsDistinct(units)
    && (forall j {:trigger NearestOwner(units, j)} ::
        0 <= j < |units| && units[j].kind == Section ==> NearestOwner(units, j))
    && (forall i, j :: 0 <= i < j < |units| && units[i].kind == units[j].kind == Section ==> Nests(units, slices, i, j))
  }

  lemma {:induction false} Sound(lines: seq<Line>, whole: Slice, log: seq<Event>)
    requires LinesOk(lines) && Replay(lines, whole, log).stack == []
    ensures var s := Replay(lines, whole, log); SoundStructure(s.units, s.slices)
  {
    RunFacts(lines, whole, log);
    ReplayDense(lines, whole, log);
    var s := Replay(lines, whole, log);
    forall i, j | 0 <= i < j < |s.units| && s.units[i].kind == s.units[j].kind == Section
      ensures Nests(s.units, s.slices, i, j)
    {
      SectionsNest(lines, whole, log, i, j);
    }
  }

  ghost predicate DefinitionIdsDistinct(units: seq<Unit>) {
    forall i, j :: 0 <= j < i < |units| && units[i].kind == units[j].kind == Definition
        ==> units[j].definitionId != units[i].definitionId
  }

  /** Of all the structural checks only the one for repeated definition ids can refuse the units of
      a run, and it does so exactly when an id is repeated. */
  lemma {:induction false} OnlyRepetitionFails(lines: seq<Line>, whole: Slice, log: seq<Event>)
    requires LinesOk(lines)
    ensures var units := Replay(lines, whole, log).units;
      && (forall i :: 0 <= i < |units| && FaultAt(units, i).Some? ==> FaultAt(units, i).value.DuplicateDefinition?)
      && (DefinitionIdsDistinct(units) <==> forall i :: 0 <= i < |units| ==> FaultAt(units, i).None?)
  {
    RunFacts(lines, whole, log);
    var units := Replay(lines, whole, log).units;
    forall i | 0 <= i < |units|
      ensures FaultAt(units, i) ==
        if units[i].kind == Definition && DefinitionBefore(units, i)
            then Some(DuplicateDefinition(units[i].definitionId)) else None
    {
      assert BearsClauses(units, units[i]);
      OnlyDefinitionsFault(units, i);
    }
    FaultFree(units);
  }

  lemma FaultFree(units: seq<Unit>)
    requires forall i :: 0 <= i < |units| ==>
      FaultAt(units, i) ==
        if units[i].kind == Definition && DefinitionBefore(units, i)
            then Some(DuplicateDefinition(units[i].definitionId)) else None
    ensures DefinitionIdsDistinct(units) <==> forall i :: 0 <= i < |units| ==> FaultAt(units, i).None?
  {
    if forall i :: 0 <= i < |units| ==> FaultAt(units, i).None? {
      forall i, j | 0 <= j < i < |units| && units[i].kind == units[j].kind == Definition
        ensures units[j].definitionId != units[i].definitionId
      {
        assert FaultAt(units, i).None?;
      }
    }
  }

  /** The root is never at fault, so that validation finds a fault at a unit or none at all. */
  lemma {:induction false} RootIsDocument(lines: seq<Line>, whole: Slice, log: seq<Event>)
    requires LinesOk(lines)
    ensures var units := Replay(lines, whole, log).units;
        units != [] && units[0].kind == Document && units[0].parent == -1
  {
    RunFacts(lines, whole, log);
  }

  /** `parse_spec_structure_v1`: the units are those of the document's events; they are refused
      exactly when a definition id is repeated, and whatever is accepted is sound. */
  method ParseSpecStructure(text: string, lexer: Lexer) returns (r: Outcome, ghost lines: seq<Line>)
    requires LexerOk(lexer)
    ensures LinesOf(text, lines)
    ensures match DocumentEvents(lexer, lines)
      case Stopped(e) => r == Failed(e)
      case Done(_, events) =>
        var s := Replay(lines, Slice(0, ByteLen(text)), events);
        if DefinitionIdsDistinct(s.units) then r == Parsed(s.units, s.slices) else
            r.Refused? && r.fault.DuplicateDefinition?
    ensures r.Parsed? ==> SoundStructure(r.units, r.slices)
  {
    var found := SplitLines(text);
    lines := found;
    var parser := new Parser(found, Slice(0, ByteLen(text)), lexer);
    var error := parser.Parse();
    if error.Some? {
      return Failed(error.value), lines;
    }
    RanIsReplay(lines, parser.whole, parser.log, parser.model);
    Sound(lines, parser.whole, parser.log);
    OnlyRepetitionFails(lines, parser.whole, parser.log);
    RootIsDocument(lines, parser.whole, parser.log);
    var fault := ValidateStructure(parser.units);
    if fault.Some? {
      return Refused(fault.value), lines;
    }
    return Parsed(parser.units, parser.slices), lines;
  }

  /** Why the check is needed: a run that defines one id twice. */
  lemma {:induction false} RepeatedDefinition(lines: seq<Line>, whole: Slice, id: string, a: Slice, b: Slice)
    ensures var units :=
        Replay(lines, whole, [StartDefinition(id), EndDefinition(a), StartDefinition(id), EndDefinition(b)]).units;
      |units| == 3 && !DefinitionIdsDistinct(units) && FaultAt(units, 2) == Some(DuplicateDefinition(id))
  {
    var s0 := Initial(whole);
    var s1 := Step(lines, s0, StartDefinition(id));
    var s2 := Step(lines, s1, EndDefinition(a));
    var s3 := Step(lines, s2, StartDefinition(id));
    var s4 := Step(lines, s3, EndDefinition(b));
    FourSteps(lines, whole, StartDefinition(id), EndDefinition(a), StartDefinition(id), EndDefinition(b));
    assert s4.units == [ROOT, DefinitionUnit([], id, 1), DefinitionUnit([], id, 2)];
    var units := s4.units;
    assert units[1].kind == units[2].kind == Definition && units[1].definitionId == units[2].definitionId;
    assert DefinitionBefore(units, 2);
    assert PathOf(units[0]) != PathOf(units[2]) && PathOf(units[1]) != PathOf(units[2]) && MayOwn(Document, Definition);
  }

  lemma {:induction false} FourSteps(lines: seq<Line>, whole: Slice, e1: Event, e2: Event, e3: Event, e4: Event)
    ensures Replay(lines, whole, [e1, e2, e3, e4]) ==
      Step(lines, Step(lines, Step(lines, Step(lines, Initial(whole), e1), e2), e3), e4)
  {
    var none: seq<Event> := [];
    ReplayLast(lines, whole, [e1], none, e1);
    ReplayLast(lines, whole, [e1, e2], [e1], e2);
    ReplayLast(lines, whole, [e1, e2, e3], [e1, e2], e3);
    ReplayLast(lines, whole, [e1, e2, e3, e4], [e1, e2, e3], e4);
  }
}
