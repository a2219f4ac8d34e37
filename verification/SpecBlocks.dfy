/** What the block grammar of scripts/spec_structure.py makes of a document: the events of a parse
    as functions of its lines.

    Regular expressions, the raw-HTML scanner and the clause splitter are functions of a `Lexer`. */
module SpecBlocks {
  import opened Wrappers
  import opened Bytes
  import opened Text
  import opened SpecUnits
  import opened SpecSlices
  import opened SpecMachine

  datatype Error = EmptyDocument | NoTitle | SecondTitle | InvalidHeading | DuplicateSectionId(id: string)
                 | SkippedDepth(parent: nat, depth: nat) | HtmlFailsClosed

  /** What the parser asks about texts.  `bullet`, `ordered` and `definitionPrefix` give the length
      of the match, 0 for none; `clauses` gives the clause ranges of a slice. */
  datatype Lexer = Lexer(
    sectionId: string -> Option<string>,
    htmlStarts: string -> bool,
    scanHtml: (string, seq<string>) -> Option<seq<string>>,
    fenceOpens: string -> bool,
    fenceCloses: (string, string) -> bool,
    tableRule: string -> bool,
    bullet: string -> nat,
    ordered: string -> nat,
    startsAtOne: string -> bool,
    definition: string -> Option<string>,
    definitionPrefix: string -> nat,
    clauses: Slice -> seq<ClauseRange>)

  datatype ClauseRange = ClauseRange(slice: Slice, blank: bool)

  /** A match lies within its text. */
  ghost predicate LexerOk(x: Lexer) {
    forall t: string :: x.bullet(t) <= |t| && x.ordered(t) <= |t| && x.definitionPrefix(t) <= |t|
  }

  // ---------- Lines ----------

  function LeadingSpaces(text: string): (n: nat)
    ensures n <= |text|
  {
    if text == "" || text[0] != ' ' then 0 else 1 + LeadingSpaces(text[1..])
  }

  datatype Content = Content(text: string, start: nat, end: nat)

  /** `_content_at`. */
  function ContentAt(line: Line, column: nat): Option<Content> {
    if LeadingSpaces(line.text) < column then None
    else Some(Content(line.text[column..], line.start + column, line.end))
  }

  function HashCount(text: string): (n: nat)
    ensures n <= |text|
  {
    if text == "" || text[0] != '#' then 0 else 1 + HashCount(text[1..])
  }

  /** `_looks_like_atx_heading`. */
  predicate LooksLikeAtx(text: string) {
    var depth := HashCount(text);
    1 <= depth <= 6 && depth < |text| && (text[depth] == ' ' || text[depth] == '\t')
  }

  datatype Heading = NotHeading | Title | Invalid | Heading(depth: nat, id: string)

  /** `_inspect_heading`. */
  function InspectHeading(x: Lexer, text: string): Heading {
    if !LooksLikeAtx(text) then NotHeading
    else
      var depth := HashCount(text);
      if text[depth] == '\t' || |text| == depth + 1 || text[depth + 1] == ' ' || text[depth + 1] == '\t' then Invalid
      else if depth == 1 then Title
      else if x.sectionId(text[depth + 1..]).None? then Invalid
      else Heading(depth, x.sectionId(text[depth + 1..]).value)
  }

  /** `_is_h1`. */
  predicate IsH1(text: string) {
    |text| > 2 && text[0] == '#' && text[1] == ' ' && text[2] != ' ' && text[2] != '\t' && !Blank(text[2..])
  }

  predicate HasBar(text: string) { '|' in text }

  /** `_is_table_start`. */
  predicate IsTableStart(x: Lexer, lines: seq<Line>, index: nat, column: nat) {
    index + 1 < |lines|
    && var first, second := ContentAt(lines[index], column), ContentAt(lines[index + 1], column);
      first.Some? && second.Some? && HasBar(first.value.text) && HasBar(second.value.text)
          && x.tableRule(second.value.text)
  }

  /** `_ordered_interrupts_paragraph`. */
  predicate OrderedInterrupts(x: Lexer, text: string) { x.ordered(text) > 0 && x.startsAtOne(text) }

  predicate IsQuote(text: string) { text != "" && text[0] == '>' }

  /** Block starts that end a paragraph or a definition's first text. */
  predicate Interrupts(x: Lexer, lines: seq<Line>, index: nat, column: nat, text: string) {
    x.fenceOpens(text) || IsTableStart(x, lines, index, column) || IsQuote(text) || x.bullet(text) > 0
    || OrderedInterrupts(x, text) || x.htmlStarts(text)
  }

  /** `_starts_new_block_at_zero`. */
  predicate StartsNewBlockAtZero(x: Lexer, lines: seq<Line>, index: nat)
    requires index < |lines|
  {
    var text := lines[index].text;
    IsQuote(text) || x.fenceOpens(text) || x.bullet(text) > 0 || OrderedInterrupts(x, text) || x.htmlStarts(text)
    || LooksLikeAtx(text) || IsTableStart(x, lines, index, 0)
  }

  function LeadingBlanks(text: string): (n: nat)
    ensures n <= |text|
  {
    if text == "" || (text[0] != ' ' && text[0] != '\t') then 0 else 1 + LeadingBlanks(text[1..])
  }

  // ---------- Where a block ends ----------

  /** What ends the lines of a block. */
  datatype Stop =
    | FenceClose(opener: string, column: nat)
    | NoRow(column: nat)
    | NoQuote(column: nat)
    | NoItem(column: nat)
    | NoBody(column: nat)                      // of the first text of a definition
    | NoText(column: nat, inDefinition: bool)  // of a paragraph

  /** Where a paragraph ends. */
  predicate EndsParagraph(x: Lexer, lines: seq<Line>, index: nat, column: nat, inDefinition: bool, text: string) {
    Interrupts(x, lines, index, column, text) || (!inDefinition && LooksLikeAtx(text))
  }

  predicate StopsAt(x: Lexer, lines: seq<Line>, stop: Stop, k: nat)
    requires k < |lines|
  {
    var line := lines[k];
    match stop
    case FenceClose(opener, column) =>
      ContentAt(line, column).Some? && x.fenceCloses(opener, ContentAt(line, column).value.text)
    case NoRow(column) =>
      var content := ContentAt(line, column);
      content.None? || Blank(content.value.text) || !HasBar(content.value.text)
    case NoQuote(column) => ContentAt(line, column).None? || !IsQuote(ContentAt(line, column).value.text)
    case NoItem(column) => Blank(line.text) || LeadingSpaces(line.text) < column
    case NoBody(column) =>
      || Blank(line.text)
      || (if LeadingSpaces(line.text) >= column then Interrupts(x, lines, k, column, line.text[column..])
          else LeadingSpaces(line.text) > 0 || StartsNewBlockAtZero(x, lines, k))
    case NoText(column, inDefinition) =>
      || Blank(line.text) || LeadingSpaces(line.text) < column
      || EndsParagraph(x, lines, k, column, inDefinition, line.text[column..])
  }

  /** The first line from `from` on that ends the block, or the end of the document. */
  function FirstStop(x: Lexer, lines: seq<Line>, stop: Stop, from: nat): (end: nat)
    ensures from <= end && (from <= |lines| ==> end <= |lines|)
    decreases |lines| - from
  {
    if from >= |lines| || StopsAt(x, lines, stop, from) then from else FirstStop(x, lines, stop, from + 1)
  }

  lemma {:induction false} FirstStopIsFirst(x: Lexer, lines: seq<Line>, stop: Stop, from: nat)
    requires from <= |lines|
    ensures var end := FirstStop(x, lines, stop, from);
      && (end < |lines| ==> StopsAt(x, lines, stop, end))
      && forall k :: from <= k < end ==> !StopsAt(x, lines, stop, k)
    decreases |lines| - from
  {
    if from < |lines| && !StopsAt(x, lines, stop, from) {
      FirstStopIsFirst(x, lines, stop, from + 1);
    }
  }

  /** Where a raw-HTML block ends: with the line that empties the stack of open elements, or, while
      none is open, before a blank or dedented line; None if an element stays open. */
  function HtmlEnd(x: Lexer, lines: seq<Line>, index: nat, column: nat, cursor: nat,
                   stack: seq<string>): (end: Option<nat>)
    ensures end.Some? ==> cursor <= end.value && (cursor <= |lines| ==> end.value <= |lines|)
    decreases |lines| - cursor
  {
    var closed := if stack == [] then Some(cursor) else None;
    if cursor >= |lines| then closed
    else
      var blank, dedented := Blank(lines[cursor].text), LeadingSpaces(lines[cursor].text) < column;
      if (if stack != [] then !blank && dedented else cursor > index && (blank || dedented)) then closed
      else if blank then HtmlEnd(x, lines, index, column, cursor + 1, stack)
      else if dedented then closed
      else
        match x.scanHtml(lines[cursor].text[column..], stack)
        case None => None
        case Some(open) => if open == [] then Some(cursor + 1) else HtmlEnd(x, lines, index, column, cursor + 1, open)
  }

  // ---------- What a block adds ----------

  function ClauseEvents(ranges: seq<ClauseRange>): seq<Event> {
    if ranges == [] then []
    else
      var last := ranges[|ranges| - 1];
      ClauseEvents(ranges[..|ranges| - 1]) + if last.blank then [] else [AddLeaf(last.slice)]
  }

  lemma ClauseNext(ranges: seq<ClauseRange>, k: nat)
    requires k < |ranges|
    ensures ClauseEvents(ranges[..k + 1]) ==
      ClauseEvents(ranges[..k]) + if ranges[k].blank then [] else [AddLeaf(ranges[k].slice)]
  {
    assert ranges[..k + 1][..k] == ranges[..k];
  }

  function TextEvents(x: Lexer, blockKind: BlockKind, slice: Slice): seq<Event> {
    [AddBlock(blockKind, slice)] + ClauseEvents(x.clauses(slice))
  }

  /** Text in a definition is a list item. */
  function TextKind(inDefinition: bool): BlockKind { if inDefinition then ListItem else Paragraph }

  function RowLeaf(line: Line, column: nat): Event { AddLeaf(Slice(line.start + column, line.end)) }

  /** A row for each of the lines. */
  function RowEvents(lines: seq<Line>, from: nat, to: nat, column: nat): (rows: seq<Event>)
    requires from <= to <= |lines|
  {
    seq(to - from, i requires 0 <= i < to - from => RowLeaf(lines[from + i], column))
  }

  function TableEvents(x: Lexer, lines: seq<Line>, index: nat, column: nat): seq<Event>
    requires index + 1 < |lines| && ContentAt(lines[index], column).Some?
  {
    var end := FirstStop(x, lines, NoRow(column), index + 2);
    [AddTable(Slice(ContentAt(lines[index], column).value.start, lines[end - 1].end))]
    + RowEvents(lines, index + 2, end, column)
  }

  /** A quoted line without its marker. */
  function Quoted(line: Line, column: nat): Content {
    var inner := if column < |line.text| then line.text[column + 1..] else "";
    var text := if inner != "" && inner[0] == ' ' then inner[1..] else inner;
    Content(text, line.start + (|line.text| - |text|), line.end)
  }

  function QuoteBody(lines: seq<Line>, from: nat, to: nat, column: nat): (body: seq<Content>)
    requires from <= to <= |lines|
  {
    seq(to - from, i requires 0 <= i < to - from => Quoted(lines[from + i], column))
  }

  /** The first quoted line from `from` on without a bar. */
  function BarsEnd(body: seq<Content>, from: nat): (end: nat)
    requires from <= |body|
    ensures from <= end <= |body|
    decreases |body| - from
  {
    if from == |body| || !HasBar(body[from].text) then from else BarsEnd(body, from + 1)
  }

  function QuoteRows(body: seq<Content>, from: nat, to: nat): seq<Event>
    requires from <= to <= |body|
  {
    seq(to - from, i requires 0 <= i < to - from => AddLeaf(Slice(body[from + i].start, body[from + i].end)))
  }

  function QuotedTableEvents(body: seq<Content>): seq<Event>
    requires |body| >= 2
  {
    var end := BarsEnd(body, 2);
    [AddTable(Slice(body[0].start, body[end - 1].end))] + QuoteRows(body, 2, end)
  }

  function QuoteEvents(x: Lexer, line: Line, last: Line, body: seq<Content>): seq<Event> {
    if |body| >= 2 && HasBar(body[0].text) && x.tableRule(body[1].text) then
      QuotedTableEvents(body)
    else [AddBlock(Blockquote, Slice(line.start, last.end))]
  }

  // ---------- Blocks ----------

  /** What reading gives: the line after, and the events so far; or the error that ends the parse. */
  datatype Reading = Done(next: nat, events: seq<Event>) | Stopped(error: Error)

  function After(events: seq<Event>, rest: Reading): Reading {
    if rest.Done? then Done(rest.next, events + rest.events) else rest
  }

  /** The text of a continuation line, from `column` on or, of a lazy one, the whole. */
  function BodyLine(line: Line, column: nat): Content {
    if ContentAt(line, column).Some? then ContentAt(line, column).value else Content(line.text, line.start, line.end)
  }

  function BodyLines(lines: seq<Line>, from: nat, to: nat, column: nat): (body: seq<Content>)
    requires from <= to <= |lines|
  {
    seq(to - from, i requires 0 <= i < to - from => BodyLine(lines[from + i], column))
  }

  /** What follows marker and prefix on the line of a definition, if anything does. */
  function DefinitionStart(x: Lexer, line: Line, markerLen: nat): seq<Content>
    requires LexerOk(x) && markerLen <= |line.text|
  {
    var afterMarker := line.text[markerLen..];
    var prefix := x.definitionPrefix(afterMarker);
    var remainder := afterMarker[prefix..];
    var lead := LeadingBlanks(remainder);
    if remainder[lead..] == "" then []
    else [Content(remainder[lead..], line.start + ByteLen(line.text[..markerLen]) + ByteLen(afterMarker[..prefix])
                                     + ByteLen(remainder[..lead]), line.end)]
  }

  predicate HasText(body: seq<Content>) { exists k :: 0 <= k < |body| && !Blank(body[k].text) }

  /** A definition's first text, unless all of it is blank. */
  function FirstText(x: Lexer, body: seq<Content>): seq<Event> {
    if HasText(body) then TextEvents(x, ListItem, Slice(body[0].start, body[|body| - 1].end)) else []
  }

  function DefinitionEvents(id: string, first: seq<Event>, inner: seq<Event>, slice: Slice): seq<Event> {
    [StartDefinition(id)] + first + inner + [EndDefinition(slice)]
  }

  function Least(a: nat, b: nat): nat { if a < b then a else b }

  /** The marker of a list item. */
  function MarkerLen(x: Lexer, text: string): nat { if x.bullet(text) > 0 then x.bullet(text) else x.ordered(text) }

  predicate DefinitionForm(x: Lexer, text: string, column: nat, inDefinition: bool)
    requires LexerOk(x)
  {
    x.definition(text[MarkerLen(x, text)..]).Some? && !inDefinition && column == 0 && x.bullet(text) > 0
  }

  /** The block that begins on line `index`. */
  function BlockAt(x: Lexer, lines: seq<Line>, index: nat, column: nat, inDefinition: bool): (r: Reading)
    requires LexerOk(x) && index < |lines| && !Blank(lines[index].text) && ContentAt(lines[index], column).Some?
    ensures r.Done? ==> index < r.next
    decreases |lines| - index, 2
  {
    var content := ContentAt(lines[index], column).value;
    var text, start := content.text, content.start;
    if x.htmlStarts(text) then
      var end := HtmlEnd(x, lines, index, column, index, []);
      if end.None? then Stopped(HtmlFailsClosed)
      else Done(end.value, [AddBlock(Paragraph, Slice(start, lines[end.value - 1].end))])
    else if x.fenceOpens(text) then
      var close := FirstStop(x, lines, FenceClose(text, column), index + 1);
      Done(close + 1, [AddBlock(FencedCode, Slice(start, lines[Least(close, |lines| - 1)].end))])
    else if IsTableStart(x, lines, index, column) then
      Done(FirstStop(x, lines, NoRow(column), index + 2), TableEvents(x, lines, index, column))
    else if IsQuote(text) then
      QuoteMoves(x, lines, index, column);
      var end := FirstStop(x, lines, NoQuote(column), index);
      Done(end, QuoteEvents(x, lines[index], lines[end - 1], QuoteBody(lines, index, end, column)))
    else if x.bullet(text) > 0 || x.ordered(text) > 0 then
      ItemAt(x, lines, index, column, inDefinition)
    else
      var end := FirstStop(x, lines, NoText(column, inDefinition), index + 1);
      Done(end, TextEvents(x, TextKind(inDefinition), Slice(start, lines[end - 1].end)))
  }

  /** A list item, or a definition in the form of one. */
  function ItemAt(x: Lexer, lines: seq<Line>, index: nat, column: nat, inDefinition: bool): (r: Reading)
    requires LexerOk(x) && index < |lines| && ContentAt(lines[index], column).Some?
    ensures r.Done? ==> index < r.next
    decreases |lines| - index, 1
  {
    var content := ContentAt(lines[index], column).value;
    var text, markerLen := content.text, MarkerLen(x, content.text);
    if DefinitionForm(x, text, column, inDefinition) then
      DefinitionAt(x, lines, index, markerLen, x.definition(text[markerLen..]).value)
    else
      var end := FirstStop(x, lines, NoItem(column + markerLen), index + 1);
      Done(end, TextEvents(x, ListItem, Slice(content.start + markerLen, lines[end - 1].end)))
  }

  /** A definition: its first text as a list item, then the blocks indented below it. */
  function DefinitionAt(x: Lexer, lines: seq<Line>, index: nat, markerLen: nat, id: string): (r: Reading)
    requires LexerOk(x) && index < |lines| && markerLen <= |lines[index].text|
    ensures r.Done? ==> index < r.next
    decreases |lines| - index, 0
  {
    var end := FirstStop(x, lines, NoBody(markerLen), index + 1);
    var body := DefinitionStart(x, lines[index], markerLen) + BodyLines(lines, index + 1, end, markerLen);
    var inner := Blocks(x, lines, end, markerLen, true);
    if inner.Stopped? then inner
    else
      var slice := Slice(lines[index].start, LastEnd(lines, index, Least(inner.next, |lines|)));
      Done(inner.next, DefinitionEvents(id, FirstText(x, body), inner.events, slice))
  }

  /** `_parse_blocks`: blocks until a heading or, inside a definition, a dedented line. */
  function Blocks(x: Lexer, lines: seq<Line>, start: nat, column: nat, inDefinition: bool): (r: Reading)
    requires LexerOk(x)
    ensures r.Done? ==> start <= r.next
    decreases |lines| - start, 3
  {
    if start >= |lines| then Done(start, [])
    else if Blank(lines[start].text) then Blocks(x, lines, start + 1, column, inDefinition)
    else if LeadingSpaces(lines[start].text) < column then Done(start, [])
    else
      var heading := if inDefinition then NotHeading else InspectHeading(x, lines[start].text);
      match heading
      case Title => Stopped(SecondTitle)
      case Invalid => Stopped(InvalidHeading)
      case Heading(_, _) => Done(start, [])
      case NotHeading =>
        var block := BlockAt(x, lines, start, column, inDefinition);
        if block.Stopped? then block
        else After(block.events, Blocks(x, lines, block.next, column, inDefinition))
  }

  // ---------- Documents ----------

  function Closes(n: nat, next: nat): seq<Event> { if n == 0 then [] else Closes(n - 1, next) + [CloseSection(next)] }

  lemma ClosesNext(log: seq<Event>, n: nat, next: nat)
    ensures log + Closes(n, next) + [CloseSection(next)] == log + Closes(n + 1, next)
  {
  }

  predicate StartsBlock(x: Lexer, lines: seq<Line>, index: nat) {
    index < |lines| && !Blank(lines[index].text) && InspectHeading(x, lines[index].text).NotHeading?
  }

  lemma {:induction false} BlocksMove(x: Lexer, lines: seq<Line>, start: nat)
    requires LexerOk(x) && StartsBlock(x, lines, start)
    ensures var r := Blocks(x, lines, start, 0, false); r.Done? ==> start < r.next
  {
  }

  /** Headings and what stands between them, with `open` sections of depths 2, 3, .. open. */
  function Sections(x: Lexer, lines: seq<Line>, index: nat, open: nat, seen: set<string>): (r: Reading)
    requires LexerOk(x)
    decreases |lines| - index
  {
    if index >= |lines| then Done(index, Closes(open, |lines|))
    else if Blank(lines[index].text) then Sections(x, lines, index + 1, open, seen)
    else
      match InspectHeading(x, lines[index].text)
      case Title => Stopped(SecondTitle)
      case Invalid => Stopped(InvalidHeading)
      case Heading(depth, id) =>
        if id in seen then Stopped(DuplicateSectionId(id))
        else if depth > open + 2 then Stopped(SkippedDepth(open + 1, depth))
        else After(Closes(open - (depth - 2), index) + [OpenSection(index, id)],
                   Sections(x, lines, index + 1, depth - 1, seen + {id}))
      case NotHeading =>
        BlocksMove(x, lines, index);
        var blocks := Blocks(x, lines, index, 0, false);
        if blocks.Stopped? then blocks
        else After(blocks.events, Sections(x, lines, blocks.next, open, seen))
  }

  function DocumentEvents(x: Lexer, lines: seq<Line>): Reading
    requires LexerOk(x)
  {
    if lines == [] then Stopped(EmptyDocument)
    else if lines[0].start != 0 || !IsH1(lines[0].text) then Stopped(NoTitle)
    else Sections(x, lines, 1, 0, {})
  }

  // ---------- Following a reading ----------

  /** The answer of a parser method that was to read `r`. */
  predicate Answers(r: Reading, next: nat, error: Option<Error>, before: seq<Event>, after: seq<Event>) {
    match r
    case Stopped(e) => error == Some(e)
    case Done(n, events) => error.None? && next == n && after == before + events
  }

  lemma AfterNothing(r: Reading)
    ensures After([], r) == r
  {
    if r.Done? {
      assert [] + r.events == r.events;
    }
  }

  lemma AfterTwice(a: seq<Event>, b: seq<Event>, r: Reading)
    ensures After(a, After(b, r)) == After(a + b, r)
  {
    if r.Done? {
      assert a + (b + r.events) == (a + b) + r.events;
    }
  }

  lemma FourParts<T>(s: seq<T>, a: seq<T>, b: seq<T>, c: seq<T>, d: seq<T>)
    ensures s + a + b + c + d == s + (a + b + c + d)
  {
  }

  lemma RowAt(lines: seq<Line>, from: nat, to: nat, column: nat, k: nat)
    requires from <= k < to <= |lines|
    ensures RowEvents(lines, from, to, column)[k - from] == RowLeaf(lines[k], column)
  {
  }

  lemma NextRow(log: seq<Event>, rows: seq<Event>, n: nat, row: Event)
    requires n < |rows| && row == rows[n]
    ensures log + rows[..n] + [row] == log + rows[..n + 1]
  {
  }

  lemma QuoteNext(lines: seq<Line>, from: nat, to: nat, column: nat)
    requires from <= to < |lines|
    ensures QuoteBody(lines, from, to, column) + [Quoted(lines[to], column)] == QuoteBody(lines, from, to + 1, column)
  {
  }

  lemma BodyNext(lines: seq<Line>, from: nat, to: nat, column: nat, first: seq<Content>, more: seq<Content>,
                 content: Content)
    requires from <= to < |lines| && content == BodyLine(lines[to], column)
        && more == BodyLines(lines, from, to, column)
    ensures more + [content] == BodyLines(lines, from, to + 1, column)
    ensures first + more + [content] == first + (more + [content])
  {
  }

  lemma TableParts(x: Lexer, lines: seq<Line>, index: nat, column: nat, from: nat, to: nat, slice: Slice)
    returns (rows: seq<Event>, events: seq<Event>)
    requires index + 1 < |lines| && ContentAt(lines[index], column).Some? && from == index + 2 <= to <= |lines|
    requires to == FirstStop(x, lines, NoRow(column), from)
    requires slice == Slice(ContentAt(lines[index], column).value.start, lines[to - 1].end)
    ensures rows == RowEvents(lines, from, to, column)
    ensures events == TableEvents(x, lines, index, column) == [AddTable(slice)] + rows
    ensures forall k :: from <= k < to ==> ContentAt(lines[k], column).Some?
  {
    FirstStopIsFirst(x, lines, NoRow(column), from);
    forall k | from <= k < to
      ensures ContentAt(lines[k], column).Some?
    {
      assert !StopsAt(x, lines, NoRow(column), k);
    }
    rows, events := RowEvents(lines, from, to, column), TableEvents(x, lines, index, column);
  }

  /** `all` begins with what was read `before`; a heading here is refused, or `rest` follows it. */
  predicate HeadingLeads(before: seq<Event>, open: nat, seen: set<string>, index: nat, depth: nat, id: string,
                         all: Reading, rest: Reading)
    requires depth >= 2
  {
    if id in seen then all == Stopped(DuplicateSectionId(id))
    else if depth > open + 2 then all == Stopped(SkippedDepth(open + 1, depth))
    else After(before + Closes(open - (depth - 2), index) + [OpenSection(index, id)], rest) == all
  }

  lemma {:induction false} HeadingFollows(x: Lexer, lines: seq<Line>, index: nat, open: nat, seen: set<string>,
                                          depth: nat, id: string, before: seq<Event>, all: Reading,
                                          next: nat, level: nat, more: set<string>)
    returns (rest: Reading)
    requires LexerOk(x) && index < |lines| && !Blank(lines[index].text) && depth >= 2
    requires InspectHeading(x, lines[index].text) == Heading(depth, id)
    requires next == index + 1 && level == depth - 1 && more == seen + {id}
    requires After(before, Sections(x, lines, index, open, seen)) == all
    ensures rest == Sections(x, lines, next, level, more)
    ensures HeadingLeads(before, open, seen, index, depth, id, all, rest)
  {
    rest := Sections(x, lines, next, level, more);
    if id !in seen && depth <= open + 2 {
      var closes, opens := Closes(open - (depth - 2), index), [OpenSection(index, id)];
      Reassociate(before, closes, opens);
      AfterTwice(before, closes + opens, rest);
    }
  }

  lemma {:induction false} SectionsAtHeading(x: Lexer, lines: seq<Line>, index: nat, open: nat, seen: set<string>,
                                             r: Reading, next: nat, closes: seq<Event>)
    returns (id: string, level: nat, more: set<string>, rest: Reading)
    requires LexerOk(x) && r == Sections(x, lines, index, open, seen) && r.Done?
    requires index < |lines| && !Blank(lines[index].text) && !StartsBlock(x, lines, index) && next == index + 1
    requires closes == HeadingCloses(x, lines[index].text, open, index)
    ensures IsOpening(x, lines[index].text, id) && rest == Sections(x, lines, next, level, more) && rest.Done?
    ensures r.events == (closes + [OpenSection(index, id)]) + rest.events
  {
    var heading := InspectHeading(x, lines[index].text);
    id, level, more := heading.id, heading.depth - 1, seen + {heading.id};
    rest := Sections(x, lines, next, level, more);
  }

  predicate IsOpening(x: Lexer, text: string, id: string) {
    InspectHeading(x, text).Heading? && InspectHeading(x, text).id == id
  }

  /** The sections that a heading on line `index` closes. */
  function HeadingCloses(x: Lexer, text: string, open: nat, index: nat): seq<Event> {
    var heading := InspectHeading(x, text);
    if heading.Heading? && 2 <= heading.depth <= open + 2 then Closes(open - (heading.depth - 2), index) else []
  }

  lemma {:induction false} SectionsAtBlocks(x: Lexer, lines: seq<Line>, index: nat, open: nat, seen: set<string>,
                                            blocks: Reading)
    requires LexerOk(x) && StartsBlock(x, lines, index) && blocks == Blocks(x, lines, index, 0, false)
    ensures blocks.Done? ==> index < blocks.next
    ensures Sections(x, lines, index, open, seen) ==
      if blocks.Stopped? then blocks else After(blocks.events, Sections(x, lines, blocks.next, open, seen))
  {
    BlocksMove(x, lines, index);
  }

  lemma {:induction false} DefinitionParts(x: Lexer, lines: seq<Line>, index: nat, markerLen: nat, id: string,
                        end: nat, body: seq<Content>, inner: Reading)
    requires LexerOk(x) && index < |lines| && markerLen <= |lines[index].text|
    requires end == FirstStop(x, lines, NoBody(markerLen), index + 1)
    requires body == DefinitionStart(x, lines[index], markerLen) + BodyLines(lines, index + 1, end, markerLen)
    requires inner == Blocks(x, lines, end, markerLen, true)
    ensures DefinitionAt(x, lines, index, markerLen, id) ==
      if inner.Stopped? then inner
      else Done(inner.next, DefinitionEvents(id, FirstText(x, body), inner.events,
                                             Slice(lines[index].start,
                                                   LastEnd(lines, index, Least(inner.next, |lines|)))))
  {
  }

  // What `BlockAt` gives, by what the line begins with.

  predicate MayBegin(x: Lexer, lines: seq<Line>, index: nat, column: nat) {
    index < |lines| && !Blank(lines[index].text) && ContentAt(lines[index], column).Some?
  }

  lemma {:induction false} HtmlBlock(x: Lexer, lines: seq<Line>, index: nat, column: nat, inDefinition: bool)
    requires LexerOk(x) && MayBegin(x, lines, index, column) && x.htmlStarts(lines[index].text[column..])
    ensures BlockAt(x, lines, index, column, inDefinition) ==
      match HtmlEnd(x, lines, index, column, index, [])
      case None => Stopped(HtmlFailsClosed)
      case Some(end) => Done(end, [AddBlock(Paragraph, Slice(lines[index].start + column, lines[end - 1].end))])
  {
  }

  /** The fence opened on line `index` closes on line `close`, or at the end of the document. */
  predicate FencedBy(x: Lexer, lines: seq<Line>, index: nat, column: nat, close: nat, slice: Slice)
    requires index < |lines| && ContentAt(lines[index], column).Some?
  {
    && close == FirstStop(x, lines, FenceClose(lines[index].text[column..], column), index + 1)
    && slice == Slice(lines[index].start + column, lines[Least(close, |lines| - 1)].end)
  }

  lemma {:induction false} FenceBlock(x: Lexer, lines: seq<Line>, index: nat, column: nat, inDefinition: bool,
                                      next: nat, slice: Slice)
    requires LexerOk(x) && MayBegin(x, lines, index, column) && next > 0
        && FencedBy(x, lines, index, column, next - 1, slice)
    requires var text := lines[index].text[column..]; !x.htmlStarts(text) && x.fenceOpens(text)
    ensures BlockAt(x, lines, index, column, inDefinition) == Done(next, [AddBlock(FencedCode, slice)])
  {
  }

  lemma {:induction false} TableBlock(x: Lexer, lines: seq<Line>, index: nat, column: nat, inDefinition: bool,
                                      next: nat, events: seq<Event>)
    requires LexerOk(x) && MayBegin(x, lines, index, column) && IsTableStart(x, lines, index, column)
    requires var text := lines[index].text[column..]; !x.htmlStarts(text) && !x.fenceOpens(text)
    requires next == FirstStop(x, lines, NoRow(column), index + 2) && events == TableEvents(x, lines, index, column)
    ensures BlockAt(x, lines, index, column, inDefinition) == Done(next, events)
  {
  }

  lemma {:induction false} QuoteMoves(x: Lexer, lines: seq<Line>, index: nat, column: nat)
    requires index < |lines| && ContentAt(lines[index], column).Some? && IsQuote(lines[index].text[column..])
    ensures index < FirstStop(x, lines, NoQuote(column), index) <= |lines|
  {
  }

  lemma {:induction false} QuoteBlock(x: Lexer, lines: seq<Line>, index: nat, column: nat, inDefinition: bool,
                   end: nat, last: Line, body: seq<Content>)
    requires LexerOk(x) && MayBegin(x, lines, index, column) && !IsTableStart(x, lines, index, column)
    requires var text := lines[index].text[column..]; !x.htmlStarts(text) && !x.fenceOpens(text) && IsQuote(text)
    requires index < end == FirstStop(x, lines, NoQuote(column), index) <= |lines| && last == lines[end - 1]
    requires body == QuoteBody(lines, index, end, column)
    ensures BlockAt(x, lines, index, column, inDefinition) == Done(end, QuoteEvents(x, lines[index], last, body))
  {
  }

  lemma {:induction false} ItemBlock(x: Lexer, lines: seq<Line>, index: nat, column: nat, inDefinition: bool)
    requires LexerOk(x) && MayBegin(x, lines, index, column) && !IsTableStart(x, lines, index, column)
    requires var text := lines[index].text[column..];
      !x.htmlStarts(text) && !x.fenceOpens(text) && !IsQuote(text) && (x.bullet(text) > 0 || x.ordered(text) > 0)
    ensures BlockAt(x, lines, index, column, inDefinition) == ItemAt(x, lines, index, column, inDefinition)
  {
  }

  lemma {:induction false} TextBlock(x: Lexer, lines: seq<Line>, index: nat, column: nat, inDefinition: bool,
                  end: nat, blockKind: BlockKind, slice: Slice)
    requires LexerOk(x) && MayBegin(x, lines, index, column) && !IsTableStart(x, lines, index, column)
    requires var text := lines[index].text[column..];
      !x.htmlStarts(text) && !x.fenceOpens(text) && !IsQuote(text) && x.bullet(text) == 0 && x.ordered(text) == 0
    requires index < end == FirstStop(x, lines, NoText(column, inDefinition), index + 1) <= |lines|
    requires blockKind == TextKind(inDefinition)
    requires slice == Slice(lines[index].start + column, lines[end - 1].end)
    ensures BlockAt(x, lines, index, column, inDefinition) == Done(end, TextEvents(x, blockKind, slice))
  {
  }

  lemma {:induction false} ItemIsDefinition(x: Lexer, lines: seq<Line>, index: nat, markerLen: nat, id: string)
    requires LexerOk(x) && index < |lines| && markerLen == x.bullet(lines[index].text) > 0
    requires x.definition(lines[index].text[markerLen..]) == Some(id)
    ensures ItemAt(x, lines, index, 0, false) == DefinitionAt(x, lines, index, markerLen, id)
  {
  }

  lemma {:induction false} ItemIsText(x: Lexer, lines: seq<Line>, index: nat, column: nat, inDefinition: bool,
                                      markerLen: nat, end: nat, slice: Slice)
    requires LexerOk(x) && index < |lines| && ContentAt(lines[index], column).Some?
    requires var text := lines[index].text[column..];
      markerLen == MarkerLen(x, text) && !DefinitionForm(x, text, column, inDefinition)
    requires index < end == FirstStop(x, lines, NoItem(column + markerLen), index + 1) <= |lines|
    requires slice == Slice(lines[index].start + column + markerLen, lines[end - 1].end)
    ensures ItemAt(x, lines, index, column, inDefinition) == Done(end, TextEvents(x, ListItem, slice))
  {
  }

  // ---------- Blocks open no section ----------

  predicate InertEvent(e: Event) { !e.CloseSection? && !e.OpenSection? }

  predicate Inert(events: seq<Event>) { forall k :: 0 <= k < |events| ==> InertEvent(events[k]) }

  lemma {:induction false} ClausesAreInert(ranges: seq<ClauseRange>)
    ensures Inert(ClauseEvents(ranges))
  {
    if ranges != [] {
      ClausesAreInert(ranges[..|ranges| - 1]);
    }
  }

  lemma TableIsInert(x: Lexer, lines: seq<Line>, index: nat, column: nat, events: seq<Event>)
    requires index + 1 < |lines| && ContentAt(lines[index], column).Some?
        && events == TableEvents(x, lines, index, column)
    ensures Inert(events)
  {
    var rows := RowEvents(lines, index + 2, FirstStop(x, lines, NoRow(column), index + 2), column);
    forall k | 0 <= k < |events|
      ensures InertEvent(events[k])
    {
      if k > 0 {
        RowAt(lines, index + 2, index + 2 + |rows|, column, index + 1 + k);
      }
    }
  }

  lemma QuoteIsInert(x: Lexer, line: Line, last: Line, body: seq<Content>)
    ensures Inert(QuoteEvents(x, line, last, body))
  {
  }

  lemma TextIsInert(x: Lexer, blockKind: BlockKind, slice: Slice)
    ensures Inert(TextEvents(x, blockKind, slice))
  {
    ClausesAreInert(x.clauses(slice));
  }

  lemma {:induction false} BlockIsInert(x: Lexer, lines: seq<Line>, index: nat, column: nat, inDefinition: bool)
    requires LexerOk(x) && index < |lines| && !Blank(lines[index].text) && ContentAt(lines[index], column).Some?
    ensures var r := BlockAt(x, lines, index, column, inDefinition); r.Done? ==> Inert(r.events)
    decreases |lines| - index, 2
  {
    var text, start := lines[index].text[column..], lines[index].start + column;
    if x.htmlStarts(text) {
      HtmlBlock(x, lines, index, column, inDefinition);
    } else if x.fenceOpens(text) {
      var close := FirstStop(x, lines, FenceClose(text, column), index + 1);
      FenceBlock(x, lines, index, column, inDefinition, close + 1, Slice(start, lines[Least(close, |lines| - 1)].end));
    } else if IsTableStart(x, lines, index, column) {
      TableIsInert(x, lines, index, column, TableEvents(x, lines, index, column));
    } else if IsQuote(text) {
      QuoteMoves(x, lines, index, column);
      var end, body := FirstStop(x, lines, NoQuote(column), index),
          QuoteBody(lines, index, FirstStop(x, lines, NoQuote(column), index), column);
      QuoteBlock(x, lines, index, column, inDefinition, end, lines[end - 1], body);
      QuoteIsInert(x, lines[index], lines[end - 1], body);
    } else if x.bullet(text) > 0 || x.ordered(text) > 0 {
      ItemBlock(x, lines, index, column, inDefinition);
      ItemIsInert(x, lines, index, column, inDefinition, ItemAt(x, lines, index, column, inDefinition));
    } else {
      var end, kind := FirstStop(x, lines, NoText(column, inDefinition), index + 1), TextKind(inDefinition);
      var slice := Slice(start, lines[end - 1].end);
      TextBlock(x, lines, index, column, inDefinition, end, kind, slice);
      TextIsInert(x, kind, slice);
    }
  }

  lemma {:induction false} ItemIsInert(x: Lexer, lines: seq<Line>, index: nat, column: nat, inDefinition: bool,
                                       r: Reading)
    requires LexerOk(x) && index < |lines| && ContentAt(lines[index], column).Some?
    requires r == ItemAt(x, lines, index, column, inDefinition)
    ensures r.Done? ==> Inert(r.events)
    decreases |lines| - index, 1
  {
    var content := ContentAt(lines[index], column).value;
    var text, markerLen := content.text, MarkerLen(x, content.text);
    if DefinitionForm(x, text, column, inDefinition) {
      var id := x.definition(text[markerLen..]).value;
      ItemIsDefinition(x, lines, index, markerLen, id);
      DefinitionIsInert(x, lines, index, markerLen, id, r);
    } else {
      var end := FirstStop(x, lines, NoItem(column + markerLen), index + 1);
      var slice := Slice(content.start + markerLen, lines[end - 1].end);
      ItemIsText(x, lines, index, column, inDefinition, markerLen, end, slice);
      TextIsInert(x, ListItem, slice);
    }
  }

  lemma FirstTextIsInert(x: Lexer, body: seq<Content>)
    ensures Inert(FirstText(x, body))
  {
    if HasText(body) {
      TextIsInert(x, ListItem, Slice(body[0].start, body[|body| - 1].end));
    }
  }

  lemma DefinitionEventsAreInert(id: string, first: seq<Event>, inner: seq<Event>, slice: Slice)
    requires Inert(first) && Inert(inner)
    ensures Inert(DefinitionEvents(id, first, inner, slice))
  {
  }

  lemma {:induction false} DefinitionIsInert(x: Lexer, lines: seq<Line>, index: nat, markerLen: nat, id: string,
                                             r: Reading)
    requires LexerOk(x) && index < |lines| && markerLen <= |lines[index].text|
    requires r == DefinitionAt(x, lines, index, markerLen, id)
    ensures r.Done? ==> Inert(r.events)
    decreases |lines| - index, 0
  {
    var end := FirstStop(x, lines, NoBody(markerLen), index + 1);
    var body := DefinitionStart(x, lines[index], markerLen) + BodyLines(lines, index + 1, end, markerLen);
    var inner := Blocks(x, lines, end, markerLen, true);
    DefinitionParts(x, lines, index, markerLen, id, end, body, inner);
    BlocksAreInert(x, lines, end, markerLen, true);
    if inner.Done? {
      var slice := Slice(lines[index].start, LastEnd(lines, index, Least(inner.next, |lines|)));
      FirstTextIsInert(x, body);
      DefinitionEventsAreInert(id, FirstText(x, body), inner.events, slice);
    }
  }

  /** No block, whatever its lines look like, opens or closes a section. */
  lemma {:induction false} BlocksAreInert(x: Lexer, lines: seq<Line>, start: nat, column: nat, inDefinition: bool)
    requires LexerOk(x)
    ensures var r := Blocks(x, lines, start, column, inDefinition); r.Done? ==> Inert(r.events)
    decreases |lines| - start, 3
  {
    if start < |lines| {
      if Blank(lines[start].text) {
        BlocksAreInert(x, lines, start + 1, column, inDefinition);
      } else if LeadingSpaces(lines[start].text) >= column {
        if inDefinition || InspectHeading(x, lines[start].text).NotHeading? {
          BlockIsInert(x, lines, start, column, inDefinition);
          var block := BlockAt(x, lines, start, column, inDefinition);
          if block.Done? {
            BlocksAreInert(x, lines, block.next, column, inDefinition);
          }
        }
      }
    }
  }

  lemma InertStep(lines: seq<Line>, s: State, e: Event)
    requires InertEvent(e)
    ensures |Step(lines, s, e).stack| == |s.stack| && Step(lines, s, e).seen == s.seen
  {
  }

  lemma {:induction false} ReplayLast(lines: seq<Line>, whole: Slice, log: seq<Event>, init: seq<Event>, e: Event)
    requires log != [] && log[..|log| - 1] == init && log[|log| - 1] == e
    ensures Replay(lines, whole, log) == Step(lines, Replay(lines, whole, init), e)
  {
  }

  lemma {:induction false} InertRun(lines: seq<Line>, whole: Slice, log: seq<Event>, events: seq<Event>)
    requires Inert(events)
    ensures var s, t := Replay(lines, whole, log), Replay(lines, whole, log + events);
        |t.stack| == |s.stack| && t.seen == s.seen
    decreases |events|
  {
    if events == [] {
      assert log + events == log;
    } else {
      var init, e := events[..|events| - 1], events[|events| - 1];
      InertRun(lines, whole, log, init);
      assert (log + events)[..|log + events| - 1] == log + init && (log + events)[|log + events| - 1] == e;
      InertStep(lines, Replay(lines, whole, log + init), e);
      ReplayLast(lines, whole, log + events, log + init, e);
    }
  }

  // ---------- A document that defines one id twice ----------

  /** Every dash is a bullet, and every bullet a definition of D. */
  const BULLETS := Lexer(_ => None, _ => false, (_, stack) => Some(stack), _ => false, (_, _) => false, _ => false,
                         t => if t != "" && t[0] == '-' then 1 else 0, _ => 0, _ => false, _ => Some("D"), _ => 0,
                         _ => [])

  /** A title and two bullets. */
  const TWICE := [Line("# t", 0, 3), Line("-", 4, 5), Line("-", 6, 7)]

  lemma Bulleted()
    ensures LexerOk(BULLETS) && LinesOk(TWICE)
  {
  }

  lemma {:induction false} BulletLine(i: nat)
    requires i in {1, 2}
    ensures var text := TWICE[i].text;
      text == "-" && text[0..] == "-" && text[1..] == "" && LeadingSpaces(text) == 0 && !Blank(text)
          && !LooksLikeAtx(text)
  {
    assert TWICE[i].text[0] == '-';
  }

  lemma {:induction false} NothingInside(next: nat)
    requires next in {2, 3}
    ensures LexerOk(BULLETS) && FirstStop(BULLETS, TWICE, NoBody(1), next) == next
    ensures Blocks(BULLETS, TWICE, next, 1, true) == Done(next, [])
  {
    Bulleted();
    if next == 2 {
      BulletLine(next);
    }
  }

  lemma {:induction false} BulletDefines(i: nat, next: nat)
    requires i in {1, 2} && next == i + 1
    ensures LexerOk(BULLETS) && TWICE[i].text == "-"
    ensures DefinitionAt(BULLETS, TWICE, i, 1, "D") ==
      Done(next, DefinitionEvents("D", [], [], Slice(TWICE[i].start, TWICE[i].end)))
  {
    BulletLine(i);
    NothingInside(next);
    var body := DefinitionStart(BULLETS, TWICE[i], 1) + BodyLines(TWICE, next, next, 1);
    assert body == [];
    DefinitionParts(BULLETS, TWICE, i, 1, "D", next, body, Done(next, []));
  }

  lemma {:induction false} OneBullet(i: nat, next: nat)
    requires i in {1, 2} && next == i + 1
    ensures LexerOk(BULLETS) && StartsBlock(BULLETS, TWICE, i) && ContentAt(TWICE[i], 0).Some?
    ensures BlockAt(BULLETS, TWICE, i, 0, false) ==
      Done(next, DefinitionEvents("D", [], [], Slice(TWICE[i].start, TWICE[i].end)))
  {
    Bulleted();
    BulletLine(i);
    BulletDefines(i, next);
    ItemIsDefinition(BULLETS, TWICE, i, 1, "D");
    ItemBlock(BULLETS, TWICE, i, 0, false);
  }

  lemma {:induction false} BlockThen(x: Lexer, lines: seq<Line>, index: nat, next: nat, events: seq<Event>)
    requires LexerOk(x) && StartsBlock(x, lines, index) && ContentAt(lines[index], 0).Some?
    requires BlockAt(x, lines, index, 0, false) == Done(next, events)
    ensures Blocks(x, lines, index, 0, false) == After(events, Blocks(x, lines, next, 0, false))
  {
  }

  lemma {:induction false} TwoBlocks(x: Lexer, lines: seq<Line>, one: nat, two: nat, end: nat, first: seq<Event>,
                                     second: seq<Event>)
    requires LexerOk(x) && one == 1 && two == 2 && end == 3 == |lines| && lines[0].start == 0 && IsH1(lines[0].text)
    requires StartsBlock(x, lines, one) && ContentAt(lines[one], 0).Some?
    requires StartsBlock(x, lines, two) && ContentAt(lines[two], 0).Some?
    requires BlockAt(x, lines, one, 0, false) == Done(two, first)
        && BlockAt(x, lines, two, 0, false) == Done(end, second)
    ensures DocumentEvents(x, lines) == Done(end, first + second)
  {
    BlockThen(x, lines, one, two, first);
    BlockThen(x, lines, two, end, second);
    var none: seq<Event> := [];
    assert Blocks(x, lines, end, 0, false) == Done(end, none);
    assert second + none == second && (first + second) + none == first + second;
    SectionsAtBlocks(x, lines, one, 0, {}, Done(end, first + second));
    assert Sections(x, lines, end, 0, {}) == Done(end, none);
  }

  /** The events of the document "# t", "-", "-": it defines D twice. */
  lemma DocumentDefinesTwice(x: Lexer, lines: seq<Line>, a: Slice, b: Slice)
    requires x == BULLETS && lines == TWICE && a == Slice(4, 5) && b == Slice(6, 7)
    ensures LexerOk(x) && LinesOk(lines)
    ensures DocumentEvents(x, lines) ==
      Done(3, [StartDefinition("D"), EndDefinition(a), StartDefinition("D"), EndDefinition(b)])
  {
    var one, two, end := 1, 2, 3;
    Bulleted();
    OneBullet(one, two);
    OneBullet(two, end);
    var first, second := DefinitionEvents("D", [], [], a), DefinitionEvents("D", [], [], b);
    TwoBlocks(x, lines, one, two, end, first, second);
    TwiceOver("D", a, b, first, second);
  }

  lemma TwiceOver(id: string, a: Slice, b: Slice, first: seq<Event>, second: seq<Event>)
    requires first == DefinitionEvents(id, [], [], a) && second == DefinitionEvents(id, [], [], b)
    ensures first + second == [StartDefinition(id), EndDefinition(a), StartDefinition(id), EndDefinition(b)]
  {
  }
}
