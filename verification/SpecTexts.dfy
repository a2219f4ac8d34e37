/** Where the texts of a document begin and end (`_consume_paragraph`, `_consume_definition`,
    `_inspect_heading` in scripts/spec_structure.py), line by line and in terms of the lexer alone. */
module SpecTexts {
  import opened Wrappers
  import opened Text
  import opened SpecUnits
  import opened SpecSlices
  import opened SpecMachine
  import opened SpecBlocks
  import opened SpecHeadings

  // ---------- Lines in words ----------

  ghost predicate Indented(text: string, column: nat) {
    column <= |text| && forall i :: 0 <= i < column ==> text[i] == ' '
  }

  ghost predicate Hashes(text: string, depth: nat) {
    depth <= |text| && forall i :: 0 <= i < depth ==> text[i] == '#'
  }

  /** One to six hashes and a blank. */
  ghost predicate HeadingLike(text: string) {
    exists d: nat :: 1 <= d <= 6 && d < |text| && Hashes(text, d) && text[d] in {' ', '\t'}
  }

  /** Two indented lines with bars, the second of them a rule. */
  ghost predicate TableFrom(x: Lexer, lines: seq<Line>, k: nat, column: nat) {
    && k + 1 < |lines| && Indented(lines[k].text, column) && Indented(lines[k + 1].text, column)
    && '|' in lines[k].text[column..] && '|' in lines[k + 1].text[column..] && x.tableRule(lines[k + 1].text[column..])
  }

  ghost predicate Quotes(text: string) { |text| > 0 && text[0] == '>' }

  /** An item whose marker may stand right below a text. */
  ghost predicate ItemBelow(x: Lexer, text: string) {
    x.bullet(text) > 0 || (x.ordered(text) > 0 && x.startsAtOne(text))
  }

  ghost predicate BlockBelow(x: Lexer, lines: seq<Line>, k: nat, column: nat)
    requires k < |lines| && column <= |lines[k].text|
  {
    var text := lines[k].text[column..];
    Quotes(text) || ItemBelow(x, text) || x.fenceOpens(text) || x.htmlStarts(text) || TableFrom(x, lines, k, column)
  }

  /** A paragraph does not go on with line k. */
  ghost predicate ParagraphBreak(x: Lexer, lines: seq<Line>, k: nat, column: nat, inDefinition: bool)
    requires k < |lines|
  {
    var text := lines[k].text;
    || Blank(text) || !Indented(text, column)
    || BlockBelow(x, lines, k, column)
    || (!inDefinition && HeadingLike(text[column..]))
  }

  /** The first text of a definition does not go on with line k: that is lazy only at column 0. */
  ghost predicate BodyBreak(x: Lexer, lines: seq<Line>, k: nat, column: nat)
    requires k < |lines|
  {
    var text := lines[k].text;
    || Blank(text)
    || (Indented(text, column) && BlockBelow(x, lines, k, column))
    || (!Indented(text, column) && (text[0] == ' ' || BlockBelow(x, lines, k, 0) || HeadingLike(text)))
  }

  // ---------- What the code asks ----------

  lemma {:induction false} IndentedExact(text: string, column: nat)
    ensures Indented(text, column) <==> LeadingSpaces(text) >= column
    decreases column
  {
    if column > 0 && text != "" && text[0] == ' ' {
      IndentedExact(text[1..], column - 1);
      if Indented(text[1..], column - 1) {
        forall i | 0 <= i < column
          ensures text[i] == ' '
        {
          assert i > 0 ==> text[i] == text[1..][i - 1];
        }
      }
      if Indented(text, column) {
        assert forall i :: 0 <= i < column - 1 ==> text[1..][i] == text[i + 1];
      }
    }
  }

  lemma {:induction false} HashesExact(text: string, depth: nat)
    requires depth < |text| && text[depth] != '#'
    ensures Hashes(text, depth) <==> HashCount(text) == depth
    decreases depth
  {
    if depth > 0 && text[0] == '#' {
      HashesExact(text[1..], depth - 1);
      if Hashes(text[1..], depth - 1) {
        forall i | 0 <= i < depth
          ensures text[i] == '#'
        {
          assert i > 0 ==> text[i] == text[1..][i - 1];
        }
      }
      if Hashes(text, depth) {
        assert forall i :: 0 <= i < depth - 1 ==> text[1..][i] == text[i + 1];
      }
    }
  }

  lemma {:induction false} HeadingLikeExact(text: string)
    ensures HeadingLike(text) <==> LooksLikeAtx(text)
  {
    var d := HashCount(text);
    if LooksLikeAtx(text) {
      HashesExact(text, d);
    }
    if HeadingLike(text) {
      var e: nat :| 1 <= e <= 6 && e < |text| && Hashes(text, e) && text[e] in {' ', '\t'};
      HashesExact(text, e);
    }
  }

  lemma {:induction false} TableFromExact(x: Lexer, lines: seq<Line>, k: nat, column: nat)
    ensures TableFrom(x, lines, k, column) <==> IsTableStart(x, lines, k, column)
  {
    if k + 1 < |lines| {
      IndentedExact(lines[k].text, column);
      IndentedExact(lines[k + 1].text, column);
    }
  }

  lemma {:induction false} BlockBelowExact(x: Lexer, lines: seq<Line>, k: nat, column: nat, text: string)
    requires k < |lines| && column <= |lines[k].text| && text == lines[k].text[column..]
    ensures BlockBelow(x, lines, k, column) <==> Interrupts(x, lines, k, column, text)
  {
    TableFromExact(x, lines, k, column);
  }

  lemma {:induction false} ParagraphBreakExact(x: Lexer, lines: seq<Line>, k: nat, column: nat, inDefinition: bool)
    requires k < |lines|
    ensures ParagraphBreak(x, lines, k, column, inDefinition) <==> StopsAt(x, lines, NoText(column, inDefinition), k)
  {
    var text := lines[k].text;
    IndentedExact(text, column);
    if Indented(text, column) {
      BlockBelowExact(x, lines, k, column, text[column..]);
      HeadingLikeExact(text[column..]);
    }
  }

  lemma {:induction false} BodyBreakExact(x: Lexer, lines: seq<Line>, k: nat, column: nat)
    requires k < |lines|
    ensures BodyBreak(x, lines, k, column) <==> StopsAt(x, lines, NoBody(column), k)
  {
    var text := lines[k].text;
    IndentedExact(text, column);
    if Indented(text, column) {
      BlockBelowExact(x, lines, k, column, text[column..]);
    } else if !Blank(text) {
      assert text[0..] == text;
      BlockBelowExact(x, lines, k, 0, text);
      HeadingLikeExact(text);
    }
  }

  // ---------- Paragraphs ----------

  /** Line b begins a text: it is indented and begins no other block. */
  ghost predicate TextBegins(x: Lexer, lines: seq<Line>, b: nat, column: nat) {
    && b < |lines| && !Blank(lines[b].text) && Indented(lines[b].text, column)
    && !BlockBelow(x, lines, b, column) && x.ordered(lines[b].text[column..]) == 0
  }

  /** The lines of a text are those from b up to `end`. */
  ghost predicate TextRuns(x: Lexer, lines: seq<Line>, b: nat, column: nat, inDefinition: bool, end: nat) {
    && b < end <= |lines|
    && (forall k :: b < k < end ==> !ParagraphBreak(x, lines, k, column, inDefinition))
    && (end < |lines| ==> ParagraphBreak(x, lines, end, column, inDefinition))
  }

  lemma {:induction false} TextEnd(x: Lexer, lines: seq<Line>, b: nat, column: nat, inDefinition: bool, end: nat)
    requires b < |lines| && end == FirstStop(x, lines, NoText(column, inDefinition), b + 1)
    ensures TextRuns(x, lines, b, column, inDefinition, end)
  {
    FirstStopIsFirst(x, lines, NoText(column, inDefinition), b + 1);
    forall k | b < k < |lines|
      ensures ParagraphBreak(x, lines, k, column, inDefinition) <==>
              StopsAt(x, lines, NoText(column, inDefinition), k)
    {
      ParagraphBreakExact(x, lines, k, column, inDefinition);
    }
  }

  lemma {:induction false} TextMayBegin(x: Lexer, lines: seq<Line>, b: nat, column: nat, text: string)
    requires TextBegins(x, lines, b, column) && text == lines[b].text[column..]
    ensures MayBegin(x, lines, b, column) && !IsTableStart(x, lines, b, column)
    ensures !x.htmlStarts(text) && !x.fenceOpens(text) && !IsQuote(text) && x.bullet(text) == 0 && x.ordered(text) == 0
  {
    IndentedExact(lines[b].text, column);
    BlockBelowExact(x, lines, b, column, text);
  }

  /** A text runs to the first line that breaks it, and becomes one block with its clauses. */
  lemma {:induction false} TextExtent(x: Lexer, lines: seq<Line>, b: nat, column: nat, inDefinition: bool, r: Reading)
    requires LexerOk(x) && TextBegins(x, lines, b, column)
    ensures !Blank(lines[b].text) && ContentAt(lines[b], column).Some?
    ensures r == BlockAt(x, lines, b, column, inDefinition) ==>
      && r.Done? && TextRuns(x, lines, b, column, inDefinition, r.next)
      && r.events == TextEvents(x, if inDefinition then ListItem else Paragraph,
                                Slice(lines[b].start + column, lines[r.next - 1].end))
  {
    var end := FirstStop(x, lines, NoText(column, inDefinition), b + 1);
    TextMayBegin(x, lines, b, column, lines[b].text[column..]);
    TextEnd(x, lines, b, column, inDefinition, end);
    TextBlock(x, lines, b, column, inDefinition, end, TextKind(inDefinition),
              Slice(lines[b].start + column, lines[end - 1].end));
  }

  /** A paragraph never swallows a block that may stand right below a text. */
  lemma {:induction false} BlocksAreReached(x: Lexer, lines: seq<Line>, b: nat, k: nat)
    requires LexerOk(x) && TextBegins(x, lines, b, 0) && b < k < |lines|
    requires ParagraphBreak(x, lines, k, 0, false)
    ensures NextTop(x, lines, b) <= k
  {
    TextExtent(x, lines, b, 0, false, if StartsBlock(x, lines, b) then BlockAt(x, lines, b, 0, false) else Done(0, []));
  }

  /** So every bullet below a paragraph is read as one, unless an earlier block takes it. */
  lemma {:induction false} BulletsAreReached(x: Lexer, lines: seq<Line>, b: nat, k: nat)
    requires LexerOk(x) && TextBegins(x, lines, b, 0) && b < k < |lines| && x.bullet(lines[k].text) > 0
    ensures NextTop(x, lines, b) <= k
  {
    assert lines[k].text[0..] == lines[k].text;
    BlocksAreReached(x, lines, b, k);
  }

  // ---------- Definitions ----------

  /** Line b begins a definition of `id` with a bullet of m characters. */
  ghost predicate DefinitionBegins(x: Lexer, lines: seq<Line>, b: nat, m: nat, id: string)
    requires LexerOk(x)
  {
    && b < |lines| && !Blank(lines[b].text) && !Quotes(lines[b].text) && !x.htmlStarts(lines[b].text)
    && !x.fenceOpens(lines[b].text) && !TableFrom(x, lines, b, 0)
    && m == x.bullet(lines[b].text) > 0 && x.definition(lines[b].text[m..]) == Some(id)
  }

  /** The text after a definition's marker and prefix begins at p, or there is none. */
  ghost predicate TextFrom(x: Lexer, text: string, m: nat, p: nat)
    requires LexerOk(x)
  {
    && m <= |text| && m + x.definitionPrefix(text[m..]) <= p <= |text|
    && (forall i :: m + x.definitionPrefix(text[m..]) <= i < p ==> text[i] in {' ', '\t'})
    && (p < |text| ==> text[p] !in {' ', '\t'})
  }

  lemma {:induction false} BlanksSkipped(text: string, n: nat)
    requires n == LeadingBlanks(text)
    ensures forall i :: 0 <= i < n ==> text[i] in {' ', '\t'}
    ensures n < |text| ==> text[n] !in {' ', '\t'}
  {
    if n > 0 {
      BlanksSkipped(text[1..], n - 1);
      forall i | 0 <= i < n
        ensures text[i] in {' ', '\t'}
      {
        assert i > 0 ==> text[i] == text[1..][i - 1];
      }
    }
  }

  lemma {:induction false} ThreeParts(text: string, m: nat, prefix: nat, lead: nat, p: nat)
    requires m + prefix + lead == p <= |text|
    ensures ByteLen(text[..m]) + ByteLen(text[m..][..prefix]) + ByteLen(text[m..][prefix..][..lead]) ==
        ByteLen(text[..p])
    ensures text[m..][prefix..][lead..] == text[p..]
  {
    Utf8Join(text[..m], text[m..][..prefix]);
    assert text[..m] + text[m..][..prefix] == text[..m + prefix];
    Utf8Join(text[..m + prefix], text[m..][prefix..][..lead]);
    assert text[..m + prefix] + text[m..][prefix..][..lead] == text[..p];
  }

  lemma {:induction false} BlanksEnd(text: string, from: nat, rest: string, p: nat, lead: nat)
    requires from <= p <= |text| && rest == text[from..] && lead == LeadingBlanks(rest)
    requires (forall i :: from <= i < p ==> text[i] in {' ', '\t'}) && (p < |text| ==> text[p] !in {' ', '\t'})
    ensures p == from + lead
  {
    BlanksSkipped(rest, lead);
    assert forall i :: from <= i < |text| ==> text[i] == rest[i - from];
  }

  lemma {:induction false} StartOfText(x: Lexer, line: Line, m: nat, p: nat)
    requires LexerOk(x) && TextFrom(x, line.text, m, p)
    ensures DefinitionStart(x, line, m) ==
      if p == |line.text| then [] else [Content(line.text[p..], line.start + ByteLen(line.text[..p]), line.end)]
  {
    var prefix := x.definitionPrefix(line.text[m..]);
    var remainder := line.text[m..][prefix..];
    var lead := LeadingBlanks(remainder);
    assert remainder == line.text[m + prefix..];
    BlanksEnd(line.text, m + prefix, remainder, p, lead);
    StartParts(x, line, m, prefix, lead, p, line.text[m..], remainder);
  }

  lemma {:induction false} StartParts(x: Lexer, line: Line, m: nat, prefix: nat, lead: nat, p: nat,
                                      afterMarker: string, remainder: string)
    requires LexerOk(x) && m <= |line.text| && afterMarker == line.text[m..]
        && prefix == x.definitionPrefix(afterMarker)
    requires remainder == afterMarker[prefix..] && lead == LeadingBlanks(remainder) && m + prefix + lead == p
    ensures p <= |line.text| && DefinitionStart(x, line, m) ==
      if p == |line.text| then [] else [Content(line.text[p..], line.start + ByteLen(line.text[..p]), line.end)]
  {
    ThreeParts(line.text, m, prefix, lead, p);
  }

  /** The lines of a definition's first text are those from b up to `end`. */
  ghost predicate FirstTextRuns(x: Lexer, lines: seq<Line>, b: nat, m: nat, end: nat) {
    && b < end <= |lines|
    && (forall k :: b < k < end ==> !BodyBreak(x, lines, k, m))
    && (end < |lines| ==> BodyBreak(x, lines, end, m))
  }

  lemma {:induction false} FirstTextEnd(x: Lexer, lines: seq<Line>, b: nat, m: nat, end: nat)
    requires b < |lines| && end == FirstStop(x, lines, NoBody(m), b + 1)
    ensures FirstTextRuns(x, lines, b, m, end)
  {
    FirstStopIsFirst(x, lines, NoBody(m), b + 1);
    forall k | b < k < |lines|
      ensures BodyBreak(x, lines, k, m) <==> StopsAt(x, lines, NoBody(m), k)
    {
      BodyBreakExact(x, lines, k, m);
    }
  }

  lemma {:induction false} DefinitionRead(x: Lexer, lines: seq<Line>, b: nat, m: nat, id: string)
    requires LexerOk(x) && DefinitionBegins(x, lines, b, m, id)
    ensures ContentAt(lines[b], 0).Some? && BlockAt(x, lines, b, 0, false) == DefinitionAt(x, lines, b, m, id)
  {
    assert lines[b].text[0..] == lines[b].text;
    TableFromExact(x, lines, b, 0);
    ItemBlock(x, lines, b, 0, false);
    ItemIsDefinition(x, lines, b, m, id);
  }

  /** The events of a definition whose text begins at p of line b and ends before line `end`. */
  ghost predicate DefinitionShape(lines: seq<Line>, b: nat, end: nat, p: nat, id: string, events: seq<Event>)
    requires b < end <= |lines| && p <= |lines[b].text|
  {
    && |events| >= 2 && events[0] == StartDefinition(id) && events[|events| - 1].EndDefinition?
    && (!Blank(lines[b].text[p..]) ==>
          events[1] == AddBlock(ListItem, Slice(lines[b].start + ByteLen(lines[b].text[..p]), lines[end - 1].end)))
  }

  lemma {:induction false} FirstContent(x: Lexer, line: Line, m: nat, p: nat, content: Content)
    requires LexerOk(x) && TextFrom(x, line.text, m, p) && !Blank(line.text[p..])
    requires content == Content(line.text[p..], line.start + ByteLen(line.text[..p]), line.end)
    ensures DefinitionStart(x, line, m) == [content]
  {
    StartOfText(x, line, m, p);
  }

  lemma {:induction false} FirstTextAt(x: Lexer, lines: seq<Line>, b: nat, end: nat, m: nat, content: Content,
                                       first: seq<Content>, body: seq<Content>, text: seq<Event>)
    requires b < end <= |lines| && !Blank(content.text) && content.end == lines[b].end
    requires first == [content] && body == first + BodyLines(lines, b + 1, end, m) && text == FirstText(x, body)
    ensures text != [] && text[0] == AddBlock(ListItem, Slice(content.start, lines[end - 1].end))
  {
    BodyEnds(lines, b, end, m, first, body);
    FirstBlock(x, body);
  }

  lemma {:induction false} DefinitionShaped(x: Lexer, lines: seq<Line>, b: nat, end: nat, m: nat, p: nat, id: string,
                                            first: seq<Content>, body: seq<Content>, inner: seq<Event>, slice: Slice)
    requires LexerOk(x) && b < end <= |lines| && TextFrom(x, lines[b].text, m, p)
    requires first == DefinitionStart(x, lines[b], m) && body == first + BodyLines(lines, b + 1, end, m)
    ensures DefinitionShape(lines, b, end, p, id, DefinitionEvents(id, FirstText(x, body), inner, slice))
  {
    var text, events := FirstText(x, body), DefinitionEvents(id, FirstText(x, body), inner, slice);
    EventsHead(id, text, inner, slice, events);
    if !Blank(lines[b].text[p..]) {
      var content := Content(lines[b].text[p..], lines[b].start + ByteLen(lines[b].text[..p]), lines[b].end);
      FirstContent(x, lines[b], m, p, content);
      FirstTextAt(x, lines, b, end, m, content, first, body, text);
    }
  }

  lemma EventsHead(id: string, first: seq<Event>, inner: seq<Event>, slice: Slice, events: seq<Event>)
    requires events == DefinitionEvents(id, first, inner, slice)
    ensures |events| >= 2 && events[0] == StartDefinition(id) && events[|events| - 1].EndDefinition?
    ensures first != [] ==> events[1] == first[0]
  {
  }

  lemma FirstBlock(x: Lexer, body: seq<Content>)
    requires body != [] && !Blank(body[0].text)
    ensures FirstText(x, body) != []
        && FirstText(x, body)[0] == AddBlock(ListItem, Slice(body[0].start, body[|body| - 1].end))
  {
    assert HasText(body);
  }

  /** A definition's first text runs from behind its prefix to the first line that breaks it; the
      blocks indented below it follow, to its end. */
  lemma {:induction false} DefinitionExtent(x: Lexer, lines: seq<Line>, b: nat, m: nat, id: string, p: nat, r: Reading)
    returns (end: nat)
    requires LexerOk(x) && DefinitionBegins(x, lines, b, m, id) && TextFrom(x, lines[b].text, m, p)
    ensures ContentAt(lines[b], 0).Some? && FirstTextRuns(x, lines, b, m, end)
    ensures r == BlockAt(x, lines, b, 0, false) && r.Done? ==>
      end <= r.next && DefinitionShape(lines, b, end, p, id, r.events)
  {
    DefinitionRead(x, lines, b, m, id);
    end := FirstStop(x, lines, NoBody(m), b + 1);
    FirstTextEnd(x, lines, b, m, end);
    var first := DefinitionStart(x, lines[b], m);
    var body, inner := first + BodyLines(lines, b + 1, end, m), Blocks(x, lines, end, m, true);
    DefinitionParts(x, lines, b, m, id, end, body, inner);
    if inner.Done? {
      DefinitionShaped(x, lines, b, end, m, p, id, first, body, inner.events,
                       Slice(lines[b].start, LastEnd(lines, b, Least(inner.next, |lines|))));
    }
  }

  lemma {:induction false} BodyEnds(lines: seq<Line>, b: nat, end: nat, m: nat, first: seq<Content>, body: seq<Content>)
    requires b < end <= |lines| && |first| == 1 && first[0].end == lines[b].end
    requires body == first + BodyLines(lines, b + 1, end, m)
    ensures |body| == end - b && body[0] == first[0] && body[|body| - 1].end == lines[end - 1].end
  {
    if end > b + 1 {
      assert body[|body| - 1] == BodyLine(lines[end - 1], m);
    }
  }

  // ---------- Headings ----------

  /** A section heading: two to six hashes, one blank and a title with an id. */
  lemma {:induction false} HeadingExact(x: Lexer, text: string, depth: nat, id: string)
    ensures InspectHeading(x, text) == Heading(depth, id) <==>
      && 2 <= depth <= 6 && depth + 1 < |text| && Hashes(text, depth) && text[depth] == ' '
      && text[depth + 1] !in {' ', '\t'} && x.sectionId(text[depth + 1..]) == Some(id)
  {
    if depth < |text| && text[depth] != '#' {
      HashesExact(text, depth);
    }
    if HashCount(text) < |text| {
      HashStops(text);
    }
  }

  lemma {:induction false} HashStops(text: string)
    requires HashCount(text) < |text|
    ensures text[HashCount(text)] != '#'
  {
    if text[0] == '#' {
      HashStops(text[1..]);
    }
  }

  /** What is no heading at all, and what is the title of a document. */
  lemma {:induction false} TitleExact(x: Lexer, text: string)
    ensures InspectHeading(x, text).NotHeading? <==> !HeadingLike(text)
    ensures InspectHeading(x, text).Title? <==>
      |text| > 2 && text[0] == '#' && text[1] == ' ' && text[2] !in {' ', '\t'}
    ensures IsH1(text) <==> InspectHeading(x, text).Title? && !Blank(text[2..])
  {
    HeadingLikeExact(text);
    if |text| > 1 && text[1] != '#' {
      HashesExact(text, 1);
    }
    if HashCount(text) < |text| {
      HashStops(text);
    }
  }
}
