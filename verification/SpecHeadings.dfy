/** Which lines of a document open its sections (`parse` and `_parse_blocks` in
    scripts/spec_structure.py): the headings that reading comes to, and no line inside a block. */
module SpecHeadings {
  import opened Wrappers
  import opened SpecSlices
  import opened SpecMachine
  import opened SpecBlocks

  /** The line that is looked at next after line `index`, outside all blocks. */
  function NextTop(x: Lexer, lines: seq<Line>, index: nat): (next: nat)
    requires LexerOk(x) && index < |lines|
    ensures index < next
  {
    if !StartsBlock(x, lines, index) then index + 1
    else
      var block := BlockAt(x, lines, index, 0, false);
      if block.Done? then block.next else |lines|
  }

  /** Reading from line `index` on, outside all blocks, comes to line `k`. */
  predicate Comes(x: Lexer, lines: seq<Line>, index: nat, k: nat)
    requires LexerOk(x)
    decreases |lines| - index
  {
    index == k || (index < k && index < |lines| && Comes(x, lines, NextTop(x, lines, index), k))
  }

  predicate IsHeading(x: Lexer, lines: seq<Line>, k: nat, id: string) {
    k < |lines| && !Blank(lines[k].text) && IsOpening(x, lines[k].text, id)
  }

  /** Blocks between headings are passed over: no heading is met in them, and reading goes on after
      the last. */
  lemma {:induction false} BlocksPass(x: Lexer, lines: seq<Line>, start: nat, k: nat, id: string, r: Reading)
    requires LexerOk(x) && r == Blocks(x, lines, start, 0, false) && r.Done?
    ensures r.next <= k ==> (Comes(x, lines, start, k) <==> Comes(x, lines, r.next, k))
    ensures k < r.next && Comes(x, lines, start, k) ==> !IsHeading(x, lines, k, id)
    decreases |lines| - start
  {
    if start < |lines| {
      if Blank(lines[start].text) {
        BlocksPass(x, lines, start + 1, k, id, r);
      } else if StartsBlock(x, lines, start) {
        var block := BlockAt(x, lines, start, 0, false);
        BlocksPass(x, lines, block.next, k, id, Blocks(x, lines, block.next, 0, false));
      }
    }
  }

  lemma {:induction false} ClosesOpenNothing(n: nat, next: nat, e: Event)
    requires e in Closes(n, next)
    ensures e.CloseSection?
  {
    if n > 0 && e in Closes(n - 1, next) {
      ClosesOpenNothing(n - 1, next, e);
    }
  }

  lemma InJoined(a: seq<Event>, b: seq<Event>, e: Event)
    ensures e in a + b <==> e in a || e in b
  {
  }

  /** A section is opened on line `k` exactly when that line is a heading and reading comes to it. */
  lemma {:induction false} OpenedAreHeadings(x: Lexer, lines: seq<Line>, index: nat, open: nat, seen: set<string>,
                                             k: nat, id: string, r: Reading)
    requires LexerOk(x) && r == Sections(x, lines, index, open, seen) && r.Done?
    ensures OpenSection(k, id) in r.events <==> Comes(x, lines, index, k) && IsHeading(x, lines, k, id)
    decreases |lines| - index
  {
    var e := OpenSection(k, id);
    if index >= |lines| {
      if e in Closes(open, |lines|) {
        ClosesOpenNothing(open, |lines|, e);
      }
    } else if Blank(lines[index].text) {
      OpenedAreHeadings(x, lines, index + 1, open, seen, k, id, r);
    } else if StartsBlock(x, lines, index) {
      var blocks := Blocks(x, lines, index, 0, false);
      SectionsAtBlocks(x, lines, index, open, seen, blocks);
      var rest := Sections(x, lines, blocks.next, open, seen);
      OpenedAreHeadings(x, lines, blocks.next, open, seen, k, id, rest);
      BlocksPass(x, lines, index, k, id, blocks);
      BlocksAreInert(x, lines, index, 0, false);
      InJoined(blocks.events, rest.events, e);
    } else {
      var next, closes := index + 1, HeadingCloses(x, lines[index].text, open, index);
      var other, level, more, rest := SectionsAtHeading(x, lines, index, open, seen, r, next, closes);
      OpenedAreHeadings(x, lines, next, level, more, k, id, rest);
      HeadingClosesOpenNothing(x, lines[index].text, open, index, e);
      InJoined(closes + [OpenSection(index, other)], rest.events, e);
      InJoined(closes, [OpenSection(index, other)], e);
    }
  }

  lemma {:induction false} HeadingClosesOpenNothing(x: Lexer, text: string, open: nat, index: nat, e: Event)
    ensures e in HeadingCloses(x, text, open, index) ==> e.CloseSection?
  {
    var heading := InspectHeading(x, text);
    if heading.Heading? && 2 <= heading.depth <= open + 2 && e in Closes(open - (heading.depth - 2), index) {
      ClosesOpenNothing(open - (heading.depth - 2), index, e);
    }
  }

  /** Events open lines from `index` on, later ones later lines. */
  ghost predicate Ordered(events: seq<Event>, index: nat) {
    && (forall p :: 0 <= p < |events| && events[p].OpenSection? ==> index <= events[p].line)
    && forall p, q :: 0 <= p < q < |events| && events[p].OpenSection? && events[q].OpenSection?
        ==> events[p].line < events[q].line
  }

  lemma {:induction false} ClosesOrdered(n: nat, next: nat, index: nat)
    ensures Ordered(Closes(n, next), index)
  {
    forall p | 0 <= p < |Closes(n, next)|
      ensures !Closes(n, next)[p].OpenSection?
    {
      ClosesOpenNothing(n, next, Closes(n, next)[p]);
    }
  }

  lemma OpenThen(closes: seq<Event>, index: nat, id: string, rest: seq<Event>)
    requires (forall p :: 0 <= p < |closes| ==> !closes[p].OpenSection?) && Ordered(rest, index + 1)
    ensures Ordered((closes + [OpenSection(index, id)]) + rest, index)
  {
  }

  lemma InertThen(events: seq<Event>, index: nat, next: nat, rest: seq<Event>)
    requires Inert(events) && index <= next && Ordered(rest, next)
    ensures Ordered(events + rest, index)
  {
  }

  /** Sections are opened in the order of their lines. */
  lemma {:induction false} OpenedInOrder(x: Lexer, lines: seq<Line>, index: nat, open: nat, seen: set<string>,
                                         r: Reading)
    requires LexerOk(x) && r == Sections(x, lines, index, open, seen) && r.Done?
    ensures Ordered(r.events, index)
    decreases |lines| - index
  {
    if index >= |lines| {
      ClosesOrdered(open, |lines|, index);
    } else if Blank(lines[index].text) {
      OpenedInOrder(x, lines, index + 1, open, seen, r);
    } else if StartsBlock(x, lines, index) {
      var blocks := Blocks(x, lines, index, 0, false);
      SectionsAtBlocks(x, lines, index, open, seen, blocks);
      var rest := Sections(x, lines, blocks.next, open, seen);
      OpenedInOrder(x, lines, blocks.next, open, seen, rest);
      BlocksAreInert(x, lines, index, 0, false);
      InertThen(blocks.events, index, blocks.next, rest.events);
    } else {
      var next, closes := index + 1, HeadingCloses(x, lines[index].text, open, index);
      var id, level, more, rest := SectionsAtHeading(x, lines, index, open, seen, r, next, closes);
      OpenedInOrder(x, lines, next, level, more, rest);
      forall p | 0 <= p < |closes|
        ensures !closes[p].OpenSection?
      {
        HeadingClosesOpenNothing(x, lines[index].text, open, index, closes[p]);
      }
      OpenThen(closes, index, id, rest.events);
    }
  }

  /** A line that reading does not come to lies inside a block whose first line it does come to. */
  lemma {:induction false} PassedInside(x: Lexer, lines: seq<Line>, index: nat, k: nat) returns (b: nat)
    requires LexerOk(x) && index <= k < |lines| && !Comes(x, lines, index, k)
    ensures b < k < NextTop(x, lines, b) && StartsBlock(x, lines, b) && Comes(x, lines, index, b)
    decreases |lines| - index
  {
    if k < NextTop(x, lines, index) {
      b := index;
    } else {
      b := PassedInside(x, lines, NextTop(x, lines, index), k);
    }
  }

  /** For every document that reads: its sections are its headings outside all blocks, in order,
      and every other heading lies inside a block. */
  lemma {:induction false} SectionsAreHeadings(x: Lexer, lines: seq<Line>, k: nat, id: string)
    requires LexerOk(x) && DocumentEvents(x, lines).Done? && 1 <= k
    ensures OpenSection(k, id) in DocumentEvents(x, lines).events <==>
        Comes(x, lines, 1, k) && IsHeading(x, lines, k, id)
    ensures Ordered(DocumentEvents(x, lines).events, 1)
    ensures IsHeading(x, lines, k, id) && OpenSection(k, id) !in DocumentEvents(x, lines).events ==>
              exists b: nat :: b < k && StartsBlock(x, lines, b) && Comes(x, lines, 1, b) && k < NextTop(x, lines, b)
  {
    OpenedAreHeadings(x, lines, 1, 0, {}, k, id, Sections(x, lines, 1, 0, {}));
    OpenedInOrder(x, lines, 1, 0, {}, Sections(x, lines, 1, 0, {}));
    if IsHeading(x, lines, k, id) && !Comes(x, lines, 1, k) {
      var b := PassedInside(x, lines, 1, k);
    }
  }
}
