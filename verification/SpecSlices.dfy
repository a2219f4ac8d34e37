/** Lines of a specification document and the byte ranges of its sections (scripts/spec_structure.py). */
module SpecSlices {
  import opened SpecStack

  datatype Line = Line(text: string, start: nat, end: nat)

  datatype Slice = Slice(start: nat, end: nat)

  /** Lines in order, each ended by one newline byte. */
  ghost predicate LinesOk(lines: seq<Line>) {
    && (forall i :: 0 <= i < |lines| ==> lines[i].start <= lines[i].end)
    && forall i, j :: 0 <= i < j < |lines| ==> lines[i].end < lines[j].start
  }

  /** Python's `str.isspace`, character by character. */
  predicate IsSpace(c: char) {
    var n := c as int;
    0x09 <= n <= 0x0D || 0x1C <= n <= 0x20 || n == 0x85 || n == 0xA0 || n == 0x1680 || 0x2000 <= n <= 0x200A
    || n == 0x2028 || n == 0x2029 || n == 0x202F || n == 0x205F || n == 0x3000
  }

  predicate Blank(text: string) { forall i :: 0 <= i < |text| ==> IsSpace(text[i]) }

  /** The end of the last line with text from `start` to before `next`. */
  function LastEnd(lines: seq<Line>, start: nat, next: nat): nat
    requires start < |lines| && next <= |lines|
  {
    if next <= start then lines[start].end
    else if !Blank(lines[next - 1].text) then lines[next - 1].end
    else LastEnd(lines, start, next - 1)
  }

  lemma {:induction false} LastEndWithin(lines: seq<Line>, start: nat, next: nat)
    requires LinesOk(lines) && start < |lines| && next <= |lines|
    ensures lines[start].end <= LastEnd(lines, start, next) <= lines[if next <= start then start else next - 1].end
  {
    if start < next && Blank(lines[next - 1].text) {
      LastEndWithin(lines, start, next - 1);
    }
  }

  lemma {:induction false} LastEndGrows(lines: seq<Line>, start: nat, next: nat, later: nat)
    requires LinesOk(lines) && start < |lines| && next <= later <= |lines|
    ensures LastEnd(lines, start, next) <= LastEnd(lines, start, later)
    decreases later
  {
    if next < later {
      LastEndGrows(lines, start, next, later - 1);
      LastEndWithin(lines, start, later - 1);
    }
  }

  /** An earlier start reaches at least as far as a later start on a line with text. */
  lemma {:induction false} LastEndOuter(lines: seq<Line>, outer: nat, inner: nat, next: nat)
    requires LinesOk(lines) && outer <= inner < next <= |lines| && !Blank(lines[inner].text)
    ensures LastEnd(lines, inner, next) <= LastEnd(lines, outer, next)
    decreases next
  {
    if Blank(lines[next - 1].text) {
      LastEndOuter(lines, outer, inner, next - 1);
    }
  }

  // ---------- Closed sections ----------

  predicate Laminar(a: Slice, b: Slice) {
    a.end <= b.start || (a.start <= b.start && b.end <= a.end)
  }

  predicate Behind(lines: seq<Line>, end: nat, at: nat) {
    at < |lines| ==> end < lines[at].start
  }

  function OpenSet(stack: Stack): set<nat> {
    if stack == [] then {} else OpenSet(Below(stack)) + {Top(stack).unitIndex}
  }

  /** What is closed lies before an open section's heading or inside what it would close to. */
  predicate Around(lines: seq<Line>, slices: seq<Slice>, closed: set<nat>, e: SectionEntry, at: nat)
    requires at <= |lines|
  {
    && e.startLine < at && !Blank(lines[e.startLine].text) && e.unitIndex < |slices| && e.unitIndex !in closed
    && (forall i :: i in closed && i < |slices| && i < e.unitIndex ==> slices[i].end <= lines[e.startLine].start)
    && (forall i :: i in closed && i < |slices| && e.unitIndex < i ==>
          lines[e.startLine].start <= slices[i].start && slices[i].end <= LastEnd(lines, e.startLine, at))
  }

  predicate AllAround(lines: seq<Line>, slices: seq<Slice>, closed: set<nat>, stack: Stack, at: nat)
    requires at <= |lines|
  {
    stack == [] ||
    (&& AllAround(lines, slices, closed, Below(stack), at) && Around(lines, slices, closed, Top(stack), at)
     && (Below(stack) != [] ==> Top(Below(stack)).startLine < Top(stack).startLine
                                && Top(Below(stack)).unitIndex < Top(stack).unitIndex))
  }

  ghost predicate ClosedOk(lines: seq<Line>, slices: seq<Slice>, closed: set<nat>, at: nat) {
    && (forall i :: i in closed ==>
        i < |slices| && slices[i].start <= slices[i].end && Behind(lines, slices[i].end, at))
    && (forall i, j :: i in closed && j in closed && i < j < |slices| ==> Laminar(slices[i], slices[j]))
  }

  ghost predicate SlicesOk(lines: seq<Line>, slices: seq<Slice>, closed: set<nat>, stack: Stack, at: nat)
    requires at <= |lines|
  {
    ClosedOk(lines, slices, closed, at) && AllAround(lines, slices, closed, stack, at)
  }

  /** The slice a section gets when it closes before line `next`. */
  function Closing(lines: seq<Line>, e: SectionEntry, next: nat): Slice
    requires e.startLine < |lines| && next <= |lines|
  {
    Slice(lines[e.startLine].start, LastEnd(lines, e.startLine, next))
  }

  lemma AroundLater(lines: seq<Line>, slices: seq<Slice>, closed: set<nat>, e: SectionEntry, at: nat, next: nat)
    requires LinesOk(lines) && at <= next <= |lines| && Around(lines, slices, closed, e, at)
    ensures Around(lines, slices, closed, e, next)
  {
    LastEndGrows(lines, e.startLine, at, next);
  }

  lemma AroundClosing(lines: seq<Line>, slices: seq<Slice>, closed: set<nat>, outer: SectionEntry, e: SectionEntry,
                      next: nat)
    requires LinesOk(lines) && next <= |lines|
    requires Around(lines, slices, closed, outer, next) && Around(lines, slices, closed, e, next)
    requires outer.startLine < e.startLine && outer.unitIndex < e.unitIndex
    ensures Around(lines, slices[e.unitIndex := Closing(lines, e, next)], closed + {e.unitIndex}, outer, next)
  {
    LastEndOuter(lines, outer.startLine, e.startLine, next);
  }

  lemma {:induction false} AllAroundClosing(lines: seq<Line>, slices: seq<Slice>, closed: set<nat>, stack: Stack,
                                            e: SectionEntry, at: nat, next: nat)
    requires LinesOk(lines) && at <= next <= |lines| && AllAround(lines, slices, closed, stack, at)
    requires Around(lines, slices, closed, e, next)
    requires stack != [] ==> Top(stack).startLine < e.startLine && Top(stack).unitIndex < e.unitIndex
    ensures AllAround(lines, slices[e.unitIndex := Closing(lines, e, next)], closed + {e.unitIndex}, stack, next)
  {
    if stack != [] {
      AllAroundClosing(lines, slices, closed, Below(stack), e, at, next);
      AroundLater(lines, slices, closed, Top(stack), at, next);
      AroundClosing(lines, slices, closed, Top(stack), e, next);
    }
  }

  lemma ClosedClosing(lines: seq<Line>, slices: seq<Slice>, closed: set<nat>, e: SectionEntry, at: nat, next: nat)
    requires LinesOk(lines) && at <= next <= |lines| && ClosedOk(lines, slices, closed, at)
        && Around(lines, slices, closed, e, next)
    ensures ClosedOk(lines, slices[e.unitIndex := Closing(lines, e, next)], closed + {e.unitIndex}, next)
  {
    LastEndWithin(lines, e.startLine, next);
    var more := slices[e.unitIndex := Closing(lines, e, next)];
    forall i | i in closed + {e.unitIndex}
      ensures i < |more| && more[i].start <= more[i].end && Behind(lines, more[i].end, next)
    {
      if i != e.unitIndex {
        assert Behind(lines, slices[i].end, at);
      }
    }
  }

  /** `_close_section`: closing the innermost section. */
  lemma CloseTop(lines: seq<Line>, slices: seq<Slice>, closed: set<nat>, stack: Stack, at: nat, next: nat)
    requires LinesOk(lines) && at <= next <= |lines| && stack != [] && SlicesOk(lines, slices, closed, stack, at)
    ensures Top(stack).startLine < |lines| && Top(stack).unitIndex < |slices|
    ensures SlicesOk(lines, slices[Top(stack).unitIndex := Closing(lines, Top(stack), next)],
                     closed + {Top(stack).unitIndex}, Below(stack), next)
  {
    var e := Top(stack);
    AroundLater(lines, slices, closed, e, at, next);
    ClosedClosing(lines, slices, closed, e, at, next);
    AllAroundClosing(lines, slices, closed, Below(stack), e, at, next);
  }

  lemma {:induction false} AllAroundLater(lines: seq<Line>, slices: seq<Slice>, closed: set<nat>, stack: Stack, at: nat,
                                          next: nat)
    requires LinesOk(lines) && at <= next <= |lines| && AllAround(lines, slices, closed, stack, at)
    ensures AllAround(lines, slices, closed, stack, next)
  {
    if stack != [] {
      AllAroundLater(lines, slices, closed, Below(stack), at, next);
      AroundLater(lines, slices, closed, Top(stack), at, next);
    }
  }

  /** Reading on. */
  lemma Later(lines: seq<Line>, slices: seq<Slice>, closed: set<nat>, stack: Stack, at: nat, next: nat)
    requires LinesOk(lines) && at <= next <= |lines| && SlicesOk(lines, slices, closed, stack, at)
    ensures SlicesOk(lines, slices, closed, stack, next)
  {
    AllAroundLater(lines, slices, closed, stack, at, next);
    forall i | i in closed
      ensures i < |slices| && slices[i].start <= slices[i].end && Behind(lines, slices[i].end, next)
    {
      assert Behind(lines, slices[i].end, at);
    }
  }

  lemma {:induction false} AllAroundMore(lines: seq<Line>, slices: seq<Slice>, closed: set<nat>, stack: Stack, at: nat,
                                         next: nat, s: Slice)
    requires LinesOk(lines) && at <= next <= |lines| && AllAround(lines, slices, closed, stack, at)
    requires forall i :: i in closed ==> i < |slices|
    ensures AllAround(lines, slices + [s], closed, stack, next)
  {
    if stack != [] {
      AllAroundMore(lines, slices, closed, Below(stack), at, next, s);
      AroundLater(lines, slices, closed, Top(stack), at, next);
      assert Around(lines, slices + [s], closed, Top(stack), next);
    }
  }

  /** A further unit, not yet closed. */
  lemma MoreSlices(lines: seq<Line>, slices: seq<Slice>, closed: set<nat>, stack: Stack, at: nat, next: nat, s: Slice)
    requires LinesOk(lines) && at <= next <= |lines| && SlicesOk(lines, slices, closed, stack, at)
    ensures SlicesOk(lines, slices + [s], closed, stack, next)
  {
    AllAroundMore(lines, slices, closed, stack, at, next, s);
    var more := slices + [s];
    forall i | i in closed
      ensures i < |more| && more[i].start <= more[i].end && Behind(lines, more[i].end, next)
    {
      assert Behind(lines, slices[i].end, at);
    }
  }

  lemma {:induction false} AllAroundOther(lines: seq<Line>, slices: seq<Slice>, closed: set<nat>, stack: Stack, at: nat,
                                          d: nat, s: Slice)
    requires at <= |lines| && AllAround(lines, slices, closed, stack, at) && d < |slices| && d !in closed
    ensures AllAround(lines, slices[d := s], closed, stack, at)
  {
    if stack != [] {
      AllAroundOther(lines, slices, closed, Below(stack), at, d, s);
      assert Around(lines, slices, closed, Top(stack), at);
    }
  }

  /** Setting the slice of a unit that is not a closed section. */
  lemma OtherSlice(lines: seq<Line>, slices: seq<Slice>, closed: set<nat>, stack: Stack, at: nat, d: nat, s: Slice)
    requires at <= |lines| && SlicesOk(lines, slices, closed, stack, at) && d < |slices| && d !in closed
    ensures SlicesOk(lines, slices[d := s], closed, stack, at)
  {
    AllAroundOther(lines, slices, closed, stack, at, d, s);
  }

  /** Taking a position moves no section. */
  lemma {:induction false} BumpSlices(lines: seq<Line>, slices: seq<Slice>, closed: set<nat>, stack: Stack,
                                      docPosition: nat, at: nat)
    requires at <= |lines| && SlicesOk(lines, slices, closed, stack, at)
    ensures SlicesOk(lines, slices, closed, Bump(stack, docPosition).stack, at)
    ensures OpenSet(Bump(stack, docPosition).stack) == OpenSet(stack)
  {
    BumpShape(stack, docPosition);
  }

  lemma {:induction false} TopOutmost(lines: seq<Line>, slices: seq<Slice>, closed: set<nat>, stack: Stack, at: nat)
    requires at <= |lines| && AllAround(lines, slices, closed, stack, at) && stack != []
    ensures Top(stack).startLine < at && Top(stack).unitIndex < |slices|
  {
  }

  /** A heading on line `at` opens the next section. */
  lemma {:induction false} PushSlice(lines: seq<Line>, slices: seq<Slice>, closed: set<nat>, stack: Stack, at: nat,
                                     e: SectionEntry, s: Slice)
    requires LinesOk(lines) && at < |lines| && SlicesOk(lines, slices, closed, stack, at)
    requires e.unitIndex == |slices| && e.startLine == at && !Blank(lines[at].text)
    ensures SlicesOk(lines, slices + [s], closed, stack + [e], at + 1)
        && OpenSet(stack + [e]) == OpenSet(stack) + {|slices|}
  {
    MoreSlices(lines, slices, closed, stack, at, at + 1, s);
    assert Below(stack + [e]) == stack;
    if stack != [] {
      TopOutmost(lines, slices, closed, stack, at);
    }
    forall i | i in closed && i < |slices + [s]| && i < e.unitIndex
      ensures (slices + [s])[i].end <= lines[at].start
    {
      assert Behind(lines, slices[i].end, at);
    }
    assert Around(lines, slices + [s], closed, e, at + 1);
  }
}
