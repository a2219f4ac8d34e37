/** Whose slice lies in whose: the slices of two closed sections nest exactly as the sections do
    (scripts/spec_structure.py). */
module SpecKin {
  import opened Wrappers
  import opened SpecUnits
  import opened SpecStack
  import opened SpecSlices
  import opened SpecMachine

  /** Unit `i` is met on the way from unit `j` up to the document. */
  predicate Descends(units: seq<Unit>, j: nat, i: nat) {
    j < |units| && 0 <= units[j].parent < j
    && (units[j].parent == i || (i < units[j].parent && Descends(units, units[j].parent, i)))
  }

  lemma {:induction false} DescendsLater(units: seq<Unit>, j: nat, i: nat)
    requires Descends(units, j, i)
    ensures i < j
  {
  }

  lemma {:induction false} DescendsMore(units: seq<Unit>, u: Unit, j: nat, i: nat)
    requires j < |units|
    ensures Descends(units + [u], j, i) == Descends(units, j, i)
    decreases j
  {
    if 0 <= units[j].parent < j && i < units[j].parent {
      DescendsMore(units, u, units[j].parent, i);
    }
  }

  lemma {:induction false} NewDescends(units: seq<Unit>, u: Unit, p: nat, i: nat)
    requires u.parent == p < |units|
    ensures Descends(units + [u], |units|, i) <==> p == i || (i < p && Descends(units, p, i))
  {
    DescendsMore(units, u, p, i);
  }

  /** Slice `b` lies in slice `a`. */
  predicate Within(a: Slice, b: Slice) { a.start <= b.start && b.end <= a.end }

  /** The slice of a descendant lies within, that of any other later section after. */
  predicate Nests(units: seq<Unit>, slices: seq<Slice>, i: nat, j: nat)
    requires i < |slices| && j < |slices|
  {
    if Descends(units, j, i) then Within(slices[i], slices[j]) else slices[i].end <= slices[j].start
  }

  // ---------- What every event keeps ----------

  /** Sections after an open section descend from it. */
  ghost predicate KinOpen(units: seq<Unit>, stack: Stack) {
    forall k, j :: 0 <= k < |stack| && stack[k].unitIndex < j < |units| && units[j].kind == Section
      ==> Descends(units, j, stack[k].unitIndex)
  }

  /** No open section descends from a closed one. */
  ghost predicate KinClosed(units: seq<Unit>, closed: set<nat>, stack: Stack) {
    forall c, k :: c in closed && 0 <= k < |stack| ==> !Descends(units, stack[k].unitIndex, c)
  }

  ghost predicate KinSlices(units: seq<Unit>, slices: seq<Slice>, closed: set<nat>) {
    forall i, j :: i in closed && j in closed && i < j < |slices| ==> Nests(units, slices, i, j)
  }

  ghost predicate KinOk(s: State) {
    KinOpen(s.units, s.stack) && KinClosed(s.units, s.closed, s.stack) && KinSlices(s.units, s.slices, s.closed)
  }

  /** The same sections are open. */
  predicate SameUnits(a: Stack, b: Stack) {
    |a| == |b| && forall k :: 0 <= k < |a| ==> a[k].unitIndex == b[k].unitIndex
  }

  predicate OpenWithin(units: seq<Unit>, stack: Stack) { forall k :: 0 <= k < |stack| ==> stack[k].unitIndex < |units| }

  ghost predicate ClosedWithin(units: seq<Unit>, closed: set<nat>) { forall c :: c in closed ==> c < |units| }

  /** Anything but a section joins. */
  lemma {:induction false} OtherJoins(s: State, t: State, u: Unit, slice: Slice)
    requires KinOk(s) && |s.slices| == |s.units| && OpenWithin(s.units, s.stack) && ClosedWithin(s.units, s.closed)
    requires t.units == s.units + [u] && t.slices == s.slices + [slice] && t.closed == s.closed && u.kind != Section
    requires SameUnits(s.stack, t.stack)
    ensures KinOk(t)
  {
    forall k, j | 0 <= k < |t.stack| && t.stack[k].unitIndex < j < |t.units| && t.units[j].kind == Section
      ensures Descends(t.units, j, t.stack[k].unitIndex)
    {
      DescendsMore(s.units, u, j, s.stack[k].unitIndex);
    }
    forall c, k | c in t.closed && 0 <= k < |t.stack|
      ensures !Descends(t.units, t.stack[k].unitIndex, c)
    {
      DescendsMore(s.units, u, s.stack[k].unitIndex, c);
    }
    NestsStay(s, t, u, slice);
  }

  lemma {:induction false} NestsStay(s: State, t: State, u: Unit, slice: Slice)
    requires KinSlices(s.units, s.slices, s.closed) && |s.slices| == |s.units| && ClosedWithin(s.units, s.closed)
    requires t.units == s.units + [u] && t.slices == s.slices + [slice] && t.closed == s.closed
    ensures KinSlices(t.units, t.slices, t.closed)
  {
    forall i, j | i in t.closed && j in t.closed && i < j < |t.slices|
      ensures Nests(t.units, t.slices, i, j)
    {
      assert Nests(s.units, s.slices, i, j);
      DescendsMore(s.units, u, j, i);
    }
  }

  /** A section opens below the innermost open one. */
  lemma {:induction false} SectionOpens(s: State, t: State, u: Unit, e: SectionEntry, stack: Stack, slice: Slice)
    requires KinOk(s) && |s.slices| == |s.units| && OpenWithin(s.units, s.stack) && ClosedWithin(s.units, s.closed)
    requires t.units == s.units + [u] && t.slices == s.slices + [slice] && t.closed == s.closed
        && t.stack == stack + [e]
    requires SameUnits(s.stack, stack) && e.unitIndex == |s.units| && u.parent == Container(s.stack) < |s.units|
    requires forall k :: 0 <= k < |s.stack| - 1 ==> Descends(s.units, Container(s.stack), s.stack[k].unitIndex)
    requires forall c :: c in s.closed ==> c != Container(s.stack) && !Descends(s.units, Container(s.stack), c)
    ensures KinOk(t)
  {
    var p := Container(s.stack);
    forall k, j | 0 <= k < |t.stack| && t.stack[k].unitIndex < j < |t.units| && t.units[j].kind == Section
      ensures Descends(t.units, j, t.stack[k].unitIndex)
    {
      if j < |s.units| {
        DescendsMore(s.units, u, j, s.stack[k].unitIndex);
      } else {
        NewDescends(s.units, u, p, s.stack[k].unitIndex);
        if k < |s.stack| - 1 {
          DescendsLater(s.units, p, s.stack[k].unitIndex);
        }
      }
    }
    forall c, k | c in t.closed && 0 <= k < |t.stack|
      ensures !Descends(t.units, t.stack[k].unitIndex, c)
    {
      if k < |s.stack| {
        DescendsMore(s.units, u, s.stack[k].unitIndex, c);
      } else {
        NewDescends(s.units, u, p, c);
      }
    }
    NestsStay(s, t, u, slice);
  }

  /** The innermost open section closes. */
  lemma {:induction false} SectionCloses(lines: seq<Line>, s: State, t: State, e: SectionEntry, next: nat)
    requires KinOk(s) && s.stack != [] && e == Top(s.stack) && next <= |lines|
        && Around(lines, s.slices, s.closed, e, next)
    requires forall k :: 0 <= k < |s.stack| - 1 ==> s.stack[k].unitIndex < e.unitIndex
    requires |s.slices| == |s.units| && forall c :: c in s.closed ==> c < |s.units| && s.units[c].kind == Section
    requires t.units == s.units && t.slices == s.slices[e.unitIndex := Closing(lines, e, next)]
    requires t.stack == Below(s.stack) && t.closed == s.closed + {e.unitIndex}
    ensures KinOk(t)
  {
    forall c, k | c in t.closed && 0 <= k < |t.stack|
      ensures !Descends(t.units, t.stack[k].unitIndex, c)
    {
      if c == e.unitIndex && Descends(t.units, t.stack[k].unitIndex, c) {
        DescendsLater(t.units, t.stack[k].unitIndex, c);
      }
    }
    forall i, j | i in t.closed && j in t.closed && i < j < |t.slices|
      ensures Nests(t.units, t.slices, i, j)
    {
      if j == e.unitIndex {
        assert !Descends(s.units, s.stack[|s.stack| - 1].unitIndex, i);
      } else if i == e.unitIndex {
        assert Descends(s.units, j, s.stack[|s.stack| - 1].unitIndex);
      } else {
        assert Nests(s.units, s.slices, i, j);
      }
    }
  }

  /** What the machine's own invariant says of the open sections. */
  lemma {:induction false} OpenFacts(lines: seq<Line>, s: State)
    requires Ok(lines, s)
    ensures |s.slices| == |s.units| && OpenWithin(s.units, s.stack) && Container(s.stack) < |s.units|
    ensures forall k :: 0 <= k < |s.stack| - 1 ==> s.stack[k].unitIndex < Container(s.stack)
    ensures s.stack != [] ==> s.units[Container(s.stack)].kind == Section
    ensures s.stack == [] ==> Container(s.stack) == 0
  {
    ContainerPathOf(s.units, s.stack);
    forall k | 0 <= k < |s.stack|
      ensures s.stack[k].unitIndex <= Container(s.stack)
      ensures k < |s.stack| - 1 ==> s.stack[k].unitIndex < Container(s.stack)
    {
      Depths(s.units, s.stack, k);
      if k < |s.stack| - 1 {
        Depths(s.units, Below(s.stack), k);
      }
    }
  }

  lemma {:induction false} ClosedFacts(lines: seq<Line>, s: State, c: nat)
    requires Ok(lines, s) && c in s.closed
    ensures c < |s.units| && s.units[c].kind == Section && c != Container(s.stack)
  {
    assert Root(s.units[0]);
  }

  lemma {:induction false} KinCloses(lines: seq<Line>, s: State, next: nat)
    requires LinesOk(lines) && Ok(lines, s) && KinOk(s) && Enabled(lines, s, CloseSection(next))
    ensures KinOk(Step(lines, s, CloseSection(next)))
  {
    OpenFacts(lines, s);
    forall c | c in s.closed
      ensures c < |s.units| && s.units[c].kind == Section
    {
      ClosedFacts(lines, s, c);
    }
    var e := Top(s.stack);
    AroundLater(lines, s.slices, s.closed, e, s.at, next);
    SectionCloses(lines, s, Step(lines, s, CloseSection(next)), e, next);
  }

  lemma {:induction false} KinOpens(lines: seq<Line>, s: State, line: nat, id: string)
    requires LinesOk(lines) && Ok(lines, s) && KinOk(s) && Enabled(lines, s, OpenSection(line, id))
    ensures KinOk(Step(lines, s, OpenSection(line, id)))
  {
    OpenFacts(lines, s);
    OpenShape(lines, s, line, id);
    BumpSame(s.stack, s.docPosition);
    var p, ordinal := Container(s.stack), Position(s.stack, s.docPosition) + 1;
    forall c | c in s.closed
      ensures c < |s.units| && c != p && !Descends(s.units, p, c)
    {
      ClosedFacts(lines, s, c);
      if s.stack != [] {
        assert p == s.stack[|s.stack| - 1].unitIndex;
      } else {
        assert Root(s.units[0]);
      }
    }
    forall k | 0 <= k < |s.stack| - 1
      ensures Descends(s.units, p, s.stack[k].unitIndex)
    {
    }
    SectionOpens(s, Step(lines, s, OpenSection(line, id)), SectionUnit(s.stack, |s.stack| + 2, ordinal, id),
                 SectionEntry(|s.stack| + 2, ordinal, id, |s.units|, 0, line), Bump(s.stack, s.docPosition).stack,
                     Slice(0, 0));
  }

  lemma {:induction false} KinEnds(lines: seq<Line>, s: State, slice: Slice)
    requires Ok(lines, s) && KinOk(s) && Enabled(lines, s, EndDefinition(slice))
    ensures KinOk(Step(lines, s, EndDefinition(slice)))
  {
    var d, t := s.definition.value, Step(lines, s, EndDefinition(slice));
    assert PathOf(s.units[d]).kind == Definition;
    forall i, j | i in t.closed && j in t.closed && i < j < |t.slices|
      ensures Nests(t.units, t.slices, i, j)
    {
      ClosedFacts(lines, s, i);
      ClosedFacts(lines, s, j);
      assert Nests(s.units, s.slices, i, j);
    }
  }

  lemma {:induction false} KinJoins(lines: seq<Line>, s: State, t: State, u: Unit, slice: Slice)
    requires Ok(lines, s) && KinOk(s)
    requires t.units == s.units + [u] && t.slices == s.slices + [slice] && t.closed == s.closed && u.kind != Section
    requires SameUnits(s.stack, t.stack)
    ensures KinOk(t)
  {
    OpenFacts(lines, s);
    forall c | c in s.closed
      ensures c < |s.units|
    {
      ClosedFacts(lines, s, c);
    }
    OtherJoins(s, t, u, slice);
  }

  lemma {:induction false} KinContains(lines: seq<Line>, s: State, kind: Kind, blockKind: BlockKind, slice: Slice)
    requires Ok(lines, s) && KinOk(s) && kind in {Block, Table}
    ensures KinOk(AddContainer(s, kind, blockKind, slice))
  {
    var t := AddContainer(s, kind, blockKind, slice);
    BumpSame(s.stack, s.docPosition);
    KinJoins(lines, s, t, t.units[|s.units|], slice);
  }

  lemma {:induction false} KinStarts(lines: seq<Line>, s: State, id: string)
    requires Ok(lines, s) && KinOk(s) && Enabled(lines, s, StartDefinition(id))
    ensures KinOk(Step(lines, s, StartDefinition(id)))
  {
    BumpSame(s.stack, s.docPosition);
    var u := DefinitionUnit(s.stack, id, Position(s.stack, s.docPosition) + 1);
    KinJoins(lines, s, Step(lines, s, StartDefinition(id)), u, Slice(0, 0));
  }

  lemma {:induction false} KinLeaves(lines: seq<Line>, s: State, slice: Slice)
    requires Ok(lines, s) && KinOk(s) && Enabled(lines, s, AddLeaf(slice))
    ensures KinOk(Step(lines, s, AddLeaf(slice)))
  {
    var b := s.block.value;
    LeafHangs(s.units, b, s.leaf + 1);
    KinJoins(lines, s, Step(lines, s, AddLeaf(slice)), LeafUnit(s.units[b], b, s.leaf + 1), slice);
  }

  lemma {:induction false} KinStep(lines: seq<Line>, s: State, e: Event)
    requires LinesOk(lines) && Ok(lines, s) && KinOk(s)
    ensures KinOk(Step(lines, s, e))
  {
    if Enabled(lines, s, e) {
      match e
      case CloseSection(next) => KinCloses(lines, s, next);
      case OpenSection(line, id) => KinOpens(lines, s, line, id);
      case StartDefinition(id) => KinStarts(lines, s, id);
      case EndDefinition(slice) => KinEnds(lines, s, slice);
      case AddBlock(blockKind, slice) => KinContains(lines, s, Block, blockKind, slice);
      case AddTable(slice) => KinContains(lines, s, Table, NoBlock, slice);
      case AddLeaf(slice) => KinLeaves(lines, s, slice);
    }
  }

  lemma {:induction false} ReplayKin(lines: seq<Line>, whole: Slice, log: seq<Event>)
    requires LinesOk(lines)
    ensures KinOk(Replay(lines, whole, log))
  {
    if log != [] {
      ReplayKin(lines, whole, log[..|log| - 1]);
      ReplayOk(lines, whole, log[..|log| - 1]);
      KinStep(lines, Replay(lines, whole, log[..|log| - 1]), log[|log| - 1]);
    }
  }

  /** Once all sections are closed: of two sections the later one's slice lies in the earlier one's
      exactly when it descends from it; else it comes after. */
  lemma {:induction false} SectionsNest(lines: seq<Line>, whole: Slice, log: seq<Event>, i: nat, j: nat)
    requires LinesOk(lines) && Replay(lines, whole, log).stack == [] && i < j < |Replay(lines, whole, log).units|
    requires Replay(lines, whole, log).units[i].kind == Replay(lines, whole, log).units[j].kind == Section
    ensures var s := Replay(lines, whole, log);
      |s.slices| == |s.units| && s.slices[i].start <= s.slices[i].end && Nests(s.units, s.slices, i, j)
  {
    ReplayOk(lines, whole, log);
    ReplayKin(lines, whole, log);
  }
}
