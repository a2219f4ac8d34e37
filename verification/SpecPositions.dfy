/** Positions are handed out without gaps: among the children of one owner they are 1, 2, 3, ..
    in document order (`_Scope` in scripts/spec_structure.py). */
module SpecPositions {
  import opened Wrappers
  import opened SpecUnits
  import opened SpecStack
  import opened SpecSlices
  import opened SpecMachine

  function Children(units: seq<Unit>, p: int): nat {
    if units == [] then 0
    else Children(units[..|units| - 1], p) + if units[|units| - 1].parent == p then 1 else 0
  }

  lemma {:induction false} ChildrenMore(units: seq<Unit>, u: Unit, p: int)
    ensures Children(units + [u], p) == Children(units, p) + if u.parent == p then 1 else 0
  {
    assert (units + [u])[..|units|] == units;
  }

  lemma {:induction false} ChildrenNone(units: seq<Unit>, p: int)
    requires forall i :: 0 <= i < |units| ==> units[i].parent < p
    ensures Children(units, p) == 0
  {
    if units != [] {
      ChildrenNone(units[..|units| - 1], p);
    }
  }

  /** The position of every unit is one more than the number of its elder siblings. */
  predicate Dense(units: seq<Unit>) {
    units == [] ||
    (&& Dense(units[..|units| - 1])
     && (units[|units| - 1].kind == Document
         || Ordinal(PathOf(units[|units| - 1])) == Children(units[..|units| - 1], units[|units| - 1].parent) + 1))
  }

  lemma {:induction false} DenseMore(units: seq<Unit>, u: Unit)
    requires Dense(units) && Ordinal(PathOf(u)) == Children(units, u.parent) + 1
    ensures Dense(units + [u])
  {
    assert (units + [u])[..|units|] == units;
  }

  /** The counter of every open scope is the number of its children. */
  predicate Counts(units: seq<Unit>, stack: Stack, docPosition: nat) {
    if stack == [] then Children(units, 0) == docPosition
    else Counts(units, Below(stack), docPosition) && Children(units, Top(stack).unitIndex) == Top(stack).childPosition
  }

  lemma {:induction false} PositionChildren(units: seq<Unit>, stack: Stack, docPosition: nat)
    requires Counts(units, stack, docPosition)
    ensures Position(stack, docPosition) == Children(units, Container(stack))
  {
  }

  predicate CountsOk(s: State) {
    && Dense(s.units) && Counts(s.units, s.stack, s.docPosition)
    && (s.definition.Some? ==> Children(s.units, s.definition.value) == s.definitionPosition)
    && (s.block.Some? ==> Children(s.units, s.block.value) == s.leaf)
  }

  lemma {:induction false} CountsOther(units: seq<Unit>, u: Unit, stack: Stack, docPosition: nat)
    requires StackOk(units, stack) && Counts(units, stack, docPosition) && u.parent > Container(stack)
    ensures Counts(units + [u], stack, docPosition)
  {
    if stack == [] {
      ChildrenMore(units, u, 0);
    } else {
      CountsOther(units, u, Below(stack), docPosition);
      ChildrenMore(units, u, Top(stack).unitIndex);
    }
  }

  /** A child of the innermost scope at its next position. */
  lemma {:induction false} CountsOwn(units: seq<Unit>, u: Unit, stack: Stack, docPosition: nat)
    requires StackOk(units, stack) && Counts(units, stack, docPosition) && u.parent == Container(stack)
    ensures var c := Bump(stack, docPosition); Counts(units + [u], c.stack, c.docPosition)
    ensures Children(units, u.parent) == Position(stack, docPosition)
  {
    BumpShape(stack, docPosition);
    ChildrenMore(units, u, u.parent);
    if stack != [] {
      CountsOther(units, u, Below(stack), docPosition);
    }
  }

  lemma {:induction false} NewHasNone(units: seq<Unit>)
    requires Tree(units)
    ensures Children(units, |units|) == 0
  {
    forall i | 0 <= i < |units|
      ensures units[i].parent < |units|
    {
      if i > 0 {
        HungAt(units, i);
      }
    }
    ChildrenNone(units, |units|);
  }

  /** A unit joins at its owner's next position, and has no children. */
  lemma {:induction false} JoinDense(units: seq<Unit>, u: Unit)
    requires Tree(units) && Dense(units) && 0 <= u.parent < |units|
        && Ordinal(PathOf(u)) == Children(units, u.parent) + 1
    ensures Dense(units + [u]) && Children(units + [u], |units|) == 0
        && Children(units + [u], u.parent) == Children(units, u.parent) + 1
  {
    DenseMore(units, u);
    NewHasNone(units);
    ChildrenMore(units, u, |units|);
    ChildrenMore(units, u, u.parent);
  }

  lemma {:induction false} PushCounts(units: seq<Unit>, u: Unit, stack: Stack, docPosition: nat, e: SectionEntry)
    requires Tree(units) && StackOk(units, stack) && Dense(units) && Counts(units, stack, docPosition)
    requires u == SectionUnit(stack, e.depth, Position(stack, docPosition) + 1, e.id) && e.unitIndex == |units|
        && e.childPosition == 0
    ensures var c := Bump(stack, docPosition); Dense(units + [u]) && Counts(units + [u], c.stack + [e], c.docPosition)
  {
    var c := Bump(stack, docPosition);
    ContainerPathOf(units, stack);
    CountsOwn(units, u, stack, docPosition);
    JoinDense(units, u);
    assert Below(c.stack + [e]) == c.stack;
  }

  lemma OpenCounts(lines: seq<Line>, s: State, line: nat, id: string)
    requires Tree(s.units) && StackOk(s.units, s.stack) && CountsOk(s) && Enabled(lines, s, OpenSection(line, id))
    ensures CountsOk(Step(lines, s, OpenSection(line, id)))
  {
    var depth, ordinal := |s.stack| + 2, Position(s.stack, s.docPosition) + 1;
    PushCounts(s.units, SectionUnit(s.stack, depth, ordinal, id), s.stack, s.docPosition,
               SectionEntry(depth, ordinal, id, |s.units|, 0, line));
  }

  lemma StartCounts(lines: seq<Line>, s: State, id: string)
    requires Tree(s.units) && StackOk(s.units, s.stack) && CountsOk(s) && Enabled(lines, s, StartDefinition(id))
    ensures CountsOk(Step(lines, s, StartDefinition(id)))
  {
    var u := DefinitionUnit(s.stack, id, Position(s.stack, s.docPosition) + 1);
    ContainerPathOf(s.units, s.stack);
    var c := Bump(s.stack, s.docPosition);
    StartCounted(s, Step(lines, s, StartDefinition(id)), u, c.stack, c.docPosition);
  }

  lemma {:induction false} StartCounted(s: State, t: State, u: Unit, stack: Stack, docPosition: nat)
    requires Tree(s.units) && StackOk(s.units, s.stack) && CountsOk(s)
    requires u.parent == Container(s.stack) < |s.units| && Ordinal(PathOf(u)) == Position(s.stack, s.docPosition) + 1
    requires Counters(stack, docPosition) == Bump(s.stack, s.docPosition)
    requires t.units == s.units + [u] && t.stack == stack && t.docPosition == docPosition
    requires t.definition == Some(|s.units|) && t.definitionPosition == 0 && t.block == None
    ensures CountsOk(t)
  {
    CountsOwn(s.units, u, s.stack, s.docPosition);
    PositionChildren(s.units, s.stack, s.docPosition);
    JoinDense(s.units, u);
  }

  lemma OuterCounts(s: State, kind: Kind, blockKind: BlockKind, slice: Slice)
    requires Tree(s.units) && StackOk(s.units, s.stack) && CountsOk(s) && s.definition.None? && kind in {Block, Table}
    ensures CountsOk(AddContainer(s, kind, blockKind, slice))
  {
    var u := OuterUnit(s, kind, blockKind);
    ContainerPathOf(s.units, s.stack);
    CountsOwn(s.units, u, s.stack, s.docPosition);
    JoinDense(s.units, u);
  }

  lemma InnerCounts(s: State, kind: Kind, blockKind: BlockKind, slice: Slice)
    requires Tree(s.units) && StackOk(s.units, s.stack) && CountsOk(s) && s.definition.Some? && kind in {Block, Table}
    requires Container(s.stack) < s.definition.value < |s.units|
    ensures CountsOk(AddContainer(s, kind, blockKind, slice))
  {
    var u := InnerUnit(s, kind, blockKind);
    CountsOther(s.units, u, s.stack, s.docPosition);
    JoinDense(s.units, u);
  }

  lemma LeafCounts(lines: seq<Line>, s: State, slice: Slice)
    requires Tree(s.units) && StackOk(s.units, s.stack) && CountsOk(s) && Enabled(lines, s, AddLeaf(slice))
    requires Container(s.stack) < s.block.value
    requires s.definition.Some? ==> s.definition.value != s.block.value
    ensures CountsOk(Step(lines, s, AddLeaf(slice)))
  {
    var b := s.block.value;
    var u := LeafUnit(s.units[b], b, s.leaf + 1);
    LeafHangs(s.units, b, s.leaf + 1);
    LeafCounted(s, Step(lines, s, AddLeaf(slice)), b, u);
  }

  lemma LeafCounted(s: State, t: State, b: nat, u: Unit)
    requires Tree(s.units) && StackOk(s.units, s.stack) && CountsOk(s) && s.block == Some(b)
        && Container(s.stack) < b < |s.units|
    requires s.definition.Some? ==> s.definition.value != b
    requires u.parent == b && Ordinal(PathOf(u)) == s.leaf + 1
    requires t.units == s.units + [u] && t.stack == s.stack && t.docPosition == s.docPosition && t.block == s.block
    requires t.definition == s.definition && t.definitionPosition == s.definitionPosition && t.leaf == s.leaf + 1
    ensures CountsOk(t)
  {
    CountsOther(s.units, u, s.stack, s.docPosition);
    JoinDense(s.units, u);
    if s.definition.Some? {
      ChildrenMore(s.units, u, s.definition.value);
    }
  }

  lemma CountsStep(lines: seq<Line>, s: State, e: Event)
    requires LinesOk(lines) && Ok(lines, s) && CountsOk(s)
    ensures CountsOk(Step(lines, s, e))
  {
    if Enabled(lines, s, e) {
      match e
      case CloseSection(next) => CloseCounts(lines, s, next);
      case OpenSection(line, id) => OpenCounts(lines, s, line, id);
      case StartDefinition(id) => StartCounts(lines, s, id);
      case EndDefinition(_) =>
      case AddBlock(blockKind, slice) => ContainerCounts(lines, s, Block, blockKind, slice);
      case AddTable(slice) => ContainerCounts(lines, s, Table, NoBlock, slice);
      case AddLeaf(slice) =>
        ReadsIsNoBlock(lines, s, slice);
        LeafCounts(lines, s, slice);
    }
  }

  lemma {:induction false} CloseCounts(lines: seq<Line>, s: State, next: nat)
    requires CountsOk(s) && Enabled(lines, s, CloseSection(next))
    ensures CountsOk(Step(lines, s, CloseSection(next)))
  {
  }

  lemma {:induction false} ReadsIsNoBlock(lines: seq<Line>, s: State, slice: Slice)
    requires Ok(lines, s) && Enabled(lines, s, AddLeaf(slice))
    ensures Container(s.stack) < s.block.value && Tree(s.units) && StackOk(s.units, s.stack)
    ensures s.definition.Some? ==> s.definition.value != s.block.value
  {
    if s.definition.Some? {
      assert PathOf(s.units[s.definition.value]).kind == Definition;
    }
  }

  lemma ContainerCounts(lines: seq<Line>, s: State, kind: Kind, blockKind: BlockKind, slice: Slice)
    requires Ok(lines, s) && CountsOk(s) && kind in {Block, Table}
    ensures CountsOk(AddContainer(s, kind, blockKind, slice))
  {
    if s.definition.Some? {
      InnerCounts(s, kind, blockKind, slice);
    } else {
      OuterCounts(s, kind, blockKind, slice);
    }
  }

  /** In every run the children of every unit stand at positions 1, 2, 3, .. without a gap. */
  lemma {:induction false} ReplayDense(lines: seq<Line>, whole: Slice, log: seq<Event>)
    requires LinesOk(lines)
    ensures CountsOk(Replay(lines, whole, log))
  {
    if log == [] {
      assert [ROOT][..0] == [];
    } else {
      var before := log[..|log| - 1];
      ReplayDense(lines, whole, before);
      ReplayOk(lines, whole, before);
      CountsStep(lines, Replay(lines, whole, before), log[|log| - 1]);
    }
  }
}
