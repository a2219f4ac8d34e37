/** The parser's state as a machine: every way in which a parse may extend its units, and what
    all runs keep (scripts/spec_structure.py). */
module SpecMachine {
  import opened Wrappers
  import opened SpecUnits
  import opened SpecStack
  import opened SpecSlices

  // ---------- Units ----------

  function BlockUnit(kind: Kind, blockKind: BlockKind, chain: seq<Link>, owner: nat, id: string, definitionOrdinal: nat,
                     ordinal: nat): Unit {
    Unit(kind, chain, id, definitionOrdinal, ordinal, if kind == Block then blockKind else NoBlock, 0, owner)
  }

  function DefinitionUnit(stack: Stack, id: string, ordinal: nat): Unit {
    Unit(Definition, ChainOf(stack), id, ordinal, 0, NoBlock, 0, Container(stack))
  }

  /** The `n`th clause or row of unit `b`. */
  function LeafUnit(block: Unit, b: nat, n: nat): Unit {
    block.(kind := if block.kind == Table then TableRow else Clause, leafOrdinal := n, parent := b)
  }

  /** `d` is a definition of the innermost section whose counter bounds its children. */
  ghost predicate Reads(units: seq<Unit>, stack: Stack, d: nat, position: nat) {
    && Container(stack) < d < |units| && units[d].definitionOrdinal > 0
    && PathOf(units[d]) == Path(Definition, ChainOf(stack), units[d].definitionId, units[d].definitionOrdinal, 0,
                                NoBlock, 0)
    && AtMost(units, d, position)
  }

  /** Every section is closed or open, and only sections are closed. */
  ghost predicate Tracked(units: seq<Unit>, closed: set<nat>, stack: Stack) {
    && (forall i :: 0 <= i < |units| && units[i].kind == Section ==> i in closed || i in OpenSet(stack))
    && forall i :: i in closed ==> i < |units| && units[i].kind == Section
  }

  lemma {:induction false} JoinBlock(units: seq<Unit>, u: Unit, stack: Stack, docPosition: nat, seen: set<string>)
    requires Good(units, stack, docPosition, seen) && u.kind in {Block, Table, Definition}
    requires u.parent == Container(stack) && ParentPath(PathOf(u)) == ContainerPath(ChainOf(stack))
    requires Ordinal(PathOf(u)) <= Position(stack, docPosition) && AtMost(units, u.parent, Ordinal(PathOf(u)) - 1)
    ensures Good(units + [u], stack, docPosition, seen) && AtMost(units + [u], |units|, 0)
  {
    ContainerPathOf(units, stack);
    Join(units, u, stack, docPosition, seen);
    NoChildren(units, |units|);
  }

  lemma JoinInDefinition(units: seq<Unit>, u: Unit, stack: Stack, docPosition: nat, seen: set<string>, d: nat,
                         position: nat)
    requires Good(units, stack, docPosition, seen) && Reads(units, stack, d, position) && u.kind in {Block, Table}
    requires u.parent == d && ParentPath(PathOf(u)) == PathOf(units[d])
    requires Ordinal(PathOf(u)) <= position && AtMost(units, d, Ordinal(PathOf(u)) - 1)
    ensures Good(units + [u], stack, docPosition, seen) && AtMost(units + [u], |units|, 0)
    ensures Reads(units + [u], stack, d, position)
  {
    Join(units, u, stack, docPosition, seen);
    NoChildren(units, |units|);
    GrowBounds(units, u, d, position);
  }

  /** A block or table bears leaves. */
  predicate BearsLeaves(units: seq<Unit>, b: nat) {
    b < |units| && units[b].leafOrdinal == 0
    && ((units[b].kind == Block && units[b].blockKind in {Paragraph, ListItem, Blockquote})
        || (units[b].kind == Table && units[b].blockKind == NoBlock))
  }

  lemma LeafHangs(units: seq<Unit>, b: nat, n: nat)
    requires BearsLeaves(units, b)
    ensures var u := LeafUnit(units[b], b, n);
      && Hangs(units, u) && BearsClauses(units, u) && Ordinal(PathOf(u)) == n && u.kind in {Clause, TableRow}
      && u.parent == b
  {
  }

  lemma LeafBounds(units: seq<Unit>, b: nat, n: nat)
    requires BearsLeaves(units, b) && AtMost(units, b, n)
    ensures var more := units + [LeafUnit(units[b], b, n + 1)];
      AtMost(more, b, n + 1) && BearsLeaves(more, b)
  {
    LeafHangs(units, b, n + 1);
    assert AtMost(units, b, n + 1);
    GrowBounds(units, LeafUnit(units[b], b, n + 1), b, n + 1);
  }

  lemma JoinLeaf(units: seq<Unit>, stack: Stack, docPosition: nat, seen: set<string>, b: nat, n: nat)
    requires Good(units, stack, docPosition, seen) && BearsLeaves(units, b) && Container(stack) < b
        && AtMost(units, b, n)
    ensures Good(units + [LeafUnit(units[b], b, n + 1)], stack, docPosition, seen)
  {
    LeafHangs(units, b, n + 1);
    Join(units, LeafUnit(units[b], b, n + 1), stack, docPosition, seen);
  }

  // ---------- The machine ----------

  /** `definition` is the definition being read and `definitionPosition` its child counter; `block`
      is the last block or table and `leaf` the number of its clauses or rows.  `closed` collects
      the sections already closed and `at` is the line up to which headings have been read. */
  datatype State = State(units: seq<Unit>, slices: seq<Slice>, stack: Stack, docPosition: nat, seen: set<string>,
                         definition: Option<nat>, definitionPosition: nat, block: Option<nat>, leaf: nat,
                         closed: set<nat>, at: nat)

  datatype Event =
    | CloseSection(next: nat)                          // a heading or the end closes the innermost section
    | OpenSection(line: nat, id: string)               // a heading one level below the innermost section
    | StartDefinition(id: string)
    | EndDefinition(slice: Slice)
    | AddBlock(blockKind: BlockKind, slice: Slice)
    | AddTable(slice: Slice)
    | AddLeaf(slice: Slice)                            // a clause of the last block, a row of the last table

  const ROOT: Unit := Unit(Document, [], "", 0, 0, NoBlock, 0, -1)

  function Initial(whole: Slice): State { State([ROOT], [whole], [], 0, {}, None, 0, None, 0, {}, 0) }

  /** When an event may happen. */
  predicate Enabled(lines: seq<Line>, s: State, e: Event) {
    match e
    case CloseSection(next) => s.stack != [] && s.definition.None? && s.at <= next <= |lines|
    case OpenSection(line, id) => s.definition.None? && id !in s.seen && s.at <= line < |lines|
        && !Blank(lines[line].text)
    case StartDefinition(_) => s.definition.None?
    case EndDefinition(_) => s.definition.Some? && s.definition.value < |s.slices|
    case AddBlock(blockKind, _) => blockKind != NoBlock && (s.definition.Some? ==> s.definition.value < |s.units|)
    case AddTable(_) => s.definition.Some? ==> s.definition.value < |s.units|
    case AddLeaf(_) => s.block.Some? && BearsLeaves(s.units, s.block.value)
  }

  function AddUnit(s: State, u: Unit, slice: Slice): State {
    s.(units := s.units + [u], slices := s.slices + [slice])
  }

  /** A block or table at the next position of the scope being read. */
  function AddContainer(s: State, kind: Kind, blockKind: BlockKind, slice: Slice): State
    requires s.definition.Some? ==> s.definition.value < |s.units|
  {
    if s.definition.Some? then
      var d := s.units[s.definition.value];
      var u := BlockUnit(kind, blockKind, ChainOf(s.stack), s.definition.value, d.definitionId, d.definitionOrdinal,
                         s.definitionPosition + 1);
      AddUnit(s, u, slice).(definitionPosition := s.definitionPosition + 1, block := Some(|s.units|), leaf := 0)
    else
      var c := Bump(s.stack, s.docPosition);
      var u := BlockUnit(kind, blockKind, ChainOf(s.stack), Container(s.stack), "", 0,
                         Position(s.stack, s.docPosition) + 1);
      AddUnit(s, u, slice).(stack := c.stack, docPosition := c.docPosition, block := Some(|s.units|), leaf := 0)
  }

  /** One event; an event that is not enabled changes nothing. */
  function Step(lines: seq<Line>, s: State, e: Event): State {
    if !Enabled(lines, s, e) then s
    else
      match e
      case CloseSection(next) =>
        var top := Top(s.stack);
        if top.startLine < |lines| && top.unitIndex < |s.slices| then
          s.(slices := s.slices[top.unitIndex := Closing(lines, top, next)], stack := Below(s.stack),
             closed := s.closed + {top.unitIndex}, at := next, block := None)
        else s
      case OpenSection(line, id) =>
        var c := Bump(s.stack, s.docPosition);
        var ordinal, depth := Position(s.stack, s.docPosition) + 1, |s.stack| + 2;
        AddUnit(s, SectionUnit(s.stack, depth, ordinal, id), Slice(0, 0)).(
          stack := c.stack + [SectionEntry(depth, ordinal, id, |s.units|, 0, line)], docPosition := c.docPosition,
          seen := s.seen + {id}, at := line + 1, block := None)
      case StartDefinition(id) =>
        var c := Bump(s.stack, s.docPosition);
        AddUnit(s, DefinitionUnit(s.stack, id, Position(s.stack, s.docPosition) + 1), Slice(0, 0)).(
          stack := c.stack, docPosition := c.docPosition, definition := Some(|s.units|),
          definitionPosition := 0, block := None)
      case EndDefinition(slice) =>
        s.(slices := s.slices[s.definition.value := slice], definition := None, block := None)
      case AddBlock(blockKind, slice) => AddContainer(s, Block, blockKind, slice)
      case AddTable(slice) => AddContainer(s, Table, NoBlock, slice)
      case AddLeaf(slice) =>
        AddUnit(s, LeafUnit(s.units[s.block.value], s.block.value, s.leaf + 1), slice).(leaf := s.leaf + 1)
  }

  function Replay(lines: seq<Line>, whole: Slice, log: seq<Event>): State {
    if log == [] then Initial(whole) else Step(lines, Replay(lines, whole, log[..|log| - 1]), log[|log| - 1])
  }

  // ---------- What every event keeps ----------

  ghost predicate UnitsOk(s: State) { Good(s.units, s.stack, s.docPosition, s.seen) }

  ghost predicate SectionsOk(lines: seq<Line>, s: State) {
    && s.at <= |lines| && |s.slices| == |s.units|
    && SlicesOk(lines, s.slices, s.closed, s.stack, s.at) && Tracked(s.units, s.closed, s.stack)
  }

  ghost predicate DefinitionOk(s: State) {
    s.definition.Some? ==> Reads(s.units, s.stack, s.definition.value, s.definitionPosition)
  }

  ghost predicate BlockOk(s: State) {
    s.block.Some? ==> s.block.value < |s.units| && Container(s.stack) < s.block.value
                      && AtMost(s.units, s.block.value, s.leaf) && s.units[s.block.value].kind in {Block, Table}
  }

  ghost predicate Ok(lines: seq<Line>, s: State) {
    UnitsOk(s) && SectionsOk(lines, s) && DefinitionOk(s) && BlockOk(s)
  }

  // Sections

  lemma CloseSections(lines: seq<Line>, s: State, next: nat)
    requires LinesOk(lines) && SectionsOk(lines, s) && Enabled(lines, s, CloseSection(next))
        && StackOk(s.units, s.stack)
    ensures Top(s.stack).startLine < |lines| && Top(s.stack).unitIndex < |s.slices|
    ensures SectionsOk(lines, Step(lines, s, CloseSection(next)))
  {
    CloseTop(lines, s.slices, s.closed, s.stack, s.at, next);
    ContainerPathOf(s.units, s.stack);
    CloseTracked(s.units, s.closed, s.stack);
  }

  lemma CloseTracked(units: seq<Unit>, closed: set<nat>, stack: Stack)
    requires Tracked(units, closed, stack) && stack != [] && Top(stack).unitIndex < |units|
        && units[Top(stack).unitIndex].kind == Section
    ensures Tracked(units, closed + {Top(stack).unitIndex}, Below(stack))
  {
  }

  lemma CloseOk(lines: seq<Line>, s: State, next: nat)
    requires LinesOk(lines) && Ok(lines, s) && Enabled(lines, s, CloseSection(next))
    ensures Ok(lines, Step(lines, s, CloseSection(next)))
  {
    CloseSections(lines, s, next);
    Pop(s.units, s.stack, s.docPosition, s.seen);
  }

  lemma OpenSections(lines: seq<Line>, s: State, line: nat, id: string)
    requires LinesOk(lines) && SectionsOk(lines, s) && Enabled(lines, s, OpenSection(line, id))
    ensures SectionsOk(lines, Step(lines, s, OpenSection(line, id)))
  {
    var ordinal := Position(s.stack, s.docPosition) + 1;
    var e := SectionEntry(|s.stack| + 2, ordinal, id, |s.units|, 0, line);
    OpenShape(lines, s, line, id);
    OpenedSections(lines, s, Step(lines, s, OpenSection(line, id)), Bump(s.stack, s.docPosition).stack, e,
                   SectionUnit(s.stack, e.depth, ordinal, id), line);
  }

  lemma OpenedSections(lines: seq<Line>, s: State, t: State, stack: Stack, e: SectionEntry, u: Unit, line: nat)
    requires LinesOk(lines) && SectionsOk(lines, s) && s.at <= line < |lines| && !Blank(lines[line].text)
    requires stack == Bump(s.stack, s.docPosition).stack && e.unitIndex == |s.slices| && e.startLine == line
    requires t.units == s.units + [u] && t.slices == s.slices + [Slice(0, 0)] && t.stack == stack + [e]
    requires t.closed == s.closed && t.at == line + 1
    ensures SectionsOk(lines, t)
  {
    BumpedSlices(lines, s, stack, line);
    PushSlice(lines, s.slices, s.closed, stack, line, e, Slice(0, 0));
    OpenTracked(s.units, s.closed, s.stack, u, stack + [e]);
  }

  lemma {:induction false} BumpedSlices(lines: seq<Line>, s: State, stack: Stack, line: nat)
    requires LinesOk(lines) && SectionsOk(lines, s) && s.at <= line <= |lines|
        && stack == Bump(s.stack, s.docPosition).stack
    ensures SlicesOk(lines, s.slices, s.closed, stack, line) && OpenSet(stack) == OpenSet(s.stack)
  {
    Later(lines, s.slices, s.closed, s.stack, s.at, line);
    BumpSlices(lines, s.slices, s.closed, s.stack, s.docPosition, line);
  }

  lemma {:induction false} OpenTracked(units: seq<Unit>, closed: set<nat>, stack: Stack, u: Unit, after: Stack)
    requires Tracked(units, closed, stack) && OpenSet(after) == OpenSet(stack) + {|units|}
    ensures Tracked(units + [u], closed, after)
  {
  }

  lemma OpenShape(lines: seq<Line>, s: State, line: nat, id: string)
    requires Enabled(lines, s, OpenSection(line, id))
    ensures var c, t, ordinal := Bump(s.stack, s.docPosition), Step(lines, s, OpenSection(line, id)),
        Position(s.stack, s.docPosition) + 1;
      && t.units == s.units + [SectionUnit(s.stack, |s.stack| + 2, ordinal, id)] && t.docPosition == c.docPosition
      && t.stack == c.stack + [SectionEntry(|s.stack| + 2, ordinal, id, |s.units|, 0, line)] && t.seen == s.seen + {id}
      && t.slices == s.slices + [Slice(0, 0)] && t.definition == None && t.at == line + 1 && t.closed == s.closed
  {
  }

  lemma OpenUnits(s: State, t: State, line: nat, id: string)
    requires UnitsOk(s) && id !in s.seen
    requires var c, ordinal := Bump(s.stack, s.docPosition), Position(s.stack, s.docPosition) + 1;
      && t.units == s.units + [SectionUnit(s.stack, |s.stack| + 2, ordinal, id)] && t.docPosition == c.docPosition
      && t.stack == c.stack + [SectionEntry(|s.stack| + 2, ordinal, id, |s.units|, 0, line)] && t.seen == s.seen + {id}
    ensures UnitsOk(t)
  {
    Open(s.units, s.stack, s.docPosition, s.seen, id, line);
  }

  lemma OpenOk(lines: seq<Line>, s: State, line: nat, id: string)
    requires LinesOk(lines) && Ok(lines, s) && Enabled(lines, s, OpenSection(line, id))
    ensures Ok(lines, Step(lines, s, OpenSection(line, id)))
  {
    OpenSections(lines, s, line, id);
    OpenShape(lines, s, line, id);
    OpenUnits(s, Step(lines, s, OpenSection(line, id)), line, id);
  }

  /** Anything but a section joins without disturbing the sections. */
  lemma OtherSections(lines: seq<Line>, s: State, u: Unit, slice: Slice, bump: bool)
    requires LinesOk(lines) && SectionsOk(lines, s) && u.kind != Section
    ensures var t := AddUnit(s, u, slice); var c := Bump(s.stack, s.docPosition);
      SectionsOk(lines, if bump then t.(stack := c.stack, docPosition := c.docPosition) else t)
  {
    var stack := if bump then Bump(s.stack, s.docPosition).stack else s.stack;
    BumpSlices(lines, s.slices, s.closed, s.stack, s.docPosition, s.at);
    MoreSlices(lines, s.slices, s.closed, stack, s.at, s.at, slice);
    OtherTracked(s.units, u, s.closed, s.stack, stack);
  }

  lemma {:induction false} OtherTracked(units: seq<Unit>, u: Unit, closed: set<nat>, stack: Stack, after: Stack)
    requires Tracked(units, closed, stack) && u.kind != Section && OpenSet(after) == OpenSet(stack)
    ensures Tracked(units + [u], closed, after)
  {
  }

  // Definitions

  lemma StartUnits(s: State, u: Unit, id: string)
    requires UnitsOk(s) && u == DefinitionUnit(s.stack, id, Position(s.stack, s.docPosition) + 1)
    ensures var c := Bump(s.stack, s.docPosition);
      Good(s.units + [u], c.stack, c.docPosition, s.seen) && Reads(s.units + [u], c.stack, |s.units|, 0)
  {
    var c := Bump(s.stack, s.docPosition);
    BumpGood(s.units, s.stack, s.docPosition, s.seen);
    BumpShape(s.stack, s.docPosition);
    ContainerPathOf(s.units, s.stack);
    JoinBlock(s.units, u, c.stack, c.docPosition, s.seen);
  }

  lemma StartOk(lines: seq<Line>, s: State, id: string)
    requires LinesOk(lines) && Ok(lines, s) && Enabled(lines, s, StartDefinition(id))
    ensures Ok(lines, Step(lines, s, StartDefinition(id)))
  {
    var u := DefinitionUnit(s.stack, id, Position(s.stack, s.docPosition) + 1);
    StartUnits(s, u, id);
    OtherSections(lines, s, u, Slice(0, 0), true);
  }

  lemma EndOk(lines: seq<Line>, s: State, slice: Slice)
    requires LinesOk(lines) && Ok(lines, s) && Enabled(lines, s, EndDefinition(slice))
    ensures Ok(lines, Step(lines, s, EndDefinition(slice)))
  {
    var d := s.definition.value;
    assert PathOf(s.units[d]).kind == Definition;
    OtherSlice(lines, s.slices, s.closed, s.stack, s.at, d, slice);
  }

  // Blocks and tables

  function InnerUnit(s: State, kind: Kind, blockKind: BlockKind): Unit
    requires s.definition.Some? && s.definition.value < |s.units|
  {
    var d := s.units[s.definition.value];
    BlockUnit(kind, blockKind, ChainOf(s.stack), s.definition.value, d.definitionId, d.definitionOrdinal,
              s.definitionPosition + 1)
  }

  function OuterUnit(s: State, kind: Kind, blockKind: BlockKind): Unit {
    BlockUnit(kind, blockKind, ChainOf(s.stack), Container(s.stack), "", 0, Position(s.stack, s.docPosition) + 1)
  }

  lemma InnerUnits(s: State, kind: Kind, blockKind: BlockKind)
    requires UnitsOk(s) && DefinitionOk(s) && s.definition.Some? && kind in {Block, Table}
    ensures var more := s.units + [InnerUnit(s, kind, blockKind)];
      && Good(more, s.stack, s.docPosition, s.seen)
      && Reads(more, s.stack, s.definition.value, s.definitionPosition + 1)
      && AtMost(more, |s.units|, 0)
  {
    JoinInDefinition(s.units, InnerUnit(s, kind, blockKind), s.stack, s.docPosition, s.seen, s.definition.value,
                     s.definitionPosition + 1);
  }

  lemma InnerFacets(s: State, kind: Kind, blockKind: BlockKind, slice: Slice)
    requires UnitsOk(s) && DefinitionOk(s) && s.definition.Some? && kind in {Block, Table}
    ensures var t := AddContainer(s, kind, blockKind, slice); UnitsOk(t) && DefinitionOk(t) && BlockOk(t)
  {
    InnerUnits(s, kind, blockKind);
  }

  lemma InnerSections(lines: seq<Line>, s: State, kind: Kind, blockKind: BlockKind, slice: Slice)
    requires LinesOk(lines) && SectionsOk(lines, s) && s.definition.Some? && s.definition.value < |s.units|
        && kind in {Block, Table}
    ensures SectionsOk(lines, AddContainer(s, kind, blockKind, slice))
  {
    OtherSections(lines, s, InnerUnit(s, kind, blockKind), slice, false);
  }

  lemma OuterUnits(s: State, kind: Kind, blockKind: BlockKind)
    requires UnitsOk(s) && kind in {Block, Table}
    ensures var c := Bump(s.stack, s.docPosition); var more := s.units + [OuterUnit(s, kind, blockKind)];
      Good(more, c.stack, c.docPosition, s.seen) && AtMost(more, |s.units|, 0) && Container(c.stack) < |s.units|
  {
    var c := Bump(s.stack, s.docPosition);
    BumpGood(s.units, s.stack, s.docPosition, s.seen);
    BumpShape(s.stack, s.docPosition);
    ContainerPathOf(s.units, s.stack);
    JoinBlock(s.units, OuterUnit(s, kind, blockKind), c.stack, c.docPosition, s.seen);
  }

  lemma OuterFacets(s: State, kind: Kind, blockKind: BlockKind, slice: Slice)
    requires UnitsOk(s) && s.definition.None? && kind in {Block, Table}
    ensures var t := AddContainer(s, kind, blockKind, slice); UnitsOk(t) && DefinitionOk(t) && BlockOk(t)
  {
    OuterUnits(s, kind, blockKind);
  }

  lemma OuterSections(lines: seq<Line>, s: State, kind: Kind, blockKind: BlockKind, slice: Slice)
    requires LinesOk(lines) && SectionsOk(lines, s) && s.definition.None? && kind in {Block, Table}
    ensures SectionsOk(lines, AddContainer(s, kind, blockKind, slice))
  {
    OtherSections(lines, s, OuterUnit(s, kind, blockKind), slice, true);
  }

  lemma ContainerOk(lines: seq<Line>, s: State, kind: Kind, blockKind: BlockKind, slice: Slice)
    requires LinesOk(lines) && Ok(lines, s) && kind in {Block, Table}
    ensures Ok(lines, AddContainer(s, kind, blockKind, slice))
  {
    if s.definition.Some? {
      InnerFacets(s, kind, blockKind, slice);
      InnerSections(lines, s, kind, blockKind, slice);
    } else {
      OuterFacets(s, kind, blockKind, slice);
      OuterSections(lines, s, kind, blockKind, slice);
    }
  }

  // Leaves

  lemma LeafReads(units: seq<Unit>, stack: Stack, d: nat, position: nat, b: nat, n: nat)
    requires Reads(units, stack, d, position) && BearsLeaves(units, b)
    ensures Reads(units + [LeafUnit(units[b], b, n)], stack, d, position)
  {
    assert PathOf(units[d]).kind == Definition;
    GrowBounds(units, LeafUnit(units[b], b, n), d, position);
  }

  lemma LeafFacets(lines: seq<Line>, s: State, slice: Slice)
    requires UnitsOk(s) && BlockOk(s) && Enabled(lines, s, AddLeaf(slice))
    ensures var t := Step(lines, s, AddLeaf(slice)); UnitsOk(t) && BlockOk(t)
  {
    var b := s.block.value;
    var u := LeafUnit(s.units[b], b, s.leaf + 1);
    LeafJoins(s, Step(lines, s, AddLeaf(slice)), b, u);
  }

  lemma LeafJoins(s: State, t: State, b: nat, u: Unit)
    requires UnitsOk(s) && BlockOk(s) && s.block == Some(b) && BearsLeaves(s.units, b)
        && u == LeafUnit(s.units[b], b, s.leaf + 1)
    requires t.units == s.units + [u] && t.stack == s.stack && t.docPosition == s.docPosition && t.seen == s.seen
    requires t.block == s.block && t.leaf == s.leaf + 1
    ensures UnitsOk(t) && BlockOk(t)
  {
    LeafBounds(s.units, b, s.leaf);
    JoinLeaf(s.units, s.stack, s.docPosition, s.seen, b, s.leaf);
  }

  lemma LeafDefinition(lines: seq<Line>, s: State, slice: Slice)
    requires DefinitionOk(s) && Enabled(lines, s, AddLeaf(slice))
    ensures DefinitionOk(Step(lines, s, AddLeaf(slice)))
  {
    if s.definition.Some? {
      LeafReads(s.units, s.stack, s.definition.value, s.definitionPosition, s.block.value, s.leaf + 1);
    }
  }

  lemma LeafSections(lines: seq<Line>, s: State, slice: Slice)
    requires LinesOk(lines) && SectionsOk(lines, s) && Enabled(lines, s, AddLeaf(slice))
    ensures SectionsOk(lines, Step(lines, s, AddLeaf(slice)))
  {
    LeafHangs(s.units, s.block.value, s.leaf + 1);
    OtherSections(lines, s, LeafUnit(s.units[s.block.value], s.block.value, s.leaf + 1), slice, false);
  }

  lemma LeafOk(lines: seq<Line>, s: State, slice: Slice)
    requires LinesOk(lines) && Ok(lines, s) && Enabled(lines, s, AddLeaf(slice))
    ensures Ok(lines, Step(lines, s, AddLeaf(slice)))
  {
    LeafFacets(lines, s, slice);
    LeafDefinition(lines, s, slice);
    LeafSections(lines, s, slice);
  }

  lemma StepOk(lines: seq<Line>, s: State, e: Event)
    requires LinesOk(lines) && Ok(lines, s)
    ensures Ok(lines, Step(lines, s, e))
  {
    if Enabled(lines, s, e) {
      match e
      case CloseSection(next) => CloseOk(lines, s, next);
      case OpenSection(line, id) => OpenOk(lines, s, line, id);
      case StartDefinition(id) => StartOk(lines, s, id);
      case EndDefinition(slice) => EndOk(lines, s, slice);
      case AddBlock(blockKind, slice) => ContainerOk(lines, s, Block, blockKind, slice);
      case AddTable(slice) => ContainerOk(lines, s, Table, NoBlock, slice);
      case AddLeaf(slice) => LeafOk(lines, s, slice);
    }
  }

  lemma InitialOk(lines: seq<Line>, whole: Slice)
    ensures Ok(lines, Initial(whole))
  {
  }

  /** Every run of the machine keeps every invariant. */
  lemma {:induction false} ReplayOk(lines: seq<Line>, whole: Slice, log: seq<Event>)
    requires LinesOk(lines)
    ensures Ok(lines, Replay(lines, whole, log))
  {
    if log == [] {
      InitialOk(lines, whole);
    } else {
      ReplayOk(lines, whole, log[..|log| - 1]);
      StepOk(lines, Replay(lines, whole, log[..|log| - 1]), log[|log| - 1]);
    }
  }

  // ---------- One event at a time ----------

  ghost predicate IsStep(lines: seq<Line>, states: seq<State>, log: seq<Event>, i: int) {
    0 <= i < |log| && i + 1 < |states| && states[i + 1] == Step(lines, states[i], log[i])
  }

  /** `states` are the states of the run `log`, the first and the last included. */
  ghost predicate History(lines: seq<Line>, whole: Slice, log: seq<Event>, states: seq<State>, s: State) {
    && |states| == |log| + 1 && states[0] == Initial(whole) && states[|log|] == s
    && forall i {:trigger IsStep(lines, states, log, i)} :: 0 <= i < |log| ==> IsStep(lines, states, log, i)
  }

  /** The run `log` ends in `s`. */
  ghost predicate Ran(lines: seq<Line>, whole: Slice, log: seq<Event>, s: State) {
    exists states :: History(lines, whole, log, states, s)
  }

  lemma RanNothing(lines: seq<Line>, whole: Slice)
    ensures Ran(lines, whole, [], Initial(whole))
  {
    assert History(lines, whole, [], [Initial(whole)], Initial(whole));
  }

  lemma RanMore(lines: seq<Line>, whole: Slice, log: seq<Event>, s: State, e: Event)
    requires Ran(lines, whole, log, s)
    ensures Ran(lines, whole, log + [e], Step(lines, s, e))
  {
    var states :| History(lines, whole, log, states, s);
    var t := Step(lines, s, e);
    var more := states + [t];
    forall i | 0 <= i < |log| + 1
      ensures IsStep(lines, more, log + [e], i)
    {
      if i < |log| {
        assert IsStep(lines, states, log, i);
      }
    }
    assert History(lines, whole, log + [e], more, t);
  }

  lemma {:induction false} HistoryIsReplay(lines: seq<Line>, whole: Slice, log: seq<Event>, states: seq<State>,
                                           s: State)
    requires History(lines, whole, log, states, s)
    ensures s == Replay(lines, whole, log)
    decreases |log|
  {
    if log != [] {
      var n := |log| - 1;
      var init, prior := log[..n], states[..n + 1];
      forall i | 0 <= i < n
        ensures IsStep(lines, prior, init, i)
      {
        assert IsStep(lines, states, log, i);
      }
      HistoryIsReplay(lines, whole, init, prior, states[n]);
      assert IsStep(lines, states, log, n);
    }
  }

  lemma {:induction false} RanIsReplay(lines: seq<Line>, whole: Slice, log: seq<Event>, s: State)
    requires Ran(lines, whole, log, s)
    ensures s == Replay(lines, whole, log)
  {
    var states :| History(lines, whole, log, states, s);
    HistoryIsReplay(lines, whole, log, states, s);
  }

  lemma RanFacts(lines: seq<Line>, whole: Slice, log: seq<Event>, s: State)
    requires LinesOk(lines) && Ran(lines, whole, log, s)
    ensures |s.slices| == |s.units| && s.at <= |lines| && (s.definition.Some? ==> s.definition.value < |s.units|)
  {
    RanIsReplay(lines, whole, log, s);
    ReplayOk(lines, whole, log);
  }

  /** The innermost section has the greatest depth, one more than the number of open sections. */
  lemma RanTop(lines: seq<Line>, whole: Slice, log: seq<Event>, s: State)
    requires LinesOk(lines) && Ran(lines, whole, log, s) && s.stack != []
    ensures Top(s.stack).depth == |s.stack| + 1 && Top(s.stack).startLine < s.at <= |lines|
        && Top(s.stack).unitIndex < |s.slices|
  {
    RanIsReplay(lines, whole, log, s);
    OpenDepths(lines, whole, log, |s.stack| - 1);
  }

  lemma OpenTo(lines: seq<Line>, whole: Slice, log: seq<Event>, s: State, line: nat, id: string) returns (t: State)
    requires Ran(lines, whole, log, s) && Enabled(lines, s, OpenSection(line, id))
    ensures Ran(lines, whole, log + [OpenSection(line, id)], t)
    ensures var c, ordinal := Bump(s.stack, s.docPosition), Position(s.stack, s.docPosition) + 1;
      && t.units == s.units + [SectionUnit(s.stack, |s.stack| + 2, ordinal, id)] && t.docPosition == c.docPosition
      && t.stack == c.stack + [SectionEntry(|s.stack| + 2, ordinal, id, |s.units|, 0, line)] && t.seen == s.seen + {id}
      && t.slices == s.slices + [Slice(0, 0)] && t.definition == None && t.definitionPosition == s.definitionPosition
      && t.at == line + 1 && |t.stack| == |s.stack| + 1 && SameSections(s.stack, Below(t.stack))
      && Top(t.stack) == SectionEntry(|s.stack| + 2, ordinal, id, |s.units|, 0, line)
  {
    t := Step(lines, s, OpenSection(line, id));
    OpenShape(lines, s, line, id);
    BumpSame(s.stack, s.docPosition);
    assert Below(t.stack) == Bump(s.stack, s.docPosition).stack;
    RanMore(lines, whole, log, s, OpenSection(line, id));
  }

  lemma CloseTo(lines: seq<Line>, whole: Slice, log: seq<Event>, s: State, next: nat) returns (t: State)
    requires LinesOk(lines) && Ran(lines, whole, log, s) && Enabled(lines, s, CloseSection(next))
    ensures Ran(lines, whole, log + [CloseSection(next)], t)
    ensures Top(s.stack).startLine < |lines| && Top(s.stack).unitIndex < |s.slices|
    ensures t.slices == s.slices[Top(s.stack).unitIndex := Closing(lines, Top(s.stack), next)]
        && t.stack == Below(s.stack)
    ensures t.units == s.units && t.docPosition == s.docPosition && t.seen == s.seen && t.definition == None
    ensures t.definitionPosition == s.definitionPosition && t.at == next
  {
    RanTop(lines, whole, log, s);
    t := Step(lines, s, CloseSection(next));
    RanMore(lines, whole, log, s, CloseSection(next));
  }

  lemma StartTo(lines: seq<Line>, whole: Slice, log: seq<Event>, s: State, id: string) returns (t: State)
    requires Ran(lines, whole, log, s) && s.definition.None?
    ensures Ran(lines, whole, log + [StartDefinition(id)], t)
    ensures var c := Bump(s.stack, s.docPosition);
      && t.units == s.units + [DefinitionUnit(s.stack, id, Position(s.stack, s.docPosition) + 1)]
      && t.slices == s.slices + [Slice(0, 0)] && t.stack == c.stack && t.docPosition == c.docPosition
      && t.seen == s.seen
      && t.definition == Some(|s.units|) && t.definitionPosition == 0 && t.at == s.at
  {
    t := Step(lines, s, StartDefinition(id));
    RanMore(lines, whole, log, s, StartDefinition(id));
  }

  lemma EndTo(lines: seq<Line>, whole: Slice, log: seq<Event>, s: State, slice: Slice) returns (t: State)
    requires LinesOk(lines) && Ran(lines, whole, log, s) && s.definition.Some?
    ensures Ran(lines, whole, log + [EndDefinition(slice)], t) && s.definition.value < |s.slices|
    ensures t == s.(slices := s.slices[s.definition.value := slice], definition := None, block := None)
  {
    RanFacts(lines, whole, log, s);
    t := Step(lines, s, EndDefinition(slice));
    RanMore(lines, whole, log, s, EndDefinition(slice));
  }

  lemma LeafTo(lines: seq<Line>, whole: Slice, log: seq<Event>, s: State, slice: Slice) returns (t: State)
    requires Ran(lines, whole, log, s) && s.block.Some? && BearsLeaves(s.units, s.block.value)
    ensures Ran(lines, whole, log + [AddLeaf(slice)], t)
    ensures t == s.(units := s.units + [LeafUnit(s.units[s.block.value], s.block.value, s.leaf + 1)],
                    slices := s.slices + [slice], leaf := s.leaf + 1)
  {
    t := Step(lines, s, AddLeaf(slice));
    RanMore(lines, whole, log, s, AddLeaf(slice));
  }

  lemma {:induction false} OpenFacts(lines: seq<Line>, slices: seq<Slice>, closed: set<nat>, stack: Stack, at: nat)
    requires at <= |lines| && AllAround(lines, slices, closed, stack, at)
    ensures forall k :: 0 <= k < |stack| ==> stack[k].startLine < at && stack[k].unitIndex < |slices|
  {
    if stack != [] {
      OpenFacts(lines, slices, closed, Below(stack), at);
    }
  }

  /** At every moment of every run the open sections lie at depths 2, 3, .., one each. */
  lemma {:induction false} OpenDepths(lines: seq<Line>, whole: Slice, log: seq<Event>, k: nat)
    requires LinesOk(lines) && k < |Replay(lines, whole, log).stack|
    ensures var s := Replay(lines, whole, log);
      s.stack[k].depth == k + 2 && s.stack[k].startLine < s.at <= |lines|
          && s.stack[k].unitIndex < |s.units| == |s.slices|
  {
    ReplayOk(lines, whole, log);
    var s := Replay(lines, whole, log);
    Depths(s.units, s.stack, k);
    OpenFacts(lines, s.slices, s.closed, s.stack, s.at);
  }

  /** What holds of the units of every run, finished or not. */
  lemma {:induction false} RunFacts(lines: seq<Line>, whole: Slice, log: seq<Event>)
    requires LinesOk(lines)
    ensures var s := Replay(lines, whole, log);
      && Tree(s.units) && SectionIdsDistinct(s.units) && |s.slices| == |s.units|
      && (forall j :: 0 <= j < |s.units| && s.units[j].kind == Section ==> NearestOwner(s.units, j))
      && (forall j :: 0 <= j < |s.units| ==> BearsClauses(s.units, s.units[j]))
  {
    ReplayOk(lines, whole, log);
    var s := Replay(lines, whole, log);
    forall j | 0 <= j < |s.units| && s.units[j].kind == Section
      ensures NearestOwner(s.units, j)
    {
    }
  }

  /** Once all sections are closed, the slices of any two are nested or disjoint. */
  lemma {:induction false} SectionsLaminar(lines: seq<Line>, whole: Slice, log: seq<Event>, i: nat, j: nat)
    requires LinesOk(lines) && Replay(lines, whole, log).stack == [] && i < j < |Replay(lines, whole, log).units|
    requires Replay(lines, whole, log).units[i].kind == Replay(lines, whole, log).units[j].kind == Section
    ensures var s := Replay(lines, whole, log);
      |s.slices| == |s.units| && s.slices[i].start <= s.slices[i].end && Laminar(s.slices[i], s.slices[j])
  {
    ReplayOk(lines, whole, log);
  }
}
