/** The parser's open sections and counters as values, and what every step does to them
    (scripts/spec_structure.py). */
module SpecStack {
  import opened SpecUnits

  /** An open section, with the child counter of its scope. */
  datatype SectionEntry = SectionEntry(depth: nat, ordinal: nat, id: string, unitIndex: nat, childPosition: nat,
                                       startLine: nat)

  type Stack = seq<SectionEntry>

  function Top(stack: Stack): SectionEntry
    requires stack != []
  {
    stack[|stack| - 1]
  }

  function Below(stack: Stack): (less: Stack)
    requires stack != []
    ensures |less| == |stack| - 1
  {
    stack[..|stack| - 1]
  }

  /** `_chain`. */
  function ChainOf(stack: Stack): (chain: seq<Link>)
    ensures |chain| == |stack|
  {
    if stack == [] then []
    else ChainOf(Below(stack)) + [Link(Top(stack).depth, Top(stack).ordinal, Top(stack).id)]
  }

  /** `_container_index`: the unit that owns what is met next. */
  function Container(stack: Stack): nat {
    if stack == [] then 0 else Top(stack).unitIndex
  }

  function Position(stack: Stack, docPosition: nat): nat {
    if stack == [] then docPosition else Top(stack).childPosition
  }

  /** Open section depths are exactly 2, 3, .., and each open section lies below the next. */
  predicate StackOk(units: seq<Unit>, stack: Stack) {
    if stack == [] then units != [] && PathOf(units[0]) == ContainerPath([])
    else
      && StackOk(units, Below(stack))
      && Top(stack).depth == |stack| + 1
      && Container(Below(stack)) < Top(stack).unitIndex < |units|
      && PathOf(units[Top(stack).unitIndex]) == ContainerPath(ChainOf(stack))
  }

  /** The counter of every open scope is an upper bound on its children's positions. */
  predicate Counted(units: seq<Unit>, stack: Stack, docPosition: nat) {
    if stack == [] then AtMost(units, 0, docPosition)
    else Counted(units, Below(stack), docPosition) && AtMost(units, Top(stack).unitIndex, Top(stack).childPosition)
  }

  predicate AllDeeper(units: seq<Unit>, e: SectionEntry) {
    forall i :: e.unitIndex < i < |units| && units[i].kind == Section ==> SectionDepth(units[i]) > e.depth
  }

  /** After an open section come only deeper sections. */
  predicate DeepOk(units: seq<Unit>, stack: Stack) {
    stack == [] || (DeepOk(units, Below(stack)) && AllDeeper(units, Top(stack)))
  }

  /** Exactly the ids of the sections met so far are remembered, and no two sections share one. */
  ghost predicate IdsOk(units: seq<Unit>, seen: set<string>) {
    && (forall i :: 0 <= i < |units| && units[i].kind == Section ==> SectionId(units[i]) in seen)
    && (forall id :: id in seen ==> exists i ::
        0 <= i < |units| && units[i].kind == Section && SectionId(units[i]) == id)
    && SectionIdsDistinct(units)
  }

  ghost predicate OwnersOk(units: seq<Unit>) {
    && (forall j {:trigger NearestOwner(units, j)} ::
        0 <= j < |units| && units[j].kind == Section ==> NearestOwner(units, j))
    && forall j {:trigger BearsClauses(units, units[j])} :: 0 <= j < |units| ==> BearsClauses(units, units[j])
  }

  ghost predicate Good(units: seq<Unit>, stack: Stack, docPosition: nat, seen: set<string>) {
    && Tree(units) && StackOk(units, stack) && Counted(units, stack, docPosition) && IdsOk(units, seen)
    && DeepOk(units, stack) && OwnersOk(units)
  }

  lemma {:induction false} Depths(units: seq<Unit>, stack: Stack, k: nat)
    requires StackOk(units, stack) && k < |stack|
    ensures stack[k].depth == k + 2 && stack[k].unitIndex <= Container(stack) < |units|
  {
    if k < |stack| - 1 {
      Depths(units, Below(stack), k);
    }
  }

  lemma Pop(units: seq<Unit>, stack: Stack, docPosition: nat, seen: set<string>)
    requires Good(units, stack, docPosition, seen) && stack != []
    ensures Good(units, Below(stack), docPosition, seen)
  {
  }

  // ---------- Taking a position ----------

  datatype Counters = Counters(stack: Stack, docPosition: nat)

  /** `next_position` of the innermost scope. */
  function Bump(stack: Stack, docPosition: nat): (c: Counters)
    ensures |c.stack| == |stack|
  {
    if stack == [] then Counters(stack, docPosition + 1)
    else Counters(Below(stack) + [Top(stack).(childPosition := Top(stack).childPosition + 1)], docPosition)
  }

  lemma {:induction false} BumpShape(stack: Stack, docPosition: nat)
    ensures var c := Bump(stack, docPosition);
      && ChainOf(c.stack) == ChainOf(stack) && Container(c.stack) == Container(stack)
      && Position(c.stack, c.docPosition) == Position(stack, docPosition) + 1
      && (stack != [] ==> Below(c.stack) == Below(stack) && c.docPosition == docPosition)
  {
  }

  lemma BumpGood(units: seq<Unit>, stack: Stack, docPosition: nat, seen: set<string>)
    requires Good(units, stack, docPosition, seen)
    ensures var c := Bump(stack, docPosition);
      Good(units, c.stack, c.docPosition, seen) && AtMost(units, Container(c.stack), Position(stack, docPosition))
  {
    BumpShape(stack, docPosition);
  }

  /** The same open sections, whatever their counters. */
  predicate SameSections(stack: Stack, other: Stack) {
    && |stack| == |other|
    && forall k :: 0 <= k < |stack| ==> stack[k].(childPosition := 0) == other[k].(childPosition := 0)
  }

  lemma BumpSame(stack: Stack, docPosition: nat)
    ensures SameSections(stack, Bump(stack, docPosition).stack)
  {
  }

  // ---------- Adding a unit ----------

  lemma {:induction false} StackMonotone(units: seq<Unit>, u: Unit, stack: Stack)
    requires StackOk(units, stack)
    ensures StackOk(units + [u], stack) && Container(stack) < |units|
  {
    if stack != [] {
      StackMonotone(units, u, Below(stack));
    }
  }

  /** A unit that no open scope owns leaves every counter a bound. */
  lemma {:induction false} CountedOther(units: seq<Unit>, u: Unit, stack: Stack, docPosition: nat)
    requires StackOk(units, stack) && Counted(units, stack, docPosition) && u.parent > Container(stack)
    ensures Counted(units + [u], stack, docPosition)
  {
    if stack == [] {
      GrowBounds(units, u, 0, docPosition);
    } else {
      CountedOther(units, u, Below(stack), docPosition);
      GrowBounds(units, u, Top(stack).unitIndex, Top(stack).childPosition);
    }
  }

  /** A unit of the innermost scope, at a position its counter covers. */
  lemma {:induction false} CountedOwn(units: seq<Unit>, u: Unit, stack: Stack, docPosition: nat)
    requires StackOk(units, stack) && Counted(units, stack, docPosition)
    requires u.parent == Container(stack) && Ordinal(PathOf(u)) <= Position(stack, docPosition)
    ensures Counted(units + [u], stack, docPosition)
  {
    if stack == [] {
      GrowBounds(units, u, 0, docPosition);
    } else {
      CountedOther(units, u, Below(stack), docPosition);
      GrowBounds(units, u, Top(stack).unitIndex, Top(stack).childPosition);
    }
  }

  lemma {:induction false} DeepOther(units: seq<Unit>, u: Unit, stack: Stack)
    requires DeepOk(units, stack) && u.kind != Section
    ensures DeepOk(units + [u], stack)
  {
    if stack != [] {
      DeepOther(units, u, Below(stack));
    }
  }

  lemma IdsOther(units: seq<Unit>, u: Unit, seen: set<string>)
    requires IdsOk(units, seen) && u.kind != Section
    ensures IdsOk(units + [u], seen)
  {
    var more := units + [u];
    forall id | id in seen
      ensures exists i :: 0 <= i < |more| && more[i].kind == Section && SectionId(more[i]) == id
    {
      var i :| 0 <= i < |units| && units[i].kind == Section && SectionId(units[i]) == id;
      assert more[i] == units[i];
    }
  }

  lemma OwnersOther(units: seq<Unit>, u: Unit)
    requires OwnersOk(units) && u.kind != Section && BearsClauses(units, u)
    ensures OwnersOk(units + [u])
  {
    var more := units + [u];
    forall j | 0 <= j < |more| && more[j].kind == Section
      ensures NearestOwner(more, j)
    {
      assert NearestOwner(units, j);
    }
    forall j | 0 <= j < |more|
      ensures BearsClauses(more, more[j])
    {
      if j < |units| {
        assert BearsClauses(units, units[j]);
      }
    }
  }

  /** A definition, block, table, clause or row joins a good state. */
  lemma Join(units: seq<Unit>, u: Unit, stack: Stack, docPosition: nat, seen: set<string>)
    requires Good(units, stack, docPosition, seen) && u.kind != Section
    requires Hangs(units, u) && AtMost(units, u.parent, Ordinal(PathOf(u)) - 1) && BearsClauses(units, u)
    requires u.parent >= Container(stack)
    requires u.parent == Container(stack) ==> Ordinal(PathOf(u)) <= Position(stack, docPosition)
    ensures Good(units + [u], stack, docPosition, seen)
  {
    Grow(units, u);
    StackMonotone(units, u, stack);
    if u.parent == Container(stack) {
      CountedOwn(units, u, stack, docPosition);
    } else {
      CountedOther(units, u, stack, docPosition);
    }
    DeepOther(units, u, stack);
    IdsOther(units, u, seen);
    OwnersOther(units, u);
  }

  // ---------- Opening a section ----------

  /** The unit of a section opened under `stack`. */
  function SectionUnit(stack: Stack, depth: nat, ordinal: nat, id: string): Unit {
    Unit(Section, ChainOf(stack) + [Link(depth, ordinal, id)], "", 0, 0, NoBlock, 0, Container(stack))
  }

  lemma IdsSection(units: seq<Unit>, u: Unit, seen: set<string>)
    requires IdsOk(units, seen) && u.kind == Section && SectionId(u) !in seen
    ensures IdsOk(units + [u], seen + {SectionId(u)})
  {
    var more, ids := units + [u], seen + {SectionId(u)};
    forall id | id in ids
      ensures exists i :: 0 <= i < |more| && more[i].kind == Section && SectionId(more[i]) == id
    {
      if id in seen {
        var i :| 0 <= i < |units| && units[i].kind == Section && SectionId(units[i]) == id;
        assert more[i] == units[i];
      } else {
        assert more[|units|] == u;
      }
    }
  }

  lemma {:induction false} DeepSection(units: seq<Unit>, u: Unit, stack: Stack)
    requires StackOk(units, stack) && DeepOk(units, stack) && u.kind == Section && SectionDepth(u) > |stack| + 1
    ensures DeepOk(units + [u], stack)
  {
    if stack != [] {
      DeepSection(units, u, Below(stack));
    }
  }

  lemma OwnersSection(units: seq<Unit>, u: Unit)
    requires OwnersOk(units) && u.kind == Section && NearestOwner(units + [u], |units|)
    ensures OwnersOk(units + [u])
  {
    var more := units + [u];
    forall j | 0 <= j < |more| && more[j].kind == Section
      ensures NearestOwner(more, j)
    {
      if j < |units| {
        assert NearestOwner(units, j);
      }
    }
    forall j | 0 <= j < |more|
      ensures BearsClauses(more, more[j])
    {
      if j < |units| {
        assert BearsClauses(units, units[j]);
      }
    }
  }

  /** The chain of the innermost section names it, and its depth is one more than the number of open sections. */
  lemma {:induction false} ContainerPathOf(units: seq<Unit>, stack: Stack)
    requires StackOk(units, stack)
    ensures Container(stack) < |units| && PathOf(units[Container(stack)]) == ContainerPath(ChainOf(stack))
    ensures stack != [] ==>
        units[Container(stack)].kind == Section && SectionDepth(units[Container(stack)]) == |stack| + 1
  {
    if stack != [] {
      var e := Top(stack);
      assert units[e.unitIndex].chain == PathOf(units[e.unitIndex]).chain == ChainOf(stack);
      assert ChainOf(stack)[|stack| - 1] == Link(e.depth, e.ordinal, e.id);
    }
  }

  lemma {:induction false} SectionHangs(units: seq<Unit>, stack: Stack, ordinal: nat, id: string)
    requires StackOk(units, stack)
    ensures Hangs(units, SectionUnit(stack, |stack| + 2, ordinal, id))
  {
    ContainerPathOf(units, stack);
    var u := SectionUnit(stack, |stack| + 2, ordinal, id);
    assert u.chain[..|u.chain| - 1] == ChainOf(stack);
  }

  lemma {:induction false} SectionOwner(units: seq<Unit>, stack: Stack, ordinal: nat, id: string)
    requires StackOk(units, stack) && DeepOk(units, stack) && OwnersOk(units)
    ensures NearestOwner(units + [SectionUnit(stack, |stack| + 2, ordinal, id)], |units|)
  {
    ContainerPathOf(units, stack);
    var u := SectionUnit(stack, |stack| + 2, ordinal, id);
    assert SectionDepth(u) == |stack| + 2;
    forall i | Container(stack) < i < |units| && units[i].kind == Section
      ensures SectionDepth(units[i]) >= |stack| + 2
    {
      assert NearestOwner(units, i);
      if stack != [] {
        assert AllDeeper(units, Top(stack));
      }
    }
  }

  /** A section one level down joins a good state, at a position its owner has just counted. */
  lemma Push(units: seq<Unit>, stack: Stack, docPosition: nat, seen: set<string>, ordinal: nat, id: string,
             startLine: nat)
    requires Good(units, stack, docPosition, seen) && id !in seen
    requires 0 < ordinal <= Position(stack, docPosition) && AtMost(units, Container(stack), ordinal - 1)
    ensures var u := SectionUnit(stack, |stack| + 2, ordinal, id);
      Good(units + [u], stack + [SectionEntry(|stack| + 2, ordinal, id, |units|, 0, startLine)], docPosition,
           seen + {id})
  {
    var u := SectionUnit(stack, |stack| + 2, ordinal, id);
    SectionHangs(units, stack, ordinal, id);
    SectionOwner(units, stack, ordinal, id);
    Grow(units, u);
    IdsSection(units, u, seen);
    OwnersSection(units, u);
    PushStack(units, u, stack, docPosition, SectionEntry(|stack| + 2, ordinal, id, |units|, 0, startLine));
  }

  lemma {:induction false} PushStack(units: seq<Unit>, u: Unit, stack: Stack, docPosition: nat, e: SectionEntry)
    requires Tree(units) && StackOk(units, stack) && Counted(units, stack, docPosition) && DeepOk(units, stack)
    requires e.depth == |stack| + 2 && e.unitIndex == |units| && e.childPosition == 0
    requires u == SectionUnit(stack, e.depth, e.ordinal, e.id) && e.ordinal <= Position(stack, docPosition)
    ensures var s := stack + [e];
        StackOk(units + [u], s) && Counted(units + [u], s, docPosition) && DeepOk(units + [u], s)
  {
    StackMonotone(units, u, stack);
    CountedOwn(units, u, stack, docPosition);
    NoChildren(units, |units|);
    DeepSection(units, u, stack);
    assert Below(stack + [e]) == stack;
  }

  /** The whole step: take a position, then push. */
  lemma Open(units: seq<Unit>, stack: Stack, docPosition: nat, seen: set<string>, id: string, startLine: nat)
    requires Good(units, stack, docPosition, seen) && id !in seen
    ensures var c := Bump(stack, docPosition); var ordinal := Position(stack, docPosition) + 1;
      var u := SectionUnit(stack, |stack| + 2, ordinal, id);
      Good(units + [u], c.stack + [SectionEntry(|stack| + 2, ordinal, id, |units|, 0, startLine)], c.docPosition,
           seen + {id})
  {
    var c := Bump(stack, docPosition);
    var ordinal := Position(stack, docPosition) + 1;
    BumpGood(units, stack, docPosition, seen);
    BumpShape(stack, docPosition);
    assert SectionUnit(stack, |stack| + 2, ordinal, id) == SectionUnit(c.stack, |c.stack| + 2, ordinal, id);
    Push(units, c.stack, c.docPosition, seen, ordinal, id, startLine);
  }
}
