/** The ownership tree of a specification document and its validation (scripts/spec_structure.py).

    A unit's document name is the same throughout a parse and its leaf kind follows from its kind,
    so neither is kept; what a unit shows and how it is classified is not part of this model. */
module SpecUnits {
  import opened Wrappers

  datatype Kind = Document | Section | Definition | Block | Table | Clause | TableRow
  datatype BlockKind = NoBlock | Paragraph | ListItem | Blockquote | FencedCode

  /** One step of a section chain. */
  datatype Link = Link(depth: nat, ordinal: nat, id: string)

  datatype Unit = Unit(kind: Kind, chain: seq<Link>, definitionId: string, definitionOrdinal: nat,
                       blockOrdinal: nat, blockKind: BlockKind, leafOrdinal: nat, parent: int)

  /** The signature that validation calls a structural path. */
  datatype Path = Path(kind: Kind, chain: seq<Link>, definitionId: string, definitionOrdinal: nat,
                       blockOrdinal: nat, blockKind: BlockKind, leafOrdinal: nat)

  function PathOf(u: Unit): Path {
    Path(u.kind, u.chain, u.definitionId, u.definitionOrdinal, u.blockOrdinal, u.blockKind, u.leafOrdinal)
  }

  /** `_STRUCTURE_PARENT_KINDS`. */
  predicate MayOwn(parent: Kind, child: Kind) {
    match child
    case Document => false
    case Section => parent in {Document, Section}
    case Definition => parent in {Document, Section}
    case Block => parent in {Document, Section, Definition}
    case Table => parent in {Document, Section, Definition}
    case Clause => parent == Block
    case TableRow => parent == Table
  }

  // ---------- Paths spell the tree ----------

  function ContainerPath(chain: seq<Link>): Path {
    Path(if chain == [] then Document else Section, chain, "", 0, 0, NoBlock, 0)
  }

  /** The path of the parent, read off the path of the child. */
  function ParentPath(p: Path): Path {
    match p.kind
    case Document => p
    case Section => ContainerPath(if p.chain == [] then [] else p.chain[..|p.chain| - 1])
    case Definition => ContainerPath(p.chain)
    case Block => OwnerPath(p)
    case Table => OwnerPath(p)
    case Clause => p.(kind := Block, leafOrdinal := 0)
    case TableRow => p.(kind := Table, leafOrdinal := 0)
  }

  function OwnerPath(p: Path): Path {
    if p.definitionOrdinal == 0 then ContainerPath(p.chain)
    else Path(Definition, p.chain, p.definitionId, p.definitionOrdinal, 0, NoBlock, 0)
  }

  /** The position among siblings, also read off the path. */
  function Ordinal(p: Path): nat {
    match p.kind
    case Document => 0
    case Section => if p.chain == [] then 0 else p.chain[|p.chain| - 1].ordinal
    case Definition => p.definitionOrdinal
    case Block => p.blockOrdinal
    case Table => p.blockOrdinal
    case Clause => p.leafOrdinal
    case TableRow => p.leafOrdinal
  }

  /** Unit `u`, to stand after `units`, hangs on an earlier unit that may own it and that its path names. */
  predicate Hangs(units: seq<Unit>, u: Unit) {
    && 0 <= u.parent < |units|
    && MayOwn(units[u.parent].kind, u.kind)
    && PathOf(units[u.parent]) == ParentPath(PathOf(u))
    && (u.kind == Section ==> u.chain != [])
  }

  predicate Root(u: Unit) { u.parent == -1 && PathOf(u) == ContainerPath([]) }

  /** No child of `p` stands at a position above `n`. */
  predicate AtMost(units: seq<Unit>, p: int, n: int) {
    forall i :: 0 <= i < |units| && units[i].parent == p ==> Ordinal(PathOf(units[i])) <= n
  }

  ghost predicate Hung(units: seq<Unit>) {
    forall i {:trigger Hangs(units[..i], units[i])} :: 0 < i < |units| ==> Hangs(units[..i], units[i])
  }

  ghost predicate SiblingsInOrder(units: seq<Unit>) {
    forall i, j :: 0 <= i < j < |units| && units[i].parent == units[j].parent
      ==> Ordinal(PathOf(units[i])) < Ordinal(PathOf(units[j]))
  }

  ghost predicate Tree(units: seq<Unit>) {
    units != [] && Root(units[0]) && Hung(units) && SiblingsInOrder(units)
  }

  lemma HungAt(units: seq<Unit>, i: nat)
    requires Hung(units) && 0 < i < |units|
    ensures var u := units[i];
      && 0 <= u.parent < i && MayOwn(units[u.parent].kind, u.kind)
      && PathOf(units[u.parent]) == ParentPath(PathOf(u)) && u.kind != Document
  {
    assert Hangs(units[..i], units[i]);
  }

  /** No two units of a tree share a path. */
  lemma {:induction false} PathsDistinct(units: seq<Unit>, i: nat, j: nat)
    requires Tree(units) && i < |units| && j < |units| && i != j
    ensures PathOf(units[i]) != PathOf(units[j])
    decreases i + j
  {
    if i == 0 {
      HungAt(units, j);
    } else if j == 0 {
      HungAt(units, i);
    } else if PathOf(units[i]) == PathOf(units[j]) {
      HungAt(units, i);
      HungAt(units, j);
      if units[i].parent != units[j].parent {
        PathsDistinct(units, units[i].parent, units[j].parent);
      }
    }
  }

  lemma Grow(units: seq<Unit>, u: Unit)
    requires Tree(units) && Hangs(units, u) && AtMost(units, u.parent, Ordinal(PathOf(u)) - 1)
    ensures Tree(units + [u])
  {
    var more := units + [u];
    forall i | 0 < i < |more|
      ensures Hangs(more[..i], more[i])
    {
      if i < |units| {
        assert more[..i] == units[..i];
        assert Hangs(units[..i], units[i]);
      } else {
        assert more[..i] == units;
      }
    }
  }

  /** Adding a unit leaves the bound of every other parent, and raises its own parent's. */
  lemma GrowBounds(units: seq<Unit>, u: Unit, p: int, n: int)
    requires AtMost(units, p, n) && (u.parent == p ==> Ordinal(PathOf(u)) <= n)
    ensures AtMost(units + [u], p, n)
  {
  }

  /** A new unit has no children yet. */
  lemma NoChildren(units: seq<Unit>, p: int)
    requires Tree(units) && p >= |units|
    ensures AtMost(units, p, 0)
  {
    forall i | 0 <= i < |units|
      ensures units[i].parent < |units|
    {
      if i > 0 {
        HungAt(units, i);
      }
    }
  }

  // ---------- Sections ----------

  function SectionId(u: Unit): string { if u.chain == [] then "" else u.chain[|u.chain| - 1].id }

  function SectionDepth(u: Unit): nat { if u.chain == [] then 0 else u.chain[|u.chain| - 1].depth }

  ghost predicate SectionIdsDistinct(units: seq<Unit>) {
    forall i, j :: 0 <= i < j < |units| && units[i].kind == Section && units[j].kind == Section
      ==> SectionId(units[i]) != SectionId(units[j])
  }

  /** The owner of a section is the last earlier section one level up, the document for level two:
      every section between the two lies at least as deep as the section itself. */
  ghost predicate NearestOwner(units: seq<Unit>, j: nat)
    requires j < |units|
  {
    var p, depth := units[j].parent, SectionDepth(units[j]);
    && 0 <= p < j
    && depth >= 2
    && (if p == 0 then depth == 2 else units[p].kind == Section && SectionDepth(units[p]) == depth - 1)
    && forall i :: p < i < j && units[i].kind == Section ==> SectionDepth(units[i]) >= depth
  }

  /** Clauses hang on blocks that bear clauses. */
  predicate BearsClauses(units: seq<Unit>, u: Unit) {
    u.kind == Clause ==> 0 <= u.parent < |units| && units[u.parent].blockKind in {Paragraph, ListItem, Blockquote}
  }

  // ---------- Validation ----------

  datatype Fault = NoDocument | DocumentHasParent | DocumentNotFirst | ParentNotBefore | ParentKind | DuplicatePath
                 | DuplicateSection | DuplicateDefinition(id: string) | ClauseParent

  predicate PathBefore(units: seq<Unit>, i: nat)
    requires i < |units|
  {
    exists j :: 0 <= j < i && PathOf(units[j]) == PathOf(units[i])
  }

  predicate SectionBefore(units: seq<Unit>, i: nat)
    requires i < |units|
  {
    exists j :: 0 <= j < i && units[j].kind == Section && SectionId(units[j]) == SectionId(units[i])
  }

  predicate DefinitionBefore(units: seq<Unit>, i: nat)
    requires i < |units|
  {
    exists j :: 0 <= j < i && units[j].kind == Definition && units[j].definitionId == units[i].definitionId
  }

  /** What validation finds wrong at unit `i`, the checks in their order. */
  function FaultAt(units: seq<Unit>, i: nat): Option<Fault>
    requires i < |units|
  {
    var u := units[i];
    if u.kind == Document && i != 0 then Some(DocumentNotFirst)
    else if u.kind != Document && !(0 <= u.parent < i) then Some(ParentNotBefore)
    else if u.kind != Document && !MayOwn(units[u.parent].kind, u.kind) then Some(ParentKind)
    else if PathBefore(units, i) then Some(DuplicatePath)
    else if u.kind == Section && SectionBefore(units, i) then Some(DuplicateSection)
    else if u.kind == Definition && DefinitionBefore(units, i) then Some(DuplicateDefinition(u.definitionId))
    else if !BearsClauses(units, u) then Some(ClauseParent)
    else None
  }

  /** `validate_structure`, its structural checks: the first fault in document order. */
  method ValidateStructure(units: seq<Unit>) returns (fault: Option<Fault>)
    ensures fault == Some(NoDocument) <==> units == [] || units[0].kind != Document
    ensures fault == Some(DocumentHasParent) <==> units != [] && units[0].kind == Document && units[0].parent != -1
    ensures fault.None? ==> forall i :: 0 <= i < |units| ==> FaultAt(units, i).None?
    ensures fault.None? || fault.value in {NoDocument, DocumentHasParent}
      || exists i :: 0 <= i < |units| && FaultAt(units, i) == fault && forall j ::
          0 <= j < i ==> FaultAt(units, j).None?
  {
    if units == [] || units[0].kind != Document {
      return Some(NoDocument);
    }
    if units[0].parent != -1 {
      return Some(DocumentHasParent);
    }
    var seenSections: set<string> := {};
    var seenDefinitions: set<string> := {};
    var seenPaths: set<Path> := {};
    for i := 0 to |units|
      invariant forall j :: 0 <= j < i ==> FaultAt(units, j).None?
      invariant seenPaths == (set j | 0 <= j < i :: PathOf(units[j]))
      invariant seenSections == (set j | 0 <= j < i && units[j].kind == Section :: SectionId(units[j]))
      invariant seenDefinitions == (set j | 0 <= j < i && units[j].kind == Definition :: units[j].definitionId)
    {
      var unit := units[i];
      if unit.kind == Document {
        if i != 0 {
          assert FaultAt(units, i) == Some(DocumentNotFirst);
          return Some(DocumentNotFirst);
        }
      } else {
        if !(0 <= unit.parent < i) {
          assert FaultAt(units, i) == Some(ParentNotBefore);
          return Some(ParentNotBefore);
        }
        if !MayOwn(units[unit.parent].kind, unit.kind) {
          assert FaultAt(units, i) == Some(ParentKind);
          return Some(ParentKind);
        }
      }
      if PathOf(unit) in seenPaths {
        assert PathBefore(units, i);
        assert FaultAt(units, i) == Some(DuplicatePath);
        return Some(DuplicatePath);
      }
      seenPaths := seenPaths + {PathOf(unit)};
      if unit.kind == Section {
        if SectionId(unit) in seenSections {
          assert SectionBefore(units, i);
          assert FaultAt(units, i) == Some(DuplicateSection);
          return Some(DuplicateSection);
        }
        seenSections := seenSections + {SectionId(unit)};
      } else if unit.kind == Definition {
        if unit.definitionId in seenDefinitions {
          assert DefinitionBefore(units, i);
          assert FaultAt(units, i) == Some(DuplicateDefinition(unit.definitionId));
          return Some(DuplicateDefinition(unit.definitionId));
        }
        seenDefinitions := seenDefinitions + {unit.definitionId};
      }
      if !BearsClauses(units, unit) {
        assert FaultAt(units, i) == Some(ClauseParent);
        return Some(ClauseParent);
      }
    }
    return None;
  }

  /** On a tree with distinct section ids and clauses on clause-bearing blocks, the checks for
      parents, paths, sections and clauses never fire: only a repeated definition id does. */
  lemma OnlyDefinitionsFault(units: seq<Unit>, i: nat)
    requires Tree(units) && SectionIdsDistinct(units) && i < |units| && BearsClauses(units, units[i])
    ensures FaultAt(units, i) ==
      if units[i].kind == Definition && DefinitionBefore(units, i) then Some(DuplicateDefinition(units[i].definitionId))
        else None
  {
    if i > 0 {
      HungAt(units, i);
    }
    forall j | 0 <= j < i
      ensures PathOf(units[j]) != PathOf(units[i])
    {
      PathsDistinct(units, j, i);
    }
  }
}
