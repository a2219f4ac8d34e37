/** The branch-serial allocator: crates/msgriver-core/src/incarnation.rs and generation.rs. */
module Incarnation {
  import opened Wrappers
  import opened Bytes
  import opened Text
  import Hex

  datatype Reject = SerialZero | Exhausted | HexWidth | HexCase | HexCharacter
  datatype Result<+T> = Ok(value: T) | Err(error: Reject)

  const U64_MAX: int := 0xFFFF_FFFF_FFFF_FFFF

  type u64 = x: int | 0 <= x <= U64_MAX
  type serial = x: int | 1 <= x <= U64_MAX witness 1
  type namespace = b: bytes | |b| == 24 witness seq(24, _ => 0)
  type incarnation = b: bytes | |b| == 32 witness seq(32, _ => 0)
  type digest = b: bytes | |b| == 32 witness seq(32, _ => 0)

  // ---------- generation.rs ----------

  /** `compose_incarnation`: namespace, then the serial big-endian, copied into a 32-byte buffer. */
  function Compose(ns: namespace, s: serial): incarnation {
    ns + BigEndian(s, 8)
  }

  method ComposeIncarnation(ns: namespace, s: serial) returns (r: incarnation)
    ensures r == Compose(ns, s)
  {
    var buffer := new byte[32](_ => 0);
    var tail := BigEndian(s, 8);
    forall i | 0 <= i < 24 {
      buffer[i] := ns[i];
    }
    forall i | 24 <= i < 32 {
      buffer[i] := tail[i - 24];
    }
    r := buffer[..];
  }

  lemma ComposeInjective(ns: namespace, s: serial, other: namespace, t: serial)
    requires Compose(ns, s) == Compose(other, t)
    ensures ns == other && s == t
  {
    SplitEqual(ns, BigEndian(s, 8), other, BigEndian(t, 8));
    LongHeader(s, t);
  }

  /** `next_branch_serial`. */
  function NextBranchSerial(highWater: u64): Result<serial> {
    if highWater == U64_MAX then Err(Exhausted) else Ok(highWater + 1)
  }

  method EncodeIncarnationHex(i: incarnation) returns (out: string)
    ensures out == Hex.Encode(i) && |out| == 64
  {
    out := "";
    for k := 0 to 32
      invariant out == Hex.Encode(i[..k])
    {
      out := out + [Hex.Digit(i[k] / 16)] + [Hex.Digit(i[k] % 16)];
      assert i[..k + 1] == i[..k] + [i[k]];
      Hex.EncodeSnoc(i[..k], i[k]);
    }
    assert i[..32] == i;
  }

  predicate HasUpper(wire: string) { exists k :: 0 <= k < |wire| && 'A' <= wire[k] <= 'Z' }

  predicate AllNibbles(wire: string) { forall k :: 0 <= k < |wire| ==> Hex.Nibble(wire[k]).Some? }

  /** `decode_incarnation_hex`, on the characters of an ASCII wire and refused on any other: width
      first, then case, then characters; what is decoded is what was encoded. */
  method DecodeIncarnationHex(wire: string) returns (r: Result<incarnation>)
    ensures ByteLen(wire) != 64 ==> r == Err(HexWidth)
    ensures ByteLen(wire) == 64 && HasUpper(wire) ==> r == Err(HexCase)
    ensures ByteLen(wire) == 64 && !HasUpper(wire) && !AllNibbles(wire) ==> r == Err(HexCharacter)
    ensures ByteLen(wire) == 64 && !HasUpper(wire) && AllNibbles(wire) ==> r.Ok? && Hex.Encode(r.value) == wire
  {
    if ByteLen(wire) != 64 {
      return Err(HexWidth);
    }
    if HasUpper(wire) {
      return Err(HexCase);
    }
    if !Ascii(wire) {
      NonAsciiIsNoNibble(wire);
      return Err(HexCharacter);
    }
    AsciiBytes(wire);
    r := DecodePairs(wire);
  }

  method DecodePairs(wire: string) returns (r: Result<incarnation>)
    requires |wire| == 64
    ensures if AllNibbles(wire) then r.Ok? && Hex.Encode(r.value) == wire else r == Err(HexCharacter)
  {
    var out: bytes := [];
    for k := 0 to 32
      invariant |out| == k && forall j :: 0 <= j < 2 * k ==> Hex.Nibble(wire[j]).Some?
      invariant Hex.Encode(out) == wire[..2 * k]
    {
      var high, low := Hex.Nibble(wire[2 * k]), Hex.Nibble(wire[2 * k + 1]);
      if high.None? || low.None? {
        return Err(HexCharacter);
      }
      TwoMore(wire, 2 * k);
      out := NextPair(out, wire[..2 * k], wire[2 * k], wire[2 * k + 1], high.value, low.value);
    }
    assert wire[..64] == wire;
    return Ok(out);
  }

  method NextPair(before: bytes, ghost head: string, c: char, d: char, high: nat, low: nat) returns (out: bytes)
    requires Hex.Nibble(c) == Some(high) && Hex.Nibble(d) == Some(low) && Hex.Encode(before) == head
    ensures |out| == |before| + 1 && Hex.Encode(out) == head + [c, d]
  {
    Hex.PairBack(c, d, high, low);
    var x := high * 16 + low;
    Hex.EncodeSnoc(before, x);
    out := before + [x];
  }

  lemma TwoMore(wire: string, n: nat)
    requires n + 2 <= |wire|
    ensures wire[..n] + [wire[n], wire[n + 1]] == wire[..n + 2]
  {
  }

  lemma NonAsciiIsNoNibble(wire: string)
    requires !Ascii(wire)
    ensures !AllNibbles(wire)
  {
    var k :| 0 <= k < |wire| && wire[k] as int >= 0x80;
    assert Hex.Nibble(wire[k]).None?;
  }

  // ---------- incarnation.rs: decisions ----------

  datatype Intent = Intent(command: digest, serial: serial, target: incarnation)
  datatype Replay = Reuse(intent: Intent) | CommandCollision | Fresh(serial: serial)
  datatype Snapshot = Snapshot(ns: namespace, highWater: u64, selected: incarnation, image: digest)

  function ReplayAllocation(retained: Option<Intent>, command: digest, highWater: u64): Result<Replay> {
    match retained
    case Some(intent) => if intent.command == command then Ok(Reuse(intent)) else Ok(CommandCollision)
    case None =>
      match NextBranchSerial(highWater)
      case Ok(s) => Ok(Fresh(s))
      case Err(e) => Err(e)
  }

  function BurnNextSerial(s: Snapshot): Result<Snapshot> {
    match NextBranchSerial(s.highWater)
    case Ok(next) => Ok(s.(highWater := next))
    case Err(e) => Err(e)
  }

  function PreserveContinuation(s: Snapshot): Snapshot { s }

  function InitializeHeader(ns: namespace, selected: incarnation, image: digest): Snapshot {
    Snapshot(ns, 0, selected, image)
  }

  datatype Source = Local | ForeignAncestry | ImportedKeyOrigin | UnknownSource
  datatype Witness = Witness(source: Source, ns: namespace, serial: u64)
  datatype Classification = LocalWitness | Foreign | Corrupt

  function ClassifyWitness(w: Witness, ns: namespace, highWater: u64): Classification {
    match w.source
    case ForeignAncestry => Foreign
    case ImportedKeyOrigin => Foreign
    case Local => if w.ns == ns && w.serial != 0 && w.serial <= highWater then LocalWitness else Corrupt
    case UnknownSource => Corrupt
  }

  datatype Readiness = GenerationExhausted | IncarnationExhausted

  function ReadinessReason(highWater: u64, generations: seq<u64>): Option<Readiness> {
    if highWater == U64_MAX then Some(IncarnationExhausted)
    else if U64_MAX in generations then Some(GenerationExhausted)
    else None
  }

  // ---------- Whole runs ----------

  /** The coordinator's durable state: the allocator image, the one retained intent, and (kept
      here only to state properties) every intent ever published, in order. */
  datatype Allocator = Allocator(image: Snapshot, retained: Option<Intent>, issued: seq<Intent>)

  /** A crash changes nothing durable, so that a run with crashes is again a run. */
  datatype Step =
    | Begin(command: digest)   // an allocating command, fresh or repeated
    | Terminate                // the retained intent is settled
    | Continue                 // an operation that does not allocate

  datatype Effect = Effect(next: Allocator, reply: Result<Replay>)

  /** An allocating command: replay decides; a fresh serial is burned and its intent retained. */
  function Allocate(a: Allocator, command: digest): Effect {
    match ReplayAllocation(a.retained, command, a.image.highWater)
    case Err(e) => Effect(a, Err(e))
    case Ok(Fresh(s)) =>
      var intent := Intent(command, s, Compose(a.image.ns, s));
      var burned := BurnNextSerial(a.image);
      Effect(Allocator(if burned.Ok? then burned.value else a.image, Some(intent), a.issued + [intent]), Ok(Fresh(s)))
    case Ok(decision) => Effect(a, Ok(decision))
  }

  function Advance(a: Allocator, step: Step): Allocator {
    match step
    case Begin(command) => Allocate(a, command).next
    case Terminate => a.(retained := None)
    case Continue => a.(image := PreserveContinuation(a.image))
  }

  function Run(a: Allocator, steps: seq<Step>): Allocator {
    if steps == [] then a else Advance(Run(a, steps[..|steps| - 1]), steps[|steps| - 1])
  }

  function NewRoot(ns: namespace, selected: incarnation, image: digest): Allocator {
    Allocator(InitializeHeader(ns, selected, image), None, [])
  }

  ghost predicate Inv(a: Allocator) {
    && |a.issued| == a.image.highWater
    && (forall i :: 0 <= i < |a.issued| ==>
        a.issued[i].serial == i + 1 && a.issued[i].target == Compose(a.image.ns, i + 1))
    && (a.retained.Some? ==> a.issued != [] && a.retained.value == a.issued[|a.issued| - 1])
  }

  lemma StepKeeps(a: Allocator, step: Step)
    requires Inv(a)
    ensures Inv(Advance(a, step)) && Advance(a, step).image.ns == a.image.ns && a.issued <= Advance(a, step).issued
  {
  }

  /** Over every run the issued serials are exactly 1, 2, .., high water, in order, and no issued
      intent is ever taken back. */
  lemma {:induction false} RunKeeps(a: Allocator, steps: seq<Step>)
    requires Inv(a)
    ensures Inv(Run(a, steps)) && Run(a, steps).image.ns == a.image.ns && a.issued <= Run(a, steps).issued
  {
    if steps != [] {
      RunKeeps(a, steps[..|steps| - 1]);
      StepKeeps(Run(a, steps[..|steps| - 1]), steps[|steps| - 1]);
    }
  }

  lemma {:induction false} HexInjective(b: bytes, c: bytes)
    requires Hex.Encode(b) == Hex.Encode(c)
    ensures b == c
  {
    Hex.DecodeEncode(b);
    Hex.DecodeEncode(c);
  }

  /** From a new root: in every run the serials issued are exactly 1, 2, .., high water. */
  lemma {:induction false} RunsFromRoot(ns: namespace, selected: incarnation, image: digest, steps: seq<Step>)
    ensures var end := Run(NewRoot(ns, selected, image), steps);
      && |end.issued| == end.image.highWater && end.image.ns == ns
      && forall i :: 0 <= i < |end.issued| ==>
          end.issued[i].serial == i + 1 && end.issued[i].target == Compose(ns, i + 1)
  {
    RunKeeps(NewRoot(ns, selected, image), steps);
  }

  /** After every run from any such state, issued incarnations and their wires are pairwise
      distinct, and each wire decodes to its incarnation. */
  lemma {:induction false} IssuedAreDistinct(a: Allocator, steps: seq<Step>, i: nat, j: nat)
    requires Inv(a) && i < j < |Run(a, steps).issued|
    ensures var x, y := Run(a, steps).issued[i].target, Run(a, steps).issued[j].target;
      x != y && Hex.Encode(x) != Hex.Encode(y) && Hex.Decode(Hex.Encode(x)) == Some(x)
  {
    RunKeeps(a, steps);
    IssuedApart(Run(a, steps), i, j);
  }

  lemma IssuedApart(a: Allocator, i: nat, j: nat)
    requires Inv(a) && i < j < |a.issued|
    ensures var x, y := a.issued[i].target, a.issued[j].target;
      x != y && Hex.Encode(x) != Hex.Encode(y) && Hex.Decode(Hex.Encode(x)) == Some(x)
  {
    var s, t := i + 1, j + 1;
    DistinctTargets(a.image.ns, s, t, a.issued[i].target, a.issued[j].target);
  }

  lemma {:induction false} DistinctTargets(ns: namespace, s: serial, t: serial, x: bytes, y: bytes)
    requires s != t && x == Compose(ns, s) && y == Compose(ns, t)
    ensures x != y && Hex.Encode(x) != Hex.Encode(y) && Hex.Decode(Hex.Encode(x)) == Some(x)
  {
    Hex.DecodeEncode(x);
    if x == y {
      ComposeInjective(ns, s, ns, t);
    }
    if Hex.Encode(x) == Hex.Encode(y) {
      HexInjective(x, y);
    }
  }

  predicate Settles(steps: seq<Step>) { Terminate in steps }

  lemma {:induction false} RetainedStays(a: Allocator, steps: seq<Step>)
    requires Inv(a) && a.retained.Some? && !Settles(steps)
    ensures Run(a, steps) == a
  {
    if steps != [] {
      RetainedStays(a, steps[..|steps| - 1]);
      assert steps[|steps| - 1] in steps;
    }
  }

  /** A command repeated before its intent is settled, whatever crashes, continuations and other
      commands come between, gets the same intent back and burns nothing; another command
      collides and burns nothing. */
  lemma {:induction false} ReplayIsExact(a: Allocator, command: digest, steps: seq<Step>, again: digest)
    requires Inv(a) && Allocate(a, command).reply.Ok? && Allocate(a, command).reply.value.Fresh? && !Settles(steps)
    ensures var next := Allocate(a, command).next; var later := Run(next, steps);
      && next.image.highWater == a.image.highWater + 1
      && Allocate(later, again) == Effect(next, Ok(if again == command then Reuse(next.retained.value)
                                                   else CommandCollision))
  {
    StepKeeps(a, Begin(command));
    RetainedStays(Allocate(a, command).next, steps);
  }

  /** Every issued serial is a local witness, then and under every later high water. */
  lemma {:induction false} WitnessesStayLocal(a: Allocator, steps: seq<Step>, i: nat)
    requires Inv(a) && i < |a.issued|
    ensures var w := Witness(Local, a.image.ns, a.issued[i].serial); var later := Run(a, steps);
      ClassifyWitness(w, later.image.ns, later.image.highWater) == LocalWitness
  {
    RunKeeps(a, steps);
  }

  /** And a local claim is a witness only for a serial that was issued. */
  lemma OnlyIssuedAreLocal(a: Allocator, w: Witness)
    requires Inv(a) && ClassifyWitness(w, a.image.ns, a.image.highWater) == LocalWitness
    ensures w.source == Local && w.ns == a.image.ns && 1 <= w.serial && a.issued[w.serial - 1].serial == w.serial
  {
  }

  /** With nothing retained, a command fails exactly when readiness reports exhaustion of the
      incarnations, and then it changes nothing. */
  lemma FailsExactlyWhenExhausted(a: Allocator, command: digest, generations: seq<u64>)
    requires Inv(a) && a.retained.None?
    ensures Allocate(a, command).reply.Err?
        <==> ReadinessReason(a.image.highWater, generations) == Some(IncarnationExhausted)
    ensures Allocate(a, command).reply.Err? ==> Allocate(a, command) == Effect(a, Err(Exhausted))
    ensures Allocate(a, command).reply.Ok? ==>
      Allocate(a, command).next.issued == a.issued + [Intent(command, a.image.highWater + 1,
                                                             Compose(a.image.ns, a.image.highWater + 1))]
  {
  }
}
