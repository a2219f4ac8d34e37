/** The durable delivery queue of crates/msgriver-store as values: the table with its SQL
    constraints, and one function per transaction.  `Store.dfy` has the methods. */
module Queue {
  import opened Wrappers
  import opened Bytes
  import opened Text
  import Sha256
  import Hex

  datatype Result<+T> = Ok(value: T) | Delivery

  // ---------- Field validation (lib.rs:1043-1112) ----------

  predicate ValidText(value: string, maximum: nat) {
    value != "" && ByteLen(value) <= maximum && '\0' !in value
  }

  predicate Alphanumeric(c: char) {
    'a' <= c <= 'z' || 'A' <= c <= 'Z' || '0' <= c <= '9'
  }

  predicate ValidIdempotencyKey(value: string) {
    ValidText(value, 128) && forall i :: 0 <= i < |value| ==> Alphanumeric(value[i]) || value[i] in "-_."
  }

  predicate ValidTopic(value: string) {
    ValidText(value, 64) && forall i :: 0 <= i < |value| ==> Alphanumeric(value[i]) || value[i] in "-_"
  }

  predicate ValidPhoneSender(value: string) {
    7 <= ByteLen(value) <= 20 && forall i :: 0 <= i < |value| ==> '0' <= value[i] <= '9'
  }

  predicate ValidMessageId(value: string) {
    ByteLen(value) == 64 && forall i :: 0 <= i < |value| ==> Hex.Nibble(value[i]).Some?
  }

  predicate KnownDriver(driver: string) { driver == "ntfy" || driver == "whatsapp" }

  // ---------- The table ----------

  datatype State = Queued | RetryScheduled | Sending | ProviderAccepted | Failed | Ambiguous

  datatype Row = Row(key: string, driver: string, destination: string, payload: string,
                     topic: string, title: Option<string>, body: string,
                     state: State, attempts: int, nextAttempt: Option<int>,
                     providerAck: Option<string>, lastError: Option<string>,
                     createdAt: int, updatedAt: int)

  datatype Receipt = Receipt(sender: string, verb: string, acceptedAt: int)
  datatype RateEvent = RateEvent(sender: string, acceptedAt: int)

  /** `m3_messages` by its primary key `message_id`, the inbound tables, and the digest that makes
      message ids from framed fields (`Sha256Hex` in the program; any 64-digit digest here). */
  datatype Db = Db(hash: bytes -> string, rows: map<string, Row>, enabled: bool, receipts: map<string, Receipt>,
                   events: seq<RateEvent>)

  /** The NOT NULL and CHECK constraints of migrations 3 and 4. */
  predicate RowOk(id: string, row: Row) {
    && |id| == 64 && 1 <= |row.key| <= 128 && 1 <= |row.topic| <= 64 && 1 <= |row.body| <= 4096
    && KnownDriver(row.driver)
    && 0 <= row.attempts <= 5
    && (row.state in {Queued, RetryScheduled} <==> row.nextAttempt.Some?)
    && (row.state == ProviderAccepted <==> row.providerAck.Some?)
    && (row.state in {Ambiguous, Failed} <==> row.lastError.Some?)
  }

  predicate HasKey(db: Db, key: string) {
    exists id :: id in db.rows && db.rows[id].key == key
  }

  /** INSERT: all constraints, the UNIQUE key and the primary key included, or nothing. */
  function Insert(db: Db, id: string, row: Row): Option<Db> {
    if RowOk(id, row) && id !in db.rows && !HasKey(db, row.key) then Some(db.(rows := db.rows[id := row])) else None
  }

  /** UPDATE of one row. */
  function Update(db: Db, id: string, row: Row): Option<Db> {
    if RowOk(id, row) then Some(db.(rows := db.rows[id := row])) else None
  }

  const I64_MIN: int := -0x8000_0000_0000_0000
  const I64_MAX: int := 0x7FFF_FFFF_FFFF_FFFF

  predicate I64(x: int) { I64_MIN <= x <= I64_MAX }

  // ---------- Message ids (lib.rs:1114-1151) ----------

  /** Every field is preceded by its length in eight bytes. */
  function Framed(fields: seq<string>): bytes {
    if fields == [] then []
    else Lp64(Utf8(fields[0])) + Framed(fields[1..])
  }

  function Sha256Hex(b: bytes): string {
    Hex.Encode(Sha256.Digest(b))
  }

  function MessageId(db: Db, fields: seq<string>): string {
    (db.hash)(Framed(fields))
  }

  function Or<T>(o: Option<T>, d: T): T {
    match o
    case Some(v) => v
    case None => d
  }

  datatype M2Submission = M2Submission(key: string, topic: string, title: Option<string>, body: string) {
    predicate Valid() {
      && ValidIdempotencyKey(key) && ValidTopic(topic) && ValidText(body, 4096)
      && (title.Some? ==> ValidText(title.value, 256) && '\r' !in title.value && '\n' !in title.value)
    }

    function Fields(): seq<string> { [key, topic, Or(title, ""), body] }

    function NewRow(now: int): Row {
      Row(key, "ntfy", topic, "", topic, title, body, Queued, 0, Some(now), None, None, now, now)
    }

    predicate SameAs(row: Row) { row.topic == topic && row.title == title && row.body == body }
  }

  datatype M3Submission = M3Submission(key: string, driver: string, destination: string, payload: string) {
    predicate Valid() {
      && ValidIdempotencyKey(key) && KnownDriver(driver)
      && ValidText(destination, 256) && ValidText(payload, 4096)
    }

    function Fields(): seq<string> { [key, driver, destination, payload] }

    /** The topic column gets the driver's name. */
    function NewRow(now: int): Row {
      Row(key, driver, destination, payload, driver, None, payload, Queued, 0, Some(now), None, None, now, now)
    }

    predicate SameAs(row: Row) { row.driver == driver && row.destination == destination && row.payload == payload }
  }

  datatype M4Submission = M4Submission(providerMessageId: string, sender: string, verb: string,
                                       driver: string, destination: string, payload: string) {
    predicate Valid() {
      && ValidIdempotencyKey(providerMessageId) && ValidPhoneSender(sender) && (IsNotify() || verb == "status")
      && KnownDriver(driver) && ValidText(destination, 256) && ValidText(payload, 4096)
    }

    predicate IsNotify() { verb == "notify" }

    function Key(): string { "m4-" + providerMessageId }

    function Fields(): seq<string> { [Key(), driver, destination, payload] }

    /** Unlike `M3Submission`, the topic column gets the destination. */
    function NewRow(now: int): Row {
      Row(Key(), driver, destination, payload, destination, None, payload, Queued, 0, Some(now), None, None, now, now)
    }
  }

  // ---------- Transactions ----------

  datatype Accepted = New(id: string) | Existing(id: string)
  datatype Disposition = InboundAccepted | Disabled | Replayed | RateLimited

  datatype Reply =
    | Admitted(accepted: Accepted)
    | Inbound(disposition: Disposition)
    | Claimed(id: string)
    | NothingDue
    | Recovered(count: nat)
    | Requeued(ok: bool)
    | NoSuchMessage
    | Done

  /** A step leaves the database alone unless it succeeds. */
  datatype Outcome = Outcome(db: Db, reply: Result<Reply>)

  function Refused(db: Db): Outcome { Outcome(db, Delivery) }

  function Committed(db: Db, next: Option<Db>, reply: Reply): Outcome {
    if next.Some? then Outcome(next.value, Ok(reply)) else Refused(db)
  }

  /** Some row with this key (there is at most one). */
  ghost function FindKey(db: Db, key: string): (r: Option<string>)
    ensures r.Some? ==> r.value in db.rows && db.rows[r.value].key == key
    ensures r.None? <==> !HasKey(db, key)
  {
    if HasKey(db, key) then var id :| id in db.rows && db.rows[id].key == key; Some(id) else None
  }

  ghost function Submit2(db: Db, s: M2Submission, now: int): Outcome {
    if !s.Valid() then Refused(db)
    else match FindKey(db, s.key)
      case Some(id) => if s.SameAs(db.rows[id]) then Outcome(db, Ok(Admitted(Existing(id)))) else Refused(db)
      case None => Committed(db, Insert(db, MessageId(db, s.Fields()), s.NewRow(now)),
                             Admitted(New(MessageId(db, s.Fields()))))
  }

  ghost function Submit3(db: Db, s: M3Submission, now: int): Outcome {
    if !s.Valid() then Refused(db)
    else match FindKey(db, s.key)
      case Some(id) => if s.SameAs(db.rows[id]) then Outcome(db, Ok(Admitted(Existing(id)))) else Refused(db)
      case None => Committed(db, Insert(db, MessageId(db, s.Fields()), s.NewRow(now)),
                             Admitted(New(MessageId(db, s.Fields()))))
  }

  const WINDOW_MS: int := 600_000
  const MAX_EVENTS: int := 4

  /** Accepted `notify` events of a sender strictly after `start`. */
  function CountAfter(events: seq<RateEvent>, sender: string, start: int): nat {
    if events == [] then 0
    else CountAfter(events[..|events| - 1], sender, start)
         + if events[|events| - 1].sender == sender && events[|events| - 1].acceptedAt > start then 1 else 0
  }

  /** Message, receipt and rate event together, or nothing. */
  function Recorded(db: Db, s: M4Submission, now: int): Outcome {
    match Insert(db, MessageId(db, s.Fields()), s.NewRow(now))
    case None => Refused(db)
    case Some(next) =>
      Outcome(next.(receipts := db.receipts[s.providerMessageId := Receipt(s.sender, s.verb, now)],
                    events := if s.IsNotify() then db.events + [RateEvent(s.sender, now)] else db.events),
              Ok(Inbound(InboundAccepted)))
  }

  function SubmitInbound(db: Db, s: M4Submission, now: int): Outcome {
    if !s.Valid() then Refused(db)
    else if !db.enabled then Outcome(db, Ok(Inbound(Disabled)))
    else if s.providerMessageId in db.receipts then Outcome(db, Ok(Inbound(Replayed)))
    else if s.IsNotify() && !I64(now - WINDOW_MS) then Refused(db)
    else if s.IsNotify() && CountAfter(db.events, s.sender, now - WINDOW_MS) >= MAX_EVENTS
      then Outcome(db, Ok(Inbound(RateLimited)))
    else if !ValidIdempotencyKey(s.Key()) then Refused(db)
    else Recorded(db, s, now)
  }

  // The order of `m2_claim_due`.

  predicate Due(row: Row, now: int) {
    row.state in {Queued, RetryScheduled} && row.nextAttempt.Some? && row.nextAttempt.value <= now
  }

  predicate Before(db: Db, a: string, b: string)
    requires a in db.rows && b in db.rows
  {
    || db.rows[a].createdAt < db.rows[b].createdAt
    || (db.rows[a].createdAt == db.rows[b].createdAt && LexLess(a, b))
  }

  predicate IsFirstDue(db: Db, now: int, id: string) {
    && id in db.rows && Due(db.rows[id], now)
    && forall other :: other in db.rows && other != id && Due(db.rows[other], now) ==> Before(db, id, other)
  }

  predicate NoneDue(db: Db, now: int) {
    forall id :: id in db.rows ==> !Due(db.rows[id], now)
  }

  ghost function FirstDue(db: Db, now: int): (r: Option<string>)
    ensures r.Some? ==> IsFirstDue(db, now, r.value)
  {
    if exists id :: IsFirstDue(db, now, id) then var id :| IsFirstDue(db, now, id); Some(id) else None
  }

  function Sent(row: Row, now: int): Row {
    row.(state := Sending, attempts := row.attempts + 1, nextAttempt := None, updatedAt := now)
  }

  ghost function Claim(db: Db, now: int): Outcome {
    match FirstDue(db, now)
    case None => Outcome(db, Ok(NothingDue))
    case Some(id) => Committed(db, Update(db, id, Sent(db.rows[id], now)), Claimed(id))
  }

  predicate IsSending(db: Db, id: string) {
    id in db.rows && db.rows[id].state == Sending
  }

  /** The SET clauses of the four outcome statements. */
  datatype Statement =
    SetAccepted(ack: string) | SetRetry(next: int) | SetFailed(reason: string) | SetAmbiguous(reason: string)

  function Execute(statement: Statement, row: Row, now: int): Row {
    match statement
    case SetAccepted(ack) => row.(state := ProviderAccepted, providerAck := Some(ack), updatedAt := now)
    case SetRetry(next) => row.(state := RetryScheduled, nextAttempt := Some(next), lastError := None, updatedAt := now)
    case SetFailed(reason) => row.(state := Failed, lastError := Some(reason), updatedAt := now)
    case SetAmbiguous(reason) => row.(state := Ambiguous, lastError := Some(reason), updatedAt := now)
  }

  /** UPDATE ... WHERE message_id = ? AND state = 'sending'. */
  function Transition(db: Db, id: string, statement: Statement, now: int): Outcome {
    if IsSending(db, id) then Committed(db, Update(db, id, Execute(statement, db.rows[id], now)), Done) else Refused(db)
  }

  function MarkAccepted(db: Db, id: string, ack: string, now: int): Outcome {
    if !ValidText(ack, 256) then Refused(db) else Transition(db, id, SetAccepted(ack), now)
  }

  function MarkRetry(db: Db, id: string, reason: string, delayMs: int, now: int): Outcome {
    if !ValidText(reason, 256) || !(1_000 <= delayMs <= 3_600_000) || !IsSending(db, id) then Refused(db)
    else if db.rows[id].attempts < 5 && !I64(now + delayMs) then Refused(db)
    else Transition(db, id, if db.rows[id].attempts < 5 then SetRetry(now + delayMs) else SetFailed(reason), now)
  }

  function MarkFailed(db: Db, id: string, reason: string, now: int): Outcome {
    if !ValidText(reason, 256) then Refused(db) else Transition(db, id, SetFailed(reason), now)
  }

  function MarkAmbiguous(db: Db, id: string, reason: string, now: int): Outcome {
    if !ValidText(reason, 256) then Refused(db) else Transition(db, id, SetAmbiguous(reason), now)
  }

  const INTERRUPTED := "interrupted external delivery may have occurred"

  function Interrupted(row: Row, now: int): Row {
    if row.state == Sending then row.(state := Ambiguous, lastError := Some(INTERRUPTED), updatedAt := now) else row
  }

  function SendingIds(db: Db): set<string> {
    set id | id in db.rows && db.rows[id].state == Sending
  }

  /** One UPDATE over all rows in `sending`. */
  function Recover(db: Db, now: int): Outcome {
    var next := map id | id in db.rows :: Interrupted(db.rows[id], now);
    if forall id :: id in next ==> RowOk(id, next[id]) then Outcome(db.(rows := next), Ok(Recovered(|SendingIds(db)|)))
    else Refused(db)
  }

  function QueuedAgain(row: Row, now: int): Row {
    row.(state := Queued, nextAttempt := Some(now), lastError := None, updatedAt := now)
  }

  function Requeue(db: Db, id: string, now: int): Outcome {
    if !ValidMessageId(id) then Refused(db)
    else if id !in db.rows then Outcome(db, Ok(NoSuchMessage))
    else if db.rows[id].state != Failed then Outcome(db, Ok(Requeued(false)))
    else Committed(db, Update(db, id, QueuedAgain(db.rows[id], now)), Requeued(true))
  }

  function CountState(db: Db, state: State): nat {
    |set id | id in db.rows && db.rows[id].state == state|
  }

  datatype QueueSummary = QueueSummary(queued: nat, retryScheduled: nat, sending: nat,
                                       providerAccepted: nat, failed: nat, ambiguous: nat)

  function Summary(db: Db): QueueSummary {
    QueueSummary(CountState(db, Queued), CountState(db, RetryScheduled), CountState(db, Sending),
                 CountState(db, ProviderAccepted), CountState(db, Failed), CountState(db, Ambiguous))
  }

  // ---------- Steps and runs ----------

  datatype Step =
    | DoSubmit2(s2: M2Submission, now: int)
    | DoSubmit3(s3: M3Submission, now: int)
    | DoSetInbound(enabled: bool)
    | DoInbound(s4: M4Submission, now: int)
    | DoClaim(now: int)
    | DoAccepted(id: string, ack: string, now: int)
    | DoRetry(id: string, reason: string, delayMs: int, now: int)
    | DoFailed(id: string, reason: string, now: int)
    | DoAmbiguous(id: string, reason: string, now: int)
    | DoRecover(now: int)
    | DoRequeue(id: string, now: int)

  ghost function Apply(db: Db, step: Step): Outcome {
    match step
    case DoSubmit2(s, now) => Submit2(db, s, now)
    case DoSubmit3(s, now) => Submit3(db, s, now)
    case DoSetInbound(enabled) => Outcome(db.(enabled := enabled), Ok(Done))
    case DoInbound(s, now) => SubmitInbound(db, s, now)
    case DoClaim(now) => Claim(db, now)
    case DoAccepted(id, ack, now) => MarkAccepted(db, id, ack, now)
    case DoRetry(id, reason, delay, now) => MarkRetry(db, id, reason, delay, now)
    case DoFailed(id, reason, now) => MarkFailed(db, id, reason, now)
    case DoAmbiguous(id, reason, now) => MarkAmbiguous(db, id, reason, now)
    case DoRecover(now) => Recover(db, now)
    case DoRequeue(id, now) => Requeue(db, id, now)
  }

  function Empty(hash: bytes -> string): Db { Db(hash, map[], false, map[], []) }

  /** Any interleaving of transactions.  A crash loses no committed step and completes no other,
      so a run with crashes is a run: the prefix before the crash, then recovery and the rest. */
  ghost function Run(db: Db, steps: seq<Step>): Db {
    if steps == [] then db else Apply(Run(db, steps[..|steps| - 1]), steps[|steps| - 1]).db
  }
}
