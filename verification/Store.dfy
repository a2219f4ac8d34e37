/** The store object of crates/msgriver-store and the serve loop of crates/msgriver/src/main.rs. */
module Store {
  import opened Wrappers
  import opened Bytes
  import opened Text
  import opened Queue
  import opened QueueInvariant
  import opened QueueRuns
  import opened QueueColumns
  import opened QueueOrder
  import opened QueueAdmission
  import Sha256
  import Hex

  /** `digest_to_hex`. */
  method DigestToHex(digest: bytes) returns (output: string)
    ensures output == Hex.Encode(digest)
  {
    output := "";
    for i := 0 to |digest|
      invariant output == Hex.Encode(digest[..i])
    {
      output := output + [Hex.Digit(digest[i] / 16)] + [Hex.Digit(digest[i] % 16)];
      assert digest[..i + 1] == digest[..i] + [digest[i]];
      Hex.EncodeSnoc(digest[..i], digest[i]);
    }
    assert digest[..|digest|] == digest;
  }

  lemma {:induction false} NextFrame(fields: seq<string>, i: nat, input: bytes, field: bytes)
    requires i < |fields| && field == Utf8(fields[i])
    ensures input + Framed(fields[i..]) == (input + BigEndian(|field|, 8) + field) + Framed(fields[i + 1..])
  {
    assert fields[i..][1..] == fields[i + 1..];
    Reassociate(input, BigEndian(|field|, 8), field);
    Reassociate(input, Lp64(field), Framed(fields[i + 1..]));
  }

  /** The digest input is fed field by field, each after its eight-byte length. */
  method FrameFields(fields: seq<string>) returns (input: bytes)
    ensures input == Framed(fields)
  {
    input := [];
    for i := 0 to |fields|
      invariant Framed(fields) == input + Framed(fields[i..])
    {
      var field := Utf8(fields[i]);
      NextFrame(fields, i, input, field);
      input := input + BigEndian(|field|, 8) + field;
    }
  }

  method MessageIdOf(fields: seq<string>) returns (id: string)
    ensures id == Sha256Hex(Framed(fields))
  {
    var input := FrameFields(fields);
    var digest := Sha256.Sha256(input);
    id := DigestToHex(digest);
  }

  /** `connected` is whether the optional connection is still held. */
  class MessageStore {
    var connected: bool
    var rows: map<string, Row>
    var enabled: bool
    var receipts: map<string, Receipt>
    var events: seq<RateEvent>

    /** A freshly migrated database. */
    constructor ()
      ensures Valid() && connected && View() == Empty(Sha256Hex)
    {
      connected, rows, enabled, receipts, events := true, map[], false, map[], [];
      new;
      Sha256HexOk();
    }

    function View(): Db
      reads this
    {
      Db(Sha256Hex, rows, enabled, receipts, events)
    }

    ghost predicate Valid()
      reads this
    {
      Inv(View())
    }

    /** INSERT INTO m3_messages: one row or, if a constraint fails, none. */
    method InsertRow(id: string, row: Row) returns (inserted: bool)
      modifies this`rows
      ensures inserted == Insert(old(View()), id, row).Some?
      ensures View() == if inserted then Insert(old(View()), id, row).value else old(View())
    {
      inserted := RowOk(id, row) && id !in rows && !HasKey(View(), row.key);
      if inserted {
        rows := rows[id := row];
      }
    }

    method AdmitRow(id: string, row: Row) returns (reply: Result<Reply>)
      modifies this`rows
      ensures Outcome(View(), reply) == Committed(old(View()), Insert(old(View()), id, row), Admitted(New(id)))
    {
      var inserted := InsertRow(id, row);
      reply := if inserted then Ok(Admitted(New(id))) else Delivery;
    }

    /** UPDATE m3_messages of one existing row. */
    method UpdateRow(id: string, row: Row) returns (changed: bool)
      modifies this`rows
      ensures changed == Update(old(View()), id, row).Some?
      ensures View() == if changed then Update(old(View()), id, row).value else old(View())
    {
      changed := RowOk(id, row);
      if changed {
        rows := rows[id := row];
      }
    }

    /** SELECT by the unique key. */
    method SelectByKey(key: string) returns (found: Option<string>)
      requires Valid()
      ensures found == FindKey(View(), key)
    {
      if id :| id in rows && rows[id].key == key {
        assert HasKey(View(), key);
        return Some(id);
      }
      return None;
    }

    method M2Submit(s: M2Submission, now: int) returns (reply: Result<Reply>)
      requires Valid()
      modifies this
      ensures Valid() && connected == old(connected)
      ensures Outcome(View(), reply) == if connected then Submit2(old(View()), s, now) else Refused(old(View()))
    {
      Submit2Keeps(View(), s, now);
      if !s.Valid() || !connected {
        return Delivery;
      }
      var existing := SelectByKey(s.key);
      if existing.Some? {
        var row := rows[existing.value];
        return if row.topic == s.topic && row.title == s.title && row.body == s.body
            then Ok(Admitted(Existing(existing.value))) else Delivery;
      }
      var id := MessageIdOf(s.Fields());
      reply := AdmitRow(id, s.NewRow(now));
    }

    method M3Submit(s: M3Submission, now: int) returns (reply: Result<Reply>)
      requires Valid()
      modifies this
      ensures Valid() && connected == old(connected)
      ensures Outcome(View(), reply) == if connected then Submit3(old(View()), s, now) else Refused(old(View()))
    {
      Submit3Keeps(View(), s, now);
      if !s.Valid() || !connected {
        return Delivery;
      }
      var existing := SelectByKey(s.key);
      if existing.Some? {
        var row := rows[existing.value];
        return if row.driver == s.driver && row.destination == s.destination && row.payload == s.payload
            then Ok(Admitted(Existing(existing.value))) else Delivery;
      }
      var id := MessageIdOf(s.Fields());
      reply := AdmitRow(id, s.NewRow(now));
    }

    method M4SetInboundEnabled(on: bool) returns (reply: Result<Reply>)
      requires Valid()
      modifies this`enabled
      ensures Valid()
      ensures Outcome(View(), reply) == if connected then Apply(old(View()), DoSetInbound(on)) else Refused(old(View()))
    {
      if !connected {
        return Delivery;
      }
      enabled := on;
      return Ok(Done);
    }

    method M4SubmitInbound(s: M4Submission, now: int) returns (reply: Result<Reply>)
      requires Valid()
      modifies this
      ensures Valid() && connected == old(connected)
      ensures Outcome(View(), reply) == if connected then SubmitInbound(old(View()), s, now) else Refused(old(View()))
    {
      InboundKeeps(View(), s, now);
      if !s.Valid() || !connected {
        return Delivery;
      }
      if !enabled {
        return Ok(Inbound(Disabled));
      }
      if s.providerMessageId in receipts {
        return Ok(Inbound(Replayed));
      }
      if s.IsNotify() {
        var start := now - 600_000;
        if !I64(start) {
          return Delivery;
        }
        if CountAfter(events, s.sender, start) >= 4 {
          return Ok(Inbound(RateLimited));
        }
      }
      if !ValidIdempotencyKey(s.Key()) {
        return Delivery;
      }
      reply := RecordInbound(s, now);
    }

    /** The three INSERTs of an accepted callback. */
    method RecordInbound(s: M4Submission, now: int) returns (reply: Result<Reply>)
      modifies this
      ensures connected == old(connected)
      ensures Outcome(View(), reply) == Recorded(old(View()), s, now)
    {
      var id := MessageIdOf(s.Fields());
      var inserted := InsertRow(id, s.NewRow(now));
      if !inserted {
        return Delivery;
      }
      receipts := receipts[s.providerMessageId := Receipt(s.sender, s.verb, now)];
      if s.IsNotify() {
        events := events + [RateEvent(s.sender, now)];
      }
      return Ok(Inbound(InboundAccepted));
    }

    method M2ClaimDue(now: int) returns (reply: Result<Reply>)
      requires Valid()
      modifies this
      ensures Valid() && connected == old(connected)
      ensures Outcome(View(), reply) == if connected then Claim(old(View()), now) else Refused(old(View()))
    {
      ClaimKeeps(View(), now);
      if !connected {
        return Delivery;
      }
      var candidate := SelectFirstDue(now);
      if candidate.None? {
        return Ok(NothingDue);
      }
      var id := candidate.value;
      var changed := UpdateRow(id, Sent(rows[id], now));
      return if changed then Ok(Claimed(id)) else Delivery;
    }

    /** SELECT ... ORDER BY created_at_unix_ms, message_id LIMIT 1. */
    method SelectFirstDue(now: int) returns (candidate: Option<string>)
      ensures candidate == FirstDue(View(), now)
    {
      if id :| id in rows && IsFirstDue(View(), now, id) {
        FirstDueIsUnique(View(), now, id, FirstDue(View(), now).value);
        return Some(id);
      }
      assert forall id :: IsFirstDue(View(), now, id) ==> id in rows;
      return None;
    }

    /** UPDATE ... WHERE message_id = ?1 AND state = 'sending'. */
    method TransitionSending(id: string, statement: Statement, now: int) returns (reply: Result<Reply>)
      requires Valid()
      modifies this`rows
      ensures Valid()
      ensures Outcome(View(), reply) == if connected then Transition(old(View()), id, statement, now)
        else Refused(old(View()))
    {
      TransitionKeeps(View(), id, statement, now);
      if !connected || !(id in rows && rows[id].state == Sending) {
        return Delivery;
      }
      var changed := UpdateRow(id, Execute(statement, rows[id], now));
      return if changed then Ok(Done) else Delivery;
    }

    method M2MarkAccepted(id: string, ack: string, now: int) returns (reply: Result<Reply>)
      requires Valid()
      modifies this`rows
      ensures Valid()
      ensures Outcome(View(), reply) == if connected then MarkAccepted(old(View()), id, ack, now)
        else Refused(old(View()))
    {
      if !ValidText(ack, 256) {
        return Delivery;
      }
      reply := TransitionSending(id, SetAccepted(ack), now);
    }

    method M2MarkFailed(id: string, reason: string, now: int) returns (reply: Result<Reply>)
      requires Valid()
      modifies this`rows
      ensures Valid()
      ensures Outcome(View(), reply) == if connected then MarkFailed(old(View()), id, reason, now)
        else Refused(old(View()))
    {
      if !ValidText(reason, 256) {
        return Delivery;
      }
      reply := TransitionSending(id, SetFailed(reason), now);
    }

    method M2MarkAmbiguous(id: string, reason: string, now: int) returns (reply: Result<Reply>)
      requires Valid()
      modifies this`rows
      ensures Valid()
      ensures Outcome(View(), reply) == if connected then MarkAmbiguous(old(View()), id, reason, now)
        else Refused(old(View()))
    {
      if !ValidText(reason, 256) {
        return Delivery;
      }
      reply := TransitionSending(id, SetAmbiguous(reason), now);
    }

    method M2MarkRetry(id: string, reason: string, delayMs: int, now: int) returns (reply: Result<Reply>)
      requires Valid()
      modifies this`rows
      ensures Valid()
      ensures Outcome(View(), reply) ==
        if connected then MarkRetry(old(View()), id, reason, delayMs, now) else Refused(old(View()))
    {
      if !ValidText(reason, 256) || !(1_000 <= delayMs <= 3_600_000) {
        return Delivery;
      }
      if !connected || !(id in rows && rows[id].state == Sending) {
        return Delivery;
      }
      var statement := SetFailed(reason);
      if rows[id].attempts < 5 {
        if !I64(now + delayMs) {
          return Delivery;
        }
        statement := SetRetry(now + delayMs);
      }
      reply := TransitionSending(id, statement, now);
    }

    /** One UPDATE over every row in `sending`. */
    method M2RecoverInterrupted(now: int) returns (reply: Result<Reply>)
      requires Valid()
      modifies this`rows
      ensures Valid()
      ensures Outcome(View(), reply) == if connected then Recover(old(View()), now) else Refused(old(View()))
    {
      RecoverKeeps(View(), now);
      if !connected {
        return Delivery;
      }
      var changed := |SendingIds(View())|;
      rows := map id | id in rows :: Interrupted(rows[id], now);
      return Ok(Recovered(changed));
    }

    method M6RequeueFailed(id: string, now: int) returns (reply: Result<Reply>)
      requires Valid()
      modifies this`rows
      ensures Valid()
      ensures Outcome(View(), reply) == if connected then Requeue(old(View()), id, now) else Refused(old(View()))
    {
      RequeueKeeps(View(), id, now);
      if !ValidMessageId(id) || !connected {
        return Delivery;
      }
      if id !in rows {
        return Ok(NoSuchMessage);
      }
      if rows[id].state != Failed {
        return Ok(Requeued(false));
      }
      var changed := UpdateRow(id, QueuedAgain(rows[id], now));
      return if changed then Ok(Requeued(true)) else Delivery;
    }

    /** The six counters, one SELECT COUNT each. */
    method M6QueueSummary() returns (summary: Result<QueueSummary>)
      ensures summary == if connected then Ok(Summary(View())) else Delivery
      ensures summary.Ok? ==> var s := summary.value;
        s.queued + s.retryScheduled + s.sending + s.providerAccepted + s.failed + s.ambiguous == |rows|
    {
      if !connected {
        return Delivery;
      }
      SummaryAddsUp(View());
      var db := View();
      return Ok(QueueSummary(CountState(db, Queued), CountState(db, RetryScheduled), CountState(db, Sending),
                             CountState(db, ProviderAccepted), CountState(db, Failed), CountState(db, Ambiguous)));
    }
  }

  // ---------- The serve loop ----------

  datatype DeliveryOutcome = DeliveryAccepted(acknowledgement: string) | ProviderRateLimited | Transient | Uncertain
                           | Permanent | AuthOrConfig | DriverError

  /** What the outside does to one turn of the loop: at most one local request, at most one
      callback, the provider's answer, the clock readings, and whether the process dies after the
      claim and before the outcome is recorded. */
  datatype Turn = Turn(local: Option<Step>, callback: Option<(M4Submission, int)>,
                       claimAt: int, outcome: DeliveryOutcome, markAt: int, diesSending: bool)

  predicate LocalRequest(step: Step) {
    step.DoSubmit2? || step.DoSubmit3? || step.DoSetInbound? || step.DoRequeue?
  }

  /** The acknowledgement as the provider gave it, or a fixed reason. */
  function TextOf(outcome: DeliveryOutcome): string {
    match outcome
    case DeliveryAccepted(acknowledgement) => acknowledgement
    case ProviderRateLimited => "ntfy temporary failure"
    case Transient => "ntfy temporary failure"
    case Uncertain => "ntfy response uncertain"
    case Permanent => "ntfy rejected request"
    case AuthOrConfig => "ntfy rejected request"
    case DriverError => "ntfy request invalid"
  }

  predicate Plain(text: string) { Ascii(text) && 1 <= |text| <= 256 && '\0' !in text }

  lemma PlainIsValid(text: string)
    requires Plain(text)
    ensures ValidText(text, 256)
  {
    AsciiBytes(text);
  }

  lemma TemporaryIsPlain()
    ensures Plain("ntfy temporary failure")
  {
  }

  lemma UncertainIsPlain()
    ensures Plain("ntfy response uncertain")
  {
  }

  lemma RejectedIsPlain()
    ensures Plain("ntfy rejected request")
  {
  }

  lemma InvalidIsPlain()
    ensures Plain("ntfy request invalid")
  {
  }

  lemma ReasonIsPlain(outcome: DeliveryOutcome)
    requires !outcome.DeliveryAccepted?
    ensures Plain(TextOf(outcome))
  {
    match outcome
    case ProviderRateLimited => TemporaryIsPlain();
    case Transient => TemporaryIsPlain();
    case Uncertain => UncertainIsPlain();
    case Permanent => RejectedIsPlain();
    case AuthOrConfig => RejectedIsPlain();
    case DriverError => InvalidIsPlain();
  }

  lemma ReasonIsValid(outcome: DeliveryOutcome, text: string)
    requires !outcome.DeliveryAccepted? && text == TextOf(outcome)
    ensures ValidText(text, 256)
  {
    ReasonIsPlain(outcome);
    PlainIsValid(text);
  }

  /** The step by which `dispatch_due` records a provider outcome. */
  function OutcomeStep(id: string, outcome: DeliveryOutcome, now: int): (step: Step)
    ensures Records(step) && step.id == id
  {
    StepWith(id, outcome, TextOf(outcome), now)
  }

  function StepWith(id: string, outcome: DeliveryOutcome, text: string, now: int): (step: Step)
    ensures Records(step) && step.id == id
  {
    match outcome
    case DeliveryAccepted(_) => DoAccepted(id, text, now)
    case ProviderRateLimited => DoRetry(id, text, 1_000, now)
    case Transient => DoRetry(id, text, 1_000, now)
    case Uncertain => DoAmbiguous(id, text, now)
    case Permanent => DoFailed(id, text, now)
    case AuthOrConfig => DoFailed(id, text, now)
    case DriverError => DoFailed(id, text, now)
  }

  /** When recording an outcome succeeds: an acknowledgement must be valid text, a retry must not
      overflow the clock. */
  lemma RecordsUnless(db: Db, id: string, outcome: DeliveryOutcome, now: int)
    requires Inv(db) && IsSending(db, id)
    ensures Apply(db, OutcomeStep(id, outcome, now)).reply.Ok? <==>
              match outcome
              case DeliveryAccepted(acknowledgement) => ValidText(acknowledgement, 256)
              case ProviderRateLimited => db.rows[id].attempts == 5 || I64(now + 1_000)
              case Transient => db.rows[id].attempts == 5 || I64(now + 1_000)
              case _ => true
  {
    var text := TextOf(outcome);
    if !outcome.DeliveryAccepted? {
      ReasonIsValid(outcome, text);
    }
    StepRecords(db, id, outcome, text, now);
  }

  lemma StepRecords(db: Db, id: string, outcome: DeliveryOutcome, text: string, now: int)
    requires Inv(db) && IsSending(db, id) && (!outcome.DeliveryAccepted? ==> ValidText(text, 256))
    ensures Apply(db, StepWith(id, outcome, text, now)).reply.Ok? <==>
              if outcome.DeliveryAccepted? then ValidText(text, 256)
              else outcome.ProviderRateLimited? || outcome.Transient? ==> db.rows[id].attempts == 5 || I64(now + 1_000)
  {
    if outcome.ProviderRateLimited? || outcome.Transient? {
      RetryRecords(db, id, text, now);
    } else {
      SettlementRecords(db, id, text, now);
    }
  }

  lemma RetryRecords(db: Db, id: string, reason: string, now: int)
    requires Inv(db) && IsSending(db, id) && ValidText(reason, 256)
    ensures Apply(db, DoRetry(id, reason, 1_000, now)).reply.Ok? <==> db.rows[id].attempts == 5 || I64(now + 1_000)
  {
    assert RowOk(id, db.rows[id]);
  }

  lemma TransitionRecords(db: Db, id: string, statement: Statement, now: int)
    requires Inv(db) && IsSending(db, id) && !statement.SetRetry?
    ensures Transition(db, id, statement, now).reply.Ok?
  {
    assert RowOk(id, db.rows[id]);
  }

  lemma SettlementRecords(db: Db, id: string, text: string, now: int)
    requires Inv(db) && IsSending(db, id)
    ensures MarkAccepted(db, id, text, now).reply.Ok? <==> ValidText(text, 256)
    ensures MarkFailed(db, id, text, now).reply.Ok? <==> ValidText(text, 256)
    ensures MarkAmbiguous(db, id, text, now).reply.Ok? <==> ValidText(text, 256)
  {
    TransitionRecords(db, id, SetAccepted(text), now);
    TransitionRecords(db, id, SetFailed(text), now);
    TransitionRecords(db, id, SetAmbiguous(text), now);
  }

  /** What a dispatch with this outcome makes of a row in flight, column by column. */
  ghost predicate Dispatched(was: Row, row: Row, outcome: DeliveryOutcome, now: int) {
    && SameContent(was, row) && row.attempts == was.attempts && row.updatedAt == now
    && match outcome
       case DeliveryAccepted(acknowledgement) =>
         && row.state == ProviderAccepted && row.providerAck == Some(acknowledgement)
         && row.lastError == None && row.nextAttempt == None
       case ProviderRateLimited => Retried(row, now)
       case Transient => Retried(row, now)
       case Uncertain => Settled(row, Ambiguous, "ntfy response uncertain")
       case Permanent => Settled(row, Failed, "ntfy rejected request")
       case AuthOrConfig => Settled(row, Failed, "ntfy rejected request")
       case DriverError => Settled(row, Failed, "ntfy request invalid")
  }

  ghost predicate Settled(row: Row, state: State, reason: string) {
    row.state == state && row.lastError == Some(reason) && row.providerAck == None && row.nextAttempt == None
  }

  /** Below five attempts one more in a second, at the fifth a failure. */
  ghost predicate Retried(row: Row, now: int) {
    if row.attempts < 5
    then row.state == RetryScheduled && row.nextAttempt == Some(now + 1_000) && row.lastError == row.providerAck == None
    else Settled(row, Failed, "ntfy temporary failure")
  }

  /** Whatever the statement, it writes one row that keeps its content and attempts. */
  lemma TransitionColumns(db: Db, id: string, statement: Statement, now: int, next: Db, row: Row)
    requires Inv(db) && IsSending(db, id) && next == Transition(db, id, statement, now).db
    requires Transition(db, id, statement, now).reply.Ok? && row == Execute(statement, db.rows[id], now)
    ensures OnlyRow(db, next, id) && next.rows[id] == row && row.updatedAt == now
    ensures SameContent(db.rows[id], row) && row.attempts == db.rows[id].attempts
    ensures statement.SetAccepted? ==>
      row.state == ProviderAccepted && row.providerAck == Some(statement.ack) && row.lastError == None
          && row.nextAttempt == None
    ensures statement.SetRetry? ==>
      row.state == RetryScheduled && row.nextAttempt == Some(statement.next) && row.lastError == row.providerAck == None
    ensures statement.SetFailed? ==> Settled(row, Failed, statement.reason)
    ensures statement.SetAmbiguous? ==> Settled(row, Ambiguous, statement.reason)
  {
    assert RowOk(id, db.rows[id]);
  }

  lemma RetryColumns(db: Db, id: string, reason: string, now: int, next: Db, was: Row, row: Row)
    requires Inv(db) && IsSending(db, id) && was == db.rows[id] && next == MarkRetry(db, id, reason, 1_000, now).db
    requires MarkRetry(db, id, reason, 1_000, now).reply.Ok? && reason == "ntfy temporary failure"
    requires id in next.rows && row == next.rows[id]
    ensures OnlyRow(db, next, id) && SameContent(was, row) && row.attempts == was.attempts && row.updatedAt == now
    ensures Retried(row, now)
  {
    var statement := if was.attempts < 5 then SetRetry(now + 1_000) else SetFailed(reason);
    TransitionColumns(db, id, statement, now, next, Execute(statement, was, now));
    assert RowOk(id, was);
  }

  lemma SettlementColumns(db: Db, id: string, outcome: DeliveryOutcome, text: string, now: int, next: Db, was: Row)
    requires Inv(db) && IsSending(db, id) && was == db.rows[id] && next == Next(db, StepWith(id, outcome, text, now))
    requires Apply(db, StepWith(id, outcome, text, now)).reply.Ok? && text == TextOf(outcome)
    requires !outcome.ProviderRateLimited? && !outcome.Transient?
    ensures OnlyRow(db, next, id) && Dispatched(was, next.rows[id], outcome, now)
  {
    var statement := if outcome.DeliveryAccepted? then SetAccepted(text)
                     else if outcome.Uncertain? then SetAmbiguous(text) else SetFailed(text);
    var out := Transition(db, id, statement, now);
    SettlementStep(db, id, outcome, text, now, out);
    TransitionColumns(db, id, statement, now, next, Execute(statement, was, now));
  }

  lemma SettlementStep(db: Db, id: string, outcome: DeliveryOutcome, text: string, now: int, out: Outcome)
    requires Apply(db, StepWith(id, outcome, text, now)).reply.Ok?
    requires !outcome.ProviderRateLimited? && !outcome.Transient?
    requires out == Transition(db, id, if outcome.DeliveryAccepted? then SetAccepted(text)
                                       else if outcome.Uncertain? then SetAmbiguous(text) else SetFailed(text), now)
    ensures Apply(db, StepWith(id, outcome, text, now)) == out
  {
  }

  /** An outcome that is recorded leaves exactly its columns in the row, and no other row changes. */
  lemma OutcomeColumns(db: Db, id: string, outcome: DeliveryOutcome, now: int, next: Db)
    requires Inv(db) && IsSending(db, id) && next == Next(db, OutcomeStep(id, outcome, now))
    requires Apply(db, OutcomeStep(id, outcome, now)).reply.Ok?
    ensures OnlyRow(db, next, id) && Dispatched(db.rows[id], next.rows[id], outcome, now)
  {
    var was, text := db.rows[id], TextOf(outcome);
    if outcome.ProviderRateLimited? || outcome.Transient? {
      RetryColumns(db, id, text, now, next, was, next.rows[id]);
    } else {
      SettlementColumns(db, id, outcome, text, now, next, was);
    }
  }

  predicate Records(step: Step) {
    step.DoAccepted? || step.DoRetry? || step.DoFailed? || step.DoAmbiguous?
  }

  method Perform(store: MessageStore, step: Step) returns (reply: Result<Reply>)
    requires store.Valid() && store.connected && !step.DoClaim? && !step.DoRecover?
    modifies store
    ensures store.Valid() && store.connected
    ensures Outcome(store.View(), reply) == Apply(old(store.View()), step)
  {
    match step
    case DoSubmit2(s, now) => reply := store.M2Submit(s, now);
    case DoSubmit3(s, now) => reply := store.M3Submit(s, now);
    case DoSetInbound(on) => reply := store.M4SetInboundEnabled(on);
    case DoInbound(s, now) => reply := store.M4SubmitInbound(s, now);
    case DoAccepted(id, ack, now) => reply := store.M2MarkAccepted(id, ack, now);
    case DoRetry(id, reason, delay, now) => reply := store.M2MarkRetry(id, reason, delay, now);
    case DoFailed(id, reason, now) => reply := store.M2MarkFailed(id, reason, now);
    case DoAmbiguous(id, reason, now) => reply := store.M2MarkAmbiguous(id, reason, now);
    case DoRequeue(id, now) => reply := store.M6RequeueFailed(id, now);
  }

  // A step that claims nothing puts nothing in flight.
  lemma NothingNewSending(db: Db, step: Step)
    requires Inv(db) && !step.DoClaim?
    ensures SendingIds(Next(db, step)) <= SendingIds(db)
  {
    forall id | id in SendingIds(Next(db, step))
      ensures id in SendingIds(db)
    {
      if id in db.rows {
        StepMoves(db, step, id);
        if Apply(db, step).reply == Ok(Claimed(id)) {
          ClaimsInTable(db, step, id);
        }
      } else {
        FreshRow(db, step, id);
      }
    }
  }

  lemma ClaimPutsInFlight(db: Db, now: int, id: string)
    requires Inv(db) && Claim(db, now).reply == Ok(Claimed(id))
    ensures SendingIds(Claim(db, now).db) == SendingIds(db) + {id}
  {
    assert Claim(db, now).db.rows == db.rows[id := Sent(db.rows[id], now)];
  }

  /** Recording an outcome with success takes the message out of flight. */
  lemma OutcomeLands(db: Db, step: Step)
    requires Inv(db) && Records(step) && Apply(db, step).reply.Ok?
    ensures SendingIds(Next(db, step)) <= SendingIds(db) - {step.id}
  {
    NothingNewSending(db, step);
    LeavesSending(db, step);
  }

  lemma LeavesSending(db: Db, step: Step)
    requires Records(step) && Apply(db, step).reply.Ok?
    ensures step.id in Next(db, step).rows && Next(db, step).rows[step.id].state != Sending
  {
    match step
    case DoAccepted(id, ack, now) =>
    case DoRetry(id, reason, delay, now) =>
    case DoFailed(id, reason, now) =>
    case DoAmbiguous(id, reason, now) =>
  }

  lemma {:induction false} RunTwo(db: Db, a: Step, b: Step)
    ensures Run(db, [a]) == Next(db, a) && Run(db, [a, b]) == Next(Next(db, a), b)
  {
    assert [a][..0] == [] && [a, b][..1] == [a];
  }

  lemma AtMostOne(ids: set<string>, id: string)
    requires ids <= {id}
    ensures |ids| <= 1
  {
    if id in ids {
      assert ids == {id};
    } else {
      assert ids == {};
    }
  }

  /** A claim answers one of three things, and puts in flight what it claims and nothing else. */
  lemma ClaimCases(db: Db, now: int, out: Outcome)
    requires Inv(db) && out == Claim(db, now)
    ensures out.reply.Delivery? || out.reply.value.NothingDue? || out.reply.value.Claimed?
    ensures out.reply.Ok? && out.reply.value.Claimed? ==>
              SendingIds(out.db) == SendingIds(db) + {out.reply.value.id}
    ensures out.reply.Delivery? || out.reply.value.NothingDue? ==> out.db == db
  {
    if out.reply.Ok? && out.reply.value.Claimed? {
      ClaimPutsInFlight(db, now, out.reply.value.id);
    }
  }

  method ClaimOne(store: MessageStore, now: int) returns (claimed: Result<Reply>)
    requires store.Valid() && store.connected && SendingIds(store.View()) == {}
    modifies store
    ensures store.Valid() && store.connected && claimed == Claim(old(store.View()), now).reply
    ensures claimed.Delivery? || claimed.value.NothingDue? || claimed.value.Claimed?
    ensures claimed.Ok? && claimed.value.Claimed? ==>
              SendingIds(store.View()) == {claimed.value.id} && store.View() == Next(old(store.View()), DoClaim(now))
    ensures claimed.Delivery? || claimed.value.NothingDue? ==> store.View() == old(store.View())
  {
    ClaimCases(store.View(), now, Claim(store.View(), now));
    claimed := store.M2ClaimDue(now);
  }

  /** What the turn records of the message it claimed, and whether that succeeds. */
  function Marks(id: string, turn: Turn): seq<Step> {
    if turn.diesSending then [] else [OutcomeStep(id, turn.outcome, turn.markAt)]
  }

  ghost predicate Landed(claimed: Db, id: string, turn: Turn) {
    !turn.diesSending && Apply(claimed, OutcomeStep(id, turn.outcome, turn.markAt)).reply.Ok?
  }

  /** A dispatch that succeeds handles one message: it spends an attempt, and its row shows the outcome. */
  ghost predicate Handled(before: Db, after: Db, id: string, turn: Turn) {
    && OnlyRow(before, after, id) && id in before.rows && MayClaim(before.rows[id], turn.claimAt)
    && var claimed := before.rows[id].(attempts := before.rows[id].attempts + 1);
       Dispatched(claimed, after.rows[id], turn.outcome, turn.markAt)
  }

  lemma LandedColumns(db: Db, id: string, turn: Turn, inFlight: Db, next: Db)
    requires Inv(db) && Claim(db, turn.claimAt).reply == Ok(Claimed(id)) && inFlight == Next(db, DoClaim(turn.claimAt))
    requires Landed(inFlight, id, turn) && next == Next(inFlight, OutcomeStep(id, turn.outcome, turn.markAt))
    ensures Handled(db, next, id, turn)
  {
    ClaimKeeps(db, turn.claimAt);
    ClaimColumns(db, turn.claimAt, id);
    OutcomeColumns(inFlight, id, turn.outcome, turn.markAt, next);
    ClaimedThenDispatched(db, id, turn, inFlight, next);
  }

  lemma ClaimedThenDispatched(db: Db, id: string, turn: Turn, inFlight: Db, next: Db)
    requires OnlyRow(db, inFlight, id) && OnlyRow(inFlight, next, id) && id in db.rows
    requires MayClaim(db.rows[id], turn.claimAt) && SameContent(db.rows[id], inFlight.rows[id])
    requires inFlight.rows[id].attempts == db.rows[id].attempts + 1
    requires Dispatched(inFlight.rows[id], next.rows[id], turn.outcome, turn.markAt)
    ensures Handled(db, next, id, turn)
  {
  }

  /** After an uncertain answer the message stays ambiguous: no later step of any run claims it, so
      it is never sent twice, and none requeues it. */
  lemma {:induction false} UncertainIsFinal(before: Db, db: Db, id: string, turn: Turn, steps: seq<Step>, step: Step)
    requires Inv(db) && Handled(before, db, id, turn) && turn.outcome.Uncertain?
    ensures id in Run(db, steps).rows && Run(db, steps).rows[id] == db.rows[id]
    ensures db.rows[id].state == Ambiguous && db.rows[id].lastError == Some("ntfy response uncertain")
    ensures Apply(Run(db, steps), step).reply != Ok(Claimed(id))
    ensures step.DoRequeue? && step.id == id ==> Apply(Run(db, steps), step).reply != Ok(Requeued(true))
  {
    SettledForever(db, steps, id, step);
  }

  /** One dispatch: claim a due message, hand it to its driver, record what the provider said.
      Nothing claimed before is left in flight; a refused claim ends the service unchanged. */
  method DispatchDue(store: MessageStore, turn: Turn) returns (ok: bool, ghost steps: seq<Step>)
    requires store.Valid() && store.connected && SendingIds(store.View()) == {}
    modifies store
    ensures store.Valid() && store.connected && store.View() == Run(old(store.View()), steps)
    ensures |SendingIds(store.View())| <= 1 && (ok ==> SendingIds(store.View()) == {})
    ensures match Claim(old(store.View()), turn.claimAt).reply
      case Delivery => !ok && steps == []
      case Ok(Claimed(id)) =>
        && steps == [DoClaim(turn.claimAt)] + Marks(id, turn)
        && ok == Landed(Next(old(store.View()), DoClaim(turn.claimAt)), id, turn)
        && (ok ==> Handled(old(store.View()), store.View(), id, turn))
      case Ok(_) => ok && steps == []
  {
    ghost var start := store.View();
    var claimed := ClaimOne(store, turn.claimAt);
    if claimed.Delivery? || claimed.value.NothingDue? {
      return claimed.Ok?, [];
    }
    ghost var inFlight := store.View();
    ok, steps := Deliver(store, claimed.value.id, turn);
    if ok {
      RunTwo(inFlight, steps[0], steps[0]);
      LandedColumns(start, claimed.value.id, turn, inFlight, store.View());
    }
    RunPrepend(start, DoClaim(turn.claimAt), steps);
    steps := [DoClaim(turn.claimAt)] + steps;
  }

  /** The part of a dispatch after the claim of `id`; the process may die before it records. */
  method Deliver(store: MessageStore, id: string, turn: Turn) returns (ok: bool, ghost steps: seq<Step>)
    requires store.Valid() && store.connected && SendingIds(store.View()) == {id}
    modifies store
    ensures store.Valid() && store.connected && store.View() == Run(old(store.View()), steps)
    ensures |SendingIds(store.View())| <= 1 && (ok ==> SendingIds(store.View()) == {})
    ensures steps == Marks(id, turn) && ok == Landed(old(store.View()), id, turn)
  {
    AtMostOne(SendingIds(store.View()), id);
    if turn.diesSending {
      return false, [];
    }
    var step := OutcomeStep(id, turn.outcome, turn.markAt);
    RunTwo(store.View(), step, step);
    ok := Record(store, step);
    AtMostOne(SendingIds(store.View()), id);
    steps := [step];
  }

  lemma {:induction false} RunPrepend(db: Db, a: Step, b: seq<Step>)
    ensures Run(db, [a] + b) == Run(Next(db, a), b)
  {
    RunAppend(db, [a], b);
    RunTwo(db, a, a);
  }

  method Record(store: MessageStore, step: Step) returns (ok: bool)
    requires store.Valid() && store.connected && Records(step)
    modifies store
    ensures store.Valid() && store.connected && store.View() == Next(old(store.View()), step)
    ensures ok == Apply(old(store.View()), step).reply.Ok?
    ensures SendingIds(store.View()) <= SendingIds(old(store.View())) - if ok then {step.id} else {}
  {
    NothingNewSending(store.View(), step);
    ghost var inFlight := store.View();
    var reply := Perform(store, step);
    if reply.Ok? {
      OutcomeLands(inFlight, step);
    }
    ok := reply.Ok?;
  }

  lemma {:induction false} RunAppend(db: Db, a: seq<Step>, b: seq<Step>)
    ensures Run(db, a + b) == Run(Run(db, a), b)
  {
    if b == [] {
      assert a + b == a;
    } else {
      var init, last := Prefix(b), b[|b| - 1];
      RunAppend(db, a, init);
      assert b == init + [last] && a + b == (a + init) + [last];
      RunSnoc(db, a + init, last);
      RunSnoc(Run(db, a), init, last);
    }
  }

  /** One turn: a local request, a callback, a dispatch.  Request errors are answered and
      forgotten; a dispatch error ends the service. */
  method ServeTurn(store: MessageStore, turn: Turn) returns (ok: bool, ghost steps: seq<Step>)
    requires store.Valid() && store.connected && SendingIds(store.View()) == {}
    requires turn.local.Some? ==> LocalRequest(turn.local.value)
    modifies store
    ensures store.Valid() && store.connected && store.View() == Run(old(store.View()), steps)
    ensures |SendingIds(store.View())| <= 1 && (ok ==> SendingIds(store.View()) == {})
  {
    ghost var start := store.View();
    steps := [];
    if turn.local.Some? {
      ghost var more := Request(store, turn.local.value);
      RunAppend(start, steps, more);
      steps := steps + more;
    }
    if turn.callback.Some? {
      ghost var more := Request(store, DoInbound(turn.callback.value.0, turn.callback.value.1));
      RunAppend(start, steps, more);
      steps := steps + more;
    }
    ghost var rest: seq<Step>;
    ok, rest := DispatchDue(store, turn);
    RunAppend(start, steps, rest);
    steps := steps + rest;
  }

  method Request(store: MessageStore, step: Step) returns (ghost steps: seq<Step>)
    requires store.Valid() && store.connected && SendingIds(store.View()) == {}
    requires LocalRequest(step) || step.DoInbound?
    modifies store
    ensures store.Valid() && store.connected && store.View() == Run(old(store.View()), steps)
    ensures SendingIds(store.View()) == {}
  {
    NothingNewSending(store.View(), step);
    RunTwo(store.View(), step, step);
    var reply := Perform(store, step);
    steps := [step];
  }

  method Recovery(store: MessageStore, now: int) returns (ghost steps: seq<Step>)
    requires store.Valid() && store.connected
    modifies store
    ensures store.Valid() && store.connected && SendingIds(store.View()) == {}
    ensures store.View() == Recover(old(store.View()), now).db == Run(old(store.View()), steps)
  {
    RunTwo(store.View(), DoRecover(now), DoRecover(now));
    RecoverKeeps(store.View(), now);
    var recovered := store.M2RecoverInterrupted(now);
    steps := [DoRecover(now)];
  }

  /** `serve` on an open store: recovery, then turns until one fails, the process dies in one, or
      the observation ends.  At every head of the loop no message is in flight; at the end at most
      one is; and the whole life of the process is a run of transactions, so everything proved of
      runs holds of it. */
  method Serve(store: MessageStore, now: int, turns: seq<Turn>)
    returns (ok: bool, ghost heads: seq<Db>, ghost steps: seq<Step>)
    requires store.Valid() && store.connected
    requires forall i :: 0 <= i < |turns| && turns[i].local.Some? ==> LocalRequest(turns[i].local.value)
    modifies store
    ensures store.Valid() && store.connected && store.View() == Run(old(store.View()), steps)
    ensures heads != [] && heads[0] == Recover(old(store.View()), now).db
    ensures forall i :: 0 <= i < |heads| ==> SendingIds(heads[i]) == {}
    ensures ok ==> |heads| == |turns| + 1 && heads[|turns|] == store.View()
    ensures |SendingIds(store.View())| <= 1
  {
    ghost var start := store.View();
    steps := Recovery(store, now);
    heads := [];
    for i := 0 to |turns|
      invariant store.Valid() && store.connected && SendingIds(store.View()) == {}
      invariant store.View() == Run(start, steps) && |heads| == i
      invariant forall j :: 0 <= j < i ==> SendingIds(heads[j]) == {}
      invariant (if i == 0 then store.View() else heads[0]) == Recover(start, now).db
    {
      heads := heads + [store.View()];
      ghost var more: seq<Step>;
      ok, more := ServeTurn(store, turns[i]);
      RunAppend(start, steps, more);
      steps := steps + more;
      if !ok {
        return;
      }
    }
    heads := heads + [store.View()];
    ok := true;
  }
}
