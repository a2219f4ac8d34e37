/** Admission over whole runs: ids bound to content, idempotent resubmission, the inbound
    replay and rate policy, and the state counters. */
module QueueAdmission {
  import opened Wrappers
  import opened Bytes
  import opened Text
  import opened Queue
  import opened QueueInvariant
  import opened QueueRuns

  // ---------- Ids are digests of the rows' own content ----------

  function M2Preimage(row: Row): bytes { Framed([row.key, row.topic, Or(row.title, ""), row.body]) }
  function M3Preimage(row: Row): bytes { Framed([row.key, row.driver, row.destination, row.payload]) }

  ghost predicate IdsBound(db: Db) {
    forall id :: id in db.rows ==> (db.hash)(M2Preimage(db.rows[id])) == id || (db.hash)(M3Preimage(db.rows[id])) == id
  }

  lemma SameContentSamePreimage(a: Row, b: Row)
    requires SameContent(a, b)
    ensures M2Preimage(a) == M2Preimage(b) && M3Preimage(a) == M3Preimage(b)
  {
  }

  lemma FreshIdIsBound(db: Db, step: Step, id: string)
    requires id !in db.rows && id in Next(db, step).rows
    ensures var row := Next(db, step).rows[id]; (db.hash)(M2Preimage(row)) == id || (db.hash)(M3Preimage(row)) == id
  {
    FreshRow(db, step, id);
  }

  lemma StepKeepsHash(db: Db, step: Step)
    ensures Next(db, step).hash == db.hash
  {
  }

  lemma StepKeepsIdsBound(db: Db, step: Step)
    requires Inv(db) && IdsBound(db)
    ensures IdsBound(Next(db, step))
  {
    var next := Next(db, step);
    StepKeepsHash(db, step);
    forall id | id in next.rows
      ensures (db.hash)(M2Preimage(next.rows[id])) == id || (db.hash)(M3Preimage(next.rows[id])) == id
    {
      if id in db.rows {
        StepMoves(db, step, id);
        SameContentSamePreimage(db.rows[id], next.rows[id]);
      } else {
        FreshIdIsBound(db, step, id);
      }
    }
  }

  lemma {:induction false} RunKeepsIdsBound(db: Db, steps: seq<Step>)
    requires Inv(db) && IdsBound(db)
    ensures IdsBound(Run(db, steps))
  {
    if steps != [] {
      RunKeepsIdsBound(db, Prefix(steps));
      RunKeeps(db, Prefix(steps));
      StepKeepsIdsBound(Run(db, Prefix(steps)), steps[|steps| - 1]);
    }
  }

  /** The length frames make the key readable: different keys, different preimages, whatever the
      other fields hold and whichever entry point framed them. */
  lemma {:induction false} FramesDiffer(a: seq<string>, b: seq<string>)
    requires a != [] && b != [] && ValidIdempotencyKey(a[0]) && ValidIdempotencyKey(b[0])
    requires Framed(a) == Framed(b)
    ensures a[0] == b[0]
  {
    KeyIsAscii(a[0]);
    KeyIsAscii(b[0]);
    AsciiBytes(a[0]);
    AsciiBytes(b[0]);
    Lp64Split(Utf8(a[0]), Framed(a[1..]), Utf8(b[0]), Framed(b[1..]));
    AsciiInjective(a[0], b[0]);
  }

  /** A valid submission under a free key is refused only if its id is taken, and then the digest
      maps two different byte strings to one id. */
  lemma RefusalIsCollision(db: Db, s: M2Submission, now: int) returns (x: bytes, y: bytes)
    requires Inv(db) && IdsBound(db) && s.Valid() && !HasKey(db, s.key)
    requires Submit2(db, s, now).reply == Delivery
    ensures x != y && (db.hash)(x) == (db.hash)(y)
  {
    var id := MessageId(db, s.Fields());
    NewRow2Ok(db, s, now);
    assert id in db.rows;
    x, y := CollisionWith(db, s.Fields(), id);
  }

  lemma Refusal3IsCollision(db: Db, s: M3Submission, now: int) returns (x: bytes, y: bytes)
    requires Inv(db) && IdsBound(db) && s.Valid() && !HasKey(db, s.key)
    requires Submit3(db, s, now).reply == Delivery
    ensures x != y && (db.hash)(x) == (db.hash)(y)
  {
    var id := MessageId(db, s.Fields());
    NewRow3Ok(db, s, now);
    assert id in db.rows;
    x, y := CollisionWith(db, s.Fields(), id);
  }

  lemma CollisionWith(db: Db, fields: seq<string>, id: string) returns (x: bytes, y: bytes)
    requires Inv(db) && IdsBound(db) && fields != [] && ValidIdempotencyKey(fields[0]) && !HasKey(db, fields[0])
    requires id == MessageId(db, fields) && id in db.rows
    ensures x != y && (db.hash)(x) == (db.hash)(y)
  {
    var row := db.rows[id];
    x := Framed(fields);
    y := if (db.hash)(M2Preimage(row)) == id then M2Preimage(row) else M3Preimage(row);
    assert row.key != fields[0];
    if x == y {
      if y == M2Preimage(row) {
        FramesDiffer(fields, [row.key, row.topic, Or(row.title, ""), row.body]);
      } else {
        FramesDiffer(fields, [row.key, row.driver, row.destination, row.payload]);
      }
    }
  }

  // ---------- Idempotent admission ----------

  lemma FindOwner(db: Db, id: string)
    requires KeysUnique(db) && id in db.rows
    ensures FindKey(db, db.rows[id].key) == Some(id)
  {
    assert HasKey(db, db.rows[id].key);
  }

  lemma Resubmission2(end: Db, id: string, s: M2Submission, t: M2Submission, later: int)
    requires Inv(end) && id in end.rows && end.rows[id].key == s.key == t.key && s.SameAs(end.rows[id]) && t.Valid()
    ensures forall other :: other in end.rows && end.rows[other].key == s.key ==> other == id
    ensures Submit2(end, t, later) == if t == s then Outcome(end, Ok(Admitted(Existing(id)))) else Refused(end)
  {
    FindOwner(end, id);
  }

  lemma Resubmission3(end: Db, id: string, s: M3Submission, t: M3Submission, later: int)
    requires Inv(end) && id in end.rows && end.rows[id].key == s.key == t.key && s.SameAs(end.rows[id]) && t.Valid()
    ensures forall other :: other in end.rows && end.rows[other].key == s.key ==> other == id
    ensures Submit3(end, t, later) == if t == s then Outcome(end, Ok(Admitted(Existing(id)))) else Refused(end)
  {
    FindOwner(end, id);
  }

  /** After an admission, under every later run: the key owns that one row; the same request
      answers with the same id and changes nothing; any other content under the key is refused
      and changes nothing. */
  lemma {:induction false} IdempotentAdmission(db: Db, s: M2Submission, now: int, steps: seq<Step>, t: M2Submission,
                                               later: int)
    requires Inv(db) && Submit2(db, s, now).reply.Ok? && t.Valid() && t.key == s.key
    ensures var accepted := Submit2(db, s, now).reply.value; var end := Run(Submit2(db, s, now).db, steps);
      && accepted.Admitted? && accepted.accepted.id in end.rows
      && (forall id :: id in end.rows && end.rows[id].key == s.key ==> id == accepted.accepted.id)
      && Submit2(end, t, later) ==
         if t == s then Outcome(end, Ok(Admitted(Existing(accepted.accepted.id)))) else Refused(end)
  {
    var first := Submit2(db, s, now);
    Submit2Keeps(db, s, now);
    var id := first.reply.value.accepted.id;
    assert id in first.db.rows && first.db.rows[id].key == s.key && s.SameAs(first.db.rows[id]);
    RunKeeps(first.db, steps);
    RunMoves(first.db, steps, id);
    Resubmission2(Run(first.db, steps), id, s, t, later);
  }

  lemma {:induction false} IdempotentAdmission3(db: Db, s: M3Submission, now: int, steps: seq<Step>, t: M3Submission,
                                                later: int)
    requires Inv(db) && Submit3(db, s, now).reply.Ok? && t.Valid() && t.key == s.key
    ensures var accepted := Submit3(db, s, now).reply.value; var end := Run(Submit3(db, s, now).db, steps);
      && accepted.Admitted? && accepted.accepted.id in end.rows
      && (forall id :: id in end.rows && end.rows[id].key == s.key ==> id == accepted.accepted.id)
      && Submit3(end, t, later) ==
         if t == s then Outcome(end, Ok(Admitted(Existing(accepted.accepted.id)))) else Refused(end)
  {
    var first := Submit3(db, s, now);
    Submit3Keeps(db, s, now);
    var id := first.reply.value.accepted.id;
    assert id in first.db.rows && first.db.rows[id].key == s.key && s.SameAs(first.db.rows[id]);
    RunKeeps(first.db, steps);
    RunMoves(first.db, steps, id);
    Resubmission3(Run(first.db, steps), id, s, t, later);
  }

  // ---------- Inbound: replay ----------

  /** A valid, enabled, unseen and unlimited callback is accepted exactly when its destination
      fits the topic column, no local submission took its key, and its id is free. */
  lemma {:induction false} InboundExact(db: Db, s: M4Submission, now: int)
    requires Inv(db) && s.Valid() && db.enabled && s.providerMessageId !in db.receipts && ValidIdempotencyKey(s.Key())
    requires s.IsNotify() ==> I64(now - WINDOW_MS) && CountAfter(db.events, s.sender, now - WINDOW_MS) < MAX_EVENTS
    ensures SubmitInbound(db, s, now).reply == Ok(Inbound(InboundAccepted)) <==>
              |s.destination| <= 64 && !HasKey(db, s.Key()) && MessageId(db, s.Fields()) !in db.rows
  {
    NewRow4Ok(db, s, now);
  }

  /** What the webhook handler passes as destination: the configured topic for `notify`, the sender
      with a plus sign for `status`. */
  predicate FromWebhook(s: M4Submission) {
    if s.IsNotify() then ValidTopic(s.destination) else s.destination == "+" + s.sender
  }

  /** Such a destination always fits, so that only a taken key or id is left to refuse it. */
  lemma {:induction false} WebhookExact(db: Db, s: M4Submission, now: int)
    requires Inv(db) && s.Valid() && db.enabled && s.providerMessageId !in db.receipts && ValidIdempotencyKey(s.Key())
    requires s.IsNotify() ==> I64(now - WINDOW_MS) && CountAfter(db.events, s.sender, now - WINDOW_MS) < MAX_EVENTS
    requires FromWebhook(s)
    ensures SubmitInbound(db, s, now).reply == Ok(Inbound(InboundAccepted)) <==>
              !HasKey(db, s.Key()) && MessageId(db, s.Fields()) !in db.rows
  {
    InboundExact(db, s, now);
    CharsFit(s.destination);
    CharsFit(s.sender);
  }

  const WIDE := M4Submission("p", seq(7, _ => '1'), "status", "ntfy", seq(65, _ => 'a'), "x")

  /** Another caller of the store may pass a valid destination that does not fit: 65 characters. */
  lemma WideDestination(db: Db, now: int)
    requires db.enabled && WIDE.providerMessageId !in db.receipts
    ensures WIDE.Valid() && ValidIdempotencyKey(WIDE.Key()) && SubmitInbound(db, WIDE, now) == Refused(db)
  {
    WideIsValid(WIDE);
    WideSubmission(db, WIDE, now);
  }

  lemma WideIsValid(w: M4Submission)
    requires w == WIDE
    ensures w.Valid() && ValidIdempotencyKey(w.Key())
  {
    ShortAscii(w.providerMessageId);
    ShortAscii(w.Key());
    ShortAscii(w.sender);
    ShortAscii(w.destination);
    ShortAscii(w.payload);
  }

  lemma ShortAscii(s: string)
    requires Ascii(s) && 1 <= |s| <= 100 && '\0' !in s
    ensures ByteLen(s) == |s| && ValidText(s, 100)
  {
    AsciiBytes(s);
  }

  lemma WideSubmission(db: Db, s: M4Submission, now: int)
    requires s.Valid() && db.enabled && s.providerMessageId !in db.receipts && s.verb == "status"
        && |s.destination| > 64
    requires ValidIdempotencyKey(s.Key())
    ensures SubmitInbound(db, s, now) == Refused(db)
  {
    assert !s.IsNotify();
  }

  lemma ReceiptsGrow(db: Db, step: Step)
    ensures forall p :: p in db.receipts ==>
        p in Next(db, step).receipts && Next(db, step).receipts[p] == db.receipts[p]
  {
  }

  lemma {:induction false} ReceiptsStay(db: Db, steps: seq<Step>)
    ensures forall p :: p in db.receipts ==>
        p in Run(db, steps).receipts && Run(db, steps).receipts[p] == db.receipts[p]
  {
    if steps != [] {
      ReceiptsStay(db, Prefix(steps));
      ReceiptsGrow(Run(db, Prefix(steps)), steps[|steps| - 1]);
    }
  }

  lemma InboundAppears(db: Db, s: M4Submission, now: int)
    requires SubmitInbound(db, s, now).reply == Ok(Inbound(InboundAccepted))
    ensures var next := SubmitInbound(db, s, now).db;
      && !HasKey(db, s.Key()) && next.rows == db.rows[MessageId(db, s.Fields()) := s.NewRow(now)]
      && next.receipts == db.receipts[s.providerMessageId := Receipt(s.sender, s.verb, now)]
  {
  }

  /** An accepted callback leaves one receipt and one message, queued under key m4-<id>. */
  lemma InboundRecords(db: Db, s: M4Submission, now: int)
    requires Inv(db) && SubmitInbound(db, s, now).reply == Ok(Inbound(InboundAccepted))
    ensures var next := SubmitInbound(db, s, now).db;
      && Inv(next) && !HasKey(db, s.Key())
      && next.rows == db.rows[MessageId(db, s.Fields()) := s.NewRow(now)]
      && next.receipts == db.receipts[s.providerMessageId := Receipt(s.sender, s.verb, now)]
  {
    InboundKeeps(db, s, now);
    InboundAppears(db, s, now);
  }

  /** Under every later run that message stays the only one with its key, and a repetition of the
      callback changes nothing and is never accepted again. */
  lemma {:induction false} InboundOnce(db: Db, s: M4Submission, now: int, steps: seq<Step>, t: M4Submission, later: int)
    requires Inv(db) && SubmitInbound(db, s, now).reply == Ok(Inbound(InboundAccepted))
    requires t.providerMessageId == s.providerMessageId
    ensures var end := Run(SubmitInbound(db, s, now).db, steps); var id := MessageId(db, s.Fields());
      && id in end.rows && SameContent(s.NewRow(now), end.rows[id])
      && (forall other :: other in end.rows && end.rows[other].key == s.Key() ==> other == id)
      && SubmitInbound(end, t, later).db == end
      && SubmitInbound(end, t, later).reply != Ok(Inbound(InboundAccepted))
  {
    InboundRecords(db, s, now);
    var next := SubmitInbound(db, s, now).db;
    RunKeeps(next, steps);
    RunMoves(next, steps, MessageId(db, s.Fields()));
    ReceiptsStay(next, steps);
  }

  // ---------- Inbound: rate ----------

  /** Accepted events of `sender` in the half-open window [start, start + 600000). */
  function InWindow(events: seq<RateEvent>, sender: string, start: int): nat {
    if events == [] then 0
    else InWindow(events[..|events| - 1], sender, start)
         + if events[|events| - 1].sender == sender && start <= events[|events| - 1].acceptedAt < start + WINDOW_MS
             then 1 else 0
  }

  ghost predicate RateOk(events: seq<RateEvent>) {
    forall sender, start :: InWindow(events, sender, start) <= MAX_EVENTS
  }

  lemma {:induction false} WindowWithinCount(events: seq<RateEvent>, sender: string, start: int, now: int)
    requires start <= now < start + WINDOW_MS
    ensures InWindow(events, sender, start) <= CountAfter(events, sender, now - WINDOW_MS)
  {
    if events != [] {
      WindowWithinCount(events[..|events| - 1], sender, start, now);
    }
  }

  lemma {:induction false} EventKeepsRate(events: seq<RateEvent>, sender: string, now: int)
    requires RateOk(events) && CountAfter(events, sender, now - WINDOW_MS) < MAX_EVENTS
    ensures RateOk(events + [RateEvent(sender, now)])
  {
    var more := events + [RateEvent(sender, now)];
    assert more[..|events|] == events;
    forall s, start
      ensures InWindow(more, s, start) <= MAX_EVENTS
    {
      if start <= now < start + WINDOW_MS {
        WindowWithinCount(events, sender, start, now);
      }
    }
  }

  lemma InboundKeepsRate(db: Db, s: M4Submission, now: int)
    requires RateOk(db.events)
    ensures RateOk(SubmitInbound(db, s, now).db.events)
  {
    if SubmitInbound(db, s, now).db.events != db.events {
      EventKeepsRate(db.events, s.sender, now);
    }
  }

  lemma StepKeepsRate(db: Db, step: Step)
    requires RateOk(db.events)
    ensures RateOk(Next(db, step).events)
  {
    if step.DoInbound? {
      InboundKeepsRate(db, step.s4, step.now);
    }
  }

  /** For every sender and every sequence of clock readings, also backward ones, no window of
      600000 ms ever holds more than four accepted notifications. */
  lemma {:induction false} RunKeepsRate(db: Db, steps: seq<Step>)
    requires RateOk(db.events)
    ensures RateOk(Run(db, steps).events)
  {
    if steps != [] {
      RunKeepsRate(db, Prefix(steps));
      StepKeepsRate(Run(db, Prefix(steps)), steps[|steps| - 1]);
    }
  }

  // ---------- The six counters ----------

  function WithState(db: Db, state: State): set<string> {
    set id | id in db.rows && db.rows[id].state == state
  }

  /** The six counters of the status report add up to the number of messages. */
  lemma SummaryAddsUp(db: Db)
    ensures var s := Summary(db);
      s.queued + s.retryScheduled + s.sending + s.providerAccepted + s.failed + s.ambiguous == |db.rows|
  {
    InFlight(db);
    Settled(db);
    assert |db.rows.Keys| == |db.rows|;
  }

  function SettledIds(db: Db): set<string> {
    set id | id in db.rows && db.rows[id].state in {ProviderAccepted, Failed, Ambiguous}
  }

  lemma InFlight(db: Db)
    ensures |db.rows.Keys| ==
              CountState(db, Queued) + CountState(db, RetryScheduled) + CountState(db, Sending) + |SettledIds(db)|
  {
    var all := db.rows.Keys;
    Peel(db, all, Queued);
    var more := all - WithState(db, Queued);
    Peel(db, more, RetryScheduled);
    var rest := more - WithState(db, RetryScheduled);
    Peel(db, rest, Sending);
    NotInFlight(db);
  }

  lemma NotInFlight(db: Db)
    ensures db.rows.Keys - WithState(db, Queued) - WithState(db, RetryScheduled) - WithState(db, Sending)
            == SettledIds(db)
  {
  }

  lemma Settled(db: Db)
    ensures |SettledIds(db)| == CountState(db, ProviderAccepted) + CountState(db, Failed) + CountState(db, Ambiguous)
  {
    var all := SettledIds(db);
    Peel(db, all, ProviderAccepted);
    var more := all - WithState(db, ProviderAccepted);
    Peel(db, more, Failed);
    var rest := more - WithState(db, Failed);
    Peel(db, rest, Ambiguous);
    assert rest - WithState(db, Ambiguous) == {};
  }

  lemma Peel(db: Db, ids: set<string>, state: State)
    requires forall id :: id in db.rows && db.rows[id].state == state ==> id in ids
    ensures |ids| == CountState(db, state) + |ids - WithState(db, state)|
  {
    assert ids == WithState(db, state) + (ids - WithState(db, state));
  }
}
