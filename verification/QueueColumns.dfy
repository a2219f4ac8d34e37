/** What the transactions of crates/msgriver-store/src/lib.rs leave in the table, column by column. */
module QueueColumns {
  import opened Wrappers
  import opened Bytes
  import opened Text
  import opened Queue
  import opened QueueInvariant
  import opened QueueRuns

  /** All but the row `id` stays as it was. */
  ghost predicate OnlyRow(before: Db, after: Db, id: string) {
    && after.hash == before.hash && after.enabled == before.enabled
    && after.receipts == before.receipts && after.events == before.events
    && after.rows.Keys == before.rows.Keys
    && forall other :: other in before.rows && other != id ==> after.rows[other] == before.rows[other]
  }

  // ---------- Admission ----------

  /** A row that waits for its first claim, due at once. */
  ghost predicate Waiting(row: Row, now: int) {
    && row.state == Queued && row.attempts == 0 && row.nextAttempt == Some(now)
    && row.providerAck == None && row.lastError == None && row.createdAt == now && row.updatedAt == now
  }

  /** The row of a new message holds the fields of its submission, and its id is their digest. */
  lemma AdmittedColumns(db: Db, step: Step, id: string)
    requires id !in db.rows && id in Next(db, step).rows
    ensures Admission(step)
    ensures var row := Next(db, step).rows[id];
      && Waiting(row, step.now)
      && (step.DoSubmit2? ==>
            row.key == step.s2.key && row.driver == "ntfy" && row.destination == row.topic == step.s2.topic
            && row.title == step.s2.title && row.body == step.s2.body && row.payload == ""
            && id == MessageId(db, [row.key, row.topic, if row.title.Some? then row.title.value else "", row.body]))
      && (step.DoSubmit3? ==>
            row.key == step.s3.key && row.driver == row.topic == step.s3.driver
                && row.destination == step.s3.destination
            && row.payload == row.body == step.s3.payload && row.title == None
            && id == MessageId(db, [row.key, row.driver, row.destination, row.payload]))
      && (step.DoInbound? ==>
            row.key == "m4-" + step.s4.providerMessageId && row.driver == step.s4.driver && row.title == None
            && row.destination == row.topic == step.s4.destination && row.payload == row.body == step.s4.payload
            && id == MessageId(db, [row.key, row.driver, row.destination, row.payload]))
  {
    FreshRow(db, step, id);
  }

  // ---------- Claims ----------

  /** a is a proper prefix of b, or has the smaller character where they first differ. */
  ghost predicate TextBefore(a: string, b: string) {
    exists n: nat :: n <= |a| && n < |b| && a[..n] == b[..n] && (n < |a| ==> a[n] < b[n])
  }

  lemma PrefixGrows(a: string, b: string, n: nat)
    requires n < |a| && n < |b| && a[0] == b[0] && a[1..][..n] == b[1..][..n]
    ensures a[..n + 1] == b[..n + 1]
  {
    assert a[..n + 1] == [a[0]] + a[1..][..n] && b[..n + 1] == [b[0]] + b[1..][..n];
  }

  lemma {:induction false} LexLessIsBefore(a: string, b: string)
    requires LexLess(a, b)
    ensures TextBefore(a, b)
  {
    if a == [] || a[0] < b[0] {
      assert a[..0] == b[..0];
    } else {
      LexLessIsBefore(a[1..], b[1..]);
      var n: nat :| n <= |a[1..]| && n < |b[1..]| && a[1..][..n] == b[1..][..n]
                    && (n < |a[1..]| ==> a[1..][n] < b[1..][n]);
      PrefixGrows(a, b, n);
    }
  }

  /** Waiting for a claim, and not in the future. */
  ghost predicate MayClaim(row: Row, now: int) {
    (row.state == Queued || row.state == RetryScheduled) && row.nextAttempt.Some? && row.nextAttempt.value <= now
  }

  /** The claimed message is the oldest that may be claimed, by id among those of one age; it alone
      changes, and spends an attempt. */
  lemma ClaimColumns(db: Db, now: int, id: string)
    requires Claim(db, now).reply == Ok(Claimed(id))
    ensures id in db.rows && MayClaim(db.rows[id], now) && OnlyRow(db, Claim(db, now).db, id)
    ensures forall other :: other in db.rows && other != id && MayClaim(db.rows[other], now) ==>
      && db.rows[id].createdAt <= db.rows[other].createdAt
      && (db.rows[id].createdAt == db.rows[other].createdAt ==> TextBefore(id, other))
    ensures var was, row := db.rows[id], Claim(db, now).db.rows[id];
      && SameContent(was, row) && row.state == Sending && row.attempts == was.attempts + 1 && row.nextAttempt == None
      && row.providerAck == was.providerAck && row.lastError == was.lastError && row.updatedAt == now
  {
    forall other | other in db.rows && other != id && MayClaim(db.rows[other], now)
        && db.rows[id].createdAt == db.rows[other].createdAt
      ensures TextBefore(id, other)
    {
      assert Due(db.rows[other], now);
      LexLessIsBefore(id, other);
    }
  }

  // ---------- Recovery and requeueing ----------

  /** Recovery settles every message in flight as ambiguous, with a fixed reason, and no other. */
  lemma RecoverColumns(db: Db, now: int, id: string)
    requires Inv(db) && id in db.rows
    ensures id in Recover(db, now).db.rows
    ensures var was, row := db.rows[id], Recover(db, now).db.rows[id];
      if was.state != Sending then row == was
      else
        && SameContent(was, row) && row.state == Ambiguous && row.attempts == was.attempts && row.updatedAt == now
        && row.lastError == Some("interrupted external delivery may have occurred")
        && row.nextAttempt == None && row.providerAck == None
  {
    RecoverKeeps(db, now);
    assert RowOk(id, db.rows[id]);
  }

  /** A requeued message waits again, its attempts kept. */
  lemma RequeueColumns(db: Db, id: string, now: int)
    requires Inv(db) && Requeue(db, id, now).reply == Ok(Requeued(true))
    ensures id in db.rows && db.rows[id].state == Failed && OnlyRow(db, Requeue(db, id, now).db, id)
    ensures var was, row := db.rows[id], Requeue(db, id, now).db.rows[id];
      && SameContent(was, row) && row.state == Queued && row.attempts == was.attempts && row.nextAttempt == Some(now)
      && row.providerAck == None && row.lastError == None && row.updatedAt == now
  {
    assert RowOk(id, db.rows[id]);
  }

  lemma SettledOnce(db: Db, step: Step, id: string)
    requires Inv(db) && id in db.rows && db.rows[id].state in {Ambiguous, ProviderAccepted}
    ensures id in Next(db, step).rows && Next(db, step).rows[id] == db.rows[id]
    ensures Apply(db, step).reply != Ok(Claimed(id))
    ensures step.DoRequeue? && step.id == id ==> Apply(db, step).reply != Ok(Requeued(true))
  {
    StepMoves(db, step, id);
  }

  /** An ambiguous or accepted message stays as it is, column by column, through every run, and no
      step ever claims or requeues it. */
  lemma {:induction false} SettledForever(db: Db, steps: seq<Step>, id: string, step: Step)
    requires Inv(db) && id in db.rows && db.rows[id].state in {Ambiguous, ProviderAccepted}
    ensures id in Run(db, steps).rows && Run(db, steps).rows[id] == db.rows[id]
    ensures Apply(Run(db, steps), step).reply != Ok(Claimed(id))
    ensures step.DoRequeue? && step.id == id ==> Apply(Run(db, steps), step).reply != Ok(Requeued(true))
  {
    RunKeeps(db, steps);
    if steps != [] {
      SettledForever(db, Prefix(steps), id, step);
      RunKeeps(db, Prefix(steps));
      SettledOnce(Run(db, Prefix(steps)), steps[|steps| - 1], id);
    }
    SettledOnce(Run(db, steps), step, id);
  }

  // ---------- Limits ----------

  /** An accepted event of the sender within the window that ends at `now`. */
  ghost predicate Counts(e: RateEvent, sender: string, now: int) { e.sender == sender && e.acceptedAt > now - 600_000 }

  ghost predicate FourAt(events: seq<RateEvent>, sender: string, now: int, a: nat, b: nat, c: nat, d: nat) {
    && a < b < c < d < |events| && Counts(events[a], sender, now) && Counts(events[b], sender, now)
    && Counts(events[c], sender, now) && Counts(events[d], sender, now)
  }

  /** Four accepted events of the sender, each less than ten minutes ago. */
  ghost predicate FourEvents(events: seq<RateEvent>, sender: string, now: int) {
    exists a, b, c, d :: FourAt(events, sender, now, a, b, c, d)
  }

  ghost function Positions(events: seq<RateEvent>, sender: string, now: int): set<nat> {
    set i: nat | i < |events| && Counts(events[i], sender, now)
  }

  lemma {:induction false} CountIsPositions(events: seq<RateEvent>, sender: string, now: int)
    ensures CountAfter(events, sender, now - 600_000) == |Positions(events, sender, now)|
  {
    if events != [] {
      var last := |events| - 1;
      CountIsPositions(events[..last], sender, now);
      var before, all := Positions(events[..last], sender, now), Positions(events, sender, now);
      assert all == before + if Counts(events[last], sender, now) then {last} else {};
    }
  }

  lemma TakeLeast(s: set<nat>) returns (least: nat)
    requires s != {}
    ensures least in s && forall i :: i in s ==> least <= i
    ensures |s - {least}| == |s| - 1
    decreases s
  {
    least :| least in s;
    if i :| i in s && i < least {
      var some := least;
      assert i in s - {some};
      least := TakeLeast(s - {some});
      assert forall k :: k in s ==> k == some || k in s - {some};
    }
  }

  lemma FourPositions(p: set<nat>) returns (a: nat, b: nat, c: nat, d: nat)
    requires |p| >= 4
    ensures a in p && b in p && c in p && d in p && a < b < c < d
  {
    a := TakeLeast(p);
    b := TakeLeast(p - {a});
    c := TakeLeast(p - {a} - {b});
    d := TakeLeast(p - {a} - {b} - {c});
  }

  lemma FourOrMore(p: set<nat>, a: nat, b: nat, c: nat, d: nat)
    requires a in p && b in p && c in p && d in p && a < b < c < d
    ensures |p| >= 4
  {
    Within({a, b, c, d}, p);
  }

  lemma FourEnough(events: seq<RateEvent>, sender: string, now: int)
    requires |Positions(events, sender, now)| >= 4
    ensures FourEvents(events, sender, now)
  {
    var a, b, c, d := FourPositions(Positions(events, sender, now));
    assert FourAt(events, sender, now, a, b, c, d);
  }

  lemma {:induction false} FourCounted(events: seq<RateEvent>, sender: string, now: int)
    ensures FourEvents(events, sender, now) <==> CountAfter(events, sender, now - 600_000) >= 4
  {
    CountIsPositions(events, sender, now);
    if |Positions(events, sender, now)| >= 4 {
      FourEnough(events, sender, now);
    }
    if FourEvents(events, sender, now) {
      var a, b, c, d :| FourAt(events, sender, now, a, b, c, d);
      FourOrMore(Positions(events, sender, now), a, b, c, d);
    }
  }

  /** A notification is refused for its rate exactly after four in the window. */
  lemma RateExact(db: Db, s: M4Submission, now: int)
    requires s.Valid() && db.enabled && s.providerMessageId !in db.receipts && I64(now - 600_000)
    ensures SubmitInbound(db, s, now).reply == Ok(Inbound(RateLimited)) <==>
              s.verb == "notify" && FourEvents(db.events, s.sender, now)
  {
    FourCounted(db.events, s.sender, now);
  }

  lemma {:induction false} Within<T>(a: set<T>, b: set<T>)
    requires a <= b
    ensures |a| <= |b|
  {
    assert b == a + (b - a);
  }

  /** Each counter counts the messages in its state. */
  lemma SummaryCounts(db: Db)
    ensures Summary(db).queued == |set id | id in db.rows && db.rows[id].state == Queued|
    ensures Summary(db).retryScheduled == |set id | id in db.rows && db.rows[id].state == RetryScheduled|
    ensures Summary(db).sending == |set id | id in db.rows && db.rows[id].state == Sending|
    ensures Summary(db).providerAccepted == |set id | id in db.rows && db.rows[id].state == ProviderAccepted|
    ensures Summary(db).failed == |set id | id in db.rows && db.rows[id].state == Failed|
    ensures Summary(db).ambiguous == |set id | id in db.rows && db.rows[id].state == Ambiguous|
  {
  }

  ghost predicate LetterOrDigit(c: char) { 'a' <= c <= 'z' || 'A' <= c <= 'Z' || '0' <= c <= '9' }

  /** Keys, topics, senders and message ids, in characters. */
  lemma FieldLimits(value: string)
    ensures ValidIdempotencyKey(value) <==>
              1 <= |value| <= 128 && forall c :: c in value ==> LetterOrDigit(c) || c in {'-', '_', '.'}
    ensures ValidTopic(value) <==>
              1 <= |value| <= 64 && forall c :: c in value ==> LetterOrDigit(c) || c in {'-', '_'}
    ensures ValidPhoneSender(value) <==> 7 <= |value| <= 20 && forall c :: c in value ==> '0' <= c <= '9'
  {
    assert forall i :: 0 <= i < |value| ==> value[i] in value;
    if forall i :: 0 <= i < |value| ==> value[i] as int < 0x80 {
      AsciiBytes(value);
    }
  }
}
