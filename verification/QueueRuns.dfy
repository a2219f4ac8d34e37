/** What holds of every message over whole runs of the queue: its life cycle, its content and its
    attempt budget. */
module QueueRuns {
  import opened Wrappers
  import opened Bytes
  import opened Text
  import opened Queue
  import opened QueueInvariant

  // ---------- The life of one message ----------

  /** The only ways a message changes state. */
  predicate Edge(before: State, after: State) {
    match before
    case Queued => after == Sending
    case RetryScheduled => after == Sending
    case Sending => after in {ProviderAccepted, RetryScheduled, Failed, Ambiguous}
    case Failed => after == Queued
    case ProviderAccepted => false
    case Ambiguous => false
  }

  predicate RowStep(before: Row, after: Row, claimed: bool) {
    && SameContent(before, after)
    && (before == after || Edge(before.state, after.state))
    && (claimed <==> before.state in {Queued, RetryScheduled} && after.state == Sending)
    && after.attempts == before.attempts + (if claimed then 1 else 0)
  }

  ghost function Next(db: Db, step: Step): Db { Apply(db, step).db }

  predicate Admission(step: Step) {
    step.DoSubmit2? || step.DoSubmit3? || step.DoInbound?
  }

  lemma ClaimMoves(db: Db, now: int, id: string)
    requires Inv(db) && id in db.rows
    ensures var out := Claim(db, now);
      id in out.db.rows && RowStep(db.rows[id], out.db.rows[id], out.reply == Ok(Claimed(id)))
  {
    var out := Claim(db, now);
    if out.reply.Ok? && out.reply.value.Claimed? {
      var first := FirstDue(db, now).value;
      assert out.db.rows == db.rows[first := Sent(db.rows[first], now)];
    }
  }

  lemma RecoverMoves(db: Db, now: int, id: string)
    requires Inv(db) && id in db.rows
    ensures var out := Recover(db, now); id in out.db.rows && RowStep(db.rows[id], out.db.rows[id], false)
    ensures Recover(db, now).db.rows[id].state != Sending
  {
    RecoverKeeps(db, now);
  }

  /** Admission inserts at most the row of its own id, which was free. */
  lemma AdmissionMoves(db: Db, step: Step)
    requires Admission(step)
    ensures forall id :: id in db.rows ==> id in Next(db, step).rows && Next(db, step).rows[id] == db.rows[id]
    ensures forall id :: Apply(db, step).reply != Ok(Claimed(id))
  {
    match step
    case DoSubmit2(s, now) =>
    case DoSubmit3(s, now) =>
    case DoInbound(s, now) =>
  }

  lemma OneRowMoves(db: Db, i: string, row: Row, reply: Reply, id: string)
    requires i in db.rows && id in db.rows && RowStep(db.rows[i], row, false)
    ensures var next := Committed(db, Update(db, i, row), reply).db;
      id in next.rows && RowStep(db.rows[id], next.rows[id], false)
  {
  }

  lemma TransitionMoves(db: Db, i: string, statement: Statement, now: int, id: string)
    requires id in db.rows
    ensures var next := Transition(db, i, statement, now).db;
        id in next.rows && RowStep(db.rows[id], next.rows[id], false)
  {
    if IsSending(db, i) {
      OneRowMoves(db, i, Execute(statement, db.rows[i], now), Done, id);
    }
  }

  /** Recording an outcome or requeueing moves at most the row it names. */
  lemma MarkMoves(db: Db, step: Step, id: string)
    requires id in db.rows
    requires step.DoAccepted? || step.DoFailed? || step.DoAmbiguous? || step.DoRequeue?
    ensures id in Next(db, step).rows
    ensures RowStep(db.rows[id], Next(db, step).rows[id], false)
    ensures forall i :: Apply(db, step).reply != Ok(Claimed(i))
  {
    match step
    case DoAccepted(i, ack, now) => TransitionMoves(db, i, SetAccepted(ack), now, id);
    case DoFailed(i, reason, now) => TransitionMoves(db, i, SetFailed(reason), now, id);
    case DoAmbiguous(i, reason, now) => TransitionMoves(db, i, SetAmbiguous(reason), now, id);
    case DoRequeue(i, now) =>
      if i in db.rows && db.rows[i].state == Failed {
        OneRowMoves(db, i, QueuedAgain(db.rows[i], now), Requeued(true), id);
      }
  }

  lemma RetryMoves(db: Db, step: Step, id: string)
    requires id in db.rows && step.DoRetry?
    ensures id in Next(db, step).rows
    ensures RowStep(db.rows[id], Next(db, step).rows[id], false)
    ensures forall i :: Apply(db, step).reply != Ok(Claimed(i))
  {
    if IsSending(db, step.id) {
      var statement := if db.rows[step.id].attempts < 5 then SetRetry(step.now + step.delayMs)
        else SetFailed(step.reason);
      TransitionMoves(db, step.id, statement, step.now, id);
    }
  }

  lemma UnmovedBy(db: Db, step: Step, id: string)
    requires id in db.rows && (Admission(step) || step.DoSetInbound?)
    ensures id in Next(db, step).rows
    ensures RowStep(db.rows[id], Next(db, step).rows[id], false) && Apply(db, step).reply != Ok(Claimed(id))
  {
    if Admission(step) {
      AdmissionMoves(db, step);
    }
  }

  /** Every step moves every message along an edge or not at all, never touches its content, and
      counts an attempt exactly when it claims the message. */
  lemma StepMoves(db: Db, step: Step, id: string)
    requires Inv(db) && id in db.rows
    ensures id in Next(db, step).rows
    ensures RowStep(db.rows[id], Next(db, step).rows[id], Apply(db, step).reply == Ok(Claimed(id)))
  {
    if step.DoClaim? {
      ClaimMoves(db, step.now, id);
    } else if step.DoRecover? {
      RecoverMoves(db, step.now, id);
    } else if step.DoRetry? {
      RetryMoves(db, step, id);
    } else if Admission(step) || step.DoSetInbound? {
      UnmovedBy(db, step, id);
    } else {
      MarkMoves(db, step, id);
    }
  }

  // ---------- Attempts ----------

  function Prefix(steps: seq<Step>): seq<Step>
    requires steps != []
  {
    steps[..|steps| - 1]
  }

  /** How many steps of the run claim message `id`. */
  ghost function Claims(db: Db, steps: seq<Step>, id: string): nat {
    if steps == [] then 0
    else Claims(db, Prefix(steps), id)
         + if Apply(Run(db, Prefix(steps)), steps[|steps| - 1]).reply == Ok(Claimed(id)) then 1 else 0
  }

  function AttemptsOf(db: Db, id: string): int {
    if id in db.rows then db.rows[id].attempts else 0
  }

  lemma OnlyAdmissionInserts(db: Db, step: Step)
    requires !Admission(step)
    ensures Next(db, step).rows.Keys == db.rows.Keys
  {
    match step
    case DoClaim(now) =>
    case DoRecover(now) =>
    case _ =>
  }

  /** A new message starts queued, without attempts, due at the instant of its admission. */
  lemma FreshRow(db: Db, step: Step, id: string)
    requires id !in db.rows && id in Next(db, step).rows
    ensures Admission(step) && Apply(db, step).reply != Ok(Claimed(id))
    ensures var row := Next(db, step).rows[id];
      && row.attempts == 0 && row.state == Queued && row.createdAt == step.now && row.nextAttempt == Some(step.now)
      && (step.DoSubmit2? ==> row == step.s2.NewRow(step.now) && id == MessageId(db, step.s2.Fields()))
      && (step.DoSubmit3? ==> row == step.s3.NewRow(step.now) && id == MessageId(db, step.s3.Fields()))
      && (step.DoInbound? ==> row == step.s4.NewRow(step.now) && id == MessageId(db, step.s4.Fields()))
  {
    if !Admission(step) {
      OnlyAdmissionInserts(db, step);
    }
    match step
    case DoSubmit2(s, now) =>
    case DoSubmit3(s, now) =>
    case DoInbound(s, now) =>
  }

  lemma ClaimsInTable(db: Db, step: Step, id: string)
    requires Apply(db, step).reply == Ok(Claimed(id))
    ensures id in db.rows && step.DoClaim? && IsFirstDue(db, step.now, id)
  {
    if Admission(step) {
      AdmissionMoves(db, step);
    }
  }

  /** Over every run the attempts column counts the claims, and both stay within five, whatever
      the operator requeues. */
  lemma {:induction false} AttemptsAreClaims(db: Db, steps: seq<Step>, id: string)
    requires Inv(db)
    ensures AttemptsOf(Run(db, steps), id) == AttemptsOf(db, id) + Claims(db, steps, id)
    ensures 0 <= AttemptsOf(Run(db, steps), id) <= 5
    ensures id in db.rows ==> id in Run(db, steps).rows
  {
    RunKeeps(db, steps);
    if steps != [] {
      var before, step := Run(db, Prefix(steps)), steps[|steps| - 1];
      AttemptsAreClaims(db, Prefix(steps), id);
      RunKeeps(db, Prefix(steps));
      if id in before.rows {
        StepMoves(before, step, id);
      } else {
        if id in Next(before, step).rows {
          FreshRow(before, step, id);
        }
        if Apply(before, step).reply == Ok(Claimed(id)) {
          ClaimsInTable(before, step, id);
        }
      }
    }
  }

  /** A message's content never changes, and `provider_accepted` and `ambiguous` are never left. */
  lemma {:induction false} RunMoves(db: Db, steps: seq<Step>, id: string)
    requires Inv(db) && id in db.rows
    ensures id in Run(db, steps).rows && SameContent(db.rows[id], Run(db, steps).rows[id])
    ensures db.rows[id].state in {ProviderAccepted, Ambiguous} ==> Run(db, steps).rows[id].state == db.rows[id].state
  {
    if steps != [] {
      RunMoves(db, Prefix(steps), id);
      RunKeeps(db, Prefix(steps));
      StepMoves(Run(db, Prefix(steps)), steps[|steps| - 1], id);
    }
  }
}
