/** Which message a claim takes, how often others can be taken before it, and the one way a
    message can block the queue. */
module QueueOrder {
  import opened Wrappers
  import opened Bytes
  import opened Text
  import opened Queue
  import opened QueueInvariant
  import opened QueueRuns

  // ---------- The claim order ----------

  lemma BeforeIsTotal(db: Db, a: string, b: string)
    requires a in db.rows && b in db.rows && a != b
    ensures Before(db, a, b) || Before(db, b, a)
    ensures !(Before(db, a, b) && Before(db, b, a))
  {
    LexTotal(a, b);
    if LexLess(a, b) && LexLess(b, a) {
      LexTransitive(a, b, a);
      LexIrreflexive(a);
    }
  }

  lemma BeforeIsTransitive(db: Db, a: string, b: string, c: string)
    requires a in db.rows && b in db.rows && c in db.rows
    requires Before(db, a, b) && Before(db, b, c)
    ensures Before(db, a, c)
  {
    if LexLess(a, b) && LexLess(b, c) {
      LexTransitive(a, b, c);
    }
  }

  lemma {:induction false} LeastExists(db: Db, ids: set<string>) returns (least: string)
    requires ids != {} && forall id :: id in ids ==> id in db.rows
    ensures least in ids && forall id :: id in ids && id != least ==> Before(db, least, id)
    decreases |ids|
  {
    var some :| some in ids;
    var rest := ids - {some};
    assert ids == rest + {some};
    if rest == {} {
      least := some;
    } else {
      least := LeastExists(db, rest);
      BeforeIsTotal(db, some, least);
      if Before(db, some, least) {
        forall id | id in ids && id != some
          ensures Before(db, some, id)
        {
          if id != least {
            BeforeIsTransitive(db, some, least, id);
          }
        }
        least := some;
      }
    }
  }

  lemma FirstDueIsUnique(db: Db, now: int, a: string, b: string)
    requires IsFirstDue(db, now, a) && IsFirstDue(db, now, b)
    ensures a == b
  {
    if a != b {
      BeforeIsTotal(db, a, b);
    }
  }

  lemma FirstDueExists(db: Db, now: int)
    ensures FirstDue(db, now).None? <==> NoneDue(db, now)
  {
    var due := set id | id in db.rows && Due(db.rows[id], now);
    assert forall id :: id in due <==> id in db.rows && Due(db.rows[id], now);
    if due != {} {
      var least := LeastExists(db, due);
      assert IsFirstDue(db, now, least);
    }
  }

  /** A claim finds nothing exactly when nothing is due; it takes a message exactly when that is
      the first due one and has attempts left; it fails, and changes nothing, exactly when the
      first due message has already used its five attempts. */
  lemma ClaimExact(db: Db, now: int)
    requires Inv(db)
    ensures Claim(db, now).reply == Ok(NothingDue) <==> NoneDue(db, now)
    ensures forall id :: Claim(db, now).reply == Ok(Claimed(id)) <==>
        IsFirstDue(db, now, id) && db.rows[id].attempts < 5
    ensures Claim(db, now) == Refused(db) <==> exists id :: IsFirstDue(db, now, id) && db.rows[id].attempts == 5
  {
    FirstDueExists(db, now);
    forall id | IsFirstDue(db, now, id)
      ensures FirstDue(db, now) == Some(id)
    {
      FirstDueIsUnique(db, now, id, FirstDue(db, now).value);
    }
    if FirstDue(db, now).Some? {
      var id := FirstDue(db, now).value;
      assert RowOk(id, db.rows[id]);
      assert RowOk(id, Sent(db.rows[id], now)) <==> db.rows[id].attempts < 5;
      assert db.rows[id := Sent(db.rows[id], now)][id].attempts == db.rows[id].attempts + 1;
    }
  }

  // ---------- Bounded overtaking ----------

  /** The messages that come before `id` in claim order. */
  ghost function Ahead(db: Db, id: string): set<string>
    requires id in db.rows
  {
    set other | other in db.rows && Before(db, other, id)
  }

  /** How many steps of the run claim a message of `ids`. */
  ghost function ClaimsAmong(db: Db, steps: seq<Step>, ids: set<string>): nat {
    if steps == [] then 0
    else ClaimsAmong(db, Prefix(steps), ids)
         + match Apply(Run(db, Prefix(steps)), steps[|steps| - 1]).reply
           case Ok(Claimed(id)) => if id in ids then 1 else 0
           case _ => 0
  }

  /** How many steps of the run claim any message. */
  ghost function AllClaims(db: Db, steps: seq<Step>): nat {
    if steps == [] then 0
    else AllClaims(db, Prefix(steps))
         + match Apply(Run(db, Prefix(steps)), steps[|steps| - 1]).reply
           case Ok(Claimed(id)) => 1
           case _ => 0
  }

  lemma {:induction false} ClaimsSplit(db: Db, steps: seq<Step>, ids: set<string>, id: string)
    requires id in ids
    ensures ClaimsAmong(db, steps, ids) == ClaimsAmong(db, steps, ids - {id}) + Claims(db, steps, id)
  {
    if steps != [] {
      ClaimsSplit(db, Prefix(steps), ids, id);
    }
  }

  lemma {:induction false} NoClaimsAmongNone(db: Db, steps: seq<Step>)
    ensures ClaimsAmong(db, steps, {}) == 0
  {
    if steps != [] {
      NoClaimsAmongNone(db, Prefix(steps));
    }
  }

  /** Five claims a message, over any run. */
  lemma {:induction false} ClaimBudget(db: Db, steps: seq<Step>, ids: set<string>)
    requires Inv(db)
    ensures ClaimsAmong(db, steps, ids) <= 5 * |ids|
    decreases |ids|
  {
    if ids == {} {
      NoClaimsAmongNone(db, steps);
    } else {
      var id :| id in ids;
      ClaimsSplit(db, steps, ids, id);
      ClaimBudget(db, steps, ids - {id});
      AttemptsAreClaims(db, steps, id);
      AttemptsAreClaims(db, [], id);
      assert |ids - {id}| == |ids| - 1;
    }
  }

  /** Claims in the run happen no earlier than `from`. */
  ghost predicate ClaimsFrom(steps: seq<Step>, from: int) {
    forall i :: 0 <= i < |steps| && steps[i].DoClaim? ==> steps[i].now >= from
  }

  lemma AheadGrows(db: Db, step: Step, id: string)
    requires Inv(db) && id in db.rows
    ensures id in Next(db, step).rows && Ahead(db, id) <= Ahead(Next(db, step), id)
  {
    StepMoves(db, step, id);
    forall other | other in Ahead(db, id)
      ensures other in Ahead(Next(db, step), id)
    {
      StepMoves(db, step, other);
    }
  }

  /** While a due message waits, every claim that succeeds takes a message ahead of it. */
  lemma {:induction false} ClaimsAreAhead(db: Db, steps: seq<Step>, id: string, from: int)
    requires Inv(db) && id in db.rows && Due(db.rows[id], from)
    requires ClaimsFrom(steps, from) && Claims(db, steps, id) == 0
    ensures var end := Run(db, steps);
      && id in end.rows && end.rows[id] == db.rows[id]
      && forall ids :: Ahead(end, id) <= ids ==> AllClaims(db, steps) == ClaimsAmong(db, steps, ids)
  {
    if steps != [] {
      var before, step := Run(db, Prefix(steps)), steps[|steps| - 1];
      ClaimsAreAhead(db, Prefix(steps), id, from);
      RunKeeps(db, Prefix(steps));
      StepMoves(before, step, id);
      AheadGrows(before, step, id);
      if Apply(before, step).reply.Ok? && Apply(before, step).reply.value.Claimed? {
        var taken := Apply(before, step).reply.value.id;
        ClaimsInTable(before, step, taken);
        assert taken in Ahead(before, id);
      }
    }
  }

  /** Bounded overtaking.  Once a message is due, at most 5k claims can take other messages
      before it, where k counts the messages ahead of it at the end of the run, whatever is
      submitted, recovered, requeued or crashes meanwhile. */
  lemma {:induction false} BoundedOvertaking(db: Db, steps: seq<Step>, id: string, from: int)
    requires Inv(db) && id in db.rows && Due(db.rows[id], from)
    requires ClaimsFrom(steps, from) && Claims(db, steps, id) == 0
    ensures id in Run(db, steps).rows && Due(Run(db, steps).rows[id], from)
    ensures AllClaims(db, steps) <= 5 * |Ahead(Run(db, steps), id)|
  {
    ClaimsAreAhead(db, steps, id, from);
    ClaimBudget(db, steps, Ahead(Run(db, steps), id));
  }

  function ClaimSteps(steps: seq<Step>): nat {
    if steps == [] then 0 else ClaimSteps(Prefix(steps)) + if steps[|steps| - 1].DoClaim? then 1 else 0
  }

  ghost function RefusedClaims(db: Db, steps: seq<Step>): nat {
    if steps == [] then 0
    else RefusedClaims(db, Prefix(steps))
         + if steps[|steps| - 1].DoClaim? && Apply(Run(db, Prefix(steps)), steps[|steps| - 1]).reply == Delivery then 1
           else 0
  }

  /** Where something is due, a claim takes a message or is refused, and no other step takes one. */
  lemma ClaimOrRefuse(db: Db, step: Step, id: string)
    requires Inv(db) && id in db.rows && (step.DoClaim? ==> Due(db.rows[id], step.now))
    ensures var reply := Apply(db, step).reply;
      && (reply.Ok? && reply.value.Claimed? ==> step.DoClaim?)
      && (step.DoClaim? ==> reply == Delivery || (reply.Ok? && reply.value.Claimed?))
  {
    if step.DoClaim? {
      ClaimExact(db, step.now);
    } else if Apply(db, step).reply.Ok? && Apply(db, step).reply.value.Claimed? {
      ClaimsInTable(db, step, Apply(db, step).reply.value.id);
    }
  }

  lemma {:induction false} ClaimStepsSplit(db: Db, steps: seq<Step>, id: string, from: int)
    requires Inv(db) && id in db.rows && Due(db.rows[id], from)
    requires ClaimsFrom(steps, from) && Claims(db, steps, id) == 0
    ensures ClaimSteps(steps) == AllClaims(db, steps) + RefusedClaims(db, steps)
  {
    if steps != [] {
      ClaimStepsSplit(db, Prefix(steps), id, from);
      ClaimsAreAhead(db, Prefix(steps), id, from);
      RunKeeps(db, Prefix(steps));
      ClaimOrRefuse(Run(db, Prefix(steps)), steps[|steps| - 1], id);
    }
  }

  /** If nothing is admitted with an earlier or equal clock reading, k is known at the start. */
  lemma {:induction false} AheadIsFixed(db: Db, steps: seq<Step>, id: string)
    requires Inv(db) && id in db.rows
    requires forall i :: 0 <= i < |steps| && Admission(steps[i]) ==> steps[i].now > db.rows[id].createdAt
    ensures id in Run(db, steps).rows && Ahead(Run(db, steps), id) == Ahead(db, id)
  {
    if steps != [] {
      var before, step := Run(db, Prefix(steps)), steps[|steps| - 1];
      AheadIsFixed(db, Prefix(steps), id);
      RunKeeps(db, Prefix(steps));
      RunMoves(db, Prefix(steps), id);
      AheadGrows(before, step, id);
      forall other | other in Ahead(Next(before, step), id)
        ensures other in Ahead(before, id)
      {
        StepMoves(before, step, id);
        if other in before.rows {
          StepMoves(before, step, other);
        } else {
          FreshRow(before, step, other);
        }
      }
    }
  }

  // ---------- The spent message ----------

  /** Requeued with all five attempts used: due, but no claim can take it. */
  predicate Spent(db: Db, id: string) {
    id in db.rows && db.rows[id].state in {Queued, RetryScheduled} && db.rows[id].attempts == 5
  }

  ghost predicate NoneSpent(db: Db) { forall id :: !Spent(db, id) }

  /** A requeue of a message that failed by using its fifth attempt. */
  predicate SpendingRequeue(db: Db, step: Step, id: string) {
    step.DoRequeue? && step.id == id && id in db.rows && db.rows[id].state == Failed && db.rows[id].attempts == 5
  }

  lemma TransitionSpendsNothing(db: Db, i: string, statement: Statement, now: int, id: string)
    requires statement.SetRetry? ==> i in db.rows && db.rows[i].attempts < 5
    ensures Spent(Transition(db, i, statement, now).db, id) ==> Spent(db, id)
  {
  }

  lemma MarkSpendsNothing(db: Db, step: Step, id: string)
    requires step.DoAccepted? || step.DoRetry? || step.DoFailed? || step.DoAmbiguous?
    ensures Spent(Next(db, step), id) ==> Spent(db, id)
  {
    match step
    case DoAccepted(i, ack, now) => TransitionSpendsNothing(db, i, SetAccepted(ack), now, id);
    case DoFailed(i, reason, now) => TransitionSpendsNothing(db, i, SetFailed(reason), now, id);
    case DoAmbiguous(i, reason, now) => TransitionSpendsNothing(db, i, SetAmbiguous(reason), now, id);
    case DoRetry(i, reason, delay, now) =>
      if IsSending(db, i) {
        TransitionSpendsNothing(db, i, if db.rows[i].attempts < 5 then SetRetry(now + delay)
                                else SetFailed(reason), now, id);
      }
  }

  lemma ClaimSpendsNothing(db: Db, now: int, id: string)
    ensures Spent(Claim(db, now).db, id) ==> Spent(db, id)
  {
  }

  lemma RecoverySpendsNothing(db: Db, now: int, id: string)
    ensures Spent(Recover(db, now).db, id) ==> Spent(db, id)
  {
  }

  lemma AdmissionSpendsNothing(db: Db, step: Step, id: string)
    requires Admission(step)
    ensures Spent(Next(db, step), id) ==> Spent(db, id)
  {
    AdmissionMoves(db, step);
    if id !in db.rows && id in Next(db, step).rows {
      FreshRow(db, step, id);
    }
  }

  lemma RequeueSpends(db: Db, id: string, now: int, other: string)
    requires Inv(db) && !Spent(db, other)
    ensures Spent(Requeue(db, id, now).db, other) <==> SpendingRequeue(db, DoRequeue(id, now), other)
  {
    if id in db.rows {
      assert RowOk(id, db.rows[id]) && ValidMessageId(id);
    }
  }

  /** Of all steps only such a requeue spends a message. */
  lemma SpendsExactly(db: Db, step: Step, id: string)
    requires Inv(db) && !Spent(db, id)
    ensures Spent(Next(db, step), id) <==> SpendingRequeue(db, step, id)
  {
    if Admission(step) {
      AdmissionSpendsNothing(db, step, id);
    } else {
      match step
      case DoClaim(now) => ClaimSpendsNothing(db, now, id);
      case DoRecover(now) => RecoverySpendsNothing(db, now, id);
      case DoSetInbound(_) =>
      case DoRequeue(i, now) => RequeueSpends(db, i, now, id);
      case _ => MarkSpendsNothing(db, step, id);
    }
  }

  ghost predicate SafeStep(db: Db, step: Step) { forall id :: !SpendingRequeue(db, step, id) }

  /** No requeue of the run meets a message that failed by using its fifth attempt. */
  ghost predicate SafeRequeues(db: Db, steps: seq<Step>) {
    steps == [] || (SafeRequeues(db, Prefix(steps)) && SafeStep(Run(db, Prefix(steps)), steps[|steps| - 1]))
  }

  lemma SpentStays(db: Db, step: Step, id: string)
    requires Inv(db) && Spent(db, id)
    ensures Spent(Next(db, step), id)
  {
    SpentForever(db, [step], id);
    assert [step][..0] == [];
    assert Run(db, [step]) == Next(db, step);
  }

  lemma StepSpends(db: Db, step: Step)
    requires Inv(db)
    ensures NoneSpent(Next(db, step)) <==> NoneSpent(db) && SafeStep(db, step)
  {
    if !NoneSpent(db) {
      var id :| Spent(db, id);
      SpentStays(db, step, id);
    } else {
      forall id
        ensures Spent(Next(db, step), id) <==> SpendingRequeue(db, step, id)
      {
        SpendsExactly(db, step, id);
      }
    }
  }

  /** Over every run: a message is spent at the end exactly when some requeue of the run met a
      message that had used its attempts. */
  lemma {:induction false} SpentExactly(db: Db, steps: seq<Step>)
    requires Inv(db) && NoneSpent(db)
    ensures NoneSpent(Run(db, steps)) <==> SafeRequeues(db, steps)
  {
    if steps != [] {
      SpentExactly(db, Prefix(steps));
      RunKeeps(db, Prefix(steps));
      StepSpends(Run(db, Prefix(steps)), steps[|steps| - 1]);
    }
  }

  lemma NotRefused(db: Db, now: int)
    requires Inv(db) && NoneSpent(db)
    ensures Claim(db, now).reply != Delivery
  {
    if FirstDue(db, now).Some? {
      var id := FirstDue(db, now).value;
      assert !Spent(db, id) && RowOk(id, db.rows[id]);
    }
  }

  /** Without such a requeue no claim of the run is ever refused. */
  lemma {:induction false} SafeRunsNeverRefuse(db: Db, steps: seq<Step>)
    requires Inv(db) && NoneSpent(db) && SafeRequeues(db, steps)
    ensures RefusedClaims(db, steps) == 0
  {
    if steps != [] {
      var before, step := Run(db, Prefix(steps)), steps[|steps| - 1];
      SafeRunsNeverRefuse(db, Prefix(steps));
      SpentExactly(db, Prefix(steps));
      RunKeeps(db, Prefix(steps));
      if step.DoClaim? {
        NotRefused(before, step.now);
      }
    }
  }

  /** No starvation: after more than 5k claims the due message was claimed, provided that no
      requeue met a message that had used its attempts. */
  lemma {:induction false} NoStarvation(db: Db, steps: seq<Step>, id: string, from: int)
    requires Inv(db) && id in db.rows && Due(db.rows[id], from) && ClaimsFrom(steps, from)
    requires NoneSpent(db) && SafeRequeues(db, steps)
    requires id in Run(db, steps).rows && ClaimSteps(steps) > 5 * |Ahead(Run(db, steps), id)|
    ensures Claims(db, steps, id) > 0
  {
    SafeRunsNeverRefuse(db, steps);
    if Claims(db, steps, id) == 0 {
      BoundedOvertaking(db, steps, id, from);
      ClaimStepsSplit(db, steps, id, from);
    }
  }

  /** A spent message stays as it is through every run; it is never claimed again. */
  lemma {:induction false} SpentForever(db: Db, steps: seq<Step>, id: string)
    requires Inv(db) && Spent(db, id)
    ensures Claims(db, steps, id) == 0 && id in Run(db, steps).rows && Run(db, steps).rows[id] == db.rows[id]
  {
    AttemptsAreClaims(db, steps, id);
    if steps != [] {
      SpentForever(db, Prefix(steps), id);
      RunKeeps(db, Prefix(steps));
      StepMoves(Run(db, Prefix(steps)), steps[|steps| - 1], id);
      AttemptsAreClaims(db, Prefix(steps), id);
    }
  }

  /** And once it is due it blocks the queue: from then on a claim fails, or takes one of the
      messages ahead of it, which together have at most five claims each left.  No message behind
      it is ever claimed at or after that instant. */
  lemma {:induction false} SpentBlocks(db: Db, steps: seq<Step>, id: string, from: int, behind: string)
    requires Inv(db) && Spent(db, id) && Due(db.rows[id], from) && ClaimsFrom(steps, from)
    ensures id in Run(db, steps).rows && AllClaims(db, steps) <= 5 * |Ahead(Run(db, steps), id)|
    ensures ClaimSteps(steps) == AllClaims(db, steps) + RefusedClaims(db, steps)
    ensures behind in db.rows && Before(db, id, behind) ==> Claims(db, steps, behind) == 0
  {
    SpentForever(db, steps, id);
    BoundedOvertaking(db, steps, id, from);
    ClaimStepsSplit(db, steps, id, from);
    if behind in db.rows && Before(db, id, behind) {
      NeverClaimedBehind(db, steps, id, from, behind);
    }
  }

  lemma NotTakenBehind(db: Db, step: Step, id: string, behind: string)
    requires id in db.rows && behind in db.rows && Before(db, id, behind)
    requires step.DoClaim? ==> Due(db.rows[id], step.now)
    ensures Apply(db, step).reply != Ok(Claimed(behind))
  {
    if Apply(db, step).reply == Ok(Claimed(behind)) {
      ClaimsInTable(db, step, behind);
      if id == behind {
        LexIrreflexive(id);
      } else {
        BeforeIsTotal(db, id, behind);
      }
    }
  }

  lemma {:induction false} NeverClaimedBehind(db: Db, steps: seq<Step>, id: string, from: int, behind: string)
    requires Inv(db) && Spent(db, id) && Due(db.rows[id], from) && ClaimsFrom(steps, from)
    requires behind in db.rows && Before(db, id, behind)
    ensures Claims(db, steps, behind) == 0
  {
    if steps != [] {
      var before, step := Run(db, Prefix(steps)), steps[|steps| - 1];
      NeverClaimedBehind(db, Prefix(steps), id, from, behind);
      RunMoves(db, Prefix(steps), behind);
      SpentForever(db, Prefix(steps), id);
      NotTakenBehind(before, step, id, behind);
    }
  }

  lemma {:induction false} SettledUnclaimed(db: Db, steps: seq<Step>, id: string)
    requires Inv(db) && id in db.rows && db.rows[id].state in {ProviderAccepted, Ambiguous}
    ensures Claims(db, steps, id) == 0
  {
    if steps != [] {
      SettledUnclaimed(db, Prefix(steps), id);
      RunKeeps(db, Prefix(steps));
      RunMoves(db, Prefix(steps), id);
      StepMoves(Run(db, Prefix(steps)), steps[|steps| - 1], id);
    }
  }

  lemma {:induction false} SettledBudget(db: Db, steps: seq<Step>, ids: set<string>)
    requires Inv(db) && forall id :: id in ids ==> id in db.rows && db.rows[id].state in {ProviderAccepted, Ambiguous}
    ensures ClaimsAmong(db, steps, ids) == 0
    decreases |ids|
  {
    if ids == {} {
      NoClaimsAmongNone(db, steps);
    } else {
      var id :| id in ids;
      ClaimsSplit(db, steps, ids, id);
      SettledBudget(db, steps, ids - {id});
      SettledUnclaimed(db, steps, id);
    }
  }

  /** A spent message that is due, with nothing but settled messages ahead of it, makes every later
      claim fail. */
  lemma {:induction false} SpentFirstRefusesAll(db: Db, steps: seq<Step>, id: string, from: int)
    requires Inv(db) && Spent(db, id) && Due(db.rows[id], from) && ClaimsFrom(steps, from)
    requires forall other :: other in Ahead(db, id) ==> db.rows[other].state in {ProviderAccepted, Ambiguous}
    requires forall i :: 0 <= i < |steps| && Admission(steps[i]) ==> steps[i].now > db.rows[id].createdAt
    ensures RefusedClaims(db, steps) == ClaimSteps(steps)
  {
    SpentForever(db, steps, id);
    AheadIsFixed(db, steps, id);
    ClaimsAreAhead(db, steps, id, from);
    SettledBudget(db, steps, Ahead(db, id));
    ClaimStepsSplit(db, steps, id, from);
  }

  /** The converse of `SafeRunsNeverRefuse`: after any run, one requeue of a message that had used
      its attempts leaves all but 5k of the later claims refused, k counting the messages ahead. */
  lemma {:induction false} SpendingWedges(db: Db, first: seq<Step>, id: string, now: int, rest: seq<Step>)
    requires Inv(db) && SpendingRequeue(Run(db, first), DoRequeue(id, now), id) && ClaimsFrom(rest, now)
    ensures var wedged := Next(Run(db, first), DoRequeue(id, now));
      && Spent(wedged, id) && id in Run(wedged, rest).rows
      && ClaimSteps(rest) <= RefusedClaims(wedged, rest) + 5 * |Ahead(Run(wedged, rest), id)|
  {
    RunKeeps(db, first);
    var before := Run(db, first);
    var wedged := Next(before, DoRequeue(id, now));
    assert RowOk(id, before.rows[id]);
    ApplyKeeps(before, DoRequeue(id, now));
    SpentBlocks(wedged, rest, id, now, id);
  }

  // ---------- A run that spends a message ----------

  /** `rounds` times: claim the message and report a temporary failure. */
  function FailingRounds(id: string, rounds: nat): seq<Step> {
    if rounds == 0 then []
    else FailingRounds(id, rounds - 1) + [DoClaim(2_000 * rounds), DoRetry(id, "busy", 1_000, 2_000 * rounds)]
  }

  lemma OneMessage(db: Db, id: string, row: Row, now: int)
    requires db.rows == map[id := row] && RowOk(id, row)
    ensures Due(row, now) ==> FirstDue(db, now) == Some(id)
  {
    if Due(row, now) {
      assert IsFirstDue(db, now, id);
    }
  }

  lemma Busy()
    ensures ValidText("busy", 256)
  {
    assert Ascii("busy");
    AsciiBytes("busy");
  }

  lemma TakesTheOne(db: Db, id: string, row: Row, now: int)
    requires db.rows == map[id := row] && RowOk(id, row) && Due(row, now) && row.attempts < 5
    ensures Apply(db, DoClaim(now)).reply == Ok(Claimed(id))
    ensures Apply(db, DoClaim(now)).db.rows ==
      map[id := row.(state := Sending, attempts := row.attempts + 1, nextAttempt := None, updatedAt := now)]
  {
    OneMessage(db, id, row, now);
  }

  lemma FailingRound(db: Db, id: string, row: Row, now: int)
    requires db.rows == map[id := row] && RowOk(id, row) && Due(row, now) && row.attempts < 5
    requires I64(now + 1_000)
    ensures var claimed := Apply(db, DoClaim(now)); var failed := Apply(claimed.db, DoRetry(id, "busy", 1_000, now));
      && claimed.reply == Ok(Claimed(id)) && failed.reply == Ok(Done)
      && failed.db.rows == map[id :=
           if row.attempts == 4 then row.(state := Failed, attempts := 5, nextAttempt := None,
                                          lastError := Some("busy"), updatedAt := now)
           else row.(state := RetryScheduled, attempts := row.attempts + 1, nextAttempt := Some(now + 1_000),
                     lastError := None, updatedAt := now)]
  {
    TakesTheOne(db, id, row, now);
    Busy();
  }

  lemma {:induction false} RunSnoc(db: Db, steps: seq<Step>, step: Step)
    ensures Run(db, steps + [step]) == Apply(Run(db, steps), step).db
  {
    assert (steps + [step])[..|steps|] == steps;
  }

  /** One message that has failed `rounds` times. */
  ghost predicate FailedTimes(db: Db, id: string, rounds: nat) {
    && db.rows.Keys == {id} && RowOk(id, db.rows[id]) && db.rows[id].attempts == rounds
    && if rounds == 5 then db.rows[id].state == Failed
       else db.rows[id].state in {Queued, RetryScheduled} && db.rows[id].nextAttempt.value <= 2_000 * rounds + 2_000
  }

  lemma FailsAgain(db: Db, id: string, rounds: nat)
    requires FailedTimes(db, id, rounds) && rounds < 5
    ensures var now := 2_000 * (rounds + 1);
      FailedTimes(Apply(Apply(db, DoClaim(now)).db, DoRetry(id, "busy", 1_000, now)).db, id, rounds + 1)
  {
    assert db.rows == map[id := db.rows[id]];
    FailingRound(db, id, db.rows[id], 2_000 * (rounds + 1));
  }

  lemma {:induction false} AfterRounds(db: Db, id: string, rounds: nat)
    requires FailedTimes(db, id, 0) && rounds <= 5
    ensures FailedTimes(Run(db, FailingRounds(id, rounds)), id, rounds)
  {
    if rounds > 0 {
      AfterRounds(db, id, rounds - 1);
      FailsAgain(Run(db, FailingRounds(id, rounds - 1)), id, rounds - 1);
      var first, claim, retry := FailingRounds(id, rounds - 1), DoClaim(2_000 * rounds),
          DoRetry(id, "busy", 1_000, 2_000 * rounds);
      RunSnoc(db, first, claim);
      RunSnoc(db, first + [claim], retry);
      assert FailingRounds(id, rounds) == first + [claim] + [retry];
    }
  }

  const SAMPLE := M2Submission("k", "t", None, "b")

  lemma SampleIsValid()
    ensures SAMPLE.Valid()
  {
    assert Ascii("k") && Ascii("t") && Ascii("b");
    AsciiBytes("k");
    AsciiBytes("t");
    AsciiBytes("b");
  }

  /** A reachable wedge: one message is submitted and fails five times, the operator requeues it,
      and every later claim is refused. */
  lemma RequeueCanWedge(hash: bytes -> string, now: int)
    requires HashOk(hash) && now >= 20_000
    ensures var start := Submit2(Empty(hash), SAMPLE, 0); var id := hash(Framed(SAMPLE.Fields()));
      && start.reply == Ok(Admitted(New(id)))
      && var failed := Run(start.db, FailingRounds(id, 5));
         && Requeue(failed, id, 20_000).reply == Ok(Requeued(true))
         && Claim(Requeue(failed, id, 20_000).db, now) == Refused(Requeue(failed, id, 20_000).db)
  {
    var empty := Empty(hash);
    EmptyIsOk(hash);
    SampleIsValid();
    NewRow2Ok(empty, SAMPLE, 0);
    Submit2Keeps(empty, SAMPLE, 0);
    var start, id := Submit2(empty, SAMPLE, 0).db, hash(Framed(SAMPLE.Fields()));
    assert FailedTimes(start, id, 0);
    AfterRounds(start, id, 5);
    var failed := Run(start, FailingRounds(id, 5));
    WedgeAfterRequeue(failed, id, now);
  }

  lemma WedgeAfterRequeue(failed: Db, id: string, now: int)
    requires FailedTimes(failed, id, 5) && ValidMessageId(id) && now >= 20_000
    ensures Requeue(failed, id, 20_000).reply == Ok(Requeued(true))
    ensures Claim(Requeue(failed, id, 20_000).db, now) == Refused(Requeue(failed, id, 20_000).db)
  {
    var wedged := Requeue(failed, id, 20_000).db;
    assert wedged.rows == map[id := wedged.rows[id]];
    OneMessage(wedged, id, wedged.rows[id], now);
  }
}
