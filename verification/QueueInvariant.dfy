/** What every transaction keeps, and exactly when a transaction is refused. */
module QueueInvariant {
  import opened Wrappers
  import opened Bytes
  import opened Text
  import opened Queue
  import Sha256
  import Hex

  /** Two keys never share a row. */
  ghost predicate KeysUnique(db: Db) {
    forall a, b :: a in db.rows && b in db.rows && db.rows[a].key == db.rows[b].key ==> a == b
  }

  /** Digests are 64 lower-case hexadecimal digits. */
  ghost predicate HashOk(hash: bytes -> string) {
    forall b :: |hash(b)| == 64 && ValidMessageId(hash(b))
  }

  ghost predicate RowsOk(db: Db) {
    forall id :: id in db.rows ==> ValidMessageId(id) && RowOk(id, db.rows[id]) && ValidIdempotencyKey(db.rows[id].key)
  }

  /** Every receipt has its message. */
  ghost predicate ReceiptsOk(db: Db) {
    forall p :: p in db.receipts ==> HasKey(db, "m4-" + p)
  }

  ghost predicate Inv(db: Db) {
    HashOk(db.hash) && RowsOk(db) && KeysUnique(db) && ReceiptsOk(db)
  }

  /** `after` may differ from `before` only in delivery state, never in content. */
  predicate SameContent(before: Row, after: Row) {
    && before.key == after.key && before.driver == after.driver && before.destination == after.destination
    && before.payload == after.payload && before.topic == after.topic && before.title == after.title
    && before.body == after.body && before.createdAt == after.createdAt
  }

  lemma HasKeyStays(db: Db, next: Db)
    requires forall id :: id in db.rows ==> id in next.rows && next.rows[id].key == db.rows[id].key
    ensures forall key :: HasKey(db, key) ==> HasKey(next, key)
  {
    forall key | HasKey(db, key)
      ensures HasKey(next, key)
    {
      var id :| id in db.rows && db.rows[id].key == key;
      assert id in next.rows && next.rows[id].key == key;
    }
  }

  /** Changing delivery state only keeps everything that the constraints do not check. */
  lemma UpdateKeeps(db: Db, next: Db)
    requires Inv(db) && next.receipts == db.receipts && next.hash == db.hash && next.rows.Keys == db.rows.Keys
    requires forall id :: id in db.rows ==> RowOk(id, next.rows[id]) && SameContent(db.rows[id], next.rows[id])
    ensures Inv(next)
  {
    HasKeyStays(db, next);
    assert KeysUnique(next);
  }

  lemma InsertKeeps(db: Db, id: string, row: Row)
    requires Inv(db) && Insert(db, id, row).Some? && ValidIdempotencyKey(row.key) && ValidMessageId(id)
    ensures Inv(Insert(db, id, row).value)
  {
    var next := Insert(db, id, row).value;
    HasKeyStays(db, next);
    assert RowsOk(next);
    assert forall other :: other in db.rows ==> db.rows[other].key != row.key by {
      assert !HasKey(db, row.key);
    }
    assert KeysUnique(next);
  }

  // ---------- Admission ----------

  lemma Sha256HexOk()
    ensures HashOk(Sha256Hex)
  {
    forall b: bytes
      ensures |Sha256Hex(b)| == 64 && ValidMessageId(Sha256Hex(b))
    {
      HexIsId(Sha256.Digest(b));
    }
  }

  lemma {:induction false} HexIsId(digest: bytes)
    requires |digest| == 32
    ensures |Hex.Encode(digest)| == 64 && ValidMessageId(Hex.Encode(digest))
  {
    Hex.EncodeIsHex(digest);
    var id := Hex.Encode(digest);
    assert forall i :: 0 <= i < |id| ==> Hex.Nibble(id[i]).Some?;
    AsciiBytes(id);
  }

  lemma TextFits(value: string, maximum: nat)
    requires ValidText(value, maximum)
    ensures 1 <= |value| <= maximum
  {
    CharsFit(value);
  }

  lemma KeyIsAscii(key: string)
    requires ValidIdempotencyKey(key)
    ensures Ascii(key) && |key| <= 128
  {
    TextFits(key, 128);
  }

  /** A row `m2_submit` builds meets every CHECK. */
  lemma NewRow2Ok(db: Db, s: M2Submission, now: int)
    requires s.Valid() && HashOk(db.hash)
    ensures RowOk(MessageId(db, s.Fields()), s.NewRow(now))
  {
    TextFits(s.key, 128);
    TextFits(s.topic, 64);
    TextFits(s.body, 4096);
  }

  lemma NewRow3Ok(db: Db, s: M3Submission, now: int)
    requires s.Valid() && HashOk(db.hash)
    ensures RowOk(MessageId(db, s.Fields()), s.NewRow(now))
  {
    TextFits(s.key, 128);
    TextFits(s.payload, 4096);
  }

  /** An inbound row fails a CHECK exactly when its destination has more than 64 characters:
      256 bytes are admitted, but they land in the topic column. */
  lemma NewRow4Ok(db: Db, s: M4Submission, now: int)
    requires s.Valid() && ValidIdempotencyKey(s.Key()) && HashOk(db.hash)
    ensures RowOk(MessageId(db, s.Fields()), s.NewRow(now)) <==> |s.destination| <= 64
  {
    TextFits(s.Key(), 128);
    TextFits(s.destination, 256);
    TextFits(s.payload, 4096);
  }

  // ---------- Every transaction keeps the invariant ----------

  lemma SetRow(db: Db, id: string, row: Row, reply: Reply)
    requires Inv(db) && id in db.rows && SameContent(db.rows[id], row)
    ensures Inv(Committed(db, Update(db, id, row), reply).db)
  {
    if RowOk(id, row) {
      UpdateKeeps(db, Update(db, id, row).value);
    }
  }

  lemma Submit2Keeps(db: Db, s: M2Submission, now: int)
    requires Inv(db)
    ensures Inv(Submit2(db, s, now).db)
  {
    if s.Valid() && Insert(db, MessageId(db, s.Fields()), s.NewRow(now)).Some? {
      InsertKeeps(db, MessageId(db, s.Fields()), s.NewRow(now));
    }
  }

  lemma Submit3Keeps(db: Db, s: M3Submission, now: int)
    requires Inv(db)
    ensures Inv(Submit3(db, s, now).db)
  {
    if s.Valid() && Insert(db, MessageId(db, s.Fields()), s.NewRow(now)).Some? {
      InsertKeeps(db, MessageId(db, s.Fields()), s.NewRow(now));
    }
  }

  lemma InboundKeeps(db: Db, s: M4Submission, now: int)
    requires Inv(db)
    ensures Inv(SubmitInbound(db, s, now).db)
  {
    if s.Valid() && ValidIdempotencyKey(s.Key()) && Insert(db, MessageId(db, s.Fields()), s.NewRow(now)).Some? {
      NewRow4Ok(db, s, now);
      InsertKeeps(db, MessageId(db, s.Fields()), s.NewRow(now));
      var next := Insert(db, MessageId(db, s.Fields()), s.NewRow(now)).value;
      assert next.rows[MessageId(db, s.Fields())].key == s.Key();
      assert HasKey(next, s.Key());
      var out := SubmitInbound(db, s, now);
      if out.reply == Ok(Inbound(InboundAccepted)) {
        assert out.db.rows == next.rows;
        HasKeyStays(next, out.db);
      }
    }
  }

  lemma RecoverKeeps(db: Db, now: int)
    requires Inv(db)
    ensures Recover(db, now).reply.Ok? && Inv(Recover(db, now).db)
  {
    var rows := map id | id in db.rows :: Interrupted(db.rows[id], now);
    assert rows.Keys == db.rows.Keys;
    forall id | id in rows
      ensures RowOk(id, rows[id]) && SameContent(db.rows[id], rows[id])
    {
      assert RowOk(id, db.rows[id]);
    }
    UpdateKeeps(db, db.(rows := rows));
  }

  lemma TransitionKeeps(db: Db, id: string, statement: Statement, now: int)
    requires Inv(db)
    ensures Inv(Transition(db, id, statement, now).db)
  {
    if IsSending(db, id) {
      SetRow(db, id, Execute(statement, db.rows[id], now), Done);
    }
  }

  lemma RetryKeeps(db: Db, id: string, reason: string, delay: int, now: int)
    requires Inv(db)
    ensures Inv(MarkRetry(db, id, reason, delay, now).db)
  {
    if IsSending(db, id) {
      TransitionKeeps(db, id, if db.rows[id].attempts < 5 then SetRetry(now + delay) else SetFailed(reason), now);
    }
  }

  lemma RequeueKeeps(db: Db, id: string, now: int)
    requires Inv(db)
    ensures Inv(Requeue(db, id, now).db)
  {
    if id in db.rows && db.rows[id].state == Failed {
      SetRow(db, id, QueuedAgain(db.rows[id], now), Requeued(true));
    }
  }

  lemma ClaimKeeps(db: Db, now: int)
    requires Inv(db)
    ensures Inv(Claim(db, now).db)
  {
    if FirstDue(db, now).Some? {
      var id := FirstDue(db, now).value;
      SetRow(db, id, Sent(db.rows[id], now), Claimed(id));
    }
  }

  /** Every transaction, from every state, keeps the constraints, the unique keys and the message
      behind each receipt. */
  lemma ApplyKeeps(db: Db, step: Step)
    requires Inv(db)
    ensures Inv(Apply(db, step).db)
  {
    match step
    case DoSubmit2(s, now) => Submit2Keeps(db, s, now);
    case DoSubmit3(s, now) => Submit3Keeps(db, s, now);
    case DoSetInbound(enabled) =>
    case DoInbound(s, now) => InboundKeeps(db, s, now);
    case DoClaim(now) => ClaimKeeps(db, now);
    case DoAccepted(id, ack, now) => TransitionKeeps(db, id, SetAccepted(ack), now);
    case DoRetry(id, reason, delay, now) => RetryKeeps(db, id, reason, delay, now);
    case DoFailed(id, reason, now) => TransitionKeeps(db, id, SetFailed(reason), now);
    case DoAmbiguous(id, reason, now) => TransitionKeeps(db, id, SetAmbiguous(reason), now);
    case DoRecover(now) => RecoverKeeps(db, now);
    case DoRequeue(id, now) => RequeueKeeps(db, id, now);
  }

  lemma EmptyIsOk(hash: bytes -> string)
    requires HashOk(hash)
    ensures Inv(Empty(hash))
  {
  }

  /** Hence over every run, crashes included. */
  lemma {:induction false} RunKeeps(db: Db, steps: seq<Step>)
    requires Inv(db)
    ensures Inv(Run(db, steps))
  {
    if steps != [] {
      RunKeeps(db, steps[..|steps| - 1]);
      ApplyKeeps(Run(db, steps[..|steps| - 1]), steps[|steps| - 1]);
    }
  }
}
