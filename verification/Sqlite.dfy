/** SQLiteAdapter: message content in kv, state in the index, both changed under one transaction. */
module Sqlite {
  import opened Types
  import opened Faults
  import opened IndexTable
  import opened Database
  import RetryRules

  /** The JSON value of a kv row. */
  datatype Envelope = Envelope(
    payload: string,
    attributes: string,
    priority: int,
    attempt: int,
    createdAt: int,
    dlq: Option<DlqNote>)

  type Store = Tables<Envelope>

  datatype Op =
    | Enqueue(m: Message)
    | LeaseNext(queue: string, consumer: string, visibilitySec: int, picked: Option<Key>)
    | Ack(key: Key)
    | Nack(key: Key, reason: string, requeue: bool)
    | ExtendLease(key: Key, visibilitySec: int)
    | RecoverExpired
    | ProcessDelayed
    | DelayMessage(key: Key, delayMs: int)
    | MoveToDlq(key: Key, reason: string)
    | Reprocess(key: Key)
    | Sweep(policies: map<string, QueuePolicy>)

  function AvailableAt(m: Message, now: int): int {
    if m.availableAt > 0 then m.availableAt else now
  }

  function EnvelopeOf(m: Message, now: int): Envelope {
    Envelope(m.payload, m.attributes, m.priority, m.attempt, if m.createdAt > 0 then m.createdAt else now, None)
  }

  function WithNote(kv: map<Key, Envelope>, k: Key, reason: string, now: int): map<Key, Envelope> {
    if k in kv then kv[k := kv[k].(dlq := Some(DlqNote(reason, now)))] else kv
  }

  function WithoutNote(kv: map<Key, Envelope>, k: Key): map<Key, Envelope> {
    if k in kv then kv[k := kv[k].(dlq := None, attempt := 0)] else kv
  }

  function IdxIf(idx: Index, k: Key, p: Row -> bool, f: Row -> Row): Index {
    if k in idx && p(idx[k]) then idx[k := f(idx[k])] else idx
  }

  /** Effect of an operation whose statements all succeed. */
  function Apply(t: Store, now: int, op: Op): Store {
    match op
    case Enqueue(m) =>
      if m.key in t.kv || m.key in t.idx then t
      else Tables(t.kv[m.key := EnvelopeOf(m, now)], t.idx[m.key := NewRow(m, AvailableAt(m, now), now)])
    case LeaseNext(_, _, visibility, picked) =>
      if picked.Some? && picked.value in t.idx && picked.value in t.kv
      then t.(idx := t.idx[picked.value := LeaseRow(t.idx[picked.value], now + visibility * 1000)])
      else t
    case Ack(k) =>
      Tables(t.kv - {k}, if k in t.kv || (k in t.idx && t.idx[k].state == Inflight) then t.idx - {k} else t.idx)
    case Nack(k, reason, requeue) =>
      if requeue then t.(idx := IdxIf(t.idx, k, (r: Row) => r.state == Inflight, (r: Row) => RequeueRow(r, now)))
      else Tables(WithNote(t.kv, k, reason, now),
                  IdxIf(t.idx, k, (r: Row) => r.state == Inflight, (r: Row) => BuryRow(r)))
    case ExtendLease(k, visibility) =>
      t.(idx := IdxIf(t.idx, k, (r: Row) => Extendable(r, now),
                      (r: Row) => r.(leaseUntil := Some(now + visibility * 1000))))
    case RecoverExpired =>
      t.(idx := Updated(t.idx, (_: Key, r: Row) => Expired(r, now), (r: Row) => r.(state := Ready, leaseUntil := None)))
    case ProcessDelayed =>
      t.(idx := Updated(t.idx, (_: Key, r: Row) => Promotable(r, now), (r: Row) => r.(state := Ready)))
    case DelayMessage(k, delayMs) =>
      t.(idx := IdxIf(t.idx, k, (_: Row) => true, (r: Row) => DelayRow(r, Delayed, now + delayMs)))
    case MoveToDlq(k, reason) =>
      Tables(WithNote(t.kv, k, reason, now), IdxIf(t.idx, k, (_: Row) => true, (r: Row) => BuryRow(r)))
    case Reprocess(k) =>
      Tables(WithoutNote(t.kv, k), IdxIf(t.idx, k, (r: Row) => r.state == Dlq, (r: Row) => ReviveRow(r, now)))
    case Sweep(policies) =>
      Tables(
        map k | k in t.kv :: SweptEnvelope(t, k, policies, now),
        map k | k in t.idx :: SweepRow(t.idx[k], PolicyOf(policies, k.queue), now, Delayed))
  }

  /** A sweep touches the kv row only of the messages it buries. */
  function SweptEnvelope(t: Store, k: Key, policies: map<string, QueuePolicy>, now: int): Envelope
    requires k in t.kv
  {
    if k in t.idx && Buries(t.idx[k], PolicyOf(policies, k.queue), now)
    then t.kv[k].(dlq := Some(DlqNote(RetryRules.LimitReason(t.idx[k].attempt), now)))
    else t.kv[k]
  }

  predicate Buries(r: Row, policy: Option<QueuePolicy>, now: int) {
    Expired(r, now) && policy.Some? && r.attempt >= policy.value.retry.limit && policy.value.dlq.enabled
  }

  /** How an operation may end: everything written, everything but the best-effort DLQ note, or nothing. */
  datatype Outcome = Done | DoneWithoutNote | Failed

  function After(t: Store, now: int, op: Op, o: Outcome): Store {
    match o
    case Done => Apply(t, now, op)
    case DoneWithoutNote => if op.Nack? || op.MoveToDlq? || op.Reprocess? then Apply(t, now, op).(kv := t.kv) else t
    case Failed => t
  }

  /** lease_next takes the row its SELECT returns. */
  predicate Chosen(t: Store, now: int, op: Op) {
    op.LeaseNext? ==> Picks(t.idx, op.queue, op.consumer, now, op.picked)
  }

  predicate Step(t: Store, now: int, op: Op, o: Outcome, t': Store) {
    (o != Failed ==> Chosen(t, now, op)) && t' == After(t, now, op, o)
  }

  /** Unreadable: leased and committed, but the envelope did not parse. */
  datatype LeaseResult =
    | Nothing
    | Error
    | Unreadable(key: Key)
    | Leased(message: Message, lease: LeaseToken)

  function MessageOf(k: Key, e: Envelope, r: Row): Message {
    Message(k, e.payload, e.attributes, r.priority, r.attempt, e.createdAt, 0, "")
  }

  class SqliteAdapter {
    const db: Connection<Envelope>
    /** The rows of kv that hold queue policies; their keys never collide with those of messages. */
    var policies: map<string, QueuePolicy>

    constructor (faulty: bool)
      ensures fresh(db) && db.foreignKeys && db.faulty == faulty && Valid() && Content() == Tables(map[], map[])
      ensures policies == map[]
    {
      db := new Connection(true, faulty, map[], map[]);
      policies := map[];
    }

    /** open() switches foreign keys on; between calls no transaction is open. */
    ghost predicate Valid()
      reads this, db
    {
      db.foreignKeys && !db.inTransaction
    }

    function Content(): Store
      reads this, db
    {
      db.Content()
    }

    /** save_policy: INSERT OR REPLACE of one row, outside any transaction. */
    method SavePolicy(queue: string, policy: QueuePolicy) returns (ok: bool)
      modifies this`policies
      ensures policies == if ok then old(policies)[queue := policy] else old(policies)
      ensures !db.faulty ==> ok
    {
      var fails := Fault(db.faulty);
      ok := !fails;
      if ok {
        policies := policies[queue := policy];
      }
    }

    method EnqueueMessage(m: Message, now: int) returns (ok: bool)
      requires Valid()
      modifies db
      ensures Valid()
      ensures Content() == After(old(Content()), now, Enqueue(m), if ok then Done else Failed)
      ensures !db.faulty ==> ok == (m.key !in old(db.kv) && m.key !in old(db.idx))
    {
      ok := db.Begin();
      if !ok { return; }
      var availableAt := if m.availableAt > 0 then m.availableAt else now;
      var createdAt := if m.createdAt > 0 then m.createdAt else now;
      ok := db.InsertKv(m.key, Envelope(m.payload, m.attributes, m.priority, m.attempt, createdAt, None));
      if !ok {
        db.Rollback();
        return;
      }
      var state := if availableAt > now then Delayed else Ready;
      ok := db.InsertIdx(m.key, Row(state, m.priority, availableAt, None, m.attempt, m.target));
      if !ok {
        db.Rollback();
        return;
      }
      ok := db.Commit();
      if !ok {
        db.Rollback();
      }
    }

    method LeaseNextMessage(queue: string, consumer: string, visibilitySec: int, now: int)
      returns (result: LeaseResult, ghost picked: Option<Key>)
      requires Valid()
      modifies db
      ensures Valid()
      ensures result.Error? ==> Content() == old(Content())
      ensures result.Nothing? ==> Content() == old(Content())
      ensures result.Unreadable? ==>
        && db.faulty
        && picked == Some(result.key) && result.key in old(db.kv)
        && IsNext(old(db.idx), queue, consumer, now, result.key)
        && Content() == Apply(old(Content()), now, LeaseNext(queue, consumer, visibilitySec, picked))
      ensures result.Leased? ==>
        && picked == Some(result.message.key) && IsNext(old(db.idx), queue, consumer, now, result.message.key)
        && result.message.key in old(db.kv)
        && Content() == Apply(old(Content()), now, LeaseNext(queue, consumer, visibilitySec, picked))
        && result.message == MessageOf(result.message.key, db.kv[result.message.key], db.idx[result.message.key])
        && result.lease == LeaseToken(result.message.key, consumer, now + visibilitySec * 1000)
      ensures !db.faulty ==>
        (result.Nothing? <==> forall k :: k in old(db.idx) ==> !Eligible(old(db.idx), queue, consumer, now, k))
      ensures !db.faulty && old(db.kv).Keys == old(db.idx).Keys ==> !result.Error?
    {
      picked := None;
      var until := now + visibilitySec * 1000;
      var ok := db.Begin();
      if !ok { return Error, None; }
      var next;
      ok, next := db.SelectNext(queue, consumer, now);
      if !ok {
        db.Rollback();
        var prepared: bool := *;
        return if prepared then Nothing else Error, None;
      }
      if next.None? {
        db.Rollback();
        return Nothing, None;
      }
      var key := next.value;
      ok := db.UpdateIdxAt(key, (_: Row) => true,
                           (r: Row) => r.(state := Inflight, leaseUntil := Some(until), attempt := r.attempt + 1));
      if !ok {
        db.Rollback();
        return Error, None;
      }
      var value := db.SelectKv(key);
      if value.None? {
        db.Rollback();
        return Error, None;
      }
      ok := db.Commit();
      if !ok {
        db.Rollback();
        return Error, None;
      }
      picked := next;
      var garbled := Fault(db.faulty);
      if garbled {
        return Unreadable(key), next;
      }
      var e, r := value.value, db.idx[key];
      var message := Message(key, e.payload, e.attributes, r.priority, r.attempt, e.createdAt, 0, "");
      result := Leased(message, LeaseToken(key, consumer, until));
    }

    /** Deletes the kv row whatever the state; the cascade then takes the index row along. */
    method AckMessage(lease: LeaseToken, now: int) returns (ok: bool)
      requires Valid()
      modifies db
      ensures Valid()
      ensures Content() == After(old(Content()), now, Ack(lease.messageKey), if ok then Done else Failed)
      ensures !db.faulty ==> ok
    {
      ok := db.Begin();
      if !ok { return; }
      ok := db.DeleteIdxWhere(lease.messageKey, (r: Row) => r.state == Inflight);
      if !ok {
        db.Rollback();
        return;
      }
      ok := db.DeleteKv(lease.messageKey);
      if !ok {
        db.Rollback();
        return;
      }
      ok := db.Commit();
      if !ok {
        db.Rollback();
      }
    }

    method NackMessage(lease: LeaseToken, reason: string, requeue: bool, now: int) returns (ok: bool, ghost o: Outcome)
      requires Valid()
      modifies db
      ensures Valid()
      ensures ok <==> o != Failed
      ensures Content() == After(old(Content()), now, Nack(lease.messageKey, reason, requeue), o)
      ensures !db.faulty ==> o == Done
    {
      var key := lease.messageKey;
      o := Failed;
      ok := db.Begin();
      if !ok { return; }
      if requeue {
        ok := db.UpdateIdxAt(key, (r: Row) => r.state == Inflight,
                             (r: Row) => r.(state := Ready, leaseUntil := None, availableAt := now));
        if !ok {
          db.Rollback();
          return;
        }
        ok := db.Commit();
        if !ok {
          db.Rollback();
          return;
        }
        o := Done;
      } else {
        ok := db.UpdateIdxAt(key, (r: Row) => r.state == Inflight, (r: Row) => r.(state := Dlq, leaseUntil := None));
        if !ok {
          db.Rollback();
          return;
        }
        var unprepared := Fault(db.faulty);
        if unprepared {
          db.Rollback();
          ok := false;
          return;
        }
        o := NoteInKv(key, reason, now);
        ok := db.Commit();
        if !ok {
          db.Rollback();
          o := Failed;
        }
      }
    }

    /** Reads the kv row and writes the DLQ note back; failures are ignored by the callers. */
    method NoteInKv(key: Key, reason: string, now: int) returns (ghost o: Outcome)
      modifies db`kv
      ensures o == Done || o == DoneWithoutNote
      ensures db.kv == if o == Done then WithNote(old(db.kv), key, reason, now) else old(db.kv)
      ensures !db.faulty ==> o == Done
    {
      o := Done;
      var value := db.SelectKv(key);
      if value.Some? {
        var updated := db.UpdateKv(key, (e: Envelope) => e.(dlq := Some(DlqNote(reason, now))));
        if !updated { o := DoneWithoutNote; }
      } else if key in db.kv {
        o := DoneWithoutNote;
      }
    }

    /** Reports success even when no row matched, as an UPDATE of zero rows does. */
    method ExtendLeaseOf(lease: LeaseToken, visibilitySec: int, now: int) returns (ok: bool)
      requires Valid()
      modifies db
      ensures Valid()
      ensures Content() ==
        After(old(Content()), now, ExtendLease(lease.messageKey, visibilitySec), if ok then Done else Failed)
      ensures !db.faulty ==> ok
    {
      ok := db.Begin();
      if !ok { return; }
      ok := db.UpdateIdxAt(lease.messageKey,
                           (r: Row) => r.state == Inflight && r.leaseUntil.Some? && r.leaseUntil.value > now,
                           (r: Row) => r.(leaseUntil := Some(now + visibilitySec * 1000)));
      if !ok {
        db.Rollback();
        return;
      }
      ok := db.Commit();
      if !ok {
        db.Rollback();
      }
    }

    method RecoverExpiredLeases(now: int) returns (ok: bool, count: nat)
      requires Valid()
      modifies db
      ensures Valid()
      ensures Content() == After(old(Content()), now, RecoverExpired, if ok then Done else Failed)
      ensures count == 0 || (ok && count == |ExpiredKeys(old(db.idx), now)|)
      ensures !db.faulty ==> ok && count == |ExpiredKeys(old(db.idx), now)|
    {
      ok := db.Begin();
      if !ok { return false, 0; }
      var expired := (_: Key, r: Row) =>
        r.state == Inflight && r.leaseUntil.Some? && r.leaseUntil.value < now;
      assert Matching(db.idx, expired) == ExpiredKeys(db.idx, now);
      ok, count := db.UpdateIdxWhere(expired, (r: Row) => r.(state := Ready, leaseUntil := None));
      if !ok {
        db.Rollback();
        return false, 0;
      }
      count := ReadChanges(count);
      ok := db.Commit();
      if !ok {
        db.Rollback();
        count := 0;
      }
    }

    /** SELECT changes(): zero when it cannot be read. */
    method ReadChanges(changes: nat) returns (count: nat)
      ensures count == changes || (db.faulty && count == 0)
    {
      var unread := Fault(db.faulty);
      count := if unread then 0 else changes;
    }

    method ProcessDelayedMessages(now: int) returns (ok: bool, count: nat)
      requires Valid()
      modifies db
      ensures Valid()
      ensures Content() == After(old(Content()), now, ProcessDelayed, if ok then Done else Failed)
      ensures count == 0 || (ok && count == |PromotableKeys(old(db.idx), now)|)
      ensures !db.faulty ==> ok && count == |PromotableKeys(old(db.idx), now)|
    {
      ok := db.Begin();
      if !ok { return false, 0; }
      var due := (_: Key, r: Row) => r.state == Delayed && r.availableAt <= now;
      assert Matching(db.idx, due) == PromotableKeys(db.idx, now);
      ok, count := db.UpdateIdxWhere(due, (r: Row) => r.(state := Ready));
      if !ok {
        db.Rollback();
        return false, 0;
      }
      count := ReadChanges(count);
      ok := db.Commit();
      if !ok {
        db.Rollback();
        count := 0;
      }
    }

    /** One entry for every expired lease, none twice; a row that cannot be read ends the list. */
    method GetExpiredInflightMessages(now: int) returns (ok: bool, expired: seq<ExpiredLease>)
      ensures !db.faulty ==>
        ok && forall k :: k in db.idx && Expired(db.idx[k], now) ==> ExpiredLease(k, db.idx[k].attempt) in expired
      ensures forall e :: e in expired ==>
        e.key in db.idx && Expired(db.idx[e.key], now) && e.attempt == db.idx[e.key].attempt
      ensures forall i, j :: 0 <= i < j < |expired| ==> expired[i].key != expired[j].key
    {
      expired := [];
      var fails := Fault(db.faulty);
      ok := !fails;
      if fails { return; }
      var rows := set k | k in db.idx && db.idx[k].state == Inflight
                          && db.idx[k].leaseUntil.Some? && db.idx[k].leaseUntil.value < now;
      ghost var all := rows;
      while rows != {}
        invariant rows <= all
        invariant forall k :: k in all - rows ==> ExpiredLease(k, db.idx[k].attempt) in expired
        invariant forall e :: e in expired ==> e.key in all - rows && e.attempt == db.idx[e.key].attempt
        invariant forall i, j :: 0 <= i < j < |expired| ==> expired[i].key != expired[j].key
        decreases rows
      {
        var unread := Fault(db.faulty);
        if unread { return; }
        var k :| k in rows;
        rows := rows - {k};
        expired := expired + [ExpiredLease(k, db.idx[k].attempt)];
      }
    }

    method Delay(key: Key, delayMs: int, now: int) returns (ok: bool)
      requires Valid()
      modifies db
      ensures Valid()
      ensures Content() == After(old(Content()), now, DelayMessage(key, delayMs), if ok then Done else Failed)
      ensures !db.faulty ==> ok
    {
      ok := db.Begin();
      if !ok { return; }
      ok := db.UpdateIdxAt(key, (_: Row) => true,
                           (r: Row) => r.(state := Delayed, leaseUntil := None, availableAt := now + delayMs));
      if !ok {
        db.Rollback();
        return;
      }
      ok := db.Commit();
      if !ok {
        db.Rollback();
      }
    }

    method Bury(key: Key, reason: string, now: int) returns (ok: bool, ghost o: Outcome)
      requires Valid()
      modifies db
      ensures Valid()
      ensures ok <==> o != Failed
      ensures Content() == After(old(Content()), now, MoveToDlq(key, reason), o)
      ensures !db.faulty ==> o == Done
    {
      o := Failed;
      ok := db.Begin();
      if !ok { return; }
      ok := db.UpdateIdxAt(key, (_: Row) => true, (r: Row) => r.(state := Dlq, leaseUntil := None));
      if !ok {
        db.Rollback();
        return;
      }
      o := NoteInKv(key, reason, now);
      ok := db.Commit();
      if !ok {
        db.Rollback();
        o := Failed;
      }
    }

    method ReprocessDlqMessage(key: Key, now: int) returns (ok: bool, ghost o: Outcome)
      requires Valid()
      modifies db
      ensures Valid()
      ensures ok <==> o != Failed
      ensures Content() == After(old(Content()), now, Reprocess(key), o)
      ensures !db.faulty ==> o == Done
    {
      o := Failed;
      ok := db.Begin();
      if !ok { return; }
      ok := db.UpdateIdxAt(key, (r: Row) => r.state == Dlq,
                           (r: Row) => r.(state := Ready, leaseUntil := None, availableAt := now, attempt := 0));
      if !ok {
        db.Rollback();
        return;
      }
      o := Done;
      var value := db.SelectKv(key);
      if value.Some? {
        var updated := db.UpdateKv(key, (e: Envelope) => e.(dlq := None, attempt := 0));
        if !updated { o := DoneWithoutNote; }
      } else if key in db.kv {
        o := DoneWithoutNote;
      }
      ok := db.Commit();
      if !ok {
        db.Rollback();
        o := Failed;
      }
    }
  }

  // ---------------------------------------------------------------------------------------
  // Table agreement
  // ---------------------------------------------------------------------------------------

  /** kv message rows and index rows are in bijection; a lease is set exactly on inflight rows. */
  predicate Agree(t: Store) {
    t.kv.Keys == t.idx.Keys && forall k :: k in t.idx ==> WellFormed(t.idx[k])
  }

  lemma KeysAgree(t: Store, now: int, op: Op)
    requires t.kv.Keys == t.idx.Keys
    ensures Apply(t, now, op).kv.Keys == Apply(t, now, op).idx.Keys
    ensures !op.Enqueue? && !op.Ack? ==> Apply(t, now, op).kv.Keys == t.kv.Keys
  {
  }

  lemma RowStaysWellFormed(t: Store, now: int, op: Op, k: Key)
    requires k in Apply(t, now, op).idx
    requires k in t.idx ==> WellFormed(t.idx[k])
    ensures WellFormed(Apply(t, now, op).idx[k])
  {
  }

  /** Agreement survives every operation, however it ends, in whatever order they come. */
  lemma AgreementKept(t: Store, now: int, op: Op, o: Outcome, t': Store)
    requires Agree(t) && Step(t, now, op, o, t')
    ensures Agree(t')
  {
    if o != Failed {
      KeysAgree(t, now, op);
      forall k | k in t'.idx
        ensures WellFormed(t'.idx[k])
      {
        if k in Apply(t, now, op).idx {
          RowStaysWellFormed(t, now, op, k);
        }
      }
    }
  }

  datatype Call = Call(now: int, op: Op, outcome: Outcome)

  predicate Interleaving(ts: seq<Store>, calls: seq<Call>) {
    && |ts| == |calls| + 1
    && ts[0] == Tables(map[], map[])
    && forall i :: 0 <= i < |calls| ==> Step(ts[i], calls[i].now, calls[i].op, calls[i].outcome, ts[i + 1])
  }

  lemma {:induction false} AgreementAlways(ts: seq<Store>, calls: seq<Call>, i: nat)
    requires Interleaving(ts, calls) && i < |ts|
    ensures Agree(ts[i])
    ensures ts[i].kv.Keys == ts[i].idx.Keys
    ensures forall k :: k in ts[i].idx ==> (ts[i].idx[k].leaseUntil != None <==> ts[i].idx[k].state == Inflight)
  {
    if i > 0 {
      AgreementAlways(ts, calls, i - 1);
      var c := calls[i - 1];
      AgreementKept(ts[i - 1], c.now, c.op, c.outcome, ts[i]);
    }
  }
}
