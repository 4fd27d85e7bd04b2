/**
 The two tables of a backend database under begin / commit / rollback. Every
 statement may fail when faulty is set; a failed statement changes nothing. The
 mutex of the adapters allows one transaction at a time.
 */
module Database {
  import opened Types
  import opened Faults
  import opened IndexTable

  /** The kv rows of type 'message' and the index rows. */
  datatype Tables<V> = Tables(kv: map<Key, V>, idx: Index)

  class Connection<V> {
    const foreignKeys: bool
    const faulty: bool
    var kv: map<Key, V>
    var idx: Index
    var savedKv: map<Key, V>
    var savedIdx: Index
    var inTransaction: bool

    constructor (foreignKeys: bool, faulty: bool, kv: map<Key, V>, idx: Index)
      ensures this.foreignKeys == foreignKeys && this.faulty == faulty && !inTransaction
      ensures Content() == Tables(kv, idx)
    {
      this.foreignKeys, this.faulty := foreignKeys, faulty;
      this.kv, this.idx := kv, idx;
      savedKv, savedIdx := kv, idx;
      inTransaction := false;
    }

    function Content(): Tables<V>
      reads this
    {
      Tables(kv, idx)
    }

    /** What survives a crash: an open transaction does not. */
    function Durable(): Tables<V>
      reads this
    {
      if inTransaction then Tables(savedKv, savedIdx) else Tables(kv, idx)
    }

    method Begin() returns (ok: bool)
      requires !inTransaction
      modifies this
      ensures Content() == old(Content()) && Durable() == old(Durable())
      ensures inTransaction == ok
      ensures !faulty ==> ok
    {
      var fails := Fault(faulty);
      if !fails {
        savedKv, savedIdx, inTransaction := kv, idx, true;
      }
      ok := !fails;
    }

    method Commit() returns (ok: bool)
      requires inTransaction
      modifies this
      ensures Content() == old(Content())
      ensures inTransaction == !ok
      ensures !ok ==> Durable() == old(Durable())
      ensures !faulty ==> ok
    {
      var fails := Fault(faulty);
      if !fails {
        inTransaction := false;
      }
      ok := !fails;
    }

    method Rollback()
      requires inTransaction
      modifies this
      ensures !inTransaction && Content() == old(Durable())
    {
      kv, idx, inTransaction := savedKv, savedIdx, false;
    }

    /** INSERT: refused on a duplicate primary key. */
    method InsertKv(k: Key, v: V) returns (ok: bool)
      modifies this`kv
      ensures !faulty ==> ok == (k !in old(kv))
      ensures ok ==> k !in old(kv)
      ensures kv == if ok then old(kv)[k := v] else old(kv)
    {
      var fails := Fault(faulty);
      ok := !fails && k !in kv;
      if ok {
        kv := kv[k := v];
      }
    }

    /** INSERT: refused on a duplicate primary key or, with foreign keys on, a missing parent. */
    method InsertIdx(k: Key, r: Row) returns (ok: bool)
      modifies this`idx
      ensures !faulty ==> ok == (k !in old(idx) && (foreignKeys ==> k in kv))
      ensures ok ==> k !in old(idx) && (foreignKeys ==> k in kv)
      ensures idx == if ok then old(idx)[k := r] else old(idx)
    {
      var fails := Fault(faulty);
      ok := !fails && k !in idx && (foreignKeys ==> k in kv);
      if ok {
        idx := idx[k := r];
      }
    }

    /** INSERT OR IGNORE: succeeds without effect on a duplicate primary key. */
    method InsertKvOrIgnore(k: Key, v: V) returns (ok: bool)
      modifies this`kv
      ensures !faulty ==> ok
      ensures kv == if ok && k !in old(kv) then old(kv)[k := v] else old(kv)
    {
      var fails := Fault(faulty);
      ok := !fails;
      if ok && k !in kv {
        kv := kv[k := v];
      }
    }

    method InsertIdxOrIgnore(k: Key, r: Row) returns (ok: bool)
      requires !foreignKeys
      modifies this`idx
      ensures !faulty ==> ok
      ensures idx == if ok && k !in old(idx) then old(idx)[k := r] else old(idx)
    {
      var fails := Fault(faulty);
      ok := !fails;
      if ok && k !in idx {
        idx := idx[k := r];
      }
    }

    /** DELETE from kv; ON DELETE CASCADE reaches the index only with foreign keys on. */
    method DeleteKv(k: Key) returns (ok: bool)
      modifies this`kv, this`idx
      ensures !faulty ==> ok
      ensures kv == if ok then old(kv) - {k} else old(kv)
      ensures idx == if ok && foreignKeys && k in old(kv) then old(idx) - {k} else old(idx)
    {
      var fails := Fault(faulty);
      ok := !fails;
      if ok {
        if foreignKeys && k in kv {
          idx := idx - {k};
        }
        kv := kv - {k};
      }
    }

    method DeleteIdxWhere(k: Key, p: Row -> bool) returns (ok: bool)
      modifies this`idx
      ensures !faulty ==> ok
      ensures idx == if ok && k in old(idx) && p(old(idx)[k]) then old(idx) - {k} else old(idx)
    {
      var fails := Fault(faulty);
      ok := !fails;
      if ok && k in idx && p(idx[k]) {
        idx := idx - {k};
      }
    }

    /** UPDATE of the row of one key. */
    method UpdateIdxAt(k: Key, p: Row -> bool, f: Row -> Row) returns (ok: bool)
      modifies this`idx
      ensures !faulty ==> ok
      ensures idx == if ok && k in old(idx) && p(old(idx)[k]) then UpdatedAt(old(idx), k, f) else old(idx)
    {
      var fails := Fault(faulty);
      ok := !fails;
      if ok && k in idx && p(idx[k]) {
        idx := UpdatedAt(idx, k, f);
      }
    }

    /** UPDATE over the whole table, with the count SELECT changes() reports. */
    method UpdateIdxWhere(p: (Key, Row) -> bool, f: Row -> Row) returns (ok: bool, changes: nat)
      modifies this`idx
      ensures !faulty ==> ok
      ensures idx == if ok then Updated(old(idx), p, f) else old(idx)
      ensures ok ==> changes == |Matching(old(idx), p)|
    {
      var fails := Fault(faulty);
      ok := !fails;
      changes := |Matching(idx, p)|;
      if ok {
        idx := Updated(idx, p, f);
      }
    }

    method UpdateKv(k: Key, f: V -> V) returns (ok: bool)
      modifies this`kv
      ensures !faulty ==> ok
      ensures kv == if ok && k in old(kv) then old(kv)[k := f(old(kv)[k])] else old(kv)
    {
      var fails := Fault(faulty);
      ok := !fails;
      if ok && k in kv {
        kv := kv[k := f(kv[k])];
      }
    }

    /** SELECT value FROM kv WHERE key = k */
    method SelectKv(k: Key) returns (value: Option<V>)
      ensures value.Some? ==> k in kv && value.value == kv[k]
      ensures !faulty ==> (value.Some? <==> k in kv)
    {
      var fails := Fault(faulty);
      value := if !fails && k in kv then Some(kv[k]) else None;
    }

    /** SELECT ... WHERE message_key = k AND p; a failed query reads as no row. */
    method SelectIdx(k: Key, p: Row -> bool) returns (found: bool)
      ensures found ==> k in idx && p(idx[k])
      ensures !faulty ==> (found <==> k in idx && p(idx[k]))
    {
      var fails := Fault(faulty);
      found := !fails && k in idx && p(idx[k]);
    }

    /** WHERE queue = ? AND state = 'ready' AND available_at <= ? AND (target = '' OR target = ?) */
    function Waiting(queue: string, consumer: string, now: int): (rows: set<Key>)
      reads this
      ensures forall k :: k in rows <==> k in idx && Eligible(idx, queue, consumer, now, k)
    {
      set k | k in idx && k.queue == queue && idx[k].state == Ready && idx[k].availableAt <= now
              && (idx[k].target == "" || idx[k].target == consumer)
    }

    /** ORDER BY priority DESC, available_at ASC LIMIT 1 */
    method First(rows: set<Key>) returns (first: Key)
      requires rows <= idx.Keys && rows != {}
      ensures first in rows
      ensures forall j :: j in rows ==> idx[j].priority <= idx[first].priority
      ensures forall j :: j in rows && idx[j].priority == idx[first].priority ==>
        idx[first].availableAt <= idx[j].availableAt
    {
      var rest := rows;
      first :| first in rows;
      while rest != {}
        invariant rest <= rows && first in rows
        invariant forall j :: j in rows - rest ==> idx[j].priority <= idx[first].priority
        invariant forall j :: j in rows - rest && idx[j].priority == idx[first].priority ==>
          idx[first].availableAt <= idx[j].availableAt
        decreases rest
      {
        var k :| k in rest;
        rest := rest - {k};
        if idx[k].priority > idx[first].priority ||
           (idx[k].priority == idx[first].priority && idx[k].availableAt < idx[first].availableAt) {
          first := k;
        }
      }
    }

    /** The SELECT of lease_next: a ready, due row of the queue whose target admits the consumer, of the highest
        priority and among those the earliest; none only if there is none. ok is false when the statement itself
        fails. */
    method SelectNext(queue: string, consumer: string, now: int) returns (ok: bool, picked: Option<Key>)
      ensures ok ==> Picks(idx, queue, consumer, now, picked)
      ensures picked.Some? ==>
        && picked.value in idx && picked.value.queue == queue && idx[picked.value].state == Ready
        && idx[picked.value].availableAt <= now
        && (idx[picked.value].target == "" || idx[picked.value].target == consumer)
      ensures picked.Some? ==> forall j :: j in idx && Eligible(idx, queue, consumer, now, j) ==>
        && idx[j].priority <= idx[picked.value].priority
        && (idx[j].priority == idx[picked.value].priority ==> idx[picked.value].availableAt <= idx[j].availableAt)
      ensures ok && picked.None? ==>
        forall j :: j in idx && j.queue == queue && idx[j].state == Ready && idx[j].availableAt <= now ==>
          idx[j].target != "" && idx[j].target != consumer
      ensures !ok ==> picked == None
      ensures !faulty ==> ok
    {
      var fails := Fault(faulty);
      ok, picked := !fails, None;
      if ok {
        var rows := Waiting(queue, consumer, now);
        if rows != {} {
          var first := First(rows);
          assert Eligible(idx, queue, consumer, now, first);
          picked := Some(first);
        } else {
          assert forall j :: j in idx ==> j !in rows;
        }
      }
    }
  }
}
