/** The message index table: one row per message key, and what each statement does to a row. */
module IndexTable {
  import opened Types
  import RetryRules
  import Lifecycle

  datatype RowState = Ready | Inflight | Delayed | Dlq

  /** The queue column repeats the queue part of the key. leaseUntil None is SQL NULL. */
  datatype Row = Row(
    state: RowState,
    priority: int,
    availableAt: int,
    leaseUntil: Option<int>,
    attempt: int,
    target: string)

  type Index = map<Key, Row>

  function NewRow(m: Message, availableAt: int, now: int): Row {
    Row(if availableAt > now then Delayed else Ready, m.priority, availableAt, None, m.attempt, m.target)
  }

  function LeaseRow(r: Row, until: int): Row {
    r.(state := Inflight, leaseUntil := Some(until), attempt := r.attempt + 1)
  }

  function RequeueRow(r: Row, now: int): Row {
    r.(state := Ready, leaseUntil := None, availableAt := now)
  }

  function BuryRow(r: Row): Row {
    r.(state := Dlq, leaseUntil := None)
  }

  function ReviveRow(r: Row, now: int): Row {
    r.(state := Ready, leaseUntil := None, availableAt := now, attempt := 0)
  }

  function DelayRow(r: Row, state: RowState, availableAt: int): Row {
    r.(state := state, leaseUntil := None, availableAt := availableAt)
  }

  predicate Expired(r: Row, now: int) {
    r.state == Inflight && r.leaseUntil.Some? && r.leaseUntil.value < now
  }

  predicate Extendable(r: Row, now: int) {
    r.state == Inflight && r.leaseUntil.Some? && r.leaseUntil.value > now
  }

  predicate Promotable(r: Row, now: int) {
    r.state == Delayed && r.availableAt <= now
  }

  /** lease_until is set exactly on inflight rows. */
  predicate WellFormed(r: Row) {
    r.leaseUntil.Some? <==> r.state == Inflight
  }

  function Matching(idx: Index, p: (Key, Row) -> bool): set<Key> {
    set k | k in idx && p(k, idx[k])
  }

  function ExpiredKeys(idx: Index, now: int): set<Key> {
    set k | k in idx && Expired(idx[k], now)
  }

  function PromotableKeys(idx: Index, now: int): set<Key> {
    set k | k in idx && Promotable(idx[k], now)
  }

  /** UPDATE ... SET f WHERE p */
  function Updated(idx: Index, p: (Key, Row) -> bool, f: Row -> Row): Index {
    map k | k in idx :: if p(k, idx[k]) then f(idx[k]) else idx[k]
  }

  function UpdatedAt(idx: Index, k: Key, f: Row -> Row): Index {
    if k in idx then idx[k := f(idx[k])] else idx
  }

  /** The WHERE clause of lease_next. */
  predicate Eligible(idx: Index, queue: string, consumer: string, now: int, k: Key) {
    && k in idx
    && k.queue == queue
    && idx[k].state == Ready
    && idx[k].availableAt <= now
    && (idx[k].target == "" || idx[k].target == consumer)
  }

  /** ORDER BY priority DESC, available_at ASC: the higher number goes first. */
  predicate Before(a: Row, b: Row) {
    a.priority > b.priority || (a.priority == b.priority && a.availableAt <= b.availableAt)
  }

  predicate IsNext(idx: Index, queue: string, consumer: string, now: int, k: Key) {
    && Eligible(idx, queue, consumer, now, k)
    && forall j :: j in idx && Eligible(idx, queue, consumer, now, j) ==> Before(idx[k], idx[j])
  }

  /** The row LIMIT 1 may return: a best eligible one, none only if none is eligible. */
  predicate Picks(idx: Index, queue: string, consumer: string, now: int, picked: Option<Key>) {
    match picked
    case Some(k) => IsNext(idx, queue, consumer, now, k)
    case None => forall k :: k in idx ==> !Eligible(idx, queue, consumer, now, k)
  }

  /** What one sweep does to one row: nothing unless its lease is expired; then delay, bury or keep.
      zeroDelay is the state a backend gives to a message released without a policy. */
  function SweepRow(r: Row, policy: Option<QueuePolicy>, now: int, zeroDelay: RowState): Row {
    if !Expired(r, now) then r
    else
      match RetryRules.Decide(r.attempt, policy)
      case Retry(delay) => DelayRow(r, if delay > 0 then Delayed else zeroDelay, now + delay)
      case Bury => BuryRow(r)
      case Keep => r
  }

  /** The lifecycle state a row shows. */
  function LifeOf(r: Row): Lifecycle.Life {
    match r.state
    case Ready => Lifecycle.Ready(r.availableAt, r.attempt)
    case Delayed => Lifecycle.Delayed(r.availableAt, r.attempt)
    case Dlq => Lifecycle.Dead(r.attempt)
    case Inflight => Lifecycle.Inflight(if r.leaseUntil.Some? then r.leaseUntil.value else 0, r.attempt)
  }
}

/** Leasing until nothing is left, from the index table's point of view. */
module IndexDraining {
  import opened Types
  import opened IndexTable

  predicate Drains(idxs: seq<Index>, picks: seq<Key>, queue: string, consumer: string, until: int, now: int) {
    && |idxs| == |picks| + 1
    && (forall i :: 0 <= i < |picks| ==>
          && IsNext(idxs[i], queue, consumer, now, picks[i])
          && idxs[i + 1] == idxs[i][picks[i] := LeaseRow(idxs[i][picks[i]], until)])
    && Picks(idxs[|picks|], queue, consumer, now, None)
  }

  /** Exactly the eligible messages come out, each once, by descending priority and then by
      ascending available time. */
  lemma {:induction false} DrainOrder(idxs: seq<Index>, picks: seq<Key>, queue: string, consumer: string, until: int,
                                      now: int)
    requires Drains(idxs, picks, queue, consumer, until, now)
    ensures forall k :: k in picks <==> Eligible(idxs[0], queue, consumer, now, k)
    ensures forall i, j :: 0 <= i < j < |picks| ==>
      && picks[i] != picks[j] && picks[i] in idxs[0] && picks[j] in idxs[0]
      && (|| idxs[0][picks[i]].priority > idxs[0][picks[j]].priority
          || (&& idxs[0][picks[i]].priority == idxs[0][picks[j]].priority
              && idxs[0][picks[i]].availableAt <= idxs[0][picks[j]].availableAt))
    decreases |picks|
  {
    if |picks| > 0 {
      var first, rest := picks[0], picks[1..];
      DrainOrder(idxs[1..], rest, queue, consumer, until, now);
      assert forall k :: Eligible(idxs[1], queue, consumer, now, k) <==>
        Eligible(idxs[0], queue, consumer, now, k) && k != first;
      assert picks == [first] + rest;
      forall i, j | 0 <= i < j < |picks|
        ensures picks[i] != picks[j] && picks[i] in idxs[0] && picks[j] in idxs[0]
        ensures Before(idxs[0][picks[i]], idxs[0][picks[j]])
      {
        assert picks[j] == rest[j - 1] && rest[j - 1] in rest;
        if i > 0 {
          assert picks[i] == rest[i - 1] && rest[i - 1] in rest;
        }
      }
    }
  }
}
