/** QueueManager: the sweep that turns expired leases into retries or dead letters. */
module QueueManager {
  import opened Types
  import opened IndexTable
  import opened Database
  import opened Sqlite
  import RetryRules

  class QueueManager {
    const backend: SqliteAdapter
    var queuePolicies: map<string, QueuePolicy>

    constructor (backend: SqliteAdapter)
      ensures this.backend == backend && queuePolicies == map[]
    {
      this.backend := backend;
      queuePolicies := map[];
    }

    /** A failure to save the policy goes unnoticed: the manager then knows a policy the backend does not. */
    method RegisterQueue(name: string, policy: QueuePolicy)
      modifies this`queuePolicies, backend`policies
      ensures queuePolicies == old(queuePolicies)[name := policy]
      ensures backend.policies == old(backend.policies)[name := policy] ||
              (backend.db.faulty && backend.policies == old(backend.policies))
    {
      queuePolicies := queuePolicies[name := policy];
      var saved := backend.SavePolicy(name, policy);
    }

    /** Retry, bury or keep one expired message of a queue with a policy. */
    method ApplyRetryOrDlq(key: Key, attempt: int, policy: QueuePolicy, now: int) returns (ok: bool, ghost o: Outcome)
      requires backend.Valid()
      modifies backend.db
      ensures backend.Valid()
      ensures ok <==> o != Failed
      ensures !backend.db.faulty ==> o == Done
      ensures attempt < policy.retry.limit ==>
        backend.Content() ==
          After(old(backend.Content()), now, DelayMessage(key, RetryRules.BackoffDelay(attempt, policy.retry)), o)
      ensures attempt >= policy.retry.limit && policy.dlq.enabled ==>
        backend.Content() == After(old(backend.Content()), now, MoveToDlq(key, RetryRules.LimitReason(attempt)), o)
      ensures attempt >= policy.retry.limit && !policy.dlq.enabled ==> backend.Content() == old(backend.Content())
    {
      if attempt >= policy.retry.limit {
        if policy.dlq.enabled {
          ok, o := backend.Bury(key, RetryRules.LimitReason(attempt), now);
        } else {
          ok, o := true, Done;
        }
        return;
      }
      var delayMs := RetryRules.BackoffDelay(attempt, policy.retry);
      ok := backend.Delay(key, delayMs, now);
      o := if ok then Done else Failed;
    }

    /** One entry of the snapshot: without a policy the message is released at once. */
    method HandleExpired(info: ExpiredLease, now: int) returns (ghost o: Outcome)
      requires backend.Valid()
      modifies backend.db
      ensures backend.Valid()
      ensures !backend.db.faulty ==> o == Done
      ensures backend.Content() ==
        Acted(old(backend.Content()), now, ActionOn(info.key, info.attempt, PolicyOf(queuePolicies, info.key.queue)), o)
    {
      var policy := PolicyOf(queuePolicies, info.key.queue);
      if policy.None? {
        var released := backend.Delay(info.key, 0, now);
        o := if released then Done else Failed;
      } else {
        var handled;
        handled, o := ApplyRetryOrDlq(info.key, info.attempt, policy.value, now);
      }
    }

    /** One sweep as one step. Without faults it is exactly Apply of Sweep; with failing statements every
        message is still either swept or untouched. */
    method RecoverExpiredLeases(now: int)
      requires backend.Valid() && backend.db.kv.Keys == backend.db.idx.Keys
      modifies backend.db
      ensures backend.Valid()
      ensures !backend.db.faulty ==> backend.Content() == Apply(old(backend.Content()), now, Sweep(queuePolicies))
      ensures SweptOrKept(old(backend.Content()), backend.Content(), queuePolicies, now)
    {
      hide SweptUpTo, Acted, ActionOn;
      ghost var before := backend.Content();
      ghost var faulty := backend.db.faulty;
      NothingSwept(before, queuePolicies, now, faulty);
      var ok, expired := backend.GetExpiredInflightMessages(now);
      if !ok { return; }
      ghost var done: set<Key> := {};
      for i := 0 to |expired|
        invariant backend.Valid()
        invariant done == KeysOf(expired[..i])
        invariant SweptUpTo(before, backend.Content(), queuePolicies, now, done, faulty)
      {
        var info := expired[i];
        ghost var was := backend.Content();
        KeysOfNext(expired, i);
        assert info in expired;
        ghost var o := HandleExpired(info, now);
        OneSwept(before, was, backend.Content(), queuePolicies, now, done, info.key, o, faulty);
        done := done + {info.key};
      }
      assert expired[..|expired|] == expired;
      TrueExpired(before, expired, now);
      SweptIsSweptOrKept(before, backend.Content(), queuePolicies, now, done, faulty);
      if !faulty {
        AllSwept(before, backend.Content(), queuePolicies, now, expired);
      }
    }

    method ProcessDelayedMessages(now: int)
      requires backend.Valid()
      modifies backend.db
      ensures backend.Valid()
      ensures !backend.db.faulty ==> backend.Content() == Apply(old(backend.Content()), now, ProcessDelayed)
      ensures backend.Content() == old(backend.Content()) ||
        backend.Content() == Apply(old(backend.Content()), now, ProcessDelayed)
    {
      var ok, count := backend.ProcessDelayedMessages(now);
    }
  }

  function KeysOf(expired: seq<ExpiredLease>): set<Key> {
    set i | 0 <= i < |expired| :: expired[i].key
  }

  lemma KeysOfNext(expired: seq<ExpiredLease>, i: nat)
    requires i < |expired|
    requires forall x, y :: 0 <= x < y < |expired| ==> expired[x].key != expired[y].key
    ensures KeysOf(expired[..i + 1]) == KeysOf(expired[..i]) + {expired[i].key}
    ensures expired[i].key !in KeysOf(expired[..i])
  {
  }

  predicate RowSwept(t: Store, t': Store, policies: map<string, QueuePolicy>, now: int, k: Key)
    requires k in t.idx && k in t'.idx && k in t.kv && k in t'.kv
  {
    && t'.idx[k] == SweepRow(t.idx[k], PolicyOf(policies, k.queue), now, Delayed)
    && t'.kv[k] == SweptEnvelope(t, k, policies, now)
  }

  predicate RowKept(t: Store, t': Store, k: Key)
    requires k in t.idx && k in t'.idx && k in t.kv && k in t'.kv
  {
    t'.idx[k] == t.idx[k] && t'.kv[k] == t.kv[k]
  }

  /** A swept row whose DLQ note was lost, or a row on which the action failed. */
  predicate RowTried(t: Store, t': Store, policies: map<string, QueuePolicy>, now: int, k: Key)
    requires k in t.idx && k in t'.idx && k in t.kv && k in t'.kv
  {
    || RowKept(t, t', k)
    || (t'.idx[k] == SweepRow(t.idx[k], PolicyOf(policies, k.queue), now, Delayed) && t'.kv[k] == t.kv[k])
  }

  ghost predicate SameKeys(t: Store, t': Store) {
    t.kv.Keys == t.idx.Keys && t'.kv.Keys == t.kv.Keys && t'.idx.Keys == t.idx.Keys
  }

  ghost predicate SweptUpTo(t: Store, t': Store, policies: map<string, QueuePolicy>, now: int, done: set<Key>,
                            faulty: bool) {
    && SameKeys(t, t')
    && forall k :: k in t.idx ==>
         if k in done then RowSwept(t, t', policies, now, k) || (faulty && RowTried(t, t', policies, now, k))
         else RowKept(t, t', k)
  }

  ghost predicate SweptOrKept(t: Store, t': Store, policies: map<string, QueuePolicy>, now: int) {
    && SameKeys(t, t')
    && forall k :: k in t.idx ==>
         && (RowSwept(t, t', policies, now, k) || RowTried(t, t', policies, now, k))
         && (!Expired(t.idx[k], now) ==> RowKept(t, t', k))
  }

  /** The backend call the sweep makes for one message of its snapshot, if any. */
  function ActionOn(k: Key, attempt: int, policy: Option<QueuePolicy>): Option<Op> {
    match RetryRules.Decide(attempt, policy)
    case Retry(delayMs) => Some(DelayMessage(k, delayMs))
    case Bury => Some(MoveToDlq(k, RetryRules.LimitReason(attempt)))
    case Keep => None
  }

  function Acted(was: Store, now: int, action: Option<Op>, o: Outcome): Store {
    if action.Some? then After(was, now, action.value, o) else was
  }

  lemma ActionTouchesOne(was: Store, now: int, k: Key, r: Row, policy: Option<QueuePolicy>, o: Outcome)
    requires k in was.idx && k in was.kv && was.idx[k] == r && Expired(r, now)
    ensures
      var t' := Acted(was, now, ActionOn(k, r.attempt, policy), o);
      && t'.kv.Keys == was.kv.Keys && t'.idx.Keys == was.idx.Keys
      && (forall j :: j in was.idx && j != k ==> t'.idx[j] == was.idx[j])
      && (forall j :: j in was.kv && j != k ==> t'.kv[j] == was.kv[j])
      && (o == Done ==> t'.idx[k] == SweepRow(r, policy, now, Delayed))
      && (t'.idx[k] == r || t'.idx[k] == SweepRow(r, policy, now, Delayed))
      && t'.kv[k] == if o == Done && Buries(r, policy, now)
                     then was.kv[k].(dlq := Some(DlqNote(RetryRules.LimitReason(r.attempt), now))) else was.kv[k]
  {
  }

  lemma NothingSwept(t: Store, policies: map<string, QueuePolicy>, now: int, faulty: bool)
    requires t.kv.Keys == t.idx.Keys
    ensures SweptUpTo(t, t, policies, now, {}, faulty) && SweptOrKept(t, t, policies, now)
  {
  }

  lemma OneSwept(t: Store, was: Store, t': Store, policies: map<string, QueuePolicy>, now: int, done: set<Key>, k: Key,
                 o: Outcome, faulty: bool)
    requires SweptUpTo(t, was, policies, now, done, faulty)
    requires k in t.idx && k !in done && Expired(t.idx[k], now)
    requires t' == Acted(was, now, ActionOn(k, t.idx[k].attempt, PolicyOf(policies, k.queue)), o)
    requires !faulty ==> o == Done
    ensures SweptUpTo(t, t', policies, now, done + {k}, faulty)
  {
    hide Acted, ActionOn, SweepRow;
    assert RowKept(t, was, k);
    ActionTouchesOne(was, now, k, t.idx[k], PolicyOf(policies, k.queue), o);
    assert SameKeys(t, t');
    forall j | j in t.idx
      ensures if j in done + {k} then RowSwept(t, t', policies, now, j) || (faulty && RowTried(t, t', policies, now, j))
              else RowKept(t, t', j)
    {
      if j != k {
        assert t'.idx[j] == was.idx[j] && t'.kv[j] == was.kv[j];
      }
    }
  }

  lemma TrueExpired(t: Store, expired: seq<ExpiredLease>, now: int)
    requires forall e :: e in expired ==> e.key in t.idx && Expired(t.idx[e.key], now)
    ensures forall k :: k in KeysOf(expired) ==> k in t.idx && Expired(t.idx[k], now)
  {
  }

  lemma SweptIsSweptOrKept(t: Store, t': Store, policies: map<string, QueuePolicy>, now: int, done: set<Key>,
                           faulty: bool)
    requires SweptUpTo(t, t', policies, now, done, faulty)
    requires forall k :: k in done ==> k in t.idx && Expired(t.idx[k], now)
    ensures SweptOrKept(t, t', policies, now)
  {
  }

  lemma AllSwept(t: Store, t': Store, policies: map<string, QueuePolicy>, now: int, expired: seq<ExpiredLease>)
    requires SweptUpTo(t, t', policies, now, KeysOf(expired), false)
    requires forall k :: k in t.idx && Expired(t.idx[k], now) ==> ExpiredLease(k, t.idx[k].attempt) in expired
    ensures t' == Apply(t, now, Sweep(policies))
  {
  }

  /** What a sweep with failing statements leaves: every row is as before or as a complete sweep makes it, a note is
      only written with a burial, and a row whose lease is not expired is as before. */
  lemma SweptOrKeptMeans(t: Store, t': Store, policies: map<string, QueuePolicy>, now: int, k: Key)
    requires SweptOrKept(t, t', policies, now)
    ensures k in t'.idx <==> k in t.idx
    ensures k in t'.kv <==> k in t.kv
    ensures k in t.idx ==> k in t.kv
    ensures k in t.idx ==>
      var s := Apply(t, now, Sweep(policies));
      && (t'.idx[k] == t.idx[k] || t'.idx[k] == s.idx[k])
      && (t'.kv[k] == t.kv[k] || (t'.kv[k] == s.kv[k] && t'.idx[k] == s.idx[k]))
      && (!Expired(t.idx[k], now) ==> t'.idx[k] == t.idx[k] && t'.kv[k] == t.kv[k])
  {
    assert k in t'.idx.Keys <==> k in t.idx.Keys;
    assert k in t.kv.Keys <==> k in t.idx.Keys;
    assert k in t'.kv.Keys <==> k in t.kv.Keys;
  }

  /** Sweep completeness: an expired lease stays inflight exactly when its message is at or over the limit
      and the DLQ is off; every other one is buried or released at the right time, and nothing else moves. */
  lemma SweepComplete(t: Store, now: int, policies: map<string, QueuePolicy>, k: Key)
    requires k in t.idx
    ensures
      var r, r' := t.idx[k], Apply(t, now, Sweep(policies)).idx[k];
      var policy := PolicyOf(policies, k.queue);
      && (!Expired(r, now) ==> r' == r)
      && (Expired(r, now) ==>
            && (Expired(r', now) <==>
              policy.Some? && r.attempt >= policy.value.retry.limit && !policy.value.dlq.enabled)
            && (r'.state == Dlq <==> policy.Some? && r.attempt >= policy.value.retry.limit && policy.value.dlq.enabled)
            && (r'.state == Delayed <==> policy.None? || r.attempt < policy.value.retry.limit)
            && (r'.state == Delayed ==>
                  && r'.attempt == r.attempt
                  && r'.availableAt ==
                       now + (if policy.None? then 0 else RetryRules.BackoffDelay(r.attempt, policy.value.retry))))
      && r'.priority == r.priority && r'.target == r.target && r'.attempt == r.attempt
      && (r'.state == Inflight || r == r' || r'.leaseUntil == None)
    ensures k in t.kv ==>
      var e, t' := t.kv[k], Apply(t, now, Sweep(policies));
      && k in t'.kv
      && (t'.idx[k].state == t.idx[k].state || t'.idx[k].state != Dlq ==> t'.kv[k] == e)
      && (t'.idx[k].state != t.idx[k].state && t'.idx[k].state == Dlq ==>
            t'.kv[k] == e.(dlq := Some(DlqNote(RetryRules.LimitReason(t.idx[k].attempt), now))))
  {
    hide RetryRules.BackoffDelay, RetryRules.LimitReason;
  }

  /** Advancing time and then promoting makes every released message ready, with its attempt kept. */
  lemma ReleasedBecomeReady(t: Store, now: int, policies: map<string, QueuePolicy>, k: Key, later: int)
    requires k in t.idx && Expired(t.idx[k], now)
    requires var r := Apply(t, now, Sweep(policies)).idx[k]; r.state == Delayed && r.availableAt <= later
    ensures
      var swept := Apply(t, now, Sweep(policies));
      var r := Apply(swept, later, ProcessDelayed).idx[k];
      r.state == Ready && r.attempt == t.idx[k].attempt && r.leaseUntil == None
  {
  }

  /** Nothing is left for a second sweep at the same instant. */
  lemma SweepIsExhaustive(t: Store, now: int, policies: map<string, QueuePolicy>)
    ensures
      var swept := Apply(t, now, Sweep(policies));
      Apply(swept, now, Sweep(policies)).idx == swept.idx
  {
  }
}
