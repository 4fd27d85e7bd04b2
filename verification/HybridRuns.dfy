/** Whole runs of the Hybrid backend without faults: agreement, content, and the lifecycle of each message. */
module HybridRuns {
  import opened Types
  import opened IndexTable
  import opened IndexDraining
  import opened Hybrid
  import RetryRules
  import L = Lifecycle

  /** The store and every message ever published; a published key is never generated again. */
  datatype Sys = Sys(h: Store, published: map<Key, Message>)

  /** SweepOne is the sweeper's action on one message of a fresh snapshot. */
  datatype Act = Client(op: Op) | SweepOne(key: Key, policies: map<string, QueuePolicy>, reason: string)

  datatype Call = Call(now: int, act: Act)

  /** What clients and the daemon call on their own. */
  predicate Offered(s: Sys, op: Op) {
    match op
    case Enqueue(m) => m.key !in s.published
    case RecoverExpired => false
    case DelayMessage(_, _) => false
    case MoveToDlq(_, _) => false
    case _ => true
  }

  /** The backend call the sweeper makes for an expired lease in its snapshot, if any. */
  function ActionOn(k: Key, attempt: int, policy: Option<QueuePolicy>, reason: string): Option<Op> {
    match RetryRules.Decide(attempt, policy)
    case Retry(delayMs) => Some(DelayMessage(k, delayMs))
    case Bury => Some(MoveToDlq(k, reason))
    case Keep => None
  }

  function SweepCall(h: Store, k: Key, policies: map<string, QueuePolicy>, reason: string, now: int): Option<Op> {
    if k !in h.idx || !Expired(h.idx[k], now) then None
    else ActionOn(k, h.idx[k].attempt, PolicyOf(policies, k.queue), reason)
  }

  function Acted(h: Store, now: int, action: Option<Op>): Store {
    if action.Some? then Apply(h, now, action.value) else h
  }

  function OpOf(s: Sys, c: Call): Option<Op> {
    match c.act
    case Client(op) => Some(op)
    case SweepOne(k, policies, reason) => SweepCall(s.h, k, policies, reason, c.now)
  }

  predicate SysStep(s: Sys, c: Call, s': Sys) {
    && (c.act.Client? ==> Offered(s, c.act.op) && Chosen(s.h, c.now, c.act.op))
    && s'.h == Acted(s.h, c.now, OpOf(s, c))
    && s'.published ==
         if c.act.Client? && c.act.op.Enqueue? then s.published[c.act.op.m.key := c.act.op.m] else s.published
  }

  /** Payload files hold what was published. */
  predicate FilesFaithful(s: Sys, k: Key) {
    && (k in s.h.active ==> k in s.published && s.h.active[k] == PayloadOf(s.published[k]))
    && (k in s.h.dlq ==> k in s.published && s.h.dlq[k] == PayloadOf(s.published[k]))
  }

  /** The two tables hold the same keys, and envelopes keep the fixed fields of what was published. */
  predicate RowsFaithful(s: Sys, k: Key) {
    && (k in s.h.idx <==> k in s.h.kv)
    && (k in s.h.idx ==>
          && k in s.published && WellFormed(s.h.idx[k])
          && s.h.idx[k].priority == s.published[k].priority && s.h.idx[k].target == s.published[k].target)
    && (k in s.h.kv && k in s.published ==>
          s.h.kv[k].priority == s.published[k].priority && s.h.kv[k].createdAt == s.published[k].createdAt)
  }

  predicate Faithful(s: Sys, k: Key) {
    FilesFaithful(s, k) && RowsFaithful(s, k)
  }

  ghost predicate Sane(s: Sys) {
    Agree(s.h) && s.h.kv.Keys == s.h.idx.Keys && forall k :: Faithful(s, k)
  }

  ghost predicate Run(ss: seq<Sys>, calls: seq<Call>) {
    && |ss| == |calls| + 1
    && ss[0] == Sys(Store(map[], map[], map[], map[], map[]), map[])
    && (forall i :: 0 <= i < |calls| ==> SysStep(ss[i], calls[i], ss[i + 1]))
    && (forall i, j :: 0 <= i <= j < |calls| ==> calls[i].now <= calls[j].now)
  }

  /** A run starts with an empty store, and at any later time any client call, promotion or sweeper's action continues
      it; only keys must be new, and a lease takes the row its SELECT picks. */
  lemma RunContinues(ss: seq<Sys>, calls: seq<Call>, c: Call) returns (s: Sys)
    requires |calls| == 0 ==> ss == [Sys(Store(map[], map[], map[], map[], map[]), map[])]
    requires |calls| > 0 ==> Run(ss, calls) && calls[|calls| - 1].now <= c.now
    requires c.act.Client? ==>
      && !c.act.op.RecoverExpired? && !c.act.op.DelayMessage? && !c.act.op.MoveToDlq?
      && (c.act.op.Enqueue? ==> c.act.op.m.key !in ss[|calls|].published)
      && (c.act.op.LeaseNext? ==> Picks(ss[|calls|].h.idx, c.act.op.queue, c.act.op.consumer, c.now, c.act.op.picked))
    ensures Run(ss + [s], calls + [c])
    ensures c.act.Client? ==> s.h == Apply(ss[|calls|].h, c.now, c.act.op)
  {
    hide Apply;
    var was := ss[|calls|];
    s := Sys(Acted(was.h, c.now, OpOf(was, c)),
             if c.act.Client? && c.act.op.Enqueue? then was.published[c.act.op.m.key := c.act.op.m] else was.published);
    assert SysStep(was, c, s);
  }

  lemma RowOpsFaithful(h: Store, now: int, op: Op, published: map<Key, Message>, k: Key)
    requires Faithful(Sys(h, published), k)
    requires op.LeaseNext? || op.ExtendLease? || op.ProcessDelayed? || op.DelayMessage?
    ensures Faithful(Sys(Apply(h, now, op), published), k)
  {
  }

  lemma FileOpsFaithful(h: Store, now: int, op: Op, published: map<Key, Message>, k: Key)
    requires Faithful(Sys(h, published), k)
    requires op.Ack? || op.Nack? || op.MoveToDlq? || op.Reprocess?
    ensures Faithful(Sys(Apply(h, now, op), published), k)
  {
    MovedFilesFaithful(h, now, op, published, k);
    MovedRowsFaithful(h, now, op, published, k);
  }

  lemma MovedFilesFaithful(h: Store, now: int, op: Op, published: map<Key, Message>, k: Key)
    requires FilesFaithful(Sys(h, published), k)
    requires op.Ack? || op.Nack? || op.MoveToDlq? || op.Reprocess?
    ensures FilesFaithful(Sys(Apply(h, now, op), published), k)
  {
  }

  lemma MovedRowsFaithful(h: Store, now: int, op: Op, published: map<Key, Message>, k: Key)
    requires RowsFaithful(Sys(h, published), k)
    requires op.Ack? || op.Nack? || op.MoveToDlq? || op.Reprocess?
    ensures RowsFaithful(Sys(Apply(h, now, op), published), k)
  {
    hide Taken, Put;
    match op
    case Ack(_) =>
    case Nack(key, reason, requeue) =>
      if !requeue && IsInflight(h.idx, key) {
        BuriedRowsFaithful(h, now, key, reason, published, k);
      }
    case MoveToDlq(key, reason) =>
      if key in h.idx {
        BuriedRowsFaithful(h, now, key, reason, published, k);
      }
    case Reprocess(_) =>
  }

  lemma BuriedRowsFaithful(h: Store, now: int, key: Key, reason: string, published: map<Key, Message>, k: Key)
    requires RowsFaithful(Sys(h, published), k) && key in h.idx
    ensures RowsFaithful(Sys(FileBuried(Buried(h, key, reason, now), key), published), k)
  {
    hide Taken, Put;
  }

  lemma EnqueueFaithful(s: Sys, m: Message, now: int, k: Key)
    requires Faithful(s, k) && Faithful(s, m.key) && m.key !in s.published
    ensures Faithful(Sys(Enqueued(s.h, m, now), s.published[m.key := m]), k)
  {
  }

  lemma SaneKept(s: Sys, c: Call, s': Sys)
    requires Sane(s) && SysStep(s, c, s')
    ensures Sane(s')
  {
    var op := OpOf(s, c);
    if op.Some? {
      assert c.act.Client? && c.act.op.Enqueue? ==> Faithful(s, c.act.op.m.key);
      forall k
        ensures Faithful(s', k)
      {
        assert Faithful(s, k);
        if op.value.Enqueue? {
          EnqueueFaithful(s, op.value.m, c.now, k);
        } else if op.value.Ack? || op.value.Nack? || op.value.MoveToDlq? || op.value.Reprocess? {
          FileOpsFaithful(s.h, c.now, op.value, s.published, k);
        } else {
          RowOpsFaithful(s.h, c.now, op.value, s.published, k);
        }
      }
      assert forall k :: k in s'.h.idx <==> k in s'.h.kv by {
        forall k
          ensures k in s'.h.idx <==> k in s'.h.kv
        {
          assert Faithful(s', k);
        }
      }
      AgreementStep(s, c, s', op.value);
    }
  }

  lemma AgreementStep(s: Sys, c: Call, s': Sys, op: Op)
    requires Sane(s) && SysStep(s, c, s') && OpOf(s, c) == Some(op)
    ensures Agree(s'.h)
  {
    if op.Enqueue? {
      assert Faithful(s, op.m.key);
      EnqueueKeepsAgreementIff(s.h, op.m, c.now);
    } else if op.DelayMessage? {
      DelayKeepsAgreementIff(s.h, c.now, op.key, op.delayMs);
    } else {
      OthersKeepAgreement(s.h, c.now, op);
    }
  }

  lemma {:induction false} AlwaysSane(ss: seq<Sys>, calls: seq<Call>, i: nat)
    requires Run(ss, calls) && i < |ss|
    ensures Sane(ss[i])
  {
    if i == 0 {
      forall k
        ensures AgreesOn(ss[0].h, k) && Faithful(ss[0], k)
      {
      }
    } else {
      AlwaysSane(ss, calls, i - 1);
      SaneKept(ss[i - 1], calls[i - 1], ss[i]);
    }
  }

  /** Agreement over whole runs: rows and payload files agree in every reachable state, so
      check_consistency has no payload to report there. */
  lemma NothingToReport(ss: seq<Sys>, calls: seq<Call>, i: nat, queue: string)
    requires Run(ss, calls) && i < |ss|
    ensures forall k :: k in ss[i].h.active <==> k in ss[i].h.idx && ss[i].h.idx[k].state != Dlq
    ensures forall k :: k in ss[i].h.dlq <==> k in ss[i].h.idx && ss[i].h.idx[k].state == Dlq
    ensures forall issue :: !IsIssue(ss[i].h, queue, issue)
  {
    AlwaysSane(ss, calls, i);
    forall k
      ensures k in ss[i].h.active <==> k in ss[i].h.idx && ss[i].h.idx[k].state != Dlq
      ensures k in ss[i].h.dlq <==> k in ss[i].h.idx && ss[i].h.idx[k].state == Dlq
    {
      assert AgreesOn(ss[i].h, k);
    }
    NoIssueIffAgree(ss[i].h, queue);
  }

  /** Every lease returns what was published under its key, to a consumer its target admits, with one more attempt
      than before. */
  lemma LeaseReturnsPublished(ss: seq<Sys>, calls: seq<Call>, i: nat, k: Key)
    requires Run(ss, calls) && i < |calls|
    requires calls[i].act.Client? && calls[i].act.op.LeaseNext? && calls[i].act.op.picked == Some(k)
    ensures k in ss[i].published && k in ss[i].h.idx && k in ss[i + 1].h.kv && k in ss[i + 1].h.idx
    ensures var op, p := calls[i].act.op, ss[i].published[k];
            k.queue == op.queue && (p.target == "" || p.target == op.consumer) && ss[i].h.idx[k].priority == p.priority
    ensures var m, p := MessageOf(ss[i + 1].h, k), ss[i].published[k];
            && m.payload == p.payload && m.attributes == p.attributes
            && m.priority == p.priority && m.createdAt == p.createdAt
            && m.attempt == ss[i].h.idx[k].attempt + 1
  {
    AlwaysSane(ss, calls, i + 1);
    assert SysStep(ss[i], calls[i], ss[i + 1]);
    AlwaysSane(ss, calls, i);
    assert Faithful(ss[i], k) && Faithful(ss[i + 1], k);
    assert AgreesOn(ss[i + 1].h, k);
  }

  // ---------------------------------------------------------------------------------------
  // Refinement of the lifecycle
  // ---------------------------------------------------------------------------------------

  function LifeIn(s: Sys, k: Key): L.Life {
    if k in s.h.idx then LifeOf(s.h.idx[k])
    else if k in s.published then L.Acked
    else L.Unpublished
  }

  function EventOn(s: Sys, c: Call, k: Key): L.Event {
    match c.act
    case SweepOne(key, policies, _) =>
      if key == k && k in s.h.idx && Expired(s.h.idx[k], c.now) then L.Expire(PolicyOf(policies, k.queue)) else L.Idle
    case Client(op) =>
      match op
      case Enqueue(m) => if m.key == k then L.Publish(m.availableAt, m.attempt) else L.Idle
      case LeaseNext(_, _, visibility, picked) =>
        if picked == Some(k) then L.Lease(c.now + visibility * 1000) else L.Idle
      case Ack(key) => if key == k && IsInflight(s.h.idx, k) then L.Ack else L.Idle
      case Nack(key, _, requeue) =>
        if key == k && IsInflight(s.h.idx, k) then if requeue then L.Requeue else L.Reject else L.Idle
      case ExtendLease(key, visibility) =>
        if key == k && k in s.h.idx && Extendable(s.h.idx[k], c.now) then L.Extend(c.now + visibility * 1000)
        else L.Idle
      case ProcessDelayed => if k in s.h.idx && Promotable(s.h.idx[k], c.now) then L.Promote else L.Idle
      case Reprocess(key) => if key == k && IsDlq(s.h.idx, k) then L.Reprocess else L.Idle
      case _ => L.Idle
  }

  lemma SweepStepIsLife(s: Sys, c: Call, s': Sys, k: Key)
    requires Sane(s) && SysStep(s, c, s') && c.act.SweepOne?
    ensures L.Next(c.now, LifeIn(s, k), EventOn(s, c, k), LifeIn(s', k))
  {
    assert Faithful(s, k);
  }

  lemma PublishLeaseStepIsLife(s: Sys, c: Call, s': Sys, k: Key)
    requires Sane(s) && SysStep(s, c, s') && c.act.Client?
    requires c.act.op.Enqueue? || c.act.op.LeaseNext? || c.act.op.Ack?
    ensures L.Next(c.now, LifeIn(s, k), EventOn(s, c, k), LifeIn(s', k))
  {
    assert Faithful(s, k);
    if c.act.op.Enqueue? {
      assert Faithful(s, c.act.op.m.key);
    }
  }

  lemma OtherStepIsLife(s: Sys, c: Call, s': Sys, k: Key)
    requires Sane(s) && SysStep(s, c, s') && c.act.Client?
    requires !c.act.op.Enqueue? && !c.act.op.LeaseNext? && !c.act.op.Ack?
    ensures L.Next(c.now, LifeIn(s, k), EventOn(s, c, k), LifeIn(s', k))
  {
    assert Faithful(s, k);
  }

  lemma StepIsLife(s: Sys, c: Call, s': Sys, k: Key)
    requires Sane(s) && SysStep(s, c, s')
    ensures L.Next(c.now, LifeIn(s, k), EventOn(s, c, k), LifeIn(s', k))
  {
    if c.act.SweepOne? {
      SweepStepIsLife(s, c, s', k);
    } else if c.act.op.Enqueue? || c.act.op.LeaseNext? || c.act.op.Ack? {
      PublishLeaseStepIsLife(s, c, s', k);
    } else {
      OtherStepIsLife(s, c, s', k);
    }
  }

  function Lives(ss: seq<Sys>, k: Key): seq<L.Life> {
    seq(|ss|, i requires 0 <= i < |ss| => LifeIn(ss[i], k))
  }

  function Moments(ss: seq<Sys>, calls: seq<Call>, k: Key): seq<L.Moment>
    requires |ss| == |calls| + 1
  {
    seq(|calls|, i requires 0 <= i < |calls| => L.Moment(calls[i].now, EventOn(ss[i], calls[i], k)))
  }

  /** Refinement: every run of the backend is, message by message, a run of the lifecycle. */
  lemma RunIsLife(ss: seq<Sys>, calls: seq<Call>, k: Key)
    requires Run(ss, calls)
    ensures L.ValidRun(Lives(ss, k), Moments(ss, calls, k))
  {
    var lives, moments := Lives(ss, k), Moments(ss, calls, k);
    forall i | 0 <= i < |calls|
      ensures L.Next(moments[i].now, lives[i], moments[i].event, lives[i + 1])
    {
      AlwaysSane(ss, calls, i);
      StepIsLife(ss[i], calls[i], ss[i + 1], k);
    }
  }

  lemma NeverEarly(ss: seq<Sys>, calls: seq<Call>, i: nat, k: Key)
    requires Run(ss, calls) && i < |calls| && k in ss[i].h.idx && ss[i].h.idx[k].state == Ready
    ensures ss[i].h.idx[k].availableAt <= calls[i].now
  {
    RunIsLife(ss, calls, k);
    L.NeverEarly(Lives(ss, k), Moments(ss, calls, k), i);
  }

  lemma LeaseExclusive(ss: seq<Sys>, calls: seq<Call>, k: Key, i: nat, j: nat)
    requires Run(ss, calls) && i < j < |calls|
    requires calls[i].act.Client? && calls[i].act.op.LeaseNext? && calls[i].act.op.picked == Some(k)
    requires calls[j].act.Client? && calls[j].act.op.LeaseNext? && calls[j].act.op.picked == Some(k)
    requires forall x :: i < x < j ==>
      !(calls[x].act.Client? && calls[x].act.op.LeaseNext? && calls[x].act.op.picked == Some(k))
    ensures
      || (exists x :: i < x < j
            && calls[x].act.Client? && calls[x].act.op.Nack? && calls[x].act.op.key == k)
      || L.CurrentExpiry(Moments(ss, calls, k), i, j) < calls[j].now
    ensures
      || (exists x :: i < x < j
            && calls[x].act.Client? && calls[x].act.op.Nack? && calls[x].act.op.key == k)
      || (exists x :: i < x < j
            && calls[x].act.Client? && calls[x].act.op.ExtendLease? && calls[x].act.op.key == k)
      || calls[i].now + calls[i].act.op.visibilitySec * 1000 < calls[j].now
  {
    hide EventOn;
    forall x | 0 <= x < |calls|
      ensures EventFits(ss[x], calls[x], k)
    {
      EventIs(ss[x], calls[x], k);
    }
    RunIsLife(ss, calls, k);
    var ms := Moments(ss, calls, k);
    L.LeaseExclusive(Lives(ss, k), ms, i, j);
    if forall x :: i < x < j ==> !ms[x].event.Extend? {
      L.UnextendedExpiry(ms, i, j);
    }
  }

  /** Which calls the events of a message come from. */
  predicate EventFits(s: Sys, c: Call, k: Key) {
    var e := EventOn(s, c, k);
    && (e.Lease? <==> c.act.Client? && c.act.op.LeaseNext? && c.act.op.picked == Some(k))
    && (e.Lease? ==> e.leaseUntil == c.now + c.act.op.visibilitySec * 1000)
    && (e.Requeue? || e.Reject? ==>
          c.act.Client? && c.act.op.Nack? && c.act.op.key == k)
    && (e.Extend? ==> c.act.Client? && c.act.op.ExtendLease? && c.act.op.key == k)
  }

  lemma EventIs(s: Sys, c: Call, k: Key)
    ensures EventFits(s, c, k)
  {
  }

  lemma BoundedRedelivery(ss: seq<Sys>, calls: seq<Call>, k: Key, p: QueuePolicy)
    requires Run(ss, calls) && p.dlq.enabled
    requires forall x :: 0 <= x < |calls| ==>
      && (calls[x].act.Client? && calls[x].act.op.Enqueue? && calls[x].act.op.m.key == k ==>
            calls[x].act.op.m.attempt == 0)
      && !(calls[x].act.Client? && calls[x].act.op.Nack? && calls[x].act.op.requeue && calls[x].act.op.key == k)
      && !(calls[x].act.Client? && calls[x].act.op.Reprocess? && calls[x].act.op.key == k)
      && (calls[x].act.SweepOne? && calls[x].act.key == k ==>
            k.queue in calls[x].act.policies && calls[x].act.policies[k.queue] == p)
    ensures
      var leases := set x | 0 <= x < |calls|
                            && calls[x].act.Client? && calls[x].act.op.LeaseNext? && calls[x].act.op.picked == Some(k);
      |leases| <= if p.retry.limit > 1 then p.retry.limit else 1
  {
    RunIsLife(ss, calls, k);
    var ms := Moments(ss, calls, k);
    L.BoundedRedelivery(Lives(ss, k), ms, p);
    var leases := set x | 0 <= x < |calls|
                          && calls[x].act.Client? && calls[x].act.op.LeaseNext? && calls[x].act.op.picked == Some(k);
    assert leases == set x | 0 <= x < |ms| && ms[x].event.Lease?;
  }

  function Indexes(hs: seq<Store>): seq<Index> {
    seq(|hs|, i requires 0 <= i < |hs| => hs[i].idx)
  }

  /** Draining order: repeated lease_next at one instant until nothing is returned. */
  lemma DrainingOrder(hs: seq<Store>, picks: seq<Key>, queue: string, consumer: string, visibility: int, now: int)
    requires |hs| == |picks| + 1 && hs[0].idx.Keys <= hs[0].kv.Keys
    requires forall i :: 0 <= i < |picks| ==>
      && Picks(hs[i].idx, queue, consumer, now, Some(picks[i]))
      && hs[i + 1] == LeaseGranted(hs[i], Some(picks[i]), now + visibility * 1000)
    requires Picks(hs[|picks|].idx, queue, consumer, now, None)
    ensures forall k :: k in picks <==> Eligible(hs[0].idx, queue, consumer, now, k)
    ensures forall i, j :: 0 <= i < j < |picks| ==>
      && picks[i] != picks[j] && picks[i] in hs[0].idx && picks[j] in hs[0].idx
      && var a, b := hs[0].idx[picks[i]], hs[0].idx[picks[j]];
         a.priority > b.priority || (a.priority == b.priority && a.availableAt <= b.availableAt)
  {
    var until := now + visibility * 1000;
    var idxs := Indexes(hs);
    forall i | 0 <= i < |picks|
      ensures idxs[i + 1] == idxs[i][picks[i] := LeaseRow(idxs[i][picks[i]], until)]
    {
      KvStays(hs, picks, until, i);
    }
    assert Drains(idxs, picks, queue, consumer, until, now);
    DrainOrder(idxs, picks, queue, consumer, until, now);
  }

  lemma {:induction false} KvStays(hs: seq<Store>, picks: seq<Key>, until: int, i: nat)
    requires |hs| == |picks| + 1 && i <= |picks| && hs[0].idx.Keys <= hs[0].kv.Keys
    requires forall x :: 0 <= x < |picks| ==> hs[x + 1] == LeaseGranted(hs[x], Some(picks[x]), until)
    ensures hs[i].idx.Keys <= hs[i].kv.Keys
  {
    if i > 0 {
      KvStays(hs, picks, until, i - 1);
      assert hs[i - 1 + 1] == LeaseGranted(hs[i - 1], Some(picks[i - 1]), until);
    }
  }

  // ---------------------------------------------------------------------------------------
  // Why the sweep has to be one step
  // ---------------------------------------------------------------------------------------

  /** On whatever row a delay meets, it does what the sweeper may do exactly when the lease there is expired, or
      when it changes nothing. */
  lemma StaleDelayIff(h: Store, now: int, k: Key, delayMs: int)
    requires k in h.idx && WellFormed(h.idx[k])
    ensures
      var r, r' := h.idx[k], Apply(h, now, DelayMessage(k, delayMs)).idx[k];
      var state := if delayMs > 0 then Delayed else Ready;
      L.SweeperStep(now, LifeOf(r), LifeOf(r')) <==>
        Expired(r, now) || (r.state == state && r.availableAt == now + delayMs)
  {
    var r, r' := h.idx[k], Apply(h, now, DelayMessage(k, delayMs)).idx[k];
    if Expired(r, now) {
      assert L.Next(now, LifeOf(r), L.Expire(Some(RetryRules.Limited(r.attempt + 1))), LifeOf(r'));
    }
  }

  /** On any row move_to_dlq does what the sweeper may do exactly when the lease there is expired, or when the
      message is already dead. */
  lemma StaleBuryIff(h: Store, now: int, k: Key, reason: string)
    requires k in h.idx && WellFormed(h.idx[k])
    ensures
      var r, r' := h.idx[k], Apply(h, now, MoveToDlq(k, reason)).idx[k];
      L.SweeperStep(now, LifeOf(r), LifeOf(r')) <==> Expired(r, now) || r.state == Dlq
  {
    var r, r' := h.idx[k], Apply(h, now, MoveToDlq(k, reason)).idx[k];
    if Expired(r, now) {
      assert L.Next(now, LifeOf(r), L.Expire(Some(RetryRules.Limited(r.attempt))), LifeOf(r'));
    }
  }

  /** A message leased again since the snapshot, at 50, until 100: the stale release hands it to another consumer
      at once. */
  lemma StaleDelayBreaksALease()
    ensures
      var k, r := Key("q", "1"), Row(Inflight, 0, 0, Some(100), 1, "");
      var h := Store(map[k := Envelope(0, 0, 0, None)], map[k := r], map[k := Payload("p", "")], map[], map[]);
      var h' := Apply(h, 50, DelayMessage(k, 0));
      && r.leaseUntil.value > 50 && IsNext(h'.idx, "q", "other", 50, k)
      && !L.SweeperStep(50, LifeOf(r), LifeOf(h'.idx[k]))
  {
  }
}
