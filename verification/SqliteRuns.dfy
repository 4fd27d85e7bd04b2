/** Whole runs of the SQLite backend with its sweeper, seen message by message. */
module SqliteRuns {
  import opened Types
  import opened IndexTable
  import opened IndexDraining
  import opened Database
  import opened Sqlite
  import RetryRules
  import L = Lifecycle

  /** The tables and the keys ever published; a published key is never generated again. */
  datatype Sys = Sys(t: Store, used: set<Key>)

  /** What clients and the daemon call. The sweep is one step: its snapshot is never stale. */
  predicate Offered(s: Sys, op: Op) {
    match op
    case Enqueue(m) => m.key !in s.used
    case RecoverExpired => false
    case DelayMessage(_, _) => false
    case MoveToDlq(_, _) => false
    case _ => true
  }

  predicate SysStep(s: Sys, c: Call, s': Sys) {
    && Offered(s, c.op)
    && Step(s.t, c.now, c.op, c.outcome, s'.t)
    && s'.used == if c.op.Enqueue? && c.outcome == Done then s.used + {c.op.m.key} else s.used
  }

  predicate Sane(s: Sys) {
    Agree(s.t) && s.t.idx.Keys <= s.used
  }

  predicate Run(ss: seq<Sys>, calls: seq<Call>) {
    && |ss| == |calls| + 1
    && ss[0] == Sys(Tables(map[], map[]), {})
    && (forall i :: 0 <= i < |calls| ==> SysStep(ss[i], calls[i], ss[i + 1]))
    && (forall i, j :: 0 <= i <= j < |calls| ==> calls[i].now <= calls[j].now)
  }

  /** A run starts with empty tables, and at any later time any client call, promotion or sweep continues it, however
      it ends; only keys must be new, and a lease takes the row its SELECT picks. */
  lemma RunContinues(ss: seq<Sys>, calls: seq<Call>, c: Call) returns (s: Sys)
    requires |calls| == 0 ==> ss == [Sys(Tables(map[], map[]), {})]
    requires |calls| > 0 ==> Run(ss, calls) && calls[|calls| - 1].now <= c.now
    requires !c.op.RecoverExpired? && !c.op.DelayMessage? && !c.op.MoveToDlq?
    requires c.op.Enqueue? ==> c.op.m.key !in ss[|calls|].used
    requires c.op.LeaseNext? && c.outcome != Failed ==>
      Picks(ss[|calls|].t.idx, c.op.queue, c.op.consumer, c.now, c.op.picked)
    ensures Run(ss + [s], calls + [c])
    ensures c.outcome == Done ==> s.t == Apply(ss[|calls|].t, c.now, c.op)
  {
    hide Apply;
    var was := ss[|calls|];
    s := Sys(After(was.t, c.now, c.op, c.outcome),
             if c.op.Enqueue? && c.outcome == Done then was.used + {c.op.m.key} else was.used);
    assert SysStep(was, c, s);
  }

  function LifeIn(s: Sys, k: Key): L.Life {
    if k in s.t.idx then LifeOf(s.t.idx[k])
    else if k in s.used then L.Acked
    else L.Unpublished
  }

  /** What a call means for message k. */
  function EventOn(s: Sys, c: Call, k: Key): L.Event {
    if c.outcome == Failed || (c.outcome == DoneWithoutNote && !c.op.Nack? && !c.op.Reprocess?) then L.Idle
    else
      match c.op
      case Enqueue(m) => if m.key == k then L.Publish(AvailableAt(m, c.now), m.attempt) else L.Idle
      case LeaseNext(_, _, visibility, picked) =>
        if picked == Some(k) then L.Lease(c.now + visibility * 1000) else L.Idle
      case Ack(key) => if key == k && k in s.used then L.Ack else L.Idle
      case Nack(key, _, requeue) =>
        if key == k && k in s.t.idx && s.t.idx[k].state == Inflight then if requeue then L.Requeue else L.Reject
        else L.Idle
      case ExtendLease(key, visibility) =>
        if key == k && k in s.t.idx && Extendable(s.t.idx[k], c.now) then L.Extend(c.now + visibility * 1000)
        else L.Idle
      case ProcessDelayed => if k in s.t.idx && Promotable(s.t.idx[k], c.now) then L.Promote else L.Idle
      case Sweep(policies) =>
        if k in s.t.idx && Expired(s.t.idx[k], c.now) then L.Expire(PolicyOf(policies, k.queue)) else L.Idle
      case Reprocess(key) => if key == k && k in s.t.idx && s.t.idx[k].state == Dlq then L.Reprocess else L.Idle
      case _ => L.Idle
  }

  lemma SaneKept(s: Sys, c: Call, s': Sys)
    requires Sane(s) && SysStep(s, c, s')
    ensures Sane(s')
  {
    AgreementKept(s.t, c.now, c.op, c.outcome, s'.t);
    KeysAgree(s.t, c.now, c.op);
  }

  lemma ClientStepIsLife(s: Sys, c: Call, s': Sys, k: Key)
    requires Sane(s) && SysStep(s, c, s') && c.outcome != Failed
    requires c.op.Enqueue? || c.op.LeaseNext? || c.op.Ack?
    ensures L.Next(c.now, LifeIn(s, k), EventOn(s, c, k), LifeIn(s', k))
  {
  }

  lemma LeaseholderStepIsLife(s: Sys, c: Call, s': Sys, k: Key)
    requires Sane(s) && SysStep(s, c, s') && c.outcome != Failed
    requires c.op.Nack? || c.op.ExtendLease? || c.op.Reprocess?
    ensures L.Next(c.now, LifeIn(s, k), EventOn(s, c, k), LifeIn(s', k))
  {
  }

  lemma DaemonStepIsLife(s: Sys, c: Call, s': Sys, k: Key)
    requires Sane(s) && SysStep(s, c, s') && c.outcome != Failed
    requires c.op.ProcessDelayed? || c.op.Sweep?
    ensures L.Next(c.now, LifeIn(s, k), EventOn(s, c, k), LifeIn(s', k))
  {
    if k in s.t.idx {
      assert WellFormed(s.t.idx[k]);
    }
  }

  /** Every call is, for every message, a step the lifecycle allows. */
  lemma StepIsLife(s: Sys, c: Call, s': Sys, k: Key)
    requires Sane(s) && SysStep(s, c, s')
    ensures L.Next(c.now, LifeIn(s, k), EventOn(s, c, k), LifeIn(s', k))
  {
    if c.outcome == Failed {
      assert s'.t == s.t;
    } else if c.op.Enqueue? || c.op.LeaseNext? || c.op.Ack? {
      ClientStepIsLife(s, c, s', k);
    } else if c.op.Nack? || c.op.ExtendLease? || c.op.Reprocess? {
      LeaseholderStepIsLife(s, c, s', k);
    } else {
      DaemonStepIsLife(s, c, s', k);
    }
  }

  lemma {:induction false} AlwaysSane(ss: seq<Sys>, calls: seq<Call>, i: nat)
    requires Run(ss, calls) && i < |ss|
    ensures Sane(ss[i])
  {
    if i > 0 {
      AlwaysSane(ss, calls, i - 1);
      SaneKept(ss[i - 1], calls[i - 1], ss[i]);
    }
  }

  // ---------------------------------------------------------------------------------------
  // Content
  // ---------------------------------------------------------------------------------------

  datatype Publication = Publication(m: Message, at: int)

  /** What has been published, by key, and when. */
  function Published(calls: seq<Call>): map<Key, Publication> {
    if calls == [] then map[]
    else
      var before, c := Published(calls[..|calls| - 1]), calls[|calls| - 1];
      if c.op.Enqueue? && c.outcome == Done then before[c.op.m.key := Publication(c.op.m, c.now)] else before
  }

  /** Both rows of k carry what was published under it; a message without creation time got the publishing time. */
  predicate Carried(t: Store, k: Key, published: map<Key, Publication>) {
    && (k in t.idx ==>
          k in published && t.idx[k].priority == published[k].m.priority && t.idx[k].target == published[k].m.target)
    && (k in t.kv ==>
          && k in published
          && t.kv[k].payload == published[k].m.payload && t.kv[k].attributes == published[k].m.attributes
          && t.kv[k].createdAt ==
               if published[k].m.createdAt > 0 then published[k].m.createdAt else published[k].at)
  }

  lemma CallCarries(s: Sys, c: Call, s': Sys, k: Key, published: map<Key, Publication>)
    requires Sane(s) && SysStep(s, c, s') && Carried(s.t, k, published)
    requires !(c.op.Enqueue? && c.outcome == Done)
    ensures Carried(s'.t, k, published)
  {
    hide Carried, Apply, Sane, Chosen;
    if c.outcome == Done && c.op.Sweep? {
      SweepCarries(s.t, c.now, c.op.policies, k, published);
    } else if !c.op.Enqueue? && !c.op.Sweep? {
      OpCarries(s.t, c.now, c.op, k, published);
    }
  }

  lemma OpCarries(t: Store, now: int, op: Op, k: Key, published: map<Key, Publication>)
    requires Carried(t, k, published) && !op.Enqueue? && !op.Sweep?
    ensures Carried(Apply(t, now, op), k, published)
    ensures Carried(Apply(t, now, op).(kv := t.kv), k, published)
  {
  }

  lemma SweepCarries(t: Store, now: int, policies: map<string, QueuePolicy>, k: Key, published: map<Key, Publication>)
    requires Carried(t, k, published)
    ensures Carried(Apply(t, now, Sweep(policies)), k, published)
  {
    hide RetryRules.BackoffDelay, RetryRules.LimitReason;
  }

  lemma EnqueueCarries(s: Sys, c: Call, s': Sys, k: Key, published: map<Key, Publication>)
    requires Sane(s) && SysStep(s, c, s') && Carried(s.t, k, published)
    requires c.op.Enqueue? && c.outcome == Done
    ensures Carried(s'.t, k, published[c.op.m.key := Publication(c.op.m, c.now)])
  {
  }

  lemma {:induction false} AlwaysCarried(ss: seq<Sys>, calls: seq<Call>, i: nat, k: Key)
    requires Run(ss, calls) && i < |ss|
    ensures Carried(ss[i].t, k, Published(calls[..i]))
  {
    hide Carried, SysStep, Sane;
    if i > 0 {
      AlwaysCarried(ss, calls, i - 1, k);
      AlwaysSane(ss, calls, i - 1);
      var s, c := ss[i - 1], calls[i - 1];
      assert SysStep(s, c, ss[i - 1 + 1]);
      assert calls[..i][..i - 1] == calls[..i - 1];
      if c.op.Enqueue? && c.outcome == Done {
        EnqueueCarries(s, c, ss[i], k, Published(calls[..i - 1]));
      } else {
        CallCarries(s, c, ss[i], k, Published(calls[..i - 1]));
      }
    } else {
      StartCarries(k);
    }
  }

  lemma StartCarries(k: Key)
    ensures Carried(Tables(map[], map[]), k, map[])
  {
  }

  /** Every lease returns what was published under its key, to a consumer its target admits, with one more attempt
      than before. */
  lemma LeaseReturnsPublished(ss: seq<Sys>, calls: seq<Call>, i: nat, k: Key)
    requires Run(ss, calls) && i < |calls|
    requires calls[i].op.LeaseNext? && calls[i].op.picked == Some(k) && calls[i].outcome == Done
    ensures
      var published, op := Published(calls[..i]), calls[i].op;
      && k in published && k.queue == op.queue && k in ss[i].t.idx
      && k in ss[i + 1].t.kv && k in ss[i + 1].t.idx
      && var m, p := MessageOf(k, ss[i + 1].t.kv[k], ss[i + 1].t.idx[k]), published[k].m;
         && m.payload == p.payload && m.attributes == p.attributes && m.priority == p.priority
         && m.createdAt == (if p.createdAt > 0 then p.createdAt else published[k].at)
         && (p.target == "" || p.target == op.consumer)
         && m.attempt == ss[i].t.idx[k].attempt + 1
  {
    AlwaysCarried(ss, calls, i, k);
    AlwaysSane(ss, calls, i);
    assert SysStep(ss[i], calls[i], ss[i + 1]);
  }

  function Lives(ss: seq<Sys>, k: Key): seq<L.Life> {
    seq(|ss|, i requires 0 <= i < |ss| => LifeIn(ss[i], k))
  }

  function Moments(ss: seq<Sys>, calls: seq<Call>, k: Key): seq<L.Moment>
    requires |ss| == |calls| + 1
  {
    seq(|calls|, i requires 0 <= i < |calls| => L.Moment(calls[i].now, EventOn(ss[i], calls[i], k)))
  }

  /** Refinement: every run of the backend is, message by message, a run of the lifecycle. */
  lemma RunIsLife(ss: seq<Sys>, calls: seq<Call>, k: Key)
    requires Run(ss, calls)
    ensures L.ValidRun(Lives(ss, k), Moments(ss, calls, k))
  {
    var lives, moments := Lives(ss, k), Moments(ss, calls, k);
    forall i | 0 <= i < |calls|
      ensures L.Next(moments[i].now, lives[i], moments[i].event, lives[i + 1])
    {
      AlwaysSane(ss, calls, i);
      StepIsLife(ss[i], calls[i], ss[i + 1], k);
    }
  }

  /** No early delivery: whenever a call is made, every ready row is due. */
  lemma NeverEarly(ss: seq<Sys>, calls: seq<Call>, i: nat, k: Key)
    requires Run(ss, calls) && i < |calls| && k in ss[i].t.idx && ss[i].t.idx[k].state == Ready
    ensures ss[i].t.idx[k].availableAt <= calls[i].now
  {
    RunIsLife(ss, calls, k);
    L.NeverEarly(Lives(ss, k), Moments(ss, calls, k), i);
  }

  /** Lease exclusivity on this backend. */
  lemma LeaseExclusive(ss: seq<Sys>, calls: seq<Call>, k: Key, i: nat, j: nat)
    requires Run(ss, calls) && i < j < |calls|
    requires calls[i].op.LeaseNext? && calls[i].op.picked == Some(k) && calls[i].outcome == Done
    requires calls[j].op.LeaseNext? && calls[j].op.picked == Some(k) && calls[j].outcome == Done
    requires forall x :: i < x < j ==>
      !(calls[x].op.LeaseNext? && calls[x].op.picked == Some(k) && calls[x].outcome == Done)
    ensures
      || (exists x :: i < x < j
            && calls[x].op.Nack? && calls[x].op.key == k && calls[x].outcome != Failed)
      || L.CurrentExpiry(Moments(ss, calls, k), i, j) < calls[j].now
    ensures
      || (exists x :: i < x < j
            && calls[x].op.Nack? && calls[x].op.key == k && calls[x].outcome != Failed)
      || (exists x :: i < x < j
            && calls[x].op.ExtendLease? && calls[x].op.key == k && calls[x].outcome == Done)
      || calls[i].now + calls[i].op.visibilitySec * 1000 < calls[j].now
  {
    hide EventOn;
    forall x | 0 <= x < |calls|
      ensures EventFits(ss[x], calls[x], k)
    {
      EventIs(ss[x], calls[x], k);
    }
    RunIsLife(ss, calls, k);
    var ms := Moments(ss, calls, k);
    L.LeaseExclusive(Lives(ss, k), ms, i, j);
    if forall x :: i < x < j ==> !ms[x].event.Extend? {
      L.UnextendedExpiry(ms, i, j);
    }
  }

  /** Which calls the events of a message come from. */
  predicate EventFits(s: Sys, c: Call, k: Key) {
    var e := EventOn(s, c, k);
    && (e.Lease? <==> c.op.LeaseNext? && c.op.picked == Some(k) && c.outcome == Done)
    && (e.Lease? ==> e.leaseUntil == c.now + c.op.visibilitySec * 1000)
    && (e.Requeue? || e.Reject? ==>
          c.op.Nack? && c.op.key == k && c.outcome != Failed)
    && (e.Extend? ==> c.op.ExtendLease? && c.op.key == k && c.outcome == Done)
  }

  lemma EventIs(s: Sys, c: Call, k: Key)
    ensures EventFits(s, c, k)
  {
  }

  /** Bounded redelivery on this backend. */
  lemma BoundedRedelivery(ss: seq<Sys>, calls: seq<Call>, k: Key, p: QueuePolicy)
    requires Run(ss, calls) && p.dlq.enabled
    requires forall x :: 0 <= x < |calls| ==>
      && (calls[x].op.Enqueue? && calls[x].op.m.key == k ==> calls[x].op.m.attempt == 0)
      && !(calls[x].op.Nack? && calls[x].op.requeue && calls[x].op.key == k)
      && !(calls[x].op.Reprocess? && calls[x].op.key == k)
      && (calls[x].op.Sweep? ==> k.queue in calls[x].op.policies && calls[x].op.policies[k.queue] == p)
    ensures
      var leases := set x | 0 <= x < |calls|
                            && calls[x].op.LeaseNext? && calls[x].op.picked == Some(k) && calls[x].outcome == Done;
      |leases| <= if p.retry.limit > 1 then p.retry.limit else 1
  {
    RunIsLife(ss, calls, k);
    var ms := Moments(ss, calls, k);
    L.BoundedRedelivery(Lives(ss, k), ms, p);
    var leases := set x | 0 <= x < |calls|
                          && calls[x].op.LeaseNext? && calls[x].op.picked == Some(k) && calls[x].outcome == Done;
    assert leases == set x | 0 <= x < |ms| && ms[x].event.Lease?;
  }

  function Indexes(ts: seq<Store>): seq<Index> {
    seq(|ts|, i requires 0 <= i < |ts| => ts[i].idx)
  }

  lemma {:induction false} KeysFixed(ts: seq<Store>, picks: seq<Key>, queue: string, consumer: string, visibility: int,
                                     now: int, i: nat)
    requires |ts| == |picks| + 1 && Agree(ts[0]) && i <= |picks|
    requires forall x :: 0 <= x < |picks| ==>
      Step(ts[x], now, LeaseNext(queue, consumer, visibility, Some(picks[x])), Done, ts[x + 1])
    ensures Agree(ts[i])
  {
    if i > 0 {
      KeysFixed(ts, picks, queue, consumer, visibility, now, i - 1);
      AgreementKept(ts[i - 1], now, LeaseNext(queue, consumer, visibility, Some(picks[i - 1])), Done, ts[i]);
    }
  }

  /** Draining order: repeated lease_next at one instant until nothing is returned. */
  lemma DrainingOrder(ts: seq<Store>, picks: seq<Key>, queue: string, consumer: string, visibility: int, now: int)
    requires |ts| == |picks| + 1 && Agree(ts[0])
    requires forall i :: 0 <= i < |picks| ==>
      Step(ts[i], now, LeaseNext(queue, consumer, visibility, Some(picks[i])), Done, ts[i + 1])
    requires Picks(ts[|picks|].idx, queue, consumer, now, None)
    ensures forall k :: k in picks <==> Eligible(ts[0].idx, queue, consumer, now, k)
    ensures forall i, j :: 0 <= i < j < |picks| ==>
      && picks[i] != picks[j] && picks[i] in ts[0].idx && picks[j] in ts[0].idx
      && var a, b := ts[0].idx[picks[i]], ts[0].idx[picks[j]];
         a.priority > b.priority || (a.priority == b.priority && a.availableAt <= b.availableAt)
  {
    var until := now + visibility * 1000;
    forall i | 0 <= i < |picks|
      ensures ts[i + 1].idx == ts[i].idx[picks[i] := LeaseRow(ts[i].idx[picks[i]], until)]
    {
      KeysFixed(ts, picks, queue, consumer, visibility, now, i);
    }
    var idxs := Indexes(ts);
    forall i | 0 <= i < |picks|
      ensures IsNext(idxs[i], queue, consumer, now, picks[i])
      ensures idxs[i + 1] == idxs[i][picks[i] := LeaseRow(idxs[i][picks[i]], until)]
    {
      assert Step(ts[i], now, LeaseNext(queue, consumer, visibility, Some(picks[i])), Done, ts[i + 1]);
    }
    assert Drains(idxs, picks, queue, consumer, until, now);
    DrainOrder(Indexes(ts), picks, queue, consumer, until, now);
  }

  // ---------------------------------------------------------------------------------------
  // Why the sweep has to be one step
  // ---------------------------------------------------------------------------------------

  /** delay_message has no state guard. On whatever row it meets, it does what the sweeper may do exactly when
      the lease there is expired, or when it changes nothing. */
  lemma StaleDelayIff(t: Store, now: int, k: Key, delayMs: int)
    requires k in t.idx && WellFormed(t.idx[k])
    ensures
      var r, r' := t.idx[k], Apply(t, now, DelayMessage(k, delayMs)).idx[k];
      L.SweeperStep(now, LifeOf(r), LifeOf(r')) <==>
        Expired(r, now) || (r.state == Delayed && r.availableAt == now + delayMs)
  {
    var r, r' := t.idx[k], Apply(t, now, DelayMessage(k, delayMs)).idx[k];
    if Expired(r, now) {
      assert L.Next(now, LifeOf(r), L.Expire(Some(RetryRules.Limited(r.attempt + 1))), LifeOf(r'));
    }
  }

  /** Nor has move_to_dlq: on any row it does what the sweeper may do exactly when the lease there is expired,
      or when the message is already dead. */
  lemma StaleBuryIff(t: Store, now: int, k: Key, reason: string)
    requires k in t.idx && WellFormed(t.idx[k])
    ensures
      var r, r' := t.idx[k], Apply(t, now, MoveToDlq(k, reason)).idx[k];
      L.SweeperStep(now, LifeOf(r), LifeOf(r')) <==> Expired(r, now) || r.state == Dlq
  {
    var r, r' := t.idx[k], Apply(t, now, MoveToDlq(k, reason)).idx[k];
    if Expired(r, now) {
      assert L.Next(now, LifeOf(r), L.Expire(Some(RetryRules.Limited(r.attempt))), LifeOf(r'));
    }
  }

  const LEASED_AGAIN := Row(Inflight, 0, 0, Some(100), 1, "")

  /** A message leased again since the snapshot, at 50, until 100: the stale release takes it from its holder,
      and after a promotion another consumer is given it at the same instant. */
  lemma StaleDelayBreaksALease()
    ensures
      var k := Key("q", "1");
      var t := Tables(map[k := Envelope("p", "", 0, 0, 0, None)], map[k := LEASED_AGAIN]);
      var t' := Apply(Apply(t, 50, DelayMessage(k, 0)), 50, ProcessDelayed);
      && LEASED_AGAIN.leaseUntil.value > 50
      && IsNext(t'.idx, "q", "other", 50, k)
      && !L.SweeperStep(50, LifeOf(t.idx[k]), LifeOf(Apply(t, 50, DelayMessage(k, 0)).idx[k]))
  {
    var k := Key("q", "1");
    StaleDelayIff(Tables(map[k := Envelope("p", "", 0, 0, 0, None)], map[k := LEASED_AGAIN]), 50, k, 0);
  }
}
