/**
 The life of one message, as every backend must show it to clients: what may
 happen to it, at what time, and what follows for whole runs. Each backend
 module proves that its own steps are steps of this machine.
 */
module Lifecycle {
  import opened Types

  datatype Life =
    | Unpublished
    | Ready(availableAt: int, attempt: int)
    | Delayed(availableAt: int, attempt: int)
    | Inflight(leaseUntil: int, attempt: int)
    | Dead(attempt: int)
    | Acked

  datatype Event =
    | Publish(availableAt: int, attempt: int)
    | Lease(leaseUntil: int)
    | Ack
    | Requeue
    | Reject
    | Extend(leaseUntil: int)
    | Expire(policy: Option<QueuePolicy>)
    | Promote
    | Reprocess
    | Idle

  /** A message the sweeper hands back for another attempt. */
  predicate Released(now: int, m: Life, attempt: int) {
    || (m.Ready? && m.availableAt <= now && m.attempt == attempt)
    || (m.Delayed? && m.attempt == attempt)
  }

  predicate Next(now: int, m: Life, e: Event, m': Life) {
    match e
    case Publish(at, attempt) =>
      m.Unpublished? && m' == if at > now then Delayed(at, attempt) else Ready(at, attempt)
    case Lease(until) =>
      m.Ready? && m.availableAt <= now && m' == Inflight(until, m.attempt + 1)
    case Ack => !m.Unpublished? && m' == Acked
    case Requeue => m.Inflight? && m'.Ready? && m'.availableAt <= now && m'.attempt == m.attempt
    case Reject => m.Inflight? && m' == Dead(m.attempt)
    case Extend(until) => m.Inflight? && now <= m.leaseUntil && m' == Inflight(until, m.attempt)
    case Expire(None) =>
      m.Inflight? && m.leaseUntil < now && Released(now, m', m.attempt) && m'.availableAt <= now
    case Expire(Some(p)) =>
      && m.Inflight?
      && m.leaseUntil < now
      && (if m.attempt < p.retry.limit then Released(now, m', m.attempt)
          else if p.dlq.enabled then m' == Dead(m.attempt)
          else m' == m)
    case Promote => m.Delayed? && m.availableAt <= now && m' == Ready(m.availableAt, m.attempt)
    case Reprocess => m.Dead? && m' == Ready(now, 0)
    case Idle => m' == m
  }

  /** What the sweeper may do to a message: nothing, or expire its lease under some policy. */
  ghost predicate SweeperStep(now: int, m: Life, m': Life) {
    m' == m || exists policy :: Next(now, m, Expire(policy), m')
  }

  datatype Moment = Moment(now: int, event: Event)

  /** A history: the state before, between and after the moments, on a clock that never goes back. */
  predicate ValidRun(ss: seq<Life>, ms: seq<Moment>) {
    && |ss| == |ms| + 1
    && ss[0] == Unpublished
    && (forall i :: 0 <= i < |ms| ==> Next(ms[i].now, ss[i], ms[i].event, ss[i + 1]))
    && (forall i, j :: 0 <= i <= j < |ms| ==> ms[i].now <= ms[j].now)
  }

  /** No early delivery: a ready message is available at every moment it can be looked at. */
  lemma {:induction false} NeverEarly(ss: seq<Life>, ms: seq<Moment>, i: nat)
    requires ValidRun(ss, ms) && i < |ms|
    ensures ss[i].Ready? ==> ss[i].availableAt <= ms[i].now
    ensures ms[i].event.Lease? ==> ss[i].Ready? && ss[i].availableAt <= ms[i].now
  {
    if i > 0 {
      NeverEarly(ss, ms, i - 1);
      assert ms[i - 1].now <= ms[i].now;
      assert Next(ms[i - 1].now, ss[i - 1], ms[i - 1].event, ss[i]);
    }
    assert Next(ms[i].now, ss[i], ms[i].event, ss[i + 1]);
  }

  /** Expiry of the lease granted at moment i as it stands just before moment j. */
  function CurrentExpiry(ms: seq<Moment>, i: nat, j: nat): int
    requires i < j <= |ms| && ms[i].event.Lease?
    decreases j
  {
    if j == i + 1 then ms[i].event.leaseUntil
    else if ms[j - 1].event.Extend? then ms[j - 1].event.leaseUntil
    else CurrentExpiry(ms, i, j - 1)
  }

  /** Until it is nacked or expires, a leased message stays with its holder or is acked. */
  lemma {:induction false} HeldUntilReleased(ss: seq<Life>, ms: seq<Moment>, i: nat, j: nat)
    requires ValidRun(ss, ms) && i < j <= |ms| && ms[i].event.Lease?
    requires forall x :: i < x < j ==> !ms[x].event.Lease?
    ensures (exists x :: i < x < j && (ms[x].event.Requeue? || ms[x].event.Reject?))
         || ss[j] == Acked
         || (ss[j].Inflight? && ss[j].leaseUntil == CurrentExpiry(ms, i, j))
         || (!ss[j].Inflight? && !ss[j].Unpublished? && CurrentExpiry(ms, i, j) < ms[j - 1].now)
    decreases j
  {
    var x := j - 1;
    assert Next(ms[x].now, ss[x], ms[x].event, ss[j]);
    if i < x {
      HeldUntilReleased(ss, ms, i, x);
      assert ms[x - 1].now <= ms[x].now;
    }
  }

  /** Lease exclusivity: the next lease of a message comes after a nack of the
      previous one, or strictly after that lease's current expiry. */
  lemma LeaseExclusive(ss: seq<Life>, ms: seq<Moment>, i: nat, j: nat)
    requires ValidRun(ss, ms) && i < j < |ms|
    requires ms[i].event.Lease? && ms[j].event.Lease? && forall x :: i < x < j ==> !ms[x].event.Lease?
    ensures (exists x :: i < x < j && (ms[x].event.Requeue? || ms[x].event.Reject?))
         || CurrentExpiry(ms, i, j) < ms[j].now
  {
    HeldUntilReleased(ss, ms, i, j);
    assert Next(ms[j].now, ss[j], ms[j].event, ss[j + 1]);
    assert ms[j - 1].now <= ms[j].now;
  }

  /** Without extensions the current expiry is the one granted. */
  lemma {:induction false} UnextendedExpiry(ms: seq<Moment>, i: nat, j: nat)
    requires i < j <= |ms| && ms[i].event.Lease? && forall x :: i < x < j ==> !ms[x].event.Extend?
    ensures CurrentExpiry(ms, i, j) == ms[i].event.leaseUntil
    decreases j
  {
    if j > i + 1 {
      UnextendedExpiry(ms, i, j - 1);
    }
  }

  /** Once a lease can be expired it can never again be extended: no later moment of
      the same lease accepts an extension. */
  lemma {:induction false} NoRevival(ss: seq<Life>, ms: seq<Moment>, i: nat, j: nat)
    requires ValidRun(ss, ms) && i <= j < |ms|
    requires ss[i].Inflight? && ss[i].leaseUntil < ms[i].now
    requires forall x :: i <= x <= j ==> ss[x].Inflight?
    ensures ss[j] == ss[i] && !ms[j].event.Extend?
    decreases j
  {
    assert ms[i].now <= ms[j].now;
    assert Next(ms[j].now, ss[j], ms[j].event, ss[j + 1]);
    if i < j {
      NoRevival(ss, ms, i, j - 1);
      assert Next(ms[j - 1].now, ss[j - 1], ms[j - 1].event, ss[j]);
      assert ss[j].Inflight?;
    }
  }

  function Leases(ms: seq<Moment>): nat {
    if |ms| == 0 then 0
    else Leases(ms[..|ms| - 1]) + if ms[|ms| - 1].event.Lease? then 1 else 0
  }

  /** Under one registered policy with the DLQ on, nobody requeues or reprocesses, and
      the message enters with attempt 0. */
  predicate Governed(ms: seq<Moment>, p: QueuePolicy) {
    forall i :: 0 <= i < |ms| ==>
      match ms[i].event
      case Publish(_, attempt) => attempt == 0
      case Expire(q) => q == Some(p)
      case Requeue => false
      case Reprocess => false
      case _ => true
  }

  function AttemptBound(p: QueuePolicy): int {
    Max(1, p.retry.limit)
  }

  predicate WithinBudget(m: Life, leases: int, p: QueuePolicy) {
    match m
    case Unpublished => leases == 0
    case Ready(_, attempt) => attempt == leases && leases < AttemptBound(p)
    case Delayed(_, attempt) => attempt == leases && leases < AttemptBound(p)
    case Inflight(_, attempt) => attempt == leases && leases <= AttemptBound(p)
    case Dead(_) => leases <= AttemptBound(p)
    case Acked => leases <= AttemptBound(p)
  }

  lemma {:induction false} BudgetKept(ss: seq<Life>, ms: seq<Moment>, p: QueuePolicy, n: nat)
    requires ValidRun(ss, ms) && Governed(ms, p) && p.dlq.enabled && n <= |ms|
    ensures WithinBudget(ss[n], Leases(ms[..n]), p)
  {
    if n > 0 {
      BudgetKept(ss, ms, p, n - 1);
      assert ms[..n][..n - 1] == ms[..n - 1];
      assert Next(ms[n - 1].now, ss[n - 1], ms[n - 1].event, ss[n]);
    }
  }

  lemma {:induction false} LeasesCounted(ms: seq<Moment>)
    ensures Leases(ms) == |set x | 0 <= x < |ms| && ms[x].event.Lease?|
  {
    if ms != [] {
      var n := |ms| - 1;
      var before, after := set x | 0 <= x < n && ms[..n][x].event.Lease?, set x | 0 <= x < |ms| && ms[x].event.Lease?;
      LeasesCounted(ms[..n]);
      assert after == before + if ms[n].event.Lease? then {n} else {};
    }
  }

  /** Under one policy with the DLQ on, without requeue and reprocess, the attempt counter of a live message is the
      number of its leases so far. */
  lemma AttemptsAreLeases(ss: seq<Life>, ms: seq<Moment>, p: QueuePolicy, n: nat)
    requires ValidRun(ss, ms) && Governed(ms, p) && p.dlq.enabled && n <= |ms|
    ensures
      var leases := |set x | 0 <= x < n && ms[x].event.Lease?|;
      && (ss[n].Ready? || ss[n].Delayed? || ss[n].Inflight? ==> ss[n].attempt == leases)
      && leases <= (if p.retry.limit > 1 then p.retry.limit else 1)
  {
    BudgetKept(ss, ms, p, n);
    LeasesCounted(ms[..n]);
    assert (set x | 0 <= x < |ms[..n]| && ms[..n][x].event.Lease?) == set x | 0 <= x < n && ms[x].event.Lease?;
  }

  /** Bounded redelivery: at most max(1, retry limit) leases in any run under one registered policy with the DLQ on
      in which the message enters with attempt 0 and nobody requeues or reprocesses it. */
  lemma BoundedRedelivery(ss: seq<Life>, ms: seq<Moment>, p: QueuePolicy)
    requires ValidRun(ss, ms) && p.dlq.enabled
    requires forall i :: 0 <= i < |ms| ==>
      && !ms[i].event.Requeue? && !ms[i].event.Reprocess?
      && (ms[i].event.Publish? ==> ms[i].event.attempt == 0)
      && (ms[i].event.Expire? ==> ms[i].event.policy == Some(p))
    ensures |set x | 0 <= x < |ms| && ms[x].event.Lease?| <= if p.retry.limit > 1 then p.retry.limit else 1
  {
    BudgetKept(ss, ms, p, |ms|);
    assert ms[..|ms|] == ms;
    LeasesCounted(ms);
  }

  /** How far a published message is from its end: attempts left, then the phase of this attempt. */
  function Remaining(m: Life, p: QueuePolicy): (int, nat) {
    match m
    case Unpublished => (AttemptBound(p) + 1, 0)
    case Ready(_, attempt) => (AttemptBound(p) - attempt, 1)
    case Delayed(_, attempt) => (AttemptBound(p) - attempt, 2)
    case Inflight(_, attempt) => (AttemptBound(p) - attempt, 3)
    case Dead(_) => (-1, 0)
    case Acked => (-1, 0)
  }

  /** Every event other than an extension or an idle moment brings a governed message strictly
      closer to being acked or dead, and while it is live the measure is bounded below. */
  lemma Progress(ss: seq<Life>, ms: seq<Moment>, p: QueuePolicy, i: nat)
    requires ValidRun(ss, ms) && Governed(ms, p) && p.dlq.enabled && i < |ms|
    requires !ms[i].event.Extend? && !ms[i].event.Idle? && !ss[i].Acked? && !(ss[i].Dead? && ms[i].event.Ack?)
    ensures var a, b := Remaining(ss[i + 1], p), Remaining(ss[i], p); a.0 < b.0 || (a.0 == b.0 && a.1 < b.1)
    ensures !ss[i + 1].Acked? && !ss[i + 1].Dead? ==> Remaining(ss[i + 1], p).0 >= 0
  {
    BudgetKept(ss, ms, p, i);
    BudgetKept(ss, ms, p, i + 1);
    assert Next(ms[i].now, ss[i], ms[i].event, ss[i + 1]);
  }
}
