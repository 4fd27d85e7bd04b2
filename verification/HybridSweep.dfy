/** The sweep of QueueManager over the Hybrid backend. */
module HybridSweep {
  import opened Types
  import opened IndexTable
  import opened Hybrid
  import opened HybridRuns
  import RetryRules

  /** Whether the sweep moves message k to the DLQ. */
  predicate Condemned(h: Store, policies: map<string, QueuePolicy>, now: int, k: Key) {
    k in h.idx && Expired(h.idx[k], now) && RetryRules.Decide(h.idx[k].attempt, PolicyOf(policies, k.queue)).Bury?
  }

  /** The sweep on all messages at once. */
  function Swept(h: Store, policies: map<string, QueuePolicy>, now: int): Store {
    Store(
      map k | k in h.kv ::
        if Condemned(h, policies, now, k)
        then h.kv[k].(dlq := Some(DlqNote(RetryRules.LimitReason(h.idx[k].attempt), now)))
        else h.kv[k],
      map k | k in h.idx :: SweepRow(h.idx[k], PolicyOf(policies, k.queue), now, Ready),
      map k | k in h.active && !Condemned(h, policies, now, k) :: h.active[k],
      map k | k in h.dlq.Keys + h.active.Keys && (k in h.dlq || Condemned(h, policies, now, k)) ::
        if k in h.active && Condemned(h, policies, now, k) then h.active[k] else h.dlq[k],
      h.archive)
  }

  function ActionFor(info: ExpiredLease, policies: map<string, QueuePolicy>): Option<Op> {
    ActionOn(info.key, info.attempt, PolicyOf(policies, info.key.queue), RetryRules.LimitReason(info.attempt))
  }

  predicate SameRow(s: Store, r: Store, k: Key) {
    (k in s.idx <==> k in r.idx) && (k in s.idx ==> s.idx[k] == r.idx[k])
  }

  predicate SameEnvelope(s: Store, r: Store, k: Key) {
    (k in s.kv <==> k in r.kv) && (k in s.kv ==> s.kv[k] == r.kv[k])
  }

  predicate SameFiles(s: Store, r: Store, k: Key) {
    && (k in s.active <==> k in r.active) && (k in s.active ==> s.active[k] == r.active[k])
    && (k in s.dlq <==> k in r.dlq) && (k in s.dlq ==> s.dlq[k] == r.dlq[k])
  }

  /** Row, envelope and payload files of one message are the same. */
  predicate SameAt(s: Store, r: Store, k: Key) {
    SameRow(s, r, k) && SameEnvelope(s, r, k) && SameFiles(s, r, k)
  }

  /** The sweep of one message under failures: all of it failed, or its row is swept while the edit of its
      envelope or the move of its payload may be lost. */
  predicate TriedAt(h: Store, s: Store, policies: map<string, QueuePolicy>, now: int, k: Key) {
    || SameAt(s, h, k)
    || (&& SameRow(s, Swept(h, policies, now), k)
        && (SameEnvelope(s, h, k) || SameEnvelope(s, Swept(h, policies, now), k))
        && (SameFiles(s, h, k) || SameFiles(s, Swept(h, policies, now), k)))
  }

  /** The messages of done are swept, as far as failures let them, the others as they were. */
  ghost predicate SweptUpTo(h: Store, s: Store, policies: map<string, QueuePolicy>, now: int, done: set<Key>,
                            reliable: bool) {
    && s.archive == h.archive
    && forall k ::
         if k !in done then SameAt(s, h, k)
         else SameAt(s, Swept(h, policies, now), k) || (!reliable && TriedAt(h, s, policies, now, k))
  }

  /** What a sweep leaves when anything may fail. */
  ghost predicate SweptOrKept(h: Store, s: Store, policies: map<string, QueuePolicy>, now: int) {
    && s.archive == h.archive
    && forall k :: if k in h.idx && Expired(h.idx[k], now) then TriedAt(h, s, policies, now, k) else SameAt(s, h, k)
  }

  lemma SameEverywhere(s: Store, r: Store)
    requires s.archive == r.archive && forall k :: SameAt(s, r, k)
    ensures s == r
  {
    forall k
      ensures (k in s.idx <==> k in r.idx) && (k in s.idx ==> s.idx[k] == r.idx[k])
      ensures (k in s.kv <==> k in r.kv) && (k in s.kv ==> s.kv[k] == r.kv[k])
      ensures (k in s.active <==> k in r.active) && (k in s.active ==> s.active[k] == r.active[k])
      ensures (k in s.dlq <==> k in r.dlq) && (k in s.dlq ==> s.dlq[k] == r.dlq[k])
    {
      assert SameAt(s, r, k);
    }
    assert s.idx == r.idx;
    assert s.kv == r.kv;
    assert s.active == r.active;
    assert s.dlq == r.dlq;
  }

  lemma DelaySpares(s: Store, now: int, k: Key, delayMs: int, j: Key)
    ensures Apply(s, now, DelayMessage(k, delayMs)).archive == s.archive
    ensures j != k ==> SameAt(Apply(s, now, DelayMessage(k, delayMs)), s, j)
  {
    hide DelayRow;
  }

  lemma BurySpares(s: Store, now: int, k: Key, reason: string, j: Key)
    ensures Apply(s, now, MoveToDlq(k, reason)).archive == s.archive
    ensures j != k ==> SameAt(Apply(s, now, MoveToDlq(k, reason)), s, j)
  {
    hide BuryRow;
  }

  lemma ActionSparesOthers(s: Store, now: int, info: ExpiredLease, policies: map<string, QueuePolicy>, j: Key)
    ensures Acted(s, now, ActionFor(info, policies)).archive == s.archive
    ensures j != info.key ==> SameAt(Acted(s, now, ActionFor(info, policies)), s, j)
  {
    hide Apply, RetryRules.Decide;
    match RetryRules.Decide(info.attempt, PolicyOf(policies, info.key.queue))
    case Retry(delayMs) => DelaySpares(s, now, info.key, delayMs, j);
    case Bury => BurySpares(s, now, info.key, RetryRules.LimitReason(info.attempt), j);
    case Keep =>
  }

  /** The closed form at one message whose lease is expired. */
  lemma SweptAt(h: Store, policies: map<string, QueuePolicy>, now: int, k: Key)
    requires k in h.idx && Expired(h.idx[k], now)
    ensures
      var t, r := Swept(h, policies, now), h.idx[k];
      var decision := RetryRules.Decide(r.attempt, PolicyOf(policies, k.queue));
      && k in t.idx && t.idx[k] == SweepRow(r, PolicyOf(policies, k.queue), now, Ready)
      && (k in t.kv <==> k in h.kv)
      && (decision.Bury? ==>
            && (k in h.kv ==> t.kv[k] == h.kv[k].(dlq := Some(DlqNote(RetryRules.LimitReason(r.attempt), now))))
            && k !in t.active && (k in t.dlq <==> k in h.dlq || k in h.active)
            && (k in t.dlq ==> t.dlq[k] == if k in h.active then h.active[k] else h.dlq[k]))
      && (!decision.Bury? ==>
            && (k in h.kv ==> t.kv[k] == h.kv[k])
            && (k in t.active <==> k in h.active) && (k in h.active ==> t.active[k] == h.active[k])
            && (k in t.dlq <==> k in h.dlq) && (k in h.dlq ==> t.dlq[k] == h.dlq[k]))
  {
    hide BuryRow, DelayRow, RetryRules.Decide, RetryRules.LimitReason, SweepRow;
  }

  lemma DelayAt(s: Store, now: int, k: Key, delayMs: int)
    requires k in s.idx
    ensures Apply(s, now, DelayMessage(k, delayMs)) ==
      s.(idx := s.idx[k := DelayRow(s.idx[k], if delayMs > 0 then Delayed else Ready, now + delayMs)])
  {
    hide DelayRow;
  }

  lemma BuryAt(s: Store, now: int, k: Key, reason: string)
    requires k in s.idx
    ensures
      var t := Apply(s, now, MoveToDlq(k, reason));
      && t.idx == s.idx[k := BuryRow(s.idx[k])]
      && (k in t.kv <==> k in s.kv) && (k in s.kv ==> t.kv[k] == s.kv[k].(dlq := Some(DlqNote(reason, now))))
      && k !in t.active && (k in t.dlq <==> k in s.dlq || k in s.active)
      && (k in t.dlq ==> t.dlq[k] == if k in s.active then s.active[k] else s.dlq[k])
  {
    hide BuryRow;
  }

  lemma ActionSweepsOne(h: Store, s: Store, now: int, info: ExpiredLease, policies: map<string, QueuePolicy>)
    requires info.key in h.idx && Expired(h.idx[info.key], now) && info.attempt == h.idx[info.key].attempt
    requires SameAt(s, h, info.key)
    ensures SameAt(Acted(s, now, ActionFor(info, policies)), Swept(h, policies, now), info.key)
  {
    hide Apply, BuryRow, DelayRow, RetryRules.Decide, RetryRules.LimitReason, Swept, Expired;
    SweptAt(h, policies, now, info.key);
    match RetryRules.Decide(info.attempt, PolicyOf(policies, info.key.queue))
    case Retry(delayMs) => DelayAt(s, now, info.key, delayMs);
    case Bury => BuryAt(s, now, info.key, RetryRules.LimitReason(info.attempt));
    case Keep =>
  }

  /** What the backend may leave after one entry of the snapshot, in terms of the complete action. */
  ghost predicate Attempted(s: Store, r: Store, s': Store, k: Key) {
    && s'.archive == s.archive
    && (forall j :: j != k ==> SameAt(s', s, j))
    && (|| s' == s
        || (&& SameRow(s', r, k)
            && (SameEnvelope(s', s, k) || SameEnvelope(s', r, k))
            && (SameFiles(s', s, k) || SameFiles(s', r, k))))
  }

  lemma DelayAttempted(s: Store, now: int, k: Key, delayMs: int, t: Failures, s': Store)
    requires MayLeave(s, now, DelayMessage(k, delayMs), t, s')
    ensures s' == s || s' == Apply(s, now, DelayMessage(k, delayMs))
  {
    hide Apply;
  }

  lemma BuryAttempted(s: Store, now: int, k: Key, reason: string, t: Failures, s': Store)
    requires k in s.idx && MayLeave(s, now, MoveToDlq(k, reason), t, s')
    ensures var r := Apply(s, now, MoveToDlq(k, reason));
            || s' == s
            || (&& s'.idx == r.idx && s'.archive == r.archive
                && (s'.kv == s.kv || s'.kv == r.kv)
                && ((s'.active == s.active && s'.dlq == s.dlq) || (s'.active == r.active && s'.dlq == r.dlq)))
  {
    hide BuryRow, Noted, Taken, Put;
  }

  lemma ActionAttempted(s: Store, now: int, info: ExpiredLease, policies: map<string, QueuePolicy>, t: Failures,
                        s': Store)
    requires info.key in s.idx
    requires
      var action := ActionFor(info, policies);
      if action.Some? then MayLeave(s, now, action.value, t, s') else s' == s
    ensures Attempted(s, Acted(s, now, ActionFor(info, policies)), s', info.key)
  {
    hide Apply, MayLeave, SameAt, RetryRules.Decide, RetryRules.LimitReason;
    var r := Acted(s, now, ActionFor(info, policies));
    match RetryRules.Decide(info.attempt, PolicyOf(policies, info.key.queue)) {
      case Retry(delayMs) => DelayAttempted(s, now, info.key, delayMs, t, s');
      case Bury => BuryAttempted(s, now, info.key, RetryRules.LimitReason(info.attempt), t, s');
      case Keep =>
    }
    assert s' == s || (s'.idx == r.idx && (s'.kv == s.kv || s'.kv == r.kv)
      && ((s'.active == s.active && s'.dlq == s.dlq) || (s'.active == r.active && s'.dlq == r.dlq)));
    ActionSparesOthers(s, now, info, policies, info.key);
    assert s'.archive == s.archive;
    forall j | j != info.key
      ensures SameAt(s', s, j)
    {
      ActionSparesOthers(s, now, info, policies, j);
      PartsSpare(s, r, s', j);
    }
  }

  lemma PartsSpare(s: Store, r: Store, s': Store, j: Key)
    requires s'.idx == s.idx || s'.idx == r.idx
    requires s'.kv == s.kv || s'.kv == r.kv
    requires (s'.active == s.active && s'.dlq == s.dlq) || (s'.active == r.active && s'.dlq == r.dlq)
    ensures SameAt(r, s, j) ==> SameAt(s', s, j)
  {
  }

  lemma TriedFrom(h: Store, s: Store, r: Store, s': Store, policies: map<string, QueuePolicy>, now: int, k: Key)
    requires SameAt(s, h, k) && SameAt(r, Swept(h, policies, now), k) && Attempted(s, r, s', k)
    ensures TriedAt(h, s', policies, now, k)
    ensures s' == r ==> SameAt(s', Swept(h, policies, now), k)
  {
    hide Swept;
  }

  lemma TriedStays(h: Store, s: Store, s': Store, policies: map<string, QueuePolicy>, now: int, j: Key)
    requires SameAt(s', s, j)
    ensures SameAt(s, h, j) ==> SameAt(s', h, j)
    ensures SameAt(s, Swept(h, policies, now), j) ==> SameAt(s', Swept(h, policies, now), j)
    ensures TriedAt(h, s, policies, now, j) ==> TriedAt(h, s', policies, now, j)
  {
    hide Swept;
  }

  lemma OneTried(h: Store, s: Store, s': Store, policies: map<string, QueuePolicy>, now: int, done: set<Key>,
                 info: ExpiredLease, reliable: bool)
    requires SweptUpTo(h, s, policies, now, done, reliable) && info.key !in done
    requires info.key in h.idx && Expired(h.idx[info.key], now) && info.attempt == h.idx[info.key].attempt
    requires Attempted(s, Acted(s, now, ActionFor(info, policies)), s', info.key)
    requires reliable ==> s' == Acted(s, now, ActionFor(info, policies))
    ensures SweptUpTo(h, s', policies, now, done + {info.key}, reliable)
  {
    hide Acted, ActionFor, Swept, SameAt, TriedAt;
    ActionSweepsOne(h, s, now, info, policies);
    TriedFrom(h, s, Acted(s, now, ActionFor(info, policies)), s', policies, now, info.key);
    forall j | j != info.key
      ensures if j !in done then SameAt(s', h, j)
              else SameAt(s', Swept(h, policies, now), j) || (!reliable && TriedAt(h, s', policies, now, j))
    {
      TriedStays(h, s, s', policies, now, j);
    }
  }

  lemma OneSwept(h: Store, s: Store, policies: map<string, QueuePolicy>, now: int, done: set<Key>, info: ExpiredLease)
    requires SweptUpTo(h, s, policies, now, done, true) && info.key !in done
    requires info.key in h.idx && Expired(h.idx[info.key], now) && info.attempt == h.idx[info.key].attempt
    ensures SweptUpTo(h, Acted(s, now, ActionFor(info, policies)), policies, now, done + {info.key}, true)
  {
    hide Acted, ActionFor, Swept, SameAt;
    var s' := Acted(s, now, ActionFor(info, policies));
    ActionSparesOthers(s, now, info, policies, info.key);
    forall j | j != info.key
      ensures SameAt(s', s, j)
    {
      ActionSparesOthers(s, now, info, policies, j);
    }
    SameToItself(s', info.key);
    OneTried(h, s, s', policies, now, done, info, true);
  }

  lemma SameToItself(s: Store, k: Key)
    ensures SameRow(s, s, k) && SameEnvelope(s, s, k) && SameFiles(s, s, k)
  {
  }

  lemma AllSwept(h: Store, s: Store, policies: map<string, QueuePolicy>, now: int, done: set<Key>)
    requires SweptUpTo(h, s, policies, now, done, true)
    requires forall k :: k in h.idx && Expired(h.idx[k], now) ==> k in done
    ensures s == Swept(h, policies, now)
  {
    forall k
      ensures SameAt(s, Swept(h, policies, now), k)
    {
      assert k !in done ==> SameAt(s, h, k);
    }
    SameEverywhere(s, Swept(h, policies, now));
  }

  lemma NothingSwept(h: Store, policies: map<string, QueuePolicy>, now: int, reliable: bool)
    ensures SweptUpTo(h, h, policies, now, {}, reliable) && SweptOrKept(h, h, policies, now)
  {
  }

  lemma SweptIsSweptOrKept(h: Store, s: Store, policies: map<string, QueuePolicy>, now: int, done: set<Key>,
                           reliable: bool)
    requires SweptUpTo(h, s, policies, now, done, reliable)
    requires forall k :: k in done ==> k in h.idx && Expired(h.idx[k], now)
    ensures SweptOrKept(h, s, policies, now)
  {
    hide Swept, SameRow, SameEnvelope, SameFiles;
    forall k
      ensures TriedAt(h, s, policies, now, k)
      ensures k !in done ==> SameAt(s, h, k)
    {
      assert k in done || SameAt(s, h, k);
    }
  }

  /** A whole sweep is a segment of a run: one SweepOne step for each expired lease, in whatever order the snapshot
      lists them, leads from the state before to the swept one. */
  lemma {:induction false} SweepIsRunSegment(s: Sys, keys: seq<Key>, policies: map<string, QueuePolicy>, now: int)
    returns (ss: seq<Sys>, calls: seq<Call>)
    requires forall i, j :: 0 <= i < j < |keys| ==> keys[i] != keys[j]
    requires forall k :: k in keys <==> k in s.h.idx && Expired(s.h.idx[k], now)
    ensures |calls| == |keys| && |ss| == |keys| + 1 && ss[0] == s
    ensures ss[|keys|] == Sys(Swept(s.h, policies, now), s.published)
    ensures forall i :: 0 <= i < |keys| ==>
      && calls[i].now == now && calls[i].act.SweepOne?
      && calls[i].act.key == keys[i] && calls[i].act.policies == policies
      && SysStep(ss[i], calls[i], ss[i + 1])
  {
    ss, calls := SweepPrefix(s, keys, |keys|, policies, now);
    AllSwept(s.h, ss[|keys|].h, policies, now, KeysOf(keys[..|keys|]));
  }

  function KeysOf(keys: seq<Key>): set<Key> {
    set k | k in keys
  }

  lemma {:induction false} SweepPrefix(s: Sys, keys: seq<Key>, n: nat, policies: map<string, QueuePolicy>, now: int)
    returns (ss: seq<Sys>, calls: seq<Call>)
    requires n <= |keys|
    requires forall i, j :: 0 <= i < j < |keys| ==> keys[i] != keys[j]
    requires forall k :: k in keys ==> k in s.h.idx && Expired(s.h.idx[k], now)
    ensures |calls| == n && |ss| == n + 1 && ss[0] == s && ss[n].published == s.published
    ensures forall i :: 0 <= i < n ==>
      && calls[i].now == now && calls[i].act.SweepOne?
      && calls[i].act.key == keys[i] && calls[i].act.policies == policies
      && SysStep(ss[i], calls[i], ss[i + 1])
    ensures SweptUpTo(s.h, ss[n].h, policies, now, KeysOf(keys[..n]), true)
  {
    hide SweptUpTo, SameAt, Apply, RetryRules.Decide, RetryRules.LimitReason, Expired;
    if n == 0 {
      NothingSwept(s.h, policies, now, true);
      assert KeysOf(keys[..0]) == {};
      return [s], [];
    }
    var k := keys[n - 1];
    ss, calls := SweepPrefix(s, keys, n - 1, policies, now);
    var was, done := ss[n - 1], KeysOf(keys[..n - 1]);
    var info := ExpiredLease(k, s.h.idx[k].attempt);
    NotYetSwept(s.h, was.h, policies, now, done, k, true);
    OneSwept(s.h, was.h, policies, now, done, info);
    var next := Sys(Acted(was.h, now, ActionFor(info, policies)), was.published);
    var call := Call(now, SweepOne(k, policies, RetryRules.LimitReason(info.attempt)));
    assert SysStep(was, call, next);
    assert done + {k} == KeysOf(keys[..n]);
    ss, calls := ss + [next], calls + [call];
  }

  lemma NotYetSwept(h: Store, s: Store, policies: map<string, QueuePolicy>, now: int, done: set<Key>, k: Key,
                    reliable: bool)
    requires SweptUpTo(h, s, policies, now, done, reliable) && k !in done
    ensures SameAt(s, h, k) && (k in h.idx ==> k in s.idx && s.idx[k] == h.idx[k])
  {
  }

  /** A sweep keeps rows and payload files in agreement. */
  lemma SweepKeepsAgreement(h: Store, policies: map<string, QueuePolicy>, now: int)
    requires Agree(h)
    ensures Agree(Swept(h, policies, now))
  {
    forall k
      ensures AgreesOn(Swept(h, policies, now), k)
    {
      assert AgreesOn(h, k);
    }
  }

  /** Sweep completeness: an expired lease stays exactly at or over the limit with the DLQ off; every other one is
      buried or released at the right time; what is not expired keeps its row. */
  lemma SweepComplete(h: Store, policies: map<string, QueuePolicy>, now: int, k: Key)
    requires k in h.idx
    ensures
      var r, r' := h.idx[k], Swept(h, policies, now).idx[k];
      var decision := RetryRules.Decide(r.attempt, PolicyOf(policies, k.queue));
      && (!Expired(r, now) ==> r' == r)
      && r'.priority == r.priority && r'.target == r.target && r'.attempt == r.attempt
      && (Expired(r, now) ==>
            && (Expired(r', now) <==> decision.Keep?)
            && (r'.state == Dlq <==> decision.Bury?)
            && (decision.Retry? ==>
              r'.attempt == r.attempt && r'.availableAt == now + decision.delayMs && r'.leaseUntil == None
                                    && r'.state == if decision.delayMs > 0 then Delayed else Ready))
  {
    hide RetryRules.Decide;
  }

  lemma PromotedAt(s: Store, later: int, k: Key)
    requires k in s.idx
    ensures
      var t := Apply(s, later, ProcessDelayed);
      && k in t.idx && t.idx[k] == (if Promotable(s.idx[k], later) then s.idx[k].(state := Ready) else s.idx[k])
      && SameEnvelope(t, s, k) && SameFiles(t, s, k)
  {
  }

  /** A message the sweep releases is ready after the next promotion once its delay is over, with its attempt and
      its payload. */
  lemma ReleasedBecomeReady(h: Store, policies: map<string, QueuePolicy>, now: int, k: Key, later: int)
    requires k in h.idx && Expired(h.idx[k], now)
    requires var decision := RetryRules.Decide(h.idx[k].attempt, PolicyOf(policies, k.queue));
             decision.Retry? && now + decision.delayMs <= later
    ensures
      var s := Apply(Swept(h, policies, now), later, ProcessDelayed);
      && k in s.idx && s.idx[k].state == Ready && s.idx[k].attempt == h.idx[k].attempt && s.idx[k].leaseUntil == None
      && SameEnvelope(s, h, k) && SameFiles(s, h, k)
  {
    hide Apply, Swept, RetryRules.Decide, RetryRules.LimitReason;
    SweptAt(h, policies, now, k);
    PromotedAt(Swept(h, policies, now), later, k);
  }

  /** What a sweep leaves when anything may fail, row by row and file by file: each is as before or as a complete
      sweep makes it, and only an expired lease whose row is swept has its envelope or its file touched. */
  lemma SweptOrKeptMeans(h: Store, s: Store, policies: map<string, QueuePolicy>, now: int, k: Key)
    requires SweptOrKept(h, s, policies, now) && k in h.idx && k in h.kv
    ensures
      var t := Swept(h, policies, now);
      && k in s.idx && k in s.kv && (s.idx[k] == h.idx[k] || s.idx[k] == t.idx[k])
      && (s.kv[k] == h.kv[k] || s.kv[k] == t.kv[k])
      && ((k in s.active <==> k in h.active) || (k in s.active <==> k in t.active))
      && (k in s.active ==> k in h.active && s.active[k] == h.active[k])
      && (k in s.dlq ==> (k in h.dlq && s.dlq[k] == h.dlq[k]) || (k in h.active && s.dlq[k] == h.active[k]))
      && (!Expired(h.idx[k], now) ==> s.idx[k] == h.idx[k] && s.kv[k] == h.kv[k])
      && (s.idx[k] != t.idx[k] ==> s.kv[k] == h.kv[k] && (k in s.active <==> k in h.active))
  {
    hide RetryRules.Decide, RetryRules.LimitReason, SweepRow;
    assert if Expired(h.idx[k], now) then TriedAt(h, s, policies, now, k) else SameAt(s, h, k);
  }

  class Sweeper {
    const backend: HybridAdapter
    var queuePolicies: map<string, QueuePolicy>

    constructor (backend: HybridAdapter)
      ensures this.backend == backend && queuePolicies == map[]
    {
      this.backend := backend;
      queuePolicies := map[];
    }

    /** One entry of the snapshot is one backend call, with what that call may leave when it fails. */
    method HandleExpired(info: ExpiredLease, now: int)
      requires backend.Valid()
      modifies backend, backend.db
      ensures backend.Valid()
      ensures
        var h, action := old(backend.Content()), ActionFor(info, queuePolicies);
        && (backend.Reliable() ==> backend.Content() == Acted(h, now, action))
        && (action.None? ==> backend.Content() == h)
        && (action.Some? ==> MayLeave(h, now, action.value, backend.MayFail(), backend.Content()))
    {
      hide MovedToDlq, Buried, RetryRules.BackoffDelay, RetryRules.LimitReason;
      var policy := PolicyOf(queuePolicies, info.key.queue);
      ghost var h := backend.Content();
      backend.BuryLeaves(h, info.key, RetryRules.LimitReason(info.attempt), now, backend.MayFail());
      if policy.None? {
        var released := backend.Delay(info.key, 0, now);
      } else if info.attempt >= policy.value.retry.limit {
        if policy.value.dlq.enabled {
          var buried := backend.Bury(info.key, RetryRules.LimitReason(info.attempt), now);
        }
      } else {
        var delayed := backend.Delay(info.key, RetryRules.BackoffDelay(info.attempt, policy.value.retry), now);
      }
    }

    /** The loop over the snapshot is the sweep on all messages at once. Whatever fails, each message is swept, left
        alone, or swept without its note or its file move. */
    method RecoverExpiredLeases(now: int)
      requires backend.Valid()
      modifies backend, backend.db
      ensures backend.Valid()
      ensures backend.Reliable() ==> backend.Content() == Swept(old(backend.Content()), queuePolicies, now)
      ensures SweptOrKept(old(backend.Content()), backend.Content(), queuePolicies, now)
    {
      hide SweptUpTo, SweptOrKept, Acted, ActionFor, Swept, MayLeave, Attempted;
      ghost var h, reliable := backend.Content(), backend.Reliable();
      NothingSwept(h, queuePolicies, now, reliable);
      var ok, expired := backend.GetExpiredInflightMessages(now);
      if !ok { return; }
      ghost var done: set<Key> := {};
      for i := 0 to |expired|
        invariant backend.Valid()
        invariant forall k :: k in done <==> exists j :: 0 <= j < i && expired[j].key == k
        invariant SweptUpTo(h, backend.Content(), queuePolicies, now, done, reliable)
      {
        var info := expired[i];
        assert info in expired;
        ghost var was := backend.Content();
        NotYetSwept(h, was, queuePolicies, now, done, info.key, reliable);
        HandleExpired(info, now);
        ActionAttempted(was, now, info, queuePolicies, backend.MayFail(), backend.Content());
        OneTried(h, was, backend.Content(), queuePolicies, now, done, info, reliable);
        done := done + {info.key};
      }
      forall k | k in done
        ensures k in h.idx && Expired(h.idx[k], now)
      {
        var j :| 0 <= j < |expired| && expired[j].key == k;
        assert expired[j] in expired;
      }
      SweptIsSweptOrKept(h, backend.Content(), queuePolicies, now, done, reliable);
      if reliable {
        forall k | k in h.idx && Expired(h.idx[k], now)
          ensures k in done
        {
          var j :| 0 <= j < |expired| && expired[j] == ExpiredLease(k, h.idx[k].attempt);
          assert expired[j].key == k;
        }
        AllSwept(h, backend.Content(), queuePolicies, now, done);
      }
    }
  }
}
