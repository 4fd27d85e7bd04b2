/** The sweep of QueueManager over the FileSystem backend. */
module FileSystemSweep {
  import opened Types
  import opened Keys
  import opened FileSystem
  import opened FileSystemRuns
  import RetryRules
  import L = Lifecycle

  /** The message a sweep can reach: its lease is past, and the key string in its meta names it. */
  predicate Reached(d: Disk, now: int, k: Key) {
    && Name(k) in d.leases
    && d.leases[Name(k)].leaseUntil < now
    && Held(d, d.leases[Name(k)].messageKey) == Some(k)
  }

  /** Exactly which past leases the sweep reaches: those whose meta still spells the id of the message. A holder may
      have extended under another string that has the same meta file name. */
  lemma ReachedIffSpelled(d: Disk, now: int, k: Key)
    requires SideTables(d) && Legal(k) && Path(Processing, k) in d.files
    ensures Reached(d, now, k) <==>
      Name(k) in d.leases && d.leases[Name(k)].leaseUntil < now && SafeName(d.leases[Name(k)].messageKey) == Name(k)
      && IdOf(d.leases[Name(k)].messageKey) == Some(k.id)
  {
    hide SideTables, SafeName, IdOf;
    MetaIff(d, k);
    var key := d.leases[Name(k)].messageKey;
    if Held(d, key) == Some(k) {
      HeldIsLeased(d, key);
    }
  }

  /** Extended under a string without separators, a lease is never swept. */
  lemma MisspelledIsNeverSwept(now: int)
    requires now > 200
    ensures
      var k, f := Key("q", "1"), File("msg:q:1", "p", "", 0, 1, 0, 0, "", None);
      var d := Disk(map[Path(Processing, k) := f], map["msg_q_1" := LeaseMeta("msg:q:1", "c", 100, 1, "q")], map[]);
      var d' := Apply(d, 50, ExtendLease("msg_q_1", "c", 0));
      SafeName("msg_q_1") == "msg_q_1" && d'.leases["msg_q_1"].leaseUntil == 50 && !Reached(d', now, k)
  {
    hide LastIndex, IdOf;
    assert SafeName("msg_q_1") == "msg_q_1";
    WithoutSeparator("msg_q_1");
    assert Render(Key("q", "1")) == "msg:q:1";
    assert Name(Key("q", "1")) == "msg_q_1";
  }

  lemma WithoutSeparator(key: string)
    requires ':' !in key
    ensures IdOf(key) == None
  {
    hide LastIndex;
  }

  /** The life of a reached message after the sweep. */
  function SweptLife(d: Disk, policies: map<string, QueuePolicy>, now: int, k: Key): L.Life
    requires Path(Processing, k) in d.files
  {
    var f := d.files[Path(Processing, k)];
    match RetryRules.Decide(f.attempt, PolicyOf(policies, k.queue))
    case Retry(delayMs) =>
      if delayMs <= 0 then L.Ready(f.availableAt, f.attempt) else L.Delayed(now + delayMs, f.attempt)
    case Bury => L.Dead(f.attempt)
    case Keep => LifeIn(d, k)
  }

  /** Same life, same files. */
  predicate Kept(d: Disk, d': Disk, k: Key) {
    LifeIn(d', k) == LifeIn(d, k) && SameFiles(d, d', k)
  }

  predicate SameFiles(d: Disk, d': Disk, k: Key) {
    forall dir: Dir ::
      (Path(dir, k) in d.files <==> Path(dir, k) in d'.files)
      && (Path(dir, k) in d.files ==> d'.files[Path(dir, k)] == d.files[Path(dir, k)])
  }

  predicate SweptOn(d: Disk, d': Disk, policies: map<string, QueuePolicy>, now: int, k: Key) {
    Path(Processing, k) in d.files && LifeIn(d', k) == SweptLife(d, policies, now, k)
  }

  /** What one entry of the snapshot does to its own message and to all others. */
  lemma OneSwept(d: Disk, name: string, policies: map<string, QueuePolicy>, reason: string, now: int, j: Key)
    requires Sane(d, now) && Caught(d, name, now)
    ensures
      var k, d' := Held(d, d.leases[name].messageKey).value, Swept(d, name, policies, reason, now);
      && Reached(d, now, k) && Name(k) == name && Path(Processing, k) in d.files
      && LifeIn(d', k) == SweptLife(d, policies, now, k)
      && (j != k ==> Kept(d, d', j))
      && (forall n :: n in d.leases && n != name ==> n in d'.leases && d'.leases[n] == d.leases[n])
  {
    hide SideTables, SafeName, Render, RetryRules.BackoffDelay, LifeIn, L.Next, Timely;
    var key, d' := d.leases[name].messageKey, Swept(d, name, policies, reason, now);
    HeldLife(d, key);
    var k, f := Held(d, key).value, HeldFile(d, key);
    match SweepCall(d, name, policies, reason, now)
    case Some(DelayMessage(_, delayMs)) =>
      var to := if delayMs <= 0 then Inbox else DelayedDir;
      var g := if delayMs <= 0 then f else f.(availableAt := now + delayMs);
      ReleaseLife(d, key, to, g, d', k);
      ReleaseLife(d, key, to, g, d', j);
    case Some(MoveToDlq(_, _)) =>
      ReleaseLife(d, key, DlqDir, f.(dlq := Some(DlqNote(reason, now))), d', k);
      ReleaseLife(d, key, DlqDir, f.(dlq := Some(DlqNote(reason, now))), d', j);
    case None =>
  }

  /** A meta whose key string reaches no message is left alone. */
  lemma UnreachedStays(d: Disk, name: string, policies: map<string, QueuePolicy>, reason: string, now: int)
    requires name in d.leases && Held(d, d.leases[name].messageKey).None?
    ensures Swept(d, name, policies, reason, now) == d
  {
    hide Held, RetryRules.BackoffDelay;
  }

  /** The messages of done are swept, the others as they were. */
  ghost predicate SweptUpTo(d: Disk, d': Disk, policies: map<string, QueuePolicy>, now: int, done: set<Key>) {
    forall k :: if k in done then SweptOn(d, d', policies, now, k) else Kept(d, d', k)
  }

  /** As long as its own entry has not come up, a meta reaches the same message as in the snapshot. */
  lemma SameReach(d: Disk, was: Disk, policies: map<string, QueuePolicy>, now: int, done: set<Key>, name: string)
    requires SideTables(d) && MetasNamed(d) && SweptUpTo(d, was, policies, now, done)
    requires name in d.leases && name in was.leases && was.leases[name] == d.leases[name]
    requires forall k :: k in done ==> Name(k) != name
    ensures Held(was, was.leases[name].messageKey) == Held(d, d.leases[name].messageKey)
  {
    hide SideTables, LifeIn, SweptLife, SafeName, IdOf, SweptUpTo;
    var key := d.leases[name].messageKey;
    assert SafeName(key) == name;
    var path := LeasedPath(d, key);
    if path.Some? {
      UpToAt(d, was, policies, now, done, path.value.key);
      if path.value in d.files {
        HeldIsLeased(d, key);
      }
    }
  }

  /** One more entry: its message joins the swept ones. */
  lemma EntrySwept(d: Disk, was: Disk, policies: map<string, QueuePolicy>, reason: string, now: int, done: set<Key>,
                   name: string)
    requires Sane(d, now) && Sane(was, now) && SweptUpTo(d, was, policies, now, done)
    requires name in d.leases && d.leases[name].leaseUntil < now && name in was.leases &&
      was.leases[name] == d.leases[name]
    requires forall k :: k in done ==> Name(k) != name
    ensures
      var held := Held(d, d.leases[name].messageKey);
      var d' := Swept(was, name, policies, reason, now);
      && SweptUpTo(d, d', policies, now, if held.Some? then done + {held.value} else done)
      && (held.Some? ==> Name(held.value) == name)
      && (forall n :: n in was.leases && n != name ==> n in d'.leases && d'.leases[n] == was.leases[n])
  {
    hide SideTables, LifeIn, SafeName, Held, Swept, SweptLife, MetasNamed, Timely, Kept, SweptOn;
    SameReach(d, was, policies, now, done, name);
    var held, d' := Held(d, d.leases[name].messageKey), Swept(was, name, policies, reason, now);
    if held.None? {
      UnreachedStays(was, name, policies, reason, now);
    } else {
      var k := held.value;
      OneSwept(was, name, policies, reason, now, k);
      assert k !in done && Kept(d, was, k);
      SweptFromKept(d, was, d', policies, now, k);
      forall j | j != k
        ensures if j in done then SweptOn(d, d', policies, now, j) else Kept(d, d', j)
      {
        OneSwept(was, name, policies, reason, now, j);
        assert if j in done then SweptOn(d, was, policies, now, j) else Kept(d, was, j);
        KeptFromKept(d, was, d', policies, now, j);
      }
    }
  }

  lemma SweptFromKept(d: Disk, was: Disk, d': Disk, policies: map<string, QueuePolicy>, now: int, k: Key)
    requires Kept(d, was, k) && Path(Processing, k) in was.files && LifeIn(d', k) == SweptLife(was, policies, now, k)
    ensures SweptOn(d, d', policies, now, k)
  {
    hide LifeIn;
  }

  lemma KeptFromKept(d: Disk, was: Disk, d': Disk, policies: map<string, QueuePolicy>, now: int, j: Key)
    requires Kept(was, d', j)
    ensures Kept(d, was, j) ==> Kept(d, d', j)
    ensures SweptOn(d, was, policies, now, j) ==> SweptOn(d, d', policies, now, j)
  {
    hide LifeIn, SweptLife;
  }

  /** Every past lease meta once. */
  predicate Snapshot(d: Disk, now: int, names: seq<string>) {
    && (forall i, j :: 0 <= i < j < |names| ==> names[i] != names[j])
    && (forall i :: 0 <= i < |names| ==> names[i] in d.leases && d.leases[names[i]].leaseUntil < now)
    && (forall n :: n in d.leases && d.leases[n].leaseUntil < now ==> n in names)
  }

  ghost predicate SweepSteps(ds: seq<Disk>, calls: seq<Call>, names: seq<string>, policies: map<string, QueuePolicy>,
                             now: int) {
    && |ds| == |calls| + 1 && |calls| <= |names|
    && forall i :: 0 <= i < |calls| ==>
         && calls[i].now == now && calls[i].act.SweepOne? && calls[i].act.name == names[i]
         && calls[i].act.policies == policies
         && Step(ds[i], calls[i], ds[i + 1])
  }

  /** A whole sweep is a segment of a run: one SweepOne step for each past meta, in whatever order the directory
      lists them, leads to a disk where every message the sweep can reach ends as its policy says, and all others
      keep their life and their files. */
  lemma {:induction false} SweepIsRunSegment(d: Disk, names: seq<string>, policies: map<string, QueuePolicy>, now: int)
    returns (ds: seq<Disk>, calls: seq<Call>)
    requires Sane(d, now)
    requires forall i, j :: 0 <= i < j < |names| ==> names[i] != names[j]
    requires forall n :: n in names <==> n in d.leases && d.leases[n].leaseUntil < now
    ensures |calls| == |names| && SweepSteps(ds, calls, names, policies, now) && ds[0] == d
    ensures forall k ::
      if Reached(d, now, k) then SweptOn(d, ds[|calls|], policies, now, k) else Kept(d, ds[|calls|], k)
    ensures forall k, dir :: !Reached(d, now, k) ==>
      && (Path(dir, k) in ds[|calls|].files <==> Path(dir, k) in d.files)
      && (Path(dir, k) in d.files ==> ds[|calls|].files[Path(dir, k)] == d.files[Path(dir, k)])
  {
    hide Sane, SweptOn, Kept, Reached, Held, SweptUpTo, SweepSteps;
    assert forall i :: 0 <= i < |names| ==> names[i] in names;
    assert Snapshot(d, now, names);
    var done;
    ds, calls, done := SweepPrefix(d, names, |names|, policies, now);
    forall k
      ensures if Reached(d, now, k) then SweptOn(d, ds[|calls|], policies, now, k) else Kept(d, ds[|calls|], k)
    {
      ReachedIff(d, now, names, done, k);
      UpToAt(d, ds[|calls|], policies, now, done, k);
    }
    forall k, dir | !Reached(d, now, k)
      ensures Path(dir, k) in ds[|calls|].files <==> Path(dir, k) in d.files
      ensures Path(dir, k) in d.files ==> ds[|calls|].files[Path(dir, k)] == d.files[Path(dir, k)]
    {
      assert Kept(d, ds[|calls|], k);
      KeptFiles(d, ds[|calls|], k, dir);
    }
  }

  lemma KeptFiles(d: Disk, d': Disk, k: Key, dir: Dir)
    requires Kept(d, d', k)
    ensures Path(dir, k) in d'.files <==> Path(dir, k) in d.files
    ensures Path(dir, k) in d.files ==> d'.files[Path(dir, k)] == d.files[Path(dir, k)]
  {
  }

  lemma {:induction false} SweepPrefix(d: Disk, names: seq<string>, n: nat, policies: map<string, QueuePolicy>,
                                       now: int)
    returns (ds: seq<Disk>, calls: seq<Call>, done: set<Key>)
    requires n <= |names| && Sane(d, now) && Snapshot(d, now, names)
    ensures |ds| == n + 1 && |calls| == n && SweepSteps(ds, calls, names, policies, now) && ds[0] == d
    ensures Sane(ds[n], now) && SweptUpTo(d, ds[n], policies, now, done)
    ensures forall j :: n <= j < |names| ==> names[j] in ds[n].leases && ds[n].leases[names[j]] == d.leases[names[j]]
    ensures forall k :: k in done <==> exists j :: 0 <= j < n && Held(d, d.leases[names[j]].messageKey) == Some(k)
    ensures forall k :: k in done ==> exists j :: 0 <= j < n && Name(k) == names[j]
  {
    hide Sane, SweptUpTo, Swept, Held, SafeName, Step, RetryRules.LimitReason;
    if n == 0 {
      NothingSwept(d, policies, now);
      return [d], [], {};
    }
    ds, calls, done := SweepPrefix(d, names, n - 1, policies, now);
    var was, name := ds[n - 1], names[n - 1];
    var reason := RetryRules.LimitReason(d.leases[name].attempt);
    EntrySwept(d, was, policies, reason, now, done, name);
    SweepStaysSane(was, name, policies, reason, now);
    var held := Held(d, d.leases[name].messageKey);
    if held.Some? {
      HeldName(d, now, name);
      done := done + {held.value};
    }
    ds := ds + [Swept(was, name, policies, reason, now)];
    calls := calls + [Call(now, SweepOne(name, policies, reason))];
  }

  /** A message the sweep releases is ready after the next promotion once its delay is over, with its attempt. */
  lemma ReleasedBecomeReady(d: Disk, d': Disk, policies: map<string, QueuePolicy>, now: int, later: int, k: Key)
    requires Sane(d', later) && SweptOn(d, d', policies, now, k)
    requires var decision := RetryRules.Decide(d.files[Path(Processing, k)].attempt, PolicyOf(policies, k.queue));
             decision.Retry? && now + decision.delayMs <= later
    ensures
      var life := LifeIn(Apply(d', later, ProcessDelayed), k);
      life.Ready? && life.attempt == d.files[Path(Processing, k)].attempt && life.availableAt <= later
  {
    hide SideTables, MetasNamed, Apply, RetryRules.Decide, SafeName;
    PromoteIsLife(d', later, k);
  }

  class Sweeper {
    const backend: FileSystemAdapter
    var queuePolicies: map<string, QueuePolicy>

    constructor (backend: FileSystemAdapter)
      ensures this.backend == backend && queuePolicies == map[]
    {
      this.backend := backend;
      queuePolicies := map[];
    }

    /** One entry of the snapshot. */
    method HandleExpired(info: LeaseMeta, now: int)
      requires backend.Valid()
      modifies backend`disk, backend`trace
      ensures backend.Valid()
      ensures !backend.faulty ==>
        forall name ::
          name in old(backend.disk).leases && old(backend.disk).leases[name] == info && info.leaseUntil < now ==>
          backend.disk == Swept(old(backend.disk), name, queuePolicies, RetryRules.LimitReason(info.attempt), now)
    {
      hide Conserved, Postponed, MovedToDlq, RetryRules.BackoffDelay, RetryRules.LimitReason;
      var policy := PolicyOf(queuePolicies, info.queue);
      if policy.None? {
        var released := backend.Delay(info.messageKey, 0, now);
      } else if info.attempt >= policy.value.retry.limit {
        if policy.value.dlq.enabled {
          var buried := backend.Bury(info.messageKey, RetryRules.LimitReason(info.attempt), now);
        }
      } else {
        var delayed := backend.Delay(info.messageKey, RetryRules.BackoffDelay(info.attempt, policy.value.retry), now);
      }
    }

    /** Messages stay conserved at every file operation. Without faults, from any state the runs reach, every
        message the sweep can reach ends as its policy says, and all others keep their life and their files. */
    method RecoverExpiredLeases(now: int)
      requires backend.Valid() && Sane(backend.disk, now)
      modifies backend`disk, backend`trace
      ensures backend.Valid()
      ensures !backend.faulty ==> Sane(backend.disk, now)
      ensures !backend.faulty ==> forall k ::
        if Reached(old(backend.disk), now, k) then SweptOn(old(backend.disk), backend.disk, queuePolicies, now, k)
        else Kept(old(backend.disk), backend.disk, k)
    {
      hide Conserved, Sane, SweptUpTo, Swept, SweptOn, Kept, Reached, Held, SafeName, RetryRules.LimitReason;
      ghost var d := backend.disk;
      var expired;
      ghost var names;
      expired, names := backend.GetExpiredInflightMessages(now);
      ghost var done: set<Key> := {};
      NothingSwept(d, queuePolicies, now);
      for i := 0 to |expired|
        invariant backend.Valid()
        invariant !backend.faulty ==> Sane(backend.disk, now) && SweptUpTo(d, backend.disk, queuePolicies, now, done)
        invariant !backend.faulty ==> forall j :: i <= j < |names| ==>
          names[j] in backend.disk.leases && backend.disk.leases[names[j]] == d.leases[names[j]]
        invariant forall k :: k in done <==> exists j :: 0 <= j < i && Held(d, d.leases[names[j]].messageKey) == Some(k)
        invariant forall k :: k in done ==> exists j :: 0 <= j < i && Name(k) == names[j]
      {
        ghost var was, name, reason := backend.disk, names[i], RetryRules.LimitReason(expired[i].attempt);
        HandleExpired(expired[i], now);
        if !backend.faulty {
          EntrySwept(d, was, queuePolicies, reason, now, done, name);
          SweepStaysSane(was, name, queuePolicies, reason, now);
        }
        ghost var held := Held(d, d.leases[name].messageKey);
        if held.Some? {
          HeldName(d, now, name);
        }
        done := if held.Some? then done + {held.value} else done;
      }
      if !backend.faulty {
        forall k
          ensures if Reached(d, now, k) then SweptOn(d, backend.disk, queuePolicies, now, k)
                  else Kept(d, backend.disk, k)
        {
          ReachedIff(d, now, names, done, k);
          UpToAt(d, backend.disk, queuePolicies, now, done, k);
        }
      }
    }
  }

  lemma NothingSwept(d: Disk, policies: map<string, QueuePolicy>, now: int)
    ensures SweptUpTo(d, d, policies, now, {})
  {
  }

  lemma UpToAt(d: Disk, d': Disk, policies: map<string, QueuePolicy>, now: int, done: set<Key>, k: Key)
    requires SweptUpTo(d, d', policies, now, done)
    ensures if k in done then SweptOn(d, d', policies, now, k) else Kept(d, d', k)
  {
  }

  lemma HeldName(d: Disk, now: int, name: string)
    requires Sane(d, now) && name in d.leases && Held(d, d.leases[name].messageKey).Some?
    ensures Name(Held(d, d.leases[name].messageKey).value) == name
  {
    HeldIsLeased(d, d.leases[name].messageKey);
  }

  lemma SweepStaysSane(was: Disk, name: string, policies: map<string, QueuePolicy>, reason: string, now: int)
    requires Sane(was, now)
    ensures Sane(Swept(was, name, policies, reason, now), now)
    ensures Step(was, Call(now, SweepOne(name, policies, reason)), Swept(was, name, policies, reason, now))
  {
    hide Sane, Postponed, MovedToDlq, RetryRules.Decide;
    var call := Call(now, SweepOne(name, policies, reason));
    SaneKept(was, call, Swept(was, name, policies, reason, now));
  }

  /** The swept messages are exactly the reached ones. */
  lemma ReachedIff(d: Disk, now: int, names: seq<string>, done: set<Key>, k: Key)
    requires Sane(d, now)
    requires forall i :: 0 <= i < |names| ==> names[i] in d.leases && now > d.leases[names[i]].leaseUntil
    requires forall n :: n in d.leases && now > d.leases[n].leaseUntil ==> n in names
    requires forall j :: j in done <==>
      exists i :: 0 <= i < |names| && Held(d, d.leases[names[i]].messageKey) == Some(j)
    ensures k in done <==> Reached(d, now, k)
  {
    hide Held, Sane, SafeName;
    if k in done {
      var i :| 0 <= i < |names| && Held(d, d.leases[names[i]].messageKey) == Some(k);
      HeldName(d, now, names[i]);
    }
  }
}
