/**
 Whole runs of the FileSystem backend without faults: side tables that agree with the
 directories under any interleaving of calls, and the lifecycle of each message.
 */
module FileSystemRuns {
  import opened Types
  import opened Keys
  import opened FileNames
  import opened FileSystem
  import RetryRules
  import L = Lifecycle

  function Name(k: Key): string {
    SafeName(Render(k))
  }

  /** Meta file names of the messages in a directory. */
  function Names(files: map<Path, File>, dir: Dir): set<string> {
    set p | p in files && p.dir == dir :: Name(p.key)
  }

  ghost predicate WellNamed(files: map<Path, File>) {
    forall p :: p in files ==> Legal(p.key) && files[p].key == Render(p.key) && files[p].attempt >= 0
  }

  /** Lease meta and envelope of an inflight message say the same. */
  predicate LeaseAgrees(d: Disk, k: Key)
    requires Path(Processing, k) in d.files && Name(k) in d.leases
  {
    var f, meta := d.files[Path(Processing, k)], d.leases[Name(k)];
    && meta.queue == k.queue
    && meta.attempt == f.attempt >= 1
    && (f.target == "" || f.target == meta.consumerId)
  }

  /** Side tables: leases belong exactly to processing, delayed metas exactly to delayed. */
  ghost predicate SideTables(d: Disk) {
    && WellNamed(d.files)
    && OnePlace(d.files)
    && d.leases.Keys == Names(d.files, Processing)
    && d.delayed.Keys == Names(d.files, DelayedDir)
    && (forall k :: Path(Processing, k) in d.files && Name(k) in d.leases ==> LeaseAgrees(d, k))
    && (forall k :: Path(DelayedDir, k) in d.files && Name(k) in d.delayed ==>
          d.delayed[Name(k)].attempt == d.files[Path(DelayedDir, k)].attempt)
  }

  lemma NamesIff(files: map<Path, File>, dir: Dir, k: Key)
    requires WellNamed(files) && Legal(k)
    ensures Name(k) in Names(files, dir) <==> Path(dir, k) in files
  {
    if Path(dir, k) in files {
      assert Path(dir, k).key == k;
    }
    if Name(k) in Names(files, dir) {
      var p :| p in files && p.dir == dir && Name(p.key) == Name(k);
      SafeNameInjective(p.key, k);
      assert p == Path(dir, k);
    }
  }

  /** In processing iff it has a lease meta, delayed iff it has a delayed meta. */
  lemma MetaIff(d: Disk, k: Key)
    requires SideTables(d) && Legal(k)
    ensures Path(Processing, k) in d.files <==> Name(k) in d.leases
    ensures Path(DelayedDir, k) in d.files <==> Name(k) in d.delayed
    ensures Path(Processing, k) in d.files ==> LeaseAgrees(d, k)
    ensures Path(Processing, k) in d.files ==>
      var f, meta := d.files[Path(Processing, k)], d.leases[Name(k)];
      && meta.queue == k.queue && meta.attempt == f.attempt && f.attempt >= 1
      && (f.target == "" || f.target == meta.consumerId)
    ensures Path(DelayedDir, k) in d.files ==>
      d.delayed[Name(k)].attempt == d.files[Path(DelayedDir, k)].attempt
  {
    NamesIff(d.files, Processing, k);
    NamesIff(d.files, DelayedDir, k);
  }

  lemma NamesDiffer(j: Key, k: Key)
    requires Legal(j) && Legal(k) && j != k
    ensures Name(j) != Name(k)
  {
    if Name(j) == Name(k) {
      SafeNameInjective(j, k);
    }
  }

  lemma FileFacts(d: Disk, p: Path)
    requires SideTables(d) && p in d.files
    ensures Legal(p.key) && d.files[p].key == Render(p.key) && d.files[p].attempt >= 0 && d.files[p].key != ""
  {
  }

  /** Moving one message changes the names of the two directories by exactly its own. */
  lemma NamesAfterMove(files: map<Path, File>, src: Path, dst: Path, f: File, dir: Dir)
    requires WellNamed(files) && OnePlace(files) && src in files && src.key == dst.key && src.dir != dst.dir
    ensures
      var after := Names((files - {src})[dst := f], dir);
      after == if dir == src.dir then Names(files, dir) - {Name(src.key)}
               else if dir == dst.dir then Names(files, dir) + {Name(src.key)}
               else Names(files, dir)
  {
    hide SafeName, Render, LegalId, LegalQueue;
    var files' := (files - {src})[dst := f];
    var before, after := Names(files, dir), Names(files', dir);
    forall n
      ensures n in after <==> if dir == src.dir then n in before && n != Name(src.key)
                              else if dir == dst.dir then n in before || n == Name(src.key)
                              else n in before
    {
      if n in after {
        var p :| p in files' && p.dir == dir && Name(p.key) == n;
        if p != dst {
          assert p in files;
          if n == Name(src.key) {
            SafeNameInjective(p.key, src.key);
          }
        }
      }
      if n in before {
        var p :| p in files && p.dir == dir && Name(p.key) == n;
        if p != src {
          assert p in files';
        }
      }
      if n == Name(src.key) && dir == dst.dir {
        assert dst in files' && Name(dst.key) == n;
      }
    }
  }

  lemma NamesAfterCreate(files: map<Path, File>, p: Path, f: File, dir: Dir)
    ensures Names(files[p := f], dir) == Names(files, dir) + if p.dir == dir then {Name(p.key)} else {}
  {
  }

  /** Whatever string a caller passes as key, the file it reaches is the one its lease meta belongs to. */
  lemma HeldIsLeased(d: Disk, key: string)
    requires SideTables(d) && Held(d, key).Some?
    ensures var k := Held(d, key).value;
            Legal(k) && SafeName(key) == Name(k) && Path(Processing, k) in d.files && LeaseAgrees(d, k)
  {
    var k := Held(d, key).value;
    var n := SafeName(key);
    assert n in Names(d.files, Processing);
    var p :| p in d.files && p.dir == Processing && Name(p.key) == n;
    assert Path(Processing, k) in d.files;
    assert d.files[Path(Processing, k)].key == Render(k);
    AliasNamesSameId(key, p.key);
    assert p == Path(Processing, p.key);
    MetaIff(d, p.key);
    assert k == p.key;
  }

  // ---------------------------------------------------------------------------------------
  // Every operation keeps the side tables
  // ---------------------------------------------------------------------------------------

  /** A new message: legal key, never used before. */
  predicate Fresh(d: Disk, m: Message) {
    Legal(m.key) && m.attempt >= 0 && !OnDisk(d.files, m.key)
  }

  /** A published key is new, and a lease is of the file lease_next finds. */
  ghost predicate Callable(d: Disk, op: Op) {
    match op
    case Enqueue(m) => Fresh(d, m)
    case LeaseNext(queue, consumer, _, picked) => Picks(d, queue, consumer, picked)
    case _ => true
  }

  /** Facts about all files after one of them moved. */
  lemma MoveKeepsFiles(files: map<Path, File>, src: Path, dst: Path, f: File)
    requires WellNamed(files) && OnePlace(files) && src in files && src.key == dst.key && src != dst
    requires f.key == files[src].key && f.attempt >= 0
    ensures var files' := (files - {src})[dst := f]; WellNamed(files') && OnePlace(files')
  {
  }

  lemma CreateKeepsFiles(files: map<Path, File>, p: Path, f: File)
    requires WellNamed(files) && OnePlace(files) && !OnDisk(files, p.key) && Legal(p.key) && f.key == Render(p.key) &&
      f.attempt >= 0
    ensures WellNamed(files[p := f]) && OnePlace(files[p := f])
  {
    OnDiskIff(files, p.key);
  }

  lemma EnqueueKeeps(d: Disk, m: Message, now: int)
    requires SideTables(d) && Fresh(d, m)
    ensures SideTables(Enqueued(d, m, now))
  {
    hide WellNamed, OnePlace, Names, SafeName, Render, Legal;
    var dir := if m.availableAt > now then DelayedDir else Inbox;
    var p := Path(dir, m.key);
    var d' := Enqueued(d, m, now);
    CreateKeepsFiles(d.files, p, FileOf(m));
    assert d'.files == d.files[p := FileOf(m)];
    NamesAfterCreate(d.files, p, FileOf(m), Processing);
    NamesAfterCreate(d.files, p, FileOf(m), DelayedDir);
    forall j | Path(Processing, j) in d'.files && Name(j) in d'.leases
      ensures LeaseAgrees(d', j)
    {
      FileFacts(d, Path(Processing, j));
      MetaIff(d, j);
    }
    forall k | Path(DelayedDir, k) in d'.files && Name(k) in d'.delayed
      ensures d'.delayed[Name(k)].attempt == d'.files[Path(DelayedDir, k)].attempt
    {
      if k != m.key {
        FileFacts(d, Path(DelayedDir, k));
        MetaIff(d, k);
        NamesDiffer(k, m.key);
      }
    }
  }

  lemma LeaseKeeps(d: Disk, queue: string, consumer: string, until: int, k: Key)
    requires SideTables(d) && Eligible(d, queue, consumer, k)
    ensures SideTables(LeaseGranted(d, queue, consumer, until, k))
  {
    hide WellNamed, OnePlace, Names, SafeName, Render, Legal;
    var src, dst := Path(Inbox, k), Path(Processing, k);
    var f := d.files[src].(attempt := d.files[src].attempt + 1);
    var d' := LeaseGranted(d, queue, consumer, until, k);
    FileFacts(d, src);
    MoveKeepsFiles(d.files, src, dst, f);
    NamesAfterMove(d.files, src, dst, f, Processing);
    NamesAfterMove(d.files, src, dst, f, DelayedDir);
    forall j | Path(Processing, j) in d'.files && Name(j) in d'.leases
      ensures LeaseAgrees(d', j)
    {
      if j != k {
        FileFacts(d, Path(Processing, j));
        FileFacts(d, src);
        MetaIff(d, j);
        NamesDiffer(j, k);
      }
    }
  }

  /** Any operation that takes a held message out of processing and drops its lease meta. */
  lemma ReleaseKeeps(d: Disk, key: string, to: Dir, f: File)
    requires SideTables(d) && Held(d, key).Some? && to != Processing && to != DelayedDir
    requires f.key == HeldFile(d, key).key && f.attempt >= 0
    ensures SideTables(Released(d, key, Held(d, key).value, to, f))
  {
    hide WellNamed, OnePlace, Names, Name, Legal;
    HeldIsLeased(d, key);
    var k := Held(d, key).value;
    var src, dst := Path(Processing, k), Path(to, k);
    var d' := Released(d, key, k, to, f);
    MoveKeepsFiles(d.files, src, dst, f);
    NamesAfterMove(d.files, src, dst, f, Processing);
    NamesAfterMove(d.files, src, dst, f, DelayedDir);
    assert d'.leases.Keys == d.leases.Keys - {SafeName(key)};
    forall j | Path(Processing, j) in d'.files && Name(j) in d'.leases
      ensures LeaseAgrees(d', j)
    {
      FileFacts(d, Path(Processing, j));
      MetaIff(d, j);
    }
  }

  lemma ParkKeeps(d: Disk, key: string, availableAt: int)
    requires SideTables(d) && Held(d, key).Some?
    ensures
      var k, f, meta := Held(d, key).value, HeldFile(d, key), d.leases[SafeName(key)];
      SideTables(Released(d, key, k, DelayedDir, f.(availableAt := availableAt))
        .(delayed := d.delayed[SafeName(key) := DelayedMeta(key, meta.queue, availableAt, meta.attempt)]))
  {
    hide WellNamed, OnePlace, Names, Name, Legal;
    HeldIsLeased(d, key);
    var k, meta := Held(d, key).value, d.leases[SafeName(key)];
    var f := HeldFile(d, key).(availableAt := availableAt);
    var src, dst := Path(Processing, k), Path(DelayedDir, k);
    var d' := Released(d, key, k, DelayedDir, f)
      .(delayed := d.delayed[SafeName(key) := DelayedMeta(key, meta.queue, availableAt, meta.attempt)]);
    MoveKeepsFiles(d.files, src, dst, f);
    NamesAfterMove(d.files, src, dst, f, Processing);
    NamesAfterMove(d.files, src, dst, f, DelayedDir);
    assert d'.leases.Keys == d.leases.Keys - {SafeName(key)};
    forall j | Path(Processing, j) in d'.files && Name(j) in d'.leases
      ensures LeaseAgrees(d', j)
    {
      FileFacts(d, Path(Processing, j));
      MetaIff(d, j);
    }
    forall j | Path(DelayedDir, j) in d'.files && Name(j) in d'.delayed
      ensures d'.delayed[Name(j)].attempt == d'.files[Path(DelayedDir, j)].attempt
    {
      if j != k {
        FileFacts(d, Path(DelayedDir, j));
        MetaIff(d, j);
        NamesDiffer(j, k);
      }
    }
  }

  lemma ExtendKeeps(d: Disk, key: string, consumer: string, until: int, now: int)
    requires SideTables(d)
    ensures SideTables(Extended(d, key, consumer, until, now))
  {
  }

  lemma ReprocessKeeps(d: Disk, key: string, now: int)
    requires SideTables(d)
    ensures SideTables(Reprocessed(d, key, now))
  {
    hide WellNamed, OnePlace, Names, Name, Legal;
    var dead := DeadKey(d, key);
    if dead.Some? {
      var k := dead.value;
      var src, dst := Path(DlqDir, k), Path(Inbox, k);
      var f := d.files[src].(dlq := None, attempt := 0, availableAt := now);
      var d' := Reprocessed(d, key, now);
      MoveKeepsFiles(d.files, src, dst, f);
      NamesAfterMove(d.files, src, dst, f, Processing);
      NamesAfterMove(d.files, src, dst, f, DelayedDir);
      forall j | Path(Processing, j) in d'.files && Name(j) in d'.leases
        ensures LeaseAgrees(d', j)
      {
        FileFacts(d, Path(Processing, j));
        MetaIff(d, j);
      }
    }
  }

  lemma PromotedOneKeeps(d: Disk, k: Key)
    requires SideTables(d) && Path(DelayedDir, k) in d.files
    ensures SideTables(PromotedOne(d, k))
  {
    hide WellNamed, OnePlace, Names, SafeName, Render, Legal;
    var src, dst := Path(DelayedDir, k), Path(Inbox, k);
    var f := d.files[src];
    var d' := PromotedOne(d, k);
    FileFacts(d, src);
    MoveKeepsFiles(d.files, src, dst, f);
    NamesAfterMove(d.files, src, dst, f, Processing);
    NamesAfterMove(d.files, src, dst, f, DelayedDir);
    assert f.key != "";
    assert d'.delayed.Keys == d.delayed.Keys - {Name(k)};
    forall j | Path(Processing, j) in d'.files && Name(j) in d'.leases
      ensures LeaseAgrees(d', j)
    {
      FileFacts(d, Path(Processing, j));
      MetaIff(d, j);
    }
  }

  lemma {:induction false} PromotedKeeps(d: Disk, ks: set<Key>)
    requires SideTables(d) && forall k :: k in ks ==> Path(DelayedDir, k) in d.files
    ensures SideTables(Promoted(d, ks))
    decreases |ks|
  {
    if ks == {} {
      PromoteNothing(d);
    } else {
      var k :| k in ks;
      var rest := ks - {k};
      assert ks == rest + {k};
      PromotedKeeps(d, rest);
      PromoteOneMore(d, rest, k);
      PromotedOneKeeps(Promoted(d, rest), k);
    }
  }

  /** Side tables under any interleaving: every call, with any key string, keeps them. */
  lemma SideTablesKept(d: Disk, now: int, op: Op)
    requires SideTables(d) && Callable(d, op)
    ensures SideTables(Apply(d, now, op))
  {
    hide SideTables, DueKeys, Promoted, LeaseGranted, Enqueued, Reprocessed, Extended;
    match op
    case Enqueue(m) => EnqueueKeeps(d, m, now);
    case LeaseNext(queue, consumer, visibility, picked) =>
      if picked.Some? {
        LeaseKeeps(d, queue, consumer, now + visibility * 1000, picked.value);
      }
    case Ack(key, consumer) =>
      if Held(d, key).Some? {
        HeldIsLeased(d, key);
        ReleaseKeeps(d, key, Archive, HeldFile(d, key));
      }
    case Nack(key, reason, requeue) =>
      if Held(d, key).Some? {
        HeldIsLeased(d, key);
        ReleaseKeeps(d, key, Inbox, HeldFile(d, key));
        ReleaseKeeps(d, key, DlqDir, HeldFile(d, key).(dlq := Some(DlqNote(reason, now))));
      }
    case ExtendLease(key, consumer, visibility) => ExtendKeeps(d, key, consumer, now + visibility * 1000, now);
    case ProcessDelayed =>
      forall k | k in DueKeys(d, now)
        ensures Path(DelayedDir, k) in d.files
      {
        DelayedIff(d, now, k);
      }
      PromotedKeeps(d, DueKeys(d, now));
    case DelayMessage(key, delayMs) =>
      if Held(d, key).Some? {
        HeldIsLeased(d, key);
        ReleaseKeeps(d, key, Inbox, HeldFile(d, key));
        ParkKeeps(d, key, now + delayMs);
      }
    case MoveToDlq(key, reason) =>
      if Held(d, key).Some? {
        HeldIsLeased(d, key);
        ReleaseKeeps(d, key, DlqDir, HeldFile(d, key).(dlq := Some(DlqNote(reason, now))));
      }
    case Reprocess(key) => ReprocessKeeps(d, key, now);
  }

  /** Only reprocess takes a message out of the DLQ. */
  lemma DlqIsSticky(d: Disk, now: int, op: Op, k: Key)
    requires SideTables(d) && Callable(d, op) && Path(DlqDir, k) in d.files
    ensures Path(DlqDir, k) in Apply(d, now, op).files || (op.Reprocess? && DeadKey(d, op.key) == Some(k))
    ensures Path(DlqDir, k) in Apply(d, now, op).files ==>
      Apply(d, now, op).files[Path(DlqDir, k)] == d.files[Path(DlqDir, k)]
  {
    hide SideTables, Promoted;
    NowhereElse(d, k, DlqDir);
    if op.Enqueue? {
      OnDiskIff(d.files, op.m.key);
      assert Path(DlqDir, k).key == k;
    } else if op.ProcessDelayed? {
      PromotionSpares(d, DueKeys(d, now), Path(DlqDir, k));
    }
  }

  /** A message file excludes every other file of the same message. */
  lemma NowhereElse(d: Disk, k: Key, dir: Dir)
    requires SideTables(d) && Path(dir, k) in d.files
    ensures forall other :: other != dir ==> Path(other, k) !in d.files
  {
    assert forall other :: Path(other, k).key == Path(dir, k).key;
  }

  lemma PromotionSpares(d: Disk, ks: set<Key>, p: Path)
    requires p in d.files && p.dir != DelayedDir && p.dir != Inbox
    ensures p in Promoted(d, ks).files && Promoted(d, ks).files[p] == d.files[p]
  {
  }

  datatype Timed = Timed(now: int, op: Op)

  const EMPTY := Disk(map[], map[], map[])

  /** Client calls and sweeper calls in any order, the sweeper's possibly on stale snapshots. */
  ghost predicate Interleaving(ds: seq<Disk>, calls: seq<Timed>) {
    && |ds| == |calls| + 1
    && ds[0] == EMPTY
    && forall i :: 0 <= i < |calls| ==>
      Callable(ds[i], calls[i].op) && ds[i + 1] == Apply(ds[i], calls[i].now, calls[i].op)
  }

  lemma {:induction false} SideTablesAlways(ds: seq<Disk>, calls: seq<Timed>, i: nat)
    requires Interleaving(ds, calls) && i < |ds|
    ensures SideTables(ds[i])
  {
    if i > 0 {
      SideTablesAlways(ds, calls, i - 1);
      SideTablesKept(ds[i - 1], calls[i - 1].now, calls[i - 1].op);
      assert ds[i - 1 + 1] == Apply(ds[i - 1], calls[i - 1].now, calls[i - 1].op);
    }
  }

  // ---------------------------------------------------------------------------------------
  // Lifecycle of each message
  // ---------------------------------------------------------------------------------------

  /** SweepOne is the sweeper's action on one lease meta of a fresh snapshot. */
  datatype Act = Client(op: Op) | SweepOne(name: string, policies: map<string, QueuePolicy>, reason: string)

  datatype Call = Call(now: int, act: Act)

  /** The backend call the sweeper makes for a lease meta, if it is expired. */
  function SweepCall(d: Disk, name: string, policies: map<string, QueuePolicy>, reason: string, now: int): Option<Op> {
    if name !in d.leases || now <= d.leases[name].leaseUntil then None
    else
      var meta := d.leases[name];
      match RetryRules.Decide(meta.attempt, PolicyOf(policies, meta.queue))
      case Retry(delayMs) => Some(DelayMessage(meta.messageKey, delayMs))
      case Bury => Some(MoveToDlq(meta.messageKey, reason))
      case Keep => None
  }

  function OpOf(d: Disk, c: Call): Option<Op> {
    match c.act
    case Client(op) => Some(op)
    case SweepOne(name, policies, reason) => SweepCall(d, name, policies, reason, c.now)
  }

  ghost predicate Step(d: Disk, c: Call, d': Disk) {
    && (c.act.Client? ==> Callable(d, c.act.op) && !c.act.op.DelayMessage? && !c.act.op.MoveToDlq?)
    && d' == if OpOf(d, c).Some? then Apply(d, c.now, OpOf(d, c).value) else d
  }

  /** A lease meta file is named after the key it holds. */
  predicate MetasNamed(d: Disk) {
    forall n :: n in d.leases ==> SafeName(d.leases[n].messageKey) == n
  }

  /** lease_next never looks at the time, so nothing in the inbox may be early. */
  ghost predicate Timely(d: Disk, now: int) {
    forall p :: p in d.files && (p.dir == Inbox || p.dir == Processing) ==> d.files[p].availableAt <= now
  }

  ghost predicate Sane(d: Disk, now: int) {
    SideTables(d) && MetasNamed(d) && Timely(d, now)
  }

  lemma MetasNamedKept(d: Disk, now: int, op: Op)
    requires SideTables(d) && MetasNamed(d) && Callable(d, op)
    ensures MetasNamed(Apply(d, now, op))
  {
  }

  lemma TimelyKept(d: Disk, now: int, op: Op)
    requires SideTables(d) && Timely(d, now) && Callable(d, op)
    ensures Timely(Apply(d, now, op), now)
  {
    hide SideTables, SafeName, Promoted;
    var d' := Apply(d, now, op);
    if op.ProcessDelayed? {
      forall p | p in d'.files && (p.dir == Inbox || p.dir == Processing)
        ensures d'.files[p].availableAt <= now
      {
        PromotedFrom(d, now, p);
      }
    }
  }

  lemma PromotedFrom(d: Disk, now: int, p: Path)
    requires p in Promoted(d, DueKeys(d, now)).files
    ensures
      var f := Promoted(d, DueKeys(d, now)).files[p];
      || (p in d.files && f == d.files[p])
      || (p.dir == Inbox && DueFile(d, now, p.key) && f == d.files[Path(DelayedDir, p.key)])
  {
    DelayedIff(d, now, p.key);
  }

  function LifeIn(d: Disk, k: Key): L.Life {
    if Path(Inbox, k) in d.files then L.Ready(d.files[Path(Inbox, k)].availableAt, d.files[Path(Inbox, k)].attempt)
    else if Path(DelayedDir, k) in d.files
    then L.Delayed(d.files[Path(DelayedDir, k)].availableAt, d.files[Path(DelayedDir, k)].attempt)
    else if Path(Processing, k) in d.files
    then L.Inflight(if Name(k) in d.leases then d.leases[Name(k)].leaseUntil else 0,
                    d.files[Path(Processing, k)].attempt)
    else if Path(DlqDir, k) in d.files then L.Dead(d.files[Path(DlqDir, k)].attempt)
    else if Path(Archive, k) in d.files then L.Acked
    else L.Unpublished
  }

  function ClientEvent(d: Disk, now: int, op: Op, k: Key): L.Event {
    match op
    case Enqueue(m) => if m.key == k then L.Publish(m.availableAt, m.attempt) else L.Idle
    case LeaseNext(_, _, visibility, picked) => if picked == Some(k) then L.Lease(now + visibility * 1000) else L.Idle
    case Ack(key, consumer) => if MayAck(d, key, consumer, now) && Held(d, key) == Some(k) then L.Ack else L.Idle
    case Nack(key, _, requeue) => if Held(d, key) == Some(k) then if requeue then L.Requeue else L.Reject else L.Idle
    case ExtendLease(key, consumer, visibility) =>
      if MayAck(d, key, consumer, now) && SafeName(key) == Name(k) && Path(Processing, k) in d.files
      then L.Extend(now + visibility * 1000) else L.Idle
    case ProcessDelayed => if DueFile(d, now, k) then L.Promote else L.Idle
    case Reprocess(key) => if DeadKey(d, key) == Some(k) then L.Reprocess else L.Idle
    case _ => L.Idle
  }

  function EventOn(d: Disk, c: Call, k: Key): L.Event {
    match c.act
    case Client(op) => ClientEvent(d, c.now, op, k)
    case SweepOne(name, policies, _) =>
      if name in d.leases && d.leases[name].leaseUntil < c.now && Held(d, d.leases[name].messageKey) == Some(k)
      then L.Expire(PolicyOf(policies, k.queue))
      else L.Idle
  }

  /** The life of a message depends only on its own files and its own lease meta. */
  lemma LifeUnchanged(d: Disk, d': Disk, k: Key)
    requires forall dir :: Path(dir, k) in d.files <==> Path(dir, k) in d'.files
    requires forall dir :: Path(dir, k) in d.files ==> d'.files[Path(dir, k)] == d.files[Path(dir, k)]
    requires Path(Processing, k) in d.files ==>
      && (Name(k) in d.leases <==> Name(k) in d'.leases)
      && (Name(k) in d.leases ==> d'.leases[Name(k)].leaseUntil == d.leases[Name(k)].leaseUntil)
    ensures LifeIn(d', k) == LifeIn(d, k)
  {
  }

  /** A held message and its life. */
  lemma HeldLife(d: Disk, key: string)
    requires SideTables(d) && Held(d, key).Some?
    ensures var k := Held(d, key).value;
            && Legal(k) && SafeName(key) == Name(k) && Name(k) in d.leases && LeaseAgrees(d, k)
            && LifeIn(d, k) == L.Inflight(d.leases[Name(k)].leaseUntil, d.files[Path(Processing, k)].attempt)
            && forall other :: other != Processing ==> Path(other, k) !in d.files
  {
    HeldIsLeased(d, key);
    NowhereElse(d, Held(d, key).value, Processing);
  }

  function LifeAt(to: Dir, f: File): L.Life {
    match to
    case Inbox => L.Ready(f.availableAt, f.attempt)
    case DelayedDir => L.Delayed(f.availableAt, f.attempt)
    case DlqDir => L.Dead(f.attempt)
    case Archive => L.Acked
    case Processing => L.Unpublished
  }

  /** Releasing one held message shows in its own life only. */
  lemma ReleaseLife(d: Disk, key: string, to: Dir, f: File, d': Disk, k: Key)
    requires SideTables(d) && Held(d, key).Some? && to != Processing
    requires d'.files == Released(d, key, Held(d, key).value, to, f).files
    requires d'.leases == Released(d, key, Held(d, key).value, to, f).leases
    ensures k != Held(d, key).value ==> LifeIn(d', k) == LifeIn(d, k)
    ensures k == Held(d, key).value ==> LifeIn(d', k) == LifeAt(to, f)
  {
    hide SideTables, SafeName, Render;
    HeldLife(d, key);
    var j := Held(d, key).value;
    if k != j {
      if Path(Processing, k) in d.files {
        FileFacts(d, Path(Processing, k));
        NamesDiffer(k, j);
      }
      LifeUnchanged(d, d', k);
    }
  }

  lemma AckIsLife(d: Disk, now: int, key: string, consumer: string, k: Key)
    requires Sane(d, now)
    ensures L.Next(now, LifeIn(d, k), ClientEvent(d, now, Ack(key, consumer), k),
                   LifeIn(Acked(d, key, consumer, now), k))
  {
    hide SideTables, MetasNamed, Timely, SafeName, Render, IdOf;
    if MayAck(d, key, consumer, now) && Held(d, key).Some? {
      HeldLife(d, key);
      ReleaseLife(d, key, Archive, HeldFile(d, key), Acked(d, key, consumer, now), k);
    } else {
      assert Acked(d, key, consumer, now) == d;
    }
  }

  lemma NackIsLife(d: Disk, now: int, key: string, reason: string, requeue: bool, k: Key)
    requires Sane(d, now)
    ensures L.Next(now, LifeIn(d, k), ClientEvent(d, now, Nack(key, reason, requeue), k),
                   LifeIn(Nacked(d, key, reason, requeue, now), k))
  {
    hide SideTables, MetasNamed, SafeName, Render, IdOf;
    if Held(d, key).Some? {
      HeldLife(d, key);
      var f := HeldFile(d, key);
      var to := if requeue then Inbox else DlqDir;
      ReleaseLife(d, key, to, if requeue then f else f.(dlq := Some(DlqNote(reason, now))),
                  Nacked(d, key, reason, requeue, now), k);
    } else {
      assert Nacked(d, key, reason, requeue, now) == d;
    }
  }

  lemma ExtendIsLife(d: Disk, now: int, op: Op, k: Key)
    requires Sane(d, now) && op.ExtendLease?
    ensures L.Next(now, LifeIn(d, k), ClientEvent(d, now, op, k), LifeIn(Apply(d, now, op), k))
  {
    hide SideTables, SafeName, Render;
    if Path(Processing, k) in d.files {
      NowhereElse(d, k, Processing);
      FileFacts(d, Path(Processing, k));
      MetaIff(d, k);
    } else {
      LifeUnchanged(d, Apply(d, now, op), k);
    }
  }

  lemma EnqueueIsLife(d: Disk, now: int, m: Message, k: Key)
    requires Sane(d, now) && Fresh(d, m)
    ensures L.Next(now, LifeIn(d, k), ClientEvent(d, now, Enqueue(m), k), LifeIn(Enqueued(d, m, now), k))
  {
  }

  lemma LeaseIsLife(d: Disk, now: int, op: Op, k: Key)
    requires Sane(d, now) && op.LeaseNext? && Callable(d, op)
    ensures L.Next(now, LifeIn(d, k), ClientEvent(d, now, op, k), LifeIn(Apply(d, now, op), k))
  {
    hide SideTables, SafeName, Render;
    if op.picked.Some? {
      var j := op.picked.value;
      FileFacts(d, Path(Inbox, j));
      NowhereElse(d, j, Inbox);
      if k != j {
        if Path(Processing, k) in d.files {
          FileFacts(d, Path(Processing, k));
          NamesDiffer(k, j);
        }
        LifeUnchanged(d, Apply(d, now, op), k);
      }
    }
  }

  lemma DueArrives(d: Disk, now: int, k: Key)
    requires DueFile(d, now, k)
    ensures Path(Inbox, k) in Promoted(d, DueKeys(d, now)).files
    ensures Promoted(d, DueKeys(d, now)).files[Path(Inbox, k)] == d.files[Path(DelayedDir, k)]
  {
    DelayedIff(d, now, k);
  }

  lemma NotDueStays(d: Disk, now: int, k: Key)
    requires SideTables(d) && !DueFile(d, now, k)
    ensures LifeIn(Promoted(d, DueKeys(d, now)), k) == LifeIn(d, k)
  {
    hide SideTables, SafeName, Render, LifeIn;
    var d' := Promoted(d, DueKeys(d, now));
    DelayedIff(d, now, k);
    forall dir
      ensures Path(dir, k) in d.files <==> Path(dir, k) in d'.files
      ensures Path(dir, k) in d.files ==> d'.files[Path(dir, k)] == d.files[Path(dir, k)]
    {
      if Path(dir, k) in d'.files {
        PromotedFrom(d, now, Path(dir, k));
      }
    }
    LifeUnchanged(d, d', k);
  }

  lemma PromoteIsLife(d: Disk, now: int, k: Key)
    requires Sane(d, now)
    ensures L.Next(now, LifeIn(d, k), ClientEvent(d, now, ProcessDelayed, k), LifeIn(Apply(d, now, ProcessDelayed), k))
  {
    hide SideTables, SafeName, Render;
    hide Promoted, DueKeys;
    if DueFile(d, now, k) {
      NowhereElse(d, k, DelayedDir);
      DueArrives(d, now, k);
    } else {
      NotDueStays(d, now, k);
    }
  }

  lemma ReprocessIsLife(d: Disk, now: int, key: string, k: Key)
    requires Sane(d, now)
    ensures L.Next(now, LifeIn(d, k), ClientEvent(d, now, Reprocess(key), k), LifeIn(Reprocessed(d, key, now), k))
  {
    hide SideTables, SafeName, Render;
    var dead := DeadKey(d, key);
    if dead.Some? {
      NowhereElse(d, dead.value, DlqDir);
    }
    if dead != Some(k) {
      LifeUnchanged(d, Reprocessed(d, key, now), k);
    }
  }

  /** The lease meta the sweeper looks at is expired and its file is there. */
  predicate Caught(d: Disk, name: string, now: int) {
    name in d.leases && d.leases[name].leaseUntil < now && Held(d, d.leases[name].messageKey).Some?
  }

  /** What the sweeper's action does to the disk. */
  function Swept(d: Disk, name: string, policies: map<string, QueuePolicy>, reason: string, now: int): Disk {
    match SweepCall(d, name, policies, reason, now)
    case Some(DelayMessage(key, delayMs)) => Postponed(d, key, delayMs, now)
    case Some(MoveToDlq(key, why)) => MovedToDlq(d, key, why, now)
    case _ => d
  }

  lemma SweepStepIs(d: Disk, c: Call, d': Disk)
    requires Step(d, c, d') && c.act.SweepOne?
    ensures d' == Swept(d, c.act.name, c.act.policies, c.act.reason, c.now)
  {
    hide Postponed, MovedToDlq, RetryRules.BackoffDelay;
  }

  lemma CaughtIsLife(d: Disk, name: string, policies: map<string, QueuePolicy>, reason: string, now: int, k: Key)
    requires Sane(d, now) && Caught(d, name, now)
    ensures L.Next(now, LifeIn(d, k), EventOn(d, Call(now, SweepOne(name, policies, reason)), k),
                   LifeIn(Swept(d, name, policies, reason, now), k))
  {
    hide SideTables, SafeName, Render, RetryRules.BackoffDelay;
    var key, d' := d.leases[name].messageKey, Swept(d, name, policies, reason, now);
    HeldLife(d, key);
    var f := HeldFile(d, key);
    match SweepCall(d, name, policies, reason, now)
    case Some(DelayMessage(_, delayMs)) =>
      if delayMs <= 0 {
        ReleaseLife(d, key, Inbox, f, d', k);
      } else {
        ReleaseLife(d, key, DelayedDir, f.(availableAt := now + delayMs), d', k);
      }
    case Some(MoveToDlq(_, _)) =>
      ReleaseLife(d, key, DlqDir, f.(dlq := Some(DlqNote(reason, now))), d', k);
    case None =>
  }

  lemma SweepIsLife(d: Disk, c: Call, d': Disk, k: Key)
    requires Sane(d, c.now) && Step(d, c, d') && c.act.SweepOne?
    ensures L.Next(c.now, LifeIn(d, k), EventOn(d, c, k), LifeIn(d', k))
  {
    hide Sane, SafeName, Step, RetryRules.BackoffDelay, LifeIn, Held;
    SweepStepIs(d, c, d');
    if Caught(d, c.act.name, c.now) {
      CaughtIsLife(d, c.act.name, c.act.policies, c.act.reason, c.now, k);
    } else {
      assert d' == d;
    }
  }

  /** Every call is, for every message, a step the lifecycle allows. */
  lemma StepIsLife(d: Disk, c: Call, d': Disk, k: Key)
    requires Sane(d, c.now) && Step(d, c, d')
    ensures L.Next(c.now, LifeIn(d, k), EventOn(d, c, k), LifeIn(d', k))
  {
    hide Sane, LifeIn, L.Next, Held;
    if c.act.SweepOne? {
      SweepIsLife(d, c, d', k);
    } else {
      match c.act.op
      case Enqueue(m) => EnqueueIsLife(d, c.now, m, k);
      case LeaseNext(_, _, _, _) => LeaseIsLife(d, c.now, c.act.op, k);
      case Ack(key, consumer) => AckIsLife(d, c.now, key, consumer, k);
      case Nack(key, reason, requeue) => NackIsLife(d, c.now, key, reason, requeue, k);
      case ExtendLease(_, _, _) => ExtendIsLife(d, c.now, c.act.op, k);
      case ProcessDelayed => PromoteIsLife(d, c.now, k);
      case Reprocess(key) => ReprocessIsLife(d, c.now, key, k);
    }
  }

  ghost predicate Run(ds: seq<Disk>, calls: seq<Call>) {
    && |ds| == |calls| + 1
    && ds[0] == EMPTY
    && (forall i :: 0 <= i < |calls| ==> Step(ds[i], calls[i], ds[i + 1]))
    && (forall i, j :: 0 <= i <= j < |calls| ==> calls[i].now <= calls[j].now)
  }

  /** A run starts with an empty disk, and at any later time any client call, promotion or sweeper's action continues
      it; only keys must be legal and new, and a lease takes the file lease_next finds. */
  lemma RunContinues(ds: seq<Disk>, calls: seq<Call>, c: Call) returns (d: Disk)
    requires |calls| == 0 ==> ds == [Disk(map[], map[], map[])]
    requires |calls| > 0 ==> Run(ds, calls) && calls[|calls| - 1].now <= c.now
    requires c.act.Client? ==>
      && !c.act.op.DelayMessage? && !c.act.op.MoveToDlq?
      && (c.act.op.Enqueue? ==>
            Legal(c.act.op.m.key) && c.act.op.m.attempt >= 0 && !OnDisk(ds[|calls|].files, c.act.op.m.key))
      && (c.act.op.LeaseNext? ==> Picks(ds[|calls|], c.act.op.queue, c.act.op.consumer, c.act.op.picked))
    ensures Run(ds + [d], calls + [c])
    ensures c.act.Client? ==> d == Apply(ds[|calls|], c.now, c.act.op)
  {
    hide Apply, OnDisk, Picks, Legal;
    var was := ds[|calls|];
    d := if OpOf(was, c).Some? then Apply(was, c.now, OpOf(was, c).value) else was;
    assert Step(was, c, d);
  }

  lemma SaneKept(d: Disk, c: Call, d': Disk)
    requires Sane(d, c.now) && Step(d, c, d')
    ensures Sane(d', c.now)
  {
    hide SideTables, MetasNamed, Timely, Apply;
    var call := OpOf(d, c);
    if call.Some? {
      SideTablesKept(d, c.now, call.value);
      MetasNamedKept(d, c.now, call.value);
      TimelyKept(d, c.now, call.value);
    }
  }

  lemma StaysTimely(d: Disk, earlier: int, later: int)
    requires Sane(d, earlier) && earlier <= later
    ensures Sane(d, later)
  {
    hide SideTables, MetasNamed;
  }

  lemma {:induction false} AlwaysSane(ds: seq<Disk>, calls: seq<Call>, i: nat)
    requires Run(ds, calls) && i < |calls|
    ensures Sane(ds[i], calls[i].now)
  {
    if i == 0 {
      hide Step;
      assert Names(map[], Processing) == {} && Names(map[], DelayedDir) == {};
    } else {
      hide Sane, Step;
      AlwaysSane(ds, calls, i - 1);
      assert Step(ds[i - 1], calls[i - 1], ds[i - 1 + 1]);
      SaneKept(ds[i - 1], calls[i - 1], ds[i]);
      StaysTimely(ds[i], calls[i - 1].now, calls[i].now);
    }
  }

  // ---------------------------------------------------------------------------------------
  // Content
  // ---------------------------------------------------------------------------------------

  /** What has been published, by key. */
  function Published(calls: seq<Call>): map<Key, Message> {
    if calls == [] then map[]
    else
      var before, act := Published(calls[..|calls| - 1]), calls[|calls| - 1].act;
      if act.Client? && act.op.Enqueue? then before[act.op.m.key := act.op.m] else before
  }

  /** The file carries the message published under its key. */
  predicate Carries(f: File, k: Key, published: map<Key, Message>) {
    && k in published
    && f.payload == published[k].payload && f.attributes == published[k].attributes
    && f.priority == published[k].priority && f.createdAt == published[k].createdAt && f.target == published[k].target
  }

  ghost predicate AllCarry(files: map<Path, File>, published: map<Key, Message>) {
    forall p :: p in files ==> Carries(files[p], p.key, published)
  }

  lemma EnqueueCarries(d: Disk, m: Message, now: int, published: map<Key, Message>)
    requires AllCarry(d.files, published) && Fresh(d, m)
    ensures AllCarry(Enqueued(d, m, now).files, published[m.key := m])
  {
    OnDiskIff(d.files, m.key);
  }

  lemma MoveCarries(files: map<Path, File>, src: Path, dst: Path, f: File, published: map<Key, Message>)
    requires AllCarry(files, published) && src in files && src.key == dst.key && BodyOf(f) == BodyOf(files[src])
    ensures AllCarry((files - {src})[dst := f], published)
  {
  }

  lemma PromoteCarries(d: Disk, now: int, published: map<Key, Message>)
    requires AllCarry(d.files, published)
    ensures AllCarry(Promoted(d, DueKeys(d, now)).files, published)
  {
    hide Promoted, DueKeys, Carries;
    forall p | p in Promoted(d, DueKeys(d, now)).files
      ensures Carries(Promoted(d, DueKeys(d, now)).files[p], p.key, published)
    {
      PromotedFrom(d, now, p);
    }
  }

  /** No call but enqueue changes what any file carries. */
  lemma CallCarries(d: Disk, now: int, op: Op, published: map<Key, Message>)
    requires AllCarry(d.files, published) && Callable(d, op)
    ensures op.Enqueue? ==> AllCarry(Apply(d, now, op).files, published[op.m.key := op.m])
    ensures !op.Enqueue? ==> AllCarry(Apply(d, now, op).files, published)
  {
    hide AllCarry, SafeName, IdOf, QueueOf, Promoted, DueKeys, Enqueued, Fresh, RetryRules.BackoffDelay;
    match op
    case Enqueue(m) => EnqueueCarries(d, m, now, published);
    case ProcessDelayed => PromoteCarries(d, now, published);
    case LeaseNext(_, _, _, picked) =>
      if picked.Some? {
        var f := d.files[Path(Inbox, picked.value)];
        MoveCarries(d.files, Path(Inbox, picked.value), Path(Processing, picked.value),
                    f.(attempt := f.attempt + 1), published);
      }
    case Reprocess(key) =>
      if DeadKey(d, key).Some? {
        var k := DeadKey(d, key).value;
        MoveCarries(d.files, Path(DlqDir, k), Path(Inbox, k),
                    d.files[Path(DlqDir, k)].(dlq := None, attempt := 0, availableAt := now), published);
      }
    case Ack(key, _) =>
      if Held(d, key).Some? {
        ReleaseCarries(d, key, Archive, HeldFile(d, key), published);
      }
    case Nack(key, reason, requeue) =>
      if Held(d, key).Some? {
        ReleaseCarries(d, key, Inbox, HeldFile(d, key), published);
        ReleaseCarries(d, key, DlqDir, HeldFile(d, key).(dlq := Some(DlqNote(reason, now))), published);
      }
    case DelayMessage(key, delayMs) =>
      if Held(d, key).Some? {
        ReleaseCarries(d, key, Inbox, HeldFile(d, key), published);
        ReleaseCarries(d, key, DelayedDir, HeldFile(d, key).(availableAt := now + delayMs), published);
      }
    case MoveToDlq(key, reason) =>
      if Held(d, key).Some? {
        ReleaseCarries(d, key, DlqDir, HeldFile(d, key).(dlq := Some(DlqNote(reason, now))), published);
      }
    case ExtendLease(_, _, _) =>
  }

  lemma ReleaseCarries(d: Disk, key: string, to: Dir, f: File, published: map<Key, Message>)
    requires AllCarry(d.files, published) && Held(d, key).Some? && BodyOf(f) == BodyOf(HeldFile(d, key))
    ensures AllCarry(Released(d, key, Held(d, key).value, to, f).files, published)
  {
    MoveCarries(d.files, Path(Processing, Held(d, key).value), Path(to, Held(d, key).value), f, published);
  }

  lemma {:induction false} AlwaysCarried(ds: seq<Disk>, calls: seq<Call>, i: nat)
    requires Run(ds, calls) && i < |ds|
    ensures AllCarry(ds[i].files, Published(calls[..i]))
  {
    hide Apply, Callable;
    if i > 0 {
      AlwaysCarried(ds, calls, i - 1);
      var d, c := ds[i - 1], calls[i - 1];
      assert Step(d, c, ds[i - 1 + 1]);
      assert calls[..i][..i - 1] == calls[..i - 1];
      var op := OpOf(d, c);
      if op.Some? {
        StepIsCallable(d, c, ds[i]);
        CallCarries(d, c.now, op.value, Published(calls[..i - 1]));
      }
    }
  }

  lemma StepIsCallable(d: Disk, c: Call, d': Disk)
    requires Step(d, c, d') && OpOf(d, c).Some?
    ensures Callable(d, OpOf(d, c).value) && d' == Apply(d, c.now, OpOf(d, c).value)
    ensures OpOf(d, c).value.Enqueue? ==> c.act.Client?
  {
    hide Apply;
  }

  /** Every lease returns what was published under its key, to a consumer its target admits, with one more attempt
      than the file showed before. */
  lemma LeaseReturnsPublished(ds: seq<Disk>, calls: seq<Call>, i: nat, k: Key)
    requires Run(ds, calls) && i < |calls|
    requires calls[i].act.Client? && calls[i].act.op.LeaseNext? && calls[i].act.op.picked == Some(k)
    ensures
      var published, op := Published(calls[..i]), calls[i].act.op;
      && k in published && k.queue == op.queue
      && Path(Inbox, k) in ds[i].files && Path(Processing, k) in ds[i + 1].files
      && var f, m := ds[i + 1].files[Path(Processing, k)], published[k];
         && f.payload == m.payload && f.attributes == m.attributes && f.priority == m.priority
         && f.createdAt == m.createdAt && f.target == m.target && (m.target == "" || m.target == op.consumer)
         && f.attempt == ds[i].files[Path(Inbox, k)].attempt + 1
  {
    AlwaysCarried(ds, calls, i);
    assert Step(ds[i], calls[i], ds[i + 1]);
    assert Carries(ds[i].files[Path(Inbox, k)], k, Published(calls[..i]));
  }

  function Lives(ds: seq<Disk>, k: Key): seq<L.Life> {
    seq(|ds|, i requires 0 <= i < |ds| => LifeIn(ds[i], k))
  }

  function Moments(ds: seq<Disk>, calls: seq<Call>, k: Key): seq<L.Moment>
    requires |ds| == |calls| + 1
  {
    seq(|calls|, i requires 0 <= i < |calls| => L.Moment(calls[i].now, EventOn(ds[i], calls[i], k)))
  }

  /** Refinement: every run of the backend is, message by message, a run of the lifecycle. */
  lemma RunIsLife(ds: seq<Disk>, calls: seq<Call>, k: Key)
    requires Run(ds, calls)
    ensures L.ValidRun(Lives(ds, k), Moments(ds, calls, k))
  {
    hide Sane, Step, EventOn;
    var lives, moments := Lives(ds, k), Moments(ds, calls, k);
    forall i | 0 <= i < |calls|
      ensures L.Next(moments[i].now, lives[i], moments[i].event, lives[i + 1])
    {
      AlwaysSane(ds, calls, i);
      StepIsLife(ds[i], calls[i], ds[i + 1], k);
    }
  }

  /** No early delivery: every file in an inbox is due whenever a call is made. */
  lemma NeverEarly(ds: seq<Disk>, calls: seq<Call>, i: nat, k: Key)
    requires Run(ds, calls) && i < |calls| && Path(Inbox, k) in ds[i].files
    ensures ds[i].files[Path(Inbox, k)].availableAt <= calls[i].now
  {
    AlwaysSane(ds, calls, i);
  }

  lemma LeaseExclusive(ds: seq<Disk>, calls: seq<Call>, k: Key, i: nat, j: nat)
    requires Run(ds, calls) && i < j < |calls|
    requires calls[i].act.Client? && calls[i].act.op.LeaseNext? && calls[i].act.op.picked == Some(k)
    requires calls[j].act.Client? && calls[j].act.op.LeaseNext? && calls[j].act.op.picked == Some(k)
    requires forall x :: i < x < j ==>
      !(calls[x].act.Client? && calls[x].act.op.LeaseNext? && calls[x].act.op.picked == Some(k))
    ensures
      || (exists x :: i < x < j
            && calls[x].act.Client? && calls[x].act.op.Nack? && Held(ds[x], calls[x].act.op.key) == Some(k))
      || L.CurrentExpiry(Moments(ds, calls, k), i, j) < calls[j].now
    ensures
      || (exists x :: i < x < j
            && calls[x].act.Client? && calls[x].act.op.Nack? && Held(ds[x], calls[x].act.op.key) == Some(k))
      || (exists x :: i < x < j
            && calls[x].act.Client? && calls[x].act.op.ExtendLease? && SafeName(calls[x].act.op.key) == Name(k))
      || calls[i].now + calls[i].act.op.visibilitySec * 1000 < calls[j].now
  {
    hide EventOn;
    forall x | 0 <= x < |calls|
      ensures EventFits(ds[x], calls[x], k)
    {
      EventIs(ds[x], calls[x], k);
    }
    RunIsLife(ds, calls, k);
    var ms := Moments(ds, calls, k);
    L.LeaseExclusive(Lives(ds, k), ms, i, j);
    if forall x :: i < x < j ==> !ms[x].event.Extend? {
      L.UnextendedExpiry(ms, i, j);
    }
  }

  /** Which calls the events of a message come from. */
  predicate EventFits(s: Disk, c: Call, k: Key) {
    var e := EventOn(s, c, k);
    && (e.Lease? <==> c.act.Client? && c.act.op.LeaseNext? && c.act.op.picked == Some(k))
    && (e.Lease? ==> e.leaseUntil == c.now + c.act.op.visibilitySec * 1000)
    && (e.Requeue? || e.Reject? ==>
          c.act.Client? && c.act.op.Nack? && Held(s, c.act.op.key) == Some(k))
    && (e.Extend? ==> c.act.Client? && c.act.op.ExtendLease? && SafeName(c.act.op.key) == Name(k))
  }

  lemma EventIs(s: Disk, c: Call, k: Key)
    ensures EventFits(s, c, k)
  {
  }

  lemma BoundedRedelivery(ds: seq<Disk>, calls: seq<Call>, k: Key, p: QueuePolicy)
    requires Run(ds, calls) && p.dlq.enabled
    requires forall x :: 0 <= x < |calls| ==>
      && (calls[x].act.Client? && calls[x].act.op.Enqueue? && calls[x].act.op.m.key == k ==>
            calls[x].act.op.m.attempt == 0)
      && !(calls[x].act.Client? && calls[x].act.op.Nack? && calls[x].act.op.requeue
           && Held(ds[x], calls[x].act.op.key) == Some(k))
      && !(calls[x].act.Client? && calls[x].act.op.Reprocess? && DeadKey(ds[x], calls[x].act.op.key) == Some(k))
      && (calls[x].act.SweepOne? ==> k.queue in calls[x].act.policies && calls[x].act.policies[k.queue] == p)
    ensures
      var leases := set x | 0 <= x < |calls|
                            && calls[x].act.Client? && calls[x].act.op.LeaseNext? && calls[x].act.op.picked == Some(k);
      |leases| <= if p.retry.limit > 1 then p.retry.limit else 1
  {
    RunIsLife(ds, calls, k);
    var ms := Moments(ds, calls, k);
    L.BoundedRedelivery(Lives(ds, k), ms, p);
    var leases := set x | 0 <= x < |calls|
                          && calls[x].act.Client? && calls[x].act.op.LeaseNext? && calls[x].act.op.picked == Some(k);
    assert leases == set x | 0 <= x < |ms| && ms[x].event.Lease?;
  }

  // ---------------------------------------------------------------------------------------
  // Draining
  // ---------------------------------------------------------------------------------------

  lemma LeaseRemovesOne(d: Disk, queue: string, consumer: string, until: int, k: Key, j: Key)
    requires Eligible(d, queue, consumer, k)
    ensures Eligible(LeaseGranted(d, queue, consumer, until, k), queue, consumer, j) <==>
      Eligible(d, queue, consumer, j) && j != k
  {
  }

  /** Draining order: repeated lease_next until nothing is returned yields exactly the eligible messages,
      each once, in file-name order. */
  lemma {:induction false} DrainingOrder(ds: seq<Disk>, picks: seq<Key>, queue: string, consumer: string, until: int)
    requires |ds| == |picks| + 1
    requires forall i :: 0 <= i < |picks| ==>
      && Picks(ds[i], queue, consumer, Some(picks[i]))
      && ds[i + 1] == LeaseGranted(ds[i], queue, consumer, until, picks[i])
    requires Picks(ds[|picks|], queue, consumer, None)
    ensures forall k :: k in picks <==> Eligible(ds[0], queue, consumer, k)
    ensures forall i, j :: 0 <= i < j < |picks| ==>
      picks[i] != picks[j] && Leq(picks[i].id + ".json", picks[j].id + ".json")
    decreases |picks|
  {
    hide Leq;
    if |picks| > 0 {
      var first, rest := picks[0], picks[1..];
      assert Picks(ds[0], queue, consumer, Some(first)) &&
        ds[0 + 1] == LeaseGranted(ds[0], queue, consumer, until, first);
      DrainingOrder(ds[1..], rest, queue, consumer, until);
      assert picks == [first] + rest;
      forall k
        ensures k in rest <==> Eligible(ds[0], queue, consumer, k) && k != first
      {
        LeaseRemovesOne(ds[0], queue, consumer, until, first, k);
      }
      forall i, j | 0 <= i < j < |picks|
        ensures picks[i] != picks[j] && Leq(FileName(picks[i]), FileName(picks[j]))
      {
        assert picks[j] == rest[j - 1] && rest[j - 1] in rest;
        if i > 0 {
          assert picks[i] == rest[i - 1];
        }
      }
    }
  }

  // ---------------------------------------------------------------------------------------
  // Stale snapshots
  // ---------------------------------------------------------------------------------------

  /** delay_message asks for a lease meta, not for an expired one: on whatever message it holds, it does what the
      sweeper may do exactly when the lease is past. */
  lemma StaleDelayIff(d: Disk, now: int, key: string, delayMs: int)
    requires Sane(d, now) && Held(d, key).Some?
    ensures
      var k := Held(d, key).value;
      Name(k) in d.leases &&
      (L.SweeperStep(now, LifeIn(d, k), LifeIn(Postponed(d, key, delayMs, now), k)) <==>
        d.leases[Name(k)].leaseUntil < now)
  {
    hide SideTables, SafeName, Render;
    HeldLife(d, key);
    var k, f, d' := Held(d, key).value, HeldFile(d, key), Postponed(d, key, delayMs, now);
    if delayMs <= 0 {
      ReleaseLife(d, key, Inbox, f, d', k);
    } else {
      ReleaseLife(d, key, DelayedDir, f.(availableAt := now + delayMs), d', k);
    }
    if d.leases[Name(k)].leaseUntil < now {
      assert L.Next(now, LifeIn(d, k), L.Expire(Some(RetryRules.Limited(f.attempt + 1))), LifeIn(d', k));
    }
  }

  /** Nor does move_to_dlq ask for an expired lease. */
  lemma StaleBuryIff(d: Disk, now: int, key: string, reason: string)
    requires Sane(d, now) && Held(d, key).Some?
    ensures
      var k := Held(d, key).value;
      Name(k) in d.leases &&
      (L.SweeperStep(now, LifeIn(d, k), LifeIn(MovedToDlq(d, key, reason, now), k)) <==>
        d.leases[Name(k)].leaseUntil < now)
  {
    hide SideTables, SafeName, Render;
    HeldLife(d, key);
    var k, f, d' := Held(d, key).value, HeldFile(d, key), MovedToDlq(d, key, reason, now);
    ReleaseLife(d, key, DlqDir, f.(dlq := Some(DlqNote(reason, now))), d', k);
    if d.leases[Name(k)].leaseUntil < now {
      assert L.Next(now, LifeIn(d, k), L.Expire(Some(RetryRules.Limited(f.attempt))), LifeIn(d', k));
    }
  }
}
