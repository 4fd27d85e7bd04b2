/**
 FileSystemAdapter: the directory that holds a message file is the message's state. Lease
 and delayed metas are separate files, written and removed by separate operations, so a
 crash can fall between any two of them.
 */
module FileSystem {
  import opened Types
  import opened Faults
  import opened Keys
  import opened FileNames

  datatype Dir = Inbox | Processing | DelayedDir | DlqDir | Archive

  /** {root}/{queue}/{dir}/{id}.json */
  datatype Path = Path(dir: Dir, key: Key)

  /** A serialised envelope; key is the rendered message key written into it. */
  datatype File = File(
    key: string,
    payload: string,
    attributes: string,
    priority: int,
    attempt: int,
    createdAt: int,
    availableAt: int,
    target: string,
    dlq: Option<DlqNote>)

  datatype LeaseMeta = LeaseMeta(messageKey: string, consumerId: string, leaseUntil: int, attempt: int, queue: string)

  datatype DelayedMeta = DelayedMeta(messageKey: string, queue: string, availableAt: int, attempt: int)

  /** Everything the adapter keeps outside memory; metas by file name. */
  datatype Disk = Disk(files: map<Path, File>, leases: map<string, LeaseMeta>, delayed: map<string, DelayedMeta>)

  datatype Lease = Lease(messageKey: string, consumerId: string, leaseUntil: int)

  datatype LeaseResult =
    | Nothing
    | Error
    | Leased(file: File, lease: Lease)

  function FileOf(m: Message): File {
    File(Render(m.key), m.payload, m.attributes, m.priority, m.attempt, m.createdAt, m.availableAt, m.target, None)
  }

  // ---------------------------------------------------------------------------------------
  // Single file operations
  // ---------------------------------------------------------------------------------------

  function Moved(d: Disk, src: Path, dst: Path): Disk
    requires src in d.files
  {
    d.(files := (d.files - {src})[dst := d.files[src]])
  }

  function Written(d: Disk, p: Path, f: File): Disk {
    d.(files := d.files[p := f])
  }

  /** The path the source derives from a key string and the queue in its lease meta. */
  function LeasedPath(d: Disk, key: string): Option<Path> {
    if SafeName(key) !in d.leases then None
    else
      match IdOf(key)
      case None => None
      case Some(id) => Some(Path(Processing, Key(d.leases[SafeName(key)].queue, id)))
  }

  /** The leased file of a key string: lease meta, well-formed key and the file itself are all there. */
  function Held(d: Disk, key: string): Option<Key> {
    match LeasedPath(d, key)
    case None => None
    case Some(p) => if p in d.files then Some(p.key) else None
  }

  // ---------------------------------------------------------------------------------------
  // Operations without faults
  // ---------------------------------------------------------------------------------------

  datatype Op =
    | Enqueue(m: Message)
    | LeaseNext(queue: string, consumer: string, visibilitySec: int, picked: Option<Key>)
    | Ack(key: string, consumer: string)
    | Nack(key: string, reason: string, requeue: bool)
    | ExtendLease(key: string, consumer: string, visibilitySec: int)
    | ProcessDelayed
    | DelayMessage(key: string, delayMs: int)
    | MoveToDlq(key: string, reason: string)
    | Reprocess(key: string)

  /** Where enqueue puts a message. */
  function DirOf(m: Message, now: int): Dir {
    if m.availableAt > now then DelayedDir else Inbox
  }

  function Enqueued(d: Disk, m: Message, now: int): Disk {
    if m.availableAt > now
    then Disk(d.files[Path(DelayedDir, m.key) := FileOf(m)], d.leases,
              d.delayed[SafeName(Render(m.key)) := DelayedMeta(Render(m.key), m.key.queue, m.availableAt, m.attempt)])
    else Written(d, Path(Inbox, m.key), FileOf(m))
  }

  predicate Eligible(d: Disk, queue: string, consumer: string, k: Key) {
    && Path(Inbox, k) in d.files
    && k.queue == queue
    && (d.files[Path(Inbox, k)].target == "" || d.files[Path(Inbox, k)].target == consumer)
  }

  function InDir(files: map<Path, File>, dir: Dir, queue: string): set<Key> {
    set p | p in files && p.dir == dir && p.key.queue == queue :: p.key
  }

  /** The first eligible file in file-name order; lease_next never looks at the time. */
  ghost predicate Picks(d: Disk, queue: string, consumer: string, picked: Option<Key>) {
    match picked
    case Some(k) =>
      Eligible(d, queue, consumer, k) && forall j :: Eligible(d, queue, consumer, j) ==> Leq(FileName(k), FileName(j))
    case None => forall j :: !Eligible(d, queue, consumer, j)
  }

  function LeaseGranted(d: Disk, queue: string, consumer: string, until: int, k: Key): Disk
    requires Path(Inbox, k) in d.files
  {
    var f := d.files[Path(Inbox, k)];
    Disk(
      (d.files - {Path(Inbox, k)})[Path(Processing, k) := f.(attempt := f.attempt + 1)],
      d.leases[SafeName(f.key) := LeaseMeta(f.key, consumer, until, f.attempt + 1, queue)],
      d.delayed)
  }

  /** Moves the held file on and drops the lease meta; f is the file as it is moved. */
  function Released(d: Disk, key: string, k: Key, to: Dir, f: File): Disk {
    d.(files := (d.files - {Path(Processing, k)})[Path(to, k) := f], leases := d.leases - {SafeName(key)})
  }

  predicate MayAck(d: Disk, key: string, consumer: string, now: int) {
    && SafeName(key) in d.leases
    && now <= d.leases[SafeName(key)].leaseUntil
    && d.leases[SafeName(key)].consumerId == consumer
  }

  function Acked(d: Disk, key: string, consumer: string, now: int): Disk {
    if MayAck(d, key, consumer, now) && Held(d, key).Some?
    then Released(d, key, Held(d, key).value, Archive, HeldFile(d, key))
    else d
  }

  function HeldFile(d: Disk, key: string): File
    requires Held(d, key).Some?
  {
    d.files[Path(Processing, Held(d, key).value)]
  }

  function Buried(d: Disk, key: string, reason: string, now: int): Disk
    requires Held(d, key).Some?
  {
    Released(d, key, Held(d, key).value, DlqDir, HeldFile(d, key).(dlq := Some(DlqNote(reason, now))))
  }

  /** Neither consumer nor expiry is checked. */
  function Nacked(d: Disk, key: string, reason: string, requeue: bool, now: int): Disk {
    if Held(d, key).None? then d
    else if requeue then Released(d, key, Held(d, key).value, Inbox, HeldFile(d, key))
    else Buried(d, key, reason, now)
  }

  /** The meta is rewritten under the caller's key string. */
  function Extended(d: Disk, key: string, consumer: string, until: int, now: int): Disk {
    if MayAck(d, key, consumer, now)
    then d.(leases := d.leases[SafeName(key) := d.leases[SafeName(key)].(messageKey := key, leaseUntil := until)])
    else d
  }

  predicate DueFile(d: Disk, now: int, k: Key) {
    Path(DelayedDir, k) in d.files && now >= d.files[Path(DelayedDir, k)].availableAt
  }

  function DelayedKeys(d: Disk): set<Key> {
    set p | p in d.files && p.dir == DelayedDir :: p.key
  }

  function DueKeys(d: Disk, now: int): set<Key> {
    set p | p in d.files && p.dir == DelayedDir && now >= d.files[p].availableAt :: p.key
  }

  function Arrivals(d: Disk, ks: set<Key>): map<Path, File> {
    map k | k in ks && Path(DelayedDir, k) in d.files :: Path(Inbox, k) := d.files[Path(DelayedDir, k)]
  }

  function Departures(d: Disk, ks: set<Key>): set<Path> {
    set k | k in ks :: Path(DelayedDir, k)
  }

  function StaleMetas(d: Disk, ks: set<Key>): set<string> {
    set k | k in ks && Path(DelayedDir, k) in d.files && d.files[Path(DelayedDir, k)].key != "" ::
      SafeName(d.files[Path(DelayedDir, k)].key)
  }

  /** The delayed files of ks moved to the inbox, their metas removed. */
  function Promoted(d: Disk, ks: set<Key>): Disk {
    Disk((d.files - Departures(d, ks)) + Arrivals(d, ks), d.leases, d.delayed - StaleMetas(d, ks))
  }

  function Postponed(d: Disk, key: string, delayMs: int, now: int): Disk {
    if Held(d, key).None? then d
    else
      var k, f, meta := Held(d, key).value, HeldFile(d, key), d.leases[SafeName(key)];
      if delayMs <= 0 then Released(d, key, k, Inbox, f)
      else
        Released(d, key, k, DelayedDir, f.(availableAt := now + delayMs))
          .(delayed := d.delayed[SafeName(key) := DelayedMeta(key, meta.queue, now + delayMs, meta.attempt)])
  }

  function MovedToDlq(d: Disk, key: string, reason: string, now: int): Disk {
    if Held(d, key).None? then d else Buried(d, key, reason, now)
  }

  /** The dlq file a key string names. */
  function DeadKey(d: Disk, key: string): Option<Key> {
    if QueueOf(key) == "" || IdOf(key).None? then None
    else
      var k := Key(QueueOf(key), IdOf(key).value);
      if Path(DlqDir, k) in d.files then Some(k) else None
  }

  function Reprocessed(d: Disk, key: string, now: int): Disk {
    match DeadKey(d, key)
    case None => d
    case Some(k) =>
      var f := d.files[Path(DlqDir, k)].(dlq := None, attempt := 0, availableAt := now);
      d.(files := (d.files - {Path(DlqDir, k)})[Path(Inbox, k) := f])
  }

  function Apply(d: Disk, now: int, op: Op): Disk {
    match op
    case Enqueue(m) => Enqueued(d, m, now)
    case LeaseNext(queue, consumer, visibility, picked) =>
      if picked.Some? && Path(Inbox, picked.value) in d.files
      then LeaseGranted(d, queue, consumer, now + visibility * 1000, picked.value)
      else d
    case Ack(key, consumer) => Acked(d, key, consumer, now)
    case Nack(key, reason, requeue) => Nacked(d, key, reason, requeue, now)
    case ExtendLease(key, consumer, visibility) => Extended(d, key, consumer, now + visibility * 1000, now)
    case ProcessDelayed => Promoted(d, DueKeys(d, now))
    case DelayMessage(key, delayMs) => Postponed(d, key, delayMs, now)
    case MoveToDlq(key, reason) => MovedToDlq(d, key, reason, now)
    case Reprocess(key) => Reprocessed(d, key, now)
  }

  // ---------------------------------------------------------------------------------------
  // Conservation
  // ---------------------------------------------------------------------------------------

  /** The part of a message no operation may change. */
  datatype Body = Body(key: string, payload: string, attributes: string, priority: int, createdAt: int, target: string)

  function BodyOf(f: File): Body {
    Body(f.key, f.payload, f.attributes, f.priority, f.createdAt, f.target)
  }

  predicate OnDisk(files: map<Path, File>, k: Key) {
    || Path(Inbox, k) in files
    || Path(Processing, k) in files
    || Path(DelayedDir, k) in files
    || Path(DlqDir, k) in files
    || Path(Archive, k) in files
  }

  ghost predicate Covered(files: map<Path, File>, accepted: map<Key, Body>) {
    forall k :: k in accepted <==> OnDisk(files, k)
  }

  ghost predicate OnePlace(files: map<Path, File>) {
    forall p, q :: p in files && q in files && p.key == q.key ==> p == q
  }

  ghost predicate Unchanged(files: map<Path, File>, accepted: map<Key, Body>) {
    forall p :: p in files ==> p.key in accepted && BodyOf(files[p]) == accepted[p.key]
  }

  /** Every accepted message is in exactly one directory, unchanged, and nothing else is there. */
  ghost predicate Conserved(files: map<Path, File>, accepted: map<Key, Body>) {
    Covered(files, accepted) && OnePlace(files) && Unchanged(files, accepted)
  }

  function CountAt(files: map<Path, File>, dir: Dir, k: Key): nat {
    if Path(dir, k) in files then 1 else 0
  }

  /** What conservation says of one message: it is in exactly one of the five directories if it was accepted and in
      none otherwise, and wherever it is, it is what was accepted. */
  lemma ConservedMeans(files: map<Path, File>, accepted: map<Key, Body>, k: Key)
    requires Conserved(files, accepted)
    ensures (if k in accepted then 1 else 0) ==
      CountAt(files, Inbox, k) + CountAt(files, Processing, k) + CountAt(files, DelayedDir, k)
      + CountAt(files, DlqDir, k) + CountAt(files, Archive, k)
    ensures forall dir :: Path(dir, k) in files ==>
      var f, b := files[Path(dir, k)], accepted[k];
      && f.key == b.key && f.payload == b.payload && f.attributes == b.attributes
      && f.priority == b.priority && f.createdAt == b.createdAt && f.target == b.target
  {
    assert k in accepted <==> OnDisk(files, k);
    forall a, b | Path(a, k) in files && Path(b, k) in files
      ensures a == b
    {
      assert Path(a, k).key == Path(b, k).key;
    }
    forall dir | Path(dir, k) in files
      ensures k in accepted && BodyOf(files[Path(dir, k)]) == accepted[k]
    {
      assert Path(dir, k).key == k;
    }
  }

  datatype Snapshot = Snapshot(disk: Disk, accepted: map<Key, Body>)

  lemma OnDiskIff(files: map<Path, File>, k: Key)
    ensures OnDisk(files, k) <==> exists p :: p in files && p.key == k
  {
    if p :| p in files && p.key == k {
      assert p == Path(p.dir, k);
      assert p.dir == Inbox || p.dir == Processing || p.dir == DelayedDir || p.dir == DlqDir || p.dir == Archive;
    }
    if OnDisk(files, k) {
      var p :| p in [Path(Inbox, k), Path(Processing, k), Path(DelayedDir, k), Path(DlqDir, k), Path(Archive, k)] &&
        p in files;
      assert p.key == k;
    }
  }

  /** Moving or rewriting a file in place of itself keeps every message in one place. */
  lemma MoveConserves(files: map<Path, File>, accepted: map<Key, Body>, src: Path, dst: Path, f: File)
    requires Conserved(files, accepted) && src in files && src.key == dst.key && BodyOf(f) == BodyOf(files[src])
    ensures Conserved((files - {src})[dst := f], accepted)
  {
    var files' := (files - {src})[dst := f];
    forall k
      ensures k in accepted <==> OnDisk(files', k)
    {
      OnDiskIff(files, k);
      OnDiskIff(files', k);
      if k == dst.key {
        assert dst in files' && src in files;
      } else {
        assert forall p: Path :: p.key == k ==> (p in files <==> p in files');
      }
    }
  }

  lemma RewriteConserves(files: map<Path, File>, accepted: map<Key, Body>, p: Path, f: File)
    requires Conserved(files, accepted) && p in files && BodyOf(f) == BodyOf(files[p])
    ensures Conserved(files[p := f], accepted)
  {
    hide Conserved;
    MoveConserves(files, accepted, p, p, f);
    assert (files - {p})[p := f] == files[p := f];
  }

  lemma CreateConserves(files: map<Path, File>, accepted: map<Key, Body>, p: Path, f: File)
    requires Conserved(files, accepted) && p.key !in accepted
    ensures Conserved(files[p := f], accepted[p.key := BodyOf(f)])
  {
    var files', accepted' := files[p := f], accepted[p.key := BodyOf(f)];
    OnDiskIff(files, p.key);
    forall k
      ensures k in accepted' <==> OnDisk(files', k)
    {
      OnDiskIff(files, k);
      OnDiskIff(files', k);
      if k == p.key {
        assert p in files';
      } else {
        assert forall q: Path :: q.key == k ==> (q in files <==> q in files');
      }
    }
  }

  lemma OverwriteConserves(files: map<Path, File>, accepted: map<Key, Body>, p: Path, f: File)
    requires Conserved(files, accepted) && p in files
    ensures Conserved(files[p := f], accepted[p.key := BodyOf(f)])
  {
    var files', accepted' := files[p := f], accepted[p.key := BodyOf(f)];
    assert p.key in accepted;
    forall k
      ensures k in accepted' <==> OnDisk(files', k)
    {
      assert k in accepted <==> OnDisk(files, k);
    }
  }

  /** Publishing under a key that is already on disk leaves two files of it exactly when the old one lies in
      another directory; in the same directory the old file is overwritten. */
  lemma CreateConservesIff(files: map<Path, File>, accepted: map<Key, Body>, p: Path, f: File)
    requires Conserved(files, accepted)
    ensures Conserved(files[p := f], accepted[p.key := BodyOf(f)]) <==> p.key !in accepted || p in files
  {
    var files', accepted' := files[p := f], accepted[p.key := BodyOf(f)];
    if p.key !in accepted {
      CreateConserves(files, accepted, p, f);
    } else if p in files {
      OverwriteConserves(files, accepted, p, f);
    } else {
      hide Unchanged, OnDisk;
      assert p.key in accepted <==> OnDisk(files, p.key);
      OnDiskIff(files, p.key);
      var q :| q in files && q.key == p.key;
      assert q in files' && p in files' && q != p;
    }
  }

  lemma DirsDisjoint(files: map<Path, File>, accepted: map<Key, Body>, queue: string, a: Dir, b: Dir)
    requires Conserved(files, accepted) && a != b
    ensures InDir(files, a, queue) !! InDir(files, b, queue)
  {
  }

  lemma DirsCover(files: map<Path, File>, accepted: map<Key, Body>, queue: string, k: Key)
    requires Conserved(files, accepted)
    ensures k in accepted && k.queue == queue <==>
      k in InDir(files, Inbox, queue) || k in InDir(files, Processing, queue) || k in InDir(files, DelayedDir, queue)
      || k in InDir(files, DlqDir, queue) || k in InDir(files, Archive, queue)
  {
    assert k in accepted <==> OnDisk(files, k);
    InDirIff(files, queue, k);
  }

  lemma DisjointSum(a: set<Key>, b: set<Key>, c: set<Key>, d: set<Key>, e: set<Key>)
    requires a !! b && a !! c && a !! d && a !! e && b !! c && b !! d && b !! e && c !! d && c !! e && d !! e
    ensures |a + b + c + d + e| == |a| + |b| + |c| + |d| + |e|
  {
    assert |a + b| == |a| + |b|;
    assert |a + b + c| == |a + b| + |c|;
    assert |a + b + c + d| == |a + b + c| + |d|;
  }

  function AcceptedIn(accepted: map<Key, Body>, queue: string): set<Key> {
    set k | k in accepted && k.queue == queue
  }

  function Stored(files: map<Path, File>, queue: string): set<Key> {
    InDir(files, Inbox, queue) + InDir(files, Processing, queue) + InDir(files, DelayedDir, queue)
    + InDir(files, DlqDir, queue) + InDir(files, Archive, queue)
  }

  lemma StoredIsAccepted(files: map<Path, File>, accepted: map<Key, Body>, queue: string)
    requires Conserved(files, accepted)
    ensures Stored(files, queue) == AcceptedIn(accepted, queue)
  {
    forall k
      ensures k in AcceptedIn(accepted, queue) <==> k in Stored(files, queue)
    {
      DirsCover(files, accepted, queue, k);
    }
  }

  lemma StoredCount(files: map<Path, File>, accepted: map<Key, Body>, queue: string)
    requires Conserved(files, accepted)
    ensures |Stored(files, queue)| == |InDir(files, Inbox, queue)| + |InDir(files, Processing, queue)|
      + |InDir(files, DelayedDir, queue)| + |InDir(files, DlqDir, queue)| + |InDir(files, Archive, queue)|
  {
    DirsDisjoint(files, accepted, queue, Inbox, Processing);
    DirsDisjoint(files, accepted, queue, Inbox, DelayedDir);
    DirsDisjoint(files, accepted, queue, Inbox, DlqDir);
    DirsDisjoint(files, accepted, queue, Inbox, Archive);
    DirsDisjoint(files, accepted, queue, Processing, DelayedDir);
    DirsDisjoint(files, accepted, queue, Processing, DlqDir);
    DirsDisjoint(files, accepted, queue, Processing, Archive);
    DirsDisjoint(files, accepted, queue, DelayedDir, DlqDir);
    DirsDisjoint(files, accepted, queue, DelayedDir, Archive);
    DirsDisjoint(files, accepted, queue, DlqDir, Archive);
    DisjointSum(InDir(files, Inbox, queue), InDir(files, Processing, queue), InDir(files, DelayedDir, queue),
                InDir(files, DlqDir, queue), InDir(files, Archive, queue));
  }

  /** The counts of the five directories of a queue add up to the messages it accepted. */
  lemma CountsAddUp(files: map<Path, File>, accepted: map<Key, Body>, queue: string)
    requires Conserved(files, accepted)
    ensures |InDir(files, Inbox, queue)| + |InDir(files, Processing, queue)| + |InDir(files, DelayedDir, queue)|
          + |InDir(files, DlqDir, queue)| + |InDir(files, Archive, queue)| == |AcceptedIn(accepted, queue)|
  {
    StoredIsAccepted(files, accepted, queue);
    StoredCount(files, accepted, queue);
  }

  lemma InDirIff(files: map<Path, File>, queue: string, k: Key)
    ensures forall dir :: k in InDir(files, dir, queue) <==> Path(dir, k) in files && k.queue == queue
  {
  }

  /** What moving one due file to the inbox does. */
  function PromotedOne(d: Disk, k: Key): Disk
    requires Path(DelayedDir, k) in d.files
  {
    var f := d.files[Path(DelayedDir, k)];
    Disk((d.files - {Path(DelayedDir, k)})[Path(Inbox, k) := f], d.leases,
         d.delayed - (if f.key == "" then {} else {SafeName(f.key)}))
  }

  lemma PromotedFiles(d: Disk, ks: set<Key>, k: Key)
    requires Path(DelayedDir, k) in d.files && k !in ks
    ensures Path(DelayedDir, k) in Promoted(d, ks).files
    ensures Promoted(d, ks).files[Path(DelayedDir, k)] == d.files[Path(DelayedDir, k)]
    ensures Promoted(d, ks + {k}).files == PromotedOne(Promoted(d, ks), k).files
  {
    var f := d.files[Path(DelayedDir, k)];
    assert Departures(d, ks + {k}) == Departures(d, ks) + {Path(DelayedDir, k)};
    assert Arrivals(d, ks + {k}) == Arrivals(d, ks)[Path(Inbox, k) := f];
  }

  lemma PromotedMetas(d: Disk, ks: set<Key>, k: Key)
    requires Path(DelayedDir, k) in d.files && k !in ks
    ensures var f := d.files[Path(DelayedDir, k)];
            Promoted(d, ks + {k}).delayed == Promoted(d, ks).delayed - (if f.key == "" then {} else {SafeName(f.key)})
  {
    var f := d.files[Path(DelayedDir, k)];
    var stale := if f.key == "" then {} else {SafeName(f.key)};
    assert StaleMetas(d, ks + {k}) == StaleMetas(d, ks) + stale;
  }

  /** Promoting one more file of the ones that were delayed at the start. */
  lemma PromoteOneMore(d: Disk, ks: set<Key>, k: Key)
    requires Path(DelayedDir, k) in d.files && k !in ks
    ensures Path(DelayedDir, k) in Promoted(d, ks).files
    ensures Promoted(d, ks).files[Path(DelayedDir, k)] == d.files[Path(DelayedDir, k)]
    ensures Promoted(d, ks + {k}) == PromotedOne(Promoted(d, ks), k)
  {
    PromotedFiles(d, ks, k);
    PromotedMetas(d, ks, k);
  }

  lemma DelayedIff(d: Disk, now: int, k: Key)
    ensures k in DelayedKeys(d) <==> Path(DelayedDir, k) in d.files
    ensures k in DueKeys(d, now) <==> DueFile(d, now, k)
  {
    assert Path(DelayedDir, k).key == k;
  }

  lemma DueAreDelayed(d: Disk, now: int)
    ensures DueKeys(d, now) <= DelayedKeys(d)
  {
  }

  lemma PromoteNothing(d: Disk)
    ensures Promoted(d, {}) == d
  {
    assert Departures(d, {}) == {} && Arrivals(d, {}) == map[] && StaleMetas(d, {}) == {};
  }

  lemma GrantInSteps(d: Disk, queue: string, consumer: string, until: int, k: Key)
    requires Path(Inbox, k) in d.files
    ensures
      var f := d.files[Path(Inbox, k)];
      var moved := Moved(d, Path(Inbox, k), Path(Processing, k));
      var meta := LeaseMeta(f.key, consumer, until, f.attempt + 1, queue);
      var noted := moved.(leases := d.leases[SafeName(f.key) := meta]);
      Written(noted, Path(Processing, k), f.(attempt := f.attempt + 1)) == LeaseGranted(d, queue, consumer, until, k)
  {
    var f := d.files[Path(Inbox, k)];
    WriteAfterMove(d, Path(Inbox, k), Path(Processing, k), f.(attempt := f.attempt + 1));
  }

  lemma MoveAfterWrite(d: Disk, p: Path, q: Path, f: File)
    requires p in d.files && p != q
    ensures Moved(Written(d, p, f), p, q) == d.(files := (d.files - {p})[q := f])
  {
  }

  lemma WriteAfterMove(d: Disk, p: Path, q: Path, f: File)
    requires p in d.files && p != q
    ensures Written(Moved(d, p, q), q, f) == d.(files := (d.files - {p})[q := f])
  {
  }

  /** The meta files of expired leases. */
  function Overdue(d: Disk, now: int): set<string> {
    set n | n in d.leases && now > d.leases[n].leaseUntil
  }

  /** A list without repetition has as many members as the set of them. */
  lemma {:induction false} ListedOnce(names: seq<string>, all: set<string>)
    requires forall n :: n in names <==> n in all
    requires forall i, j :: 0 <= i < j < |names| ==> names[i] != names[j]
    ensures |names| == |all|
    decreases |names|
  {
    if names == [] {
      assert all == {};
    } else {
      var rest := names[1..];
      assert names == [names[0]] + rest;
      ListedOnce(rest, all - {names[0]});
    }
  }

  /** What a listing of expired metas by name says about the list itself. */
  lemma SnapshotIs(d: Disk, now: int, expired: seq<LeaseMeta>, names: seq<string>)
    requires |names| == |expired|
    requires forall i :: 0 <= i < |names| ==>
      names[i] in d.leases && now > d.leases[names[i]].leaseUntil && expired[i] == d.leases[names[i]]
    requires forall i, j :: 0 <= i < j < |names| ==> names[i] != names[j]
    ensures forall m :: m in expired ==> now > m.leaseUntil && m in d.leases.Values
    ensures (forall n :: n in Overdue(d, now) ==> n in names) ==>
      |expired| == |Overdue(d, now)| && forall n :: n in Overdue(d, now) ==> d.leases[n] in expired
  {
    if forall n :: n in Overdue(d, now) ==> n in names {
      ListedOnce(names, Overdue(d, now));
      forall n | n in Overdue(d, now)
        ensures d.leases[n] in expired
      {
        var i :| 0 <= i < |names| && names[i] == n;
        assert expired[i] == d.leases[n];
      }
    }
  }

  /** The message of a lease meta that is expired and well formed. */
  function OverdueKey(meta: LeaseMeta, now: int): Option<Key> {
    if now > meta.leaseUntil && meta.messageKey != "" && meta.queue != "" && IdOf(meta.messageKey).Some?
    then Some(Key(meta.queue, IdOf(meta.messageKey).value))
    else None
  }

  predicate MetaRecovered(d: Disk, d': Disk, n: string, now: int)
    requires n in d.leases
  {
    match OverdueKey(d.leases[n], now)
    case Some(k) => n !in d'.leases && Path(Processing, k) !in d'.files
    case None => n in d'.leases && d'.leases[n] == d.leases[n]
  }

  function InProcessing(files: map<Path, File>): set<Path> {
    set p | p in files && p.dir == Processing
  }

  lemma OneLeavesProcessing(d: Disk, k: Key)
    requires Path(Processing, k) in d.files
    ensures |InProcessing(Moved(d, Path(Processing, k), Path(Inbox, k)).files)| == |InProcessing(d.files)| - 1
  {
    assert InProcessing(Moved(d, Path(Processing, k), Path(Inbox, k)).files) ==
           InProcessing(d.files) - {Path(Processing, k)};
  }

  ghost predicate OnlyToInbox(files: map<Path, File>, files': map<Path, File>) {
    forall p :: p in files' ==>
      || (p in files && files'[p] == files[p])
      || (p.dir == Inbox && Path(Processing, p.key) in files && files'[p] == files[Path(Processing, p.key)])
  }

  class FileSystemAdapter {
    const faulty: bool
    var disk: Disk
    ghost var accepted: map<Key, Body>
    /** What a crash after each file operation would leave behind. */
    ghost var trace: seq<Snapshot>

    /** A process starting on what an earlier one, possibly crashed, left on disk. */
    constructor (faulty: bool, disk: Disk, ghost accepted: map<Key, Body>)
      requires Conserved(disk.files, accepted)
      ensures Valid() && this.faulty == faulty && this.disk == disk && this.accepted == accepted && trace == []
    {
      this.faulty, this.disk, this.accepted, trace := faulty, disk, accepted, [];
    }

    /** Conservation now and at every recorded crash point. */
    ghost predicate Valid()
      reads this
    {
      && Conserved(disk.files, accepted)
      && forall i :: 0 <= i < |trace| ==> Conserved(trace[i].disk.files, trace[i].accepted)
    }

    /** Whatever the operation was and wherever it was cut off, what it left behind is conserved. */
    lemma CrashPointConserved(i: nat, k: Key)
      requires Valid() && i < |trace|
      ensures Conserved(trace[i].disk.files, trace[i].accepted)
      ensures forall p :: p in trace[i].disk.files ==> p.key in trace[i].accepted
      ensures k in trace[i].accepted ==> OnDisk(trace[i].disk.files, k)
    {
      ConservedMeans(trace[i].disk.files, trace[i].accepted, k);
    }

    ghost method Mark()
      modifies this`trace
      ensures trace == old(trace) + [Snapshot(disk, accepted)]
      ensures old(Valid()) ==> Valid()
    {
      trace := trace + [Snapshot(disk, accepted)];
    }

    /** std::filesystem::rename between two directories of a queue. */
    method Rename(src: Path, dst: Path) returns (ok: bool)
      requires Valid() && src.key == dst.key
      modifies this`disk, this`trace
      ensures Valid() && |trace| > |old(trace)|
      ensures ok ==> src in old(disk).files && disk == Moved(old(disk), src, dst)
      ensures !ok ==> disk == old(disk)
      ensures !faulty ==> ok == (src in old(disk).files)
    {
      var fails := Fault(faulty);
      ok := !fails && src in disk.files;
      if ok {
        MoveConserves(disk.files, accepted, src, dst, disk.files[src]);
        disk := Moved(disk, src, dst);
      }
      Mark();
    }

    /** atomic_write over an existing message file; only the bookkeeping fields may differ. */
    method Rewrite(p: Path, f: File) returns (ok: bool)
      requires Valid() && p in disk.files && BodyOf(f) == BodyOf(disk.files[p])
      modifies this`disk, this`trace
      ensures Valid() && |trace| > |old(trace)|
      ensures disk == if ok then Written(old(disk), p, f) else old(disk)
      ensures !faulty ==> ok
    {
      hide Conserved;
      var fails := Fault(faulty);
      ok := !fails;
      if ok {
        RewriteConserves(disk.files, accepted, p, f);
        disk := Written(disk, p, f);
      }
      Mark();
    }

    /** atomic_write of a published message: accepted once the rename of the temporary file lands. */
    method Create(p: Path, f: File) returns (ok: bool)
      requires Valid()
      modifies this`disk, this`accepted, this`trace
      ensures !ok || p.key !in old(accepted) || p in old(disk).files ==> Valid()
      ensures |trace| > |old(trace)|
      ensures disk == if ok then Written(old(disk), p, f) else old(disk)
      ensures accepted == if ok then old(accepted)[p.key := BodyOf(f)] else old(accepted)
      ensures !faulty ==> ok
    {
      var fails := Fault(faulty);
      ok := !fails;
      if ok {
        CreateConservesIff(disk.files, accepted, p, f);
        disk := Written(disk, p, f);
        accepted := accepted[p.key := BodyOf(f)];
      }
      trace := trace + [Snapshot(disk, accepted)];
    }

    method WriteLease(name: string, meta: LeaseMeta) returns (ok: bool)
      requires Valid()
      modifies this`disk, this`trace
      ensures Valid()
      ensures disk == if ok then old(disk).(leases := old(disk).leases[name := meta]) else old(disk)
      ensures !faulty ==> ok
    {
      var fails := Fault(faulty);
      ok := !fails;
      if ok {
        disk := disk.(leases := disk.leases[name := meta]);
      }
      Mark();
    }

    method DeleteLease(name: string)
      requires Valid()
      modifies this`disk, this`trace
      ensures Valid()
      ensures disk == old(disk) || disk == old(disk).(leases := old(disk).leases - {name})
      ensures !faulty ==> disk == old(disk).(leases := old(disk).leases - {name})
    {
      var fails := Fault(faulty);
      if !fails {
        disk := disk.(leases := disk.leases - {name});
      }
      Mark();
    }

    method WriteDelayed(name: string, meta: DelayedMeta)
      requires Valid()
      modifies this`disk, this`trace
      ensures Valid()
      ensures disk == old(disk) || disk == old(disk).(delayed := old(disk).delayed[name := meta])
      ensures !faulty ==> disk == old(disk).(delayed := old(disk).delayed[name := meta])
    {
      var fails := Fault(faulty);
      if !fails {
        disk := disk.(delayed := disk.delayed[name := meta]);
      }
      Mark();
    }

    method DeleteDelayed(name: string)
      requires Valid()
      modifies this`disk, this`trace
      ensures Valid()
      ensures disk == old(disk) || disk == old(disk).(delayed := old(disk).delayed - {name})
      ensures !faulty ==> disk == old(disk).(delayed := old(disk).delayed - {name})
    {
      var fails := Fault(faulty);
      if !fails {
        disk := disk.(delayed := disk.delayed - {name});
      }
      Mark();
    }

    method ReadFile(p: Path) returns (content: Option<File>)
      ensures content.Some? ==> p in disk.files && content.value == disk.files[p]
      ensures !faulty ==> (content.Some? <==> p in disk.files)
    {
      var fails := Fault(faulty);
      content := if !fails && p in disk.files then Some(disk.files[p]) else None;
    }

    method ReadLease(key: string) returns (meta: Option<LeaseMeta>)
      ensures meta.Some? ==> SafeName(key) in disk.leases && meta.value == disk.leases[SafeName(key)]
      ensures !faulty ==> (meta.Some? <==> SafeName(key) in disk.leases)
    {
      var fails := Fault(faulty);
      meta := if !fails && SafeName(key) in disk.leases then Some(disk.leases[SafeName(key)]) else None;
    }

    /** Conservation holds afterwards unless the key was used before and its file lies elsewhere. */
    method EnqueueMessage(m: Message, now: int) returns (ok: bool)
      requires Valid()
      modifies this
      ensures m.key !in old(accepted) || Path(DirOf(m, now), m.key) in old(disk).files ==> Valid()
      ensures !ok ==> accepted == old(accepted)
      ensures ok ==> accepted == old(accepted)[m.key :=
        Body(Render(m.key), m.payload, m.attributes, m.priority, m.createdAt, m.target)]
      ensures !faulty ==> ok && disk == Enqueued(old(disk), m, now)
    {
      var dir := Inbox;
      if m.availableAt > now {
        dir := DelayedDir;
        WriteDelayed(SafeName(Render(m.key)), DelayedMeta(Render(m.key), m.key.queue, m.availableAt, m.attempt));
      }
      var f := File(Render(m.key), m.payload, m.attributes, m.priority, m.attempt, m.createdAt, m.availableAt, m.target,
                    None);
      ok := Create(Path(dir, m.key), f);
    }

    /** The first readable file of the sorted listing whose target admits the consumer. */
    method FindMatch(queue: string, consumer: string) returns (found: Option<Key>)
      ensures found.Some? ==> Eligible(disk, queue, consumer, found.value)
      ensures !faulty ==> Picks(disk, queue, consumer, found)
    {
      var listing := SortedListing(InDir(disk.files, Inbox, queue), (k: Key) => k.id + ".json");
      forall k
        ensures k in listing <==> Path(Inbox, k) in disk.files && k.queue == queue
      {
        InDirIff(disk.files, queue, k);
      }
      found := None;
      for i := 0 to |listing|
        invariant !faulty ==> forall j :: 0 <= j < i ==> !Eligible(disk, queue, consumer, listing[j])
      {
        assert listing[i] in listing;
        var content := ReadFile(Path(Inbox, listing[i]));
        if content.Some? && (content.value.target == "" || content.value.target == consumer) {
          found := Some(listing[i]);
          if !faulty {
            forall j | Eligible(disk, queue, consumer, j)
              ensures Leq(FileName(listing[i]), FileName(j))
            {
              assert j in listing;
              var x :| 0 <= x < |listing| && listing[x] == j;
              assert x >= i;
            }
          }
          return;
        }
      }
      if !faulty {
        forall j
          ensures !Eligible(disk, queue, consumer, j)
        {
          assert j in listing <==> Path(Inbox, j) in disk.files && j.queue == queue;
        }
      }
    }

    /** Moves the chosen file to processing, writes its lease meta and counts the attempt in the file. */
    method GrantLease(k: Key, queue: string, consumer: string, until: int) returns (result: LeaseResult)
      requires Valid() && Path(Inbox, k) in disk.files
      modifies this`disk, this`trace
      ensures Valid()
      ensures !faulty ==> disk == LeaseGranted(old(disk), queue, consumer, until, k)
      ensures !faulty ==>
        var f := old(disk).files[Path(Inbox, k)];
        result == Leased(f.(attempt := f.attempt + 1), Lease(f.key, consumer, until))
    {
      hide Conserved;
      GrantInSteps(disk, queue, consumer, until, k);
      var f := disk.files[Path(Inbox, k)];
      var moved := Rename(Path(Inbox, k), Path(Processing, k));
      if !moved {
        return Error;
      }
      var metaOk := WriteLease(SafeName(f.key), LeaseMeta(f.key, consumer, until, f.attempt + 1, queue));
      if !metaOk {
        var undone := Rename(Path(Processing, k), Path(Inbox, k));
        return Error;
      }
      var updated := f.(attempt := f.attempt + 1);
      var written := Rewrite(Path(Processing, k), updated);
      result := Leased(updated, Lease(f.key, consumer, until));
    }

    method LeaseNextMessage(queue: string, consumer: string, visibilitySec: int, now: int)
      returns (result: LeaseResult, ghost picked: Option<Key>)
      requires Valid()
      modifies this`disk, this`trace
      ensures Valid()
      ensures !faulty ==> Picks(old(disk), queue, consumer, picked)
      ensures !faulty && picked.None? ==> result == Nothing && disk == old(disk)
      ensures !faulty && picked.Some? ==>
        var f := old(disk).files[Path(Inbox, picked.value)];
        && disk == LeaseGranted(old(disk), queue, consumer, now + visibilitySec * 1000, picked.value)
        && result == Leased(f.(attempt := f.attempt + 1), Lease(f.key, consumer, now + visibilitySec * 1000))
    {
      var found := FindMatch(queue, consumer);
      picked := found;
      if found.None? {
        return Nothing, None;
      }
      result := GrantLease(found.value, queue, consumer, now + visibilitySec * 1000);
    }

    method AckMessage(lease: Lease, now: int) returns (ok: bool)
      requires Valid()
      modifies this`disk, this`trace
      ensures Valid()
      ensures !faulty ==> disk == Acked(old(disk), lease.messageKey, lease.consumerId, now)
      ensures !faulty ==>
        ok == (MayAck(old(disk), lease.messageKey, lease.consumerId, now) && Held(old(disk), lease.messageKey).Some?)
    {
      var meta := ReadLease(lease.messageKey);
      if meta.None? || now > meta.value.leaseUntil || meta.value.consumerId != lease.consumerId {
        return false;
      }
      var id := IdOf(lease.messageKey);
      if id.None? {
        return false;
      }
      var k := Key(meta.value.queue, id.value);
      ok := Rename(Path(Processing, k), Path(Archive, k));
      if ok {
        DeleteLease(SafeName(lease.messageKey));
      }
    }

    /** Writes the DLQ note into the processing file, when it can be read and written, and moves it. */
    method NoteAndBury(k: Key, reason: string, now: int) returns (ok: bool)
      requires Valid()
      modifies this`disk, this`trace
      ensures Valid()
      ensures !faulty ==> ok == (Path(Processing, k) in old(disk).files)
      ensures !faulty && ok ==> disk == old(disk).(files :=
        (old(disk).files - {Path(Processing, k)})
          [Path(DlqDir, k) := old(disk).files[Path(Processing, k)].(dlq := Some(DlqNote(reason, now)))])
      ensures !faulty && !ok ==> disk == old(disk)
    {
      var content := ReadFile(Path(Processing, k));
      if content.Some? {
        MoveAfterWrite(disk, Path(Processing, k), Path(DlqDir, k), content.value.(dlq := Some(DlqNote(reason, now))));
        var written := Rewrite(Path(Processing, k), content.value.(dlq := Some(DlqNote(reason, now))));
      }
      ok := Rename(Path(Processing, k), Path(DlqDir, k));
    }

    method NackMessage(lease: Lease, reason: string, requeue: bool, now: int) returns (ok: bool)
      requires Valid()
      modifies this`disk, this`trace
      ensures Valid()
      ensures !faulty ==> disk == Nacked(old(disk), lease.messageKey, reason, requeue, now)
      ensures !faulty ==> ok == Held(old(disk), lease.messageKey).Some?
    {
      var meta := ReadLease(lease.messageKey);
      var id := IdOf(lease.messageKey);
      if meta.None? || id.None? {
        return false;
      }
      var k := Key(meta.value.queue, id.value);
      if requeue {
        ok := Rename(Path(Processing, k), Path(Inbox, k));
      } else {
        ok := NoteAndBury(k, reason, now);
      }
      if ok {
        DeleteLease(SafeName(lease.messageKey));
      }
    }

    method ExtendLeaseOf(lease: Lease, visibilitySec: int, now: int) returns (ok: bool)
      requires Valid()
      modifies this`disk, this`trace
      ensures Valid()
      ensures !faulty ==>
        disk == Extended(old(disk), lease.messageKey, lease.consumerId, now + visibilitySec * 1000, now)
      ensures !faulty ==> ok == MayAck(old(disk), lease.messageKey, lease.consumerId, now)
    {
      var meta := ReadLease(lease.messageKey);
      if meta.None? || meta.value.consumerId != lease.consumerId || now > meta.value.leaseUntil {
        return false;
      }
      ok := WriteLease(SafeName(lease.messageKey),
                       meta.value.(messageKey := lease.messageKey, leaseUntil := now + visibilitySec * 1000));
    }

    /** Number of files per directory of a queue. */
    method Metrics(queue: string) returns (ready: nat, inflight: nat, delayed: nat, dlq: nat)
      requires Valid()
      ensures ready + inflight + delayed + dlq + |InDir(disk.files, Archive, queue)| == |AcceptedIn(accepted, queue)|
      ensures ready == |InDir(disk.files, Inbox, queue)| && inflight == |InDir(disk.files, Processing, queue)|
      ensures delayed == |InDir(disk.files, DelayedDir, queue)| && dlq == |InDir(disk.files, DlqDir, queue)|
    {
      ready := |InDir(disk.files, Inbox, queue)|;
      inflight := |InDir(disk.files, Processing, queue)|;
      delayed := |InDir(disk.files, DelayedDir, queue)|;
      dlq := |InDir(disk.files, DlqDir, queue)|;
      CountsAddUp(disk.files, accepted, queue);
    }

    /** One lease meta of the scan. */
    method RecoverOne(name: string, now: int) returns (moved: bool)
      requires Valid() && name in disk.leases
      modifies this`disk, this`trace
      ensures Valid()
      ensures OnlyToInbox(old(disk).files, disk.files) && disk.delayed == old(disk).delayed
      ensures forall n :: n in old(disk).leases && n != name ==>
        n in disk.leases && disk.leases[n] == old(disk).leases[n]
      ensures forall n :: n in disk.leases ==> n in old(disk).leases
      ensures !faulty ==> MetaRecovered(old(disk), disk, name, now)
      ensures |InProcessing(disk.files)| + (if moved then 1 else 0) == |InProcessing(old(disk).files)|
    {
      hide Conserved, InProcessing;
      moved := false;
      var fails := Fault(faulty);
      if !fails && now > disk.leases[name].leaseUntil {
        var meta := disk.leases[name];
        var id := IdOf(meta.messageKey);
        if meta.messageKey != "" && meta.queue != "" && id.Some? {
          var k := Key(meta.queue, id.value);
          if Path(Processing, k) in disk.files {
            OneLeavesProcessing(disk, k);
            moved := Rename(Path(Processing, k), Path(Inbox, k));
          }
          DeleteLease(name);
        }
      }
    }

    /** Every expired, well-formed lease meta is gone and its file no longer in processing; other metas stay,
        and whatever file moved went to the inbox as it was. */
    method RecoverExpiredLeases(now: int) returns (recovered: nat)
      requires Valid()
      modifies this`disk, this`trace
      ensures Valid()
      ensures disk.delayed == old(disk).delayed
      ensures |InProcessing(disk.files)| + recovered == |InProcessing(old(disk).files)|
      ensures !faulty ==> forall n :: n in old(disk).leases ==>
        var key := OverdueKey(old(disk).leases[n], now);
        && (key.Some? ==> n !in disk.leases && Path(Processing, key.value) !in disk.files)
        && (key.None? ==> n in disk.leases && disk.leases[n] == old(disk).leases[n])
      ensures forall p :: p in disk.files ==>
        || (p in old(disk).files && disk.files[p] == old(disk).files[p])
        || (p.dir == Inbox && Path(Processing, p.key) in old(disk).files
            && disk.files[p] == old(disk).files[Path(Processing, p.key)])
    {
      hide Conserved, OnlyToInbox, MetaRecovered, OverdueKey, InProcessing;
      recovered := 0;
      var names := disk.leases.Keys;
      ghost var d := disk;
      NothingToInbox(d.files);
      while names != {}
        invariant Valid() && names <= d.leases.Keys
        invariant OnlyToInbox(d.files, disk.files) && disk.delayed == d.delayed
        invariant |InProcessing(disk.files)| + recovered == |InProcessing(d.files)|
        invariant forall n :: n in names ==> n in disk.leases && disk.leases[n] == d.leases[n]
        invariant !faulty ==> forall n :: n in d.leases.Keys - names ==> MetaRecovered(d, disk, n, now)
        decreases names
      {
        var name :| name in names;
        names := names - {name};
        ghost var was := disk;
        var moved := RecoverOne(name, now);
        if moved {
          recovered := recovered + 1;
        }
        RecoveredStays(d, was, disk, name, now);
        if !faulty {
          forall n | n in d.leases.Keys - names && n != name
            ensures MetaRecovered(d, disk, n, now)
          {
            assert MetaRecovered(d, was, n, now);
          }
        }
      }
      RecoveryMeans(d, disk, now);
    }

    lemma RecoveryMeans(d: Disk, d': Disk, now: int)
      requires OnlyToInbox(d.files, d'.files)
      ensures forall p :: p in d'.files ==>
        || (p in d.files && d'.files[p] == d.files[p])
        || (p.dir == Inbox && Path(Processing, p.key) in d.files && d'.files[p] == d.files[Path(Processing, p.key)])
      ensures forall n :: n in d.leases && MetaRecovered(d, d', n, now) ==>
        var key := OverdueKey(d.leases[n], now);
        && (key.Some? ==> n !in d'.leases && Path(Processing, key.value) !in d'.files)
        && (key.None? ==> n in d'.leases && d'.leases[n] == d.leases[n])
    {
      hide OverdueKey;
    }

    lemma NothingToInbox(files: map<Path, File>)
      ensures OnlyToInbox(files, files)
    {
    }

    /** The scan of one more meta undoes nothing. */
    lemma RecoveredStays(d: Disk, was: Disk, d': Disk, name: string, now: int)
      requires name in d.leases && name in was.leases && was.leases[name] == d.leases[name]
      requires OnlyToInbox(d.files, was.files) && OnlyToInbox(was.files, d'.files)
      requires forall n :: n in was.leases && n != name ==> n in d'.leases && d'.leases[n] == was.leases[n]
      requires forall n :: n in d'.leases ==> n in was.leases
      ensures OnlyToInbox(d.files, d'.files)
      ensures MetaRecovered(was, d', name, now) ==> MetaRecovered(d, d', name, now)
      ensures forall n :: n in d.leases && n != name && MetaRecovered(d, was, n, now) ==> MetaRecovered(d, d', n, now)
    {
      hide IdOf;
    }

    /** One delayed file: moved to the inbox with its meta removed once it is due. */
    method PromoteFile(k: Key, now: int) returns (moved: bool)
      requires Valid()
      modifies this`disk, this`trace
      ensures Valid()
      ensures !faulty ==> moved == DueFile(old(disk), now, k)
      ensures !faulty ==> disk == if moved then PromotedOne(old(disk), k) else old(disk)
    {
      moved := false;
      var content := ReadFile(Path(DelayedDir, k));
      if content.Some? && now >= content.value.availableAt {
        moved := Rename(Path(DelayedDir, k), Path(Inbox, k));
        if moved && content.value.key != "" {
          DeleteDelayed(SafeName(content.value.key));
        }
      }
    }

    method ProcessDelayedMessages(now: int) returns (processed: nat)
      requires Valid()
      modifies this`disk, this`trace
      ensures Valid()
      ensures !faulty ==> disk == Promoted(old(disk), DueKeys(old(disk), now))
      ensures !faulty ==> processed == |DueKeys(old(disk), now)|
    {
      hide Conserved, Promoted, PromotedOne, DueKeys, DelayedKeys;
      processed := 0;
      ghost var d, due := disk, DueKeys(disk, now);
      ghost var done: set<Key> := {};
      var pending := DelayedKeys(disk);
      DueAreDelayed(d, now);
      PromoteNothing(d);
      while pending != {}
        invariant Valid()
        invariant pending <= DelayedKeys(d) && done == due - pending
        invariant !faulty ==> disk == Promoted(d, done) && processed == |done|
        decreases pending
      {
        var k :| k in pending;
        DelayedIff(d, now, k);
        if !faulty {
          PromoteOneMore(d, done, k);
        }
        var moved := PromoteFile(k, now);
        if moved {
          processed := processed + 1;
        }
        pending := pending - {k};
        done := if k in due then done + {k} else done;
      }
    }

    /** One entry per expired lease meta: names tells which, none twice. */
    method GetExpiredInflightMessages(now: int) returns (expired: seq<LeaseMeta>, ghost names: seq<string>)
      ensures forall m :: m in expired ==> now > m.leaseUntil && m in disk.leases.Values
      ensures !faulty ==>
        |expired| == |Overdue(disk, now)| && forall n :: n in Overdue(disk, now) ==> disk.leases[n] in expired
      ensures |names| == |expired|
      ensures forall i :: 0 <= i < |names| ==>
        names[i] in disk.leases && now > disk.leases[names[i]].leaseUntil && expired[i] == disk.leases[names[i]]
      ensures forall i, j :: 0 <= i < j < |names| ==> names[i] != names[j]
      ensures !faulty ==> forall n :: n in disk.leases && now > disk.leases[n].leaseUntil ==> n in names
    {
      expired, names := [], [];
      var rest := disk.leases.Keys;
      while rest != {}
        invariant rest <= disk.leases.Keys && |names| == |expired|
        invariant forall i :: 0 <= i < |names| ==>
          names[i] in disk.leases && now > disk.leases[names[i]].leaseUntil && expired[i] == disk.leases[names[i]]
        invariant forall i :: 0 <= i < |names| ==> names[i] !in rest
        invariant forall i, j :: 0 <= i < j < |names| ==> names[i] != names[j]
        invariant !faulty ==> forall n :: n in disk.leases.Keys - rest && now > disk.leases[n].leaseUntil ==> n in names
        decreases rest
      {
        var name :| name in rest;
        rest := rest - {name};
        var fails := Fault(faulty);
        if !fails && now > disk.leases[name].leaseUntil {
          expired, names := expired + [disk.leases[name]], names + [name];
        }
      }
      SnapshotIs(disk, now, expired, names);
    }

    /** Writes the new available time into the processing file, when possible, and moves it. */
    method Park(k: Key, availableAt: int) returns (ok: bool)
      requires Valid()
      modifies this`disk, this`trace
      ensures Valid()
      ensures !faulty ==> ok == (Path(Processing, k) in old(disk).files)
      ensures !faulty && ok ==> disk == old(disk).(files :=
        (old(disk).files - {Path(Processing, k)})
          [Path(DelayedDir, k) := old(disk).files[Path(Processing, k)].(availableAt := availableAt)])
      ensures !faulty && !ok ==> disk == old(disk)
    {
      var content := ReadFile(Path(Processing, k));
      if content.Some? {
        MoveAfterWrite(disk, Path(Processing, k), Path(DelayedDir, k), content.value.(availableAt := availableAt));
        var written := Rewrite(Path(Processing, k), content.value.(availableAt := availableAt));
      }
      ok := Rename(Path(Processing, k), Path(DelayedDir, k));
    }

    method Delay(key: string, delayMs: int, now: int) returns (ok: bool)
      requires Valid()
      modifies this`disk, this`trace
      ensures Valid()
      ensures !faulty ==> disk == Postponed(old(disk), key, delayMs, now)
      ensures !faulty ==> ok == Held(old(disk), key).Some?
    {
      hide Conserved, SafeName, IdOf;
      var meta := ReadLease(key);
      var id := IdOf(key);
      if meta.None? || id.None? {
        return false;
      }
      var k := Key(meta.value.queue, id.value);
      if delayMs <= 0 {
        ok := Rename(Path(Processing, k), Path(Inbox, k));
      } else {
        ok := Park(k, now + delayMs);
        if ok {
          WriteDelayed(SafeName(key), DelayedMeta(key, meta.value.queue, now + delayMs, meta.value.attempt));
        }
      }
      if ok {
        DeleteLease(SafeName(key));
      }
    }

    method Bury(key: string, reason: string, now: int) returns (ok: bool)
      requires Valid()
      modifies this`disk, this`trace
      ensures Valid()
      ensures !faulty ==> disk == MovedToDlq(old(disk), key, reason, now)
      ensures !faulty ==> ok == Held(old(disk), key).Some?
    {
      var meta := ReadLease(key);
      var id := IdOf(key);
      if meta.None? || id.None? {
        return false;
      }
      ok := NoteAndBury(Key(meta.value.queue, id.value), reason, now);
      if ok {
        DeleteLease(SafeName(key));
      }
    }

    method ReprocessDlqMessage(key: string, now: int) returns (ok: bool)
      requires Valid()
      modifies this`disk, this`trace
      ensures Valid()
      ensures !faulty ==> disk == Reprocessed(old(disk), key, now)
      ensures !faulty ==> ok == DeadKey(old(disk), key).Some?
    {
      var queue, id := QueueOf(key), IdOf(key);
      if queue == "" || id.None? {
        return false;
      }
      var k := Key(queue, id.value);
      var content := ReadFile(Path(DlqDir, k));
      if content.None? {
        return false;
      }
      MoveAfterWrite(disk, Path(DlqDir, k), Path(Inbox, k),
                     content.value.(dlq := None, attempt := 0, availableAt := now));
      ok := Rewrite(Path(DlqDir, k), content.value.(dlq := None, attempt := 0, availableAt := now));
      if !ok { return; }
      ok := Rename(Path(DlqDir, k), Path(Inbox, k));
    }
  }
}
