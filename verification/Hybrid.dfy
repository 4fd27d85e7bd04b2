/**
 HybridAdapter: state and envelope in the database, payloads as files in the active,
 dlq and archive directory of the queue. The files move outside the transaction, so
 the two can come apart; check and repair bring them together again.
 */
module Hybrid {
  import opened Types
  import opened Faults
  import opened IndexTable
  import opened Database

  datatype Payload = Payload(payload: string, attributes: string)

  datatype Envelope = Envelope(priority: int, attempt: int, createdAt: int, dlq: Option<DlqNote>)

  /** Committed tables and payload files. A file is named by its queue and message id. */
  datatype Store = Store(
    kv: map<Key, Envelope>,
    idx: Index,
    active: map<Key, Payload>,
    dlq: map<Key, Payload>,
    archive: map<Key, Payload>)

  datatype Op =
    | Enqueue(m: Message)
    | LeaseNext(queue: string, consumer: string, visibilitySec: int, picked: Option<Key>)
    | Ack(key: Key)
    | Nack(key: Key, reason: string, requeue: bool)
    | ExtendLease(key: Key, visibilitySec: int)
    | RecoverExpired
    | ProcessDelayed
    | DelayMessage(key: Key, delayMs: int)
    | MoveToDlq(key: Key, reason: string)
    | Reprocess(key: Key)

  function PayloadOf(m: Message): Payload {
    Payload(m.payload, m.attributes)
  }

  function EnvelopeOf(m: Message): Envelope {
    Envelope(m.priority, m.attempt, m.createdAt, None)
  }

  function Noted(kv: map<Key, Envelope>, k: Key, reason: string, now: int): map<Key, Envelope> {
    if k in kv then kv[k := kv[k].(dlq := Some(DlqNote(reason, now)))] else kv
  }

  function Unnoted(kv: map<Key, Envelope>, k: Key): map<Key, Envelope> {
    if k in kv then kv[k := kv[k].(dlq := None, attempt := 0)] else kv
  }

  predicate IsInflight(idx: Index, k: Key) {
    k in idx && idx[k].state == Inflight
  }

  predicate IsDlq(idx: Index, k: Key) {
    k in idx && idx[k].state == Dlq
  }

  /** ready, inflight or delayed: the states whose payload belongs in active. */
  predicate IsActive(idx: Index, k: Key) {
    k in idx && idx[k].state != Dlq
  }

  /** rename of one payload file; nothing happens when the source is missing. */
  function Taken(files: map<Key, Payload>, k: Key): map<Key, Payload> {
    files - {k}
  }

  function Put(to: map<Key, Payload>, from: map<Key, Payload>, k: Key): map<Key, Payload> {
    if k in from then to[k := from[k]] else to
  }

  /** A key that already has a row: the existing payload is overwritten, then removed. */
  function Enqueued(h: Store, m: Message, now: int): Store {
    if m.key in h.kv || m.key in h.idx then Withdrawn(h, m)
    else h.(kv := h.kv[m.key := EnvelopeOf(m)],
            idx := h.idx[m.key := NewRow(m, m.availableAt, now)],
            active := h.active[m.key := PayloadOf(m)])
  }

  function LeaseGranted(h: Store, picked: Option<Key>, until: int): Store {
    if picked.Some? && picked.value in h.idx && picked.value in h.kv
    then h.(idx := h.idx[picked.value := LeaseRow(h.idx[picked.value], until)])
    else h
  }

  function Acked(h: Store, k: Key): Store {
    if IsInflight(h.idx, k)
    then Deleted(h, k).(active := Taken(h.active, k), archive := Put(h.archive, h.active, k))
    else h
  }

  function Nacked(h: Store, k: Key, reason: string, requeue: bool, now: int): Store {
    if !IsInflight(h.idx, k) then h
    else if requeue then h.(idx := h.idx[k := RequeueRow(h.idx[k], now)])
    else FileBuried(Buried(h, k, reason, now), k)
  }

  function MovedToDlq(h: Store, k: Key, reason: string, now: int): Store {
    if k in h.idx then FileBuried(Buried(h, k, reason, now), k)
    else h.(kv := Noted(h.kv, k, reason, now))
  }

  function Reprocessed(h: Store, k: Key, now: int): Store {
    if IsDlq(h.idx, k) then Revived(h, k, now).(dlq := Taken(h.dlq, k), active := Put(h.active, h.dlq, k)) else h
  }

  /** Effect of an operation without faults. */
  function Apply(h: Store, now: int, op: Op): Store {
    match op
    case Enqueue(m) => Enqueued(h, m, now)
    case LeaseNext(_, _, visibility, picked) => LeaseGranted(h, picked, now + visibility * 1000)
    case Ack(k) => Acked(h, k)
    case Nack(k, reason, requeue) => Nacked(h, k, reason, requeue, now)
    case ExtendLease(k, visibility) =>
      if k in h.idx && Extendable(h.idx[k], now)
      then h.(idx := h.idx[k := h.idx[k].(leaseUntil := Some(now + visibility * 1000))])
      else h
    case RecoverExpired =>
      h.(idx := Updated(h.idx, (_: Key, r: Row) => Expired(r, now), (r: Row) => RequeueRow(r, now)))
    case ProcessDelayed =>
      h.(idx := Updated(h.idx, (_: Key, r: Row) => Promotable(r, now), (r: Row) => r.(state := Ready)))
    case DelayMessage(k, delayMs) =>
      if k in h.idx
      then h.(idx := h.idx[k := DelayRow(h.idx[k], if delayMs > 0 then Delayed else Ready, now + delayMs)])
      else h
    case MoveToDlq(k, reason) => MovedToDlq(h, k, reason, now)
    case Reprocess(k) => Reprocessed(h, k, now)
  }

  // States an operation passes through.

  /** enqueue: payload written, nothing committed. */
  function Written(h: Store, m: Message): Store {
    h.(active := h.active[m.key := PayloadOf(m)])
  }

  /** enqueue: rolled back and the payload removed again. */
  function Withdrawn(h: Store, m: Message): Store {
    h.(active := Taken(h.active, m.key))
  }

  /** ack: rows deleted, payload still in active. */
  function Deleted(h: Store, k: Key): Store {
    h.(kv := h.kv - {k}, idx := h.idx - {k})
  }

  /** The payload alone moved to dlq. */
  function FileBuried(h: Store, k: Key): Store {
    h.(active := Taken(h.active, k), dlq := Put(h.dlq, h.active, k))
  }

  /** move_to_dlq: tables committed, payload not yet renamed. */
  function Buried(h: Store, k: Key, reason: string, now: int): Store
    requires k in h.idx
  {
    h.(kv := Noted(h.kv, k, reason, now), idx := h.idx[k := BuryRow(h.idx[k])])
  }

  /** reprocess_dlq_message: tables committed, payload still in dlq. */
  function Revived(h: Store, k: Key, now: int): Store
    requires k in h.idx
  {
    h.(kv := Unnoted(h.kv, k), idx := h.idx[k := ReviveRow(h.idx[k], now)])
  }

  /** lease_next takes the row its SELECT returns. */
  predicate Chosen(h: Store, now: int, op: Op) {
    op.LeaseNext? ==> Picks(h.idx, op.queue, op.consumer, now, op.picked)
  }

  /** The durable state between the effects of an operation. */
  function Between(h: Store, now: int, op: Op): Store {
    match op
    case Enqueue(m) => Written(h, m)
    case Ack(k) => if IsInflight(h.idx, k) then Deleted(h, k) else h
    case Nack(k, _, requeue) => if IsInflight(h.idx, k) && !requeue then FileBuried(h, k) else h
    case MoveToDlq(k, reason) => if k in h.idx then Buried(h, k, reason, now) else h
    case Reprocess(k) => if IsDlq(h.idx, k) then Revived(h, k, now) else h
    case _ => h
  }

  /** Every durable state a crash during an operation may leave: before, between its effects, after. */
  predicate CrashPoint(h: Store, now: int, op: Op, s: Store) {
    s == h || s == Between(h, now, op) || s == Apply(h, now, op)
  }

  /** What else may fail besides a crash: statements with the commit, and operations on payload files. */
  datatype Failures = Failures(statements: bool, files: bool)

  /** Every durable state an operation may leave, at its end or in a crash, when statements, the commit and file
      operations may fail as well: enqueue may withdraw, the edit of the envelope may be lost, and a payload may
      stay behind. Where the file moves last, that is the state between the effects; nack moves it first. */
  predicate MayLeave(h: Store, now: int, op: Op, t: Failures, s: Store) {
    || CrashPoint(h, now, op, s)
    || (t.statements && op.Enqueue? && s == Withdrawn(h, op.m))
    || (t.statements && EditsEnvelope(op) && s == Between(h, now, op).(kv := h.kv))
    || (t.statements && EditsEnvelope(op) && s == Apply(h, now, op).(kv := h.kv))
    || (t.files && LeftBehind(h, op) && s == Buried(h, op.key, op.reason, now))
    || (t.files && t.statements && LeftBehind(h, op) && s == Buried(h, op.key, op.reason, now).(kv := h.kv))
  }

  predicate EditsEnvelope(op: Op) {
    op.Nack? || op.MoveToDlq? || op.Reprocess?
  }

  /** A nack that buries its message. */
  predicate LeftBehind(h: Store, op: Op) {
    op.Nack? && !op.requeue && IsInflight(h.idx, op.key)
  }

  // ---------------------------------------------------------------------------------------
  // Agreement, and one round of check and repair
  // ---------------------------------------------------------------------------------------

  /** The payload is where the row of k says it is. */
  predicate AgreesOn(h: Store, k: Key) {
    && (IsActive(h.idx, k) <==> k in h.active)
    && (IsDlq(h.idx, k) <==> k in h.dlq)
  }

  ghost predicate Agree(h: Store) {
    forall k :: AgreesOn(h, k)
  }

  datatype Place = Active | DlqDir | ArchiveDir

  datatype IssueKind = OrphanPayload | MissingPayload | StaleArchive | InvalidState

  datatype Issue = Issue(kind: IssueKind, key: Key, place: Place)

  datatype Report = Report(orphanPayloads: nat, missingPayloads: nat, staleArchives: nat, issues: seq<Issue>)

  /** check_consistency("") looks at every queue. */
  predicate InScope(queue: string, k: Key) {
    queue == "" || k.queue == queue
  }

  /** Where rows and payloads disagree, as check_consistency must report it. */
  predicate IsIssue(h: Store, queue: string, i: Issue) {
    && InScope(queue, i.key)
    && match (i.kind, i.place)
       case (OrphanPayload, Active) => i.key in h.active && !IsActive(h.idx, i.key)
       case (OrphanPayload, DlqDir) => i.key in h.dlq && !IsDlq(h.idx, i.key)
       case (MissingPayload, Active) => IsActive(h.idx, i.key) && i.key !in h.active
       case (MissingPayload, DlqDir) => IsDlq(h.idx, i.key) && i.key !in h.dlq
       case _ => false
  }

  /** An archived payload older than the retention period, by the given file times. */
  predicate IsStale(h: Store, queue: string, stale: set<Key>, i: Issue) {
    i.kind == StaleArchive && i.place == ArchiveDir && InScope(queue, i.key) && i.key in h.archive && i.key in stale
  }

  /** What check_consistency must report. */
  predicate Reportable(h: Store, queue: string, stale: set<Key>, i: Issue) {
    IsIssue(h, queue, i) || IsStale(h, queue, stale, i)
  }

  predicate Orphan(h: Store, k: Key) {
    (k in h.active && !IsActive(h.idx, k)) || (k in h.dlq && !IsDlq(h.idx, k))
  }

  predicate Missing(h: Store, k: Key) {
    (IsActive(h.idx, k) && k !in h.active) || (IsDlq(h.idx, k) && k !in h.dlq)
  }

  function FoundRow(now: int): Row {
    Row(Ready, 0, now, None, 0, "")
  }

  function FoundEnvelope(now: int): Envelope {
    Envelope(0, 0, now, None)
  }

  function FileAt(h: Store, place: Place): map<Key, Payload> {
    match place
    case Active => h.active
    case DlqDir => h.dlq
    case ArchiveDir => h.archive
  }

  function Removed(h: Store, place: Place, k: Key): Store {
    match place
    case Active => h.(active := Taken(h.active, k))
    case DlqDir => h.(dlq := Taken(h.dlq, k))
    case ArchiveDir => h.(archive := Taken(h.archive, k))
  }

  /** repair_consistency on one issue of any report. */
  function RepairOne(h: Store, i: Issue, now: int): Store {
    match i.kind
    case OrphanPayload =>
      if i.key in FileAt(h, i.place)
      then h.(kv := if i.key in h.kv then h.kv else h.kv[i.key := FoundEnvelope(now)],
              idx := if i.key in h.idx then h.idx else h.idx[i.key := FoundRow(now)])
      else h
    case MissingPayload => h.(idx := UpdatedAt(h.idx, i.key, (r: Row) => r.(state := Dlq)))
    case StaleArchive => Removed(h, i.place, i.key)
    case InvalidState => h.(idx := UpdatedAt(h.idx, i.key, (r: Row) => r.(state := Ready, availableAt := now)))
  }

  /** The row of a message with a missing payload, or in an invalid state, was reset; its other columns stay. */
  predicate RowRepaired(r: Row, r': Row, now: int) {
    && (r'.state == r.state || r'.state == Dlq || r'.state == Ready)
    && (r'.availableAt == r.availableAt || r'.availableAt == now)
    && r' == r.(state := r'.state, availableAt := r'.availableAt)
  }

  predicate HasFile(h: Store, k: Key) {
    k in h.active || k in h.dlq || k in h.archive
  }

  /** s has some of the files of h. */
  ghost predicate FilesRemain(h: Store, s: Store) {
    forall k ::
      && (k in s.active ==> k in h.active && s.active[k] == h.active[k])
      && (k in s.dlq ==> k in h.dlq && s.dlq[k] == h.dlq[k])
      && (k in s.archive ==> k in h.archive && s.archive[k] == h.archive[k])
  }

  /** What repairs may do even when they fail: no file appears or changes its content, no row or envelope
      disappears, and new ones belong to payload files that are there. */
  ghost predicate OnlyRepaired(h: Store, s: Store, now: int) {
    && FilesRemain(h, s)
    && (forall k :: k in h.idx ==> k in s.idx && RowRepaired(h.idx[k], s.idx[k], now))
    && (forall k :: k in h.kv ==> k in s.kv && s.kv[k] == h.kv[k])
    && (forall k :: k in s.idx && k !in h.idx ==> HasFile(h, k) && RowRepaired(FoundRow(now), s.idx[k], now))
    && (forall k :: k in s.kv && k !in h.kv ==> HasFile(h, k) && s.kv[k] == FoundEnvelope(now))
  }

  lemma NothingRepaired(h: Store, now: int)
    ensures OnlyRepaired(h, h, now)
  {
  }

  lemma RemainCompose(h: Store, s: Store, t: Store)
    requires FilesRemain(h, s)
    ensures FilesRemain(s, t) ==> FilesRemain(h, t)
    ensures forall k :: HasFile(s, k) ==> HasFile(h, k)
  {
  }

  lemma RepairsCompose(h: Store, s: Store, t: Store, now: int)
    requires OnlyRepaired(h, s, now) && OnlyRepaired(s, t, now)
    ensures OnlyRepaired(h, t, now)
  {
    hide HasFile, FilesRemain;
    RemainCompose(h, s, t);
  }

  lemma RowIsRepaired(h: Store, k: Key, r: Row, now: int)
    requires k in h.idx && RowRepaired(h.idx[k], r, now)
    ensures OnlyRepaired(h, h.(idx := h.idx[k := r]), now)
  {
  }

  lemma FileIsRemoved(h: Store, place: Place, k: Key, now: int)
    ensures OnlyRepaired(h, Removed(h, place, k), now)
  {
  }

  lemma EnvelopeIsFound(h: Store, k: Key, now: int)
    requires HasFile(h, k)
    ensures OnlyRepaired(h, if k in h.kv then h else h.(kv := h.kv[k := FoundEnvelope(now)]), now)
  {
  }

  lemma RowIsFound(h: Store, k: Key, now: int)
    requires HasFile(h, k)
    ensures OnlyRepaired(h, if k in h.idx then h else h.(idx := h.idx[k := FoundRow(now)]), now)
  {
  }

  function RepairAll(h: Store, issues: seq<Issue>, now: int): Store {
    if issues == [] then h
    else RepairOne(RepairAll(h, issues[..|issues| - 1], now), issues[|issues| - 1], now)
  }

  /** Only archived files are removed as stale, as in every report check_consistency makes. */
  predicate SparesLive(i: Issue) {
    i.kind == StaleArchive ==> i.place == ArchiveDir
  }

  /** Whether repairing an issue counts. */
  predicate Repairs(h: Store, i: Issue) {
    i.kind == OrphanPayload || i.kind == StaleArchive ==> i.key in FileAt(h, i.place)
  }

  function Repairable(h: Store, issues: seq<Issue>, now: int): nat {
    if issues == [] then 0
    else
      var init, last := issues[..|issues| - 1], issues[|issues| - 1];
      Repairable(h, init, now) + if Repairs(RepairAll(h, init, now), last) then 1 else 0
  }

  function CountOf(issues: seq<Issue>, kind: IssueKind): nat {
    if issues == [] then 0
    else CountOf(issues[..|issues| - 1], kind) + if issues[|issues| - 1].kind == kind then 1 else 0
  }

  lemma {:induction false} CountZeroIff(issues: seq<Issue>, kind: IssueKind)
    ensures CountOf(issues, kind) == 0 <==> forall i :: i in issues ==> i.kind != kind
  {
    if issues != [] {
      var n := |issues| - 1;
      CountZeroIff(issues[..n], kind);
      assert issues == issues[..n] + [issues[n]];
    }
  }

  /** Closed form of one check followed by repair of its report. */
  function RepairRound(h: Store, queue: string, now: int): Store {
    h.(idx := map k | k in h.idx.Keys + h.active.Keys + h.dlq.Keys
                      && (k in h.idx || (InScope(queue, k) && Orphan(h, k))) ::
                if k !in h.idx then FoundRow(now)
                else if InScope(queue, k) && Missing(h, k) then h.idx[k].(state := Dlq)
                else h.idx[k],
       kv := map k | k in h.kv.Keys + h.active.Keys + h.dlq.Keys
                     && (k in h.kv || (InScope(queue, k) && Orphan(h, k))) ::
               if k in h.kv then h.kv[k] else FoundEnvelope(now))
  }

  /** The archive after the repair of its stale payloads. */
  function Cleared(h: Store, queue: string, stale: set<Key>): Store {
    h.(archive := map k | k in h.archive && !(InScope(queue, k) && k in stale) :: h.archive[k])
  }

  // ---------------------------------------------------------------------------------------
  // What a round achieves
  // ---------------------------------------------------------------------------------------

  /** One check and repair of all queues, whenever it runs, ends in agreement. */
  ghost predicate RepairsToAgreement(h: Store) {
    forall later :: Agree(RepairRound(h, "", later))
  }

  /** The situations of one message that a single round brings to agreement. */
  predicate OneRoundSuffices(h: Store, k: Key) {
    if k !in h.idx then k !in h.dlq
    else if IsDlq(h.idx, k) then k !in h.active && k in h.dlq
    else k in h.active <==> k !in h.dlq
  }

  lemma OneRoundIff(h: Store, now: int, k: Key)
    ensures AgreesOn(RepairRound(h, "", now), k) <==> OneRoundSuffices(h, k)
  {
    var r := RepairRound(h, "", now);
    assert r.active == h.active && r.dlq == h.dlq;
  }

  predicate SameOn(h: Store, s: Store, k: Key) {
    && (IsActive(h.idx, k) <==> IsActive(s.idx, k))
    && (IsDlq(h.idx, k) <==> IsDlq(s.idx, k))
    && (k in h.active <==> k in s.active)
    && (k in h.dlq <==> k in s.dlq)
  }

  /** A crash state that differs from an agreeing one on a single message is repaired if that message is. */
  lemma CrashRepairs(h: Store, s: Store, k: Key)
    requires Agree(h) && OneRoundSuffices(s, k)
    requires forall j :: j != k ==> SameOn(h, s, j)
    ensures RepairsToAgreement(s)
  {
    forall later, j
      ensures AgreesOn(RepairRound(s, "", later), j)
    {
      assert AgreesOn(h, j);
      assert j != k ==> SameOn(h, s, j);
      OneRoundIff(s, later, j);
    }
  }

  /** Where the payloads end up after two rounds, by how the message started. */
  predicate EndsClean(h: Store, k: Key) {
    if k !in h.idx then !(k in h.active && k in h.dlq)
    else if IsDlq(h.idx, k) then k !in h.active && k in h.dlq
    else k in h.active <==> k !in h.dlq
  }

  function TwoRounds(h: Store, t1: int, t2: int): Store {
    RepairRound(RepairRound(h, "", t1), "", t2)
  }

  predicate NoIssueOn(h: Store, k: Key) {
    !Orphan(h, k) && !Missing(h, k)
  }

  /** Per message: after two rounds every file has a row, every active-class row has its payload, and
      nothing is left to report exactly when the message started in one of the clean situations. */
  lemma TwoRoundsOn(h: Store, t1: int, t2: int, k: Key)
    ensures var s := TwoRounds(h, t1, t2);
            && (k in s.active || k in s.dlq ==> k in s.idx)
            && (IsActive(s.idx, k) ==> k in s.active)
            && (NoIssueOn(s, k) <==> EndsClean(h, k))
  {
    RoundOn(h, t1, k);
    RoundOn(RepairRound(h, "", t1), t2, k);
  }

  /** r is what one round over all queues makes of h, as far as message k goes. */
  predicate Rounded(h: Store, r: Store, now: int, k: Key) {
    && r.active == h.active && r.dlq == h.dlq && r.archive == h.archive
    && (k in r.idx <==> k in h.idx || k in h.active || k in h.dlq)
    && (k in r.kv <==> k in h.kv || Orphan(h, k))
    && (k in h.kv ==> r.kv[k] == h.kv[k])
    && (k in h.idx ==> r.idx[k] == if Missing(h, k) then h.idx[k].(state := Dlq) else h.idx[k])
    && (k !in h.idx && k in r.idx ==> r.idx[k] == FoundRow(now))
  }

  lemma RoundOn(h: Store, now: int, k: Key)
    ensures Rounded(h, RepairRound(h, "", now), now, k)
  {
  }

  lemma ThirdRoundIdles(h: Store, one: Store, two: Store, three: Store, t1: int, t2: int, t3: int, k: Key)
    requires Rounded(h, one, t1, k) && Rounded(one, two, t2, k) && Rounded(two, three, t3, k)
    ensures k in three.idx <==> k in two.idx
    ensures k in three.kv <==> k in two.kv
    ensures k in two.idx ==> three.idx[k] == two.idx[k]
    ensures k in two.kv ==> three.kv[k] == two.kv[k]
  {
  }

  lemma SameTables(s: Store, r: Store)
    requires forall k :: k in r.idx <==> k in s.idx
    requires forall k :: k in r.kv <==> k in s.kv
    requires forall k :: k in s.idx ==> r.idx[k] == s.idx[k]
    requires forall k :: k in s.kv ==> r.kv[k] == s.kv[k]
    ensures r.idx == s.idx && r.kv == s.kv
  {
  }

  /** Repair converges: a third round changes nothing, from any state at all. */
  lemma TwoRoundsReachFixpoint(h: Store, t1: int, t2: int, t3: int)
    ensures RepairRound(TwoRounds(h, t1, t2), "", t3) == TwoRounds(h, t1, t2)
  {
    var one := RepairRound(h, "", t1);
    var two := TwoRounds(h, t1, t2);
    var three := RepairRound(two, "", t3);
    forall k
      ensures k in three.idx <==> k in two.idx
      ensures k in three.kv <==> k in two.kv
      ensures k in two.idx ==> three.idx[k] == two.idx[k]
      ensures k in two.kv ==> three.kv[k] == two.kv[k]
    {
      RoundOn(h, t1, k);
      RoundOn(one, t2, k);
      RoundOn(two, t3, k);
      ThirdRoundIdles(h, one, two, three, t1, t2, t3, k);
    }
    SameTables(two, three);
  }

  /** The report is empty exactly on agreement, in scope. */
  lemma NoIssueIffAgree(h: Store, queue: string)
    ensures (forall i :: !IsIssue(h, queue, i)) <==> (forall k :: InScope(queue, k) ==> AgreesOn(h, k))
  {
    if forall i :: !IsIssue(h, queue, i) {
      forall k | InScope(queue, k)
        ensures AgreesOn(h, k)
      {
        assert !IsIssue(h, queue, Issue(OrphanPayload, k, Active));
        assert !IsIssue(h, queue, Issue(OrphanPayload, k, DlqDir));
        assert !IsIssue(h, queue, Issue(MissingPayload, k, Active));
        assert !IsIssue(h, queue, Issue(MissingPayload, k, DlqDir));
      }
    }
    if forall k :: InScope(queue, k) ==> AgreesOn(h, k) {
      forall i
        ensures !IsIssue(h, queue, i)
      {
        assert InScope(queue, i.key) ==> AgreesOn(h, i.key);
      }
    }
  }

  /** Some issue about k has been seen. */
  predicate Seen(issues: seq<Issue>, kind: IssueKind, k: Key) {
    exists place :: Issue(kind, k, place) in issues
  }

  /** r is h repaired as far as message k goes, after orphan or missing issues about it have been handled. */
  predicate RepairedOn(h: Store, r: Store, orphan: bool, missing: bool, now: int, k: Key) {
    && r.active == h.active && r.dlq == h.dlq
    && (k in r.idx <==> k in h.idx || orphan)
    && (k in r.kv <==> k in h.kv || orphan)
    && (k in h.kv ==> r.kv[k] == h.kv[k])
    && (k !in h.kv && k in r.kv ==> r.kv[k] == FoundEnvelope(now))
    && (k in h.idx ==> r.idx[k] == if missing then h.idx[k].(state := Dlq) else h.idx[k])
    && (k !in h.idx && k in r.idx ==> r.idx[k] == FoundRow(now))
  }

  lemma RepairOneOn(h: Store, r: Store, queue: string, i: Issue, orphan: bool, missing: bool, now: int, k: Key)
    requires RepairedOn(h, r, orphan, missing, now, k) && IsIssue(h, queue, i)
    ensures RepairedOn(h, RepairOne(r, i, now), orphan || (i.kind == OrphanPayload && i.key == k),
                       missing || (i.kind == MissingPayload && i.key == k), now, k)
    ensures RepairOne(r, i, now).archive == r.archive
  {
  }

  lemma ClearOneOn(h: Store, r: Store, queue: string, stale: set<Key>, i: Issue, now: int)
    requires IsStale(h, queue, stale, i)
    ensures RepairOne(r, i, now) == r.(archive := Taken(r.archive, i.key))
  {
  }

  lemma SeenOneMore(init: seq<Issue>, last: Issue, kind: IssueKind, k: Key)
    ensures Seen(init + [last], kind, k) <==> Seen(init, kind, k) || (last.kind == kind && last.key == k)
  {
    if last.kind == kind && last.key == k {
      assert Issue(kind, k, last.place) in init + [last];
    }
    if place :| Issue(kind, k, place) in init {
      assert Issue(kind, k, place) in init + [last];
    }
  }

  /** Repairing a list of true issues, one after the other, in terms of what it has seen. */
  lemma {:induction false} RepairAllOn(h: Store, queue: string, stale: set<Key>, issues: seq<Issue>, now: int, k: Key)
    requires forall i :: i in issues ==> Reportable(h, queue, stale, i)
    ensures RepairedOn(h, RepairAll(h, issues, now),
                       Seen(issues, OrphanPayload, k), Seen(issues, MissingPayload, k), now, k)
    ensures RepairAll(h, issues, now).archive ==
      map j | j in h.archive && !Seen(issues, StaleArchive, j) :: h.archive[j]
  {
    hide Seen, RepairedOn, IsIssue, IsStale;
    if issues == [] {
      NoneSeen(h, now, k);
    } else {
      var init, last := issues[..|issues| - 1], issues[|issues| - 1];
      assert issues == init + [last];
      RepairAllOn(h, queue, stale, init, now, k);
      var r := RepairAll(h, init, now);
      forall j, kind
        ensures Seen(issues, kind, j) <==> Seen(init, kind, j) || (last.kind == kind && last.key == j)
      {
        SeenOneMore(init, last, kind, j);
      }
      assert Reportable(h, queue, stale, last);
      if IsIssue(h, queue, last) {
        IssueKinds(h, queue, last);
        RepairOneOn(h, r, queue, last, Seen(init, OrphanPayload, k), Seen(init, MissingPayload, k), now, k);
      } else {
        StaleKinds(h, queue, stale, last);
        ClearOneOn(h, r, queue, stale, last, now);
        ClearedOn(h, r, last.key, Seen(init, OrphanPayload, k), Seen(init, MissingPayload, k), now, k);
      }
    }
  }

  lemma NoneSeen(h: Store, now: int, k: Key)
    ensures forall j, kind :: !Seen([], kind, j)
    ensures RepairedOn(h, h, false, false, now, k)
  {
  }

  lemma IssueKinds(h: Store, queue: string, i: Issue)
    requires IsIssue(h, queue, i)
    ensures i.kind != StaleArchive
  {
  }

  lemma StaleKinds(h: Store, queue: string, stale: set<Key>, i: Issue)
    requires IsStale(h, queue, stale, i)
    ensures i.kind == StaleArchive
  {
  }

  lemma ClearedOn(h: Store, r: Store, cleared: Key, orphan: bool, missing: bool, now: int, k: Key)
    requires RepairedOn(h, r, orphan, missing, now, k)
    ensures RepairedOn(h, r.(archive := Taken(r.archive, cleared)), orphan, missing, now, k)
  {
  }

  lemma SeenIff(h: Store, queue: string, stale: set<Key>, issues: seq<Issue>, k: Key)
    requires forall i :: i in issues <==> Reportable(h, queue, stale, i)
    ensures Seen(issues, OrphanPayload, k) <==> InScope(queue, k) && Orphan(h, k)
    ensures Seen(issues, MissingPayload, k) <==> InScope(queue, k) && Missing(h, k)
    ensures Seen(issues, StaleArchive, k) <==> InScope(queue, k) && k in h.archive && k in stale
  {
    forall kind, place
      ensures Issue(kind, k, place) in issues <==> Reportable(h, queue, stale, Issue(kind, k, place))
    {
    }
    assert Issue(OrphanPayload, k, Active) in issues || Issue(OrphanPayload, k, DlqDir) in issues <==>
      InScope(queue, k) && Orphan(h, k);
    assert Issue(MissingPayload, k, Active) in issues || Issue(MissingPayload, k, DlqDir) in issues <==>
      InScope(queue, k) && Missing(h, k);
    assert Issue(StaleArchive, k, ArchiveDir) in issues <==> InScope(queue, k) && k in h.archive && k in stale;
  }

  /** Repairing a complete report is one round, with the stale archives cleared. */
  lemma RepairAllIsRound(h: Store, queue: string, stale: set<Key>, issues: seq<Issue>, now: int)
    requires forall i :: i in issues <==> Reportable(h, queue, stale, i)
    ensures RepairAll(h, issues, now) == Cleared(RepairRound(h, queue, now), queue, stale)
  {
    hide Seen, Reportable, RepairAll, RepairRound, RepairedOn, Orphan, Missing;
    var r, s := RepairAll(h, issues, now), RepairRound(h, queue, now);
    forall k
      ensures k in r.idx <==> k in s.idx
      ensures k in r.kv <==> k in s.kv
      ensures k in s.idx ==> r.idx[k] == s.idx[k]
      ensures k in s.kv ==> r.kv[k] == s.kv[k]
      ensures r.active == s.active && r.dlq == s.dlq && s.archive == h.archive
      ensures Seen(issues, StaleArchive, k) <==> InScope(queue, k) && k in h.archive && k in stale
    {
      RepairAllOn(h, queue, stale, issues, now, k);
      SeenIff(h, queue, stale, issues, k);
      RepairedIsRound(h, r, queue, now, k);
    }
    SameTables(s, r);
    RepairAllOn(h, queue, stale, issues, now, Key("", ""));
    assert r.archive == Cleared(s, queue, stale).archive;
  }

  lemma RepairedIsRound(h: Store, r: Store, queue: string, now: int, k: Key)
    requires RepairedOn(h, r, InScope(queue, k) && Orphan(h, k), InScope(queue, k) && Missing(h, k), now, k)
    ensures
      var s := RepairRound(h, queue, now);
      && r.active == s.active && r.dlq == s.dlq && s.archive == h.archive
      && (k in r.idx <==> k in s.idx) && (k in s.idx ==> r.idx[k] == s.idx[k])
      && (k in r.kv <==> k in s.kv) && (k in s.kv ==> r.kv[k] == s.kv[k])
  {
  }

  // ---------------------------------------------------------------------------------------
  // What a repaired message is
  // ---------------------------------------------------------------------------------------

  /** A payload file without a row comes back as a ready message of lowest standing: available from now on to every
      consumer of its queue, with a fresh attempt count. An envelope that is there stays. */
  lemma OrphanIsReady(h: Store, queue: string, now: int, k: Key)
    requires (queue == "" || queue == k.queue) && k !in h.idx && (k in h.active || k in h.dlq)
    ensures
      var s := RepairRound(h, queue, now);
      && k in s.idx && s.idx[k].state == Ready && s.idx[k].availableAt == now && s.idx[k].attempt == 0
      && s.idx[k].priority == 0 && s.idx[k].leaseUntil == None && s.idx[k].target == ""
      && k in s.kv && (k in h.kv ==> s.kv[k] == h.kv[k])
      && (k !in h.kv ==> s.kv[k].createdAt == now && s.kv[k].dlq == None && s.kv[k].attempt == s.kv[k].priority == 0)
      && forall consumer, later :: now <= later ==> Eligible(s.idx, k.queue, consumer, later, k)
  {
  }

  /** And the lease of an orphan from active hands out what its file holds. */
  lemma OrphanIsLeased(h: Store, queue: string, now: int, k: Key, until: int)
    requires (queue == "" || queue == k.queue) && k !in h.idx && k !in h.kv && k in h.active
    ensures
      var s := LeaseGranted(RepairRound(h, queue, now), Some(k), until);
      && k in s.idx && k in s.kv && s.idx[k].state == Inflight && s.idx[k].leaseUntil == Some(until)
      && var m := MessageOf(s, k);
         && m.key == k && m.payload == h.active[k].payload && m.attributes == h.active[k].attributes
         && m.priority == 0 && m.attempt == 1 && m.createdAt == now
  {
    hide RepairRound, FoundEnvelope;
    OrphanIsReady(h, queue, now, k);
    assert RepairRound(h, queue, now).active == h.active by { RoundKeepsFiles(h, queue, now); }
  }

  lemma RoundKeepsFiles(h: Store, queue: string, now: int)
    ensures
      var s := RepairRound(h, queue, now);
      s.active == h.active && s.dlq == h.dlq && s.archive == h.archive
  {
  }

  /** A row whose payload is missing becomes dead; every other column and the envelope stay. All rows with their
      payload in place stay altogether. */
  lemma MissingIsDead(h: Store, queue: string, now: int, k: Key)
    requires k in h.idx
    ensures
      var r, r' := h.idx[k], RepairRound(h, queue, now).idx[k];
      var present := if r.state == Dlq then k in h.dlq else k in h.active;
      && r'.state == (if (queue == "" || queue == k.queue) && !present then Dlq else r.state)
      && r'.priority == r.priority && r'.availableAt == r.availableAt && r'.leaseUntil == r.leaseUntil
      && r'.attempt == r.attempt && r'.target == r.target
    ensures k in h.kv ==> k in RepairRound(h, queue, now).kv && RepairRound(h, queue, now).kv[k] == h.kv[k]
  {
  }

  // ---------------------------------------------------------------------------------------
  // Which operations keep agreement
  // ---------------------------------------------------------------------------------------

  /** Publishing under a key that already has a live message destroys its payload: agreement is kept
      exactly when the key has no row or a buried one. */
  lemma EnqueueKeepsAgreementIff(h: Store, m: Message, now: int)
    requires Agree(h) && h.kv.Keys == h.idx.Keys
    ensures Agree(Apply(h, now, Enqueue(m))) <==> !IsActive(h.idx, m.key)
  {
    var s := Apply(h, now, Enqueue(m));
    assert AgreesOn(h, m.key);
    if IsActive(h.idx, m.key) {
      assert !AgreesOn(s, m.key);
    } else {
      forall k
        ensures AgreesOn(s, k)
      {
        assert AgreesOn(h, k);
      }
    }
  }

  /** delay_message has no state guard: agreement is kept exactly when the message is not in the DLQ. */
  lemma DelayKeepsAgreementIff(h: Store, now: int, k: Key, delayMs: int)
    requires Agree(h)
    ensures Agree(Apply(h, now, DelayMessage(k, delayMs))) <==> !IsDlq(h.idx, k)
  {
    var s := Apply(h, now, DelayMessage(k, delayMs));
    assert AgreesOn(h, k);
    if IsDlq(h.idx, k) {
      assert !AgreesOn(s, k);
    } else {
      forall j
        ensures AgreesOn(s, j)
      {
        assert AgreesOn(h, j);
      }
    }
  }

  lemma RowOpsAgreeOn(h: Store, now: int, op: Op, k: Key)
    requires AgreesOn(h, k) && Chosen(h, now, op)
    requires op.LeaseNext? || op.ExtendLease? || op.RecoverExpired? || op.ProcessDelayed?
    ensures AgreesOn(Apply(h, now, op), k)
  {
  }

  lemma FileOpsAgreeOn(h: Store, now: int, op: Op, k: Key)
    requires AgreesOn(h, k)
    requires op.Ack? || op.Nack? || op.MoveToDlq? || op.Reprocess?
    ensures AgreesOn(Apply(h, now, op), k)
  {
    match op
    case Ack(_) =>
    case Nack(key, reason, requeue) =>
      if !requeue && IsInflight(h.idx, key) {
        BuriedAgrees(h, now, key, reason, k);
      }
    case MoveToDlq(key, reason) =>
      if key in h.idx {
        BuriedAgrees(h, now, key, reason, k);
      }
    case Reprocess(_) =>
  }

  lemma BuriedAgrees(h: Store, now: int, key: Key, reason: string, k: Key)
    requires AgreesOn(h, k) && key in h.idx
    ensures AgreesOn(FileBuried(Buried(h, key, reason, now), key), k)
  {
  }

  /** Every other operation keeps agreement from any agreeing state. */
  lemma OthersKeepAgreement(h: Store, now: int, op: Op)
    requires Agree(h) && !op.Enqueue? && !op.DelayMessage? && Chosen(h, now, op)
    ensures Agree(Apply(h, now, op))
  {
    forall k
      ensures AgreesOn(Apply(h, now, op), k)
    {
      assert AgreesOn(h, k);
      if op.Ack? || op.Nack? || op.MoveToDlq? || op.Reprocess? {
        FileOpsAgreeOn(h, now, op, k);
      } else {
        RowOpsAgreeOn(h, now, op, k);
      }
    }
  }

  /** Whether one check and repair makes good whatever an operation may leave. */
  predicate RepairSafe(h: Store, op: Op, t: Failures) {
    && !(op.MoveToDlq? && IsActive(h.idx, op.key))
    && !(op.Enqueue? && op.m.key in h.idx)
    && !(t.files && LeftBehind(h, op))
  }

  /** The one message an operation on a single key is about. */
  function Subject(op: Op): Key {
    match op
    case Enqueue(m) => m.key
    case Ack(k) => k
    case Nack(k, _, _) => k
    case DelayMessage(k, _) => k
    case MoveToDlq(k, _) => k
    case Reprocess(k) => k
    case _ => Key("", "")
  }

  predicate OnOneKey(op: Op) {
    op.Enqueue? || op.Ack? || op.Nack? || op.DelayMessage? || op.MoveToDlq? || op.Reprocess?
  }

  /** Rows and payload files are the same; the envelopes may differ. */
  predicate SamePlaces(s: Store, r: Store) {
    s.idx == r.idx && s.active == r.active && s.dlq == r.dlq
  }

  lemma MayLeaveIsNear(h: Store, now: int, op: Op, t: Failures, s: Store)
    requires MayLeave(h, now, op, t, s)
    ensures || SamePlaces(s, h) || SamePlaces(s, Between(h, now, op)) || SamePlaces(s, Apply(h, now, op))
            || (op.Enqueue? && SamePlaces(s, Withdrawn(h, op.m)))
            || (t.files && LeftBehind(h, op) && SamePlaces(s, Buried(h, op.key, op.reason, now)))
  {
    hide Between, Apply, Withdrawn, Buried;
  }

  lemma BuriedOthers(h: Store, k: Key, reason: string, now: int, j: Key)
    requires k in h.idx && j != k
    ensures SameOn(h, FileBuried(h, k), j) && SameOn(h, Buried(h, k, reason, now), j)
    ensures SameOn(h, FileBuried(Buried(h, k, reason, now), k), j)
  {
    hide Noted, BuryRow;
  }

  lemma BetweenOthers(h: Store, now: int, op: Op, j: Key)
    requires OnOneKey(op) && j != Subject(op)
    ensures SameOn(h, Between(h, now, op), j)
    ensures op.Enqueue? ==> SameOn(h, Withdrawn(h, op.m), j)
  {
    hide Buried, FileBuried, Unnoted, ReviveRow, PayloadOf;
    match op
    case Enqueue(_) =>
    case Ack(_) =>
    case Nack(k, reason, _) => if k in h.idx { BuriedOthers(h, k, reason, now, j); }
    case DelayMessage(_, _) =>
    case MoveToDlq(k, reason) => if k in h.idx { BuriedOthers(h, k, reason, now, j); }
    case Reprocess(_) =>
  }

  lemma TakenOthers(files: map<Key, Payload>, k: Key, j: Key)
    requires j != k
    ensures j in Taken(files, k) <==> j in files
  {
  }

  lemma AckOthers(h: Store, k: Key, j: Key)
    requires j != k
    ensures SameOn(h, Acked(h, k), j)
  {
  }

  lemma ReprocessOthers(h: Store, now: int, k: Key, j: Key)
    requires j != k
    ensures SameOn(h, Reprocessed(h, k, now), j)
  {
    hide Unnoted, ReviveRow;
  }

  lemma ApplyOthers(h: Store, now: int, op: Op, j: Key)
    requires OnOneKey(op) && j != Subject(op)
    ensures SameOn(h, Apply(h, now, op), j)
  {
    hide Buried, FileBuried, Noted, RequeueRow, DelayRow, NewRow, PayloadOf, EnvelopeOf, Taken, Acked, Reprocessed;
    match op
    case Enqueue(m) => TakenOthers(h.active, m.key, j);
    case Ack(k) => AckOthers(h, k, j);
    case Nack(k, reason, _) => if k in h.idx { BuriedOthers(h, k, reason, now, j); }
    case DelayMessage(_, _) =>
    case MoveToDlq(k, reason) => if k in h.idx { BuriedOthers(h, k, reason, now, j); }
    case Reprocess(k) => ReprocessOthers(h, now, k, j);
  }

  lemma SubjectRepairable(h: Store, now: int, op: Op, t: Failures)
    requires Agree(h) && h.kv.Keys == h.idx.Keys && OnOneKey(op) && RepairSafe(h, op, t)
    ensures OneRoundSuffices(h, Subject(op))
    ensures OneRoundSuffices(Apply(h, now, op), Subject(op)) && OneRoundSuffices(Between(h, now, op), Subject(op))
    ensures op.Enqueue? ==> OneRoundSuffices(Withdrawn(h, op.m), Subject(op))
  {
    hide Noted, Unnoted, PayloadOf, EnvelopeOf;
    assert AgreesOn(h, Subject(op));
    match op
    case Enqueue(_) =>
    case Ack(_) =>
    case Nack(_, _, _) =>
    case DelayMessage(_, _) =>
    case MoveToDlq(_, _) =>
    case Reprocess(_) =>
  }

  lemma LeavesOthersAlone(h: Store, now: int, op: Op, t: Failures, s: Store, j: Key)
    requires OnOneKey(op) && MayLeave(h, now, op, t, s) && j != Subject(op)
    ensures SameOn(h, s, j)
  {
    hide Between, Apply, Withdrawn, MayLeave, Buried;
    MayLeaveIsNear(h, now, op, t, s);
    BetweenOthers(h, now, op, j);
    ApplyOthers(h, now, op, j);
    if LeftBehind(h, op) {
      BuriedOthers(h, op.key, op.reason, now, j);
    }
  }

  lemma LeavesRepairable(h: Store, now: int, op: Op, t: Failures, s: Store)
    requires Agree(h) && h.kv.Keys == h.idx.Keys && OnOneKey(op) && RepairSafe(h, op, t)
    requires MayLeave(h, now, op, t, s)
    ensures OneRoundSuffices(s, Subject(op))
  {
    hide Between, Apply, Withdrawn, MayLeave, Subject, Buried, LeftBehind;
    MayLeaveIsNear(h, now, op, t, s);
    SubjectRepairable(h, now, op, t);
  }

  lemma SafeIsRepaired(h: Store, now: int, op: Op, t: Failures, s: Store)
    requires Agree(h) && h.kv.Keys == h.idx.Keys && Chosen(h, now, op) && RepairSafe(h, op, t)
    requires MayLeave(h, now, op, t, s)
    ensures RepairsToAgreement(s)
  {
    hide MayLeave, RepairSafe, Agree, RepairsToAgreement;
    if OnOneKey(op) {
      LeavesRepairable(h, now, op, t, s);
      forall j | j != Subject(op)
        ensures SameOn(h, s, j)
      {
        LeavesOthersAlone(h, now, op, t, s, j);
      }
      CrashRepairs(h, s, Subject(op));
    } else {
      RowOpLeaves(h, now, op, t, s);
      AgreeingIsRepaired(s);
    }
  }

  lemma RowOpLeaves(h: Store, now: int, op: Op, t: Failures, s: Store)
    requires Agree(h) && Chosen(h, now, op) && !OnOneKey(op) && MayLeave(h, now, op, t, s)
    ensures Agree(s)
  {
    hide Apply, Agree;
    OthersKeepAgreement(h, now, op);
  }

  lemma AgreeingIsRepaired(s: Store)
    requires Agree(s)
    ensures RepairsToAgreement(s)
  {
    assert AgreesOn(s, Key("", ""));
    CrashRepairs(s, s, Key("", ""));
  }

  /** A state that no round repairs. */
  lemma UnsafeIsNotRepaired(h: Store, now: int, op: Op, t: Failures) returns (s: Store)
    requires Agree(h) && h.kv.Keys == h.idx.Keys && !RepairSafe(h, op, t)
    ensures MayLeave(h, now, op, t, s) && !RepairsToAgreement(s)
  {
    var k := Subject(op);
    assert AgreesOn(h, k);
    s := if op.Enqueue? && IsActive(h.idx, k) then Apply(h, now, op)
         else if op.Nack? then Buried(h, k, op.reason, now)
         else Between(h, now, op);
    OneRoundIff(s, 0, k);
    assert !AgreesOn(RepairRound(s, "", 0), k);
  }

  /** Repair after crashes and failures: from an agreeing state, one check and repair makes good everything an
      operation may leave behind, exactly unless it moves a live message to the DLQ, or enqueues under a key that
      has a row, or buries by nack while file operations may fail. */
  lemma FailuresAreRepairedIff(h: Store, now: int, op: Op, t: Failures)
    requires Agree(h) && h.kv.Keys == h.idx.Keys && Chosen(h, now, op)
    ensures (forall s :: MayLeave(h, now, op, t, s) ==> RepairsToAgreement(s)) <==> RepairSafe(h, op, t)
  {
    hide MayLeave, RepairSafe, RepairsToAgreement, Agree;
    if RepairSafe(h, op, t) {
      forall s | MayLeave(h, now, op, t, s)
        ensures RepairsToAgreement(s)
      {
        SafeIsRepaired(h, now, op, t, s);
      }
    } else {
      var s := UnsafeIsNotRepaired(h, now, op, t);
    }
  }

  /** The same for crashes alone. */
  lemma CrashesAreRepairedIff(h: Store, now: int, op: Op)
    requires Agree(h) && h.kv.Keys == h.idx.Keys && Chosen(h, now, op)
    ensures (forall s :: CrashPoint(h, now, op, s) ==> RepairsToAgreement(s)) <==>
      !((op.MoveToDlq? && IsActive(h.idx, op.key)) || (op.Enqueue? && op.m.key in h.idx))
  {
    hide Apply, Between, RepairsToAgreement, Agree, CrashPoint;
    var none := Failures(false, false);
    FailuresAreRepairedIff(h, now, op, none);
    assert forall s :: MayLeave(h, now, op, none, s) <==> CrashPoint(h, now, op, s);
  }

  /** The window of move_to_dlq: tables committed, payload still in active. No number of rounds repairs it:
      the message stays reported both as orphan and as missing. */
  lemma BuriedWindowStays(h: Store, k: Key, reason: string, now: int, later: int)
    requires Agree(h) && IsActive(h.idx, k) && h.kv.Keys == h.idx.Keys
    ensures var s := Buried(h, k, reason, now);
            && RepairRound(s, "", later) == s
            && IsIssue(s, "", Issue(OrphanPayload, k, Active))
            && IsIssue(s, "", Issue(MissingPayload, k, DlqDir))
            && forall j :: j != k ==> AgreesOn(s, j)
  {
    var s := Buried(h, k, reason, now);
    var r := RepairRound(s, "", later);
    assert AgreesOn(h, k);
    forall j
      ensures j != k ==> AgreesOn(s, j)
      ensures j in r.idx <==> j in s.idx
      ensures j in r.kv <==> j in s.kv
      ensures j in s.idx ==> r.idx[j] == s.idx[j]
      ensures j in s.kv ==> r.kv[j] == s.kv[j]
    {
      assert AgreesOn(h, j);
    }
    assert r.idx == s.idx;
    assert r.kv == s.kv;
  }

  /** A payload reported missing because its directory could not be listed: from agreement, repairing that report
      leads to a state the next rounds bring back to agreement exactly when no live message is meant. The row of a
      live one becomes dead for good. */
  lemma MistakenReportIff(h: Store, k: Key, place: Place, now: int)
    requires Agree(h)
    ensures RepairsToAgreement(RepairOne(h, Issue(MissingPayload, k, place), now)) <==> !IsActive(h.idx, k)
  {
    var s := RepairOne(h, Issue(MissingPayload, k, place), now);
    assert AgreesOn(h, k);
    if IsActive(h.idx, k) {
      OneRoundIff(s, now, k);
    } else {
      assert s.idx == h.idx;
      AgreeingIsRepaired(s);
    }
  }

  /** Unreadable: leased and committed, but envelope or payload did not parse. */
  datatype LeaseResult =
    | Nothing
    | Error
    | Unreadable(key: Key)
    | Leased(message: Message, lease: LeaseToken)

  /** The message a lease hands out, from the state right after the lease. A missing payload file leaves
      payload and attributes empty. */
  function MessageOf(h: Store, k: Key): Message
    requires k in h.kv && k in h.idx
  {
    var p := if k in h.active then h.active[k] else Payload("", "");
    Message(k, p.payload, p.attributes, h.kv[k].priority, h.idx[k].attempt, h.kv[k].createdAt, 0, "")
  }

  predicate Tallied(r: Report) {
    && r.orphanPayloads == CountOf(r.issues, OrphanPayload)
    && r.missingPayloads == CountOf(r.issues, MissingPayload)
    && r.staleArchives == CountOf(r.issues, StaleArchive)
  }

  predicate Unexpected(i: Issue, candidates: set<Key>, expected: set<Key>, kind: IssueKind, place: Place) {
    i.kind == kind && i.place == place && i.key in candidates && i.key !in expected
  }

  predicate NoTwice(issues: seq<Issue>) {
    forall i, j :: 0 <= i < j < |issues| ==> issues[i] != issues[j]
  }

  /** After two rounds a check reports no payload at all exactly when every message started clean. */
  lemma ZeroReportIff(h: Store, t1: int, t2: int, stale: set<Key>, report: Report)
    requires Tallied(report) && forall i :: i in report.issues <==> Reportable(TwoRounds(h, t1, t2), "", stale, i)
    ensures report.orphanPayloads == 0 && report.missingPayloads == 0 <==> forall k :: EndsClean(h, k)
  {
    var s := TwoRounds(h, t1, t2);
    CountZeroIff(report.issues, OrphanPayload);
    CountZeroIff(report.issues, MissingPayload);
    NoIssueIffAgree(s, "");
    forall k
      ensures EndsClean(h, k) <==> AgreesOn(s, k)
    {
      TwoRoundsOn(h, t1, t2, k);
    }
    if report.orphanPayloads == 0 && report.missingPayloads == 0 {
      forall i
        ensures !IsIssue(s, "", i)
      {
        assert i in report.issues <==> Reportable(s, "", stale, i);
      }
      assert forall k :: InScope("", k) ==> AgreesOn(s, k);
    }
    if forall k :: EndsClean(h, k) {
      assert forall k :: InScope("", k) ==> AgreesOn(s, k);
    }
  }

  class HybridAdapter {
    const db: Connection<Envelope>
    /** Whether operations on payload files may fail. */
    const faultyFiles: bool
    var active: map<Key, Payload>
    var dlqFiles: map<Key, Payload>
    var archive: map<Key, Payload>
    /** What a crash after each effect would leave behind. */
    ghost var trace: seq<Store>

    constructor (faulty: bool, faultyFiles: bool)
      ensures fresh(db) && db.faulty == faulty && this.faultyFiles == faultyFiles && Valid() && trace == []
      ensures Content() == Store(map[], map[], map[], map[], map[])
    {
      db := new Connection(false, faulty, map[], map[]);
      this.faultyFiles := faultyFiles;
      active, dlqFiles, archive, trace := map[], map[], map[], [];
    }

    function MayFail(): Failures {
      Failures(db.faulty, faultyFiles)
    }

    predicate Reliable() {
      !db.faulty && !faultyFiles
    }

    /** This backend never switches foreign keys on. */
    ghost predicate Valid()
      reads this, db
    {
      !db.foreignKeys && !db.inTransaction
    }

    function Content(): Store
      reads this, db
    {
      Store(db.kv, db.idx, active, dlqFiles, archive)
    }

    ghost function Durable(): Store
      reads this, db
    {
      Store(db.Durable().kv, db.Durable().idx, active, dlqFiles, archive)
    }

    /** What is known of every durable state since mark n: the operation may leave it. */
    ghost predicate Left(n: nat, h: Store, now: int, op: Op)
      reads this`trace
    {
      n <= |trace| && forall i :: n <= i < |trace| ==> MayLeave(h, now, op, MayFail(), trace[i])
    }

    lemma NothingLeft(h: Store, now: int, op: Op)
      ensures Left(|trace|, h, now, op)
    {
    }

    /** Records the state a crash at this point would leave. */
    ghost method Mark(n: nat, h: Store, now: int, op: Op)
      requires MayLeave(h, now, op, MayFail(), Durable()) && Left(n, h, now, op)
      modifies this`trace
      ensures trace == old(trace) + [Durable()] && Left(n, h, now, op)
    {
      hide MayLeave;
      trace := trace + [Durable()];
    }

    /** Commit, and rollback if that fails, with the durable state before and after recorded. */
    method CommitOrRollback(ghost n: nat, ghost h: Store, ghost now: int, ghost op: Op) returns (ok: bool)
      requires db.inTransaction && !db.foreignKeys && Left(n, h, now, op)
      requires MayLeave(h, now, op, MayFail(), Durable()) && MayLeave(h, now, op, MayFail(), Content())
      modifies this`trace, db
      ensures Valid() && Left(n, h, now, op)
      ensures Content() == if ok then old(Content()) else old(Durable())
      ensures !db.faulty ==> ok
    {
      hide Left, MayLeave;
      Mark(n, h, now, op);
      ok := db.Commit();
      if !ok {
        db.Rollback();
      }
      Mark(n, h, now, op);
    }

    method EnqueueMessage(m: Message, now: int) returns (ok: bool)
      requires Valid()
      modifies this, db
      ensures Valid()
      ensures ok ==> m.key !in old(db.kv) && m.key !in old(db.idx) && Content() == Enqueued(old(Content()), m, now)
      ensures !ok ==>
        || Content() == old(Content())
        || Content() == Withdrawn(old(Content()), m)
        || (faultyFiles && Content() == Written(old(Content()), m))
      ensures Reliable() ==> ok == (m.key !in old(db.kv) && m.key !in old(db.idx))
      ensures Reliable() ==> Content() == Enqueued(old(Content()), m, now)
      ensures Left(|old(trace)|, old(Content()), now, Enqueue(m))
    {
      hide Left, MayLeave, EnvelopeOf, NewRow, Enqueued, Withdrawn, Written, Taken;
      ghost var n, h, op := |trace|, Content(), Enqueue(m);
      NothingLeft(h, now, op);
      EnqueueLeaves(h, m, now, MayFail());
      ok := db.Begin();
      if !ok { return; }
      var unwritten := Fault(faultyFiles);
      if unwritten {
        db.Rollback();
        return false;
      }
      active := active[m.key := Payload(m.payload, m.attributes)];
      Mark(n, h, now, op);
      ok := StoreRows(m, now);
      Mark(n, h, now, op);
    }

    /** Everything enqueue leaves, written as its steps leave it. */
    lemma EnqueueLeaves(h: Store, m: Message, now: int, t: Failures)
      ensures
        var written := h.active[m.key := PayloadOf(m)];
        && MayLeave(h, now, Enqueue(m), t, h)
        && MayLeave(h, now, Enqueue(m), t, h.(active := written))
        && MayLeave(h, now, Enqueue(m), t, Enqueued(h, m, now))
        && Written(h, m) == h.(active := written)
        && Withdrawn(h, m) == h.(active := written - {m.key})
        && (t.statements ==> MayLeave(h, now, Enqueue(m), t, Withdrawn(h, m)))
        && Enqueued(h, m, now) ==
             if m.key in h.kv || m.key in h.idx then Withdrawn(h, m)
             else Store(h.kv[m.key := EnvelopeOf(m)], h.idx[m.key := NewRow(m, m.availableAt, now)],
                        written, h.dlq, h.archive)
    {
      assert h.active[m.key := PayloadOf(m)] - {m.key} == h.active - {m.key};
    }

    /** The rest of the transaction; after a failed statement or commit the payload is removed again. */
    method StoreRows(m: Message, now: int) returns (ok: bool)
      requires db.inTransaction && !db.foreignKeys && db.kv == db.savedKv && db.idx == db.savedIdx
      modifies this`active, db
      ensures Valid()
      ensures ok ==> m.key !in old(db.kv) && m.key !in old(db.idx) && active == old(active)
      ensures ok ==> db.kv == old(db.kv)[m.key := EnvelopeOf(m)]
      ensures ok ==> db.idx == old(db.idx)[m.key := NewRow(m, m.availableAt, now)]
      ensures !ok ==> db.kv == old(db.kv) && db.idx == old(db.idx)
      ensures !ok ==> active == old(active) - {m.key} || (faultyFiles && active == old(active))
      ensures !db.faulty ==> ok == (m.key !in old(db.kv) && m.key !in old(db.idx))
    {
      hide EnvelopeOf, NewRow;
      ok := InsertRows(m, now);
      if ok {
        ok := db.Commit();
      }
      if !ok {
        db.Rollback();
        var stays := Fault(faultyFiles);
        if !stays {
          active := active - {m.key};
        }
      }
    }

    /** The two INSERTs of enqueue, inside its transaction. */
    method InsertRows(m: Message, now: int) returns (ok: bool)
      requires db.inTransaction && !db.foreignKeys
      modifies db`kv, db`idx
      ensures ok ==> m.key !in old(db.kv) && m.key !in old(db.idx)
      ensures ok ==>
        db.kv == old(db.kv)[m.key := EnvelopeOf(m)] && db.idx == old(db.idx)[m.key := NewRow(m, m.availableAt, now)]
      ensures !db.faulty ==> ok == (m.key !in old(db.kv) && m.key !in old(db.idx))
    {
      ok := db.InsertKv(m.key, Envelope(m.priority, m.attempt, m.createdAt, None));
      if ok {
        var state := if m.availableAt > now then Delayed else Ready;
        ok := db.InsertIdx(m.key, Row(state, m.priority, m.availableAt, None, m.attempt, m.target));
      }
    }

    method LeaseNextMessage(queue: string, consumer: string, visibilitySec: int, now: int)
      returns (result: LeaseResult, ghost picked: Option<Key>)
      requires Valid()
      modifies this, db
      ensures Valid()
      ensures result.Nothing? || result.Error? ==> Content() == old(Content())
      ensures result.Unreadable? ==>
        && db.faulty
        && picked == Some(result.key) && result.key in old(db.kv)
        && IsNext(old(db.idx), queue, consumer, now, result.key)
        && Content() == LeaseGranted(old(Content()), picked, now + visibilitySec * 1000)
      ensures result.Leased? ==>
        && picked == Some(result.message.key) && IsNext(old(db.idx), queue, consumer, now, result.message.key)
        && result.message.key in old(db.kv)
        && Content() == LeaseGranted(old(Content()), picked, now + visibilitySec * 1000)
        && (|| result.message == MessageOf(Content(), result.message.key)
            || (faultyFiles &&
                result.message == MessageOf(Content(), result.message.key).(payload := "", attributes := "")))
        && result.lease == LeaseToken(result.message.key, consumer, now + visibilitySec * 1000)
      ensures !db.faulty ==>
        (result.Nothing? <==> forall k :: k in old(db.idx) ==> !Eligible(old(db.idx), queue, consumer, now, k))
      ensures !db.faulty && old(db.kv).Keys == old(db.idx).Keys ==> !result.Error?
      ensures Left(|old(trace)|, old(Content()), now, LeaseNext(queue, consumer, visibilitySec, picked))
    {
      picked := None;
      var until := now + visibilitySec * 1000;
      var ok := db.Begin();
      if !ok { return Error, None; }
      var next;
      ok, next := db.SelectNext(queue, consumer, now);
      if !ok || next.None? {
        db.Rollback();
        return Nothing, None;
      }
      hide Left, MayLeave, Eligible, IsNext, MessageOf;
      var key := next.value;
      picked := next;
      ghost var n, h, op := |trace|, Content(), LeaseNext(queue, consumer, visibilitySec, next);
      NothingLeft(h, now, op);
      LeaseLeaves(h, now, op, MayFail());
      ok := db.UpdateIdxAt(key, (_: Row) => true,
                           (r: Row) => r.(state := Inflight, leaseUntil := Some(until), attempt := r.attempt + 1));
      if !ok {
        db.Rollback();
        return Error, next;
      }
      var value := db.SelectKv(key);
      if value.None? {
        db.Rollback();
        return Error, next;
      }
      ok := CommitOrRollback(n, h, now, op);
      if !ok {
        return Error, next;
      }
      var garbled := Fault(db.faulty);
      if garbled {
        return Unreadable(key), next;
      }
      var message := ReadMessage(key, value.value);
      result := Leased(message, LeaseToken(key, consumer, until));
    }

    /** The message from its envelope, its row and its payload file. */
    method ReadMessage(key: Key, e: Envelope) returns (message: Message)
      requires key in db.kv && key in db.idx && e == db.kv[key]
      ensures message == MessageOf(Content(), key) ||
              (faultyFiles && message == MessageOf(Content(), key).(payload := "", attributes := ""))
    {
      message := Message(key, "", "", e.priority, db.idx[key].attempt, e.createdAt, 0, "");
      var unread := Fault(faultyFiles);
      if key in active && !unread {
        message := message.(payload := active[key].payload, attributes := active[key].attributes);
      }
    }

    lemma LeaseLeaves(h: Store, now: int, op: Op, t: Failures)
      requires op.LeaseNext?
      ensures MayLeave(h, now, op, t, h)
      ensures MayLeave(h, now, op, t, LeaseGranted(h, op.picked, now + op.visibilitySec * 1000))
    {
    }

    method AckMessage(lease: LeaseToken, now: int) returns (ok: bool)
      requires Valid()
      modifies this, db
      ensures Valid()
      ensures ok ==> IsInflight(old(db.idx), lease.messageKey)
      ensures ok ==>
        || Content() == Acked(old(Content()), lease.messageKey)
        || (faultyFiles && Content() == Deleted(old(Content()), lease.messageKey))
      ensures !ok ==> Content() == old(Content())
      ensures !db.faulty ==> ok == IsInflight(old(db.idx), lease.messageKey)
      ensures Left(|old(trace)|, old(Content()), now, Ack(lease.messageKey))
    {
      hide Left, MayLeave, Put, Taken;
      var key := lease.messageKey;
      ghost var n, h, op := |trace|, Content(), Ack(key);
      NothingLeft(h, now, op);
      AckLeaves(h, key, now, MayFail());
      ok := db.Begin();
      if !ok { return; }
      var found := db.SelectIdx(key, (r: Row) => r.state == Inflight);
      if !found {
        db.Rollback();
        return false;
      }
      ok := db.DeleteIdxWhere(key, (_: Row) => true);
      if !ok {
        db.Rollback();
        return;
      }
      ok := db.DeleteKv(key);
      if !ok {
        db.Rollback();
        return;
      }
      ok := CommitOrRollback(n, h, now, op);
      if !ok { return; }
      MoveToArchive(key);
      Mark(n, h, now, op);
    }

    lemma AckLeaves(h: Store, k: Key, now: int, t: Failures)
      ensures MayLeave(h, now, Ack(k), t, h) && MayLeave(h, now, Ack(k), t, Acked(h, k))
      ensures IsInflight(h.idx, k) ==> MayLeave(h, now, Ack(k), t, Deleted(h, k))
    {
    }

    /** Marks the row and adds the DLQ note; a lost note is ignored. */
    method BuryTables(key: Key, reason: string, now: int) returns (ok: bool)
      modifies db`kv, db`idx
      ensures ok ==> db.idx == if key in old(db.idx) then old(db.idx)[key := BuryRow(old(db.idx)[key])] else old(db.idx)
      ensures ok ==> db.kv == Noted(old(db.kv), key, reason, now) || (db.faulty && db.kv == old(db.kv))
      ensures !db.faulty ==> ok
    {
      ok := db.UpdateIdxAt(key, (_: Row) => true, (r: Row) => r.(state := Dlq, leaseUntil := None));
      if ok {
        var noted := db.UpdateKv(key, (e: Envelope) => e.(dlq := Some(DlqNote(reason, now))));
      }
    }

    method RequeueTables(key: Key, now: int) returns (ok: bool)
      requires key in db.idx
      modifies db`idx
      ensures db.idx == if ok then old(db.idx)[key := RequeueRow(old(db.idx)[key], now)] else old(db.idx)
      ensures !db.faulty ==> ok
    {
      ok := db.UpdateIdxAt(key, (_: Row) => true,
                           (r: Row) => r.(state := Ready, leaseUntil := None, availableAt := now));
    }

    /** Marks the row ready and removes the DLQ note; a lost edit is ignored. */
    method ReviveTables(key: Key, now: int) returns (ok: bool)
      requires key in db.idx
      modifies db`kv, db`idx
      ensures ok ==> db.idx == old(db.idx)[key := ReviveRow(old(db.idx)[key], now)]
      ensures ok ==> db.kv == Unnoted(old(db.kv), key) || (db.faulty && db.kv == old(db.kv))
      ensures !db.faulty ==> ok
    {
      ok := db.UpdateIdxAt(key, (_: Row) => true,
                           (r: Row) => r.(state := Ready, leaseUntil := None, availableAt := now, attempt := 0));
      if ok {
        var noted := db.UpdateKv(key, (e: Envelope) => e.(dlq := None, attempt := 0));
      }
    }

    /** Without failures it ends as Nacked says. A commit that fails after the payload was moved leaves the message
        inflight with its payload in dlq; a rename that fails leaves it dead with its payload in active. */
    method NackMessage(lease: LeaseToken, reason: string, requeue: bool, now: int) returns (ok: bool)
      requires Valid()
      modifies this, db
      ensures Valid()
      ensures ok ==> IsInflight(old(db.idx), lease.messageKey)
      ensures ok ==>
        var key, h := lease.messageKey, old(Content());
        var done, tables := Nacked(h, key, reason, requeue, now), Buried(h, key, reason, now);
        || Content() == done
        || (db.faulty && Content() == done.(kv := h.kv))
        || (faultyFiles && !requeue && Content() == tables)
        || (db.faulty && faultyFiles && !requeue && Content() == tables.(kv := h.kv))
      ensures !ok && Content() != old(Content()) ==>
        && db.faulty && !requeue && IsInflight(old(db.idx), lease.messageKey)
        && Content() == FileBuried(old(Content()), lease.messageKey)
      ensures !db.faulty ==> ok == IsInflight(old(db.idx), lease.messageKey)
      ensures Left(|old(trace)|, old(Content()), now, Nack(lease.messageKey, reason, requeue))
    {
      hide Left, MayLeave, RequeueRow, BuryRow, Noted, Put, Taken, Nacked, FileBuried, Buried;
      var key := lease.messageKey;
      ghost var n, h, op := |trace|, Content(), Nack(key, reason, requeue);
      NothingLeft(h, now, op);
      NackLeaves(h, key, reason, requeue, now, MayFail());
      ok := db.Begin();
      if !ok { return; }
      var found := db.SelectIdx(key, (r: Row) => r.state == Inflight);
      if !found {
        db.Rollback();
        return false;
      }
      if requeue {
        ok := RequeueTables(key, now);
        if !ok {
          db.Rollback();
          return;
        }
      } else {
        ok := BuryTables(key, reason, now);
        if !ok {
          db.Rollback();
          return;
        }
        Mark(n, h, now, op);
        MoveToDlqDir(key);
      }
      ok := CommitOrRollback(n, h, now, op);
    }

    lemma NackLeaves(h: Store, k: Key, reason: string, requeue: bool, now: int, t: Failures)
      ensures MayLeave(h, now, Nack(k, reason, requeue), t, h)
      ensures !IsInflight(h.idx, k) ==> Nacked(h, k, reason, requeue, now) == h
      ensures IsInflight(h.idx, k) && requeue ==>
        var s := h.(idx := h.idx[k := RequeueRow(h.idx[k], now)]);
        Nacked(h, k, reason, requeue, now) == s && MayLeave(h, now, Nack(k, reason, requeue), t, s)
      ensures IsInflight(h.idx, k) && !requeue ==>
        var moved := h.(active := Taken(h.active, k), dlq := Put(h.dlq, h.active, k));
        var s := moved.(kv := Noted(h.kv, k, reason, now), idx := h.idx[k := BuryRow(h.idx[k])]);
        var tables := h.(kv := Noted(h.kv, k, reason, now), idx := h.idx[k := BuryRow(h.idx[k])]);
        && Buried(h, k, reason, now) == tables
        && (t.files ==> MayLeave(h, now, Nack(k, reason, requeue), t, tables))
        && (t.files && t.statements ==> MayLeave(h, now, Nack(k, reason, requeue), t, tables.(kv := h.kv)))
        && FileBuried(h, k) == moved && MayLeave(h, now, Nack(k, reason, requeue), t, moved)
        && Nacked(h, k, reason, requeue, now) == s && MayLeave(h, now, Nack(k, reason, requeue), t, s)
        && (t.statements ==> MayLeave(h, now, Nack(k, reason, requeue), t, s.(kv := h.kv)))
    {
      hide Taken, Put, Noted, BuryRow, RequeueRow;
    }

    /** An UPDATE outside any transaction; it reports success when no row matched. */
    method ExtendLeaseOf(lease: LeaseToken, visibilitySec: int, now: int) returns (ok: bool)
      requires Valid()
      modifies db
      ensures Valid()
      ensures ok ==> Content() == Apply(old(Content()), now, ExtendLease(lease.messageKey, visibilitySec))
      ensures !ok ==> Content() == old(Content())
      ensures !db.faulty ==> ok
    {
      ok := db.UpdateIdxAt(lease.messageKey,
                           (r: Row) => r.state == Inflight && r.leaseUntil.Some? && r.leaseUntil.value > now,
                           (r: Row) => r.(leaseUntil := Some(now + visibilitySec * 1000)));
    }

    method RecoverExpiredLeases(now: int) returns (ok: bool, count: nat)
      requires Valid()
      modifies db
      ensures Valid()
      ensures !db.faulty ==>
        ok && Content() == Apply(old(Content()), now, RecoverExpired) && count == |ExpiredKeys(old(db.idx), now)|
      ensures ok && count > 0 ==>
        Content() == Apply(old(Content()), now, RecoverExpired) && count == |ExpiredKeys(old(db.idx), now)|
      ensures !ok || count == 0 ==> count == 0 && Content() == old(Content())
    {
      var rows := set k | k in db.idx && db.idx[k].state == Inflight
                          && db.idx[k].leaseUntil.Some? && db.idx[k].leaseUntil.value < now;
      assert rows == ExpiredKeys(db.idx, now);
      count := |rows|;
      var unread := Fault(db.faulty);
      if unread {
        return true, 0;
      }
      if count == 0 {
        assert forall k :: k in db.idx && Expired(db.idx[k], now) ==> k in ExpiredKeys(db.idx, now);
        assert db.idx == Apply(Content(), now, RecoverExpired).idx;
        return true, 0;
      }
      var changes;
      ok, changes := db.UpdateIdxWhere(
        (_: Key, r: Row) => r.state == Inflight && r.leaseUntil.Some? && r.leaseUntil.value < now,
        (r: Row) => r.(state := Ready, leaseUntil := None, availableAt := now));
      if !ok {
        count := 0;
      }
    }

    method ProcessDelayedMessages(now: int) returns (ok: bool, count: nat)
      requires Valid()
      modifies db
      ensures Valid()
      ensures !db.faulty ==>
        ok && Content() == Apply(old(Content()), now, ProcessDelayed) && count == |PromotableKeys(old(db.idx), now)|
      ensures ok && count > 0 ==>
        Content() == Apply(old(Content()), now, ProcessDelayed) && count == |PromotableKeys(old(db.idx), now)|
      ensures !ok || count == 0 ==> count == 0 && Content() == old(Content())
    {
      var rows := set k | k in db.idx && db.idx[k].state == Delayed && db.idx[k].availableAt <= now;
      assert rows == PromotableKeys(db.idx, now);
      count := |rows|;
      var unread := Fault(db.faulty);
      if unread {
        return true, 0;
      }
      if count == 0 {
        assert forall k :: k in db.idx && Promotable(db.idx[k], now) ==> k in PromotableKeys(db.idx, now);
        assert db.idx == Apply(Content(), now, ProcessDelayed).idx;
        return true, 0;
      }
      var changes;
      ok, changes := db.UpdateIdxWhere((_: Key, r: Row) => r.state == Delayed && r.availableAt <= now,
                                       (r: Row) => r.(state := Ready));
      if !ok {
        count := 0;
      }
    }

    /** One entry for every expired lease, none twice. */
    method GetExpiredInflightMessages(now: int) returns (ok: bool, expired: seq<ExpiredLease>)
      ensures ok ==> forall k :: k in db.idx && Expired(db.idx[k], now) ==>
        ExpiredLease(k, db.idx[k].attempt) in expired
      ensures forall e :: e in expired ==>
        e.key in db.idx && Expired(db.idx[e.key], now) && e.attempt == db.idx[e.key].attempt
      ensures forall i, j :: 0 <= i < j < |expired| ==> expired[i].key != expired[j].key
      ensures !db.faulty ==> ok
    {
      expired := [];
      var fails := Fault(db.faulty);
      ok := !fails;
      if fails { return; }
      var rows := set k | k in db.idx && db.idx[k].state == Inflight
                          && db.idx[k].leaseUntil.Some? && db.idx[k].leaseUntil.value < now;
      ghost var all := rows;
      while rows != {}
        invariant rows <= all
        invariant forall k :: k in all - rows ==> ExpiredLease(k, db.idx[k].attempt) in expired
        invariant forall e :: e in expired ==> e.key in all - rows && e.attempt == db.idx[e.key].attempt
        invariant forall i, j :: 0 <= i < j < |expired| ==> expired[i].key != expired[j].key
        decreases rows
      {
        var k :| k in rows;
        rows := rows - {k};
        expired := expired + [ExpiredLease(k, db.idx[k].attempt)];
      }
    }

    method Delay(key: Key, delayMs: int, now: int) returns (ok: bool)
      requires Valid()
      modifies db
      ensures Valid()
      ensures ok ==> Content() == Apply(old(Content()), now, DelayMessage(key, delayMs))
      ensures !ok ==> Content() == old(Content())
      ensures !db.faulty ==> ok
    {
      var state := if delayMs > 0 then Delayed else Ready;
      ok := db.UpdateIdxAt(key, (_: Row) => true,
                           (r: Row) => r.(state := state, leaseUntil := None, availableAt := now + delayMs));
    }

    /** Without failures it ends as MovedToDlq says. Where the row cannot be read, or the rename fails, the payload
        stays in active. */
    method Bury(key: Key, reason: string, now: int) returns (ok: bool)
      requires Valid()
      modifies this, db
      ensures Valid()
      ensures ok ==>
        var done := MovedToDlq(old(Content()), key, reason, now);
        || Content() == done
        || (db.faulty && Content() == done.(kv := old(db.kv)))
        || ((db.faulty || faultyFiles) && key in old(db.idx) && Content() == Buried(old(Content()), key, reason, now))
        || (db.faulty && key in old(db.idx) && Content() == Buried(old(Content()), key, reason, now).(kv := old(db.kv)))
      ensures !ok ==> Content() == old(Content())
      ensures !db.faulty ==> ok
      ensures Left(|old(trace)|, old(Content()), now, MoveToDlq(key, reason))
    {
      hide Left, MayLeave, BuryRow, Noted, Put, Taken, MovedToDlq, Buried;
      ghost var n, h, op := |trace|, Content(), MoveToDlq(key, reason);
      NothingLeft(h, now, op);
      BuryLeaves(h, key, reason, now, MayFail());
      ok := db.Begin();
      if !ok { return; }
      var found := db.SelectIdx(key, (_: Row) => true);
      ok := BuryTables(key, reason, now);
      if !ok {
        db.Rollback();
        return;
      }
      ok := CommitOrRollback(n, h, now, op);
      if !ok { return; }
      if found {
        MoveToDlqDir(key);
        Mark(n, h, now, op);
      }
    }

    lemma BuryLeaves(h: Store, k: Key, reason: string, now: int, t: Failures)
      ensures MayLeave(h, now, MoveToDlq(k, reason), t, h)
      ensures k !in h.idx ==>
        var s := h.(kv := Noted(h.kv, k, reason, now));
        MovedToDlq(h, k, reason, now) == s && MayLeave(h, now, MoveToDlq(k, reason), t, s)
      ensures k in h.idx ==>
        var tables := h.(kv := Noted(h.kv, k, reason, now), idx := h.idx[k := BuryRow(h.idx[k])]);
        var s := tables.(active := Taken(h.active, k), dlq := Put(h.dlq, h.active, k));
        && Buried(h, k, reason, now) == tables && MayLeave(h, now, MoveToDlq(k, reason), t, tables)
        && MovedToDlq(h, k, reason, now) == s && MayLeave(h, now, MoveToDlq(k, reason), t, s)
        && (t.statements ==> MayLeave(h, now, MoveToDlq(k, reason), t, tables.(kv := h.kv)))
        && (t.statements ==> MayLeave(h, now, MoveToDlq(k, reason), t, s.(kv := h.kv)))
    {
      hide Taken, Put, Noted, BuryRow;
    }

    method ReprocessDlqMessage(key: Key, now: int) returns (ok: bool)
      requires Valid()
      modifies this, db
      ensures Valid()
      ensures ok ==> IsDlq(old(db.idx), key)
      ensures ok ==>
        var h := old(Content());
        var done, tables := Reprocessed(h, key, now), Revived(h, key, now);
        || Content() == done
        || (db.faulty && Content() == done.(kv := h.kv))
        || (faultyFiles && Content() == tables)
        || (db.faulty && faultyFiles && Content() == tables.(kv := h.kv))
      ensures !ok ==> Content() == old(Content())
      ensures !db.faulty ==> ok == IsDlq(old(db.idx), key)
      ensures Left(|old(trace)|, old(Content()), now, Reprocess(key))
    {
      hide Left, MayLeave, ReviveRow, Unnoted, Put, Taken, Reprocessed, Revived;
      ghost var n, h, op := |trace|, Content(), Reprocess(key);
      NothingLeft(h, now, op);
      ReprocessLeaves(h, key, now, MayFail());
      ok := db.Begin();
      if !ok { return; }
      var found := db.SelectIdx(key, (r: Row) => r.state == Dlq);
      if !found {
        db.Rollback();
        return false;
      }
      ok := ReviveTables(key, now);
      if !ok {
        db.Rollback();
        return;
      }
      ok := CommitOrRollback(n, h, now, op);
      if !ok { return; }
      MoveBackToActive(key);
      Mark(n, h, now, op);
    }

    lemma ReprocessLeaves(h: Store, k: Key, now: int, t: Failures)
      ensures MayLeave(h, now, Reprocess(k), t, h)
      ensures IsDlq(h.idx, k) ==>
        var tables := h.(kv := Unnoted(h.kv, k), idx := h.idx[k := ReviveRow(h.idx[k], now)]);
        var s := tables.(dlq := Taken(h.dlq, k), active := Put(h.active, h.dlq, k));
        && Revived(h, k, now) == tables && MayLeave(h, now, Reprocess(k), t, tables)
        && Reprocessed(h, k, now) == s && MayLeave(h, now, Reprocess(k), t, s)
        && (t.statements ==> MayLeave(h, now, Reprocess(k), t, tables.(kv := h.kv)))
        && (t.statements ==> MayLeave(h, now, Reprocess(k), t, s.(kv := h.kv)))
    {
      hide Taken, Put, Unnoted, ReviveRow;
    }

    /** rename; the callers ignore its failure, on a missing source or otherwise. */
    method MoveToArchive(key: Key)
      modifies this`active, this`archive
      ensures || (active == Taken(old(active), key) && archive == Put(old(archive), old(active), key))
              || (faultyFiles && active == old(active) && archive == old(archive))
    {
      var fails := Fault(faultyFiles);
      if key in active && !fails {
        archive := archive[key := active[key]];
        active := active - {key};
      }
    }

    /** Skipped when the dlq directory does not hold the file. */
    method MoveBackToActive(key: Key)
      modifies this`active, this`dlqFiles
      ensures || (dlqFiles == Taken(old(dlqFiles), key) && active == Put(old(active), old(dlqFiles), key))
              || (faultyFiles && active == old(active) && dlqFiles == old(dlqFiles))
    {
      var fails := Fault(faultyFiles);
      if key in dlqFiles && !fails {
        active := active[key := dlqFiles[key]];
        dlqFiles := dlqFiles - {key};
      }
    }

    method MoveToDlqDir(key: Key)
      modifies this`active, this`dlqFiles
      ensures || (active == Taken(old(active), key) && dlqFiles == Put(old(dlqFiles), old(active), key))
              || (faultyFiles && active == old(active) && dlqFiles == old(dlqFiles))
    {
      var fails := Fault(faultyFiles);
      if key in active && !fails {
        dlqFiles := dlqFiles[key := active[key]];
        active := active - {key};
      }
    }

    /** Reports the candidates that are not expected: a file listed without row, a row without file, or an
        archived file that is not recent. */
    static method AddIssues(report: Report, candidates: set<Key>, expected: set<Key>, kind: IssueKind, place: Place)
      returns (extended: Report)
      requires kind != InvalidState
      requires Tallied(report)
      requires forall k :: k in candidates ==> Issue(kind, k, place) !in report.issues
      requires NoTwice(report.issues)
      ensures Tallied(extended) && NoTwice(extended.issues)
      ensures forall i :: i in extended.issues <==>
        i in report.issues || Unexpected(i, candidates, expected, kind, place)
    {
      extended := report;
      var rest := candidates;
      while rest != {}
        invariant rest <= candidates
        invariant Tallied(extended) && NoTwice(extended.issues)
        invariant forall i :: i in extended.issues <==>
          i in report.issues || (i.kind == kind && i.place == place && i.key in candidates - rest && i.key !in expected)
        decreases rest
      {
        var k :| k in rest;
        rest := rest - {k};
        if k !in expected {
          var issues := extended.issues + [Issue(kind, k, place)];
          assert issues[..|issues| - 1] == extended.issues;
          if kind == OrphanPayload {
            extended := extended.(orphanPayloads := extended.orphanPayloads + 1, issues := issues);
          } else if kind == MissingPayload {
            extended := extended.(missingPayloads := extended.missingPayloads + 1, issues := issues);
          } else {
            extended := extended.(staleArchives := extended.staleArchives + 1, issues := issues);
          }
        }
      }
    }

    /** The queues found in the index and on disk, fewer when looking them up fails. */
    method GetAllQueues() returns (queues: set<string>)
      ensures queues <= AllQueues()
      ensures Reliable() ==> queues == AllQueues()
    {
      var noRows := Fault(db.faulty);
      var noFiles := Fault(faultyFiles);
      queues := (if noRows then {} else set k | k in db.idx :: k.queue)
              + (if noFiles then {} else (set k | k in active.Keys + dlqFiles.Keys + archive.Keys :: k.queue));
    }

    /** All queues that have a row or a payload directory entry. */
    function AllQueues(): set<string>
      reads this, db
    {
      (set k | k in db.idx :: k.queue) + (set k | k in active.Keys + dlqFiles.Keys + archive.Keys :: k.queue)
    }

    /** A report of the kind may be mistaken: about a payload when its row was not read, about a row when its
        payload was not listed. */
    predicate MayMistake(kind: IssueKind) {
      (db.faulty && kind == OrphanPayload) || (faultyFiles && kind == MissingPayload)
    }

    /** The comparisons of one queue, in the order they are reported. When the first query fails the queue is
        skipped; when one of the others or a listing fails, its rows or files count as absent. */
    method CheckQueue(before: Report, q: string, stale: set<Key>) returns (report: Report)
      requires Tallied(before) && NoTwice(before.issues)
      requires forall i :: i in before.issues ==> i.key.queue != q
      ensures Tallied(report) && NoTwice(report.issues)
      ensures forall i :: i in report.issues ==> i in before.issues || i.key.queue == q
      ensures forall i :: i in report.issues ==>
        i in before.issues || MayMistake(i.kind) || Reportable(Content(), "", stale, i)
      ensures Reliable() ==>
        forall i :: i in report.issues <==>
          i in before.issues || (i.key.queue == q && Reportable(Content(), "", stale, i))
    {
      hide Tallied, NoTwice, Found, Reportable;
      var skipped := Fault(db.faulty);
      if skipped {
        return before;
      }
      var noActiveRows := Fault(db.faulty);
      var noDeadRows := Fault(db.faulty);
      var noActiveFiles := Fault(faultyFiles);
      var noDeadFiles := Fault(faultyFiles);
      var noArchive := Fault(faultyFiles);
      var activeRows := if noActiveRows then {} else RowsOf(q, false);
      var deadRows := if noDeadRows then {} else RowsOf(q, true);
      var activeIds := if noActiveFiles then {} else FilesOf(q, Active);
      var dlqIds := if noDeadFiles then {} else FilesOf(q, DlqDir);
      var staleIds := if noArchive then {} else FilesOf(q, ArchiveDir) * stale;
      report := CompareQueue(before, q, activeRows, deadRows, activeIds, dlqIds, staleIds);
      forall i
        ensures Found(i, activeRows, deadRows, activeIds, dlqIds, staleIds) ==>
          i.key.queue == q && (MayMistake(i.kind) || Reportable(Content(), "", stale, i))
        ensures Reliable() && i.key.queue == q && Reportable(Content(), "", stale, i) ==>
          Found(i, activeRows, deadRows, activeIds, dlqIds, staleIds)
      {
        FoundIsReportable(q, stale, i, activeRows, deadRows, activeIds, dlqIds, staleIds);
      }
    }

    lemma FoundIsReportable(q: string, stale: set<Key>, i: Issue, activeRows: set<Key>, deadRows: set<Key>,
                            activeIds: set<Key>, dlqIds: set<Key>, staleIds: set<Key>)
      requires activeRows == RowsOf(q, false) || (db.faulty && activeRows == {})
      requires deadRows == RowsOf(q, true) || (db.faulty && deadRows == {})
      requires activeIds == FilesOf(q, Active) || (faultyFiles && activeIds == {})
      requires dlqIds == FilesOf(q, DlqDir) || (faultyFiles && dlqIds == {})
      requires staleIds == FilesOf(q, ArchiveDir) * stale || (faultyFiles && staleIds == {})
      ensures Found(i, activeRows, deadRows, activeIds, dlqIds, staleIds) ==>
        i.key.queue == q && (MayMistake(i.kind) || Reportable(Content(), "", stale, i))
      ensures Reliable() && i.key.queue == q && Reportable(Content(), "", stale, i) ==>
        Found(i, activeRows, deadRows, activeIds, dlqIds, staleIds)
    {
    }

    function FilesOf(q: string, place: Place): set<Key>
      reads this, db
    {
      set k | k in FileAt(Content(), place) && k.queue == q
    }

    function RowsOf(q: string, dead: bool): set<Key>
      reads db
    {
      set k | k in db.idx && k.queue == q && (db.idx[k].state == Dlq) == dead
    }

    /** What the comparisons find for given rows and listings. */
    static predicate Found(i: Issue, activeRows: set<Key>, deadRows: set<Key>, activeIds: set<Key>, dlqIds: set<Key>,
                           staleIds: set<Key>) {
      match (i.kind, i.place)
      case (OrphanPayload, Active) => i.key in activeIds && i.key !in activeRows
      case (OrphanPayload, DlqDir) => i.key in dlqIds && i.key !in deadRows
      case (MissingPayload, Active) => i.key in activeRows && i.key !in activeIds
      case (MissingPayload, DlqDir) => i.key in deadRows && i.key !in dlqIds
      case (StaleArchive, ArchiveDir) => i.key in staleIds
      case _ => false
    }

    static method CompareQueue(before: Report, q: string,
                               activeRows: set<Key>, deadRows: set<Key>, activeIds: set<Key>, dlqIds: set<Key>,
                               staleIds: set<Key>)
      returns (report: Report)
      requires Tallied(before) && NoTwice(before.issues)
      requires forall i :: i in before.issues ==> i.key.queue != q
      requires forall k :: k in activeRows + deadRows + activeIds + dlqIds + staleIds ==> k.queue == q
      ensures Tallied(report) && NoTwice(report.issues)
      ensures forall i ::
        i in report.issues <==> i in before.issues || Found(i, activeRows, deadRows, activeIds, dlqIds, staleIds)
    {
      var one := AddIssues(before, activeIds, activeRows, OrphanPayload, Active);
      var two := AddIssues(one, dlqIds, deadRows, OrphanPayload, DlqDir);
      var three := AddIssues(two, activeRows, activeIds, MissingPayload, Active);
      var four := AddIssues(three, deadRows, dlqIds, MissingPayload, DlqDir);
      report := AddIssues(four, staleIds, {}, StaleArchive, ArchiveDir);
      forall i
        ensures i in report.issues <==>
          i in before.issues || Found(i, activeRows, deadRows, activeIds, dlqIds, staleIds)
      {
        assert i in four.issues <==> i in three.issues || Unexpected(i, deadRows, dlqIds, MissingPayload, DlqDir);
        assert i in three.issues <==> i in two.issues || Unexpected(i, activeRows, activeIds, MissingPayload, Active);
        assert i in two.issues <==> i in one.issues || Unexpected(i, dlqIds, deadRows, OrphanPayload, DlqDir);
      }
    }

    /** The report holds exactly the issues of the current state, each once, and its counters are their numbers. The
        archived files past their retention period, by clock and file times, are given.
        With failing queries or listings it may miss issues, and its mistakes are of one kind each. */
    method CheckConsistency(queue: string, stale: set<Key>) returns (report: Report)
      ensures NoTwice(report.issues) && Tallied(report)
      ensures Reliable() ==> forall i :: i in report.issues <==> Reportable(Content(), queue, stale, i)
      ensures forall i :: i in report.issues ==>
        InScope(queue, i.key) && (MayMistake(i.kind) || Reportable(Content(), queue, stale, i))
    {
      hide Tallied, NoTwice;
      report := Report(0, 0, 0, []);
      var queues := {queue};
      if queue == "" {
        queues := GetAllQueues();
      }
      ghost var all := queues;
      NothingReported();
      while queues != {}
        invariant queues <= all
        invariant Tallied(report) && NoTwice(report.issues)
        invariant forall i :: i in report.issues ==> i.key.queue in all - queues
        invariant forall i :: i in report.issues ==> MayMistake(i.kind) || Reportable(Content(), "", stale, i)
        invariant Reliable() ==>
          forall i: Issue :: i.key.queue in all - queues && Reportable(Content(), "", stale, i) ==> i in report.issues
        decreases queues
      {
        var q :| q in queues;
        queues := queues - {q};
        report := CheckQueue(report, q, stale);
      }
      forall i | Reportable(Content(), queue, stale, i)
        ensures Reliable() ==> i.key.queue in all
      {
      }
    }

    lemma NothingReported()
      ensures Tallied(Report(0, 0, 0, [])) && NoTwice([])
    {
    }

    /** Applies every issue of any report in order; when one fails the others are still applied. */
    method RepairConsistency(report: Report, now: int) returns (repaired: nat)
      requires Valid()
      modifies this`active, this`dlqFiles, this`archive, db
      ensures Valid()
      ensures Reliable() ==> Content() == RepairAll(old(Content()), report.issues, now)
      ensures Reliable() ==> repaired == Repairable(old(Content()), report.issues, now)
      ensures repaired <= |report.issues| && OnlyRepaired(old(Content()), Content(), now)
      ensures (forall i :: i in report.issues ==> SparesLive(i)) ==>
        active == old(active) && dlqFiles == old(dlqFiles)
    {
      hide OnlyRepaired, RepairOne;
      repaired := 0;
      var issues := report.issues;
      ghost var h := Content();
      NothingRepaired(h, now);
      var i := 0;
      while i < |issues|
        invariant 0 <= i <= |issues| && repaired <= i
        invariant Valid() && OnlyRepaired(h, Content(), now)
        invariant (forall j :: j in issues ==> SparesLive(j)) ==> active == h.active && dlqFiles == h.dlq
        invariant Reliable() ==> Content() == RepairAll(h, issues[..i], now)
        invariant Reliable() ==> repaired == Repairable(h, issues[..i], now)
        decreases |issues| - i
      {
        ghost var was := Content();
        assert issues[..i + 1][..i] == issues[..i];
        var done := RepairIssue(issues[i], now);
        RepairsCompose(h, was, Content(), now);
        if done {
          repaired := repaired + 1;
        }
        i := i + 1;
      }
      assert issues[..i] == issues;
    }

    /** One round of the loop; tells whether it counts as repaired. */
    method RepairIssue(issue: Issue, now: int) returns (done: bool)
      requires Valid()
      modifies this`active, this`dlqFiles, this`archive, db
      ensures Valid() && OnlyRepaired(old(Content()), Content(), now)
      ensures SparesLive(issue) ==> active == old(active) && dlqFiles == old(dlqFiles)
      ensures Reliable() ==> Content() == RepairOne(old(Content()), issue, now)
      ensures Reliable() ==> done == Repairs(old(Content()), issue)
    {
      hide OnlyRepaired;
      ghost var h := Content();
      NothingRepaired(h, now);
      match issue.kind {
        case OrphanPayload => done := RepairOrphan(issue, now);
        case MissingPayload =>
          if issue.key in h.idx {
            RowIsRepaired(h, issue.key, h.idx[issue.key].(state := Dlq), now);
          }
          done := db.UpdateIdxAt(issue.key, (_: Row) => true, (r: Row) => r.(state := Dlq));
        case StaleArchive =>
          FileIsRemoved(h, issue.place, issue.key, now);
          done := RemoveFile(issue.place, issue.key);
        case InvalidState =>
          if issue.key in h.idx {
            RowIsRepaired(h, issue.key, h.idx[issue.key].(state := Ready, availableAt := now), now);
          }
          done := db.UpdateIdxAt(issue.key, (_: Row) => true, (r: Row) => r.(state := Ready, availableAt := now));
      }
    }

    method RepairOrphan(issue: Issue, now: int) returns (done: bool)
      requires Valid() && issue.kind == OrphanPayload
      modifies db
      ensures Valid() && OnlyRepaired(old(Content()), Content(), now)
      ensures Reliable() ==> Content() == RepairOne(old(Content()), issue, now)
      ensures Reliable() ==> done == Repairs(old(Content()), issue)
    {
      hide OnlyRepaired;
      done := false;
      ghost var h := Content();
      NothingRepaired(h, now);
      var unread := Fault(faultyFiles);
      if issue.key in FileAt(Content(), issue.place) && !unread {
        EnvelopeIsFound(h, issue.key, now);
        var kvOk := db.InsertKvOrIgnore(issue.key, Envelope(0, 0, now, None));
        ghost var s := Content();
        assert OnlyRepaired(h, s, now);
        NothingRepaired(s, now);
        RowIsFound(s, issue.key, now);
        var idxOk := db.InsertIdxOrIgnore(issue.key, Row(Ready, 0, now, None, 0, ""));
        RepairsCompose(h, s, Content(), now);
        done := kvOk || idxOk;
      }
    }

    method RemoveFile(place: Place, key: Key) returns (ok: bool)
      modifies this`active, this`dlqFiles, this`archive
      ensures ok ==> key in FileAt(old(Content()), place)
      ensures Content() == if ok then Removed(old(Content()), place, key) else old(Content())
      ensures !faultyFiles ==> Content() == Removed(old(Content()), place, key)
      ensures !faultyFiles ==> ok == (key in FileAt(old(Content()), place))
    {
      var fails := Fault(faultyFiles);
      ok := key in FileAt(Content(), place) && !fails;
      if ok {
        match place {
          case Active => active := active - {key};
          case DlqDir => dlqFiles := dlqFiles - {key};
          case ArchiveDir => archive := archive - {key};
        }
      }
    }

    /** One check of a queue, or of all, and the repair of its report: one round, as the convergence lemmas
        count them. */
    method CheckAndRepair(queue: string, stale: set<Key>, now: int) returns (report: Report, repaired: nat)
      requires Valid()
      modifies this`active, this`dlqFiles, this`archive, db
      ensures Valid() && OnlyRepaired(old(Content()), Content(), now)
      ensures active == old(active) && dlqFiles == old(dlqFiles)
      ensures Reliable() ==> Content() == Cleared(RepairRound(old(Content()), queue, now), queue, stale)
    {
      ghost var h := Content();
      report := CheckConsistency(queue, stale);
      repaired := RepairConsistency(report, now);
      if Reliable() {
        hide RepairRound, RepairAll, Reportable, Cleared;
        RepairAllIsRound(h, queue, stale, report.issues, now);
      }
    }
  }
}
