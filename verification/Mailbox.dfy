/**
 MailboxHandler: request files travel requests -> processing -> removed or dead. One worker
 thread handles them one at a time while clients create files, the folder watcher and the
 startup listing queue file names (possibly twice, possibly of files that are gone), and a
 cleanup thread moves stale files away without taking the processing mutex.
 */
module Mailbox {
  datatype Command =
    | Unknown | Publish | ConsumeNext | Ack | Nack | ExtendLease | Status | Health | Metrics | ListDlq | ReprocessDlq

  datatype ErrorCode =
    | InvalidRequest | UnknownCommand | QueueNotFound | MessageNotFound | LeaseExpired | LeaseMismatch
    | InternalError | Timeout | ParseError | ValidationFailed | DlqNotFound

  datatype Response = Success | Failure(code: ErrorCode)

  datatype Request = Request(command: Command, deadlineMs: int)

  /** What a request file holds. */
  datatype Content = Malformed | WellFormed(request: Request)

  predicate PastDeadline(r: Request, now: int) {
    r.deadlineMs > 0 && now > r.deadlineMs
  }

  // ---------------------------------------------------------------------------------------
  // Counters
  // ---------------------------------------------------------------------------------------

  datatype Counters = Counters(
    totalRequests: nat, successCount: nat, errorCount: nat,
    publishCount: nat, consumeCount: nat, ackCount: nat, nackCount: nat,
    statusCount: nat, healthCount: nat, dlqCount: nat,
    parseErrors: nat, validationErrors: nat, timeoutErrors: nat, internalErrors: nat)

  const ZERO := Counters(0, 0, 0, 0, 0, 0, 0, 0, 0, 0, 0, 0, 0, 0)

  function CountError(m: Counters, code: ErrorCode): Counters {
    if code.ParseError? || code.InvalidRequest? then m.(parseErrors := m.parseErrors + 1)
    else if code.ValidationFailed? then m.(validationErrors := m.validationErrors + 1)
    else if code.Timeout? then m.(timeoutErrors := m.timeoutErrors + 1)
    else m.(internalErrors := m.internalErrors + 1)
  }

  function CountCommand(m: Counters, c: Command): Counters {
    match c
    case Publish => m.(publishCount := m.publishCount + 1)
    case ConsumeNext => m.(consumeCount := m.consumeCount + 1)
    case Ack => m.(ackCount := m.ackCount + 1)
    case Nack => m.(nackCount := m.nackCount + 1)
    case Status => m.(statusCount := m.statusCount + 1)
    case Health => m.(healthCount := m.healthCount + 1)
    case ListDlq => m.(dlqCount := m.dlqCount + 1)
    case ReprocessDlq => m.(dlqCount := m.dlqCount + 1)
    case _ => m
  }

  function CountResult(m: Counters, r: Response): Counters {
    match r
    case Success => m.(successCount := m.successCount + 1)
    case Failure(code) => CountError(m.(errorCount := m.errorCount + 1), code)
  }

  function CountRequest(m: Counters, c: Command, r: Response): Counters {
    CountCommand(CountResult(m.(totalRequests := m.totalRequests + 1), r), c)
  }

  // ---------------------------------------------------------------------------------------
  // The protocol
  // ---------------------------------------------------------------------------------------

  /** How far the worker thread is with one request. */
  datatype Phase =
    | Waiting
    | Claimed(name: string)
    | Broken(name: string)
    | Parsed(name: string, request: Request)
    | Late(name: string, request: Request)
    | Buried(name: string, request: Request)
    | Cleared(name: string, request: Request, checkedAt: int)
    | Answered(name: string, request: Request, response: Response)
    | Recorded(name: string)

  datatype Outcome = Executed(response: Response) | Expired

  /** One request whose handler ran, or whose deadline was found passed at time at. */
  datatype Done = Done(name: string, request: Request, at: int, outcome: Outcome)

  datatype State = State(
    contents: map<string, Content>,
    requests: set<string>, processing: set<string>, dead: set<string>, removed: set<string>,
    pending: seq<string>, batch: seq<string>,
    worker: Phase,
    counters: Counters,
    history: seq<Done>, since: nat)

  const START := State(map[], {}, {}, {}, {}, [], [], Waiting, ZERO, [], 0)

  datatype Action =
    | Submit(file: string, content: Content)
    | Notify(file: string)
    | Drain
    | Poll(files: seq<string>)
    | DropBatch
    | Take(ok: bool)
    | Read(ok: bool)
    | BuryBroken(ok: bool)
    | CheckDeadline(now: int)
    | BuryLate(ok: bool)
    | Handle(answer: Response)
    | Record
    | Delete(ok: bool)
    | Stale(file: string, ok: bool)
    | Restart(keepPending: bool)

  /** Request files are uniquely named; no handler answers with the timeout code. */
  predicate Enabled(s: State, a: Action) {
    match a
    case Submit(file, _) => file !in s.contents
    case Notify(_) => true
    case Drain => s.worker.Waiting? && s.batch == []
    case Poll(_) => s.worker.Waiting? && s.batch == []
    case DropBatch => s.worker.Waiting?
    case Take(_) => s.worker.Waiting? && s.batch != []
    case Read(_) => s.worker.Claimed?
    case BuryBroken(_) => s.worker.Broken?
    case CheckDeadline(_) => s.worker.Parsed?
    case BuryLate(_) => s.worker.Late?
    case Handle(answer) => s.worker.Cleared? && answer != Failure(Timeout)
    case Record => s.worker.Buried? || s.worker.Answered?
    case Delete(_) => s.worker.Recorded?
    case Stale(file, _) => file in s.processing
    case Restart(_) => true
  }

  function Kill(s: State, file: string, ok: bool): State {
    if ok && file in s.processing then s.(processing := s.processing - {file}, dead := s.dead + {file}) else s
  }

  function Apply(s: State, a: Action): State
    requires Enabled(s, a)
  {
    match a
    case Submit(file, content) => s.(contents := s.contents[file := content], requests := s.requests + {file})
    case Notify(file) => s.(pending := s.pending + [file])
    case Drain => s.(batch := s.pending, pending := [])
    case Poll(files) => s.(batch := files)
    case DropBatch => s.(batch := [])
    case Take(ok) =>
      var file, rest := s.batch[0], s.(batch := s.batch[1..]);
      if ok && file in s.requests
      then rest.(requests := s.requests - {file}, processing := s.processing + {file}, worker := Claimed(file))
      else rest
    case Read(ok) =>
      var file := s.worker.name;
      if ok && file in s.processing && file in s.contents && s.contents[file].WellFormed?
      then s.(worker := Parsed(file, s.contents[file].request))
      else s.(worker := Broken(file))
    case BuryBroken(ok) => Kill(s, s.worker.name, ok).(worker := Waiting)
    case CheckDeadline(now) =>
      var file, r := s.worker.name, s.worker.request;
      if PastDeadline(r, now)
      then s.(worker := Late(file, r), history := s.history + [Done(file, r, now, Expired)])
      else s.(worker := Cleared(file, r, now))
    case BuryLate(ok) => Kill(s, s.worker.name, ok).(worker := Buried(s.worker.name, s.worker.request))
    case Handle(answer) =>
      s.(worker := Answered(s.worker.name, s.worker.request, answer),
         history := s.history + [Done(s.worker.name, s.worker.request, s.worker.checkedAt, Executed(answer))])
    case Record =>
      if s.worker.Answered?
      then s.(counters := CountRequest(s.counters, s.worker.request.command, s.worker.response),
              worker := Recorded(s.worker.name))
      else s.(counters := CountRequest(s.counters, s.worker.request.command, Failure(Timeout)), worker := Waiting)
    case Delete(ok) =>
      var file := s.worker.name;
      if ok && file in s.processing
      then s.(processing := s.processing - {file}, removed := s.removed + {file}, worker := Waiting)
      else s.(worker := Waiting)
    case Stale(file, ok) => Kill(s, file, ok)
    case Restart(keep) =>
      s.(pending := if keep then s.pending else [], batch := [], worker := Waiting, counters := ZERO,
         since := |s.history|)
  }

  ghost predicate Run(states: seq<State>, actions: seq<Action>) {
    && |states| == |actions| + 1
    && states[0] == START
    && forall i :: 0 <= i < |actions| ==>
      Enabled(states[i], actions[i]) && states[i + 1] == Apply(states[i], actions[i])
  }

  /** What others may do at any point of a run: a client submits under a new name, the watcher notifies, the cleanup
      moves a file it finds in processing, and the process ends and starts again. */
  lemma OthersContinue(states: seq<State>, actions: seq<Action>, a: Action)
    requires Run(states, actions)
    requires a.Submit? || a.Notify? || a.Stale? || a.Restart?
    requires a.Submit? ==> a.file !in states[|actions|].contents
    requires a.Stale? ==> a.file in states[|actions|].processing
    ensures Enabled(states[|actions|], a) && Run(states + [Apply(states[|actions|], a)], actions + [a])
  {
    hide Apply;
  }

  /** And the worker, by how far it is: it takes a batch or the next file of it, reads, checks, buries, handles,
      records and deletes. */
  lemma WorkerContinues(states: seq<State>, actions: seq<Action>, a: Action)
    requires Run(states, actions)
    requires
      var s := states[|actions|];
      || (s.worker.Waiting? && s.batch == [] && (a.Drain? || a.Poll?))
      || (s.worker.Waiting? && s.batch != [] && (a.Take? || a.DropBatch?))
      || (s.worker.Claimed? && a.Read?)
      || (s.worker.Broken? && a.BuryBroken?)
      || (s.worker.Parsed? && a.CheckDeadline?)
      || (s.worker.Late? && a.BuryLate?)
      || (s.worker.Cleared? && a.Handle? && (a.answer.Failure? ==> !a.answer.code.Timeout?))
      || ((s.worker.Buried? || s.worker.Answered?) && a.Record?)
      || (s.worker.Recorded? && a.Delete?)
    ensures Enabled(states[|actions|], a) && Run(states + [Apply(states[|actions|], a)], actions + [a])
  {
    hide Apply;
  }

  /** A restart forgets the counters, the batch and, unless they were kept, the notifications; no file moves, and what
      was finished before stays in the history. */
  lemma RestartForgets(s: State, keep: bool)
    ensures
      var s' := Apply(s, Restart(keep));
      && s'.counters.totalRequests == 0 && s'.batch == [] && s'.worker.Waiting? && s'.since == |s'.history|
      && s'.pending == (if keep then s.pending else [])
      && s'.requests == s.requests && s'.processing == s.processing && s'.dead == s.dead && s'.removed == s.removed
      && s'.contents == s.contents && s'.history == s.history
  {
  }

  // ---------------------------------------------------------------------------------------
  // Where the files are
  // ---------------------------------------------------------------------------------------

  /** Every request is in exactly one of the four places, and nothing else is there. */
  predicate OnePlace(s: State) {
    && s.requests + s.processing + s.dead + s.removed == s.contents.Keys
    && s.requests !! s.processing && s.requests !! s.dead && s.requests !! s.removed
    && s.processing !! s.dead && s.processing !! s.removed && s.dead !! s.removed
  }

  predicate InHistory(s: State, name: string) {
    exists i :: 0 <= i < |s.history| && s.history[i].name == name
  }

  predicate Fits(s: State, d: Done) {
    && d.name in s.contents && d.name !in s.requests
    && s.contents[d.name] == WellFormed(d.request)
    && (d.outcome.Expired? <==> d.request.deadlineMs > 0 && d.at > d.request.deadlineMs)
  }

  /** Each request is finished at most once, after reading it and checking its deadline. */
  ghost predicate OnceEach(s: State) {
    && (forall i :: 0 <= i < |s.history| ==> Fits(s, s.history[i]))
    && (forall i, j :: 0 <= i < j < |s.history| ==> s.history[i].name != s.history[j].name)
  }

  /** A file is deleted only after its handler ran. */
  ghost predicate DeletedOnlyDone(s: State) {
    forall f :: f in s.removed ==>
      exists i :: 0 <= i < |s.history| && s.history[i].name == f && s.history[i].outcome.Executed?
  }

  /** What the worker holds in its hands. */
  ghost predicate InHand(s: State) {
    s.since <= |s.history| && Holds(s)
  }

  ghost predicate Holds(s: State) {
    match s.worker
    case Waiting => true
    case Claimed(name) => name in s.contents && name !in s.requests && !InHistory(s, name)
    case Broken(name) => true
    case Parsed(name, request) =>
      name in s.contents && name !in s.requests && !InHistory(s, name) && s.contents[name] == WellFormed(request)
    case Cleared(name, request, at) =>
      name in s.contents && name !in s.requests && !InHistory(s, name) && s.contents[name] == WellFormed(request)
      && !PastDeadline(request, at)
    case Late(name, request) => LastIs(s, name, request, Expired)
    case Buried(name, request) => LastIs(s, name, request, Expired)
    case Answered(name, request, response) => LastIs(s, name, request, Executed(response))
    case Recorded(name) =>
      exists i :: 0 <= i < |s.history| && s.history[i].name == name && s.history[i].outcome.Executed?
  }

  predicate LastIs(s: State, name: string, request: Request, outcome: Outcome) {
    && |s.history| > s.since
    && var last := s.history[|s.history| - 1];
       last.name == name && last.request == request && last.outcome == outcome
  }

  ghost predicate FilesSafe(s: State) {
    OnePlace(s) && OnceEach(s) && DeletedOnlyDone(s) && InHand(s)
  }

  lemma PlacesKept(s: State, a: Action)
    requires OnePlace(s) && InHand(s) && Enabled(s, a)
    ensures OnePlace(Apply(s, a))
  {
    hide InHistory, LastIs;
  }

  /** Adding one entry for a request that has none. */
  lemma FinishOne(s: State, s': State, d: Done)
    requires OnceEach(s) && DeletedOnlyDone(s) && !InHistory(s, d.name) && Fits(s, d)
    requires s'.contents == s.contents && s'.requests == s.requests && s'.removed == s.removed &&
      s'.history == s.history + [d]
    ensures OnceEach(s') && DeletedOnlyDone(s')
  {
    forall f | f in s'.removed
      ensures exists i :: 0 <= i < |s'.history| && s'.history[i].name == f && s'.history[i].outcome.Executed?
    {
      var i :| 0 <= i < |s.history| && s.history[i].name == f && s.history[i].outcome.Executed?;
      assert s'.history[i] == s.history[i];
    }
  }

  /** The history only matters through the files it speaks of. */
  lemma HistoryKept(s: State, s': State)
    requires OnceEach(s) && DeletedOnlyDone(s) && s'.history == s.history && s'.removed <= s.removed
    requires forall f :: f in s.contents ==> f in s'.contents && s'.contents[f] == s.contents[f]
    requires forall f :: f in s.contents && f in s'.requests ==> f in s.requests
    ensures OnceEach(s') && DeletedOnlyDone(s')
  {
  }

  lemma OnceKept(s: State, a: Action)
    requires FilesSafe(s) && Enabled(s, a)
    ensures OnceEach(Apply(s, a)) && DeletedOnlyDone(Apply(s, a))
  {
    var s' := Apply(s, a);
    match a
    case CheckDeadline(now) =>
      if PastDeadline(s.worker.request, now) {
        FinishOne(s, s', Done(s.worker.name, s.worker.request, now, Expired));
      }
    case Handle(answer) =>
      FinishOne(s, s', Done(s.worker.name, s.worker.request, s.worker.checkedAt, Executed(answer)));
    case _ =>
      // A deleted file is the one in hand, and its handler ran.
      HistoryKept(s, s'.(removed := s.removed));
  }

  lemma InHandKept(s: State, a: Action)
    requires FilesSafe(s) && Enabled(s, a)
    ensures InHand(Apply(s, a))
  {
    hide DeletedOnlyDone;
    var s' := Apply(s, a);
    if a.Take? && s'.worker.Claimed? {
      forall i | 0 <= i < |s.history|
        ensures s.history[i].name != s'.worker.name
      {
        assert Fits(s, s.history[i]);
      }
    }
    if a.Record? && s.worker.Answered? {
      assert s.history[|s.history| - 1].outcome.Executed?;
    }
  }

  // ---------------------------------------------------------------------------------------
  // What the counters count
  // ---------------------------------------------------------------------------------------

  /** What a counter is about. */
  datatype Kind =
    | Any
    | Ran
    | OutOfTime
    | Succeeded
    | Failed
    | FailedWith(codes: set<ErrorCode>)
    | FailedOtherwise(codes: set<ErrorCode>)
    | For(commands: set<Command>)

  function ResultOf(d: Done): Response {
    match d.outcome
    case Executed(r) => r
    case Expired => Failure(Timeout)
  }

  predicate Is(d: Done, kind: Kind) {
    match kind
    case Any => true
    case Ran => d.outcome.Executed?
    case OutOfTime => d.outcome.Expired?
    case Succeeded => ResultOf(d).Success?
    case Failed => ResultOf(d).Failure?
    case FailedWith(codes) => ResultOf(d).Failure? && ResultOf(d).code in codes
    case FailedOtherwise(codes) => ResultOf(d).Failure? && ResultOf(d).code !in codes
    case For(commands) => d.request.command in commands
  }

  function Count(log: seq<Done>, kind: Kind): nat {
    if log == [] then 0 else Count(log[..|log| - 1], kind) + if Is(log[|log| - 1], kind) then 1 else 0
  }

  const PARSE := FailedWith({ParseError, InvalidRequest})
  const VALIDATION := FailedWith({ValidationFailed})
  const TIMEOUT := FailedWith({Timeout})
  const INTERNAL := FailedOtherwise({ParseError, InvalidRequest, ValidationFailed, Timeout})

  /** Every counter is the number of finished requests of its kind. */
  ghost predicate Tally(m: Counters, log: seq<Done>) {
    && m.totalRequests == Count(log, Any)
    && m.successCount == Count(log, Succeeded)
    && m.errorCount == Count(log, Failed)
    && m.parseErrors == Count(log, PARSE)
    && m.validationErrors == Count(log, VALIDATION)
    && m.timeoutErrors == Count(log, TIMEOUT)
    && m.internalErrors == Count(log, INTERNAL)
    && CommandTally(m, log)
  }

  ghost predicate CommandTally(m: Counters, log: seq<Done>) {
    && m.publishCount == Count(log, For({Publish}))
    && m.consumeCount == Count(log, For({ConsumeNext}))
    && m.ackCount == Count(log, For({Ack}))
    && m.nackCount == Count(log, For({Nack}))
    && m.statusCount == Count(log, For({Status}))
    && m.healthCount == Count(log, For({Health}))
    && m.dlqCount == Count(log, For({ListDlq, ReprocessDlq}))
  }

  /** Recording one more result keeps every counter right. */
  lemma TallyOne(m: Counters, log: seq<Done>, d: Done)
    requires Tally(m, log)
    ensures Tally(CountRequest(m, d.request.command, ResultOf(d)), log + [d])
  {
    hide Count;
    forall kind
      ensures Count(log + [d], kind) == Count(log, kind) + if Is(d, kind) then 1 else 0
    {
      CountOne(log, d, kind);
    }
    CommandsOne(m, log, d);
  }

  lemma CountOne(log: seq<Done>, d: Done, kind: Kind)
    ensures Count(log + [d], kind) == Count(log, kind) + if Is(d, kind) then 1 else 0
  {
    assert (log + [d])[..|log|] == log;
  }

  lemma CommandsOne(m: Counters, log: seq<Done>, d: Done)
    requires CommandTally(m, log)
    ensures CommandTally(CountRequest(m, d.request.command, ResultOf(d)), log + [d])
  {
    hide Count;
    forall kind
      ensures Count(log + [d], kind) == Count(log, kind) + if Is(d, kind) then 1 else 0
    {
      CountOne(log, d, kind);
    }
  }

  lemma {:induction false} CountSplits(log: seq<Done>, p: Kind, q: Kind, whole: Kind)
    requires forall d :: d in log ==> (Is(d, whole) <==> Is(d, p) || Is(d, q)) && !(Is(d, p) && Is(d, q))
    ensures Count(log, whole) == Count(log, p) + Count(log, q)
  {
    if log != [] {
      CountSplits(log[..|log| - 1], p, q, whole);
    }
  }

  /** The finished requests the counters know of: since the last start, less one not yet recorded. */
  function Counted(s: State): seq<Done>
    requires s.since <= |s.history|
  {
    var log := s.history[s.since..];
    if log != [] && Unrecorded(s.worker) then log[..|log| - 1] else log
  }

  predicate Unrecorded(w: Phase) {
    w.Late? || w.Buried? || w.Answered?
  }

  predicate NoTimeoutAnswers(s: State) {
    forall i :: 0 <= i < |s.history| ==> s.history[i].outcome != Executed(Failure(Timeout))
  }

  ghost predicate CountersRight(s: State) {
    && s.since <= |s.history|
    && NoTimeoutAnswers(s)
    && Tally(s.counters, Counted(s))
  }

  lemma NothingCounted(log: seq<Done>)
    requires log == []
    ensures Tally(ZERO, log)
  {
  }

  /** Most steps finish and record nothing. */
  lemma QuietKept(s: State, a: Action)
    requires CountersRight(s) && Enabled(s, a) && !a.Record? && !a.CheckDeadline? && !a.Handle? && !a.Restart?
    ensures CountersRight(Apply(s, a))
  {
    hide Tally;
    assert Counted(Apply(s, a)) == Counted(s);
  }

  lemma FinishKept(s: State, a: Action)
    requires CountersRight(s) && Enabled(s, a) && (a.CheckDeadline? || a.Handle?)
    ensures CountersRight(Apply(s, a))
  {
    hide Tally, PastDeadline;
    assert Counted(Apply(s, a)) == Counted(s);
  }

  lemma CountedGrows(s: State)
    requires s.since < |s.history| && Enabled(s, Record)
    ensures Counted(Apply(s, Record)) == Counted(s) + [s.history[|s.history| - 1]]
  {
    hide CountRequest;
  }

  lemma RecordKept(s: State)
    requires InHand(s) && CountersRight(s) && Enabled(s, Record)
    ensures CountersRight(Apply(s, Record))
  {
    hide Tally, CountRequest, Counted;
    TallyOne(s.counters, Counted(s), s.history[|s.history| - 1]);
    CountedGrows(s);
  }

  lemma CountersKept(s: State, a: Action)
    requires InHand(s) && CountersRight(s) && Enabled(s, a)
    ensures CountersRight(Apply(s, a))
  {
    hide Tally;
    match a
    case Record => RecordKept(s);
    case CheckDeadline(_) => FinishKept(s, a);
    case Handle(_) => FinishKept(s, a);
    case Restart(_) => NothingCounted(Counted(Apply(s, a)));
    case _ => QuietKept(s, a);
  }

  // ---------------------------------------------------------------------------------------
  // Whole runs
  // ---------------------------------------------------------------------------------------

  lemma {:induction false} Always(states: seq<State>, actions: seq<Action>, i: nat)
    requires Run(states, actions) && i < |states|
    ensures FilesSafe(states[i]) && CountersRight(states[i])
  {
    hide FilesSafe, CountersRight, Apply, Enabled;
    if i == 0 {
      StartSafe();
    } else {
      Always(states, actions, i - 1);
      var s, a := states[i - 1], actions[i - 1];
      assert states[i - 1 + 1] == Apply(s, a);
      StepSafe(s, a);
    }
  }

  lemma StartSafe()
    ensures FilesSafe(START) && CountersRight(START)
  {
    hide Tally;
    NothingCounted(Counted(START));
  }

  lemma StepSafe(s: State, a: Action)
    requires FilesSafe(s) && CountersRight(s) && Enabled(s, a)
    ensures FilesSafe(Apply(s, a)) && CountersRight(Apply(s, a))
  {
    hide Apply, OnePlace, OnceEach, DeletedOnlyDone, InHand, CountersRight, Enabled;
    PlacesKept(s, a);
    OnceKept(s, a);
    InHandKept(s, a);
    CountersKept(s, a);
  }

  /** Conservation: in every reachable state each request ever submitted is in exactly one place,
      and one that was deleted had its handler run. */
  lemma NothingLost(states: seq<State>, actions: seq<Action>, i: nat, file: string)
    requires Run(states, actions) && i < |states|
    ensures
      var s := states[i];
      && (if file in s.contents then 1 else 0) ==
           (if file in s.requests then 1 else 0) + (if file in s.processing then 1 else 0)
           + (if file in s.dead then 1 else 0) + (if file in s.removed then 1 else 0)
      && (file in s.removed ==>
        exists k :: 0 <= k < |s.history| && s.history[k].name == file && s.history[k].outcome.Executed?)
  {
    Always(states, actions, i);
    assert file in states[i].contents <==> file in states[i].contents.Keys;
  }

  /** At most once over the whole run, restarts included: two handler calls are for two requests, and
      a request whose deadline was found passed has no handler call before or after. */
  lemma AtMostOnce(states: seq<State>, actions: seq<Action>, i: nat, j: nat)
    requires Run(states, actions) && i < j < |actions|
    requires states[i].worker.Cleared? && actions[i].Handle?
    requires states[j].worker.Cleared? && actions[j].Handle?
    ensures states[i].worker.name != states[j].worker.name
  {
    var name := states[i].worker.name;
    assert states[i + 1] == Apply(states[i], actions[i]);
    var k := |states[i].history|;
    assert states[i + 1].history[k].name == name;
    HistoryGrows(states, actions, i + 1, j);
    Always(states, actions, j);
    assert states[j].history[k].name == name;
  }

  lemma {:induction false} HistoryGrows(states: seq<State>, actions: seq<Action>, i: nat, j: nat)
    requires Run(states, actions) && i <= j < |states|
    ensures states[i].history <= states[j].history
    decreases j
  {
    if i < j {
      HistoryGrows(states, actions, i, j - 1);
      assert states[j - 1 + 1] == Apply(states[j - 1], actions[j - 1]);
    }
  }

  /** Deadlines over the whole run: a handler runs only for a request without a deadline or checked no later than
      that, a request is dropped as expired only when checked after its deadline, and either way it is the request
      its file holds. */
  lemma DeadlinesRespected(states: seq<State>, actions: seq<Action>, i: nat, k: nat)
    requires Run(states, actions) && i < |states| && k < |states[i].history|
    ensures
      var d := states[i].history[k];
      && (d.outcome.Executed? ==> d.request.deadlineMs <= 0 || d.at <= d.request.deadlineMs)
      && (d.outcome.Expired? ==> d.request.deadlineMs > 0 && d.at > d.request.deadlineMs)
      && d.name in states[i].contents && states[i].contents[d.name] == WellFormed(d.request)
  {
    Always(states, actions, i);
    assert Fits(states[i], states[i].history[k]);
  }

  /** A handler never runs for a request whose deadline has been found passed, nor the other way round. */
  lemma NeverBoth(states: seq<State>, actions: seq<Action>, i: nat, j: nat)
    requires Run(states, actions) && i < |actions| && j < |actions|
    requires states[i].worker.Cleared? && actions[i].Handle?
    requires states[j].worker.Parsed? && actions[j].CheckDeadline?
    requires states[j].worker.request.deadlineMs > 0 && actions[j].now > states[j].worker.request.deadlineMs
    ensures states[i].worker.name != states[j].worker.name
  {
    Always(states, actions, i);
    Always(states, actions, j);
    assert states[i + 1] == Apply(states[i], actions[i]);
    assert states[j + 1] == Apply(states[j], actions[j]);
    var k, l := |states[i].history|, |states[j].history|;
    assert states[i + 1].history[k].name == states[i].worker.name;
    assert states[j + 1].history[l].name == states[j].worker.name;
    if i < j {
      HistoryGrows(states, actions, i + 1, j);
      assert states[j].history[k].name == states[i].worker.name;
    } else if j < i {
      HistoryGrows(states, actions, j + 1, i);
      assert states[i].history[l].name == states[j].worker.name;
    }
  }

  /** Between requests, within one start: the total is the number of handlers run plus deadlines found
      passed, it is success plus error, and the errors split by kind with the timeouts exactly the expired. */
  lemma MetricsBalance(states: seq<State>, actions: seq<Action>, i: nat)
    requires Run(states, actions) && i < |states| && states[i].worker.Waiting?
    ensures
      var s := states[i];
      && s.since <= |s.history|
      && var log, m := s.history[s.since..], s.counters;
         && m.totalRequests == Count(log, Ran) + Count(log, OutOfTime)
         && m.totalRequests == m.successCount + m.errorCount
         && m.errorCount == m.parseErrors + m.validationErrors + m.timeoutErrors + m.internalErrors
         && m.timeoutErrors == Count(log, OutOfTime)
         && m.successCount == Count(log, Succeeded) && m.errorCount == Count(log, Failed)
         && m.parseErrors == Count(log, FailedWith({ParseError, InvalidRequest}))
         && m.validationErrors == Count(log, FailedWith({ValidationFailed}))
         && m.publishCount == Count(log, For({Publish})) && m.consumeCount == Count(log, For({ConsumeNext}))
         && m.ackCount == Count(log, For({Ack})) && m.nackCount == Count(log, For({Nack}))
         && m.statusCount == Count(log, For({Status})) && m.healthCount == Count(log, For({Health}))
         && m.dlqCount == Count(log, For({ListDlq, ReprocessDlq}))
  {
    Always(states, actions, i);
    var s := states[i];
    Balance(s.counters, s.history[s.since..]);
  }

  lemma Balance(m: Counters, log: seq<Done>)
    requires Tally(m, log) && forall d :: d in log ==> d.outcome != Executed(Failure(Timeout))
    ensures m.totalRequests == Count(log, Ran) + Count(log, OutOfTime)
    ensures m.totalRequests == m.successCount + m.errorCount
    ensures m.errorCount == m.parseErrors + m.validationErrors + m.timeoutErrors + m.internalErrors
    ensures m.timeoutErrors == Count(log, OutOfTime)
  {
    CountSplits(log, Ran, OutOfTime, Any);
    CountSplits(log, Succeeded, Failed, Any);
    CountSplits(log, OutOfTime, FailedWith({}), TIMEOUT);
    CountSplits(log, FailedWith({}), OutOfTime, OutOfTime);
    ErrorsSplit(log);
  }

  lemma ErrorsSplit(log: seq<Done>)
    ensures Count(log, Failed) == Count(log, PARSE) + Count(log, VALIDATION) + Count(log, TIMEOUT) +
      Count(log, INTERNAL)
  {
  }
}
