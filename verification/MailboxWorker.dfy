/**
 The worker of MailboxHandler as it runs: every file operation it makes, and whatever clients,
 the folder watcher and the cleanup thread do in between, is a step of the mailbox protocol.
 */
module MailboxWorker {
  import opened Types
  import opened Faults
  import opened FileNames
  import opened Mailbox

  /** What the watcher accepts. */
  predicate IsJson(file: string) {
    |file| >= 5 && file[|file| - 5..] == ".json"
  }

  /** What list_files accepts: a name that is nothing but ".json" has no extension. */
  predicate HasJsonExtension(file: string) {
    IsJson(file) && |file| > 5
  }

  function JsonIn(files: set<string>): set<string> {
    set f | f in files && HasJsonExtension(f)
  }

  /** A stem before the suffix makes a request file; the bare suffix does not, nor does another ending. */
  lemma RequestFilesAre(files: set<string>, file: string)
    requires file in files
    ensures file in JsonIn(files) <==> |file| > 5 && file[|file| - 5..] == ".json"
    ensures file == ".json" ==> IsJson(file) && file !in JsonIn(files)
  {
  }

  /** No request leaves the mailbox's books, none comes back into requests, no notification is lost. */
  ghost predicate Onward(s: State, s': State) {
    && (forall f :: f in s.contents ==> f in s'.contents && (f in s'.requests ==> f in s.requests))
    && s.pending <= s'.pending
  }

  /** What other threads and processes leave alone. */
  ghost predicate Others(s: State, s': State) {
    && Onward(s, s')
    && s'.worker == s.worker && s'.batch == s.batch && s'.history == s.history && s'.since == s.since
    && s'.counters == s.counters && s'.removed == s.removed
  }

  class MailboxHandler {
    /** Whether renames, reads and deletes may fail on files that are there. */
    const faulty: bool
    const staleTimeoutMs: int
    var contents: map<string, Content>
    var requests: set<string>
    var processing: set<string>
    var dead: set<string>
    var removed: set<string>
    var pending: seq<string>
    var counters: Counters
    var totalProcessingTimeMs: int
    var lastRequestTimeMs: int
    /** The run so far, as the protocol sees it. */
    ghost var states: seq<State>
    ghost var actions: seq<Action>

    constructor (faulty: bool, staleTimeoutMs: int)
      ensures Valid() && this.faulty == faulty && this.staleTimeoutMs == staleTimeoutMs && Now() == START
    {
      this.faulty, this.staleTimeoutMs := faulty, staleTimeoutMs;
      totalProcessingTimeMs, lastRequestTimeMs := 0, 0;
      contents, requests, processing, dead, removed := map[], {}, {}, {}, {};
      pending, counters := [], ZERO;
      states, actions := [START], [];
    }

    ghost predicate Valid()
      reads this
    {
      |states| > 0 && Run(states, actions) && Mirrors(Now())
    }

    ghost predicate Mirrors(s: State)
      reads this
    {
      && s.contents == contents && s.requests == requests && s.processing == processing
      && s.dead == dead && s.removed == removed
      && s.pending == pending && s.counters == counters
    }

    ghost function Now(): State
      requires |states| > 0
      reads this
    {
      states[|states| - 1]
    }

    ghost method Did(a: Action)
      requires Run(states, actions) && Enabled(Now(), a)
      modifies this`states, this`actions
      ensures Run(states, actions) && old(states) <= states && actions == old(actions) + [a]
      ensures Now() == Apply(old(Now()), a)
    {
      hide Apply, Enabled;
      states, actions := states + [Apply(Now(), a)], actions + [a];
    }

    // -------------------------------------------------------------------------------------
    // Other threads and processes
    // -------------------------------------------------------------------------------------

    /** A client creates a request file under a name never used before. */
    method SubmitFile(file: string, content: Content)
      requires Valid() && file !in contents
      modifies this`contents, this`requests, this`states, this`actions
      ensures Valid() && old(states) <= states && Now() == Apply(old(Now()), Submit(file, content))
    {
      Did(Submit(file, content));
      contents, requests := contents[file := content], requests + {file};
    }

    /** on_file_changed: only additions of .json files are queued. */
    method OnFileChanged(file: string, added: bool)
      requires Valid()
      modifies this`pending, this`states, this`actions
      ensures Valid() && old(states) <= states
      ensures Now() == old(Now()).(pending :=
        if added && |file| >= 5 && file[|file| - 5..] == ".json" then old(pending) + [file] else old(pending))
    {
      if added && IsJson(file) {
        Did(Notify(file));
        pending := pending + [file];
      }
    }

    /** One file of cleanup_stale_requests: None where its age cannot be read. */
    method CleanupStale(file: string, ageMs: Option<int>)
      requires Valid()
      modifies this`processing, this`dead, this`states, this`actions
      ensures Valid() && old(states) <= states
      ensures Now() == old(Now()) || Now() == Kill(old(Now()), file, true)
      ensures ageMs.None? || ageMs.value <= staleTimeoutMs ==> Now() == old(Now())
      ensures !faulty && ageMs.Some? && ageMs.value > staleTimeoutMs ==> Now() == Kill(old(Now()), file, true)
    {
      if file in processing && ageMs.Some? && ageMs.value > staleTimeoutMs {
        var buried := MoveToDead(file);
        Did(Stale(file, buried));
      }
    }

    predicate IsStale(ages: map<string, int>, file: string) {
      HasJsonExtension(file) && file in ages && ages[file] > staleTimeoutMs
    }

    function StaleIn(ages: map<string, int>, files: set<string>): set<string> {
      set f | f in files && IsStale(ages, f)
    }

    /** cleanup_stale_requests, given the ages of the files that can be read: without failures exactly the stale
        files of processing/ end in dead/. Each round is one step others may interleave with. */
    method CleanupStaleRequests(ages: map<string, int>)
      requires Valid()
      modifies this`processing, this`dead, this`states, this`actions
      ensures Valid() && old(states) <= states
      ensures Now() == old(Now()).(processing := processing, dead := dead)
      ensures processing + dead == old(processing + dead)
      ensures old(processing) - StaleIn(ages, old(processing)) <= processing <= old(processing)
      ensures !faulty ==> processing == old(processing) - StaleIn(ages, old(processing))
      ensures !faulty ==> dead == old(dead) + StaleIn(ages, old(processing))
    {
      hide Run, Enabled, Apply;
      ghost var was, done: set<string> := processing, {};
      var files := ListFiles(processing);
      assert forall j :: 0 <= j < |files| ==> files[j] in files && files[j] in JsonIn(was);
      for i := 0 to |files|
        invariant Valid() && old(states) <= states
        invariant Now() == old(Now()).(processing := processing, dead := dead)
        invariant processing + dead == old(processing + dead)
        invariant was - StaleIn(ages, was) <= processing <= was
        invariant forall j :: 0 <= j < i ==> files[j] in done
        invariant forall j :: i <= j < |files| ==> files[j] !in done && files[j] in processing
        invariant done <= was && (!faulty ==> processing == was - StaleIn(ages, done))
        invariant !faulty ==> dead == old(dead) + StaleIn(ages, done)
      {
        var file := files[i];
        assert file in files && file in JsonIn(was);
        CleanupStale(file, if file in ages then Some(ages[file]) else None);
        done := done + {file};
      }
      forall f | f in StaleIn(ages, was)
        ensures f in StaleIn(ages, done)
      {
        assert f in JsonIn(was);
        assert f in files;
      }
    }

    /** Any number of steps by others, in any order. */
    method Interleave()
      requires Valid()
      modifies this`contents, this`requests, this`processing, this`dead, this`pending, this`states, this`actions
      ensures Valid() && old(states) <= states && Others(old(Now()), Now())
    {
      hide Run;
      var turns: nat := *;
      while turns > 0
        invariant Valid() && old(states) <= states && Others(old(Now()), Now())
      {
        var file: string, content: Content, choice: nat := *, *, *;
        if choice == 0 && file !in contents {
          SubmitFile(file, content);
        } else if choice == 1 {
          OnFileChanged(file, true);
        } else {
          var age: int := *;
          CleanupStale(file, Some(age));
        }
        turns := turns - 1;
      }
    }

    // -------------------------------------------------------------------------------------
    // File operations
    // -------------------------------------------------------------------------------------

    method MoveToProcessing(file: string) returns (ok: bool)
      modifies this`requests, this`processing
      ensures ok ==> file in old(requests)
      ensures requests == if ok then old(requests) - {file} else old(requests)
      ensures processing == if ok then old(processing) + {file} else old(processing)
      ensures !faulty ==> ok == (file in old(requests))
    {
      var fails := Fault(faulty);
      ok := file in requests && !fails;
      if ok {
        requests, processing := requests - {file}, processing + {file};
      }
    }

    method MoveToDead(file: string) returns (ok: bool)
      modifies this`processing, this`dead
      ensures ok ==> file in old(processing)
      ensures processing == if ok then old(processing) - {file} else old(processing)
      ensures dead == if ok then old(dead) + {file} else old(dead)
      ensures !faulty ==> ok == (file in old(processing))
    {
      var fails := Fault(faulty);
      ok := file in processing && !fails;
      if ok {
        processing, dead := processing - {file}, dead + {file};
      }
    }

    /** Removing a file that is already gone is no error. */
    method DeleteProcessed(file: string) returns (ok: bool)
      modifies this`processing, this`removed
      ensures processing == if ok then old(processing) - {file} else old(processing)
      ensures removed == if ok && file in old(processing) then old(removed) + {file} else old(removed)
      ensures !faulty ==> ok
    {
      var fails := Fault(faulty);
      ok := !fails;
      if ok && file in processing {
        processing, removed := processing - {file}, removed + {file};
      }
    }

    /** The cleanup thread may have taken the file away by now. */
    method ReadRequestFile(file: string) returns (r: Option<Request>)
      ensures r.Some? ==> file in processing && file in contents && contents[file] == WellFormed(r.value)
      ensures !faulty && file in processing && file in contents && contents[file].WellFormed? ==> r.Some?
    {
      var fails := Fault(faulty);
      if fails || file !in processing || file !in contents {
        return None;
      }
      match contents[file]
      case Malformed => return None;
      case WellFormed(request) => return Some(request);
    }

    /** Every .json file of a directory, each once, in file-name order. */
    static method ListFiles(directory: set<string>) returns (files: seq<string>)
      ensures forall f :: f in files <==> f in JsonIn(directory)
      ensures forall i, j :: 0 <= i < j < |files| ==> files[i] != files[j]
      ensures Sorted(files, (f: string) => f)
    {
      files := SortedListing(JsonIn(directory), (f: string) => f);
    }

    // -------------------------------------------------------------------------------------
    // Metrics and handlers
    // -------------------------------------------------------------------------------------

    method RecordRequestEnd(command: Command, response: Response, startTime: int, now: int)
      modifies this`counters, this`totalProcessingTimeMs, this`lastRequestTimeMs
      ensures counters == CountRequest(old(counters), command, response)
      ensures totalProcessingTimeMs == old(totalProcessingTimeMs) + (now - startTime) && lastRequestTimeMs == now
    {
      totalProcessingTimeMs, lastRequestTimeMs := totalProcessingTimeMs + (now - startTime), now;
      var m := counters;
      m := m.(totalRequests := m.totalRequests + 1);
      match response {
        case Success =>
          m := m.(successCount := m.successCount + 1);
        case Failure(code) =>
          m := m.(errorCount := m.errorCount + 1);
          if code == ParseError || code == InvalidRequest {
            m := m.(parseErrors := m.parseErrors + 1);
          } else if code == ValidationFailed {
            m := m.(validationErrors := m.validationErrors + 1);
          } else if code == Timeout {
            m := m.(timeoutErrors := m.timeoutErrors + 1);
          } else {
            m := m.(internalErrors := m.internalErrors + 1);
          }
      }
      match command {
        case Publish => m := m.(publishCount := m.publishCount + 1);
        case ConsumeNext => m := m.(consumeCount := m.consumeCount + 1);
        case Ack => m := m.(ackCount := m.ackCount + 1);
        case Nack => m := m.(nackCount := m.nackCount + 1);
        case Status => m := m.(statusCount := m.statusCount + 1);
        case Health => m := m.(healthCount := m.healthCount + 1);
        case ListDlq => m := m.(dlqCount := m.dlqCount + 1);
        case ReprocessDlq => m := m.(dlqCount := m.dlqCount + 1);
        case _ =>
      }
      counters := m;
    }

    /** The handlers themselves are other code; each answers with success or one of five codes. */
    method HandleRequest(request: Request) returns (r: Response)
      ensures request.command.Unknown? ==> r == Failure(UnknownCommand)
      ensures r.Failure? ==>
        r.code in {ParseError, InvalidRequest, ValidationFailed, InternalError, DlqNotFound, UnknownCommand}
    {
      if request.command.Unknown? {
        return Failure(UnknownCommand);
      }
      var choice: nat := *;
      r := match choice
        case 0 => Failure(ParseError)
        case 1 => Failure(InvalidRequest)
        case 2 => Failure(ValidationFailed)
        case 3 => Failure(InternalError)
        case 4 => Failure(DlqNotFound)
        case _ => Success;
    }

    // -------------------------------------------------------------------------------------
    // The worker
    // -------------------------------------------------------------------------------------

    /** The rename that makes a request this worker's. */
    method Claim(file: string) returns (moved: bool)
      requires Valid() && Now().worker.Waiting? && Now().batch != [] && Now().batch[0] == file
      modifies this`requests, this`processing, this`states, this`actions
      ensures Valid() && old(states) <= states && Onward(old(Now()), Now())
      ensures Now().batch == old(Now()).batch[1..] && Now().history == old(Now()).history
      ensures Now().worker == if moved then Claimed(file) else Waiting
      ensures !faulty ==> file !in requests
    {
      hide Run;
      moved := MoveToProcessing(file);
      Did(Take(moved));
    }

    /** Reads a claimed file; what cannot be read or parsed goes to dead. */
    method Read(file: string) returns (request: Option<Request>)
      requires Valid() && Now().worker == Claimed(file)
      modifies this`processing, this`dead, this`contents, this`requests, this`pending, this`states, this`actions
      ensures Valid() && old(states) <= states && Onward(old(Now()), Now())
      ensures Now().batch == old(Now()).batch && Now().history == old(Now()).history
      ensures Now().worker == if request.Some? then Parsed(file, request.value) else Waiting
    {
      hide Run;
      Interleave();
      request := ReadRequestFile(file);
      Did(Action.Read(request.Some?));
      if request.None? {
        var buried := MoveToDead(file);
        Did(BuryBroken(buried));
      }
    }

    method BuryExpired(file: string, request: Request)
      requires Valid() && Now().worker == Late(file, request)
      modifies this`processing, this`dead, this`contents, this`requests, this`pending, this`states, this`actions
      ensures Valid() && old(states) <= states && Onward(old(Now()), Now())
      ensures Now().batch == old(Now()).batch && Now().history == old(Now()).history &&
        Now().worker == Buried(file, request)
    {
      hide Run;
      Interleave();
      var buried := MoveToDead(file);
      Did(BuryLate(buried));
    }

    /** The deadline branch: dead, and counted as a timeout. */
    method Expire(file: string, request: Request, startTime: int)
      requires Valid() && Now().worker == Late(file, request)
      modifies this`processing, this`dead, this`contents, this`requests, this`pending, this`counters,
        this`totalProcessingTimeMs, this`lastRequestTimeMs, this`states, this`actions
      ensures Valid() && old(states) <= states && Onward(old(Now()), Now())
      ensures Now().batch == old(Now()).batch && Now().history == old(Now()).history && Now().worker.Waiting?
    {
      hide Run, CountRequest;
      BuryExpired(file, request);
      var end: int := *;
      RecordRequestEnd(request.command, Failure(Timeout), startTime, end);
      Did(Record);
    }

    /** The handler runs, and only now. */
    method Serve(file: string, request: Request) returns (response: Response)
      requires Valid() && Now().worker.Cleared? && Now().worker.name == file && Now().worker.request == request
      modifies this`processing, this`dead, this`contents, this`requests, this`pending, this`states, this`actions
      ensures Valid() && old(states) <= states && Onward(old(Now()), Now())
      ensures Now().batch == old(Now()).batch && Now().worker == Answered(file, request, response)
      ensures Now().history ==
        old(Now()).history + [Done(file, request, old(Now()).worker.checkedAt, Executed(response))]
    {
      hide Run;
      response := HandleRequest(request);
      Did(Handle(response));
      Interleave();
    }

    method Account(file: string, request: Request, response: Response, startTime: int)
      requires Valid() && Now().worker == Answered(file, request, response)
      modifies this`processing, this`dead, this`contents, this`requests, this`pending, this`counters,
        this`totalProcessingTimeMs, this`lastRequestTimeMs, this`states, this`actions
      ensures Valid() && old(states) <= states && Onward(old(Now()), Now())
      ensures Now().batch == old(Now()).batch && Now().worker == Recorded(file) && Now().history == old(Now()).history
      ensures counters == CountRequest(old(counters), request.command, response)
    {
      hide Run, CountRequest;
      var end: int := *;
      RecordRequestEnd(request.command, response, startTime, end);
      Did(Record);
      Interleave();
    }

    /** The normal branch: handler, metrics, response, delete. */
    method Answer(file: string, request: Request, startTime: int)
      requires Valid() && Now().worker.Cleared? && Now().worker.name == file && Now().worker.request == request
      modifies this
      ensures Valid() && old(states) <= states && Onward(old(Now()), Now())
      ensures Now().batch == old(Now()).batch && Now().worker.Waiting?
      ensures exists r ::
        Now().history == old(Now()).history + [Done(file, request, old(Now()).worker.checkedAt, Executed(r))]
    {
      hide Run, CountRequest;
      var response := Serve(file, request);
      Account(file, request, response, startTime);
      var deleted := DeleteProcessed(file);
      Did(Delete(deleted));
    }

    /** Deadline check, then one of the two branches. */
    method Finish(file: string, request: Request)
      requires Valid() && Now().worker == Parsed(file, request)
      modifies this
      ensures Valid() && old(states) <= states && Onward(old(Now()), Now())
      ensures Now().batch == old(Now()).batch && Now().worker.Waiting?
      ensures exists at, outcome ::
        && Now().history == old(Now()).history + [Done(file, request, at, outcome)]
        && (outcome.Executed? ==> request.deadlineMs <= 0 || at <= request.deadlineMs)
        && (outcome.Expired? ==> request.deadlineMs > 0 && at > request.deadlineMs)
    {
      hide Run;
      var startTime: int, now: int := *, *;
      Did(CheckDeadline(now));
      if request.deadlineMs > 0 && now > request.deadlineMs {
        Expire(file, request, startTime);
      } else {
        Answer(file, request, startTime);
      }
    }

    /** One file of the loop in process_pending_requests and in the polling branch: both find out at the
        rename whether the file is still there. */
    method ProcessOne(file: string)
      requires Valid() && Now().worker.Waiting? && Now().batch != [] && Now().batch[0] == file
      modifies this
      ensures Valid() && old(states) <= states && Onward(old(Now()), Now())
      ensures Now().batch == old(Now()).batch[1..] && Now().worker.Waiting? && old(pending) <= pending
      ensures !faulty && file in old(contents) ==> file !in requests
      ensures Now().history == old(Now()).history
        || exists d: Done ::
             && d.name == file && Now().history == old(Now()).history + [d]
             && (d.outcome.Executed? ==> d.request.deadlineMs <= 0 || d.at <= d.request.deadlineMs)
             && (d.outcome.Expired? ==> d.request.deadlineMs > 0 && d.at > d.request.deadlineMs)
    {
      hide Run;
      var moved := Claim(file);
      if moved {
        var request := Read(file);
        if request.Some? {
          Finish(file, request.value);
        }
      }
    }

    /** Works off a batch; tells whether it got to the end before stop(). */
    method ProcessBatch(files: seq<string>) returns (finished: bool)
      requires Valid() && Now().worker.Waiting? && Now().batch == files
      modifies this
      ensures Valid() && old(states) <= states && Onward(old(Now()), Now())
      ensures Now().worker.Waiting? && Now().batch == []
      ensures !finished ==> |actions| > 0 && actions[|actions| - 1].DropBatch?
      ensures finished && !faulty ==> forall f :: f in files && f in old(contents) ==> f !in requests
    {
      hide Run;
      for i := 0 to |files|
        invariant Valid() && old(states) <= states && Onward(old(Now()), Now())
        invariant Now().worker.Waiting? && Now().batch == files[i..]
        invariant !faulty ==> forall k :: 0 <= k < i && files[k] in old(contents) ==> files[k] !in requests
      {
        Interleave();
        var running: bool := *;
        if !running {
          Did(DropBatch);
          return false;
        }
        ProcessOne(files[i]);
      }
      return true;
    }

    /** Event-driven mode: every request file that had been notified is gone from requests. */
    method ProcessPendingRequests() returns (finished: bool)
      requires Valid() && Now().worker.Waiting? && Now().batch == []
      modifies this
      ensures Valid() && old(states) <= states
      ensures Now().worker.Waiting? && Now().batch == []
      ensures !finished ==> |actions| > 0 && actions[|actions| - 1].DropBatch?
      ensures finished && !faulty ==> forall f :: f in old(pending) && f in old(contents) ==> f !in requests
    {
      hide Run;
      var files := pending;
      Did(Drain);
      pending := [];
      finished := ProcessBatch(files);
    }

    /** Polling mode: every .json file that was in requests is gone from there. */
    method PollOnce() returns (finished: bool)
      requires Valid() && Now().worker.Waiting? && Now().batch == []
      modifies this
      ensures Valid() && old(states) <= states
      ensures Now().worker.Waiting? && Now().batch == []
      ensures !finished ==> |actions| > 0 && actions[|actions| - 1].DropBatch?
      ensures finished && !faulty ==> forall f :: f in JsonIn(old(requests)) && f in old(contents) ==> f !in requests
    {
      hide Run;
      var files := ListFiles(requests);
      Did(Poll(files));
      finished := ProcessBatch(files);
    }

    /** Startup: whatever an earlier process left in requests is queued. */
    method QueueExisting()
      requires Valid()
      modifies this`pending, this`states, this`actions
      ensures Valid() && old(states) <= states
      ensures forall f :: f in JsonIn(requests) ==> f in pending
    {
      hide Run;
      var files := ListFiles(requests);
      for i := 0 to |files|
        invariant Valid() && old(states) <= states && Now() == old(Now()).(pending := old(pending) + files[..i])
      {
        Did(Notify(files[i]));
        pending := pending + [files[i]];
      }
      assert pending == old(pending) + files;
    }
  }
}
