/** The lab engine as an object: every method performs exactly one event of the protocol on its fields. */
module LabEngine {
  import opened Text
  import opened LabProtocol

  /** What a read of a run gives: no such run, an error escaping the refresh, or the record. */
  datatype Read = UnknownRun | RefreshRaised | Found(record: Record)

  /** What a stop comes to: the task has to be waited for, or the run is read at once. */
  datatype StopResult = WaitForTask | ReadNow(read: Read)

  /** Only the record of this run may differ. */
  predicate OthersKept(before: map<Id, Record>, after: map<Id, Record>, id: Id) {
    after.Keys == before.Keys && forall j <- before :: j != id ==> after[j] == before[j]
  }

  /** The verdict says exactly what the three measurements say. */
  predicate Decided(r: Record) {
    && r.status == Finalizing && r.baseline.Some? && r.during.Some? && r.recovery.Some?
    && (r.verdict == Held <==> r.baseline.value && r.during.value && r.recovery.value)
    && (r.verdict == Deviated <==> r.baseline.value && !r.during.value && r.recovery.value)
    && (r.verdict == Inconclusive <==> !r.baseline.value || !r.recovery.value)
  }

  /** A failed cleanup leaves no result behind. */
  lemma FinishVerdict(s: Lab)
    requires HasRun(s) && s.records[s.active.value].verdict == Inconclusive
    ensures s.active.value in Finish(s, ToFail).records && Finish(s, ToFail).records[s.active.value].verdict == Inconclusive
  {
    hide Refresh, RefreshRaises, MarkedByRefresh;
    RefreshFacts(s.records[s.active.value], s.files[s.active.value]);
  }

  lemma NothingToResume(s: Lab, i: Input)
    requires s.active.None? || s.task == NoTask || s.task == Ended
    ensures Next(s, Resume(i)) == s
  {
  }

  /** Whoever is in the cleanup has attempted the reset. */
  lemma CleanupWasReset(s: Lab)
    requires Inv(s) && HasRun(s)
    ensures InCleanup(s.task) ==> s.cleanupReset
  {
  }

  class LabEngine {
    var activeRunId: Option<Id>
    var task: Task
    var cancelRequested: bool
    var cancelled: bool
    var process: Process
    var cleanupReset: bool
    var records: map<Id, Record>
    var files: map<Id, Files>  // the data directory

    ghost function Snapshot(): Lab
      reads this
    {
      Lab(activeRunId, task, cancelRequested, cancelled, process, cleanupReset, records, files)
    }

    /** Load what earlier processes left and mark unfinished runs interrupted. */
    constructor (loaded: map<Id, Record>, folders: map<Id, Files>)
      requires Loadable(loaded, folders)
      ensures Snapshot() == Initialized(loaded, folders) && Inv(Snapshot())
    {
      activeRunId, task, process := None, NoTask, NoProcess;
      cancelRequested, cancelled, cleanupReset := false, false, false;
      records := map id <- loaded :: Interrupt(loaded[id]);
      files := folders;
      new;
      InitializedInv(loaded, folders);
    }

    /** Claim the slot for a fresh run; refused while a run is active or the history is full. */
    method StartRun(id: Id) returns (started: bool)
      requires Inv(Snapshot()) && id !in records
      modifies this
      ensures Snapshot() == Next(old(Snapshot()), Start(id)) && Inv(Snapshot())
      ensures started <==> old(activeRunId).None? && |old(records)| < 200
      ensures started ==> task == Created && !cancelRequested && !cancelled && !cleanupReset && process == NoProcess
      ensures started ==> files[id] == NO_FILES
      ensures started ==> activeRunId == Some(id) && OthersKept(old(records)[id := records[id]], records, id)
      ensures started ==> records[id] == Record(Running, Pending, None, None, None, false, None)
    {
      hide ActiveOk, RecordOk, FinishedOk;
      NextKeepsInv(Snapshot(), Start(id));
      started := activeRunId.None? && |records| < MAX_RUNS;
      if started {
        records := records[id := FRESH_RECORD];
        files := files[id := NO_FILES];
        activeRunId := Some(id);
        task, process := Created, NoProcess;
        cancelRequested, cancelled, cleanupReset := false, false, false;
      }
    }

    /** The three measurements of one record, until an error escapes. */
    method RefreshMeasurements(id: Id) returns (raised: Raise)
      requires id in records && id in files
      modifies this`records
      ensures records == old(records)[id := RefreshStages(old(records)[id], files[id]).record]
      ensures raised == RefreshStages(old(records)[id], files[id]).raised
    {
      var f := files[id];
      records := records[id := RefreshBaseline(records[id], f.baseline)];
      if f.baseline.Raising? { return RaiseOf(f.baseline.handled); }
      records := records[id := RefreshDuring(records[id], f.during)];
      if f.during.Raising? { return RaiseOf(f.during.handled); }
      records := records[id := RefreshRecovery(records[id], f.recovery)];
      if f.recovery.Raising? { return RaiseOf(f.recovery.handled); }
      return NoRaise;
    }

    /** Bring one record up to date with its files, and say whether an error escaped that cut the refresh short. */
    method RefreshRecord(id: Id) returns (raised: Raise)
      requires id in records && id in files
      modifies this`records
      ensures records == old(records)[id := Refresh(old(records)[id], files[id]).record]
      ensures raised == Refresh(old(records)[id], files[id]).raised
      ensures raised.NoRaise? <==> !RefreshRaises(old(records)[id], files[id])
      ensures records[id].status == if MarkedByRefresh(files[id]) then Failed else old(records)[id].status
    {
      hide RefreshStages, RefreshRaises;
      RefreshFacts(records[id], files[id]);
      var f := files[id];
      raised := RefreshMeasurements(id);
      if !raised.NoRaise? { return; }
      if records[id].status == Running && f.phase.PhaseRaises? { return RaiseOf(f.phase.handled); }
      if f.journal.JournalRaises? { return Handled; }
      records := records[id := records[id].(journalAvailable := f.journal.Journal?)];
    }

    method GetRun(id: Id) returns (r: Read)
      requires Inv(Snapshot())
      modifies this`records
      ensures Snapshot() == Next(old(Snapshot()), Get(id)) && Inv(Snapshot())
      ensures r.UnknownRun? <==> id !in records
      ensures r.RefreshRaised? <==> id in records && RefreshRaises(old(records)[id], files[id])
      ensures r.Found? ==> id in records && r.record == records[id]
      ensures OthersKept(old(records), records, id)
      ensures id in records ==>
                records[id].status == Failed
                || (records[id].status == old(records)[id].status && records[id].verdict == old(records)[id].verdict)
    {
      hide Refresh, RefreshRaises, ActiveOk, RecordOk, FinishedOk;
      NextKeepsInv(Snapshot(), Get(id));
      if id !in records { return UnknownRun; }
      RefreshFacts(records[id], files[id]);
      var raised := RefreshRecord(id);
      if !raised.NoRaise? { return RefreshRaised; }
      return Found(records[id]);
    }

    /** Request cancellation once, and only of the active run while it is running; the caller then waits for the task and
        reads the run. A run that is not executing is read at once. */
    method StopRun(id: Id) returns (r: StopResult)
      requires Inv(Snapshot())
      modifies this
      ensures r.WaitForTask? <==> id in records && old(activeRunId) == Some(id)
      ensures r.WaitForTask? ==> Snapshot() == Next(old(Snapshot()), Stop(id))
      ensures r.ReadNow? ==> Snapshot() == Next(old(Snapshot()), Get(id))
      ensures r.ReadNow? ==> r.read.UnknownRun? == (id !in records) && (r.read.Found? ==> r.read.record == records[id])
      ensures !old(cancelled) && cancelled <==>
                id in old(records) && old(activeRunId) == Some(id) && old(task) != Ended && !old(cancelled)
                && old(records)[id].status == Running
      ensures Inv(Snapshot())
    {
      hide Refresh, ActiveOk, RecordOk, FinishedOk;
      NextKeepsInv(Snapshot(), Stop(id));
      if id !in records { return ReadNow(UnknownRun); }
      if activeRunId == Some(id) && task != NoTask {
        if task != Ended && records[id].status == Running && !cancelled {
          cancelRequested, cancelled := true, true;
        }
        return WaitForTask;
      }
      var read := GetRun(id);
      return ReadNow(read);
    }

    // -------------------------------------------------------------------------------------------
    // The executing task, from one await to the next

    method BeginCleanup(outcome: Outcome)
      modifies this
      ensures Snapshot() == EnterCleanup(old(Snapshot()), outcome)
      ensures process == old(process)
      ensures records == old(records) && files == old(files) && activeRunId == old(activeRunId)
    {
      task, cleanupReset := AwaitCleanReset(outcome), true;
    }

    method ReportFailure()
      requires HasRun(Snapshot())
      modifies this
      ensures Snapshot() == ReportError(old(Snapshot()))
      ensures process == old(process) && task == AwaitCleanReset(ToFail)
      ensures records[activeRunId.value].status == Finalizing && records[activeRunId.value].verdict == Inconclusive
      ensures activeRunId == old(activeRunId) && files == old(files) && OthersKept(old(records), records, activeRunId.value)
    {
      var id := activeRunId.value;
      records := records[id := records[id].(status := Finalizing, verdict := Inconclusive)];
      BeginCleanup(ToFail);
    }

    method OnError(i: Input, outcome: Outcome)
      requires HasRun(Snapshot())
      modifies this
      ensures Snapshot() == ErrorHandler(old(Snapshot()), i, outcome)
      ensures activeRunId == old(activeRunId) && files == old(files) && OthersKept(old(records), records, activeRunId.value)
      ensures task == AwaitErrorTerminate(outcome) || task == AwaitCleanReset(outcome) || task == AwaitCleanReset(ToFail)
      ensures process == old(process)
      ensures if process == Live && !i.terminate.Returns?
              then records == old(records)
                   && task == if i.terminate.Suspends? then AwaitErrorTerminate(outcome) else AwaitCleanReset(outcome)
              else records[activeRunId.value].status == Finalizing && records[activeRunId.value].verdict == Inconclusive
                   && task == AwaitCleanReset(ToFail)
    {
      if process == Live && i.terminate.Suspends? {
        task := AwaitErrorTerminate(outcome);
      } else if process == Live && i.terminate.Raises? {
        BeginCleanup(outcome);
      } else {
        ReportFailure();
      }
    }

    /** An error in the body: the handler takes it, or it goes straight to the cleanup. */
    method OnFailure(i: Input, a: Answer)
      requires HasRun(Snapshot())
      modifies this
      ensures Snapshot() == BodyFailed(old(Snapshot()), i, a)
      ensures activeRunId == old(activeRunId) && files == old(files) && OthersKept(old(records), records, activeRunId.value)
      ensures a.Escapes? ==> records == old(records) && task == AwaitCleanReset(ToFail)
      ensures process == old(process)
      ensures task == AwaitErrorTerminate(ToFail) || task == AwaitCleanReset(ToFail)
    {
      hide ErrorHandler;
      if a.Escapes? {
        BeginCleanup(ToFail);
      } else {
        OnError(i, ToFail);
      }
    }

    method OnCancel(i: Input)
      requires HasRun(Snapshot())
      modifies this
      ensures Snapshot() == CancelHandler(old(Snapshot()), i)
      ensures activeRunId == old(activeRunId) && files == old(files) && OthersKept(old(records), records, activeRunId.value)
      ensures records[activeRunId.value].status == Stopping && records[activeRunId.value].verdict == Inconclusive
      ensures process == old(process)
      ensures task == if process == Live && i.terminate.Suspends? then AwaitCancelTerminate else AwaitCleanReset(ToStop)
    {
      var id := activeRunId.value;
      records := records[id := records[id].(status := Stopping, verdict := Inconclusive)];
      if process == Live && i.terminate.Suspends? {
        task := AwaitCancelTerminate;
      } else {
        BeginCleanup(ToStop);
      }
    }

    /** Examine the refreshed record and write the verdict that its evidence allows; else say what kind of error it is. */
    method WriteVerdict(i: Input) returns (a: Answer)
      requires HasRun(Snapshot())
      modifies this`records
      ensures var id := activeRunId.value;
              && id in old(records) && records == old(records)[id := Examine(old(records)[id], files[id], i).record]
              && (a.Succeeds? ==> Examine(old(records)[id], files[id], i).Accepted? && Decided(records[id]))
              && (a.Succeeds? <==>
                    && old(records)[id].baseline.Some? && old(records)[id].during.Some? && old(records)[id].recovery.Some?
                    && old(records)[id].journalAvailable && i.localFiles == Succeeds && 0 <= i.exitCode <= 1
                    && (files[id].journal == Journal(NativeCompleted) || files[id].journal == Journal(NativeDeviated)))
              && (!a.Succeeds? ==> Examine(old(records)[id], files[id], i) == Refused(records[id], a))
              && (!a.Succeeds? ==> records[id].status == old(records)[id].status && records[id].verdict == old(records)[id].verdict)
    {
      var id := activeRunId.value;
      var r := records[id];
      if r.baseline.None? || r.during.None? || r.recovery.None? || !r.journalAvailable {
        return Fails;
      }
      if !i.localFiles.Succeeds? {
        return i.localFiles;
      }
      records := records[id := r.(native := NativeOf(files[id].journal))];
      if (records[id].native != Some(NativeCompleted) && records[id].native != Some(NativeDeviated)) || (i.exitCode != 0 && i.exitCode != 1) {
        return Fails;
      }
      var verdict := Held;
      if !r.baseline.value || !r.recovery.value {
        verdict := Inconclusive;
      } else if !r.during.value {
        verdict := Deviated;
      }
      records := records[id := records[id].(status := Finalizing, verdict := verdict)];
      return Succeeds;
    }

    /** Decide the verdict from the refreshed record. */
    method DecideVerdict(i: Input)
      requires HasRun(Snapshot())
      modifies this
      ensures Snapshot() == Judge(old(Snapshot()), i)
      ensures process == old(process)
      ensures activeRunId == old(activeRunId) && files == old(files) && OthersKept(old(records), records, activeRunId.value)
      ensures task == AwaitCleanReset(ToComplete) ==> Decided(records[activeRunId.value])
      ensures task == AwaitCleanReset(ToComplete) ==>
                (files[activeRunId.value].journal == Journal(NativeCompleted) || files[activeRunId.value].journal == Journal(NativeDeviated))
                && 0 <= i.exitCode <= 1
    {
      hide ErrorHandler, BodyFailed, Examine, Decided;
      var a := WriteVerdict(i);
      if !a.Succeeds? {
        OnFailure(i, a);
      } else if i.saved.Fails? {
        OnError(i, ToComplete);
      } else {
        BeginCleanup(ToComplete);
      }
    }

    /** The process has exited: read the evidence, then decide. */
    method OnExit(i: Input)
      requires HasRun(Snapshot())
      modifies this
      ensures Snapshot() == Conclude(old(Snapshot()), i)
      ensures process == old(process)
      ensures activeRunId == old(activeRunId) && files == old(files) && OthersKept(old(records), records, activeRunId.value)
      ensures task == AwaitCleanReset(ToComplete) ==> Decided(records[activeRunId.value])
    {
      hide Refresh, RefreshRaises, MarkedByRefresh, Judge, BodyFailed, Decided;
      var id := activeRunId.value;
      var raised := RefreshRecord(id);
      match raised {
        case NoRaise => DecideVerdict(i);
        case Handled => OnFailure(i, Fails);
        case Unhandled => OnFailure(i, Escapes);
      }
    }

    /** The last refresh; an error escaping it leaves the status as the refresh left it. */
    method SettleStatus(outcome: Outcome)
      requires HasRun(Snapshot())
      modifies this`records
      ensures var id := activeRunId.value;
              && records == old(records)[id := Settled(old(records)[id], files[id], outcome)]
              && OthersKept(old(records), records, id)
              && (!RefreshRaises(old(records)[id], files[id]) ==>
                    records[id].status == Failed || records[id].status == StatusOf(outcome))
    {
      hide Refresh, RefreshRaises, MarkedByRefresh;
      var id := activeRunId.value;
      var raised := RefreshRecord(id);
      if raised.NoRaise? {
        var settled := if records[id].status == Failed then ToFail else outcome;
        records := records[id := records[id].(status := StatusOf(settled))];
      }
    }

    /** The last block: settle the status, then release the slot whatever happened. */
    method Release(outcome: Outcome)
      requires HasRun(Snapshot())
      modifies this
      ensures Snapshot() == Finish(old(Snapshot()), outcome)
      ensures activeRunId == None && task == Ended && process == NoProcess
      ensures OthersKept(old(records), records, old(activeRunId).value)
      ensures var id := old(activeRunId).value;
              !RefreshRaises(old(records)[id], files[id]) ==>
                records[id].status == Failed || records[id].status == StatusOf(outcome)
    {
      hide Settled, RefreshRaises;
      SettleStatus(outcome);
      activeRunId, process, task := None, NoProcess, Ended;
    }

    method OnCleanupFailure(i: Input)
      requires HasRun(Snapshot())
      modifies this
      ensures Snapshot() == CleanupFailed(old(Snapshot()), i)
      ensures task == Ended && activeRunId == if i.savedAgain then None else old(activeRunId)
      ensures OthersKept(old(records), records, old(activeRunId).value)
      ensures records[old(activeRunId).value].verdict == Inconclusive
    {
      hide Finish, Refresh, RefreshRaises;
      var id := activeRunId.value;
      records := records[id := records[id].(verdict := Inconclusive)];
      FinishVerdict(Snapshot());
      if i.savedAgain {
        Release(ToFail);
      } else {
        task := Ended;
      }
    }

    /** An error in the cleanup: caught and recorded, or the end of the task with the slot taken. */
    method OnCleanupError(i: Input, a: Answer)
      requires HasRun(Snapshot())
      modifies this
      ensures Snapshot() == CleanupBroken(old(Snapshot()), i, a)
      ensures task == Ended && activeRunId == if a.Escapes? || !i.savedAgain then old(activeRunId) else None
      ensures OthersKept(old(records), records, old(activeRunId).value)
      ensures if a.Escapes? then records == old(records) else records[old(activeRunId).value].verdict == Inconclusive
    {
      hide CleanupFailed;
      if a.Escapes? {
        task := Ended;
      } else {
        OnCleanupFailure(i);
      }
    }

    /** A cancellation keeps the slot and the other records; it ends the task exactly before the first step or in the
        cleanup. */
    method SurfaceCancel(i: Input)
      requires HasRun(Snapshot())
      requires task != NoTask && task != Ended
      modifies this
      ensures Snapshot() == DeliverCancel(old(Snapshot()), i)
      ensures activeRunId == old(activeRunId) && files == old(files)
      ensures OthersKept(old(records), records, activeRunId.value)
      ensures task == Ended <==> old(task) == Created || InCleanup(old(task))
      ensures task == Ended ==> records == old(records)
    {
      hide CancelHandler;
      cancelRequested := false;
      match task {
        case Created | AwaitCleanReset(_) | AwaitSample(_) => task := Ended;
        case AwaitReset | AwaitLaunchCancelled | AwaitExit => OnCancel(i);
        case AwaitLaunch => task := AwaitLaunchCancelled;
        case AwaitCancelTerminate => BeginCleanup(ToStop);
        case AwaitErrorTerminate(outcome) => BeginCleanup(outcome);
        case NoTask | Ended =>
      }
    }

    /** A step before the cleanup keeps the slot and the files. */
    method ContinueBody(i: Input)
      requires HasRun(Snapshot()) && !InCleanup(task) && task != NoTask && task != Ended
      modifies this
      ensures Snapshot() == Proceed(old(Snapshot()), i)
      ensures activeRunId == old(activeRunId) && files == old(files)
      ensures OthersKept(old(records), records, activeRunId.value)
      ensures process == if !i.awaited.Succeeds? then old(process)
                         else if old(task).AwaitLaunch? || old(task).AwaitLaunchCancelled? then Live
                         else if old(task).AwaitExit? || old(task).AwaitCancelTerminate? || old(task).AwaitErrorTerminate? then Exited
                         else old(process)
    {
      hide BodyFailed, CancelHandler, ReportError, Conclude;
      match task {
        case Created => task := AwaitReset;
        case AwaitReset =>
          var a := Both(i.awaited, i.localFiles);
          if a.Succeeds? { task := AwaitLaunch; } else { OnFailure(i, a); }
        case AwaitLaunch =>
          if i.awaited.Succeeds? { process, task := Live, AwaitExit; } else { OnFailure(i, i.awaited); }
        case AwaitLaunchCancelled =>
          if i.awaited.Succeeds? { process := Live; OnCancel(i); } else { OnFailure(i, i.awaited); }
        case AwaitExit =>
          if i.awaited.Succeeds? { process := Exited; OnExit(i); } else { OnFailure(i, i.awaited); }
        case AwaitCancelTerminate =>
          if i.awaited.Succeeds? { process := Exited; }
          BeginCleanup(ToStop);
        case AwaitErrorTerminate(outcome) =>
          if i.awaited.Succeeds? { process := Exited; ReportFailure(); } else { BeginCleanup(outcome); }
        case AwaitCleanReset(_) | AwaitSample(_) | NoTask | Ended =>
      }
    }

    /** A step of the cleanup keeps the other records and waits for a sample, releases the slot, or loses it. */
    method ContinueCleanup(i: Input)
      requires HasRun(Snapshot()) && InCleanup(task)
      modifies this
      ensures Snapshot() == Proceed(old(Snapshot()), i)
      ensures OthersKept(old(records), records, old(activeRunId).value)
      ensures task.AwaitSample? || task == Ended
      ensures activeRunId.Some? ==> activeRunId == old(activeRunId)
      ensures activeRunId.None? <==>
                var answer := CleanupAnswer(old(Snapshot()), i);
                task == Ended && !answer.Escapes? && (answer.Succeeds? || i.savedAgain)
    {
      hide Finish, CleanupBroken;
      var outcome, a := task.outcome, Both(i.awaited, i.localFiles);
      if !a.Succeeds? {
        OnCleanupError(i, a);
        return;
      }
      if task.AwaitCleanReset? && files[activeRunId.value].recovery.Missing? {
        task := AwaitSample(outcome);
        return;
      }
      if task.AwaitSample? {
        var id := activeRunId.value;
        files := files[id := files[id].(recovery := i.sample)];
      }
      if i.saved.Succeeds? { Release(outcome); } else { OnCleanupError(i, i.saved); }
    }

    method Continue(i: Input)
      requires HasRun(Snapshot()) && task != NoTask && task != Ended
      modifies this
      ensures Snapshot() == Proceed(old(Snapshot()), i)
      ensures OthersKept(old(records), records, old(activeRunId).value)
      ensures activeRunId.Some? ==> activeRunId == old(activeRunId)
      ensures activeRunId.None? ==> InCleanup(old(task)) && task == Ended
    {
      hide Proceed;
      if InCleanup(task) {
        ContinueCleanup(i);
      } else {
        ContinueBody(i);
      }
    }

    /** One resumption of the executing task. */
    method ResumeTask(i: Input)
      requires Inv(Snapshot())
      modifies this
      ensures Snapshot() == Next(old(Snapshot()), Resume(i)) && Inv(Snapshot())
      ensures activeRunId.None? && old(activeRunId).Some? ==> InCleanup(old(task)) && old(cleanupReset)
      ensures old(activeRunId).None? ==> Snapshot() == old(Snapshot())
      ensures old(activeRunId).Some? ==> OthersKept(old(records), records, old(activeRunId).value)
    {
      hide DeliverCancel, Proceed, ActiveOk, RecordOk, FinishedOk;
      if activeRunId.Some? { CleanupWasReset(Snapshot()); }
      NextKeepsInv(Snapshot(), Resume(i));
      if activeRunId.None? || task == NoTask || task == Ended { NothingToResume(Snapshot(), i); }
      if activeRunId.Some? && task != NoTask && task != Ended {
        if cancelRequested {
          SurfaceCancel(i);
        } else {
          Continue(i);
        }
      }
    }
  }
}
