/** The lab's run lifecycle as a step machine: what can happen between two awaits, and what every interleaving keeps. */
module LabProtocol {
  import opened Text

  type Id = nat

  const MAX_RUNS: nat := 200

  /** A measurement file: absent, readable, malformed, or such that reading it raises an error that the refresh does not
      catch. The executing task's error handler takes some of these errors (too deep a nesting) and not others (a number
      too large for the finiteness test). */
  datatype Evidence = Missing | Metrics(healthy: bool) | Invalid | Raising(handled: bool)

  type Present = e: Evidence | !e.Missing? witness Invalid

  /** The phase file is read for a label only, but reading it may raise as well. */
  datatype Phase = NoPhase | PhaseNamed | PhaseRaises(handled: bool)

  datatype Native = NativeCompleted | NativeDeviated | NativeOther

  /** The journal with its native status; looking for it may raise an operating system error. */
  datatype Journal = NoJournal | Journal(native: Native) | JournalRaises

  /** A run's folder. */
  datatype Files = Files(baseline: Evidence, during: Evidence, recovery: Evidence, phase: Phase, journal: Journal)

  datatype Status = Queued | Running | Stopping | Finalizing | Completed | Stopped | Failed | Interrupted

  datatype Verdict = Pending | Held | Deviated | Inconclusive

  datatype Record = Record(
    status: Status,
    verdict: Verdict,
    baseline: Option<bool>,
    during: Option<bool>,
    recovery: Option<bool>,
    journalAvailable: bool,
    native: Option<Native>)

  datatype Outcome = ToComplete | ToStop | ToFail

  datatype Process = NoProcess | Live | Exited

  /** Where the task that executes a run is suspended. */
  datatype Task =
    | NoTask
    | Created
    | AwaitReset
    | AwaitLaunch
    | AwaitLaunchCancelled
    | AwaitExit
    | AwaitCancelTerminate
    | AwaitErrorTerminate(outcome: Outcome)
    | AwaitCleanReset(outcome: Outcome)
    | AwaitSample(outcome: Outcome)
    | Ended

  datatype Lab = Lab(
    active: Option<Id>,
    task: Task,
    cancelRequested: bool,
    cancelled: bool,
    process: Process,
    cleanupReset: bool,
    records: map<Id, Record>,
    files: map<Id, Files>)

  datatype Terminate = Returns | Suspends | Raises

  /** An operation succeeds, fails with an error that the task's handlers catch, or with one that they do not. */
  datatype Answer = Succeeds | Fails | Escapes

  /** Of two operations in a row the first that does not succeed decides. */
  function Both(first: Answer, second: Answer): Answer {
    if first.Succeeds? then second else first
  }

  /** How the outside world answers one resumption of the task. */
  datatype Input = Input(
    awaited: Answer,      // the awaited operation
    localFiles: Answer,   // reading and writing run files
    exitCode: int,        // how the process ended
    terminate: Terminate, // what signalling a live process does
    saved: Answer,        // the first record save
    savedAgain: bool,     // the save on the failure path succeeded
    sample: Present)      // the recovery file that the cleanup writes

  datatype Event = Start(id: Id) | Get(id: Id) | Stop(id: Id) | Write(files: Files) | Resume(input: Input)

  predicate Terminal(s: Status) {
    s == Completed || s == Stopped || s == Failed || s == Interrupted
  }

  // ---------------------------------------------------------------------------------------------
  // Refresh: the record catches up with the measurement files

  /** Whether an error escapes the refresh, and whether the executing task's error handler would take it. */
  datatype Raise = NoRaise | Handled | Unhandled

  datatype Refreshed = Refreshed(record: Record, raised: Raise)

  function RaiseOf(handled: bool): Raise {
    if handled then Handled else Unhandled
  }

  function MarkInvalid(r: Record): Record {
    r.(status := Failed, verdict := Inconclusive)
  }

  function RefreshBaseline(r: Record, e: Evidence): Record {
    match e
    case Missing => r
    case Metrics(h) => r.(baseline := Some(h))
    case Invalid => MarkInvalid(r.(baseline := None))
    case Raising(_) => r
  }

  function RefreshDuring(r: Record, e: Evidence): Record {
    match e
    case Missing => r
    case Metrics(h) => r.(during := Some(h))
    case Invalid => MarkInvalid(r.(during := None))
    case Raising(_) => r
  }

  function RefreshRecovery(r: Record, e: Evidence): Record {
    match e
    case Missing => r
    case Metrics(h) => r.(recovery := Some(h))
    case Invalid => MarkInvalid(r.(recovery := None))
    case Raising(_) => r
  }

  /** Stage by stage, until an error escapes. */
  function RefreshStages(r: Record, f: Files): Refreshed {
    var r1 := RefreshBaseline(r, f.baseline);
    if f.baseline.Raising? then Refreshed(r1, RaiseOf(f.baseline.handled))
    else
      var r2 := RefreshDuring(r1, f.during);
      if f.during.Raising? then Refreshed(r2, RaiseOf(f.during.handled))
      else
        var r3 := RefreshRecovery(r2, f.recovery);
        Refreshed(r3, if f.recovery.Raising? then RaiseOf(f.recovery.handled) else NoRaise)
  }

  /** The stages, then the phase file of a run that is still running, then the journal. */
  function Refresh(r: Record, f: Files): Refreshed {
    var stages := RefreshStages(r, f);
    if !stages.raised.NoRaise? then stages
    else if stages.record.status == Running && f.phase.PhaseRaises? then Refreshed(stages.record, RaiseOf(f.phase.handled))
    else if f.journal.JournalRaises? then Refreshed(stages.record, Handled)
    else Refreshed(stages.record.(journalAvailable := f.journal.Journal?), NoRaise)
  }

  predicate StageRaises(f: Files) {
    f.baseline.Raising? || f.during.Raising? || f.recovery.Raising?
  }

  /** The refresh meets a malformed measurement before any measurement over which it raises. */
  predicate MarkedByRefresh(f: Files) {
    && !f.baseline.Raising?
    && (f.baseline.Invalid?
        || (!f.during.Raising? && (f.during.Invalid? || f.recovery.Invalid?)))
  }

  /** An error escapes the refresh: from a measurement, from the phase of a run that is running and stays so, or from the
      journal. */
  predicate RefreshRaises(r: Record, f: Files) {
    || StageRaises(f)
    || (r.status == Running && !MarkedByRefresh(f) && f.phase.PhaseRaises?)
    || f.journal.JournalRaises?
  }

  // ---------------------------------------------------------------------------------------------
  // The executing task

  function TaskRecord(s: Lab): Record
    requires s.active.Some? && s.active.value in s.records
  {
    s.records[s.active.value]
  }

  function WithRecord(s: Lab, r: Record): Lab
    requires s.active.Some?
  {
    s.(records := s.records[s.active.value := r])
  }

  predicate HasRun(s: Lab) {
    s.active.Some? && s.active.value in s.records && s.active.value in s.files
  }

  function EnterCleanup(s: Lab, outcome: Outcome): Lab {
    s.(task := AwaitCleanReset(outcome), cleanupReset := true)
  }

  /** Signalling does nothing, and suspends nobody, unless a process is live. */
  function Signal(s: Lab, i: Input): Terminate {
    if s.process == Live then i.terminate else Returns
  }

  function CancelHandler(s: Lab, i: Input): Lab
    requires HasRun(s)
  {
    var t := WithRecord(s, TaskRecord(s).(status := Stopping, verdict := Inconclusive));
    match Signal(s, i)
    case Suspends => t.(task := AwaitCancelTerminate)
    case Raises => EnterCleanup(t, ToStop)
    case Returns => EnterCleanup(t, ToStop)
  }

  function ReportError(s: Lab): Lab
    requires HasRun(s)
  {
    EnterCleanup(WithRecord(s, TaskRecord(s).(status := Finalizing, verdict := Inconclusive)), ToFail)
  }

  function ErrorHandler(s: Lab, i: Input, outcome: Outcome): Lab
    requires HasRun(s)
  {
    match Signal(s, i)
    case Suspends => s.(task := AwaitErrorTerminate(outcome))
    case Raises => EnterCleanup(s, outcome)
    case Returns => ReportError(s)
  }

  /** The error handler takes an error of its classes; any other goes straight to the cleanup. */
  function BodyFailed(s: Lab, i: Input, a: Answer): Lab
    requires HasRun(s)
  {
    if a.Escapes? then EnterCleanup(s, ToFail) else ErrorHandler(s, i, ToFail)
  }

  function VerdictOf(baseline: bool, during: bool, recovery: bool): Verdict {
    if !baseline || !recovery then Inconclusive else if !during then Deviated else Held
  }

  datatype Judgement = Refused(record: Record, why: Answer) | Accepted(record: Record)

  function NativeOf(j: Journal): Option<Native> {
    if j.Journal? then Some(j.native) else None
  }

  /** What the evidence that has just been read allows to be written into the record. */
  function Examine(r: Record, f: Files, i: Input): Judgement {
    var native := NativeOf(f.journal);
    if r.baseline.None? || r.during.None? || r.recovery.None? || !r.journalAvailable then Refused(r, Fails)
    else if !i.localFiles.Succeeds? then Refused(r, i.localFiles)
    else if (native != Some(NativeCompleted) && native != Some(NativeDeviated)) || (i.exitCode != 0 && i.exitCode != 1)
    then Refused(r.(native := native), Fails)
    else
      Accepted(r.(native := native, status := Finalizing,
                  verdict := VerdictOf(r.baseline.value, r.during.value, r.recovery.value)))
  }

  /** Decide the verdict of a run whose evidence has just been read. */
  function Judge(t: Lab, i: Input): Lab
    requires HasRun(t)
  {
    var judgement := Examine(TaskRecord(t), t.files[t.active.value], i);
    var u := WithRecord(t, judgement.record);
    if judgement.Refused? then BodyFailed(u, i, judgement.why)
    else if i.saved.Fails? then ErrorHandler(u, i, ToComplete)
    else EnterCleanup(u, ToComplete)
  }

  /** After the process has exited: read the evidence, then judge it. */
  function Conclude(s: Lab, i: Input): Lab
    requires HasRun(s)
  {
    var refreshed := Refresh(TaskRecord(s), s.files[s.active.value]);
    var t := WithRecord(s, refreshed.record);
    match refreshed.raised
    case NoRaise => Judge(t, i)
    case Handled => BodyFailed(t, i, Fails)
    case Unhandled => BodyFailed(t, i, Escapes)
  }

  function StatusOf(outcome: Outcome): Status {
    match outcome
    case ToComplete => Completed
    case ToStop => Stopped
    case ToFail => Failed
  }

  /** The last refresh settles the status unless it raises. */
  function Settled(r: Record, f: Files, outcome: Outcome): Record {
    var refreshed := Refresh(r, f);
    if !refreshed.raised.NoRaise? then refreshed.record
    else refreshed.record.(status := if refreshed.record.status == Failed then Failed else StatusOf(outcome))
  }

  /** The last block releases the slot whether or not the final refresh raised. */
  function Finish(s: Lab, outcome: Outcome): Lab
    requires HasRun(s)
  {
    WithRecord(s, Settled(TaskRecord(s), s.files[s.active.value], outcome)).(active := None, process := NoProcess, task := Ended)
  }

  function CleanupFailed(s: Lab, i: Input): Lab
    requires HasRun(s)
  {
    var t := WithRecord(s, TaskRecord(s).(verdict := Inconclusive));
    if i.savedAgain then Finish(t, ToFail) else t.(task := Ended)
  }

  /** An error that the cleanup does not catch ends the task at once, with the slot taken. */
  function CleanupBroken(s: Lab, i: Input, a: Answer): Lab
    requires HasRun(s)
  {
    if a.Escapes? then s.(task := Ended) else CleanupFailed(s, i)
  }

  /** A pending cancellation surfaces at the await where the task is suspended. */
  function DeliverCancel(s: Lab, i: Input): Lab
    requires HasRun(s)
  {
    var t := s.(cancelRequested := false);
    match s.task
    case NoTask => s
    case Created => t.(task := Ended)
    case AwaitReset => CancelHandler(t, i)
    case AwaitLaunch => t.(task := AwaitLaunchCancelled)
    case AwaitLaunchCancelled => CancelHandler(t, i)
    case AwaitExit => CancelHandler(t, i)
    case AwaitCancelTerminate => EnterCleanup(t, ToStop)
    case AwaitErrorTerminate(outcome) => EnterCleanup(t, outcome)
    case AwaitCleanReset(_) => t.(task := Ended)
    case AwaitSample(_) => t.(task := Ended)
    case Ended => s
  }

  /** The lab's own recovery sample, written when the process left none. */
  function Sampled(s: Lab, i: Input): Lab
    requires HasRun(s)
  {
    s.(files := s.files[s.active.value := s.files[s.active.value].(recovery := i.sample)])
  }

  function Proceed(s: Lab, i: Input): Lab
    requires HasRun(s)
  {
    match s.task
    case NoTask => s
    case Created => s.(task := AwaitReset)
    case AwaitReset =>
      var a := Both(i.awaited, i.localFiles);
      if a.Succeeds? then s.(task := AwaitLaunch) else BodyFailed(s, i, a)
    case AwaitLaunch =>
      if i.awaited.Succeeds? then s.(process := Live, task := AwaitExit) else BodyFailed(s, i, i.awaited)
    case AwaitLaunchCancelled =>
      if i.awaited.Succeeds? then CancelHandler(s.(process := Live), i) else BodyFailed(s, i, i.awaited)
    case AwaitExit =>
      if i.awaited.Succeeds? then Conclude(s.(process := Exited), i) else BodyFailed(s, i, i.awaited)
    case AwaitCancelTerminate => EnterCleanup(if i.awaited.Succeeds? then s.(process := Exited) else s, ToStop)
    case AwaitErrorTerminate(outcome) =>
      if i.awaited.Succeeds? then ReportError(s.(process := Exited)) else EnterCleanup(s, outcome)
    case AwaitCleanReset(outcome) =>
      var a := Both(i.awaited, i.localFiles);
      if !a.Succeeds? then CleanupBroken(s, i, a)
      else if s.files[s.active.value].recovery.Missing? then s.(task := AwaitSample(outcome))
      else if i.saved.Succeeds? then Finish(s, outcome)
      else CleanupBroken(s, i, i.saved)
    case AwaitSample(outcome) =>
      var a := Both(i.awaited, i.localFiles);
      if !a.Succeeds? then CleanupBroken(s, i, a)
      else
        var t := Sampled(s, i);
        if i.saved.Succeeds? then Finish(t, outcome) else CleanupBroken(t, i, i.saved)
    case Ended => s
  }

  // ---------------------------------------------------------------------------------------------
  // One event

  const FRESH_RECORD := Record(Running, Pending, None, None, None, false, None)

  const NO_FILES := Files(Missing, Missing, Missing, NoPhase, NoJournal)

  /** A launching or live process may write the active run's evidence; it never takes a file away. */
  predicate MayWrite(s: Lab, f: Files) {
    && HasRun(s)
    && (s.process == Live || s.task == AwaitLaunch || s.task == AwaitLaunchCancelled)
    && var g := s.files[s.active.value];
       && (f.baseline.Missing? ==> g.baseline.Missing?)
       && (f.during.Missing? ==> g.during.Missing?)
       && (f.recovery.Missing? ==> g.recovery.Missing?)
  }

  function Next(s: Lab, e: Event): Lab {
    match e
    case Start(id) =>
      if s.active.Some? || |s.records| >= MAX_RUNS || id in s.records then s
      else s.(active := Some(id), task := Created, cancelRequested := false, cancelled := false, process := NoProcess,
              cleanupReset := false, records := s.records[id := FRESH_RECORD], files := s.files[id := NO_FILES])
    case Get(id) =>
      if id in s.records && id in s.files then s.(records := s.records[id := Refresh(s.records[id], s.files[id]).record]) else s
    case Stop(id) =>
      if s.active == Some(id) && id in s.records && s.task != NoTask && s.task != Ended
         && s.records[id].status == Running && !s.cancelled
      then s.(cancelRequested := true, cancelled := true)
      else s
    case Write(f) =>
      if MayWrite(s, f) then s.(files := s.files[s.active.value := f]) else s
    case Resume(i) =>
      if !HasRun(s) then s else if s.cancelRequested then DeliverCancel(s, i) else Proceed(s, i)
  }

  function Run(s: Lab, events: seq<Event>): Lab {
    if events == [] then s else Next(Run(s, events[..|events| - 1]), events[|events| - 1])
  }

  // ---------------------------------------------------------------------------------------------
  // Starting up

  function Interrupt(r: Record): Record {
    if Terminal(r.status) then r else r.(status := Interrupted, verdict := Inconclusive)
  }

  /** The engine after it has read the records of earlier processes and marked what they left unfinished. */
  function Initialized(records: map<Id, Record>, files: map<Id, Files>): Lab {
    Lab(None, NoTask, false, false, NoProcess, false, map id <- records :: Interrupt(records[id]), files)
  }

  /** A completed record agrees with its measurement files and its verdict with both. */
  predicate Conclusive(r: Record, f: Files) {
    && r.baseline.Some? && r.during.Some? && r.recovery.Some?
    && f.baseline == Metrics(r.baseline.value) && f.during == Metrics(r.during.value) && f.recovery == Metrics(r.recovery.value)
    && r.verdict == VerdictOf(r.baseline.value, r.during.value, r.recovery.value)
  }

  predicate IsResult(v: Verdict) {
    v == Held || v == Deviated
  }

  /** What a record on disk has to keep for its result to be believed: a completed run agrees with its measurements, and
      nothing else that is finished claims a result. */
  predicate Sound(r: Record, f: Files) {
    && (r.status == Completed ==> Conclusive(r, f))
    && (Terminal(r.status) && IsResult(r.verdict) ==> r.status == Completed)
  }

  /** Every record found on disk lies in its own folder. */
  predicate Loadable(records: map<Id, Record>, files: map<Id, Files>) {
    records.Keys == files.Keys
  }

  // ---------------------------------------------------------------------------------------------
  // The invariant

  predicate InCleanup(t: Task) {
    t.AwaitCleanReset? || t.AwaitSample?
  }

  predicate Completing(t: Task) {
    InCleanup(t) && t.outcome == ToComplete
  }

  /** A record is unfinished only as the active one, unless its evidence makes the refresh raise. */
  predicate FinishedOk(s: Lab, id: Id)
    requires id in s.records && id in s.files
  {
    !Terminal(s.records[id].status) ==> s.active == Some(id) || RefreshRaises(s.records[id], s.files[id])
  }

  /** A record that can be believed: its verdict, and its evidence when it is completed. */
  predicate RecordOk(s: Lab, id: Id)
    requires id in s.records && id in s.files
  {
    var r, f := s.records[id], s.files[id];
    && (r.status == Completed ==> s.active != Some(id) && Conclusive(r, f))
    && (IsResult(r.verdict) ==>
          r.status == Completed || (s.active == Some(id) && r.status == Finalizing && (Completing(s.task) || s.task == Ended)))
    && FinishedOk(s, id)
  }

  /** A measurement in the record has a file behind it. */
  predicate Recorded(r: Record, f: Files) {
    && (r.baseline.Some? ==> !f.baseline.Missing?)
    && (r.during.Some? ==> !f.during.Missing?)
    && (r.recovery.Some? ==> !f.recovery.Missing?)
  }

  /** Which status the executing task leaves in the record at each await; a refresh may have made it failed. */
  predicate Fits(task: Task, status: Status) {
    || status == Failed
    || match task
       case NoTask => true
       case Ended => status == Running || status == Stopping || status == Finalizing
       case AwaitCancelTerminate => status == Stopping
       case AwaitCleanReset(outcome) => FitsOutcome(outcome, status)
       case AwaitSample(outcome) => FitsOutcome(outcome, status)
       case _ => status == Running
  }

  predicate FitsOutcome(outcome: Outcome, status: Status) {
    match outcome
    case ToStop => status == Stopping
    case ToFail => status == Running || status == Finalizing
    case ToComplete => status == Finalizing
  }

  /** The active run has its verdict: it is about to complete, or an error has ended its task just before. */
  predicate Concluded(s: Lab)
    requires HasRun(s)
  {
    Completing(s.task) || (s.task == Ended && IsResult(TaskRecord(s).verdict))
  }

  /** The active run: what its status can be, and what it holds once it is about to complete. */
  predicate ActiveOk(s: Lab)
    requires HasRun(s)
  {
    var r, f := TaskRecord(s), s.files[s.active.value];
    && (r.status == Running || r.status == Stopping || r.status == Finalizing || r.status == Failed)
    && Recorded(r, f)
    && (Concluded(s) ==>
          r.status == Finalizing && s.process == Exited && !s.cancelRequested && Conclusive(r, f) && !f.journal.JournalRaises?)
    && (s.task.AwaitSample? ==> s.task.outcome != ToComplete)
    && (s.task.AwaitErrorTerminate? ==> s.task.outcome == ToFail && s.process == Live)
    && (s.cancelRequested ==> s.cancelled)
    && (s.task == AwaitLaunchCancelled || r.status == Stopping ==> s.cancelled)
    && Fits(s.task, r.status)
    && (InCleanup(s.task) ==> s.cleanupReset)
  }

  /** Nothing is assumed of loaded records but their folders; the active run can be believed. */
  ghost predicate Inv(s: Lab) {
    && s.records.Keys == s.files.Keys
    && (s.active.Some? ==> HasRun(s) && s.task != NoTask && ActiveOk(s) && RecordOk(s, s.active.value))
    && (s.active.None? ==> s.task == NoTask || s.task == Ended)
    && forall id <- s.records :: FinishedOk(s, id)
  }

  /** Whatever the records on disk say. */
  lemma InitializedInv(records: map<Id, Record>, files: map<Id, Files>)
    requires Loadable(records, files)
    ensures Inv(Initialized(records, files))
    ensures forall id <- records :: Terminal(Initialized(records, files).records[id].status)
    ensures forall id <- records :: Sound(records[id], files[id]) ==> RecordOk(Initialized(records, files), id)
    ensures forall id <- records ::
              Initialized(records, files).records[id] ==
              if Terminal(records[id].status) then records[id]
              else records[id].(status := Interrupted, verdict := Inconclusive)
  {
  }

  // ---------------------------------------------------------------------------------------------
  // Every event keeps the invariant

  /** t differs from s at most in the active run, which it may have released. */
  predicate SameElsewhere(s: Lab, t: Lab)
    requires HasRun(s)
  {
    && (t.active == s.active || t.active == None)
    && t.records.Keys == s.records.Keys && t.files.Keys == s.files.Keys
    && forall id <- s.records :: id != s.active.value && id in s.files ==> t.records[id] == s.records[id] && t.files[id] == s.files[id]
  }

  /** The active run of s is in order in t. */
  predicate RunOk(s: Lab, t: Lab)
    requires HasRun(s)
  {
    && SameElsewhere(s, t)
    && RecordOk(t, s.active.value)
    && (t.active.Some? ==> t.task != NoTask && ActiveOk(t))
    && (t.active.None? ==> t.task == Ended)
  }

  lemma RunOkKeepsInv(s: Lab, t: Lab)
    requires Inv(s) && HasRun(s) && RunOk(s, t)
    ensures Inv(t)
  {
    forall id | id in t.records ensures FinishedOk(t, id) {
      assert FinishedOk(s, id);
    }
  }

  /** A run in progress that has not produced a result. */
  predicate InProgress(s: Lab) {
    && HasRun(s)
    && (TaskRecord(s).status == Running || TaskRecord(s).status == Stopping || TaskRecord(s).status == Finalizing || TaskRecord(s).status == Failed)
    && !IsResult(TaskRecord(s).verdict)
    && Recorded(TaskRecord(s), s.files[s.active.value])
    && (s.cancelRequested ==> s.cancelled)
    && (TaskRecord(s).status == Stopping ==> s.cancelled)
  }

  lemma RefreshFacts(r: Record, f: Files)
    ensures var x := Refresh(r, f);
            && (!x.raised.NoRaise? <==> RefreshRaises(r, f))
            && x.record.status == (if MarkedByRefresh(f) then Failed else r.status)
            && x.record.verdict == (if MarkedByRefresh(f) then Inconclusive else r.verdict)
            && RefreshRaises(x.record, f) == RefreshRaises(r, f)
  {
  }

  /** What a stage's file makes of the measurement recorded so far. */
  predicate Reads(before: Option<bool>, e: Evidence, after: Option<bool>) {
    match e
    case Missing => after == before
    case Metrics(healthy) => after == Some(healthy)
    case Invalid => after == None
    case Raising(_) => after == before
  }

  /** A refresh from which no error escapes takes every measurement from its own file and looks for the journal. */
  lemma RefreshReads(r: Record, f: Files)
    requires !RefreshRaises(r, f)
    ensures var x := Refresh(r, f).record;
            && Reads(r.baseline, f.baseline, x.baseline)
            && Reads(r.during, f.during, x.during)
            && Reads(r.recovery, f.recovery, x.recovery)
            && (x.journalAvailable <==> f.journal.Journal?) && x.native == r.native
  {
  }

  lemma RefreshKeepsRecorded(r: Record, f: Files)
    requires Recorded(r, f)
    ensures Recorded(Refresh(r, f).record, f)
  {
  }

  /** A refresh changes nothing in a record that agrees with its files and is past reading the phase. */
  lemma RefreshKeepsConclusive(r: Record, f: Files)
    requires Conclusive(r, f) && r.status != Running
    ensures Refresh(r, f).record == r.(journalAvailable := Refresh(r, f).record.journalAvailable)
    ensures !f.journal.JournalRaises? ==> Refresh(r, f).raised.NoRaise?
  {
  }

  /** Everything about two states that concerns records and files is the same. */
  predicate SameRecords(s: Lab, t: Lab) {
    s.active == t.active && s.records == t.records && s.files == t.files
  }

  lemma SameStart(s: Lab, s': Lab, t: Lab)
    requires HasRun(s) && SameRecords(s, s') && RunOk(s', t)
    ensures RunOk(s, t)
  {
  }

  lemma WithRecordStart(s: Lab, r: Record, t: Lab)
    requires HasRun(s) && RunOk(WithRecord(s, r), t)
    ensures RunOk(s, t)
  {
  }

  lemma StillInProgress(s: Lab, r: Record)
    requires InProgress(s) && Recorded(r, s.files[s.active.value])
    requires r.status == TaskRecord(s).status || r.status == Failed
    requires r.verdict == TaskRecord(s).verdict || r.verdict == Inconclusive
    ensures InProgress(WithRecord(s, r))
  {
  }

  lemma InProgressHasRun(s: Lab)
    requires InProgress(s)
    ensures HasRun(s) && Recorded(TaskRecord(s), s.files[s.active.value]) && (s.cancelRequested ==> s.cancelled)
    ensures TaskRecord(s).status == Stopping ==> s.cancelled
  {
  }

  lemma InProgressElsewhere(s: Lab, t: Lab)
    requires InProgress(s) && SameRecords(s, t) && (t.cancelRequested ==> t.cancelled) && (s.cancelled ==> t.cancelled)
    ensures InProgress(t)
  {
  }

  lemma PauseOk(s: Lab, t: Lab)
    requires InProgress(s) && SameRecords(s, t) && !InCleanup(t.task) && !t.task.AwaitErrorTerminate? && t.task != NoTask
    requires (t.cancelRequested ==> t.cancelled) && (s.cancelled ==> t.cancelled)
    requires (t.task == AwaitLaunchCancelled ==> t.cancelled) && Fits(t.task, TaskRecord(s).status)
    ensures RunOk(s, t)
  {
  }

  lemma CleanupOk(s: Lab, outcome: Outcome)
    requires InProgress(s) && outcome != ToComplete && Fits(AwaitCleanReset(outcome), TaskRecord(s).status)
    ensures RunOk(s, EnterCleanup(s, outcome))
  {
  }

  lemma ReportErrorOk(s: Lab)
    requires HasRun(s) && (s.cancelRequested ==> s.cancelled) && Recorded(TaskRecord(s), s.files[s.active.value])
    ensures RunOk(s, ReportError(s))
  {
  }

  lemma ErrorHandlerOk(s: Lab, i: Input)
    requires InProgress(s) && !InCleanup(s.task) && Fits(AwaitExit, TaskRecord(s).status)
    ensures RunOk(s, ErrorHandler(s, i, ToFail))
  {
    ReportErrorOk(s);
    CleanupOk(s, ToFail);
  }

  lemma BodyFailedOk(s: Lab, i: Input, a: Answer)
    requires InProgress(s) && !InCleanup(s.task) && Fits(AwaitExit, TaskRecord(s).status)
    ensures RunOk(s, BodyFailed(s, i, a))
  {
    hide RunOk, InProgress, ErrorHandler, EnterCleanup;
    ErrorHandlerOk(s, i);
    CleanupOk(s, ToFail);
  }

  lemma CancelHandlerOk(s: Lab, i: Input)
    requires HasRun(s) && s.cancelled && Recorded(TaskRecord(s), s.files[s.active.value])
    ensures RunOk(s, CancelHandler(s, i))
  {
    hide RunOk;
    var r := TaskRecord(s).(status := Stopping, verdict := Inconclusive);
    var t := WithRecord(s, r);
    CleanupOk(t, ToStop);
    PauseOk(t, t.(task := AwaitCancelTerminate));
    WithRecordStart(s, r, EnterCleanup(t, ToStop));
    WithRecordStart(s, r, t.(task := AwaitCancelTerminate));
  }

  /** The release leaves a terminal record unless the final refresh raised before marking it failed. */
  lemma FinishOk(s: Lab, outcome: Outcome)
    requires HasRun(s)
    requires outcome == ToComplete ==>
               && TaskRecord(s).status == Finalizing && Conclusive(TaskRecord(s), s.files[s.active.value])
               && !s.files[s.active.value].journal.JournalRaises?
    requires outcome != ToComplete ==> InProgress(s)
    ensures RunOk(s, Finish(s, outcome))
    ensures Finish(s, outcome).active == None
  {
    hide Refresh;
    var r, f := TaskRecord(s), s.files[s.active.value];
    RefreshFacts(r, f);
    if outcome == ToComplete { RefreshKeepsConclusive(r, f); }
  }

  lemma CleanupFailedOk(s: Lab, i: Input)
    requires HasRun(s) && ActiveOk(s)
    ensures RunOk(s, CleanupFailed(s, i))
  {
    var t := WithRecord(s, TaskRecord(s).(verdict := Inconclusive));
    if i.savedAgain { FinishOk(t, ToFail); }
  }

  /** A refresh that leaves every measurement in place has read every one of them from its file. */
  lemma RefreshedMatches(r: Record, f: Files)
    requires Recorded(r, f)
    ensures var x := Refresh(r, f);
            x.raised.NoRaise? && x.record.baseline.Some? && x.record.during.Some? && x.record.recovery.Some? ==>
              && f.baseline == Metrics(x.record.baseline.value)
              && f.during == Metrics(x.record.during.value)
              && f.recovery == Metrics(x.record.recovery.value)
  {
  }

  /** Every measurement in the record is what its file says. */
  predicate MeasurementsMatch(r: Record, f: Files) {
    r.baseline.Some? && r.during.Some? && r.recovery.Some? ==>
      && f.baseline == Metrics(r.baseline.value)
      && f.during == Metrics(r.during.value)
      && f.recovery == Metrics(r.recovery.value)
  }

  lemma JudgeOk(t: Lab, i: Input)
    requires InProgress(t) && t.process == Exited && !t.cancelRequested && !InCleanup(t.task)
    requires Fits(AwaitExit, TaskRecord(t).status)
    requires MeasurementsMatch(TaskRecord(t), t.files[t.active.value])
    ensures RunOk(t, Judge(t, i))
  {
    hide ErrorHandler, BodyFailed, RunOk, InProgress, EnterCleanup, Examine;
    InProgressHasRun(t);
    var r, f := TaskRecord(t), t.files[t.active.value];
    var judgement := Examine(r, f, i);
    var u := WithRecord(t, judgement.record);
    ExamineFacts(r, f, i);
    if judgement.Refused? {
      StillInProgress(t, judgement.record);
      BodyFailedOk(u, i, judgement.why);
      WithRecordStart(t, judgement.record, BodyFailed(u, i, judgement.why));
    } else {
      DecidedOk(t, u, judgement.record, i);
    }
  }

  /** An accepted record carries the verdict of its measurements; a refused one claims nothing new. */
  lemma ExamineFacts(r: Record, f: Files, i: Input)
    ensures var j := Examine(r, f, i);
            && (Recorded(r, f) ==> Recorded(j.record, f))
            && (j.Refused? ==> j.record.status == r.status && j.record.verdict == r.verdict)
            && (j.Accepted? ==>
                  && j.record.status == Finalizing && f.journal.Journal?
                  && (MeasurementsMatch(r, f) ==> Conclusive(j.record, f)))
  {
  }

  /** A result is accepted exactly with three measurements, a journal that says completed or deviated, an exit code of 0
      or 1, and files that can be read; and it changes nothing but native status, status and verdict. */
  lemma AcceptedExactlyWhen(r: Record, f: Files, i: Input)
    ensures Examine(r, f, i).Accepted? <==>
            && r.baseline.Some? && r.during.Some? && r.recovery.Some? && r.journalAvailable
            && (f.journal == Journal(NativeCompleted) || f.journal == Journal(NativeDeviated))
            && 0 <= i.exitCode <= 1 && i.localFiles == Succeeds
    ensures Examine(r, f, i).Accepted? ==>
              Examine(r, f, i).record ==
              r.(status := Finalizing, native := Some(f.journal.native), verdict := Examine(r, f, i).record.verdict)
  {
  }

  /** The evidence of a run that may complete: three readable measurements, a journal that says completed or deviated, and
      no phase that stops a running run's refresh. */
  predicate Evident(r: Record, f: Files) {
    && f.baseline.Metrics? && f.during.Metrics? && f.recovery.Metrics?
    && (f.journal == Journal(NativeCompleted) || f.journal == Journal(NativeDeviated))
    && (r.status == Running ==> !f.phase.PhaseRaises?)
  }

  /** A task sets out to complete its run exactly when its process has exited with 0 or 1 and has left such evidence, and
      nothing fails; the verdict is then that of the files. */
  lemma CompletesExactlyWhen(s: Lab, e: Event)
    requires Inv(s) && s.task != AwaitCleanReset(ToComplete)
    ensures Next(s, e).task == AwaitCleanReset(ToComplete) <==>
            && e.Resume? && s.task == AwaitExit && HasRun(s) && !s.cancelRequested
            && e.input.awaited == Succeeds && e.input.localFiles == Succeeds && !e.input.saved.Fails?
            && 0 <= e.input.exitCode <= 1 && Evident(s.records[s.active.value], s.files[s.active.value])
    ensures Next(s, e).task == AwaitCleanReset(ToComplete) ==>
              && HasRun(s) && s.active.value in Next(s, e).records
              && var f, r := s.files[s.active.value], Next(s, e).records[s.active.value];
                 && r.status == Finalizing && f.baseline.Metrics? && f.during.Metrics? && f.recovery.Metrics?
                 && r.baseline == Some(f.baseline.healthy) && r.during == Some(f.during.healthy)
                 && r.recovery == Some(f.recovery.healthy)
                 && r.verdict == VerdictOf(f.baseline.healthy, f.during.healthy, f.recovery.healthy)
  {
    hide Conclude, DeliverCancel, Proceed;
    if e.Resume? && HasRun(s) {
      if s.cancelRequested {
        CancelNeverCompletes(s, e.input);
      } else if s.task == AwaitExit {
        ExitCompletes(s, e.input);
      } else {
        OthersNeverComplete(s, e.input);
      }
    }
  }

  lemma CancelNeverCompletes(s: Lab, i: Input)
    requires Inv(s) && HasRun(s) && s.cancelRequested && s.task != AwaitCleanReset(ToComplete)
    ensures DeliverCancel(s, i).task != AwaitCleanReset(ToComplete)
  {
  }

  lemma OthersNeverComplete(s: Lab, i: Input)
    requires Inv(s) && HasRun(s) && s.task != AwaitExit && s.task != AwaitCleanReset(ToComplete)
    ensures Proceed(s, i).task != AwaitCleanReset(ToComplete)
  {
    hide Conclude, RecordOk, BodyFailed, CancelHandler;
    if InCleanup(s.task) {
      CleanupEndsOrSamples(s, i);
      hide Proceed;
    } else {
      BodyNeverCompletes(s, i, Both(i.awaited, i.localFiles));
      BodyNeverCompletes(s, i, i.awaited);
      BodyNeverCompletes(s.(process := Live), i, i.awaited);
    }
  }

  lemma CleanupEndsOrSamples(s: Lab, i: Input)
    requires HasRun(s) && InCleanup(s.task)
    ensures Proceed(s, i).task == Ended || Proceed(s, i).task.AwaitSample?
  {
    hide Settled;
  }

  lemma BodyNeverCompletes(s: Lab, i: Input, a: Answer)
    requires HasRun(s)
    ensures BodyFailed(s, i, a).task != AwaitCleanReset(ToComplete) && CancelHandler(s, i).task != AwaitCleanReset(ToComplete)
  {
  }

  lemma ExitCompletes(s: Lab, i: Input)
    requires Inv(s) && HasRun(s) && !s.cancelRequested && s.task == AwaitExit
    ensures Proceed(s, i).task == AwaitCleanReset(ToComplete) <==>
            && i.awaited == Succeeds && i.localFiles == Succeeds && !i.saved.Fails?
            && 0 <= i.exitCode <= 1 && Evident(s.records[s.active.value], s.files[s.active.value])
    ensures Proceed(s, i).task == AwaitCleanReset(ToComplete) ==>
              && s.active.value in Proceed(s, i).records
              && var f, r := s.files[s.active.value], Proceed(s, i).records[s.active.value];
                 && r.status == Finalizing && f.baseline.Metrics? && f.during.Metrics? && f.recovery.Metrics?
                 && r.baseline == Some(f.baseline.healthy) && r.during == Some(f.during.healthy)
                 && r.recovery == Some(f.recovery.healthy)
                 && r.verdict == VerdictOf(f.baseline.healthy, f.during.healthy, f.recovery.healthy)
  {
    hide Refresh, Examine, BodyFailed, RecordOk;
    var r, f := TaskRecord(s), s.files[s.active.value];
    var x, t := Refresh(r, f), WithRecord(s.(process := Exited), Refresh(r, f).record);
    RefreshFacts(r, f);
    BodyNeverCompletes(s, i, i.awaited);
    BodyNeverCompletes(t, i, Fails);
    BodyNeverCompletes(t, i, Escapes);
    if x.raised.NoRaise? {
      var j := Examine(x.record, f, i);
      if j.Refused? { BodyNeverCompletes(WithRecord(t, j.record), i, j.why); }
      RefreshReads(r, f);
      AcceptedExactlyWhen(x.record, f, i);
      ExamineFacts(x.record, f, i);
    }
  }

  lemma ConcludeOk(s: Lab, i: Input)
    requires InProgress(s) && s.process == Exited && !s.cancelRequested && !InCleanup(s.task)
    requires Fits(AwaitExit, TaskRecord(s).status)
    ensures RunOk(s, Conclude(s, i))
  {
    hide Judge, Refresh, RunOk, InProgress, BodyFailed;
    InProgressHasRun(s);
    var f := s.files[s.active.value];
    var refreshed := Refresh(TaskRecord(s), f);
    var t := WithRecord(s, refreshed.record);
    RefreshFacts(TaskRecord(s), f);
    RefreshKeepsRecorded(TaskRecord(s), f);
    StillInProgress(s, refreshed.record);
    match refreshed.raised
    case NoRaise =>
      RefreshedMatches(TaskRecord(s), f);
      JudgeOk(t, i);
      WithRecordStart(s, refreshed.record, Judge(t, i));
    case Handled =>
      BodyFailedOk(t, i, Fails);
      WithRecordStart(s, refreshed.record, BodyFailed(t, i, Fails));
    case Unhandled =>
      BodyFailedOk(t, i, Escapes);
      WithRecordStart(s, refreshed.record, BodyFailed(t, i, Escapes));
  }

  lemma DecidedOk(s: Lab, v: Lab, last: Record, i: Input)
    requires HasRun(s) && s.process == Exited && !s.cancelRequested && !s.files[s.active.value].journal.JournalRaises?
    requires last.status == Finalizing && Conclusive(last, s.files[s.active.value]) && v == WithRecord(s, last)
    ensures RunOk(s, EnterCleanup(v, ToComplete))
    ensures RunOk(s, ErrorHandler(v, i, ToComplete))
  {
    ExitedMeansReport(v, i);
  }

  lemma ExitedMeansReport(s: Lab, i: Input)
    requires HasRun(s) && s.process == Exited
    ensures ErrorHandler(s, i, ToComplete) == ReportError(s)
  {
  }

  lemma InvInProgress(s: Lab)
    requires Inv(s) && HasRun(s) && !Concluded(s)
    ensures InProgress(s)
  {
    assert RecordOk(s, s.active.value);
  }

  lemma DeliverCancelOk(s: Lab, i: Input)
    requires Inv(s) && HasRun(s) && s.cancelRequested
    ensures RunOk(s, DeliverCancel(s, i))
  {
    hide CancelHandler, EnterCleanup, Refresh, RunOk, InProgress;
    InvInProgress(s);
    InProgressHasRun(s);
    var t := s.(cancelRequested := false);
    InProgressElsewhere(s, t);
    match s.task
    case NoTask =>
    case Created => PauseOk(s, t.(task := Ended));
    case AwaitReset => CancelHandlerOk(t, i); SameStart(s, t, CancelHandler(t, i));
    case AwaitLaunch => PauseOk(s, t.(task := AwaitLaunchCancelled));
    case AwaitLaunchCancelled => CancelHandlerOk(t, i); SameStart(s, t, CancelHandler(t, i));
    case AwaitExit => CancelHandlerOk(t, i); SameStart(s, t, CancelHandler(t, i));
    case AwaitCancelTerminate => CleanupOk(t, ToStop); SameStart(s, t, EnterCleanup(t, ToStop));
    case AwaitErrorTerminate(o) => CleanupOk(t, o); SameStart(s, t, EnterCleanup(t, o));
    case AwaitCleanReset(_) => PauseOk(s, t.(task := Ended));
    case AwaitSample(_) => PauseOk(s, t.(task := Ended));
    case Ended => PauseOk(s, s);
  }

  lemma CleanupBrokenOk(s: Lab, i: Input, a: Answer)
    requires HasRun(s) && ActiveOk(s) && RecordOk(s, s.active.value) && InCleanup(s.task)
    ensures RunOk(s, CleanupBroken(s, i, a))
  {
    hide CleanupFailed;
    CleanupFailedOk(s, i);
  }

  lemma CleanupStepOk(s: Lab, i: Input)
    requires Inv(s) && HasRun(s) && !s.cancelRequested && InCleanup(s.task)
    ensures RunOk(s, Proceed(s, i))
  {
    hide CleanupBroken, Finish, Refresh, RunOk, InProgress;
    var outcome, a := s.task.outcome, Both(i.awaited, i.localFiles);
    CleanupBrokenOk(s, i, a);
    CleanupBrokenOk(s, i, i.saved);
    if Completing(s.task) {
      FinishOk(s, ToComplete);
    } else {
      InvInProgress(s);
      FinishOk(s, outcome);
      var t := Sampled(s, i);
      SampledOk(s, i);
      CleanupBrokenOk(t, i, i.saved);
      FinishOk(t, outcome);
      SampledStart(s, i, CleanupBroken(t, i, i.saved));
      SampledStart(s, i, Finish(t, outcome));
    }
    if s.task.AwaitCleanReset? && s.files[s.active.value].recovery.Missing? { RecoveryAwaited(s); }
  }

  /** The recovery file is sampled only when it is missing, so a completing run never waits for a sample. */
  lemma RecoveryAwaited(s: Lab)
    requires Inv(s) && HasRun(s) && s.task.AwaitCleanReset? && s.files[s.active.value].recovery.Missing?
    ensures RunOk(s, s.(task := AwaitSample(s.task.outcome)))
  {
    assert RecordOk(s, s.active.value);
  }

  lemma SampledOk(s: Lab, i: Input)
    requires Inv(s) && HasRun(s) && InCleanup(s.task) && !Completing(s.task)
    ensures HasRun(Sampled(s, i)) && ActiveOk(Sampled(s, i)) && InProgress(Sampled(s, i))
    ensures RecordOk(Sampled(s, i), s.active.value)
  {
    assert RecordOk(s, s.active.value);
  }

  lemma SampledStart(s: Lab, i: Input, t: Lab)
    requires HasRun(s) && RunOk(Sampled(s, i), t)
    ensures RunOk(s, t)
  {
  }

  lemma BodyStepOk(s: Lab, i: Input)
    requires Inv(s) && HasRun(s) && !s.cancelRequested && !InCleanup(s.task) && s.task != Ended
    ensures RunOk(s, Proceed(s, i))
  {
    hide CancelHandler, EnterCleanup, BodyFailed, ReportError, Conclude, Refresh, RunOk, InProgress;
    InvInProgress(s);
    InProgressHasRun(s);
    var live, exited := s.(process := Live), s.(process := Exited);
    InProgressElsewhere(s, live);
    InProgressElsewhere(s, exited);
    if Fits(AwaitExit, TaskRecord(s).status) { BodyFailedOk(s, i, i.awaited); }
    match s.task
    case NoTask =>
    case Created => PauseOk(s, Proceed(s, i));
    case AwaitReset =>
      BodyFailedOk(s, i, Both(i.awaited, i.localFiles));
      if Both(i.awaited, i.localFiles).Succeeds? { PauseOk(s, Proceed(s, i)); }
    case AwaitLaunch => if i.awaited.Succeeds? { PauseOk(s, Proceed(s, i)); }
    case AwaitLaunchCancelled => CancelHandlerOk(live, i); SameStart(s, live, CancelHandler(live, i));
    case AwaitExit => ConcludeOk(exited, i); SameStart(s, exited, Conclude(exited, i));
    case AwaitCancelTerminate =>
      CleanupOk(s, ToStop);
      CleanupOk(exited, ToStop);
      SameStart(s, exited, EnterCleanup(exited, ToStop));
    case AwaitErrorTerminate(o) =>
      CleanupOk(s, o);
      ReportErrorOk(exited);
      SameStart(s, exited, ReportError(exited));
  }

  lemma EndedOk(s: Lab, i: Input)
    requires Inv(s) && HasRun(s) && s.task == Ended
    ensures RunOk(s, Proceed(s, i))
  {
  }

  lemma OnlyActiveChanges(s: Lab, i: Input)
    requires Inv(s) && HasRun(s)
    ensures RunOk(s, Next(s, Resume(i)))
  {
    hide DeliverCancel, Proceed, RunOk;
    if s.cancelRequested {
      DeliverCancelOk(s, i);
    } else if InCleanup(s.task) {
      CleanupStepOk(s, i);
    } else if s.task == Ended {
      EndedOk(s, i);
    } else {
      BodyStepOk(s, i);
    }
  }

  lemma ResumeKeepsInv(s: Lab, i: Input)
    requires Inv(s) && HasRun(s)
    ensures Inv(Next(s, Resume(i)))
  {
    hide DeliverCancel, Proceed, RunOk;
    OnlyActiveChanges(s, i);
    RunOkKeepsInv(s, Next(s, Resume(i)));
  }

  lemma GetKeepsInv(s: Lab, id: Id)
    requires Inv(s) && id in s.records
    ensures Inv(Next(s, Get(id)))
  {
    hide Refresh;
    var t := Next(s, Get(id));
    GetKeepsRecordOk(s, id);
    forall j | j in t.records ensures FinishedOk(t, j) {
      assert FinishedOk(s, j);
    }
  }

  lemma GetKeepsRecordOk(s: Lab, id: Id)
    requires Inv(s) && id in s.records
    ensures var t := Next(s, Get(id));
            && t == s.(records := t.records) && t.records.Keys == s.records.Keys
            && (forall j <- s.records :: j != id ==> t.records[j] == s.records[j])
            && FinishedOk(t, id) && (RecordOk(s, id) ==> RecordOk(t, id))
            && (s.active == Some(id) ==> ActiveOk(t))
  {
    hide Refresh, RefreshRaises, RecordOk, ActiveOk;
    RefreshFacts(s.records[id], s.files[id]);
    assert FinishedOk(s, id);
    if RecordOk(s, id) { RefreshedRecordOk(s, id); }
    if s.active == Some(id) { RefreshedActiveOk(s); }
  }

  lemma RefreshedRecordOk(s: Lab, id: Id)
    requires id in s.records && id in s.files && RecordOk(s, id) && (s.active == Some(id) && HasRun(s) ==> ActiveOk(s))
    ensures RecordOk(s.(records := s.records[id := Refresh(s.records[id], s.files[id]).record]), id)
  {
    hide Refresh, RefreshRaises, MarkedByRefresh, Recorded;
    var r, f := s.records[id], s.files[id];
    RefreshFacts(r, f);
    if Conclusive(r, f) && r.status != Running {
      RefreshKeepsConclusive(r, f);
      ConclusiveIgnoresJournal(r, f, Refresh(r, f).record.journalAvailable);
    }
    hide Conclusive;
  }

  lemma RefreshedActiveOk(s: Lab)
    requires HasRun(s) && ActiveOk(s) && RecordOk(s, s.active.value)
    ensures ActiveOk(WithRecord(s, Refresh(TaskRecord(s), s.files[s.active.value]).record))
  {
    hide Refresh, RefreshRaises, MarkedByRefresh, Recorded;
    var r, f := TaskRecord(s), s.files[s.active.value];
    RefreshFacts(r, f);
    RefreshKeepsRecorded(r, f);
    if Conclusive(r, f) && r.status != Running {
      RefreshKeepsConclusive(r, f);
      ConclusiveIgnoresJournal(r, f, Refresh(r, f).record.journalAvailable);
    }
    hide Conclusive;
  }

  lemma ConclusiveIgnoresJournal(r: Record, f: Files, available: bool)
    ensures Conclusive(r.(journalAvailable := available), f) == Conclusive(r, f)
  {
  }

  /** Whatever happens next, the invariant stays. */
  lemma NextKeepsInv(s: Lab, e: Event)
    requires Inv(s)
    ensures Inv(Next(s, e))
  {
    hide DeliverCancel, Proceed, Refresh;
    match e
    case Resume(i) => if HasRun(s) { ResumeKeepsInv(s, i); }
    case Get(id) => if id in s.records { GetKeepsInv(s, id); }
    case Start(id) =>
    case Stop(id) =>
    case Write(f) =>
  }

  /** The invariant holds after every run from every loadable start. */
  lemma {:induction false} RunsKeepInv(s: Lab, events: seq<Event>)
    requires Inv(s)
    ensures Inv(Run(s, events))
  {
    if events != [] {
      RunsKeepInv(s, events[..|events| - 1]);
      NextKeepsInv(Run(s, events[..|events| - 1]), events[|events| - 1]);
    }
  }

  // ---------------------------------------------------------------------------------------------
  // What every interleaving guarantees

  /** The state after any events since the engine started over what earlier processes left. */
  function After(records: map<Id, Record>, files: map<Id, Files>, events: seq<Event>): Lab {
    Run(Initialized(records, files), events)
  }

  lemma AfterInv(records: map<Id, Record>, files: map<Id, Files>, events: seq<Event>)
    requires Loadable(records, files)
    ensures Inv(After(records, files, events))
  {
    InitializedInv(records, files);
    RunsKeepInv(Initialized(records, files), events);
  }

  /** A record is unfinished only while it is the single active run, unless its evidence makes the refresh raise. */
  lemma UnfinishedIsActive(records: map<Id, Record>, files: map<Id, Files>, events: seq<Event>, id: Id)
    requires Loadable(records, files) && id in After(records, files, events).records
    ensures var s := After(records, files, events);
            id in s.files && (!Terminal(s.records[id].status) && !RefreshRaises(s.records[id], s.files[id]) ==> s.active == Some(id))
  {
    AfterInv(records, files, events);
    assert FinishedOk(After(records, files, events), id);
  }

  lemma NextKeepsRecordOk(s: Lab, e: Event, id: Id)
    requires Inv(s) && (id in s.records ==> RecordOk(s, id)) && id in Next(s, e).records
    ensures id in Next(s, e).files && RecordOk(Next(s, e), id)
  {
    hide DeliverCancel, Proceed, Refresh, ActiveOk;
    NextKeepsInv(s, e);
    match e
    case Resume(i) => if HasRun(s) { OnlyActiveChanges(s, i); }
    case Get(j) => if j in s.records { GetKeepsRecordOk(s, j); }
    case Start(_) =>
    case Stop(_) =>
    case Write(_) =>
  }

  /** A record that was sound when it was loaded, or that was created since, can be believed after every run. */
  lemma {:induction false} RunsKeepRecordOk(s: Lab, events: seq<Event>, id: Id)
    requires Inv(s) && (id in s.records ==> RecordOk(s, id)) && id in Run(s, events).records
    ensures id in Run(s, events).files && RecordOk(Run(s, events), id)
  {
    hide Next, RecordOk;
    if events != [] {
      var front := events[..|events| - 1];
      RunsKeepInv(s, front);
      if id in Run(s, front).records { RunsKeepRecordOk(s, front, id); }
      NextKeepsRecordOk(Run(s, front), events[|events| - 1], id);
    }
  }

  /** Held or deviated is reported only by a finalizing or completed run, for exactly the measured health; and a
      completed run always reports the verdict of its measurements. Of the records that were loaded this is said of the
      sound ones. */
  lemma VerdictMatchesHealth(records: map<Id, Record>, files: map<Id, Files>, events: seq<Event>, id: Id)
    requires Loadable(records, files) && id in After(records, files, events).records
    requires id in records ==> Sound(records[id], files[id])
    ensures MatchesHealth(After(records, files, events).records[id])
  {
    hide Run, RecordOk, MatchesHealth;
    InitializedInv(records, files);
    AfterInv(records, files, events);
    RunsKeepRecordOk(Initialized(records, files), events, id);
    RecordOkMatches(After(records, files, events), id);
  }

  predicate MatchesHealth(r: Record) {
    && (IsResult(r.verdict) ==> r.status == Finalizing || r.status == Completed)
    && (r.verdict == Held ==> r.baseline == Some(true) && r.during == Some(true) && r.recovery == Some(true))
    && (r.verdict == Deviated ==> r.baseline == Some(true) && r.during == Some(false) && r.recovery == Some(true))
    && (r.status == Completed ==>
          r.baseline.Some? && r.during.Some? && r.recovery.Some? &&
          r.verdict == VerdictOf(r.baseline.value, r.during.value, r.recovery.value))
  }

  lemma RecordOkMatches(s: Lab, id: Id)
    requires Inv(s) && id in s.records && id in s.files && RecordOk(s, id)
    ensures MatchesHealth(s.records[id])
  {
  }

  // ---------------------------------------------------------------------------------------------
  // Restarts

  /** What a process leaves on disk: records in any version they have had since it started, maybe not all readable, in
      folders as they last were. */
  ghost predicate Leaves(s: Lab, events: seq<Event>, records: map<Id, Record>, files: map<Id, Files>) {
    && Loadable(records, files)
    && forall id <- records ::
         && id in Run(s, events).files && files[id] == Run(s, events).files[id]
         && exists k: nat :: k <= |events| && HasVersion(s, events[..k], id, records[id])
  }

  predicate HasVersion(s: Lab, events: seq<Event>, id: Id, r: Record) {
    id in Run(s, events).records && Run(s, events).records[id] == r
  }

  lemma NextKeepsReleasedFiles(s: Lab, e: Event, id: Id)
    requires Inv(s) && id in s.records && s.active != Some(id)
    ensures id in Next(s, e).records && Next(s, e).active != Some(id)
    ensures id in Next(s, e).files && Next(s, e).files[id] == s.files[id]
  {
    hide DeliverCancel, Proceed, Refresh;
    if e.Resume? && HasRun(s) { OnlyActiveChanges(s, e.input); }
  }

  /** Nothing touches the folder of a run outside the active slot. */
  lemma {:induction false} ReleasedFilesStay(s: Lab, events: seq<Event>, id: Id)
    requires Inv(s) && id in s.records && s.active != Some(id)
    ensures id in Run(s, events).records && Run(s, events).active != Some(id)
    ensures id in Run(s, events).files && Run(s, events).files[id] == s.files[id]
  {
    hide Next;
    if events != [] {
      var front := events[..|events| - 1];
      ReleasedFilesStay(s, front, id);
      RunsKeepInv(s, front);
      NextKeepsReleasedFiles(Run(s, front), events[|events| - 1], id);
    }
  }

  lemma {:induction false} RunConcat(s: Lab, a: seq<Event>, b: seq<Event>)
    ensures Run(s, a + b) == Run(Run(s, a), b)
  {
    hide Next;
    if b == [] {
      assert a + b == a;
    } else {
      assert (a + b)[..|a + b| - 1] == a + b[..|b| - 1];
      RunConcat(s, a, b[..|b| - 1]);
    }
  }

  /** Every version of a record that can be believed is sound in the folder as it is found later. */
  lemma OldVersionIsSound(s: Lab, events: seq<Event>, k: nat, id: Id)
    requires Inv(s) && k <= |events| && id in Run(s, events[..k]).records && id in Run(s, events).files
    requires id in s.records ==> RecordOk(s, id)
    ensures Sound(Run(s, events[..k]).records[id], Run(s, events).files[id])
  {
    hide Run, Next;
    var t := Run(s, events[..k]);
    RunsKeepInv(s, events[..k]);
    RunsKeepRecordOk(s, events[..k], id);
    RunConcat(s, events[..k], events[k..]);
    assert events[..k] + events[k..] == events;
    if t.active != Some(id) { ReleasedFilesStay(t, events[k..], id); }
  }

  /** Restarting keeps the guarantee: sound records go in, and whatever versions the process leaves are sound again, so
      that VerdictMatchesHealth speaks of every run of every process over one data directory. */
  lemma RestartKeepsSound(records: map<Id, Record>, files: map<Id, Files>, events: seq<Event>,
                          left: map<Id, Record>, folders: map<Id, Files>)
    requires Loadable(records, files) && forall id <- records :: Sound(records[id], files[id])
    requires Leaves(Initialized(records, files), events, left, folders)
    ensures Loadable(left, folders) && forall id <- left :: Sound(left[id], folders[id])
  {
    hide Run, Next, Sound, RecordOk;
    var s := Initialized(records, files);
    InitializedInv(records, files);
    forall id | id in left ensures Sound(left[id], folders[id]) {
      var k: nat :| k <= |events| && HasVersion(s, events[..k], id, left[id]);
      OldVersionIsSound(s, events, k, id);
    }
  }

  // ---------------------------------------------------------------------------------------------
  // Finished runs

  lemma NextReleasedStaysTerminal(s: Lab, e: Event, id: Id)
    requires Inv(s) && id in s.records && s.active != Some(id) && Terminal(s.records[id].status)
    ensures id in Next(s, e).records && Next(s, e).active != Some(id) && Terminal(Next(s, e).records[id].status)
  {
    hide DeliverCancel, Proceed;
    if e.Get? && e.id == id {
      RefreshFacts(s.records[id], s.files[id]);
    } else if e.Resume? && HasRun(s) {
      OnlyActiveChanges(s, e.input);
    }
  }

  /** A finished run that has released the slot stays finished in every continuation. */
  lemma {:induction false} ReleasedStaysTerminal(s: Lab, events: seq<Event>, id: Id)
    requires Inv(s) && id in s.records && s.active != Some(id) && Terminal(s.records[id].status)
    ensures id in Run(s, events).records && Run(s, events).active != Some(id) && Terminal(Run(s, events).records[id].status)
  {
    hide Next;
    if events != [] {
      var front := events[..|events| - 1];
      ReleasedStaysTerminal(s, front, id);
      RunsKeepInv(s, front);
      NextReleasedStaysTerminal(Run(s, front), events[|events| - 1], id);
    }
  }

  /** The task may still write a status other than that of its end. */
  predicate MayReport(s: Lab) {
    match s.task
    case Created => !s.cancelRequested
    case AwaitReset => true
    case AwaitLaunch => true
    case AwaitLaunchCancelled => true
    case AwaitExit => true
    case AwaitErrorTerminate(_) => !s.cancelRequested
    case _ => false
  }

  const FAILING: Input := Input(Fails, Succeeds, 0, Returns, Succeeds, true, Metrics(true))

  const SUCCEEDING: Input := FAILING.(awaited := Succeeds)

  const ESCAPING: Input := FAILING.(awaited := Escapes)

  predicate UnfinishedAfter(s: Lab, events: seq<Event>, id: Id) {
    id in Run(s, events).records && !Terminal(Run(s, events).records[id].status)
  }

  /** A finished status is overwritten with an unfinished one in some continuation exactly when the run is still active
      and its task has yet to report: the status is then the failed of a refresh that ran early. */
  lemma TerminalReopensExactlyWhen(s: Lab, id: Id)
    requires Inv(s) && id in s.records && Terminal(s.records[id].status)
    ensures (exists events :: UnfinishedAfter(s, events, id)) <==> s.active == Some(id) && MayReport(s)
  {
    hide UnfinishedAfter, Run, Next;
    if s.active == Some(id) && MayReport(s) {
      var events := ReopeningEvents(s, id);
      assert UnfinishedAfter(s, events, id);
    } else {
      forall events ensures !UnfinishedAfter(s, events, id) {
        QuietStays(s, events, id);
        QuietIsFinished(s, events, id);
      }
    }
  }

  /** A finished run that no task will write to again. */
  predicate Quiet(s: Lab, id: Id) {
    id in s.records && Terminal(s.records[id].status) && (s.active != Some(id) || !MayReport(s))
  }

  lemma QuietIsFinished(s: Lab, events: seq<Event>, id: Id)
    requires Quiet(Run(s, events), id)
    ensures !UnfinishedAfter(s, events, id)
  {
  }

  lemma {:induction false} QuietStays(s: Lab, events: seq<Event>, id: Id)
    requires Inv(s) && Quiet(s, id)
    ensures Quiet(Run(s, events), id)
  {
    hide Next, Quiet;
    if events != [] {
      var front := events[..|events| - 1];
      QuietStays(s, front, id);
      RunsKeepInv(s, front);
      NextKeepsQuiet(Run(s, front), events[|events| - 1], id);
    }
  }

  lemma NextKeepsQuiet(s: Lab, e: Event, id: Id)
    requires Inv(s) && Quiet(s, id)
    ensures Quiet(Next(s, e), id)
  {
    hide DeliverCancel, Proceed, Refresh;
    if s.active != Some(id) {
      NextReleasedStaysTerminal(s, e, id);
    } else if e.Resume? {
      ReportedStaysTerminal(s, e.input);
    } else {
      RefreshFacts(s.records[id], s.files[id]);
    }
  }

  lemma OneStepReopens(s: Lab, i: Input)
    requires Inv(s) && HasRun(s) && MayReport(s) && s.task != Created && !(s.task.AwaitLaunch? && s.cancelRequested)
    requires i == if s.task.AwaitErrorTerminate? then SUCCEEDING else FAILING
    ensures var id, t := s.active.value, Next(s, Resume(i));
            id in t.records && !Terminal(t.records[id].status)
  {
    hide Refresh, Conclude;
  }

  /** One or two resumptions that reopen a run whose task may still report. */
  lemma ReopeningEvents(s: Lab, id: Id) returns (events: seq<Event>)
    requires Inv(s) && s.active == Some(id) && MayReport(s)
    ensures UnfinishedAfter(s, events, id)
  {
    hide Next;
    assert Run(s, []) == s;
    var step := Resume(if s.task.AwaitErrorTerminate? then SUCCEEDING else FAILING);
    var t := Next(s, step);
    RunStep(s, [], step);
    if s.task == Created || (s.task == AwaitLaunch && s.cancelRequested) {
      FirstOfTwo(s, FAILING);
      NextKeepsInv(s, step);
      OneStepReopens(t, FAILING);
      RunStep(s, [] + [step], Resume(FAILING));
      return [] + [step] + [Resume(FAILING)];
    }
    OneStepReopens(s, step.input);
    return [] + [step];
  }

  lemma FirstOfTwo(s: Lab, i: Input)
    requires HasRun(s) && MayReport(s) && (s.task == Created || (s.task == AwaitLaunch && s.cancelRequested))
    ensures var t := Next(s, Resume(i));
            HasRun(t) && t.active == s.active && (t.task == AwaitReset || t.task == AwaitLaunchCancelled)
  {
  }

  lemma ReportedStaysTerminal(s: Lab, i: Input)
    requires Inv(s) && HasRun(s) && Quiet(s, s.active.value)
    ensures Quiet(Next(s, Resume(i)), s.active.value)
  {
    hide Refresh, Conclude, CancelHandler, BodyFailed, ReportError, Finish, CleanupBroken;
    if !s.cancelRequested && InCleanup(s.task) { CleanupKeepsTerminal(s, i); }
  }

  lemma FinishKeepsTerminal(s: Lab, outcome: Outcome)
    requires HasRun(s) && Terminal(TaskRecord(s).status)
    ensures var t := Finish(s, outcome);
            s.active.value in t.records && Terminal(t.records[s.active.value].status) && !MayReport(t)
  {
    hide Refresh, RefreshRaises;
    RefreshFacts(TaskRecord(s), s.files[s.active.value]);
  }

  lemma CleanupFailedKeepsTerminal(s: Lab, i: Input)
    requires HasRun(s) && Terminal(TaskRecord(s).status)
    ensures var t := CleanupFailed(s, i);
            s.active.value in t.records && Terminal(t.records[s.active.value].status) && !MayReport(t)
  {
    hide Finish;
    FinishKeepsTerminal(WithRecord(s, TaskRecord(s).(verdict := Inconclusive)), ToFail);
  }

  lemma CleanupBrokenKeepsTerminal(s: Lab, i: Input, a: Answer)
    requires HasRun(s) && Terminal(TaskRecord(s).status)
    ensures var t := CleanupBroken(s, i, a);
            s.active.value in t.records && Terminal(t.records[s.active.value].status) && !MayReport(t)
  {
    hide CleanupFailed;
    CleanupFailedKeepsTerminal(s, i);
  }

  lemma CleanupKeepsTerminal(s: Lab, i: Input)
    requires HasRun(s) && InCleanup(s.task) && Terminal(TaskRecord(s).status)
    ensures var t := Proceed(s, i);
            s.active.value in t.records && Terminal(t.records[s.active.value].status) && !MayReport(t)
  {
    hide Finish, CleanupBroken;
    FinishKeepsTerminal(s, s.task.outcome);
    CleanupBrokenKeepsTerminal(s, i, Both(i.awaited, i.localFiles));
    CleanupBrokenKeepsTerminal(s, i, i.saved);
    FinishKeepsTerminal(Sampled(s, i), s.task.outcome);
    CleanupBrokenKeepsTerminal(Sampled(s, i), i, i.saved);
  }

  /** The evidence that the final refresh reads: the lab's own sample may have been added to it. */
  function FinalEvidence(s: Lab, i: Input): Files
    requires HasRun(s)
  {
    var f := s.files[s.active.value];
    if s.task.AwaitSample? && Both(i.awaited, i.localFiles).Succeeds? then f.(recovery := i.sample) else f
  }

  /** A final refresh of this record over this evidence ends with a finished record. */
  predicate EndsFinished(r: Record, f: Files) {
    !RefreshRaises(r, f) || r.status == Failed || MarkedByRefresh(f)
  }

  /** What the release does to the released run, from the record and the evidence before it. */
  predicate LeavesRun(r: Record, f: Files, t: Lab, id: Id) {
    id in t.records && id in t.files && t.files[id] == f && (Terminal(t.records[id].status) <==> EndsFinished(r, f))
  }

  /** The slot is released only from the cleanup, after the target reset was attempted; and the run it releases ends
      unfinished exactly when an error escapes the final refresh, no measurement that it reaches before is malformed, and
      the run has not been marked failed before. */
  lemma ReleaseFollowsReset(s: Lab, e: Event)
    requires Inv(s) && s.active.Some? && Next(s, e).active.None?
    ensures e.Resume? && InCleanup(s.task) && s.cleanupReset
    ensures LeavesRun(s.records[s.active.value], FinalEvidence(s, e.input), Next(s, e), s.active.value)
  {
    hide Refresh, Conclude, Finish, CleanupBroken, EndsFinished, RefreshRaises;
    var i := e.input;
    OnlyCleanupReleases(s, i);
    var r := Sampled(s, i);
    FinishOutcome(s, s.task.outcome);
    FinishOutcome(r, s.task.outcome);
    CleanupBrokenOutcome(s, i, Both(i.awaited, i.localFiles));
    CleanupBrokenOutcome(s, i, i.saved);
    CleanupBrokenOutcome(r, i, i.saved);
  }

  /** The status with which a run leaves the slot, from the status and the evidence before. */
  function ReleasedStatus(s: Lab, i: Input): Status
    requires HasRun(s) && InCleanup(s.task)
  {
    var r, f := TaskRecord(s), FinalEvidence(s, i);
    if r.status == Failed || MarkedByRefresh(f) then Failed
    else if RefreshRaises(r, f) then r.status
    else if CleanupAnswer(s, i).Fails? then Failed
    else if r.status == Stopping then Stopped
    else if s.task.outcome == ToComplete then Completed
    else Failed
  }

  /** A run is released as stopped exactly when it was stopping, as completed when it was about to complete, and as failed
      otherwise, if no error escapes the final refresh, none is caught in the cleanup and no measurement is malformed; and
      only a cancelled run is ever stopped. */
  lemma ReleasedStatusExactly(s: Lab, i: Input)
    requires Inv(s) && HasRun(s) && Next(s, Resume(i)).active.None?
    ensures InCleanup(s.task) && s.active.value in Next(s, Resume(i)).records
    ensures Next(s, Resume(i)).records[s.active.value].status == ReleasedStatus(s, i)
    ensures ReleasedStatus(s, i) == Stopped ==> s.cancelled
  {
    hide Settled, MarkedByRefresh, RefreshRaises, DeliverCancel, RecordOk, FinishedOk;
    OnlyCleanupReleases(s, i);
    var r, f := TaskRecord(s), FinalEvidence(s, i);
    SettledStatus(r, f, s.task.outcome);
    SettledStatus(r.(verdict := Inconclusive), f, ToFail);
  }

  lemma SettledStatus(r: Record, f: Files, outcome: Outcome)
    ensures Settled(r, f, outcome).status ==
            if r.status == Failed || MarkedByRefresh(f) then Failed
            else if RefreshRaises(r, f) then r.status
            else match outcome case ToComplete => Completed case ToStop => Stopped case ToFail => Failed
    ensures forall v :: RefreshRaises(r.(verdict := v), f) == RefreshRaises(r, f)
  {
    hide Refresh, MarkedByRefresh;
    RefreshFacts(r, f);
  }

  lemma HandlersKeepSlot(s: Lab, i: Input, outcome: Outcome)
    requires HasRun(s)
    ensures ErrorHandler(s, i, outcome).active == s.active && ErrorHandler(s, i, outcome).task != Ended
    ensures CancelHandler(s, i).active == s.active && CancelHandler(s, i).task != Ended
    ensures ReportError(s).active == s.active && ReportError(s).task != Ended
  {
  }

  lemma BodyFailedKeepsSlot(s: Lab, i: Input, a: Answer)
    requires HasRun(s)
    ensures BodyFailed(s, i, a).active == s.active && BodyFailed(s, i, a).task != Ended
  {
    hide ErrorHandler;
    HandlersKeepSlot(s, i, ToFail);
  }

  lemma JudgeKeepsSlot(t: Lab, i: Input)
    requires HasRun(t)
    ensures Judge(t, i).active == t.active && Judge(t, i).task != Ended
  {
    hide ErrorHandler, BodyFailed, Examine;
    var judgement := Examine(TaskRecord(t), t.files[t.active.value], i);
    var u := WithRecord(t, judgement.record);
    if judgement.Refused? { BodyFailedKeepsSlot(u, i, judgement.why); }
    HandlersKeepSlot(u, i, ToComplete);
  }

  lemma ConcludeKeepsSlot(s: Lab, i: Input)
    requires HasRun(s)
    ensures Conclude(s, i).active == s.active && Conclude(s, i).task != Ended
  {
    hide Refresh, Judge, BodyFailed;
    var t := WithRecord(s, Refresh(TaskRecord(s), s.files[s.active.value]).record);
    JudgeKeepsSlot(t, i);
    BodyFailedKeepsSlot(t, i, Fails);
    BodyFailedKeepsSlot(t, i, Escapes);
  }

  lemma CancelKeepsSlot(s: Lab, i: Input)
    requires Inv(s) && HasRun(s) && s.task != Ended
    ensures var t := DeliverCancel(s, i);
            t.active == s.active && (t.task == Ended <==> s.task == Created || InCleanup(s.task))
  {
    hide CancelHandler;
    HandlersKeepSlot(s.(cancelRequested := false), i, ToFail);
  }

  lemma BodyKeepsSlot(s: Lab, i: Input)
    requires Inv(s) && HasRun(s) && s.task != Ended && !InCleanup(s.task)
    ensures Proceed(s, i).active == s.active && Proceed(s, i).task != Ended
  {
    hide BodyFailed, CancelHandler, ReportError, Conclude;
    BodyFailedKeepsSlot(s, i, i.awaited);
    BodyFailedKeepsSlot(s, i, Both(i.awaited, i.localFiles));
    if s.task.AwaitLaunchCancelled? {
      HandlersKeepSlot(s.(process := Live), i, ToFail);
    } else {
      HandlersKeepSlot(s.(process := Exited), i, ToFail);
      ConcludeKeepsSlot(s.(process := Exited), i);
    }
  }

  lemma OnlyCleanupReleases(s: Lab, i: Input)
    requires Inv(s) && HasRun(s) && Next(s, Resume(i)).active.None?
    ensures !s.cancelRequested && InCleanup(s.task)
  {
    hide DeliverCancel, Proceed;
    if s.task == Ended {
      EndedTaskIdles(s, Resume(i));
    } else if s.cancelRequested {
      CancelKeepsSlot(s, i);
    } else if !InCleanup(s.task) {
      BodyKeepsSlot(s, i);
    }
  }

  lemma FinishOutcome(s: Lab, outcome: Outcome)
    requires HasRun(s) && (!Terminal(TaskRecord(s).status) || TaskRecord(s).status == Failed)
    ensures LeavesRun(TaskRecord(s), s.files[s.active.value], Finish(s, outcome), s.active.value)
  {
    hide Settled, EndsFinished;
    SettledEndsFinished(TaskRecord(s), s.files[s.active.value], outcome);
  }

  lemma SettledEndsFinished(r: Record, f: Files, outcome: Outcome)
    requires !Terminal(r.status) || r.status == Failed
    ensures Terminal(Settled(r, f, outcome).status) <==> EndsFinished(r, f)
  {
    hide Refresh, RefreshRaises, MarkedByRefresh;
    RefreshFacts(r, f);
  }

  lemma CleanupFailedOutcome(s: Lab, i: Input)
    requires HasRun(s) && (!Terminal(TaskRecord(s).status) || TaskRecord(s).status == Failed)
    ensures CleanupFailed(s, i).active.None? ==>
              LeavesRun(TaskRecord(s), s.files[s.active.value], CleanupFailed(s, i), s.active.value)
  {
    hide Finish, MarkedByRefresh;
    FinishOutcome(WithRecord(s, TaskRecord(s).(verdict := Inconclusive)), ToFail);
  }

  lemma CleanupBrokenOutcome(s: Lab, i: Input, a: Answer)
    requires HasRun(s) && (!Terminal(TaskRecord(s).status) || TaskRecord(s).status == Failed)
    ensures CleanupBroken(s, i, a).active.None? ==>
              LeavesRun(TaskRecord(s), s.files[s.active.value], CleanupBroken(s, i, a), s.active.value)
  {
    hide CleanupFailed, LeavesRun;
    CleanupFailedOutcome(s, i);
  }

  // ---------------------------------------------------------------------------------------------
  // Where the guarantees end

  lemma RunStep(s: Lab, events: seq<Event>, e: Event)
    ensures Run(s, events + [e]) == Next(Run(s, events), e)
  {
    assert (events + [e])[..|events|] == events;
  }

  const EMPTY_LAB: Lab := Initialized(map[], map[])

  /** A run whose process has been launched, in an otherwise empty lab. */
  function Launched(files: Files): Lab {
    Lab(Some(0), AwaitExit, false, false, Live, false, map[0 := FRESH_RECORD], map[0 := files])
  }

  function LaunchEvents(files: Files): seq<Event> {
    [Start(0), Resume(SUCCEEDING), Resume(SUCCEEDING), Resume(SUCCEEDING), Write(files)]
  }

  lemma RunFive(s: Lab, a: Event, b: Event, c: Event, d: Event, e: Event)
    ensures Run(s, [a, b, c, d, e]) == Next(Next(Next(Next(Next(s, a), b), c), d), e)
  {
    hide Next;
    assert Run(s, []) == s;
    RunStep(s, [], a);
    RunStep(s, [a], b);
    RunStep(s, [a, b], c);
    RunStep(s, [a, b, c], d);
    RunStep(s, [a, b, c, d], e);
    assert [] + [a] == [a] && [a] + [b] == [a, b] && [a, b] + [c] == [a, b, c];
    assert [a, b, c] + [d] == [a, b, c, d] && [a, b, c, d] + [e] == [a, b, c, d, e];
  }

  lemma LaunchReaches(files: Files)
    ensures Run(EMPTY_LAB, LaunchEvents(files)) == Launched(files)
  {
    var go := Resume(SUCCEEDING);
    RunFive(EMPTY_LAB, Start(0), go, go, go, Write(files));
    var s1 := Next(EMPTY_LAB, Start(0));
    assert s1 == Lab(Some(0), Created, false, false, NoProcess, false, map[0 := FRESH_RECORD], map[0 := NO_FILES]);
    var s2 := Next(s1, go);
    assert s2 == s1.(task := AwaitReset);
    var s3 := Next(s2, go);
    assert s3 == s1.(task := AwaitLaunch);
    assert Next(s3, go) == Launched(NO_FILES);
    assert Next(Launched(NO_FILES), Write(files)) == Launched(files);
  }

  /** A finished status that becomes unfinished: a read that finds a malformed measurement marks the active run failed,
      and the task, once its process has exited, reports it as finalizing. */
  lemma FailedRunReopens() returns (events: seq<Event>)
    ensures 0 in Run(EMPTY_LAB, events).records && Run(EMPTY_LAB, events).records[0].status == Failed
    ensures var s := Next(Run(EMPTY_LAB, events), Resume(SUCCEEDING));
            0 in s.records && s.records[0].status == Finalizing
  {
    var files := NO_FILES.(baseline := Invalid);
    LaunchReaches(files);
    events := LaunchEvents(files) + [Get(0)];
    RunStep(EMPTY_LAB, LaunchEvents(files), Get(0));
    var s := Run(EMPTY_LAB, events);
    assert s == Next(Launched(files), Get(0));
    assert s.records[0] == Record(Failed, Inconclusive, None, None, None, false, None);
  }

  /** How a run ends when its process leaves evidence over which the refresh raises: failed if a malformed measurement
      comes first; still running if the error is none that the error handler takes; else finalizing if the error is raised
      again once the run is no longer running. */
  function EndOverRaisingEvidence(files: Files): Status {
    if MarkedByRefresh(files) then Failed
    else if Refresh(FRESH_RECORD, files).raised.Unhandled? then Running
    else if RefreshRaises(FRESH_RECORD.(status := Finalizing), files) then Finalizing
    else Failed
  }

  /** For every evidence over which the refresh raises there is a run that is released with that end. */
  lemma RaisingEvidenceEnds(files: Files) returns (events: seq<Event>)
    requires RefreshRaises(FRESH_RECORD, files)
    ensures var s := Run(EMPTY_LAB, events);
            && s.active == None && 0 in s.records && s.records[0].status == EndOverRaisingEvidence(files)
            && 0 in s.files && s.files[0] == if files.recovery.Missing? then files.(recovery := Metrics(true)) else files
  {
    hide Refresh, MarkedByRefresh, RefreshRaises, Finish, Run;
    var go, e0 := Resume(SUCCEEDING), LaunchEvents(files);
    LaunchReaches(files);
    var first := Refresh(FRESH_RECORD, files);
    var r1 := AfterRaise(first);
    RefreshFacts(FRESH_RECORD, files);
    var s1 := RaisedLab(r1, files);
    RaisedExit(files);
    RunStep(EMPTY_LAB, e0, go);
    RunStep(EMPTY_LAB, e0 + [go], go);
    RaisedFinish(first.record, r1, files, AwaitCleanReset(ToFail));
    if files.recovery.Missing? {
      var sampled := files.(recovery := Metrics(true));
      var s2 := s1.(task := AwaitSample(ToFail));
      assert Next(s1, go) == s2;
      assert Sampled(s2, SUCCEEDING) == RaisedLab(r1, sampled).(task := AwaitSample(ToFail));
      SampleKeepsRaise(r1, files, Metrics(true));
      SampleKeepsRaise(FRESH_RECORD, files, Metrics(true));
      RaisedFinish(first.record, r1, sampled, AwaitSample(ToFail));
      RunStep(EMPTY_LAB, e0 + [go] + [go], go);
      return e0 + [go] + [go] + [go];
    }
    return e0 + [go] + [go];
  }

  /** The error handler reports what it takes. */
  function AfterRaise(first: Refreshed): Record {
    if first.raised.Handled? then first.record.(status := Finalizing, verdict := Inconclusive) else first.record
  }

  lemma RaisedExit(files: Files)
    requires RefreshRaises(FRESH_RECORD, files)
    ensures Next(Launched(files), Resume(SUCCEEDING)) == RaisedLab(AfterRaise(Refresh(FRESH_RECORD, files)), files)
  {
    hide Refresh, RefreshRaises;
    RefreshFacts(FRESH_RECORD, files);
  }

  /** The cleanup of a run whose evidence made the refresh raise. */
  function RaisedLab(r: Record, files: Files): Lab {
    Lab(Some(0), AwaitCleanReset(ToFail), false, false, Exited, true, map[0 := r], map[0 := files])
  }

  lemma RaisedFinish(first: Record, r: Record, files: Files, task: Task)
    requires first.status == (if MarkedByRefresh(files) then Failed else Running) && RefreshRaises(FRESH_RECORD, files)
    requires r == first || r == first.(status := Finalizing, verdict := Inconclusive)
    ensures var t := Finish(RaisedLab(r, files).(task := task), ToFail);
            && t.active == None && 0 in t.records && t.files == map[0 := files]
            && t.records[0].status == (if MarkedByRefresh(files) then Failed
                                       else if r == first then Running
                                       else if RefreshRaises(FRESH_RECORD.(status := Finalizing), files) then Finalizing
                                       else Failed)
  {
    hide Refresh, MarkedByRefresh;
    RefreshFacts(r, files);
  }

  /** A recovery sample in place of a missing file changes nothing about how the refresh raises. */
  lemma SampleKeepsRaise(r: Record, f: Files, e: Evidence)
    requires f.recovery.Missing? && e.Metrics?
    ensures forall status :: RefreshRaises(r.(status := status), f.(recovery := e)) == RefreshRaises(r.(status := status), f)
    ensures MarkedByRefresh(f.(recovery := e)) == MarkedByRefresh(f)
  {
  }

  /** A number too large for the finiteness test leaves a released run that is still called running. */
  lemma OversizedNumberLeavesRunUnfinished() returns (events: seq<Event>)
    ensures var s := Run(EMPTY_LAB, events);
            s.active == None && 0 in s.records && s.records[0].status == Running
  {
    events := RaisingEvidenceEnds(NO_FILES.(baseline := Raising(false)));
  }

  /** So does a phase that cannot be looked up, however good the measurements and the journal are. */
  lemma PhaseFileLeavesRunUnfinished() returns (events: seq<Event>)
    ensures var s := Run(EMPTY_LAB, events);
            && s.active == None && 0 in s.records && s.records[0].status == Running && 0 in s.files
            && s.files[0] == Files(Metrics(true), Metrics(true), Metrics(true), PhaseRaises(false), Journal(NativeCompleted))
  {
    events := RaisingEvidenceEnds(Files(Metrics(true), Metrics(true), Metrics(true), PhaseRaises(false), Journal(NativeCompleted)));
  }

  /** A file nested too deeply raises an error that the error handler takes: the run ends finalizing. */
  lemma NestedFileLeavesRunFinalizing() returns (events: seq<Event>)
    ensures var s := Run(EMPTY_LAB, events);
            s.active == None && 0 in s.records && s.records[0].status == Finalizing
  {
    events := RaisingEvidenceEnds(NO_FILES.(baseline := Raising(true)));
  }

  /** What the cleanup comes to in this step: the first of its operations that does not succeed. */
  function CleanupAnswer(s: Lab, i: Input): Answer
    requires HasRun(s)
  {
    var waits := s.task.AwaitCleanReset? && s.files[s.active.value].recovery.Missing?;
    Both(i.awaited, Both(i.localFiles, if waits then Succeeds else i.saved))
  }

  /** A resumption ends the task without releasing the slot exactly when a cancellation arrives before the first step or
      during the cleanup, or when the cleanup meets an error that it does not catch, or one that it catches and then
      cannot record. */
  predicate LosesSlot(s: Lab, i: Input)
    requires HasRun(s)
  {
    if s.cancelRequested then s.task == Created || InCleanup(s.task)
    else
      var answer := CleanupAnswer(s, i);
      InCleanup(s.task) && (answer.Escapes? || (answer.Fails? && !i.savedAgain))
  }

  lemma SlotLostExactlyWhen(s: Lab, i: Input)
    requires Inv(s) && HasRun(s) && s.task != Ended
    ensures Next(s, Resume(i)).task == Ended && Next(s, Resume(i)).active.Some? <==> LosesSlot(s, i)
  {
    hide DeliverCancel, Proceed;
    if s.cancelRequested {
      CancelKeepsSlot(s, i);
    } else if InCleanup(s.task) {
      CleanupLosesSlot(s, i);
    } else {
      BodyKeepsSlot(s, i);
    }
  }

  lemma CleanupLosesSlot(s: Lab, i: Input)
    requires HasRun(s) && InCleanup(s.task) && !s.cancelRequested
    ensures Proceed(s, i).task == Ended && Proceed(s, i).active.Some? <==> LosesSlot(s, i)
  {
    hide Refresh, Settled;
  }

  lemma {:induction false} LostSlotIsHeldForever(s: Lab, events: seq<Event>)
    requires Inv(s) && s.task == Ended && s.active.Some?
    ensures Run(s, events).active == s.active && Run(s, events).task == Ended && Run(s, events).records.Keys == s.records.Keys
    ensures Inv(Run(s, events))
  {
    if events != [] {
      var front := events[..|events| - 1];
      LostSlotIsHeldForever(s, front);
      NextKeepsInv(Run(s, front), events[|events| - 1]);
      EndedTaskIdles(Run(s, front), events[|events| - 1]);
    }
  }

  lemma EndedTaskIdles(s: Lab, e: Event)
    requires Inv(s) && s.task == Ended && s.active.Some?
    ensures Next(s, e).active == s.active && Next(s, e).task == Ended && Next(s, e).records.Keys == s.records.Keys
  {
    hide Refresh, ActiveOk, RecordOk;
  }

  /** The task has ended, the slot is still taken, and the record says what it says. */
  predicate SlotLostWith(s: Lab, status: Status) {
    s.task == Ended && s.active == Some(0) && 0 in s.records && s.records[0].status == status
  }

  /** A cancellation before the task's first step. A learner cannot send it: starting yields once before it returns the
      run's id. Closing the engine in that moment can, because it reads the id from the slot. */
  lemma EarlyStopLosesSlot() returns (events: seq<Event>)
    ensures SlotLostWith(Run(EMPTY_LAB, events), Running)
  {
    events := [Start(0), Stop(0), Resume(SUCCEEDING)];
    var s1 := Next(EMPTY_LAB, Start(0));
    assert s1 == Lab(Some(0), Created, false, false, NoProcess, false, map[0 := FRESH_RECORD], map[0 := NO_FILES]);
    var s2 := Next(s1, Stop(0));
    assert s2 == s1.(cancelRequested := true, cancelled := true);
    assert Next(s2, Resume(SUCCEEDING)) == s2.(cancelRequested := false, task := Ended);
    RunThree(EMPTY_LAB, Start(0), Stop(0), Resume(SUCCEEDING));
  }

  /** A target that refuses both resets, and a disk that refuses to record it: the run keeps the slot as finalizing. */
  lemma UnrecordedCleanupFailureLosesSlot() returns (events: seq<Event>)
    ensures SlotLostWith(Run(EMPTY_LAB, events), Finalizing)
  {
    var go, fail, lost := Resume(SUCCEEDING), Resume(FAILING), Resume(FAILING.(savedAgain := false));
    events := [Start(0), go, fail] + [lost];
    var s1 := Next(EMPTY_LAB, Start(0));
    assert s1 == Lab(Some(0), Created, false, false, NoProcess, false, map[0 := FRESH_RECORD], map[0 := NO_FILES]);
    var s2 := Next(s1, go);
    assert s2 == s1.(task := AwaitReset);
    var r := FRESH_RECORD.(status := Finalizing, verdict := Inconclusive);
    var s3 := Next(s2, fail);
    assert s3 == s1.(task := AwaitCleanReset(ToFail), cleanupReset := true, records := map[0 := r]);
    assert Next(s3, lost) == s3.(task := Ended);
    RunThree(EMPTY_LAB, Start(0), go, fail);
    RunStep(EMPTY_LAB, [Start(0), go, fail], lost);
  }

  /** A learner's stop that arrives during the cleanup: an error has escaped the refresh, so the run is still called
      running and may still be stopped. */
  lemma StopDuringCleanupLosesSlot() returns (events: seq<Event>)
    ensures SlotLostWith(Run(EMPTY_LAB, events), Running)
  {
    var files, go := NO_FILES.(baseline := Raising(false)), Resume(SUCCEEDING);
    var e0 := LaunchEvents(files);
    LaunchReaches(files);
    var s1 := Next(Launched(files), go);
    assert s1 == Launched(files).(task := AwaitCleanReset(ToFail), process := Exited, cleanupReset := true);
    var s2 := Next(s1, Stop(0));
    assert s2 == s1.(cancelRequested := true, cancelled := true);
    assert Next(s2, go) == s2.(cancelRequested := false, task := Ended);
    RunStep(EMPTY_LAB, e0, go);
    RunStep(EMPTY_LAB, e0 + [go], Stop(0));
    RunStep(EMPTY_LAB, e0 + [go] + [Stop(0)], go);
    events := e0 + [go] + [Stop(0)] + [go];
  }

  /** A target whose answer is not HTTP at all, twice: no handler takes such an error, so the run keeps the slot and is
      called running, although everything could be saved. */
  lemma UncaughtTargetErrorLosesSlot() returns (events: seq<Event>)
    ensures SlotLostWith(Run(EMPTY_LAB, events), Running)
  {
    var go, escape := Resume(SUCCEEDING), Resume(ESCAPING);
    events := [Start(0), go, escape] + [escape];
    var s1 := Next(EMPTY_LAB, Start(0));
    assert s1 == Lab(Some(0), Created, false, false, NoProcess, false, map[0 := FRESH_RECORD], map[0 := NO_FILES]);
    var s2 := Next(s1, go);
    assert s2 == s1.(task := AwaitReset);
    var s3 := Next(s2, escape);
    assert s3 == s1.(task := AwaitCleanReset(ToFail), cleanupReset := true);
    assert Next(s3, escape) == s3.(task := Ended);
    RunThree(EMPTY_LAB, Start(0), go, escape);
    RunStep(EMPTY_LAB, [Start(0), go, escape], escape);
  }

  lemma RunThree(s: Lab, a: Event, b: Event, c: Event)
    ensures Run(s, [a, b, c]) == Next(Next(Next(s, a), b), c)
  {
    hide Next;
    assert Run(s, []) == s;
    RunStep(s, [], a);
    RunStep(s, [a], b);
    RunStep(s, [a, b], c);
    assert [] + [a] == [a] && [a] + [b] == [a, b] && [a, b] + [c] == [a, b, c];
  }
}
