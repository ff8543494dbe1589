/** The two fault-execution engines: one call under a fault list, and an ordered trajectory of calls. */
module Trajectory {
  import opened MachineWords
  import opened Text
  import opened Generator
  import opened Faults
  import opened Contracts
  import opened Scoring

  // ---------------------------------------------------------------------------------------------
  // One call

  datatype FaultApplication = FaultApplication(faultType: string, scenario: string, applied: bool)

  datatype ExecutedRun = ExecutedRun(
    response: Response, applications: seq<FaultApplication>, contracts: seq<ContractOutcome>, score: real)

  function Applications(scenario: string, faults: seq<FaultSpec>, applied: seq<bool>): seq<FaultApplication>
    requires |faults| == |applied|
  {
    seq(|faults|, i requires 0 <= i < |faults| => FaultApplication(faults[i].FaultType(), scenario, applied[i]))
  }

  function Executed(scenario: string, seed: u64, baseline: Response, faults: seq<FaultSpec>, contracts: seq<ContractSpec>,
                    isJson: string -> bool): ExecutedRun {
    var run := RunFaults(seed, faults, baseline);
    var outcomes := EvaluateAll(scenario, contracts, ToAgentResponse(run.response), isJson);
    ExecutedRun(run.response, Applications(scenario, faults, run.applied), outcomes, ResilienceScore(outcomes))
  }

  /** The single-call engine: gate and apply each fault in order, then evaluate every contract. */
  method Execute(scenario: string, seed: u64, baseline: Response, faults: seq<FaultSpec>, contracts: seq<ContractSpec>,
                 isJson: string -> bool) returns (run: ExecutedRun)
    ensures run == Executed(scenario, seed, baseline, faults, contracts, isJson)
    ensures |run.applications| == |faults|
    ensures forall i :: 0 <= i < |faults| ==>
              run.applications[i] ==
              FaultApplication(faults[i].FaultType(), scenario, Gate(StateAfter(seed, i + 1), faults[i].p))
    ensures |run.contracts| == |contracts|
    ensures forall i :: 0 <= i < |contracts| ==>
              && (run.contracts[i].passed <==> Passes(contracts[i], ToAgentResponse(run.response), isJson))
              && (run.contracts[i].reason.None? <==> run.contracts[i].passed)
              && run.contracts[i].contractType == contracts[i].ContractType() && run.contracts[i].scenario == scenario
              && run.contracts[i].severity == if contracts[i].severity.Some? then contracts[i].severity.value else 1.0
  {
    hide Gate, Advance, StateAfter, ApplyFault, Passes, ResilienceScore;
    StartsAtSeed(seed);
    forall i | 0 <= i < |faults|
      ensures RunFaults(seed, faults, baseline).applied[i] <==> Gate(StateAfter(seed, i + 1), faults[i].p)
    {
      GateDecides(seed, 0, faults, baseline, i);
    }
    var engine := new FaultEngine(seed);
    var response := baseline;
    var applications := [];
    ghost var sofar := RunFaults(seed, faults[..0], baseline);
    for i := 0 to |faults|
      invariant sofar == RunFaults(seed, faults[..i], baseline)
      invariant engine.state == sofar.state && response == sofar.response
      invariant applications == Applications(scenario, faults[..i], sofar.applied)
    {
      assert faults[..i + 1] == faults[..i] + [faults[i]];
      RunFaultsStep(seed, faults[..i], faults[i], baseline);
      var applied := engine.ShouldApply(faults[i]);
      if applied {
        response := ApplyFault(faults[i], response);
      }
      applications := applications + [FaultApplication(faults[i].FaultType(), scenario, applied)];
      sofar := NextFault(sofar, faults[i]);
    }
    assert faults[..|faults|] == faults;
    var outcomes := EvaluateAll(scenario, contracts, ToAgentResponse(response), isJson);
    run := ExecutedRun(response, applications, outcomes, ResilienceScore(outcomes));
  }

  // ---------------------------------------------------------------------------------------------
  // An ordered trajectory

  datatype StepKind = Model | Tool

  datatype Step = Step(name: string, kind: StepKind, consumesRetrieval: bool, baseline: Response, contracts: seq<ContractSpec>)

  datatype StepFault = StepFault(stepIndex: nat, fault: FaultSpec)

  datatype StepOutcome = StepOutcome(
    index: nat,
    name: string,
    kind: StepKind,
    injected: Option<string>,
    healthy: bool,
    signature: string,
    retryCount: u32,
    toolCalls: u32,
    contracts: seq<ContractOutcome>)

  /** The faults attached to one step, in list order. */
  function FaultsAt(faults: seq<StepFault>, index: nat): seq<FaultSpec> {
    if faults == [] then []
    else FaultsAt(faults[..|faults| - 1], index) +
         if faults[|faults| - 1].stepIndex == index then [faults[|faults| - 1].fault] else []
  }

  /** The generator state, the carried retrieval context and the outcomes after some steps. */
  datatype Cursor = Cursor(state: u64, docs: seq<string>, outcomes: seq<StepOutcome>)

  function Preamble(): string {
    "{\"answer\":\"" + "ungrounded answer" + " built from " + "poisoned context:"
  }

  function UngroundedBody(docs: seq<string>): string {
    Preamble() + " " + Join(docs, " ") + "\"" + "}"
  }

  predicate Poisoned(docs: seq<string>) {
    exists d <- docs :: Contains(d, "poisoned")
  }

  /** A retrieval-consuming step answers from the carried context, and poisoned context replaces its answer. */
  function Inherit(step: Step, r: Response, carried: seq<string>): Response {
    if !step.consumesRetrieval then r
    else if Poisoned(carried) then r.(documents := carried, body := UngroundedBody(carried))
    else r.(documents := carried)
  }

  function Signature(name: string, r: Response): string {
    name + "|" + (if r.toolName.None? then "" else r.toolName.value) + "|" + r.body
  }

  predicate AllPassed(os: seq<ContractOutcome>) {
    forall i :: 0 <= i < |os| ==> os[i].passed
  }

  function OutcomeOf(index: nat, step: Step, r: Response, injected: Option<string>, isJson: string -> bool): StepOutcome {
    var outcomes := EvaluateAll(step.name, step.contracts, ToAgentResponse(r), isJson);
    StepOutcome(index, step.name, step.kind, injected, AllPassed(outcomes), Signature(step.name, r), r.retryCount, r.toolCalls, outcomes)
  }

  function NextStep(c: Cursor, index: nat, step: Step, faults: seq<StepFault>, isJson: string -> bool): Cursor {
    var run := RunFaults(c.state, FaultsAt(faults, index), step.baseline);
    var carried := c.docs + run.response.documents;
    var response := Inherit(step, run.response, carried);
    Cursor(run.state, carried, c.outcomes + [OutcomeOf(index, step, response, run.injected, isJson)])
  }

  function RunSteps(steps: seq<Step>, faults: seq<StepFault>, seed: u64, isJson: string -> bool): (c: Cursor)
    ensures |c.outcomes| == |steps|
  {
    if steps == [] then Cursor(seed, [], [])
    else
      var n := |steps| - 1;
      NextStep(RunSteps(steps[..n], faults, seed, isJson), n, steps[n], faults, isJson)
  }

  function StepContracts(outcomes: seq<StepOutcome>): seq<ContractOutcome> {
    if outcomes == [] then [] else StepContracts(outcomes[..|outcomes| - 1]) + outcomes[|outcomes| - 1].contracts
  }

  // ---------------------------------------------------------------------------------------------
  // Whole-trajectory contracts

  datatype TrajectoryContract =
    | RecoversWithin(maxSteps: nat, severity: Option<real>)
    | NoRepeatedStep(severity: Option<real>)
    | TerminatesHealthy(severity: Option<real>)
    | StepBudget(maxSteps: nat, severity: Option<real>)
  {
    function ContractType(): string {
      match this
      case RecoversWithin(_, _) => "recovers_within"
      case NoRepeatedStep(_) => "no_repeated_step"
      case TerminatesHealthy(_) => "terminates_healthy"
      case StepBudget(_, _) => "step_budget"
    }

    function Reason(): string {
      match this
      case RecoversWithin(_, _) => "did_not_recover"
      case NoRepeatedStep(_) => "loop_detected"
      case TerminatesHealthy(_) => "final_step_unhealthy"
      case StepBudget(_, _) => "step_budget_exceeded"
    }
  }

  predicate FirstUnhealthy(steps: seq<StepOutcome>, i: nat) {
    i < |steps| && !steps[i].healthy && forall j :: 0 <= j < i ==> steps[j].healthy
  }

  predicate HealthyAgain(steps: seq<StepOutcome>, first: nat, within: nat) {
    exists i :: first < i <= SaturatingAdd(first, within, U64_MAX) && i < |steps| && steps[i].healthy
  }

  predicate Repeats(steps: seq<StepOutcome>) {
    exists i, j :: 0 <= i < j < |steps| && steps[i].signature == steps[j].signature
  }

  /** What each contract asks of the observed steps. */
  ghost predicate Holds(c: TrajectoryContract, steps: seq<StepOutcome>) {
    match c
    case TerminatesHealthy(_) => steps != [] && steps[|steps| - 1].healthy
    case RecoversWithin(max, _) => forall i :: FirstUnhealthy(steps, i) ==> HealthyAgain(steps, i, max)
    case NoRepeatedStep(_) => !Repeats(steps)
    case StepBudget(max, _) => |steps| <= max
  }

  ghost function TrajectoryOutcome(packName: string, c: TrajectoryContract, steps: seq<StepOutcome>): ContractOutcome {
    var passed := Holds(c, steps);
    ContractOutcome(c.ContractType(), packName, passed, if passed then None else Some(c.Reason()), SeverityOr1(c.severity))
  }

  method FindUnhealthy(steps: seq<StepOutcome>) returns (first: Option<nat>)
    ensures first.Some? ==> FirstUnhealthy(steps, first.value)
    ensures first.None? ==> forall i :: 0 <= i < |steps| ==> steps[i].healthy
  {
    for i := 0 to |steps|
      invariant forall j :: 0 <= j < i ==> steps[j].healthy
    {
      if !steps[i].healthy { return Some(i); }
    }
    return None;
  }

  method FindHealthyAgain(steps: seq<StepOutcome>, first: nat, within: nat) returns (found: bool)
    ensures found <==> HealthyAgain(steps, first, within)
  {
    for i := 0 to |steps|
      invariant forall j :: 0 <= j < i && first < j <= SaturatingAdd(first, within, U64_MAX) ==> !steps[j].healthy
    {
      if i > first && i <= SaturatingAdd(first, within, U64_MAX) && steps[i].healthy { return true; }
    }
    return false;
  }

  /** The loop detector: insert signatures into a set until one is already there. */
  method DetectLoop(steps: seq<StepOutcome>) returns (looped: bool)
    ensures looped <==> Repeats(steps)
  {
    var seen: set<string> := {};
    for i := 0 to |steps|
      invariant forall s :: s in seen <==> exists j :: 0 <= j < i && steps[j].signature == s
      invariant forall j, k :: 0 <= j < k < i ==> steps[j].signature != steps[k].signature
    {
      if steps[i].signature in seen { return true; }
      seen := seen + {steps[i].signature};
    }
    return false;
  }

  method EvaluateTrajectoryContract(packName: string, c: TrajectoryContract, steps: seq<StepOutcome>)
    returns (outcome: ContractOutcome)
    ensures outcome == TrajectoryOutcome(packName, c, steps)
  {
    var passed: bool;
    match c {
      case TerminatesHealthy(_) =>
        passed := |steps| > 0 && steps[|steps| - 1].healthy;
      case RecoversWithin(max, _) =>
        var first := FindUnhealthy(steps);
        if first.None? {
          passed := true;
        } else {
          passed := FindHealthyAgain(steps, first.value, max);
          assert forall i :: FirstUnhealthy(steps, i) ==> i == first.value;
        }
      case NoRepeatedStep(_) =>
        var looped := DetectLoop(steps);
        passed := !looped;
      case StepBudget(max, _) =>
        passed := |steps| <= max;
    }
    outcome := ContractOutcome(c.ContractType(), packName, passed, if passed then None else Some(c.Reason()), SeverityOr1(c.severity));
  }

  /** How each whole-trajectory contract reports; the types are those that the score dimensions collect. */
  lemma TrajectoryReports(packName: string, c: TrajectoryContract, steps: seq<StepOutcome>)
    ensures var o := TrajectoryOutcome(packName, c, steps);
            && o.scenario == packName && (o.reason.None? <==> o.passed) && (o.passed <==> Holds(c, steps))
            && o.severity == (if c.severity.Some? then c.severity.value else 1.0)
            && (c.RecoversWithin? ==> o.contractType == "recovers_within" && (o.passed || o.reason == Some("did_not_recover")))
            && (c.NoRepeatedStep? ==> o.contractType == "no_repeated_step" && (o.passed || o.reason == Some("loop_detected")))
            && (c.TerminatesHealthy? ==> o.contractType == "terminates_healthy" && (o.passed || o.reason == Some("final_step_unhealthy")))
            && (c.StepBudget? ==> o.contractType == "step_budget" && (o.passed || o.reason == Some("step_budget_exceeded")))
  {
    hide Holds;
  }

  datatype RunResult = RunResult(pack: string, steps: seq<StepOutcome>, trajectoryContracts: seq<ContractOutcome>, score: AgenticScore)

  /** The contracts of a trajectory are collected step by step, in order. */
  lemma {:induction false} CollectedInOrder(a: seq<StepOutcome>, b: seq<StepOutcome>)
    ensures StepContracts(a + b) == StepContracts(a) + StepContracts(b)
  {
    if b == [] {
      assert a + b == a && StepContracts(a) + [] == StepContracts(a);
    } else {
      var n := |b| - 1;
      assert (a + b)[..|a + b| - 1] == a + b[..n];
      CollectedInOrder(a, b[..n]);
      assert StepContracts(a) + (StepContracts(b[..n]) + b[n].contracts) == StepContracts(a) + StepContracts(b[..n]) + b[n].contracts;
    }
  }

  lemma CollectedFromOne(o: StepOutcome)
    ensures StepContracts([o]) == o.contracts
  {
    assert [o][..0] == [] && [] + o.contracts == o.contracts;
  }

  lemma FaultsAtStep(faults: seq<StepFault>, i: nat, index: nat)
    requires i < |faults|
    ensures FaultsAt(faults[..i + 1], index) ==
            if faults[i].stepIndex == index then FaultsAt(faults[..i], index) + [faults[i].fault] else FaultsAt(faults[..i], index)
  {
    assert faults[..i + 1][..i] == faults[..i];
  }

  lemma RunStepsStep(steps: seq<Step>, faults: seq<StepFault>, seed: u64, isJson: string -> bool, n: nat)
    requires n < |steps|
    ensures RunSteps(steps[..n + 1], faults, seed, isJson) ==
            NextStep(RunSteps(steps[..n], faults, seed, isJson), n, steps[n], faults, isJson)
  {
    assert steps[..n + 1][..n] == steps[..n];
  }

  lemma FreshRun(steps: seq<Step>, faults: seq<StepFault>, seed: u64, isJson: string -> bool)
    requires steps == []
    ensures RunSteps(steps, faults, seed, isJson) == Cursor(seed, [], [])
  {
  }

  lemma StepContractsStep(outcomes: seq<StepOutcome>, o: StepOutcome)
    ensures StepContracts(outcomes + [o]) == StepContracts(outcomes) + o.contracts
  {
    assert (outcomes + [o])[..|outcomes|] == outcomes;
  }

  /** The inner loop: gate and apply, in list order, the faults attached to one step. */
  method InjectStepFaults(engine: FaultEngine, faults: seq<StepFault>, index: nat, baseline: Response)
    returns (response: Response, injected: Option<string>)
    modifies engine
    ensures var run := RunFaults(old(engine.state), FaultsAt(faults, index), baseline);
            engine.state == run.state && response == run.response && injected == run.injected
  {
    response, injected := baseline, None;
    ghost var run := RunFaults(engine.state, [], baseline);
    for i := 0 to |faults|
      invariant run == RunFaults(old(engine.state), FaultsAt(faults[..i], index), baseline)
      invariant engine.state == run.state && response == run.response && injected == run.injected
    {
      FaultsAtStep(faults, i, index);
      if faults[i].stepIndex == index {
        RunFaultsStep(old(engine.state), FaultsAt(faults[..i], index), faults[i].fault, baseline);
        var applied := engine.ShouldApply(faults[i].fault);
        if applied {
          response := ApplyFault(faults[i].fault, response);
          injected := Some(faults[i].fault.FaultType());
        }
        run := NextFault(run, faults[i].fault);
      }
    }
    assert faults[..|faults|] == faults;
  }

  /** One turn of the outer loop. */
  method ExecuteStep(engine: FaultEngine, carried: seq<string>, index: nat, step: Step, faults: seq<StepFault>,
                     isJson: string -> bool, ghost before: Cursor)
    returns (carried': seq<string>, outcome: StepOutcome)
    requires before.state == engine.state && before.docs == carried
    modifies engine
    ensures NextStep(before, index, step, faults, isJson) == Cursor(engine.state, carried', before.outcomes + [outcome])
  {
    hide FaultsAt, RunFaults, EvaluateAll, UngroundedBody, Signature;
    var response, injected := InjectStepFaults(engine, faults, index, step.baseline);
    ghost var own := response;
    carried' := carried;
    if |response.documents| != 0 {
      carried' := carried' + response.documents;
    }
    assert carried' == carried + own.documents;
    if step.consumesRetrieval {
      response := response.(documents := carried');
      if Poisoned(carried') {
        response := response.(body := UngroundedBody(carried'));
      }
    }
    assert response == Inherit(step, own, carried');
    var outcomes := EvaluateAll(step.name, step.contracts, ToAgentResponse(response), isJson);
    outcome := StepOutcome(index, step.name, step.kind, injected, AllPassed(outcomes), Signature(step.name, response),
                           response.retryCount, response.toolCalls, outcomes);
  }

  /** The outer loop: run the steps in order, carrying retrieval context from step to step. */
  method ExecuteSteps(steps: seq<Step>, faults: seq<StepFault>, seed: u64, isJson: string -> bool)
    returns (stepOutcomes: seq<StepOutcome>, allStepContracts: seq<ContractOutcome>)
    ensures stepOutcomes == RunSteps(steps, faults, seed, isJson).outcomes
    ensures allStepContracts == StepContracts(stepOutcomes)
  {
    var engine := new FaultEngine(seed);
    var carried: seq<string> := [];
    stepOutcomes, allStepContracts := [], [];
    for index := 0 to |steps|
      invariant RunSteps(steps[..index], faults, seed, isJson) == Cursor(engine.state, carried, stepOutcomes)
      invariant allStepContracts == StepContracts(stepOutcomes)
    {
      hide NextStep, StepContracts, RunSteps;
      RunStepsStep(steps, faults, seed, isJson, index);
      var outcome: StepOutcome;
      carried, outcome := ExecuteStep(engine, carried, index, steps[index], faults, isJson, Cursor(engine.state, carried, stepOutcomes));
      StepContractsStep(stepOutcomes, outcome);
      allStepContracts := allStepContracts + outcome.contracts;
      stepOutcomes := stepOutcomes + [outcome];
    }
    assert steps[..|steps|] == steps;
  }

  method EvaluateTrajectoryContracts(packName: string, contracts: seq<TrajectoryContract>, steps: seq<StepOutcome>)
    returns (outcomes: seq<ContractOutcome>)
    ensures |outcomes| == |contracts|
    ensures forall i :: 0 <= i < |contracts| ==> outcomes[i] == TrajectoryOutcome(packName, contracts[i], steps)
  {
    outcomes := [];
    for i := 0 to |contracts|
      invariant |outcomes| == i
      invariant forall j :: 0 <= j < i ==> outcomes[j] == TrajectoryOutcome(packName, contracts[j], steps)
    {
      var outcome := EvaluateTrajectoryContract(packName, contracts[i], steps);
      outcomes := outcomes + [outcome];
    }
  }

  /** The trajectory engine. */
  method ExecuteTrajectory(packName: string, steps: seq<Step>, faults: seq<StepFault>, contracts: seq<TrajectoryContract>,
                           seed: u64, isJson: string -> bool) returns (r: RunResult)
    ensures r.pack == packName
    ensures r.steps == RunSteps(steps, faults, seed, isJson).outcomes
    ensures |r.trajectoryContracts| == |contracts|
    ensures forall i :: 0 <= i < |contracts| ==> r.trajectoryContracts[i] == TrajectoryOutcome(packName, contracts[i], r.steps)
    ensures r.score == ScoreOf(StepContracts(r.steps), r.trajectoryContracts)
    ensures |r.steps| == |steps|
    ensures forall j :: 0 <= j < |steps| ==>
              r.steps[j].contracts ==
              EvaluateAll(steps[j].name, steps[j].contracts,
                          ToAgentResponse(StepRun(steps, faults, seed, j).response.(body := Answer(steps, faults, seed, j))), isJson)
  {
    hide RunSteps, EvaluateAll, StepRun, Answer, ScoreOf, StepContracts;
    forall j | 0 <= j < |steps|
      ensures RunSteps(steps, faults, seed, isJson).outcomes[j].contracts ==
              EvaluateAll(steps[j].name, steps[j].contracts,
                          ToAgentResponse(StepRun(steps, faults, seed, j).response.(body := Answer(steps, faults, seed, j))), isJson)
    {
      StepReports(steps, faults, seed, isJson, j);
    }
    var stepOutcomes, allStepContracts := ExecuteSteps(steps, faults, seed, isJson);
    var trajectoryContracts := EvaluateTrajectoryContracts(packName, contracts, stepOutcomes);
    var score := ComputeAgenticScore(allStepContracts, trajectoryContracts);
    r := RunResult(packName, stepOutcomes, trajectoryContracts, score);
  }

  // ---------------------------------------------------------------------------------------------
  // Where the generator and the retrieval context stand at each step

  /** How many draws the steps before an index consume. */
  function DrawsBefore(faults: seq<StepFault>, index: nat): nat {
    if index == 0 then 0 else DrawsBefore(faults, index - 1) + |FaultsAt(faults, index - 1)|
  }

  /** What faults make of one step, from the generator's position alone. */
  function StepRun(steps: seq<Step>, faults: seq<StepFault>, seed: u64, j: nat): Faulted
    requires j < |steps|
  {
    RunFaults(StateAfter(seed, DrawsBefore(faults, j)), FaultsAt(faults, j), steps[j].baseline)
  }

  /** The post-fault documents of the first n steps, each step's own, one after another. */
  function DocumentsOf(steps: seq<Step>, faults: seq<StepFault>, seed: u64, n: nat): seq<string>
    requires n <= |steps|
  {
    if n == 0 then [] else DocumentsOf(steps, faults, seed, n - 1) + StepRun(steps, faults, seed, n - 1).response.documents
  }

  /** What a step answers with: its own post-fault response, or the carried context. */
  function FinalResponse(steps: seq<Step>, faults: seq<StepFault>, seed: u64, j: nat): Response
    requires j < |steps|
  {
    Inherit(steps[j], StepRun(steps, faults, seed, j).response, DocumentsOf(steps, faults, seed, j + 1))
  }

  function PositionalOutcome(steps: seq<Step>, faults: seq<StepFault>, seed: u64, isJson: string -> bool, j: nat): StepOutcome
    requires j < |steps|
  {
    OutcomeOf(j, steps[j], FinalResponse(steps, faults, seed, j), StepRun(steps, faults, seed, j).injected, isJson)
  }

  lemma NextStepIsPositional(c: Cursor, steps: seq<Step>, faults: seq<StepFault>, seed: u64, isJson: string -> bool, n: nat)
    requires n < |steps|
    requires c.state == StateAfter(seed, DrawsBefore(faults, n)) && c.docs == DocumentsOf(steps, faults, seed, n)
    ensures NextStep(c, n, steps[n], faults, isJson) ==
            Cursor(StateAfter(seed, DrawsBefore(faults, n + 1)), DocumentsOf(steps, faults, seed, n + 1),
                   c.outcomes + [PositionalOutcome(steps, faults, seed, isJson, n)])
  {
    hide OutcomeOf, RunFaults, FaultsAt, StateAfter;
    OneDrawPerFault(seed, DrawsBefore(faults, n), FaultsAt(faults, n), steps[n].baseline);
  }

  /** After n steps the generator stands at the number of draws before step n, and the carried context is exactly the
      concatenation of every step's own documents, each once. */
  lemma {:induction false} CursorPosition(steps: seq<Step>, faults: seq<StepFault>, seed: u64, isJson: string -> bool, n: nat)
    requires n <= |steps|
    ensures RunSteps(steps[..n], faults, seed, isJson).state == StateAfter(seed, DrawsBefore(faults, n))
    ensures RunSteps(steps[..n], faults, seed, isJson).docs == DocumentsOf(steps, faults, seed, n)
  {
    hide NextStep, PositionalOutcome, RunSteps, StepRun;
    if n == 0 {
      FreshRun(steps[..0], faults, seed, isJson);
    } else {
      CursorPosition(steps, faults, seed, isJson, n - 1);
      RunStepsStep(steps, faults, seed, isJson, n - 1);
      NextStepIsPositional(RunSteps(steps[..n - 1], faults, seed, isJson), steps, faults, seed, isJson, n - 1);
    }
  }

  /** Each step's outcome depends on the generator only through the number of draws before it. */
  lemma {:induction false} OutcomePosition(steps: seq<Step>, faults: seq<StepFault>, seed: u64, isJson: string -> bool, n: nat, j: nat)
    requires j < n <= |steps|
    ensures RunSteps(steps[..n], faults, seed, isJson).outcomes[j] == PositionalOutcome(steps, faults, seed, isJson, j)
  {
    hide NextStep, PositionalOutcome, RunSteps, StepRun, DocumentsOf, DrawsBefore, StateAfter;
    CursorPosition(steps, faults, seed, isJson, n - 1);
    RunStepsStep(steps, faults, seed, isJson, n - 1);
    NextStepIsPositional(RunSteps(steps[..n - 1], faults, seed, isJson), steps, faults, seed, isJson, n - 1);
    if j < n - 1 { OutcomePosition(steps, faults, seed, isJson, n - 1, j); }
  }

  lemma OutcomesArePositional(steps: seq<Step>, faults: seq<StepFault>, seed: u64, isJson: string -> bool)
    ensures RunSteps(steps, faults, seed, isJson).outcomes ==
            seq(|steps|, j requires 0 <= j < |steps| => PositionalOutcome(steps, faults, seed, isJson, j))
  {
    hide PositionalOutcome, RunSteps;
    assert steps[..|steps|] == steps;
    forall j | 0 <= j < |steps|
      ensures RunSteps(steps, faults, seed, isJson).outcomes[j] == PositionalOutcome(steps, faults, seed, isJson, j)
    {
      OutcomePosition(steps, faults, seed, isJson, |steps|, j);
    }
  }

  // ---------------------------------------------------------------------------------------------
  // Non-interference

  lemma NextStepAppends(c: Cursor, index: nat, step: Step, faults: seq<StepFault>, isJson: string -> bool)
    ensures c.outcomes <= NextStep(c, index, step, faults, isJson).outcomes
  {
    hide OutcomeOf, RunFaults, Inherit;
  }

  /** Running a prefix of the steps gives a prefix of the outcomes. */
  lemma {:induction false} PrefixOfSteps(steps: seq<Step>, faults: seq<StepFault>, seed: u64, isJson: string -> bool, k: nat)
    requires k <= |steps|
    ensures RunSteps(steps[..k], faults, seed, isJson).outcomes == RunSteps(steps, faults, seed, isJson).outcomes[..k]
    decreases |steps|
  {
    hide RunSteps, NextStep;
    if k < |steps| {
      var n := |steps| - 1;
      PrefixOfSteps(steps[..n], faults, seed, isJson, k);
      assert steps[..n][..k] == steps[..k] && steps[..n + 1] == steps;
      RunStepsStep(steps, faults, seed, isJson, n);
      NextStepAppends(RunSteps(steps[..n], faults, seed, isJson), n, steps[n], faults, isJson);
    } else {
      assert steps[..k] == steps;
    }
  }

  /** Fault lists that agree on the first k steps give the same first k outcomes. */
  lemma EarlierStepsUnaffected(steps: seq<Step>, f: seq<StepFault>, g: seq<StepFault>, seed: u64,
                               isJson: string -> bool, k: nat)
    requires k <= |steps| && forall j :: 0 <= j < k ==> FaultsAt(f, j) == FaultsAt(g, j)
    ensures RunSteps(steps[..k], f, seed, isJson) == RunSteps(steps[..k], g, seed, isJson)
    ensures RunSteps(steps, f, seed, isJson).outcomes[..k] == RunSteps(steps, g, seed, isJson).outcomes[..k]
  {
    hide FaultsAt, RunSteps;
    PrefixUnaffected(steps, f, g, seed, isJson, k);
    PrefixOfSteps(steps, f, seed, isJson, k);
    PrefixOfSteps(steps, g, seed, isJson, k);
  }

  lemma {:induction false} PrefixUnaffected(steps: seq<Step>, f: seq<StepFault>, g: seq<StepFault>, seed: u64,
                                            isJson: string -> bool, k: nat)
    requires k <= |steps| && forall j :: 0 <= j < k ==> FaultsAt(f, j) == FaultsAt(g, j)
    ensures RunSteps(steps[..k], f, seed, isJson) == RunSteps(steps[..k], g, seed, isJson)
    decreases k
  {
    hide FaultsAt, RunSteps;
    if k > 0 {
      PrefixUnaffected(steps, f, g, seed, isJson, k - 1);
      SameFaultsSameStep(steps, f, g, seed, isJson, k - 1);
    } else {
      NoStepsNoRun(f, g, seed, isJson);
      assert steps[..0] == [];
    }
  }

  lemma SameFaultsSameStep(steps: seq<Step>, f: seq<StepFault>, g: seq<StepFault>, seed: u64, isJson: string -> bool, n: nat)
    requires n < |steps| && FaultsAt(f, n) == FaultsAt(g, n)
    requires RunSteps(steps[..n], f, seed, isJson) == RunSteps(steps[..n], g, seed, isJson)
    ensures RunSteps(steps[..n + 1], f, seed, isJson) == RunSteps(steps[..n + 1], g, seed, isJson)
  {
    hide FaultsAt, RunSteps, RunFaults, Inherit, OutcomeOf;
    RunStepsStep(steps, f, seed, isJson, n);
    RunStepsStep(steps, g, seed, isJson, n);
  }

  lemma NoStepsNoRun(f: seq<StepFault>, g: seq<StepFault>, seed: u64, isJson: string -> bool)
    ensures RunSteps([], f, seed, isJson) == RunSteps([], g, seed, isJson)
  {
  }

  lemma {:induction false} FaultsAtConcat(f: seq<StepFault>, g: seq<StepFault>, index: nat)
    ensures FaultsAt(f + g, index) == FaultsAt(f, index) + FaultsAt(g, index)
  {
    if g == [] {
      assert f + g == f;
    } else {
      var n := |g| - 1;
      assert (f + g)[..|f + g| - 1] == f + g[..n];
      FaultsAtConcat(f, g[..n], index);
    }
  }

  /** Adding a fault anywhere in the list leaves every outcome before its step as it was; beyond the last step it
      changes nothing at all. */
  lemma AddedFaultActsFromItsStep(steps: seq<Step>, f: seq<StepFault>, g: seq<StepFault>, added: StepFault, seed: u64,
                                  isJson: string -> bool)
    ensures var k := if added.stepIndex < |steps| then added.stepIndex else |steps|;
            RunSteps(steps, f + [added] + g, seed, isJson).outcomes[..k] == RunSteps(steps, f + g, seed, isJson).outcomes[..k]
    ensures added.stepIndex >= |steps| ==> RunSteps(steps, f + [added] + g, seed, isJson) == RunSteps(steps, f + g, seed, isJson)
  {
    var k := if added.stepIndex < |steps| then added.stepIndex else |steps|;
    forall j: nat | j != added.stepIndex ensures FaultsAt(f + [added] + g, j) == FaultsAt(f + g, j) {
      FaultsAtConcat(f + [added], g, j);
      FaultsAtConcat(f, [added], j);
      FaultsAtConcat(f, g, j);
      assert FaultsAt([added], j) == [];
    }
    EarlierStepsUnaffected(steps, f + [added] + g, f + g, seed, isJson, k);
    assert k == |steps| ==> steps[..k] == steps;
  }

  lemma {:induction false} FaultsAtMembers(faults: seq<StepFault>, index: nat)
    ensures forall x <- FaultsAt(faults, index) :: StepFault(index, x) in faults
  {
    if faults != [] {
      var n := |faults| - 1;
      FaultsAtMembers(faults[..n], index);
      assert faults == faults[..n] + [faults[n]];
    }
  }

  /** When every fault is certain to apply or not, the whole run is the same for every seed. */
  lemma {:induction false} CertainRunsIgnoreSeed(steps: seq<Step>, faults: seq<StepFault>, s: u64, t: u64, isJson: string -> bool)
    requires forall x <- faults :: Certain(x.fault)
    ensures RunSteps(steps, faults, s, isJson).outcomes == RunSteps(steps, faults, t, isJson).outcomes
    ensures RunSteps(steps, faults, s, isJson).docs == RunSteps(steps, faults, t, isJson).docs
    decreases |steps|
  {
    hide OutcomeOf;
    if steps != [] {
      var n := |steps| - 1;
      CertainRunsIgnoreSeed(steps[..n], faults, s, t, isJson);
      FaultsAtMembers(faults, n);
      forall x | x in FaultsAt(faults, n) ensures Certain(x) {
        assert StepFault(n, x) in faults;
      }
      CertainFaultsIgnoreState(RunSteps(steps[..n], faults, s, isJson).state, RunSteps(steps[..n], faults, t, isJson).state,
                               FaultsAt(faults, n), steps[n].baseline);
    }
  }

  // ---------------------------------------------------------------------------------------------
  // The poison cascade

  lemma {:induction false} DocumentsAccumulate(steps: seq<Step>, faults: seq<StepFault>, seed: u64, m: nat, n: nat)
    requires m <= n <= |steps|
    ensures DocumentsOf(steps, faults, seed, m) <= DocumentsOf(steps, faults, seed, n)
    decreases n
  {
    hide StepRun;
    if m < n { DocumentsAccumulate(steps, faults, seed, m, n - 1); }
  }

  lemma PoisonDocumentIsPoisoned()
    ensures Contains("poisoned-document-0", "poisoned")
  {
    assert "poisoned" <= "poisoned-document-0";
  }

  /** Fault k of the faults at step i is a poisoning with documents, and the gate let it apply. */
  predicate PoisonedAt(steps: seq<Step>, faults: seq<StepFault>, seed: u64, i: nat, k: nat)
    requires i < |steps|
  {
    && k < |FaultsAt(faults, i)|
    && FaultsAt(faults, i)[k].RetrievalPoisoning?
    && FaultsAt(faults, i)[k].documentCount >= 1
    && StepRun(steps, faults, seed, i).applied[k]
  }

  lemma PoisonIsCarried(steps: seq<Step>, faults: seq<StepFault>, seed: u64, i: nat, k: nat, j: nat)
    requires i <= j < |steps| && PoisonedAt(steps, faults, seed, i, k)
    ensures Poisoned(DocumentsOf(steps, faults, seed, j + 1))
  {
    hide RunFaults, FaultsAt, StateAfter, DrawsBefore, Contains;
    var own := StepRun(steps, faults, seed, i).response.documents;
    PoisoningLeavesDocument(StateAfter(seed, DrawsBefore(faults, i)), FaultsAt(faults, i), steps[i].baseline, k);
    PoisonDocumentIsPoisoned();
    OwnDocumentsAreCarried(steps, faults, seed, i, j, "poisoned-document-0");
  }

  lemma OwnDocumentsAreCarried(steps: seq<Step>, faults: seq<StepFault>, seed: u64, i: nat, j: nat, doc: string)
    requires i <= j < |steps| && doc in StepRun(steps, faults, seed, i).response.documents
    ensures doc in DocumentsOf(steps, faults, seed, j + 1)
  {
    hide StepRun;
    DocumentsAccumulate(steps, faults, seed, i + 1, j + 1);
    assert doc in DocumentsOf(steps, faults, seed, i + 1);
  }

  lemma PreambleCitesNothing()
    ensures 'h' !in Preamble() && '[' !in Preamble()
  {
    assert 'h' !in "{\"answer\":\"" && '[' !in "{\"answer\":\"";
    assert 'h' !in "ungrounded answer" && '[' !in "ungrounded answer";
    assert 'h' !in " built from " && '[' !in " built from ";
    assert 'h' !in "poisoned context:" && '[' !in "poisoned context:";
  }

  /** The ungrounded answer cites something exactly when a carried document does. */
  lemma UngroundedCites(docs: seq<string>, part: string)
    requires part == "http" || part == "["
    ensures Contains(UngroundedBody(docs), part) <==> exists d <- docs :: Contains(d, part)
  {
    var joined := Join(docs, " ");
    PreambleCitesNothing();
    AbsentCharacter(Preamble(), part);
    AbsentCharacter("}", part);
    ContainsInJoin(docs, part);
    ContainsAcross(Preamble(), ' ', joined, part);
    ContainsAcross(Preamble() + [' '] + joined, '\"', "}", part);
    assert UngroundedBody(docs) == Preamble() + [' '] + joined + ['\"'] + "}";
  }

  /** Once a poisoning with documents applies at step i, every later retrieval-consuming step, and step i itself if it
      consumes, ends with the ungrounded answer; its citation contracts pass exactly when a carried document cites. */
  lemma PoisonCascade(steps: seq<Step>, faults: seq<StepFault>, seed: u64, isJson: string -> bool, i: nat, k: nat, j: nat)
    requires i <= j < |steps| && PoisonedAt(steps, faults, seed, i, k) && steps[j].consumesRetrieval
    ensures FinalResponse(steps, faults, seed, j).body == UngroundedBody(DocumentsOf(steps, faults, seed, j + 1))
    ensures var outcome := RunSteps(steps, faults, seed, isJson).outcomes[j];
            && outcome.signature == Signature(steps[j].name, FinalResponse(steps, faults, seed, j))
            && |outcome.contracts| == |steps[j].contracts|
            && forall c :: 0 <= c < |steps[j].contracts| && steps[j].contracts[c].RequiredCitation? ==>
                 (outcome.contracts[c].passed <==>
                  exists d <- DocumentsOf(steps, faults, seed, j + 1) :: HasCitation(d))
  {
    hide DocumentsOf, UngroundedBody, StepRun, PoisonedAt, Signature, RunSteps;
    PoisonIsCarried(steps, faults, seed, i, k, j);
    OutcomesArePositional(steps, faults, seed, isJson);
    UngroundedCitesExactly(DocumentsOf(steps, faults, seed, j + 1));
  }

  lemma UngroundedCitesExactly(docs: seq<string>)
    ensures HasCitation(UngroundedBody(docs)) <==> exists d <- docs :: HasCitation(d)
  {
    hide Contains, UngroundedBody;
    UngroundedCites(docs, "http");
    UngroundedCites(docs, "[");
  }

  /** The answer that a step is judged by: its own post-fault body, unless the step consumes retrieval and some document
      carried into it, its own included, speaks of poison. */
  function Answer(steps: seq<Step>, faults: seq<StepFault>, seed: u64, j: nat): string
    requires j < |steps|
  {
    var docs := DocumentsOf(steps, faults, seed, j + 1);
    if steps[j].consumesRetrieval && exists d <- docs :: Contains(d, "poisoned")
    then "{\"answer\":\"" + "ungrounded answer built from poisoned context: " + Join(docs, " ") + "\"}"
    else StepRun(steps, faults, seed, j).response.body
  }

  /** Everything a step reports: its contracts judge its own post-fault response with that answer, its signature is built
      from name, tool and answer, and its counters are its own. */
  lemma StepReports(steps: seq<Step>, faults: seq<StepFault>, seed: u64, isJson: string -> bool, j: nat)
    requires j < |steps|
    ensures var own, answer := StepRun(steps, faults, seed, j), Answer(steps, faults, seed, j);
            var outcome := RunSteps(steps, faults, seed, isJson).outcomes[j];
            && outcome.index == j && outcome.name == steps[j].name && outcome.kind == steps[j].kind
            && outcome.injected == own.injected
            && outcome.retryCount == own.response.retryCount && outcome.toolCalls == own.response.toolCalls
            && outcome.contracts == EvaluateAll(steps[j].name, steps[j].contracts, ToAgentResponse(own.response.(body := answer)), isJson)
            && (outcome.healthy <==> forall i :: 0 <= i < |outcome.contracts| ==> outcome.contracts[i].passed)
            && outcome.signature ==
               steps[j].name + "|" + (if own.response.toolName.Some? then own.response.toolName.value else "") + "|" + answer
  {
    hide DocumentsOf, StepRun, RunSteps, EvaluateAll, Contains, UngroundedBody, Join;
    OutcomesArePositional(steps, faults, seed, isJson);
    UngroundedText(DocumentsOf(steps, faults, seed, j + 1));
  }

  lemma UngroundedText(docs: seq<string>)
    ensures UngroundedBody(docs) == "{\"answer\":\"" + "ungrounded answer built from poisoned context: " + Join(docs, " ") + "\"}"
  {
    hide Join;
    var joined := Join(docs, " ");
    PreambleText();
    assert Preamble() + " " + joined + "\"" + "}" == (Preamble() + " ") + joined + ("\"" + "}");
  }

  lemma PreambleText()
    ensures Preamble() + " " == "{\"answer\":\"" + "ungrounded answer built from poisoned context: "
  {
    assert "ungrounded answer" + " built from " == "ungrounded answer built from ";
    assert "poisoned context:" + " " == "poisoned context: ";
    assert "ungrounded answer built from " + "poisoned context: " == "ungrounded answer built from poisoned context: ";
    assert Preamble() + " " == "{\"answer\":\"" + (("ungrounded answer" + " built from ") + ("poisoned context:" + " "));
  }

  // ---------------------------------------------------------------------------------------------
  // The two engines agree

  function AllAtZero(faults: seq<FaultSpec>): (r: seq<StepFault>)
    ensures |r| == |faults|
  {
    seq(|faults|, i requires 0 <= i < |faults| => StepFault(0, faults[i]))
  }

  lemma {:induction false} AllAtZeroAreAtZero(faults: seq<FaultSpec>)
    ensures FaultsAt(AllAtZero(faults), 0) == faults
  {
    if faults != [] {
      var n := |faults| - 1;
      AllAtZeroAreAtZero(faults[..n]);
      assert AllAtZero(faults)[..n] == AllAtZero(faults[..n]);
      assert faults == faults[..n] + [faults[n]];
    }
  }

  /** A one-step trajectory without retrieval is the single-call engine: same contract outcomes, healthy iff all pass. */
  lemma EnginesAgree(name: string, kind: StepKind, seed: u64, baseline: Response, faults: seq<FaultSpec>,
                     contracts: seq<ContractSpec>, isJson: string -> bool)
    ensures var step := Step(name, kind, false, baseline, contracts);
            var outcomes := RunSteps([step], AllAtZero(faults), seed, isJson).outcomes;
            var run := Executed(name, seed, baseline, faults, contracts, isJson);
            && outcomes[0].contracts == run.contracts
            && (outcomes[0].healthy <==> AllPassed(run.contracts))
            && outcomes[0].signature == Signature(name, run.response)
            && StepContracts(outcomes) == run.contracts
  {
    hide RunFaults, FaultsAt, EvaluateAll, Signature, RunSteps, StepContracts;
    var step := Step(name, kind, false, baseline, contracts);
    var start := RunSteps([step][..0], AllAtZero(faults), seed, isJson);
    AllAtZeroAreAtZero(faults);
    RunStepsStep([step], AllAtZero(faults), seed, isJson, 0);
    FreshRun([step][..0], AllAtZero(faults), seed, isJson);
    assert [step][..1] == [step];
    var next := NextStep(start, 0, step, AllAtZero(faults), isJson);
    assert next.outcomes == [] + [next.outcomes[0]];
    StepContractsStep([], next.outcomes[0]);
    NoContracts();
  }

  lemma NoContracts()
    ensures StepContracts([]) == []
  {
  }
}
