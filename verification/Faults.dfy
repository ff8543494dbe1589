/** Declarative faults, the seeded gate in front of them, and what an applied fault does to a response. */
module Faults {
  import opened MachineWords
  import opened Text
  import opened Generator

  datatype FaultSpec =
    | ModelLatency(latencyMs: u64, p: real)
    | ModelTimeout(timeoutMs: u64, p: real)
    | ProviderError(code: u16, p: real)
    | RateLimit(retryAfterMs: u64, p: real)
    | MalformedOutput(p: real)
    | OutputTruncation(maxBytes: u64, p: real)
    | HallucinatedToolCall(hallucinated: string, p: real)
    | ToolLatency(latencyMs: u64, p: real)
    | ToolFailure(errorType: string, p: real)
    | RetrievalPoisoning(documentCount: u32, p: real)
    | ContextTruncation(maxTokens: u32, p: real)
    | TokenBudgetExhaustion(maxTokens: u32, p: real)
    | RetryLoopPressure(maxRetries: u32, p: real)
  {
    function FaultType(): string {
      match this
      case ModelLatency(_, _) => "model_latency"
      case ModelTimeout(_, _) => "model_timeout"
      case ProviderError(_, _) => "provider_error"
      case RateLimit(_, _) => "rate_limit"
      case MalformedOutput(_) => "malformed_output"
      case OutputTruncation(_, _) => "output_truncation"
      case HallucinatedToolCall(_, _) => "hallucinated_tool_call"
      case ToolLatency(_, _) => "tool_latency"
      case ToolFailure(_, _) => "tool_failure"
      case RetrievalPoisoning(_, _) => "retrieval_poisoning"
      case ContextTruncation(_, _) => "context_truncation"
      case TokenBudgetExhaustion(_, _) => "token_budget_exhaustion"
      case RetryLoopPressure(_, _) => "retry_loop_pressure"
    }
  }

  datatype Response = Response(
    body: string,
    latencyMs: u64,
    retryCount: u32,
    toolCalls: u32,
    inputTokens: u32,
    outputTokens: u32,
    fallbackUsed: bool,
    toolName: Option<string>,
    documents: seq<string>)

  function Decimal(n: nat): string {
    if n < 10 then [Digit(n)] else Decimal(n / 10) + [Digit(n % 10)]
  }

  function Truncated(s: string, max: nat): string {
    if |s| <= max then s else s[..max]
  }

  /** The printed number reads back, and starts with a zero only for zero itself. */
  lemma {:induction false} DecimalReadsBack(n: nat)
    ensures Decimal(n) != "" && ReadNumber(Decimal(n)) == Some(n)
    ensures n > 0 ==> Decimal(n)[0] != '0'
  {
    if n < 10 {
      assert Decimal(n)[..0] == "" && ReadNumber("") == Some(0);
    } else {
      DecimalReadsBack(n / 10);
      assert Decimal(n)[..|Decimal(n)| - 1] == Decimal(n / 10);
    }
  }

  function PoisonDocuments(count: nat): (docs: seq<string>) {
    if count == 0 then [] else PoisonDocuments(count - 1) + ["poisoned-document-" + Decimal(count - 1)]
  }

  function ApplyFault(f: FaultSpec, r: Response): Response {
    match f
    case ModelLatency(ms, _) => r.(latencyMs := SaturatingAdd(r.latencyMs, ms, U64_MAX))
    case ToolLatency(ms, _) => r.(latencyMs := SaturatingAdd(r.latencyMs, ms, U64_MAX))
    case ModelTimeout(ms, _) =>
      r.(latencyMs := SaturatingAdd(r.latencyMs, ms, U64_MAX), body := "{\"error\":\"model_timeout\"}")
    case ProviderError(code, _) => r.(body := "{\"error\":\"provider_error\",\"code\":" + Decimal(code) + "}")
    case RateLimit(ms, _) =>
      r.(retryCount := SaturatingAdd(r.retryCount, 1, U32_MAX), latencyMs := SaturatingAdd(r.latencyMs, ms, U64_MAX))
    case MalformedOutput(_) => r.(body := "{malformed-json")
    case OutputTruncation(max, _) => r.(body := Truncated(r.body, max))
    case HallucinatedToolCall(name, _) =>
      r.(toolName := Some(name), toolCalls := SaturatingAdd(r.toolCalls, 1, U32_MAX))
    case ToolFailure(errorType, _) => r.(body := "{\"tool_error\":\"" + errorType + "\"}")
    case RetrievalPoisoning(count, _) =>
      var docs := PoisonDocuments(count);
      r.(documents := r.documents + docs,
         body := "{\"answer\":\"answer contaminated by poisoned retrieval: " + Join(docs, " ") + "\"}")
    case ContextTruncation(max, _) => LimitTokens(r, max)
    case TokenBudgetExhaustion(max, _) => LimitTokens(r, max)
    case RetryLoopPressure(max, _) => r.(retryCount := max)
  }

  function LimitTokens(r: Response, max: u32): Response {
    if SaturatingAdd(r.inputTokens, r.outputTokens, U32_MAX) > max
    then r.(outputTokens := SaturatingSub(max, r.inputTokens))
    else r
  }

  /** The seeded gate: one draw per decision. */
  class FaultEngine {
    var state: u64

    constructor (seed: u64)
      ensures state == seed
    {
      state := seed;
    }

    method ShouldApply(fault: FaultSpec) returns (applied: bool)
      modifies this
      ensures state == Advance(old(state))
      ensures applied <==> Gate(state, fault.p)
    {
      state := (state * MULTIPLIER + 1) % MODULUS;
      applied := UnitDraw(state) < fault.p;
    }
  }

  // ---------------------------------------------------------------------------------------------
  // A fault list against one response

  datatype Faulted = Faulted(state: u64, response: Response, applied: seq<bool>, injected: Option<string>)

  /** Each fault in turn draws once and, when the gate opens, changes the response that later faults see. */
  function RunFaults(state: u64, faults: seq<FaultSpec>, r: Response): (result: Faulted)
    ensures |result.applied| == |faults|
  {
    if faults == [] then Faulted(state, r, [], None)
    else
      var before := RunFaults(state, faults[..|faults| - 1], r);
      NextFault(before, faults[|faults| - 1])
  }

  function NextFault(before: Faulted, f: FaultSpec): Faulted {
    var next := Advance(before.state);
    if Gate(next, f.p)
    then Faulted(next, ApplyFault(f, before.response), before.applied + [true], Some(f.FaultType()))
    else Faulted(next, before.response, before.applied + [false], before.injected)
  }

  lemma RunFaultsStep(state: u64, faults: seq<FaultSpec>, f: FaultSpec, r: Response)
    ensures RunFaults(state, faults + [f], r) == NextFault(RunFaults(state, faults, r), f)
  {
    var all := faults + [f];
    assert all[..|all| - 1] == faults;
  }

  /** A run consumes exactly one draw per fault, applied or not. */
  lemma {:induction false} OneDrawPerFault(seed: u64, start: nat, faults: seq<FaultSpec>, r: Response)
    ensures RunFaults(StateAfter(seed, start), faults, r).state == StateAfter(seed, start + |faults|)
  {
    if faults != [] {
      OneDrawPerFault(seed, start, faults[..|faults| - 1], r);
    }
  }

  /** The fault types, as journals name them. */
  lemma FaultTypeNames(f: FaultSpec)
    ensures f.ModelLatency? <==> f.FaultType() == "model_latency"
    ensures f.ModelTimeout? <==> f.FaultType() == "model_timeout"
    ensures f.ProviderError? <==> f.FaultType() == "provider_error"
    ensures f.RateLimit? <==> f.FaultType() == "rate_limit"
    ensures f.MalformedOutput? <==> f.FaultType() == "malformed_output"
    ensures f.OutputTruncation? <==> f.FaultType() == "output_truncation"
    ensures f.HallucinatedToolCall? <==> f.FaultType() == "hallucinated_tool_call"
    ensures f.ToolLatency? <==> f.FaultType() == "tool_latency"
    ensures f.ToolFailure? <==> f.FaultType() == "tool_failure"
    ensures f.RetrievalPoisoning? <==> f.FaultType() == "retrieval_poisoning"
    ensures f.ContextTruncation? <==> f.FaultType() == "context_truncation"
    ensures f.TokenBudgetExhaustion? <==> f.FaultType() == "token_budget_exhaustion"
    ensures f.RetryLoopPressure? <==> f.FaultType() == "retry_loop_pressure"
  {
  }

  lemma StartsAtSeed(seed: u64)
    ensures StateAfter(seed, 0) == seed
  {
  }

  /** Whether a fault applies depends on its own draw alone. */
  lemma {:induction false} GateDecides(seed: u64, start: nat, faults: seq<FaultSpec>, r: Response, i: nat)
    requires i < |faults|
    ensures RunFaults(StateAfter(seed, start), faults, r).applied[i] <==> Gate(StateAfter(seed, start + i + 1), faults[i].p)
  {
    hide ApplyFault, Gate;
    var n := |faults| - 1;
    if i < n {
      GateDecides(seed, start, faults[..n], r, i);
    } else {
      OneDrawPerFault(seed, start, faults[..n], r);
    }
  }

  /** A token fault leaves a response that fits alone; else it cuts the output to what the limit leaves beside the input. */
  lemma TokenFaultExactly(r: Response, max: u32, p: real)
    ensures var a := ApplyFault(TokenBudgetExhaustion(max, p), r);
            a == r.(outputTokens := a.outputTokens) &&
            a.outputTokens == if SaturatingAdd(r.inputTokens, r.outputTokens, U32_MAX) <= max then r.outputTokens
                              else if r.inputTokens <= max then max - r.inputTokens
                              else 0
    ensures ApplyFault(ContextTruncation(max, p), r) == ApplyFault(TokenBudgetExhaustion(max, p), r)
  {
  }

  /** A fault that always or never applies. */
  predicate Certain(f: FaultSpec) {
    f.p <= 0.0 || f.p >= 1.0
  }

  /** When every fault is certain the outcome is the same from every generator state. */
  lemma {:induction false} CertainFaultsIgnoreState(s: u64, t: u64, faults: seq<FaultSpec>, r: Response)
    requires forall f <- faults :: Certain(f)
    ensures var x, y := RunFaults(s, faults, r), RunFaults(t, faults, r);
            x.response == y.response && x.applied == y.applied && x.injected == y.injected
  {
    if faults != [] {
      var n := |faults| - 1;
      CertainFaultsIgnoreState(s, t, faults[..n], r);
      assert Certain(faults[n]);
      DrawsAreUnit(RunFaults(s, faults, r).state);
      DrawsAreUnit(RunFaults(t, faults, r).state);
    }
  }

  /** One document for each number below the count, named by it. */
  lemma {:induction false} PoisonDocumentNames(count: nat, i: nat)
    requires i < count
    ensures |PoisonDocuments(count)| == count && PoisonDocuments(count)[i] == "poisoned-document-" + Decimal(i)
  {
    hide Decimal;
    PoisonDocumentCount(count - 1);
    if i < count - 1 { PoisonDocumentNames(count - 1, i); }
  }

  lemma {:induction false} PoisonDocumentCount(count: nat)
    ensures |PoisonDocuments(count)| == count
  {
    if count > 0 { PoisonDocumentCount(count - 1); }
  }

  /** What the body-writing faults answer with, and that a truncation keeps the front of the answer. */
  lemma WrittenBodies(r: Response, n: nat, code: u16, max: u64, errorType: string, count: u32, p: real)
    requires n <= U64_MAX
    ensures ApplyFault(ModelTimeout(n, p), r).body == "{\"error\":\"model_timeout\"}"
    ensures ApplyFault(ProviderError(code, p), r).body == "{\"error\":\"provider_error\",\"code\":" + Decimal(code) + "}"
    ensures ApplyFault(MalformedOutput(p), r).body == "{malformed-json"
    ensures ApplyFault(ToolFailure(errorType, p), r).body == "{\"tool_error\":\"" + errorType + "\"}"
    ensures ApplyFault(RetrievalPoisoning(count, p), r).body ==
            "{\"answer\":\"answer contaminated by poisoned retrieval: " + Join(PoisonDocuments(count), " ") + "\"}"
    ensures var cut := ApplyFault(OutputTruncation(max, p), r).body;
            cut <= r.body && |cut| == if |r.body| <= max then |r.body| else max
  {
    hide Decimal, Join, PoisonDocuments;
  }

  /** The documents that a fault adds. */
  function PoisonOf(f: FaultSpec): seq<string> {
    if f.RetrievalPoisoning? then PoisonDocuments(f.documentCount) else []
  }

  lemma DocumentsStep(f: FaultSpec, r: Response)
    ensures ApplyFault(f, r).documents == r.documents + PoisonOf(f)
  {
    hide Join, PoisonDocuments, Decimal, Truncated;
  }

  /** No fault ever removes a retrieved document. */
  lemma {:induction false} DocumentsOnlyGrow(state: u64, faults: seq<FaultSpec>, r: Response)
    ensures r.documents <= RunFaults(state, faults, r).response.documents
  {
    hide ApplyFault, PoisonOf, Gate, Advance;
    if faults != [] {
      var n := |faults| - 1;
      DocumentsOnlyGrow(state, faults[..n], r);
      DocumentsStep(faults[n], RunFaults(state, faults[..n], r).response);
    }
  }

  lemma {:induction false} PoisonStartsWithZero(count: nat)
    requires count >= 1
    ensures PoisonDocuments(count)[..1] == ["poisoned-document-0"]
  {
    if count == 1 {
      assert Decimal(0) == "0" && "poisoned-document-" + "0" == "poisoned-document-0";
      assert PoisonDocuments(1) == [] + ["poisoned-document-0"];
    } else {
      PoisonStartsWithZero(count - 1);
    }
  }

  /** An applied poisoning leaves its first document behind, whatever follows it. */
  lemma {:induction false} PoisoningLeavesDocument(state: u64, faults: seq<FaultSpec>, r: Response, k: nat)
    requires k < |faults| && faults[k].RetrievalPoisoning? && faults[k].documentCount >= 1
    requires RunFaults(state, faults, r).applied[k]
    ensures "poisoned-document-0" in RunFaults(state, faults, r).response.documents
  {
    hide ApplyFault, PoisonDocuments, Gate, Advance;
    var n := |faults| - 1;
    var before := RunFaults(state, faults[..n], r);
    DocumentsStep(faults[n], before.response);
    if k < n {
      assert before.applied[k];
      PoisoningLeavesDocument(state, faults[..n], r, k);
    } else {
      FirstPoison(faults[n].documentCount);
    }
  }

  lemma FirstPoison(count: nat)
    requires count >= 1
    ensures "poisoned-document-0" in PoisonDocuments(count)
  {
    PoisonStartsWithZero(count);
    assert PoisonDocuments(count)[0] == PoisonDocuments(count)[..1][0];
  }
}
