/** What a whole fault list does to a response: the totals it adds, what it overwrites, and what it never touches. */
module FaultEffects {
  import opened MachineWords
  import opened Text
  import opened Generator
  import opened Faults
  import opened Contracts

  /** Apply every fault of a list, in order. */
  function ApplyAll(fs: seq<FaultSpec>, r: Response): Response {
    if fs == [] then r else ApplyFault(fs[|fs| - 1], ApplyAll(fs[..|fs| - 1], r))
  }

  /** The faults that the gate let through. */
  function Applied(faults: seq<FaultSpec>, applied: seq<bool>): seq<FaultSpec>
    requires |faults| == |applied|
  {
    if faults == [] then []
    else
      var n := |faults| - 1;
      Applied(faults[..n], applied[..n]) + if applied[n] then [faults[n]] else []
  }

  lemma {:induction false} ApplyAllConcat(a: seq<FaultSpec>, b: seq<FaultSpec>, r: Response)
    ensures ApplyAll(a + b, r) == ApplyAll(b, ApplyAll(a, r))
  {
    hide ApplyFault;
    if b == [] {
      assert a + b == a;
    } else {
      var n := |b| - 1;
      assert (a + b)[..|a + b| - 1] == a + b[..n];
      ApplyAllConcat(a, b[..n], r);
    }
  }

  /** A gated run is the application of exactly the faults that were let through. */
  lemma {:induction false} RunAppliesTheApplied(state: u64, faults: seq<FaultSpec>, r: Response)
    ensures var run := RunFaults(state, faults, r);
            run.response == ApplyAll(Applied(faults, run.applied), r)
  {
    hide ApplyFault, Gate, Advance;
    if faults != [] {
      var n := |faults| - 1;
      var before := RunFaults(state, faults[..n], r);
      var run := RunFaults(state, faults, r);
      RunAppliesTheApplied(state, faults[..n], r);
      assert run.applied[..n] == before.applied;
      if run.applied[n] {
        var let := Applied(faults[..n], before.applied);
        assert (let + [faults[n]])[..|let|] == let;
      } else {
        assert Applied(faults[..n], before.applied) + [] == Applied(faults[..n], before.applied);
      }
    }
  }

  function LatencyOf(f: FaultSpec): nat {
    match f
    case ModelLatency(ms, _) => ms
    case ToolLatency(ms, _) => ms
    case ModelTimeout(ms, _) => ms
    case RateLimit(ms, _) => ms
    case _ => 0
  }

  function TotalLatency(fs: seq<FaultSpec>): nat {
    if fs == [] then 0 else TotalLatency(fs[..|fs| - 1]) + LatencyOf(fs[|fs| - 1])
  }

  lemma OneFaultsLatency(f: FaultSpec, r: Response)
    ensures ApplyFault(f, r).latencyMs == SaturatingAdd(r.latencyMs, LatencyOf(f), U64_MAX)
  {
    hide Join, PoisonDocuments, Decimal, Truncated;
  }

  /** Latency is the sum of what the applied faults add, saturated once, whatever their order. */
  lemma {:induction false} LatencyAddsUp(fs: seq<FaultSpec>, r: Response)
    ensures ApplyAll(fs, r).latencyMs == SaturatingAdd(r.latencyMs, TotalLatency(fs), U64_MAX)
  {
    hide ApplyFault, LatencyOf;
    if fs != [] {
      var n := |fs| - 1;
      LatencyAddsUp(fs[..n], r);
      OneFaultsLatency(fs[n], ApplyAll(fs[..n], r));
    }
  }

  /** The latency contract passes exactly when the baseline and the applied delays together stay within it, except that
      the largest limit of all is never exceeded, because the sum saturates there. */
  lemma LatencyContractSeesTheSum(state: u64, faults: seq<FaultSpec>, r: Response, max: u64, severity: Option<real>,
                                  isJson: string -> bool)
    ensures var run := RunFaults(state, faults, r);
            Passes(MaxLatency(max, severity), ToAgentResponse(run.response), isJson) <==>
            r.latencyMs + TotalLatency(Applied(faults, run.applied)) <= max || max == U64_MAX
  {
    hide RunFaults, ApplyAll;
    RunAppliesTheApplied(state, faults, r);
    LatencyAddsUp(Applied(faults, RunFaults(state, faults, r).applied), r);
  }

  function CountCalls(fs: seq<FaultSpec>): nat {
    if fs == [] then 0 else CountCalls(fs[..|fs| - 1]) + if fs[|fs| - 1].HallucinatedToolCall? then 1 else 0
  }

  function LastTool(fs: seq<FaultSpec>, before: Option<string>): Option<string> {
    if fs == [] then before
    else if fs[|fs| - 1].HallucinatedToolCall? then Some(fs[|fs| - 1].hallucinated)
    else LastTool(fs[..|fs| - 1], before)
  }

  /** Tool calls grow by one for each applied hallucination, and the last of them names the tool. */
  lemma {:induction false} ToolCallsAddUp(fs: seq<FaultSpec>, r: Response)
    ensures ApplyAll(fs, r).toolCalls == SaturatingAdd(r.toolCalls, CountCalls(fs), U32_MAX)
    ensures ApplyAll(fs, r).toolName == LastTool(fs, r.toolName)
  {
    hide Join, PoisonDocuments, Decimal, Truncated;
    if fs != [] { ToolCallsAddUp(fs[..|fs| - 1], r); }
  }

  function Poisons(fs: seq<FaultSpec>): seq<string> {
    if fs == [] then [] else Poisons(fs[..|fs| - 1]) + PoisonOf(fs[|fs| - 1])
  }

  /** The documents are the baseline's followed by those of each applied poisoning, in order. */
  lemma {:induction false} DocumentsAddUp(fs: seq<FaultSpec>, r: Response)
    ensures ApplyAll(fs, r).documents == r.documents + Poisons(fs)
  {
    hide ApplyFault, PoisonOf;
    if fs != [] {
      var n := |fs| - 1;
      DocumentsAddUp(fs[..n], r);
      DocumentsStep(fs[n], ApplyAll(fs[..n], r));
    }
  }

  function CountRateLimits(fs: seq<FaultSpec>): nat {
    if fs == [] then 0 else CountRateLimits(fs[..|fs| - 1]) + if fs[|fs| - 1].RateLimit? then 1 else 0
  }

  /** Without retry pressure, retries grow by one for each applied rate limit. */
  lemma {:induction false} RetriesAddUp(fs: seq<FaultSpec>, r: Response)
    requires forall f <- fs :: !f.RetryLoopPressure?
    ensures ApplyAll(fs, r).retryCount == SaturatingAdd(r.retryCount, CountRateLimits(fs), U32_MAX)
  {
    hide Join, PoisonDocuments, Decimal, Truncated;
    if fs != [] {
      assert !fs[|fs| - 1].RetryLoopPressure?;
      RetriesAddUp(fs[..|fs| - 1], r);
    }
  }

  /** The last retry pressure forgets everything before it; later rate limits add to its count. */
  lemma PressureSetsRetries(fs: seq<FaultSpec>, r: Response, k: nat)
    requires k < |fs| && fs[k].RetryLoopPressure? && forall f <- fs[k + 1..] :: !f.RetryLoopPressure?
    ensures ApplyAll(fs, r).retryCount == SaturatingAdd(fs[k].maxRetries, CountRateLimits(fs[k + 1..]), U32_MAX)
  {
    hide CountRateLimits;
    var front, rest := fs[..k + 1], fs[k + 1..];
    assert fs == front + rest && front[..k] == fs[..k];
    ApplyAllConcat(front, rest, r);
    RetriesAddUp(rest, ApplyAll(front, r));
  }

  /** The injected fault that a run reports is the last that was let through. */
  lemma {:induction false} ReportsLastApplied(state: u64, faults: seq<FaultSpec>, r: Response)
    ensures var run := RunFaults(state, faults, r);
            var applied := Applied(faults, run.applied);
            run.injected == if applied == [] then None else Some(applied[|applied| - 1].FaultType())
  {
    hide ApplyFault, Gate, Advance;
    if faults != [] {
      var n := |faults| - 1;
      ReportsLastApplied(state, faults[..n], r);
      assert RunFaults(state, faults, r).applied[..n] == RunFaults(state, faults[..n], r).applied;
    }
  }

  /** The tool call contract counts the baseline's calls and the applied hallucinations. */
  lemma ToolCallContractSeesTheCount(state: u64, faults: seq<FaultSpec>, r: Response, max: u32, severity: Option<real>,
                                     isJson: string -> bool)
    ensures var run := RunFaults(state, faults, r);
            Passes(MaxToolCalls(max, severity), ToAgentResponse(run.response), isJson) <==>
            r.toolCalls + CountCalls(Applied(faults, run.applied)) <= max || max == U32_MAX
  {
    hide RunFaults, ApplyAll;
    RunAppliesTheApplied(state, faults, r);
    ToolCallsAddUp(Applied(faults, RunFaults(state, faults, r).applied), r);
  }

  /** The retry contract counts the baseline's retries and the applied rate limits, or from the last retry pressure on. */
  lemma RetryContractSeesTheCount(state: u64, faults: seq<FaultSpec>, r: Response, max: u32, severity: Option<real>,
                                  isJson: string -> bool)
    ensures var run := RunFaults(state, faults, r);
            Passes(RetryBudget(max, severity), ToAgentResponse(run.response), isJson) <==>
            Retries(Applied(faults, run.applied), r.retryCount) <= max || max == U32_MAX
  {
    hide RunFaults, ApplyAll;
    RunAppliesTheApplied(state, faults, r);
    RetriesExactly(Applied(faults, RunFaults(state, faults, r).applied), r);
  }

  /** Retries without saturation: each rate limit adds one, and retry pressure starts again from its own count. */
  function Retries(fs: seq<FaultSpec>, before: nat): nat {
    if fs == [] then before
    else
      match fs[|fs| - 1]
      case RetryLoopPressure(max, _) => max
      case RateLimit(_, _) => Retries(fs[..|fs| - 1], before) + 1
      case _ => Retries(fs[..|fs| - 1], before)
  }

  lemma {:induction false} RetriesExactly(fs: seq<FaultSpec>, r: Response)
    ensures ApplyAll(fs, r).retryCount == SaturatingAdd(0, Retries(fs, r.retryCount), U32_MAX)
  {
    hide Join, PoisonDocuments, Decimal, Truncated;
    if fs != [] { RetriesExactly(fs[..|fs| - 1], r); }
  }

  /** No fault decides whether the fallback was used. */
  lemma FallbackContractSeesTheBaseline(state: u64, faults: seq<FaultSpec>, r: Response, severity: Option<real>,
                                        isJson: string -> bool)
    ensures Passes(FallbackUsed(severity), ToAgentResponse(RunFaults(state, faults, r).response), isJson) <==> r.fallbackUsed
  {
    hide RunFaults, ApplyAll;
    RunAppliesTheApplied(state, faults, r);
    TokensOnlyShrink(Applied(faults, RunFaults(state, faults, r).applied), r);
  }

  /** The token contract weighs the baseline's input and the output that the faults leave. */
  lemma TokenContractSeesTheTotal(state: u64, faults: seq<FaultSpec>, r: Response, max: u32, severity: Option<real>,
                                  isJson: string -> bool)
    ensures var out := RunFaults(state, faults, r).response.outputTokens;
            Passes(MaxTokenUsage(max, severity), ToAgentResponse(RunFaults(state, faults, r).response), isJson) <==>
            r.inputTokens + out <= max || max == U32_MAX
  {
    hide RunFaults, ApplyAll;
    RunAppliesTheApplied(state, faults, r);
    TokensOnlyShrink(Applied(faults, RunFaults(state, faults, r).applied), r);
  }

  predicate WritesBody(f: FaultSpec) {
    f.ModelTimeout? || f.ProviderError? || f.MalformedOutput? || f.ToolFailure? || f.RetrievalPoisoning?
  }

  /** How much of a body of this length the truncations of a list leave. */
  function Shortest(fs: seq<FaultSpec>, length: nat): (r: nat)
    ensures r <= length
  {
    if fs == [] then length
    else
      var before := Shortest(fs[..|fs| - 1], length);
      var f := fs[|fs| - 1];
      if f.OutputTruncation? && f.maxBytes < before then f.maxBytes else before
  }

  lemma BodyStep(f: FaultSpec, r: Response, s: Response)
    ensures WritesBody(f) ==> ApplyFault(f, r).body == ApplyFault(f, s).body
    ensures f.OutputTruncation? ==> !WritesBody(f) && ApplyFault(f, r).body == Truncated(r.body, f.maxBytes)
    ensures !f.OutputTruncation? && !WritesBody(f) ==> ApplyFault(f, r).body == r.body
  {
    hide Join, PoisonDocuments, Decimal, Truncated;
  }

  /** A body-writing fault forgets the body before it. */
  lemma {:induction false} BodyForgetsThePast(fs: seq<FaultSpec>, r: Response, s: Response, k: nat)
    requires k < |fs| && WritesBody(fs[k])
    ensures ApplyAll(fs, r).body == ApplyAll(fs, s).body
  {
    hide ApplyFault, WritesBody;
    var n := |fs| - 1;
    if k < n { BodyForgetsThePast(fs[..n], r, s, k); }
    BodyStep(fs[n], ApplyAll(fs[..n], r), ApplyAll(fs[..n], s));
    BodyStep(fs[n], ApplyAll(fs[..n], s), ApplyAll(fs[..n], r));
  }

  /** Faults that write no body leave a prefix of it: as much as their least truncation. */
  lemma {:induction false} BodyIsCut(fs: seq<FaultSpec>, r: Response)
    requires forall f <- fs :: !WritesBody(f)
    ensures ApplyAll(fs, r).body == r.body[..Shortest(fs, |r.body|)]
  {
    hide ApplyFault, WritesBody;
    if fs != [] {
      var n := |fs| - 1;
      assert fs[n] in fs;
      BodyIsCut(fs[..n], r);
      BodyStep(fs[n], ApplyAll(fs[..n], r), r);
    }
  }

  /** The last body-writing fault decides the body, whatever the response was; later truncations cut it. */
  lemma LastWriterDecidesBody(fs: seq<FaultSpec>, r: Response, s: Response, k: nat)
    requires k < |fs| && WritesBody(fs[k]) && forall f <- fs[k + 1..] :: !WritesBody(f)
    ensures var body := ApplyFault(fs[k], s).body;
            ApplyAll(fs, r).body == body[..Shortest(fs[k + 1..], |body|)]
  {
    hide ApplyFault, WritesBody, Shortest;
    var front, rest := fs[..k + 1], fs[k + 1..];
    assert fs == front + rest && front[..k] == fs[..k];
    ApplyAllConcat(front, rest, r);
    BodyStep(fs[k], ApplyAll(fs[..k], r), s);
    BodyIsCut(rest, ApplyAll(front, r));
  }

  predicate LimitsTokens(f: FaultSpec)
    ensures LimitsTokens(f) ==> f.ContextTruncation? || f.TokenBudgetExhaustion?
  {
    f.ContextTruncation? || f.TokenBudgetExhaustion?
  }

  function TotalTokens(r: Response): nat {
    SaturatingAdd(r.inputTokens, r.outputTokens, U32_MAX)
  }

  /** Input tokens and the fallback flag are never touched; output tokens never grow, and any limit at least as large as
      the input holds at the end wherever it stands in the list. */
  lemma {:induction false} TokensOnlyShrink(fs: seq<FaultSpec>, r: Response)
    ensures var a := ApplyAll(fs, r);
            && a.inputTokens == r.inputTokens && a.fallbackUsed == r.fallbackUsed && a.outputTokens <= r.outputTokens
            && forall f <- fs :: LimitsTokens(f) && r.inputTokens <= f.maxTokens ==> TotalTokens(a) <= f.maxTokens
  {
    hide ApplyFault, LimitsTokens, TotalTokens;
    if fs != [] {
      var n := |fs| - 1;
      var before, a := ApplyAll(fs[..n], r), ApplyAll(fs, r);
      TokensOnlyShrink(fs[..n], r);
      TokensStep(fs[n], before);
      FewerTokens(before, a);
      forall f | f in fs && LimitsTokens(f) && r.inputTokens <= f.maxTokens ensures TotalTokens(a) <= f.maxTokens {
        assert f in fs[..n] || f == fs[n];
      }
    }
  }

  lemma TokensStep(f: FaultSpec, r: Response)
    ensures var a := ApplyFault(f, r);
            && a.inputTokens == r.inputTokens && a.fallbackUsed == r.fallbackUsed && a.outputTokens <= r.outputTokens
            && (LimitsTokens(f) && r.inputTokens <= f.maxTokens ==> TotalTokens(a) <= f.maxTokens)
  {
    hide Join, PoisonDocuments, Decimal, Truncated;
  }

  lemma FewerTokens(r: Response, s: Response)
    requires r.inputTokens == s.inputTokens && s.outputTokens <= r.outputTokens
    ensures TotalTokens(s) <= TotalTokens(r)
  {
  }
}
