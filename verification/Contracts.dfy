/** Contracts on one observed response. */
module Contracts {
  import opened MachineWords
  import opened Text
  import opened Faults

  datatype ContractSpec =
    | ValidJson(severity: Option<real>)
    | MaxLatency(maxMs: u64, severity: Option<real>)
    | RetryBudget(maxRetries: u32, severity: Option<real>)
    | MaxToolCalls(maxCalls: u32, severity: Option<real>)
    | MaxTokenUsage(maxTokens: u32, severity: Option<real>)
    | FallbackUsed(severity: Option<real>)
    | GracefulError(severity: Option<real>)
    | RequiredCitation(severity: Option<real>)
    | NoPii(severity: Option<real>)
    | NoSecretLeakage(severity: Option<real>)
  {
    function ContractType(): string {
      match this
      case ValidJson(_) => "valid_json"
      case MaxLatency(_, _) => "max_latency"
      case RetryBudget(_, _) => "retry_budget"
      case MaxToolCalls(_, _) => "max_tool_calls"
      case MaxTokenUsage(_, _) => "max_token_usage"
      case FallbackUsed(_) => "fallback_used"
      case GracefulError(_) => "graceful_error"
      case RequiredCitation(_) => "required_citation"
      case NoPii(_) => "no_pii"
      case NoSecretLeakage(_) => "no_secret_leakage"
    }
  }

  datatype AgentResponse = AgentResponse(
    body: string,
    latencyMs: u64,
    toolCalls: u32,
    retryCount: u32,
    inputTokens: u32,
    outputTokens: u32,
    fallbackUsed: bool)

  datatype ContractOutcome = ContractOutcome(
    contractType: string,
    scenario: string,
    passed: bool,
    reason: Option<string>,
    severity: real)

  function ToAgentResponse(r: Response): AgentResponse {
    AgentResponse(r.body, r.latencyMs, r.toolCalls, r.retryCount, r.inputTokens, r.outputTokens, r.fallbackUsed)
  }

  predicate Contains(s: string, part: string) {
    part <= s || (s != "" && Contains(s[1..], part))
  }

  predicate HasCitation(body: string) {
    Contains(body, "http") || Contains(body, "[")
  }

  /** Whether a contract passes; whether a body parses as JSON is the caller's predicate. */
  predicate Passes(c: ContractSpec, r: AgentResponse, isJson: string -> bool) {
    match c
    case ValidJson(_) => isJson(r.body)
    case MaxLatency(max, _) => r.latencyMs <= max
    case RetryBudget(max, _) => r.retryCount <= max
    case MaxToolCalls(max, _) => r.toolCalls <= max
    case MaxTokenUsage(max, _) => SaturatingAdd(r.inputTokens, r.outputTokens, U32_MAX) <= max
    case FallbackUsed(_) => r.fallbackUsed
    case GracefulError(_) => !Contains(Lower(r.body), "panic")
    case RequiredCitation(_) => HasCitation(r.body)
    case NoPii(_) => !Contains(r.body, "@")
    case NoSecretLeakage(_) => !Contains(r.body, "sk-") && !Contains(r.body, "SECRET")
  }

  function FailureReason(c: ContractSpec): string {
    match c
    case ValidJson(_) => "invalid_json"
    case MaxLatency(_, _) => "latency_exceeded"
    case RetryBudget(_, _) => "retry_budget_exceeded"
    case MaxToolCalls(_, _) => "tool_call_budget_exceeded"
    case MaxTokenUsage(_, _) => "token_budget_exceeded"
    case FallbackUsed(_) => "fallback_not_used"
    case GracefulError(_) => "ungraceful_error"
    case RequiredCitation(_) => "citation_missing"
    case NoPii(_) => "pii_detected:email"
    case NoSecretLeakage(_) => "secret_detected:api_key"
  }

  function SeverityOr1(severity: Option<real>): real {
    if severity.None? then 1.0 else severity.value
  }

  function Evaluate(scenario: string, c: ContractSpec, r: AgentResponse, isJson: string -> bool): ContractOutcome {
    var passed := Passes(c, r, isJson);
    ContractOutcome(c.ContractType(), scenario, passed, if passed then None else Some(FailureReason(c)), SeverityOr1(c.severity))
  }

  function EvaluateAll(scenario: string, cs: seq<ContractSpec>, r: AgentResponse, isJson: string -> bool): seq<ContractOutcome> {
    seq(|cs|, i requires 0 <= i < |cs| => Evaluate(scenario, cs[i], r, isJson))
  }

  /** A token fault brings a response within its own limit exactly when the input alone fits it. */
  lemma TokenFaultMeetsItsLimit(r: Response, max: u32, p: real, severity: Option<real>, isJson: string -> bool)
    ensures Passes(MaxTokenUsage(max, severity), ToAgentResponse(ApplyFault(TokenBudgetExhaustion(max, p), r)), isJson) <==>
            r.inputTokens <= max
    ensures ApplyFault(ContextTruncation(max, p), r) == ApplyFault(TokenBudgetExhaustion(max, p), r)
  {
  }

  // ---------------------------------------------------------------------------------------------
  // Substrings

  lemma {:induction false} AbsentCharacter(s: string, part: string)
    requires part != "" && part[0] !in s
    ensures !Contains(s, part)
  {
    if s != "" { AbsentCharacter(s[1..], part); }
  }

  /** A part that avoids a separator lies wholly on one side of it. */
  lemma {:induction false} ContainsAcross(a: string, c: char, b: string, part: string)
    requires part != "" && c !in part
    ensures Contains(a + [c] + b, part) <==> Contains(a, part) || Contains(b, part)
  {
    var s := a + [c] + b;
    if a == "" {
      assert s == [c] + b && s[1..] == b;
      assert !(part <= s) by { assert s[0] == c; assert part[0] in part; }
    } else {
      assert s[1..] == a[1..] + [c] + b;
      ContainsAcross(a[1..], c, b, part);
      PrefixBefore(a, c, b, part);
    }
  }

  lemma PrefixBefore(a: string, c: char, b: string, part: string)
    requires part != "" && c !in part
    ensures part <= a + [c] + b <==> part <= a
  {
    var s := a + [c] + b;
    if part <= s {
      var m := if |part| > |a| then |a| else 0;
      assert part[m] in part && part[m] == s[m];
      assert s[..|part|] == a[..|part|];
    }
    if part <= a { assert s[..|part|] == a[..|part|]; }
  }

  lemma {:induction false} ContainsInJoin(docs: seq<string>, part: string)
    requires part != "" && ' ' !in part
    ensures Contains(Join(docs, " "), part) <==> exists d <- docs :: Contains(d, part)
  {
    if docs == [] {
      assert !Contains("", part);
    } else if |docs| == 1 {
      assert docs[0] in docs;
    } else {
      ContainsInJoin(docs[1..], part);
      ContainsAcross(docs[0], ' ', Join(docs[1..], " "), part);
      assert docs == [docs[0]] + docs[1..];
      assert forall d :: d in docs <==> d == docs[0] || d in docs[1..];
    }
  }

  /** part stands at place i of s. */
  predicate StandsAt(s: string, i: nat, part: string) {
    i <= |s| && part <= s[i..]
  }

  /** part stands at place i of s once capital letters are read as small ones. */
  predicate StandsInLowerAt(s: string, i: nat, part: string) {
    i + |part| <= |s| && forall k :: 0 <= k < |part| ==> LowerChar(s[i + k]) == part[k]
  }

  ghost predicate Occurs(s: string, part: string) {
    exists i: nat :: StandsAt(s, i, part)
  }

  ghost predicate OccursInLower(s: string, part: string) {
    exists i: nat :: StandsInLowerAt(s, i, part)
  }

  lemma {:induction false} ContainsIsOccurs(s: string, part: string)
    ensures Contains(s, part) <==> Occurs(s, part)
  {
    if part <= s {
      assert StandsAt(s, 0, part);
    } else if s == "" {
      forall i: nat ensures !StandsAt(s, i, part) {
      }
    } else {
      ContainsIsOccurs(s[1..], part);
      if Occurs(s[1..], part) {
        var i: nat :| StandsAt(s[1..], i, part);
        assert s[1..][i..] == s[i + 1..];
        assert StandsAt(s, i + 1, part);
      }
      if i: nat :| StandsAt(s, i, part) {
        assert i != 0 by { assert s[0..] == s; }
        assert s[1..][i - 1..] == s[i..];
        assert StandsAt(s[1..], i - 1, part);
      }
    }
  }

  lemma OneCharacterOccurs(s: string, c: char)
    ensures Occurs(s, [c]) <==> c in s
  {
    if i: nat :| StandsAt(s, i, [c]) { assert s[i..][0] == c; }
    if i :| 0 <= i < |s| && s[i] == c { assert StandsAt(s, i, [c]); }
  }

  lemma LowerOccurs(s: string, part: string)
    ensures Occurs(Lower(s), part) <==> OccursInLower(s, part)
  {
    if i: nat :| StandsAt(Lower(s), i, part) {
      forall k | 0 <= k < |part| ensures LowerChar(s[i + k]) == part[k] {
        assert part[k] == Lower(s)[i..][k];
      }
      assert StandsInLowerAt(s, i, part);
    }
    if i: nat :| StandsInLowerAt(s, i, part) { assert StandsAt(Lower(s), i, part); }
  }

  /** The contracts on the answer say what occurs in it, at some place, letter by letter. */
  lemma AnswerContracts(r: AgentResponse, severity: Option<real>, isJson: string -> bool)
    ensures Passes(ValidJson(severity), r, isJson) <==> isJson(r.body)
    ensures Passes(RequiredCitation(severity), r, isJson) <==> Occurs(r.body, "http") || '[' in r.body
    ensures Passes(NoPii(severity), r, isJson) <==> '@' !in r.body
    ensures Passes(NoSecretLeakage(severity), r, isJson) <==> !Occurs(r.body, "sk-") && !Occurs(r.body, "SECRET")
    ensures Passes(GracefulError(severity), r, isJson) <==> !OccursInLower(r.body, "panic")
  {
    hide Lower, Occurs, OccursInLower, Contains;
    ContainsIsOccurs(r.body, "http");
    ContainsIsOccurs(r.body, "[");
    ContainsIsOccurs(r.body, "@");
    ContainsIsOccurs(r.body, "sk-");
    ContainsIsOccurs(r.body, "SECRET");
    ContainsIsOccurs(Lower(r.body), "panic");
    OneCharacterOccurs(r.body, '[');
    OneCharacterOccurs(r.body, '@');
    LowerOccurs(r.body, "panic");
  }

  /** The contract types, as journals, gates and score dimensions name them. */
  lemma ReportedTypes(scenario: string, c: ContractSpec, r: AgentResponse, isJson: string -> bool)
    ensures var name := Evaluate(scenario, c, r, isJson).contractType;
            && (c.ValidJson? <==> name == "valid_json") && (c.MaxLatency? <==> name == "max_latency")
            && (c.RetryBudget? <==> name == "retry_budget") && (c.MaxToolCalls? <==> name == "max_tool_calls")
            && (c.MaxTokenUsage? <==> name == "max_token_usage") && (c.FallbackUsed? <==> name == "fallback_used")
            && (c.GracefulError? <==> name == "graceful_error") && (c.RequiredCitation? <==> name == "required_citation")
            && (c.NoPii? <==> name == "no_pii") && (c.NoSecretLeakage? <==> name == "no_secret_leakage")
  {
    hide Passes;
  }

  /** The reasons of failed contracts, as journals and gates report them. */
  lemma ReportedReasons(scenario: string, c: ContractSpec, r: AgentResponse, isJson: string -> bool)
    ensures var reason := Evaluate(scenario, c, r, isJson).reason;
            && (reason.None? <==> Passes(c, r, isJson))
            && (reason == Some("latency_exceeded") ==> c.MaxLatency?) && (reason == Some("invalid_json") ==> c.ValidJson?)
            && (reason == Some("retry_budget_exceeded") ==> c.RetryBudget?)
            && (reason == Some("tool_call_budget_exceeded") ==> c.MaxToolCalls?)
            && (reason == Some("token_budget_exceeded") ==> c.MaxTokenUsage?)
            && (reason == Some("fallback_not_used") ==> c.FallbackUsed?) && (reason == Some("ungraceful_error") ==> c.GracefulError?)
            && (reason == Some("citation_missing") ==> c.RequiredCitation?) && (reason == Some("pii_detected:email") ==> c.NoPii?)
            && (reason == Some("secret_detected:api_key") ==> c.NoSecretLeakage?)
  {
    hide Passes;
  }
}
