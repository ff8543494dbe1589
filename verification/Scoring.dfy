/** Severity-weighted scores over contract outcomes, and the gate that rejects a run by its score. */
module Scoring {
  import opened Sequences
  import opened Text
  import opened Contracts
  import opened RealFacts

  function Total(os: seq<ContractOutcome>): real {
    if os == [] then 0.0 else os[0].severity + Total(os[1..])
  }

  function PassedTotal(os: seq<ContractOutcome>): real {
    if os == [] then 0.0 else (if os[0].passed then os[0].severity else 0.0) + PassedTotal(os[1..])
  }

  function ResilienceScore(os: seq<ContractOutcome>): real {
    if Total(os) == 0.0 then 1.0 else PassedTotal(os) / Total(os)
  }

  predicate NonNegative(os: seq<ContractOutcome>) {
    forall i :: 0 <= i < |os| ==> os[i].severity >= 0.0
  }

  lemma {:induction false} PassedAtMostTotal(os: seq<ContractOutcome>)
    requires NonNegative(os)
    ensures 0.0 <= PassedTotal(os) <= Total(os)
  {
    if os != [] { PassedAtMostTotal(os[1..]); }
  }

  lemma {:induction false} AllPassedIsTotal(os: seq<ContractOutcome>)
    requires forall i :: 0 <= i < |os| ==> os[i].passed
    ensures PassedTotal(os) == Total(os)
  {
    if os != [] { AllPassedIsTotal(os[1..]); }
  }

  lemma {:induction false} TotalsConcat(a: seq<ContractOutcome>, b: seq<ContractOutcome>)
    ensures Total(a + b) == Total(a) + Total(b) && PassedTotal(a + b) == PassedTotal(a) + PassedTotal(b)
  {
    if a == [] {
      assert a + b == b;
    } else {
      assert (a + b)[1..] == a[1..] + b;
      TotalsConcat(a[1..], b);
    }
  }

  /** A score is a proportion. */
  lemma ScoreInUnit(os: seq<ContractOutcome>)
    requires NonNegative(os)
    ensures 0.0 <= ResilienceScore(os) <= 1.0
  {
    PassedAtMostTotal(os);
    if Total(os) != 0.0 { QuotientBounds(PassedTotal(os), Total(os), 0.0, 1.0); }
  }

  lemma TotalsAt(os: seq<ContractOutcome>, i: nat)
    requires i < |os|
    ensures var rest := os[..i] + os[i + 1..];
            Total(os) == Total(rest) + os[i].severity &&
            PassedTotal(os) == PassedTotal(rest) + if os[i].passed then os[i].severity else 0.0
  {
    var p, q := os[..i], os[i + 1..];
    assert os == p + ([os[i]] + q) && ([os[i]] + q)[1..] == q;
    TotalsConcat(p, q);
    TotalsConcat(p, [os[i]] + q);
  }

  /** Turning a failure into a pass never lowers the score. */
  lemma PassingMoreNeverHurts(os: seq<ContractOutcome>, i: nat)
    requires NonNegative(os) && i < |os| && !os[i].passed
    ensures ResilienceScore(os) <= ResilienceScore(os[i := os[i].(passed := true)])
  {
    var better := os[i := os[i].(passed := true)];
    TotalsAt(os, i);
    TotalsAt(better, i);
    assert better[..i] + better[i + 1..] == os[..i] + os[i + 1..];
    PassedAtMostTotal(os);
    if Total(os) != 0.0 {
      DividedByPositive(PassedTotal(os), PassedTotal(better), Total(os));
    }
  }

  lemma DividedByPositive(x: real, y: real, t: real)
    requires x <= y && t > 0.0
    ensures x / t <= y / t
  {
    var p, q := x / t, y / t;
    DivideThenMultiply(x, t);
    DivideThenMultiply(y, t);
    if p > q { MulStrict(q, p, t); }
  }

  /** The score of a collection of outcomes does not depend on their order. */
  lemma {:induction false} TotalsIgnoreOrder(a: seq<ContractOutcome>, b: seq<ContractOutcome>)
    requires multiset(a) == multiset(b)
    ensures Total(a) == Total(b) && PassedTotal(a) == PassedTotal(b)
  {
    hide Total, PassedTotal;
    if a == [] {
      NothingLeft(b);
    } else {
      var j := MatchFirst(a, b);
      assert a[..0] + a[1..] == a[1..];
      TotalsIgnoreOrder(a[1..], b[..j] + b[j + 1..]);
      TotalsAt(a, 0);
      TotalsAt(b, j);
    }
  }

  lemma ScoreIgnoresOrder(a: seq<ContractOutcome>, b: seq<ContractOutcome>)
    requires multiset(a) == multiset(b)
    ensures ResilienceScore(a) == ResilienceScore(b)
  {
    TotalsIgnoreOrder(a, b);
  }

  lemma ScoreTimesTotal(os: seq<ContractOutcome>)
    requires NonNegative(os)
    ensures ResilienceScore(os) * Total(os) == PassedTotal(os)
  {
    PassedAtMostTotal(os);
    if Total(os) != 0.0 { DivideThenMultiply(PassedTotal(os), Total(os)); }
  }

  /** A pooled score is the mean of its parts' scores, weighted by their severities. */
  lemma PooledScoreIsMean(a: seq<ContractOutcome>, b: seq<ContractOutcome>)
    requires NonNegative(a) && NonNegative(b)
    ensures ResilienceScore(a + b) * (Total(a) + Total(b)) == ResilienceScore(a) * Total(a) + ResilienceScore(b) * Total(b)
  {
    hide ResilienceScore, Total, PassedTotal;
    TotalsConcat(a, b);
    ScoreTimesTotal(a);
    ScoreTimesTotal(b);
    assert NonNegative(a + b);
    ScoreTimesTotal(a + b);
    SumOfShares(ResilienceScore(a + b), Total(a), Total(b), Total(a + b), PassedTotal(a + b),
                ResilienceScore(a), PassedTotal(a), ResilienceScore(b), PassedTotal(b));
  }

  lemma SumOfShares(r: real, s: real, t: real, u: real, p: real, x: real, y: real, v: real, w: real)
    requires u == s + t && r * u == p && x * s == y && v * t == w && p == y + w
    ensures r * (s + t) == x * s + v * t
  {
  }

  /** A single weighted outcome scores all or nothing. */
  lemma ScoreOfOne(o: ContractOutcome)
    requires o.severity > 0.0
    ensures ResilienceScore([o]) == if o.passed then 1.0 else 0.0
  {
    assert [o][1..] == [];
    assert Total([o]) == o.severity && PassedTotal([o]) == if o.passed then o.severity else 0.0;
    ShareOfItself(o.severity);
  }

  lemma {:induction false} NothingToWeigh(os: seq<ContractOutcome>)
    requires forall i :: 0 <= i < |os| ==> os[i].severity == 0.0
    ensures Total(os) == 0.0 && ResilienceScore(os) == 1.0
  {
    if os != [] { NothingToWeigh(os[1..]); }
  }

  function Min(x: real, y: real): real { if x < y then x else y }

  function Max(x: real, y: real): real { if x < y then y else x }

  /** A pooled score lies between the scores of its parts. */
  lemma PooledScoreBetween(a: seq<ContractOutcome>, b: seq<ContractOutcome>)
    requires NonNegative(a) && NonNegative(b)
    ensures Min(ResilienceScore(a), ResilienceScore(b)) <= ResilienceScore(a + b) <= Max(ResilienceScore(a), ResilienceScore(b))
  {
    TotalsConcat(a, b);
    PassedAtMostTotal(a);
    PassedAtMostTotal(b);
    if Total(a) > 0.0 && Total(b) > 0.0 {
      Mediant(PassedTotal(a), Total(a), PassedTotal(b), Total(b));
    }
  }

  lemma Mediant(x: real, s: real, y: real, t: real)
    requires s > 0.0 && t > 0.0
    ensures Min(x / s, y / t) <= (x + y) / (s + t) <= Max(x / s, y / t)
  {
    var p, q := x / s, y / t;
    DivideThenMultiply(x, s);
    DivideThenMultiply(y, t);
    WeightedBetween(Min(p, q), p, q, Max(p, q), s, t);
    assert x + y == p * s + q * t;
    QuotientBounds(x + y, s + t, Min(p, q), Max(p, q));
  }

  lemma WeightedBetween(lo: real, p: real, q: real, hi: real, s: real, t: real)
    requires lo <= p <= hi && lo <= q <= hi && s > 0.0 && t > 0.0
    ensures lo * (s + t) <= p * s + q * t <= hi * (s + t)
  {
    WeightedMonotone(lo, lo, p, q, s, t);
    WeightedMonotone(p, q, hi, hi, s, t);
    DistributeSum(lo, s, t);
    DistributeSum(hi, s, t);
  }

  lemma WeightedMonotone(a: real, b: real, c: real, d: real, s: real, t: real)
    requires a <= c && b <= d && s >= 0.0 && t >= 0.0
    ensures a * s + b * t <= c * s + d * t
  {
    MulMonotone(a, c, s);
    MulMonotone(b, d, t);
  }

  // ---------------------------------------------------------------------------------------------
  // Per-dimension scores

  datatype AgenticDimension = Recovery | CostControl | CorrectnessUnderFault | LoopAvoidance

  datatype AgenticScore = AgenticScore(overall: real, subscores: map<AgenticDimension, real>)

  function OfTypes(os: seq<ContractOutcome>, types: set<string>): seq<ContractOutcome> {
    if os == [] then [] else (if os[0].contractType in types then [os[0]] else []) + OfTypes(os[1..], types)
  }

  predicate SpeaksTo(o: ContractOutcome, types: set<string>) {
    o.contractType in types
  }

  /** Filtering keeps exactly the outcomes of the types, as often as they occur. */
  lemma {:induction false} OfTypesCounts(os: seq<ContractOutcome>, types: set<string>, o: ContractOutcome)
    ensures multiset(OfTypes(os, types))[o] == if SpeaksTo(o, types) then multiset(os)[o] else 0
  {
    if os != [] {
      OfTypesCounts(os[1..], types, o);
      var first, rest := if SpeaksTo(os[0], types) then [os[0]] else [], OfTypes(os[1..], types);
      assert multiset(first + rest)[o] == multiset(first)[o] + multiset(rest)[o];
      assert os == [os[0]] + os[1..];
      assert multiset(os)[o] == multiset{os[0]}[o] + multiset(os[1..])[o];
    }
  }

  lemma OfTypesKeeps(os: seq<ContractOutcome>, types: set<string>)
    ensures OfTypes(os, types) == [] <==> forall o <- os :: !SpeaksTo(o, types)
    ensures NonNegative(os) ==> NonNegative(OfTypes(os, types))
  {
    hide OfTypes, SpeaksTo;
    var kept := OfTypes(os, types);
    forall o ensures o in kept <==> o in os && SpeaksTo(o, types) {
      OfTypesCounts(os, types, o);
      assert o in kept <==> multiset(kept)[o] > 0;
      assert o in os <==> multiset(os)[o] > 0;
    }
    if kept != [] { assert kept[0] in kept; }
    forall i | 0 <= i < |kept| && NonNegative(os) ensures kept[i].severity >= 0.0 {
      assert kept[i] in kept;
    }
  }

  /** Two collections of outcomes that differ only in outcomes of other types, or in order. */
  ghost predicate SameFor(a: seq<ContractOutcome>, b: seq<ContractOutcome>, types: set<string>) {
    forall o :: SpeaksTo(o, types) ==> multiset(a)[o] == multiset(b)[o]
  }

  lemma DimensionIgnoresOthers(a: seq<ContractOutcome>, b: seq<ContractOutcome>, subscores: map<AgenticDimension, real>,
                               dimension: AgenticDimension, types: set<string>)
    requires SameFor(a, b, types)
    ensures WithDimension(a, subscores, dimension, types) == WithDimension(b, subscores, dimension, types)
  {
    hide ResilienceScore, OfTypes, SpeaksTo;
    var x, y := OfTypes(a, types), OfTypes(b, types);
    forall o ensures multiset(x)[o] == multiset(y)[o] {
      OfTypesCounts(a, types, o);
      OfTypesCounts(b, types, o);
    }
    assert multiset(x) == multiset(y);
    assert |x| == |multiset(x)| == |multiset(y)| == |y|;
    ScoreIgnoresOrder(x, y);
  }

  /** Sets one dimension from the outcomes that speak to it. It is present afterwards exactly when there are some or it
      was there before; its value lies between 0 and 1; outcomes of other types and the other dimensions do not matter. */
  method InsertAgenticDimension(os: seq<ContractOutcome>, subscores: map<AgenticDimension, real>,
                                dimension: AgenticDimension, types: set<string>)
    returns (r: map<AgenticDimension, real>)
    ensures r - {dimension} == subscores - {dimension}
    ensures dimension in r <==> dimension in subscores || exists o <- os :: SpeaksTo(o, types)
    ensures (exists o <- os :: SpeaksTo(o, types)) && NonNegative(os) ==> 0.0 <= r[dimension] <= 1.0
    ensures forall like :: SameFor(os, like, types) ==> r == WithDimension(like, subscores, dimension, types)
  {
    hide ResilienceScore, OfTypes;
    r := subscores;
    var matching := OfTypes(os, types);
    OfTypesKeeps(os, types);
    if |matching| != 0 {
      if NonNegative(os) { ScoreInUnit(matching); }
      r := r[dimension := ResilienceScore(matching)];
    }
    forall like | SameFor(os, like, types) ensures r == WithDimension(like, subscores, dimension, types) {
      DimensionIgnoresOthers(os, like, subscores, dimension, types);
    }
  }

  function WithDimension(os: seq<ContractOutcome>, subscores: map<AgenticDimension, real>,
                         dimension: AgenticDimension, types: set<string>): map<AgenticDimension, real> {
    if OfTypes(os, types) == [] then subscores else subscores[dimension := ResilienceScore(OfTypes(os, types))]
  }

  const RECOVERY_TYPES: set<string> := {"recovers_within", "terminates_healthy"}

  function ScoreOf(steps: seq<ContractOutcome>, trajectory: seq<ContractOutcome>): AgenticScore {
    var start: map<AgenticDimension, real> :=
      if steps == [] then map[] else map[CorrectnessUnderFault := ResilienceScore(steps)];
    var recovery := WithDimension(trajectory, start, Recovery, RECOVERY_TYPES);
    var cost := WithDimension(trajectory, recovery, CostControl, {"step_budget"});
    AgenticScore(ResilienceScore(steps + trajectory), WithDimension(trajectory, cost, LoopAvoidance, {"no_repeated_step"}))
  }

  lemma DimensionFacts(os: seq<ContractOutcome>, subscores: map<AgenticDimension, real>, d: AgenticDimension, types: set<string>)
    ensures var r := WithDimension(os, subscores, d, types);
            && r - {d} == subscores - {d}
            && (d in r <==> d in subscores || exists o <- os :: SpeaksTo(o, types))
            && (NonNegative(os) && (forall x <- subscores :: 0.0 <= subscores[x] <= 1.0) ==> forall x <- r :: 0.0 <= r[x] <= 1.0)
  {
    hide ResilienceScore, OfTypes;
    OfTypesKeeps(os, types);
    if NonNegative(os) { ScoreInUnit(OfTypes(os, types)); }
  }

  /** The severities of the outcomes of some types, in all and of those that passed. */
  function Weight(os: seq<ContractOutcome>, types: set<string>, passedOnly: bool): real {
    if os == [] then 0.0
    else
      (if os[0].contractType in types && (os[0].passed || !passedOnly) then os[0].severity else 0.0)
      + Weight(os[1..], types, passedOnly)
  }

  lemma {:induction false} WeightOfTypes(os: seq<ContractOutcome>, types: set<string>)
    ensures Total(OfTypes(os, types)) == Weight(os, types, false) && PassedTotal(OfTypes(os, types)) == Weight(os, types, true)
  {
    if os != [] {
      var first, rest := if os[0].contractType in types then [os[0]] else [], OfTypes(os[1..], types);
      WeightOfTypes(os[1..], types);
      TotalsConcat(first, rest);
      if first != [] { assert first[1..] == []; }
    }
  }

  /** d reports the severity-weighted share of the outcomes of these types that passed. */
  predicate Reports(subscores: map<AgenticDimension, real>, d: AgenticDimension, os: seq<ContractOutcome>, types: set<string>) {
    d in subscores ==> subscores[d] * Weight(os, types, false) == Weight(os, types, true)
  }

  /** Every reported dimension is the weighted share of its own outcomes, and the overall score that of all outcomes. */
  lemma ScoresAreShares(steps: seq<ContractOutcome>, trajectory: seq<ContractOutcome>)
    requires NonNegative(steps) && NonNegative(trajectory)
    ensures OverallShare(ScoreOf(steps, trajectory).overall, steps, trajectory)
    ensures steps != [] ==>
              && CorrectnessUnderFault in ScoreOf(steps, trajectory).subscores
              && ScoreOf(steps, trajectory).subscores[CorrectnessUnderFault] == ResilienceScore(steps)
    ensures Reports(ScoreOf(steps, trajectory).subscores, Recovery, trajectory, {"recovers_within", "terminates_healthy"})
    ensures Reports(ScoreOf(steps, trajectory).subscores, CostControl, trajectory, {"step_budget"})
    ensures Reports(ScoreOf(steps, trajectory).subscores, LoopAvoidance, trajectory, {"no_repeated_step"})
  {
    hide ResilienceScore, Weight, OfTypes, Total, PassedTotal, WithDimension;
    TotalsConcat(steps, trajectory);
    ScoreTimesTotal(steps + trajectory);
    SameProduct(ResilienceScore(steps + trajectory), Total(steps + trajectory), Total(steps) + Total(trajectory),
                PassedTotal(steps + trajectory));
    DimensionValues(steps, trajectory);
    TypedShare(trajectory, {"recovers_within", "terminates_healthy"});
    TypedShare(trajectory, {"step_budget"});
    TypedShare(trajectory, {"no_repeated_step"});
  }

  predicate OverallShare(overall: real, steps: seq<ContractOutcome>, trajectory: seq<ContractOutcome>) {
    overall * (Total(steps) + Total(trajectory)) == PassedTotal(steps) + PassedTotal(trajectory)
  }

  /** Where the dimensions of a score come from. */
  lemma DimensionValues(steps: seq<ContractOutcome>, trajectory: seq<ContractOutcome>)
    ensures var subscores := ScoreOf(steps, trajectory).subscores;
            && (steps != [] ==> CorrectnessUnderFault in subscores && subscores[CorrectnessUnderFault] == ResilienceScore(steps))
            && (Recovery in subscores ==>
                  subscores[Recovery] == ResilienceScore(OfTypes(trajectory, {"recovers_within", "terminates_healthy"})))
            && (CostControl in subscores ==> subscores[CostControl] == ResilienceScore(OfTypes(trajectory, {"step_budget"})))
            && (LoopAvoidance in subscores ==>
                  subscores[LoopAvoidance] == ResilienceScore(OfTypes(trajectory, {"no_repeated_step"})))
  {
    hide ResilienceScore, OfTypes;
  }

  lemma TypedShare(os: seq<ContractOutcome>, types: set<string>)
    requires NonNegative(os)
    ensures ResilienceScore(OfTypes(os, types)) * Weight(os, types, false) == Weight(os, types, true)
  {
    hide ResilienceScore, OfTypes, Weight, Total, PassedTotal;
    OfTypesKeeps(os, types);
    ScoreTimesTotal(OfTypes(os, types));
    WeightOfTypes(os, types);
  }

  /** A dimension is reported exactly when some outcome speaks to it, and every reported value lies between 0 and 1. */
  lemma DimensionsReported(steps: seq<ContractOutcome>, trajectory: seq<ContractOutcome>)
    ensures var subscores := ScoreOf(steps, trajectory).subscores;
            && (CorrectnessUnderFault in subscores <==> steps != [])
            && (Recovery in subscores <==> exists o <- trajectory :: SpeaksTo(o, {"recovers_within", "terminates_healthy"}))
            && (CostControl in subscores <==> exists o <- trajectory :: SpeaksTo(o, {"step_budget"}))
            && (LoopAvoidance in subscores <==> exists o <- trajectory :: SpeaksTo(o, {"no_repeated_step"}))
            && (NonNegative(steps) && NonNegative(trajectory) ==> forall d <- subscores :: 0.0 <= subscores[d] <= 1.0)
  {
    hide ResilienceScore, WithDimension;
    var start: map<AgenticDimension, real> :=
      if steps == [] then map[] else map[CorrectnessUnderFault := ResilienceScore(steps)];
    var recovery := WithDimension(trajectory, start, Recovery, RECOVERY_TYPES);
    var cost := WithDimension(trajectory, recovery, CostControl, {"step_budget"});
    if NonNegative(steps) { ScoreInUnit(steps); }
    DimensionFacts(trajectory, start, Recovery, RECOVERY_TYPES);
    DimensionFacts(trajectory, recovery, CostControl, {"step_budget"});
    DimensionFacts(trajectory, cost, LoopAvoidance, {"no_repeated_step"});
    SameElsewhere(start, recovery, Recovery);
    SameElsewhere(recovery, cost, CostControl);
    SameElsewhere(cost, WithDimension(trajectory, cost, LoopAvoidance, {"no_repeated_step"}), LoopAvoidance);
  }

  lemma SameElsewhere(a: map<AgenticDimension, real>, b: map<AgenticDimension, real>, d: AgenticDimension)
    requires b - {d} == a - {d}
    ensures forall x :: x != d ==> (x in a <==> x in b) && (x in a ==> a[x] == b[x])
  {
    forall x | x != d ensures (x in a <==> x in b) && (x in a ==> a[x] == b[x]) {
      assert x in a <==> x in a - {d};
      assert x in b <==> x in b - {d};
      assert x in a ==> a[x] == (a - {d})[x] == (b - {d})[x] == b[x];
    }
  }

  method ComputeAgenticScore(steps: seq<ContractOutcome>, trajectory: seq<ContractOutcome>) returns (score: AgenticScore)
    ensures score == ScoreOf(steps, trajectory)
    ensures NonNegative(steps) && NonNegative(trajectory) ==>
              Min(ResilienceScore(steps), ResilienceScore(trajectory)) <= score.overall
              <= Max(ResilienceScore(steps), ResilienceScore(trajectory))
    ensures NonNegative(steps) && NonNegative(trajectory) ==>
              && OverallShare(score.overall, steps, trajectory)
              && Reports(score.subscores, Recovery, trajectory, {"recovers_within", "terminates_healthy"})
              && Reports(score.subscores, CostControl, trajectory, {"step_budget"})
              && Reports(score.subscores, LoopAvoidance, trajectory, {"no_repeated_step"})
  {
    hide ResilienceScore, Reports, OverallShare;
    var subscores: map<AgenticDimension, real> := map[];
    if |steps| != 0 {
      subscores := subscores[CorrectnessUnderFault := ResilienceScore(steps)];
    }
    subscores := InsertAgenticDimension(trajectory, subscores, Recovery, RECOVERY_TYPES);
    subscores := InsertAgenticDimension(trajectory, subscores, CostControl, {"step_budget"});
    subscores := InsertAgenticDimension(trajectory, subscores, LoopAvoidance, {"no_repeated_step"});
    var combined := [];
    combined := combined + steps;
    combined := combined + trajectory;
    assert combined == steps + trajectory;
    score := AgenticScore(ResilienceScore(combined), subscores);
    if NonNegative(steps) && NonNegative(trajectory) {
      PooledScoreBetween(steps, trajectory);
      ScoresAreShares(steps, trajectory);
    }
  }

  // ---------------------------------------------------------------------------------------------
  // The score gate

  datatype GateError = BelowThreshold(score: real, threshold: real, delta: real, scenario: string, contract: string, reason: string)

  function FirstFailed(os: seq<ContractOutcome>): Option<ContractOutcome> {
    if os == [] then None else if !os[0].passed then Some(os[0]) else FirstFailed(os[1..])
  }

  /** None when the score reaches the threshold. */
  function EvaluateScoreGate(overall: real, os: seq<ContractOutcome>, threshold: real): Option<GateError> {
    if overall >= threshold then None
    else
      var failed := match FirstFailed(os)
                    case Some(o) => o
                    case None => ContractOutcome("unknown", "unknown", false, Some("score_below_threshold"), 1.0);
      var reason := if failed.reason.None? then "contract_failed" else failed.reason.value;
      Some(BelowThreshold(overall, threshold, threshold - overall, failed.scenario, failed.contractType, reason))
  }

  lemma {:induction false} FirstFailedIsFailed(os: seq<ContractOutcome>)
    ensures FirstFailed(os).Some? ==> FirstFailed(os).value in os && !FirstFailed(os).value.passed
    ensures FirstFailed(os).None? <==> forall i :: 0 <= i < |os| ==> os[i].passed
  {
    if os != [] && os[0].passed {
      FirstFailedIsFailed(os[1..]);
      assert forall i :: 0 < i < |os| ==> os[i] == os[1..][i - 1];
      assert forall i :: 0 <= i < |os[1..]| ==> os[1..][i] == os[i + 1];
    }
  }

  /** The gate rejects exactly the scores below the threshold, with how far below, and blames the first failure. */
  lemma GateExactlyWhen(overall: real, os: seq<ContractOutcome>, threshold: real)
    ensures var gate := EvaluateScoreGate(overall, os, threshold);
            && (gate.Some? <==> overall < threshold)
            && (gate.Some? ==> gate.value.score == overall && gate.value.threshold == threshold && overall + gate.value.delta == threshold)
            && (gate.Some? ==> forall i :: 0 <= i < |os| && !os[i].passed && (forall j :: 0 <= j < i ==> os[j].passed) ==>
                  && gate.value.contract == os[i].contractType && gate.value.scenario == os[i].scenario
                  && gate.value.reason == if os[i].reason.Some? then os[i].reason.value else "contract_failed")
            && (gate.Some? && (forall i :: 0 <= i < |os| ==> os[i].passed) ==>
                  && gate.value.contract == gate.value.scenario == "unknown" && gate.value.reason == "score_below_threshold")
  {
    hide FirstFailed;
    FirstFailedIsFailed(os);
    forall i | 0 <= i < |os| && !os[i].passed && (forall j :: 0 <= j < i ==> os[j].passed) ensures FirstFailed(os) == Some(os[i]) {
      FirstFailedIsFirst(os, i);
    }
  }

  lemma {:induction false} FirstFailedIsFirst(os: seq<ContractOutcome>, i: nat)
    requires i < |os| && !os[i].passed && forall j :: 0 <= j < i ==> os[j].passed
    ensures FirstFailed(os) == Some(os[i])
  {
    if i > 0 { FirstFailedIsFirst(os[1..], i - 1); }
  }

  lemma PerfectScore(os: seq<ContractOutcome>)
    requires FirstFailed(os).None?
    ensures ResilienceScore(os) == 1.0
  {
    FirstFailedIsFailed(os);
    AllPassedIsTotal(os);
  }

  /** A gate over the outcomes' own score falls back to the unknown contract exactly when the threshold exceeds 1
      and every outcome passed. */
  lemma FallbackNeedsThresholdAboveOne(os: seq<ContractOutcome>, threshold: real)
    ensures EvaluateScoreGate(ResilienceScore(os), os, threshold).Some? && FirstFailed(os).None? <==>
            (forall i :: 0 <= i < |os| ==> os[i].passed) && threshold > 1.0
  {
    hide ResilienceScore, FirstFailed;
    FirstFailedIsFailed(os);
    if FirstFailed(os).None? { PerfectScore(os); }
  }

  /** At any threshold up to 1 a rejection names a contract that failed, with its own reason. */
  lemma RejectionNamesFailedContract(os: seq<ContractOutcome>, threshold: real) returns (o: ContractOutcome)
    requires threshold <= 1.0 && EvaluateScoreGate(ResilienceScore(os), os, threshold).Some?
    ensures o in os && !o.passed
    ensures var e := EvaluateScoreGate(ResilienceScore(os), os, threshold).value;
            e.contract == o.contractType && e.scenario == o.scenario && (o.reason.Some? ==> e.reason == o.reason.value)
  {
    hide ResilienceScore, FirstFailed;
    FirstFailedIsFailed(os);
    if FirstFailed(os).None? { PerfectScore(os); }
    o := FirstFailed(os).value;
  }
}
