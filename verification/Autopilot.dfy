/** The autopilot's safety gate: policy, earned autonomy, anti-hollow validation, and the verdict over fourteen rules. */
module Autopilot {
  import opened MachineWords
  import opened RealFacts
  import opened Text

  // ---------------------------------------------------------------------------------------------
  // Inputs

  datatype PretrustEntry = PretrustEntry(plugin: string, action: string, tier: string)

  datatype PlaybookEntry = PlaybookEntry(plugin: string, action: string, service: Option<string>, experiment: string)

  datatype Policy = Policy(
    enabled: bool,
    maxRunsPerDay: u32,
    cooldownHours: u32,
    enactTiers: seq<string>,
    requireGuard: bool,
    businessHoursOnly: bool,
    requireEnrollment: bool,
    enrolledServices: seq<string>,
    autonomyThreshold: real,
    autonomyMinSamples: u32,
    pretrusted: seq<PretrustEntry>,
    playbook: seq<PlaybookEntry>)

  datatype Confidence = High | Directional

  datatype Candidate = Candidate(
    serviceId: string,
    tier: Option<string>,
    plugin: string,
    action: string,
    confidence: Confidence,
    playbookExperiment: Option<string>,
    hasGuard: bool,
    hasRollback: bool,
    hasSteadyState: bool,
    faultCount: nat)

  datatype Ambient = Ambient(
    openDeviation: bool,
    runsToday: u32,
    hoursSinceLastRun: Option<real>,
    withinBusinessHours: bool,
    concurrentExperiments: u32,
    guardTelemetryOk: Option<bool>)

  datatype Record = Record(total: u32, clean: u32)

  datatype Report = Report(hollow: seq<string>, blockers: seq<string>, enactable: bool)

  // ---------------------------------------------------------------------------------------------
  // Policy

  predicate IsPretrusted(p: Policy, plugin: string, action: string, tier: Option<string>) {
    tier.Some? && PretrustEntry(plugin, action, tier.value) in p.pretrusted
  }

  function StripSvc(service: string): string {
    if "svc:" <= service then service[4..] else service
  }

  predicate IsEnrolled(p: Policy, serviceId: string) {
    !p.requireEnrollment || exists entry <- p.enrolledServices :: StripSvc(entry) == StripSvc(serviceId)
  }

  predicate TierAllowsEnact(p: Policy, tier: Option<string>) {
    tier.Some? && tier.value in p.enactTiers
  }

  predicate Matches(e: PlaybookEntry, plugin: string, action: string) {
    e.plugin == plugin && e.action == action
  }

  predicate FirstWith(entries: seq<PlaybookEntry>, plugin: string, action: string, service: Option<string>, i: nat) {
    && i < |entries| && Matches(entries[i], plugin, action) && entries[i].service == service
    && forall j :: 0 <= j < i && Matches(entries[j], plugin, action) ==> entries[j].service != service
  }

  predicate NoneWith(entries: seq<PlaybookEntry>, plugin: string, action: string, service: Option<string>) {
    forall e <- entries :: Matches(e, plugin, action) ==> e.service != service
  }

  /** The first entry bound to the service wins; otherwise the first unbound one. */
  method PlaybookFor(p: Policy, plugin: string, action: string, service: Option<string>) returns (r: Option<PlaybookEntry>)
    ensures r.None? <==> NoneWith(p.playbook, plugin, action, None) && NoneWith(p.playbook, plugin, action, service)
    ensures r.Some? && !NoneWith(p.playbook, plugin, action, service) ==>
              exists i: nat :: FirstWith(p.playbook, plugin, action, service, i) && r.value == p.playbook[i]
    ensures r.Some? && NoneWith(p.playbook, plugin, action, service) ==>
              exists i: nat :: FirstWith(p.playbook, plugin, action, None, i) && r.value == p.playbook[i]
  {
    var generic: Option<PlaybookEntry> := None;
    ghost var at: nat := 0;
    for i := 0 to |p.playbook|
      invariant service.Some? ==> forall j :: 0 <= j < i && Matches(p.playbook[j], plugin, action) ==> p.playbook[j].service != service
      invariant generic.None? ==> forall j :: 0 <= j < i && Matches(p.playbook[j], plugin, action) ==> p.playbook[j].service != None
      invariant generic.Some? ==> FirstWith(p.playbook, plugin, action, None, at) && generic.value == p.playbook[at]
    {
      var entry := p.playbook[i];
      if Matches(entry, plugin, action) {
        if entry.service.Some? && service.Some? && entry.service.value == service.value {
          assert FirstWith(p.playbook, plugin, action, service, i);
          assert entry in p.playbook;
          return Some(entry);
        } else if entry.service.None? {
          if generic.None? {
            generic, at := Some(entry), i;
          }
        }
      }
    }
    assert generic.Some? ==> p.playbook[at] in p.playbook;
    return generic;
  }

  datatype PolicyCheck = ValidPolicy | ThresholdOutOfRange | ZeroMinSamples | IncompletePretrust(index: nat) | IncompletePlaybook(index: nat)

  predicate CompletePretrust(e: PretrustEntry) {
    e.plugin != "" && e.action != "" && e.tier != ""
  }

  predicate CompletePlaybook(e: PlaybookEntry) {
    e.plugin != "" && e.action != "" && e.experiment != ""
  }

  /** Range and shape checks, reporting the first entry at fault. */
  method ValidatePolicy(p: Policy) returns (r: PolicyCheck)
    ensures r.ValidPolicy? <==>
              && 0.0 <= p.autonomyThreshold <= 1.0 && p.autonomyMinSamples >= 1
              && (forall i :: 0 <= i < |p.pretrusted| ==> CompletePretrust(p.pretrusted[i]))
              && (forall i :: 0 <= i < |p.playbook| ==> CompletePlaybook(p.playbook[i]))
    ensures r.ThresholdOutOfRange? <==> !(0.0 <= p.autonomyThreshold <= 1.0)
    ensures r.ZeroMinSamples? <==> !r.ThresholdOutOfRange? && p.autonomyMinSamples == 0
    ensures r.IncompletePretrust? ==> r.index < |p.pretrusted| && !CompletePretrust(p.pretrusted[r.index])
                                      && forall i :: 0 <= i < r.index ==> CompletePretrust(p.pretrusted[i])
    ensures r.IncompletePlaybook? ==> r.index < |p.playbook| && !CompletePlaybook(p.playbook[r.index])
                                      && forall i :: 0 <= i < r.index ==> CompletePlaybook(p.playbook[i])
  {
    if !(0.0 <= p.autonomyThreshold <= 1.0) { return ThresholdOutOfRange; }
    if p.autonomyMinSamples == 0 { return ZeroMinSamples; }
    for i := 0 to |p.pretrusted|
      invariant forall j :: 0 <= j < i ==> CompletePretrust(p.pretrusted[j])
    {
      if !CompletePretrust(p.pretrusted[i]) { return IncompletePretrust(i); }
    }
    for i := 0 to |p.playbook|
      invariant forall j :: 0 <= j < i ==> CompletePlaybook(p.playbook[j])
    {
      if !CompletePlaybook(p.playbook[i]) { return IncompletePlaybook(i); }
    }
    return ValidPolicy;
  }

  // ---------------------------------------------------------------------------------------------
  // Validator

  function ReportOf(c: Candidate): Report {
    var hollow :=
      if c.playbookExperiment.None? then []
      else (if c.hasSteadyState then [] else ["no steady-state probe"]) + (if c.faultCount == 0 then ["no fault"] else []);
    var blockers :=
      if c.playbookExperiment.None? then ["no playbook"]
      else (if c.faultCount > 1 then ["too many faults"] else []) + (if c.hasRollback then [] else ["no rollback"]);
    Report(hollow, blockers, hollow == [] && blockers == [])
  }

  method Validate(c: Candidate) returns (r: Report)
    ensures r == ReportOf(c)
    ensures r.enactable <==> c.playbookExperiment.Some? && c.hasSteadyState && c.faultCount == 1 && c.hasRollback
    ensures r.hollow != [] <==> c.playbookExperiment.Some? && (!c.hasSteadyState || c.faultCount == 0)
    ensures r.blockers != [] <==> c.playbookExperiment.None? || c.faultCount > 1 || !c.hasRollback
    ensures "no steady-state probe" in r.hollow <==> c.playbookExperiment.Some? && !c.hasSteadyState
    ensures "no fault" in r.hollow <==> c.playbookExperiment.Some? && c.faultCount == 0
    ensures "no playbook" in r.blockers <==> c.playbookExperiment.None?
    ensures "too many faults" in r.blockers <==> c.playbookExperiment.Some? && c.faultCount > 1
    ensures "no rollback" in r.blockers <==> c.playbookExperiment.Some? && !c.hasRollback
    ensures |r.hollow| <= 2 && |r.blockers| <= 2
  {
    var hollow, blockers: seq<string> := [], [];
    if c.playbookExperiment.None? {
      blockers := blockers + ["no playbook"];
    } else {
      if !c.hasSteadyState {
        hollow := hollow + ["no steady-state probe"];
      }
      if c.faultCount == 0 {
        hollow := hollow + ["no fault"];
      }
      if c.faultCount > 1 {
        blockers := blockers + ["too many faults"];
      }
      if !c.hasRollback {
        blockers := blockers + ["no rollback"];
      }
    }
    r := Report(hollow, blockers, |hollow| == 0 && |blockers| == 0);
  }

  // ---------------------------------------------------------------------------------------------
  // Ladder

  function RecordOutcome(r: Record, clean: bool): Record {
    Record(SaturatingAdd(r.total, 1, U32_MAX), if clean then SaturatingAdd(r.clean, 1, U32_MAX) else r.clean)
  }

  function Reset(r: Record): Record {
    Record(0, 0)
  }

  function AutonomyEarned(p: Policy, record: Option<Record>, pretrusted: bool): bool {
    if pretrusted then true
    else if record.None? then false
    else
      var r := record.value;
      if r.total == 0 || r.total < p.autonomyMinSamples then false
      else
        var clean := if r.clean < r.total then r.clean else r.total;
        clean as real / r.total as real >= p.autonomyThreshold
  }

  // ---------------------------------------------------------------------------------------------
  // Gate

  datatype RuleId =
    | Enabled | Enrolled | NoOpenDeviation | NoConcurrent | DailyBudget | NotHollow
    | Enactable
    | Tier | GuardPresent | Telemetry | BusinessHours | Cooldown | HighConfidence | Autonomy

  const RULE_ORDER: seq<RuleId> :=
    [Enabled, Enrolled, NoOpenDeviation, NoConcurrent, DailyBudget, NotHollow, Enactable,
     Tier, GuardPresent, Telemetry, BusinessHours, Cooldown, HighConfidence, Autonomy]

  datatype Rule = Rule(id: RuleId, passed: bool, reason: Option<RuleId>)

  function Check(id: RuleId, passed: bool): Rule {
    Rule(id, passed, if passed then None else Some(id))
  }

  function VetoRules(p: Policy, c: Candidate, a: Ambient, v: Report): seq<Rule> {
    [Check(Enabled, p.enabled),
     Check(Enrolled, IsEnrolled(p, c.serviceId)),
     Check(NoOpenDeviation, !a.openDeviation),
     Check(NoConcurrent, a.concurrentExperiments == 0),
     Check(DailyBudget, a.runsToday < p.maxRunsPerDay),
     Check(NotHollow, v.hollow == [])]
  }

  function EnactabilityRule(v: Report): Rule {
    Check(Enactable, v.blockers == [])
  }

  predicate CooldownClear(p: Policy, a: Ambient) {
    a.hoursSinceLastRun.Some? ==> a.hoursSinceLastRun.value >= p.cooldownHours as real
  }

  function BoundedRules(p: Policy, c: Candidate, a: Ambient, record: Option<Record>): seq<Rule> {
    var earned := AutonomyEarned(p, record, IsPretrusted(p, c.plugin, c.action, c.tier));
    [Check(Tier, TierAllowsEnact(p, c.tier)),
     Check(GuardPresent, !p.requireGuard || c.hasGuard),
     Check(Telemetry, a.guardTelemetryOk == Some(true)),
     Check(BusinessHours, !p.businessHoursOnly || a.withinBusinessHours),
     Check(Cooldown, CooldownClear(p, a)),
     Check(HighConfidence, c.confidence == High),
     Check(Autonomy, earned)]
  }

  datatype Verdict = Veto(rule: RuleId) | Propose(reasons: seq<string>) | Downgrade(failures: seq<RuleId>) | Enact

  datatype Decision = Decision(verdict: Verdict, rules: seq<(RuleId, bool)>)

  function FirstFailing(rules: seq<Rule>): Option<RuleId> {
    if rules == [] then None else if !rules[0].passed then Some(rules[0].id) else FirstFailing(rules[1..])
  }

  function Reasons(rules: seq<Rule>): seq<RuleId> {
    if rules == [] then []
    else (if !rules[0].passed && rules[0].reason.Some? then [rules[0].reason.value] else []) + Reasons(rules[1..])
  }

  function Audit(rules: seq<Rule>): (r: seq<(RuleId, bool)>)
    ensures |r| == |rules| && forall i :: 0 <= i < |r| ==> r[i] == (rules[i].id, rules[i].passed)
  {
    seq(|rules|, i requires 0 <= i < |rules| => (rules[i].id, rules[i].passed))
  }

  function Evaluate(p: Policy, c: Candidate, a: Ambient, record: Option<Record>, v: Report): Decision {
    var veto := VetoRules(p, c, a, v);
    var enactability := EnactabilityRule(v);
    var bounded := BoundedRules(p, c, a, record);
    var verdict :=
      match FirstFailing(veto)
      case Some(id) => Veto(id)
      case None =>
        if enactability.passed then
          var reasons := Reasons(bounded);
          if reasons == [] then Enact else Downgrade(reasons)
        else Propose(v.blockers);
    Decision(verdict, Audit(veto + [enactability] + bounded))
  }

  predicate AllPass(rules: seq<Rule>) {
    forall i :: 0 <= i < |rules| ==> rules[i].passed
  }

  predicate Checked(rules: seq<Rule>) {
    forall i :: 0 <= i < |rules| ==> rules[i] == Check(rules[i].id, rules[i].passed)
  }

  /** The first rule that fails is named, and something is named exactly when something fails. */
  lemma {:induction false} FirstFailingIsFirst(rules: seq<Rule>)
    ensures FirstFailing(rules).None? <==> AllPass(rules)
    ensures FirstFailing(rules).Some? ==>
              exists i :: 0 <= i < |rules| && !rules[i].passed && rules[i].id == FirstFailing(rules).value && AllPass(rules[..i])
  {
    if rules != [] {
      FirstFailingIsFirst(rules[1..]);
      if rules[0].passed {
        assert forall i :: 0 <= i < |rules[1..]| ==> rules[1..][i] == rules[i + 1];
        assert AllPass(rules[1..]) ==> AllPass(rules) by {
          assert forall i :: 0 < i < |rules| ==> rules[i] == rules[1..][i - 1];
        }
        if FirstFailing(rules).Some? {
          var i :| 0 <= i < |rules[1..]| && !rules[1..][i].passed && rules[1..][i].id == FirstFailing(rules).value && AllPass(rules[1..][..i]);
          var front := rules[..i + 1];
          forall j | 0 <= j < |front| ensures front[j].passed {
            if j > 0 { assert front[j] == rules[1..][..i][j - 1]; }
          }
        }
      } else {
        assert AllPass(rules[..0]);
      }
    }
  }

  /** One reason for each failed bounded rule, in order. */
  lemma {:induction false} OneReasonPerFailure(rules: seq<Rule>)
    requires Checked(rules)
    ensures Reasons(rules) == [] <==> AllPass(rules)
    ensures forall id :: id in Reasons(rules) <==> exists i :: 0 <= i < |rules| && !rules[i].passed && rules[i].id == id
  {
    if rules != [] {
      var rest := rules[1..];
      assert forall i :: 0 <= i < |rest| ==> rest[i] == rules[i + 1];
      OneReasonPerFailure(rest);
      assert forall i :: 0 < i < |rules| ==> rules[i] == rest[i - 1];
      forall id ensures id in Reasons(rules) <==> exists i :: 0 <= i < |rules| && !rules[i].passed && rules[i].id == id {
        if i :| 0 <= i < |rest| && !rest[i].passed && rest[i].id == id { assert !rules[i + 1].passed && rules[i + 1].id == id; }
      }
    }
  }

  /** The audit trail always lists exactly the fourteen rules, in order. */
  lemma AuditIsComplete(p: Policy, c: Candidate, a: Ambient, record: Option<Record>, v: Report)
    ensures var rules := Evaluate(p, c, a, record, v).rules;
            |rules| == |RULE_ORDER| && forall i :: 0 <= i < |rules| ==> rules[i].0 == RULE_ORDER[i]
  {
    hide IsEnrolled, IsPretrusted, TierAllowsEnact, CooldownClear, AutonomyEarned, FirstFailing, Reasons;
    var veto, e, bounded := VetoRules(p, c, a, v), EnactabilityRule(v), BoundedRules(p, c, a, record);
    var all := veto + [e] + bounded;
    forall i | 0 <= i < 14 ensures all[i].id == RULE_ORDER[i] {
      if i < 6 {
        assert all[i] == veto[i];
      } else if i > 6 {
        assert all[i] == bounded[i - 7];
      }
    }
  }

  /** Enough of the outcomes on record were clean. */
  predicate Earned(p: Policy, record: Option<Record>) {
    && record.Some? && record.value.total >= 1 && record.value.total >= p.autonomyMinSamples
    && (if record.value.clean < record.value.total then record.value.clean else record.value.total) as real
       >= p.autonomyThreshold * record.value.total as real
  }

  lemma EarnedExactlyWhen(p: Policy, record: Option<Record>)
    ensures AutonomyEarned(p, record, false) <==> Earned(p, record)
  {
    if record.Some? && record.value.total >= 1 {
      var r := record.value;
      var clean := if r.clean < r.total then r.clean else r.total;
      PrecisionIsProportion(clean, r.total, p.autonomyThreshold);
    }
  }

  /** The six rules that veto, each with its own condition. */
  lemma VetoTrail(p: Policy, c: Candidate, a: Ambient, record: Option<Record>, v: Report)
    ensures var rules := Evaluate(p, c, a, record, v).rules;
            && |rules| == 14
            && rules[0] == (Enabled, p.enabled)
            && rules[1] == (Enrolled, !p.requireEnrollment || exists entry <- p.enrolledServices :: StripSvc(entry) == StripSvc(c.serviceId))
            && rules[2] == (NoOpenDeviation, !a.openDeviation)
            && rules[3] == (NoConcurrent, a.concurrentExperiments == 0)
            && rules[4] == (DailyBudget, a.runsToday < p.maxRunsPerDay)
            && rules[5] == (NotHollow, v.hollow == [])
            && rules[6] == (Enactable, v.blockers == [])
  {
    hide FirstFailing, Reasons, IsPretrusted, TierAllowsEnact, CooldownClear, AutonomyEarned;
  }

  /** The seven rules that bound autonomy, each with its own condition. */
  lemma BoundedTrail(p: Policy, c: Candidate, a: Ambient, record: Option<Record>, v: Report)
    ensures var rules := Evaluate(p, c, a, record, v).rules;
            && |rules| == 14
            && rules[7] == (Tier, c.tier.Some? && c.tier.value in p.enactTiers)
            && rules[8] == (GuardPresent, p.requireGuard ==> c.hasGuard)
            && rules[9] == (Telemetry, a.guardTelemetryOk == Some(true))
            && rules[10] == (BusinessHours, p.businessHoursOnly ==> a.withinBusinessHours)
            && rules[11] == (Cooldown, a.hoursSinceLastRun.Some? ==> p.cooldownHours as real <= a.hoursSinceLastRun.value)
            && rules[12] == (HighConfidence, c.confidence == High)
            && rules[13].0 == Autonomy
            && (rules[13].1 <==>
                  (c.tier.Some? && PretrustEntry(c.plugin, c.action, c.tier.value) in p.pretrusted) || Earned(p, record))
  {
    hide FirstFailing, Reasons, IsEnrolled, AutonomyEarned;
    AutonomyRuleIsLast(p, c, a, record, v);
    EarnedExactlyWhen(p, record);
    PretrustEarns(p, record);
  }

  lemma PretrustEarns(p: Policy, record: Option<Record>)
    ensures AutonomyEarned(p, record, true)
  {
  }

  /** Which rule a veto names: the first in this order whose condition fails. */
  lemma VetoNames(p: Policy, c: Candidate, a: Ambient, record: Option<Record>, v: Report)
    ensures var verdict := Evaluate(p, c, a, record, v).verdict;
            verdict.Veto? ==>
              match verdict.rule
              case Enabled => !p.enabled
              case Enrolled => p.enabled && !IsEnrolled(p, c.serviceId)
              case NoOpenDeviation => p.enabled && IsEnrolled(p, c.serviceId) && a.openDeviation
              case NoConcurrent => p.enabled && IsEnrolled(p, c.serviceId) && !a.openDeviation && a.concurrentExperiments > 0
              case DailyBudget =>
                && p.enabled && IsEnrolled(p, c.serviceId) && !a.openDeviation && a.concurrentExperiments == 0
                && a.runsToday >= p.maxRunsPerDay
              case NotHollow =>
                && p.enabled && IsEnrolled(p, c.serviceId) && !a.openDeviation && a.concurrentExperiments == 0
                && a.runsToday < p.maxRunsPerDay && v.hollow != []
              case _ => false
  {
    hide Evaluate;
    var d := Evaluate(p, c, a, record, v);
    VerdictFromAudit(p, c, a, record, v);
    VetoTrail(p, c, a, record, v);
    if d.verdict.Veto? {
      var i :| 0 <= i < 6 && !d.rules[i].1 && d.rules[i].0 == d.verdict.rule && Passed(d.rules, 0, i);
    }
  }

  /** The rules of a trail that failed, in order. */
  function FailedIds(rules: seq<(RuleId, bool)>): seq<RuleId> {
    if rules == [] then [] else (if rules[0].1 then [] else [rules[0].0]) + FailedIds(rules[1..])
  }

  /** A proposal passes on the validator's blockers; a downgrade lists the failed bounded rules of the trail in order, once
      each. */
  lemma ReasonsFromAudit(p: Policy, c: Candidate, a: Ambient, record: Option<Record>, v: Report)
    ensures var d := Evaluate(p, c, a, record, v);
            && |d.rules| == 14
            && (d.verdict.Propose? ==> d.verdict.reasons == v.blockers)
            && (d.verdict.Downgrade? ==> d.verdict.failures == FailedIds(d.rules[7..]))
  {
    hide FirstFailing, IsEnrolled, IsPretrusted, TierAllowsEnact, CooldownClear, AutonomyEarned;
    var veto, e, bounded := VetoRules(p, c, a, v), EnactabilityRule(v), BoundedRules(p, c, a, record);
    var rules := Evaluate(p, c, a, record, v).rules;
    assert forall i :: 0 <= i < 7 ==> rules[7..][i] == (bounded[i].id, bounded[i].passed);
    hide VetoRules, BoundedRules;
    ReasonsAreFailedIds(bounded, rules[7..]);
  }

  lemma {:induction false} ReasonsAreFailedIds(rules: seq<Rule>, trail: seq<(RuleId, bool)>)
    requires Checked(rules) && |trail| == |rules| && forall i :: 0 <= i < |rules| ==> trail[i] == (rules[i].id, rules[i].passed)
    ensures Reasons(rules) == FailedIds(trail)
  {
    if rules != [] {
      assert forall i :: 0 <= i < |rules[1..]| ==> rules[1..][i] == rules[i + 1] && trail[1..][i] == trail[i + 1];
      ReasonsAreFailedIds(rules[1..], trail[1..]);
    }
  }

  /** Which rules a downgrade lists: exactly those whose conditions fail. */
  lemma DowngradeLists(p: Policy, c: Candidate, a: Ambient, record: Option<Record>, v: Report)
    ensures var verdict := Evaluate(p, c, a, record, v).verdict;
            verdict.Downgrade? ==>
              && (Tier in verdict.failures <==> c.tier.None? || c.tier.value !in p.enactTiers)
              && (GuardPresent in verdict.failures <==> p.requireGuard && !c.hasGuard)
              && (Telemetry in verdict.failures <==> a.guardTelemetryOk != Some(true))
              && (BusinessHours in verdict.failures <==> p.businessHoursOnly && !a.withinBusinessHours)
              && (Cooldown in verdict.failures <==> a.hoursSinceLastRun.Some? && a.hoursSinceLastRun.value < p.cooldownHours as real)
              && (HighConfidence in verdict.failures <==> c.confidence != High)
              && (Autonomy in verdict.failures <==>
                    !(c.tier.Some? && PretrustEntry(c.plugin, c.action, c.tier.value) in p.pretrusted) && !Earned(p, record))
  {
    hide Evaluate, Earned;
    var d := Evaluate(p, c, a, record, v);
    VerdictFromAudit(p, c, a, record, v);
    AuditIsComplete(p, c, a, record, v);
    BoundedTrail(p, c, a, record, v);
    if d.verdict.Downgrade? {
      ListedExactly(d.rules, d.verdict.failures, 7);
      ListedExactly(d.rules, d.verdict.failures, 8);
      ListedExactly(d.rules, d.verdict.failures, 9);
      ListedExactly(d.rules, d.verdict.failures, 10);
      ListedExactly(d.rules, d.verdict.failures, 11);
      ListedExactly(d.rules, d.verdict.failures, 12);
      ListedExactly(d.rules, d.verdict.failures, 13);
    }
  }

  lemma ListedExactly(rules: seq<(RuleId, bool)>, failures: seq<RuleId>, k: nat)
    requires |rules| == 14 && 7 <= k < 14 && forall i :: 0 <= i < 14 ==> rules[i].0 == RULE_ORDER[i]
    requires forall id :: id in failures <==> exists i :: 7 <= i < 14 && rules[i] == (id, false)
    ensures RULE_ORDER[k] in failures <==> !rules[k].1
  {
    var id := RULE_ORDER[k];
    if id in failures {
      var i :| 7 <= i < 14 && rules[i] == (id, false);
      RulesDiffer(i, k);
    }
    assert rules[k].0 == id && rules[k] == (id, rules[k].1);
  }

  lemma RulesDiffer(i: nat, k: nat)
    requires i < 14 && k < 14 && RULE_ORDER[i] == RULE_ORDER[k]
    ensures i == k
  {
  }

  predicate Passed(rules: seq<(RuleId, bool)>, lo: nat, hi: nat)
    requires lo <= hi <= |rules|
  {
    forall i :: lo <= i < hi ==> rules[i].1
  }

  /** The verdict read off the audit trail: veto names the first failed veto rule, propose means a blocker, downgrade
      a failed bounded rule, and enact means that all fourteen rules passed. */
  lemma VerdictFromAudit(p: Policy, c: Candidate, a: Ambient, record: Option<Record>, v: Report)
    ensures var d := Evaluate(p, c, a, record, v);
            && |d.rules| == 14
            && (d.verdict.Veto? <==> !Passed(d.rules, 0, 6))
            && (d.verdict.Veto? ==> exists i :: 0 <= i < 6 && !d.rules[i].1 && d.rules[i].0 == d.verdict.rule && Passed(d.rules, 0, i))
            && (d.verdict.Propose? <==> Passed(d.rules, 0, 6) && !d.rules[6].1)
            && (d.verdict.Downgrade? <==> Passed(d.rules, 0, 7) && !Passed(d.rules, 7, 14))
            && (d.verdict.Downgrade? ==> forall id :: id in d.verdict.failures <==> exists i :: 7 <= i < 14 && d.rules[i] == (id, false))
            && (d.verdict.Enact? <==> Passed(d.rules, 0, 14))
  {
    var veto, bounded := VetoRules(p, c, a, v), BoundedRules(p, c, a, record);
    VerdictFromRules(veto, EnactabilityRule(v), bounded, v.blockers, Evaluate(p, c, a, record, v));
  }

  lemma VerdictFromRules(veto: seq<Rule>, enactability: Rule, bounded: seq<Rule>, blockers: seq<string>, d: Decision)
    requires |veto| == 6 && |bounded| == 7 && Checked(bounded)
    requires d.rules == Audit(veto + [enactability] + bounded)
    requires d.verdict == match FirstFailing(veto)
                          case Some(id) => Veto(id)
                          case None =>
                            if !enactability.passed then Propose(blockers)
                            else if Reasons(bounded) == [] then Enact
                            else Downgrade(Reasons(bounded))
    ensures |d.rules| == 14
    ensures d.verdict.Veto? <==> !Passed(d.rules, 0, 6)
    ensures d.verdict.Veto? ==> exists i :: 0 <= i < 6 && !d.rules[i].1 && d.rules[i].0 == d.verdict.rule && Passed(d.rules, 0, i)
    ensures d.verdict.Propose? <==> Passed(d.rules, 0, 6) && !d.rules[6].1
    ensures d.verdict.Downgrade? <==> Passed(d.rules, 0, 7) && !Passed(d.rules, 7, 14)
    ensures d.verdict.Downgrade? ==> forall id :: id in d.verdict.failures <==> exists i :: 7 <= i < 14 && d.rules[i] == (id, false)
    ensures d.verdict.Enact? <==> Passed(d.rules, 0, 14)
  {
    hide FirstFailing, Reasons;
    var rules := veto + [enactability] + bounded;
    assert forall i :: 0 <= i < 6 ==> d.rules[i] == (veto[i].id, veto[i].passed);
    assert d.rules[6] == (enactability.id, enactability.passed);
    assert forall i :: 0 <= i < 7 ==> d.rules[7 + i] == (bounded[i].id, bounded[i].passed);
    FirstFailingIsFirst(veto);
    OneReasonPerFailure(bounded);
    assert Passed(d.rules, 0, 6) <==> AllPass(veto);
    assert Passed(d.rules, 7, 14) <==> AllPass(bounded) by {
      assert forall i :: 7 <= i < 14 ==> d.rules[i] == (bounded[i - 7].id, bounded[i - 7].passed);
    }
    if d.verdict.Veto? {
      var i :| 0 <= i < |veto| && !veto[i].passed && veto[i].id == FirstFailing(veto).value && AllPass(veto[..i]);
      assert forall j :: 0 <= j < i ==> veto[..i][j] == veto[j];
      assert !d.rules[i].1 && d.rules[i].0 == d.verdict.rule && Passed(d.rules, 0, i);
    }
    if d.verdict.Downgrade? {
      forall id ensures id in d.verdict.failures <==> exists i :: 7 <= i < 14 && d.rules[i] == (id, false) {
        if i :| 7 <= i < 14 && d.rules[i] == (id, false) { assert !bounded[i - 7].passed && bounded[i - 7].id == id; }
        if i :| 0 <= i < 7 && !bounded[i].passed && bounded[i].id == id { assert d.rules[7 + i] == (id, false); }
      }
    }
  }

  // ---------------------------------------------------------------------------------------------
  // Narrowing a policy

  predicate Subset<T(==)>(a: seq<T>, b: seq<T>) {
    forall x <- a :: x in b
  }

  /** p allows no more than q in any of its terms. */
  predicate Narrower(p: Policy, q: Policy) {
    && (p.enabled ==> q.enabled)
    && p.maxRunsPerDay <= q.maxRunsPerDay
    && p.cooldownHours >= q.cooldownHours
    && Subset(p.enactTiers, q.enactTiers)
    && (q.requireGuard ==> p.requireGuard)
    && (q.businessHoursOnly ==> p.businessHoursOnly)
    && (q.requireEnrollment ==> p.requireEnrollment)
    && Subset(p.enrolledServices, q.enrolledServices)
    && p.autonomyThreshold >= q.autonomyThreshold
    && p.autonomyMinSamples >= q.autonomyMinSamples
    && Subset(p.pretrusted, q.pretrusted)
  }

  function Reach(v: Verdict): nat {
    match v
    case Veto(_) => 0
    case Propose(_) => 1
    case Downgrade(_) => 2
    case Enact => 3
  }

  lemma NarrowerConditions(p: Policy, q: Policy, c: Candidate, a: Ambient, record: Option<Record>)
    requires Narrower(p, q)
    ensures IsEnrolled(p, c.serviceId) ==> IsEnrolled(q, c.serviceId)
    ensures TierAllowsEnact(p, c.tier) ==> TierAllowsEnact(q, c.tier)
    ensures CooldownClear(p, a) ==> CooldownClear(q, a)
    ensures AutonomyEarned(p, record, IsPretrusted(p, c.plugin, c.action, c.tier)) ==>
              AutonomyEarned(q, record, IsPretrusted(q, c.plugin, c.action, c.tier))
  {
    assert IsPretrusted(p, c.plugin, c.action, c.tier) ==> IsPretrusted(q, c.plugin, c.action, c.tier);
  }

  lemma NarrowerRules(p: Policy, q: Policy, c: Candidate, a: Ambient, record: Option<Record>, v: Report, i: nat)
    requires Narrower(p, q) && i < 14
    ensures |Evaluate(p, c, a, record, v).rules| == |Evaluate(q, c, a, record, v).rules| == 14
    ensures Evaluate(p, c, a, record, v).rules[i].1 ==> Evaluate(q, c, a, record, v).rules[i].1
  {
    hide IsEnrolled, IsPretrusted, TierAllowsEnact, CooldownClear, AutonomyEarned, FirstFailing, Reasons, Subset;
    NarrowerConditions(p, q, c, a, record);
  }

  /** Narrowing a policy never moves the verdict towards enacting, and never turns a failed rule into a passed one. */
  lemma NarrowingNeverPermits(p: Policy, q: Policy, c: Candidate, a: Ambient, record: Option<Record>, v: Report)
    requires Narrower(p, q)
    ensures Reach(Evaluate(p, c, a, record, v).verdict) <= Reach(Evaluate(q, c, a, record, v).verdict)
    ensures |Evaluate(p, c, a, record, v).rules| == |Evaluate(q, c, a, record, v).rules| == 14
    ensures forall i :: 0 <= i < 14 && Evaluate(p, c, a, record, v).rules[i].1 ==> Evaluate(q, c, a, record, v).rules[i].1
  {
    hide Evaluate, Narrower;
    var x, y := Evaluate(p, c, a, record, v), Evaluate(q, c, a, record, v);
    VerdictFromAudit(p, c, a, record, v);
    VerdictFromAudit(q, c, a, record, v);
    forall i | 0 <= i < 14 ensures x.rules[i].1 ==> y.rules[i].1 {
      NarrowerRules(p, q, c, a, record, v, i);
    }
  }

  // ---------------------------------------------------------------------------------------------
  // What an enactment is owed to

  /** What has to be true of the candidate, apart from earned autonomy. */
  predicate SafeCandidate(p: Policy, c: Candidate) {
    && c.playbookExperiment.Some? && c.hasSteadyState && c.hasRollback && c.faultCount == 1
    && c.tier.Some? && c.tier.value in p.enactTiers
    && (p.requireGuard ==> c.hasGuard)
    && (p.requireEnrollment ==> exists entry <- p.enrolledServices :: StripSvc(entry) == StripSvc(c.serviceId))
    && c.confidence == High
  }

  /** What has to be true of the moment. */
  predicate ClearToRun(p: Policy, a: Ambient) {
    && p.enabled && a.runsToday < p.maxRunsPerDay
    && !a.openDeviation && a.concurrentExperiments == 0
    && a.guardTelemetryOk == Some(true)
    && (p.businessHoursOnly ==> a.withinBusinessHours)
    && (a.hoursSinceLastRun.Some? ==> p.cooldownHours as real <= a.hoursSinceLastRun.value)
  }

  /** With the validator's own report the gate enacts exactly when the moment is clear, the candidate is enactable, and
      its class is pretrusted or has earned its autonomy. */
  lemma EnactExactlyWhen(p: Policy, c: Candidate, a: Ambient, record: Option<Record>)
    ensures Evaluate(p, c, a, record, ReportOf(c)).verdict.Enact? <==>
            && ClearToRun(p, a) && SafeCandidate(p, c)
            && (PretrustEntry(c.plugin, c.action, c.tier.value) in p.pretrusted || AutonomyEarned(p, record, false))
  {
    hide FirstFailing, Reasons, VetoRules, BoundedRules, ClearToRun, SafeCandidate, AutonomyEarned, Audit;
    var v := ReportOf(c);
    var veto, bounded := VetoRules(p, c, a, v), BoundedRules(p, c, a, record);
    FirstFailingIsFirst(veto);
    RulesAreChecks(p, c, a, record, v);
    OneReasonPerFailure(bounded);
    RulesPassExactlyWhen(p, c, a, record);
  }

  lemma RulesAreChecks(p: Policy, c: Candidate, a: Ambient, record: Option<Record>, v: Report)
    ensures Checked(VetoRules(p, c, a, v)) && Checked(BoundedRules(p, c, a, record))
  {
  }

  lemma RulesPassExactlyWhen(p: Policy, c: Candidate, a: Ambient, record: Option<Record>)
    ensures AllPass(VetoRules(p, c, a, ReportOf(c))) && ReportOf(c).blockers == [] && AllPass(BoundedRules(p, c, a, record)) <==>
            && ClearToRun(p, a) && SafeCandidate(p, c)
            && (PretrustEntry(c.plugin, c.action, c.tier.value) in p.pretrusted || AutonomyEarned(p, record, false))
  {
    var veto, bounded := VetoRules(p, c, a, ReportOf(c)), BoundedRules(p, c, a, record);
    assert AllPass(veto) <==> veto[0].passed && veto[1].passed && veto[2].passed && veto[3].passed && veto[4].passed && veto[5].passed;
    assert AllPass(bounded) <==> bounded[0].passed && bounded[1].passed && bounded[2].passed && bounded[3].passed
                                 && bounded[4].passed && bounded[5].passed && bounded[6].passed;
  }

  datatype Event = Outcome(clean: bool) | HumanReset

  /** The stored record after a history, newest event last. */
  function RecordAfter(history: seq<Event>): Record {
    if history == [] then Record(0, 0)
    else
      var before := RecordAfter(history[..|history| - 1]);
      match history[|history| - 1]
      case Outcome(clean) => RecordOutcome(before, clean)
      case HumanReset => Reset(before)
  }

  /** The history since its last reset. */
  function SinceReset(history: seq<Event>): seq<Event> {
    if history == [] || history[|history| - 1].HumanReset? then []
    else SinceReset(history[..|history| - 1]) + [history[|history| - 1]]
  }

  function CountClean(history: seq<Event>): nat {
    if history == [] then 0
    else CountClean(history[..|history| - 1]) + if history[|history| - 1] == Outcome(true) then 1 else 0
  }

  function Saturated(n: nat): u32 {
    if n > U32_MAX then U32_MAX else n
  }

  /** The record counts exactly the outcomes and the clean outcomes since the last reset, saturating at 2^32 - 1. */
  lemma {:induction false} RecordCountsSinceReset(history: seq<Event>)
    ensures RecordAfter(history) == Record(Saturated(|SinceReset(history)|), Saturated(CountClean(SinceReset(history))))
    ensures CountClean(SinceReset(history)) <= |SinceReset(history)|
    ensures RecordAfter(history).clean <= RecordAfter(history).total
  {
    if history != [] {
      var n := |history| - 1;
      RecordCountsSinceReset(history[..n]);
      if history[n].Outcome? {
        var since := SinceReset(history);
        assert since[..|since| - 1] == SinceReset(history[..n]);
      }
    }
  }

  lemma AutonomyRuleIsLast(p: Policy, c: Candidate, a: Ambient, record: Option<Record>, v: Report)
    ensures var rules := Evaluate(p, c, a, record, v).rules;
            |rules| == 14 &&
            rules[13] == (Autonomy, AutonomyEarned(p, record, IsPretrusted(p, c.plugin, c.action, c.tier)))
  {
    hide IsEnrolled, IsPretrusted, TierAllowsEnact, CooldownClear, AutonomyEarned, FirstFailing, Reasons;
  }

  /** A class that is not pretrusted enacts only on the strength of its history since the last reset. */
  lemma EnactNeedsEvidence(p: Policy, c: Candidate, a: Ambient, v: Report, history: seq<Event>)
    requires Evaluate(p, c, a, Some(RecordAfter(history)), v).verdict.Enact?
    requires !IsPretrusted(p, c.plugin, c.action, c.tier)
    ensures |SinceReset(history)| >= 1 && |SinceReset(history)| >= p.autonomyMinSamples
    ensures |SinceReset(history)| <= U32_MAX ==>
              CountClean(SinceReset(history)) as real >= p.autonomyThreshold * |SinceReset(history)| as real
  {
    hide Evaluate, RecordAfter, SinceReset, CountClean;
    var r := RecordAfter(history);
    VerdictFromAudit(p, c, a, Some(r), v);
    AutonomyRuleIsLast(p, c, a, Some(r), v);
    RecordCountsSinceReset(history);
    var clean := if r.clean < r.total then r.clean else r.total;
    PrecisionIsProportion(clean, r.total, p.autonomyThreshold);
  }

  lemma PrecisionIsProportion(clean: nat, total: nat, threshold: real)
    requires total > 0
    ensures clean as real / total as real >= threshold <==> clean as real >= threshold * total as real
  {
    var t := total as real;
    var q := clean as real / t;
    DivideThenMultiply(clean as real, t);
    if q >= threshold {
      MulMonotone(threshold, q, t);
    } else {
      MulStrict(q, threshold, t);
    }
  }

  /** One service prefix is ignored, and only at the front. */
  lemma StripSvcExactly(service: string)
    ensures StripSvc("svc:" + service) == service
    ensures !("svc:" <= service) ==> StripSvc(service) == service
  {
    assert ("svc:" + service)[4..] == service;
  }

  /** A class without a record and without pretrust never enacts. */
  lemma NoRecordNoEnact(p: Policy, c: Candidate, a: Ambient, v: Report)
    requires !IsPretrusted(p, c.plugin, c.action, c.tier)
    ensures !Evaluate(p, c, a, None, v).verdict.Enact?
  {
    VerdictFromAudit(p, c, a, None, v);
    AutonomyRuleIsLast(p, c, a, None, v);
  }
}
