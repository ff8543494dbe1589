# Tumult: verified models of its deciding logic

Tumult is a chaos-engineering platform. This project models the parts of it that decide something, and proves what
each part is for:

| files | models |
|---|---|
| `Generator.dfy`, `PowersOfTwo.dfy` | the 64-bit generator behind the agentic fault gate |
| `Faults.dfy`, `FaultEffects.dfy`, `Contracts.dfy`, `Scoring.dfy`, `Trajectory.dfy` | agentic faults and what lists of them add up to, contracts, scores, and the single-call and multi-turn engines |
| `LabelHash.dfy` | the FNV-1a hash that stands in for labels in metadata-only journals |
| `Calendar.dfy` | report timestamps, against a plain Gregorian calendar |
| `SqlText.dfy`, `Shell.dfy`, `SigV4.dfy` | three printers, each against a reader written from the standard it prints for |
| `Baseline.dfy`, `RealFacts.dfy` | baseline percentiles, tolerance bounds and recovery |
| `Autopilot.dfy` | the autopilot's policy, validator, autonomy ladder and safety gate |
| `LabProtocol.dfy`, `LabEngine.dfy` | the chaos lab's run lifecycle, as a step machine and as the object that performs its steps |
| `Text.dfy`, `Sequences.dfy`, `MachineWords.dfy` | dictionary order, splitting and joining, replacing, fixed-width numbers; sequences as collections; the source's integer widths and saturation |

Pure code of the source is a function here; its loops are methods with invariants; its objects with mutable fields
(`FaultEngine`, `LabEngine`) are classes whose methods are proved against functions of the old state.

## What the proofs found

* **A finished lab run can become unfinished.** A read that meets a malformed measurement file marks the active run
  `failed`; its task, which knows nothing of this, later writes `finalizing` or `stopping` over it
  (`chaos-lab/agent/engine.py:288-295` against `459-460` and `473-474`). `FailedRunReopens` is such a run, and
  `TerminalReopensExactlyWhen` says from which states some continuation reopens a finished run: exactly those in which
  the run is still active and its task may yet report. A run that has left the active slot finished stays finished
  (`ReleasedStaysTerminal`).
* **A lab run can be left `running` with nothing running.** Errors escape `_refresh` (`chaos-lab/agent/engine.py:263-307`)
  in several ways: `math.isfinite` raises `OverflowError` for an integer too large for a float, a phase that is a list or
  an object cannot be looked up in a set (`TypeError`), a file nested too deeply raises `RecursionError`, and looking for
  a file can raise `OSError` outside the `try`. The final refresh then raises too and the slot is released under the old
  status. `ReleaseFollowsReset` says when, from the record and the evidence before the release; `RaisingEvidenceEnds`
  says how the run ends for every such evidence: still `running` if the error handler does not take the error
  (`OversizedNumberLeavesRunUnfinished`; `PhaseFileLeavesRunUnfinished`, even with perfect measurements), `finalizing` if
  it does and the error comes again (`NestedFileLeavesRunFinalizing`), `failed` otherwise. `UnfinishedIsActive` holds for
  every other record.
* **The active slot can be lost for good** (`SlotLostExactlyWhen`, `LostSlotIsHeldForever`): by an error in the cleanup
  that it does not catch, such as a target that answers with no HTTP at all (`http.client.HTTPException`) or with a JSON
  array where the sampler expects an object (`AttributeError`), even when everything can be saved
  (`UncaughtTargetErrorLosesSlot`); by a caught error that cannot be saved (`UnrecordedCleanupFailureLosesSlot`); by a
  learner's stop during a cleanup whose run is still called running (`StopDuringCleanupLosesSlot`); or by a cancellation
  before the task's first step (`EarlyStopLosesSlot`). The last cannot come from a learner, because `start` yields once
  at `chaos-lab/agent/engine.py:243` before it returns the run's id; only `close` (`524-526`), which reads the active
  run's id, can be that early.
* **Restarts keep verdicts honest.** Whatever versions of its records a process leaves on disk, they are sound when it
  started from sound ones (`RestartKeepsSound`); nothing else is assumed of what is loaded.
* **Signed header names may hold colons.** A colon in a name could move the end of the name within its line, but the
  signed-header list pins the names down, so equal canonical requests need only newline-free fields
  (`CanonicalRequestInjective`).
* **The interquartile fences keep more than half of their own data**, not merely half; and for every size 4m + 1 there are data of
  which they keep only one sample more than they drop (`IqrKeepsMajority`, `IqrMajorityIsTight`).
* **The score gate's "unknown" contract** can appear only for a threshold above 1 (`FallbackNeedsThresholdAboveOne`).

## Model

| member | source | states |
|---|---|---|
| Generator.FullPeriod | tumult-agentic/src/faults.rs:137-142 | for every multiplier that is 1 modulo 4, increment 1, every start and every k, two points of an orbit agree modulo 2^k exactly when their positions do |
| Generator.EnginePeriod | tumult-agentic/src/faults.rs:126-142 | the gate's state recurs after exactly 2^64 draws and never sooner, from any seed |
| Generator.KnownStates | tumult-agentic/src/faults.rs:137-142 | the first two states from the seed 0 |
| Generator.EveryStateIsVisited | tumult-agentic/src/faults.rs:137-142 | every 64-bit state occurs within one period of any seed |
| Generator.DrawsAreUnit | tumult-agentic/src/faults.rs:143-147 | a draw is at least 0 and below 1 |
| Generator.GateIsThreshold | tumult-agentic/src/faults.rs:133-148 | the comparison with a probability is a comparison of the state with 2^11 times the clamped ceiling of p times 2^53 |
| Generator.ExactFrequency | tumult-agentic/src/faults.rs:133-148 | over 2^64 consecutive draws a fault of probability p applies exactly ceil(p * 2^53) * 2^11 times, clamped to 0 and 2^64 |
| Faults.FaultEngine.constructor | tumult-agentic/src/faults.rs:128-130 | the engine starts at its seed |
| Faults.FaultEngine.ShouldApply | tumult-agentic/src/faults.rs:133-142 | one decision advances the generator once and opens the gate exactly below the probability |
| Faults.OneDrawPerFault | tumult-agentic/src/engine.rs:61-65 | a fault list consumes one draw per fault whether or not it applies |
| Faults.GateDecides | tumult-agentic/src/faults.rs:133-149 | fault number i of a list applies exactly when draw number i+1 from there opens its gate |
| Faults.TokenFaultExactly | tumult-agentic/src/faults.rs:204-210 | a token fault changes the output only, and cuts it exactly to what the limit leaves beside the input |
| Faults.WrittenBodies | tumult-agentic/src/faults.rs:166-203 | the answers of the body-writing faults, and that a truncation keeps the front of the answer |
| Faults.PoisonDocumentNames | tumult-agentic/src/faults.rs:189-192 | a poisoning adds one document for each number below its count, named by it |
| Faults.DecimalReadsBack | tumult-agentic/src/faults.rs:169-170 | a printed number reads back and has no leading zero |
| Faults.FaultTypeNames | tumult-agentic/src/faults.rs:63-79 | each kind of fault has its own name |
| Faults.CertainFaultsIgnoreState | tumult-agentic/src/faults.rs:133-135 | faults of probability 0 or 1 act the same from every generator state |
| Faults.DocumentsOnlyGrow | tumult-agentic/src/faults.rs:156-221 | no fault removes a retrieved document |
| Faults.PoisoningLeavesDocument | tumult-agentic/src/faults.rs:189-203 | an applied poisoning leaves its first document in the response whatever faults follow |
| FaultEffects.RunAppliesTheApplied | tumult-agentic/src/engine.rs:61-65 | a gated run changes the response by exactly the faults it reports as applied, in order |
| FaultEffects.ReportsLastApplied | tumult-agentic/src/trajectory.rs:166-172 | the injected fault reported is the last that the gate let through |
| FaultEffects.LatencyAddsUp | tumult-agentic/src/faults.rs:156-221 | latency is the baseline plus what all applied faults add, saturated once whatever the order |
| FaultEffects.LatencyContractSeesTheSum | tumult-agentic/src/contracts.rs:77-80 | after a run the latency contract passes exactly when baseline and applied delays together stay within it, or it is the largest limit there is |
| FaultEffects.ToolCallContractSeesTheCount | tumult-agentic/src/contracts.rs:88-94 | after a run the tool call contract counts the baseline's calls and the applied hallucinations |
| FaultEffects.RetryContractSeesTheCount | tumult-agentic/src/contracts.rs:81-87 | after a run the retry contract counts rate limits from the baseline or from the last retry pressure |
| FaultEffects.FallbackContractSeesTheBaseline | tumult-agentic/src/contracts.rs:102-105 | after a run the fallback contract says what the baseline said |
| FaultEffects.TokenContractSeesTheTotal | tumult-agentic/src/contracts.rs:95-101 | after a run the token contract weighs the baseline's input and the output that is left |
| FaultEffects.ToolCallsAddUp | tumult-agentic/src/faults.rs:156-221 | tool calls grow by one per applied hallucination and the last of them names the tool |
| FaultEffects.DocumentsAddUp | tumult-agentic/src/faults.rs:189-203 | the documents are the baseline's followed by those of each applied poisoning in order |
| FaultEffects.RetriesAddUp | tumult-agentic/src/faults.rs:156-221 | without retry pressure, retries grow by one per applied rate limit |
| FaultEffects.PressureSetsRetries | tumult-agentic/src/faults.rs:156-221 | the last retry pressure forgets the count before it and later rate limits add to its own |
| FaultEffects.BodyForgetsThePast | tumult-agentic/src/faults.rs:156-221 | what follows a body-writing fault does not depend on the body before it |
| FaultEffects.LastWriterDecidesBody | tumult-agentic/src/faults.rs:156-221 | the body after a fault list is what its last body-writing fault writes, cut to the least of the later truncations |
| FaultEffects.TokensOnlyShrink | tumult-agentic/src/faults.rs:204-210 | input tokens never change, output tokens never grow, and every applied limit that the input fits holds at the end wherever it stood in the list |
| Contracts.TokenFaultMeetsItsLimit | tumult-agentic/src/faults.rs:204-210 | after a token fault the token contract with the same limit passes exactly when the input alone fits it |
| Contracts.AnswerContracts | tumult-agentic/src/contracts.rs:70-131 | the contracts on the answer pass exactly by what stands in it at some place, letter by letter, or by whether it parses |
| Contracts.ReportedTypes | tumult-agentic/src/contracts.rs:47-60 | each kind of contract reports its own type |
| Contracts.ReportedReasons | tumult-agentic/src/contracts.rs:64-139 | an outcome has a reason exactly when it failed, and its own |
| Contracts.ContainsInJoin | tumult-agentic/src/contracts.rs:113-119 | a text without spaces occurs in space-joined documents exactly when it occurs in one of them |
| Scoring.ScoreInUnit | tumult-agentic/src/scoring.rs:6-19 | with nonnegative severities a score lies between 0 and 1 |
| Scoring.PassingMoreNeverHurts | tumult-agentic/src/scoring.rs:6-19 | turning one failed outcome into a pass never lowers the score |
| Scoring.ScoreIgnoresOrder | tumult-agentic/src/scoring.rs:6-19 | a score depends on its outcomes only as a multiset |
| Scoring.PooledScoreBetween | tumult-agentic/src/scoring.rs:237-242 | the pooled score lies between the scores of its two parts |
| Scoring.PooledScoreIsMean | tumult-agentic/src/scoring.rs:6-19 | a pooled score is the mean of its parts' scores weighted by their severities |
| Scoring.ScoreOfOne | tumult-agentic/src/scoring.rs:6-19 | a single weighted outcome scores 1 or 0 as it passed or failed |
| Scoring.NothingToWeigh | tumult-agentic/src/scoring.rs:6-19 | outcomes without severity, or none at all, score 1 |
| Scoring.InsertAgenticDimension | tumult-agentic/src/scoring.rs:247-261 | the other dimensions stay as they were; the dimension is present afterwards exactly when some outcome speaks to it or it was there; its value lies between 0 and 1 and does not depend on the order or on outcomes of other types |
| Scoring.DimensionsReported | tumult-agentic/src/scoring.rs:206-236 | each dimension of the score is reported exactly when some outcome speaks to it, with a value between 0 and 1 |
| Scoring.ScoresAreShares | tumult-agentic/src/scoring.rs:206-261 | the overall score is the weighted share of all outcomes that passed, and each dimension that of its own types |
| Scoring.ComputeAgenticScore | tumult-agentic/src/scoring.rs:206-245 | the overall score is the weighted share of everything that passed and lies between the step score and the trajectory score; each dimension is the weighted share of its own outcomes |
| Scoring.FallbackNeedsThresholdAboveOne | tumult-agentic/src/scoring.rs:95-114 | a rejection falls back to the unknown contract exactly when all outcomes passed and the threshold exceeds 1 |
| Scoring.GateExactlyWhen | tumult-agentic/src/scoring.rs:95-126 | the gate rejects exactly below the threshold, says by how much, and blames the first failed outcome with its reason |
| Scoring.RejectionNamesFailedContract | tumult-agentic/src/scoring.rs:95-126 | at thresholds up to 1 a rejection names an outcome that failed, with its reason |
| Trajectory.Execute | tumult-agentic/src/engine.rs:51-94 | the single-call loop computes the run of the fault list; application i is decided by draw i+1 alone, and each contract is judged on the final response with its type, severity and a reason exactly on failure |
| Trajectory.InjectStepFaults | tumult-agentic/src/trajectory.rs:165-172 | the inner loop is the single-call run of the faults attached to the step, from the engine's current state |
| Trajectory.ExecuteStep | tumult-agentic/src/trajectory.rs:164-216 | one turn of the outer loop is one step of the trajectory function |
| Trajectory.ExecuteSteps | tumult-agentic/src/trajectory.rs:159-216 | the outer loop produces the outcomes of the whole trajectory and collects their contracts in order |
| Trajectory.ExecuteTrajectory | tumult-agentic/src/trajectory.rs:152-231 | the engine returns those outcomes, each step's contracts judged on its own post-fault response with its answer, each trajectory contract's verdict on them, and the pooled score of both |
| Trajectory.DetectLoop | tumult-agentic/src/trajectory.rs:255-261 | the set-based detector fires exactly when two steps share a signature |
| Trajectory.FindHealthyAgain | tumult-agentic/src/trajectory.rs:247-252 | recovery is found exactly when a healthy step follows within the allowed number of turns |
| Trajectory.EvaluateTrajectoryContract | tumult-agentic/src/trajectory.rs:235-275 | each whole-trajectory contract passes exactly when its plain statement about the steps holds, and carries a reason exactly when it fails |
| Trajectory.TrajectoryReports | tumult-agentic/src/trajectory.rs:93-100 | each whole-trajectory contract reports its own type, reason and severity |
| Trajectory.CollectedInOrder | tumult-agentic/src/trajectory.rs:203 | the step contracts are collected step by step, in order |
| Trajectory.CursorPosition | tumult-agentic/src/trajectory.rs:164-177 | the generator's position before a step is the number of faults attached to earlier steps, and the carried context is the concatenation of each step's own documents, each once |
| Trajectory.OutcomePosition | tumult-agentic/src/trajectory.rs:164-216 | a step's outcome depends on the seed only through that position |
| Trajectory.StepReports | tumult-agentic/src/trajectory.rs:164-216 | a step is judged by its own post-fault response, whose body is replaced exactly when it consumes retrieval and some carried document is poisoned; its signature, counters, health and contracts follow from that |
| Trajectory.PrefixOfSteps | tumult-agentic/src/trajectory.rs:164-216 | running a prefix of the steps gives a prefix of the outcomes |
| Trajectory.EarlierStepsUnaffected | tumult-agentic/src/trajectory.rs:164-216 | fault lists that agree on the first k steps give the same first k outcomes |
| Trajectory.AddedFaultActsFromItsStep | tumult-agentic/src/trajectory.rs:167-172 | a fault inserted anywhere in the list leaves all outcomes before its step as they were, and changes nothing when its index is out of range |
| Trajectory.CertainRunsIgnoreSeed | tumult-agentic/src/trajectory.rs:152-216 | when every probability is 0 or 1 the run is the same for all seeds |
| Trajectory.PoisonCascade | tumult-agentic/src/trajectory.rs:174-196 | after a poisoning with documents applies, every retrieval-consuming step from there on ends with the ungrounded body, and its citation contracts pass exactly when a carried document cites |
| Trajectory.EnginesAgree | tumult-agentic/src/engine.rs:51-94 | a one-step trajectory without retrieval gives the single-call engine's outcomes and is healthy exactly when all of them pass |
| LabelHash.MetadataHash | tumult-agentic/src/journal.rs:280-287 | the loop computes the hash text of the label's bytes |
| LabelHash.KnownHashes | tumult-agentic/src/journal.rs:280-287 | the modelled hash agrees with the published 64-bit FNV-1a vectors for the empty text and for "a" |
| LabelHash.SuffixKeepsDifference | tumult-agentic/src/journal.rs:282-285 | running hashes that differ still differ after any common suffix |
| LabelHash.HashTextInjective | tumult-agentic/src/journal.rs:286 | printed hashes are equal exactly when the hashes are |
| LabelHash.HashTextReadsBack | tumult-agentic/src/journal.rs:286 | the printed hash is a fixed label and sixteen digits that read back as the hash |
| LabelHash.OneByteChangesHash | tumult-agentic/src/journal.rs:280-287 | labels of equal length that differ in exactly one byte have different hashes |
| Calendar.ConsecutiveDays | tumult-compliance/src/html.rs:18-31 | consecutive day counts give consecutive valid Gregorian dates, for all integers |
| Calendar.CivilIsCorrect | tumult-compliance/src/html.rs:18-31 | the date printed for a day count has that day count on the plain calendar |
| Calendar.CivilIsOnto | tumult-compliance/src/html.rs:18-31 | every valid date is printed for its own day count |
| Calendar.DayNumberOrder | tumult-compliance/src/html.rs:18-31 | the plain calendar's day count orders valid dates as year, month, day, and identifies them |
| Calendar.InstantsHaveFourDigitYears | tumult-compliance/src/html.rs:18-31 | every 64-bit nanosecond instant has a year from 1677 to 2262 |
| Calendar.FmtDateOrder | tumult-compliance/src/html.rs:18-31 | printed dates sort as text like their days and are equal only within a day |
| Calendar.FmtDateReadsBack | tumult-compliance/src/html.rs:18-31 | a strict reader reads exactly the printed text as the Gregorian date of the instant |
| Calendar.FmtDatetimeOrder | tumult-compliance/src/html.rs:33-43 | printed timestamps sort as text in time order and are equal exactly within one UTC minute |
| Calendar.FmtDatetimeReadsBack | tumult-compliance/src/html.rs:33-43 | a printed timestamp reads back as the UTC minute of its instant |
| SqlText.SqlStringReadsBack | tumult-api/src/sql_util.rs:55-57 | a quoted string lexes back to itself and its literal ends at the final quote |
| SqlText.ChainedEscapeIsOnePass | tumult-api/src/sql_util.rs:61-64 | the chained replacements escape each character exactly once |
| SqlText.SqlContainsMeansContains | tumult-api/src/sql_util.rs:60-67 | the contains pattern, lexed and matched with ESCAPE, matches exactly the texts that contain the string, up to any case fold |
| SqlText.SqlIeqMeansEqual | tumult-api/src/sql_util.rs:71-78 | the equality pattern matches exactly the string, up to the fold |
| SqlText.EnvScopeWhereListsScopes | tumult-api/src/sql_util.rs:89-99 | the scope predicate is absent exactly for no scopes, and otherwise its literals are exactly the scopes in a shape fixed by their number |
| SqlText.AttrKv | tumult-api/src/sql_util.rs:213-220 | a filter splits at its first '=' into a nonempty key and a value, and is refused exactly when it has none or starts with one |
| SqlText.AttrWheres | tumult-api/src/sql_util.rs:227-256 | which parameter is refused, with its text, and the predicates of those that are not |
| SqlText.FilterShapeIsFixed | tumult-api/src/sql_util.rs:238-253 | the text of each filter predicate around its literals, written out, is independent of the key and value, which are its only literals |
| Shell.QuotedValue | tumult-authoring/src/builder.rs:131-133 | a quoted value continues one shell word by exactly the value, unless it holds a NUL |
| Shell.DefaultProbeWords | tumult-authoring/src/builder.rs:69-74 | the default probe is the words echo, target, steady-state, ok, exactly when the target has no NUL, and expects the last two |
| Shell.HttpProbeWords | tumult-authoring/src/builder.rs:77-88 | the HTTP probe is the words curl, -fsS, url, exactly when the URL has no NUL, and an empty expectation accepts any response |
| SigV4.UriEncode | tumult-cloud/src/sigv4.rs:38-55 | the encoding loop's output percent-decodes to its input |
| SigV4.DecodeUndoesEncode | tumult-cloud/src/sigv4.rs:38-55 | percent-decoding undoes the encoding in both slash modes |
| SigV4.EncodedCharacters | tumult-cloud/src/sigv4.rs:41-52 | the output holds only unreserved characters, '%', and slashes where they pass through |
| SigV4.PassedThrough | tumult-cloud/src/sigv4.rs:41-52 | exactly the unreserved characters stand for themselves, and slashes where they pass; all else becomes three characters |
| SigV4.SlashesKeepSegments | tumult-cloud/src/sigv4.rs:45 | with slashes passed through, the output's segments are the input's segments, each fully encoded |
| SigV4.CanonicalRequest | tumult-cloud/src/sigv4.rs:98-133 | the loops build the signed-header list and the canonical request, whose lines are method, a path that decodes to the given one, query, headers, the list and the digest |
| SigV4.SortedByNameIsStableSort | tumult-cloud/src/sigv4.rs:113 | the headers are a permutation in name order that keeps the order of equal names |
| SigV4.SignedHeadersComplete | tumult-cloud/src/sigv4.rs:98-113 | exactly the host, the date, every extra in lower case and trimmed, and the token are signed |
| SigV4.TrimExactly | tumult-cloud/src/sigv4.rs:105 | trimming removes space at both ends and nothing else |
| SigV4.CanonicalLines | tumult-cloud/src/sigv4.rs:120-133 | the canonical text of one-line fields line by line |
| SigV4.SignedHeadersAlign | tumult-cloud/src/sigv4.rs:98-126 | the header lines are the sorted host, date, extras and token, and the signed-header list splits back into their names when none holds ';' |
| SigV4.CanonicalRequestInjective | tumult-cloud/src/sigv4.rs:128-133 | for newline-free fields, equal canonical requests have equal method, path, query, headers and payload digest, whatever other characters the header names hold |
| SigV4.NewlinesBreakInjectivity | tumult-cloud/src/sigv4.rs:130-133 | with a newline in a field two different requests have the same canonical text |
| Baseline.Chebyshev | tumult-baseline/src/stats.rs:118-130 | the number of samples outside mean plus or minus sigma deviations, times sigma squared, is at most n-1 |
| Baseline.ChebyshevCompliance | tumult-baseline/src/tolerance.rs:58-69 | the compliance ratio of the data with those bounds is at least 1 - (n-1)/(n sigma^2) |
| Baseline.SortedFacts | tumult-baseline/src/stats.rs:107-108 | sorting gives an ascending permutation |
| Baseline.PercentileIgnoresOrder | tumult-baseline/src/stats.rs:103-110 | percentiles do not depend on the order of the data |
| Baseline.PercentileMonotone | tumult-baseline/src/stats.rs:71-110 | a higher p never gives a lower percentile, within and across interpolation cells |
| Baseline.PercentilePointwise | tumult-baseline/src/stats.rs:71-110 | raising samples pointwise never lowers a percentile |
| Baseline.PercentileRange | tumult-baseline/src/stats.rs:71-110 | percentiles lie between the extreme samples and equal them at 0 and 100 |
| Baseline.IqrKeepsMajority | tumult-baseline/src/stats.rs:136-144 | more than half of any nonempty data lies inside its own interquartile fences |
| Baseline.IqrMajorityIsTight | tumult-baseline/src/stats.rs:136-144 | for every m there are 4m + 1 samples of which the fences keep exactly one more than they drop |
| Baseline.DerivedToleranceKeeps | tumult-baseline/src/tolerance.rs:31-69 | what every way of deriving a tolerance promises of its own samples: a ratio between 0 and 1, above one half for the fences, at least the Chebyshev share for mean and deviation, and more samples than the rank for a percentile with a multiplier of at least 1 |
| Baseline.RecoveryIndex | tumult-baseline/src/tolerance.rs:74-89 | the least index from which all samples comply, and none exactly when there is no last complying sample |
| Baseline.MeanIsLeastSquares | tumult-baseline/src/stats.rs:28-40 | every point's squared deviation is the mean's plus its squared distance from the mean for each sample |
| Baseline.VarianceIsPairDistance | tumult-baseline/src/stats.rs:50-60 | the squared distances between all pairs of samples add up to 2n(n-1) times the variance |
| Baseline.PercentileExactly | tumult-baseline/src/stats.rs:71-110 | a percentile is read off any ascending arrangement of the data at its interpolated place |
| Baseline.ShortPercentiles | tumult-baseline/src/stats.rs:71-77 | no data gives 0, one sample gives itself |
| Baseline.DerivedToleranceExactly | tumult-baseline/src/tolerance.rs:31-49 | exactly which values each derived tolerance admits, the deviation bounds without a square root |
| Baseline.WithinCounts | tumult-baseline/src/tolerance.rs:62 | complying samples are counted by place |
| Baseline.RatioExactly | tumult-baseline/src/tolerance.rs:58-69 | the ratio is the number of complying samples over all, and 0 for none |
| Autopilot.PlaybookFor | tumult-autopilot/src/policy.rs:190-209 | the first entry bound to the service, else the first unbound entry, else none |
| Autopilot.ValidatePolicy | tumult-autopilot/src/policy.rs:266-288 | accepts exactly the policies in range with complete entries, and names the first incomplete one |
| Autopilot.Validate | tumult-autopilot/src/validator.rs:39-73 | each finding is there exactly on its own condition; enactable exactly for a playbook with steady state, one fault and a rollback |
| Autopilot.AuditIsComplete | tumult-autopilot/src/gate.rs:75-90 | the audit trail is always the fourteen rules in order |
| Autopilot.VetoTrail | tumult-autopilot/src/gate.rs:211-268 | the first seven audit entries, each rule with its own condition |
| Autopilot.BoundedTrail | tumult-autopilot/src/gate.rs:271-343 | the last seven audit entries, each rule with its own condition |
| Autopilot.VerdictFromAudit | tumult-autopilot/src/gate.rs:164-207 | the verdict follows from the audit trail: veto names the first failed veto rule, downgrade all failed bounded rules, enact means all fourteen passed |
| Autopilot.VetoNames | tumult-autopilot/src/gate.rs:211-260 | which condition failed, and which held before it, for each rule a veto can name |
| Autopilot.DowngradeLists | tumult-autopilot/src/gate.rs:271-343 | a downgrade lists each bounded rule exactly when its condition fails |
| Autopilot.ReasonsFromAudit | tumult-autopilot/src/gate.rs:176-197 | a proposal carries the validator's blockers; a downgrade's reasons are the failed bounded rules in order, once each |
| Autopilot.NarrowingNeverPermits | tumult-autopilot/src/gate.rs:164-343 | narrowing a policy never moves the verdict towards enacting nor turns a failed rule into a passed one |
| Autopilot.EnactExactlyWhen | tumult-autopilot/src/gate.rs:164-343 | with the validator's own report the gate enacts exactly when the moment is clear, the candidate has a playbook, steady state, rollback, one fault, an allowed tier and high confidence, and its class is pretrusted or has earned autonomy |
| Autopilot.RecordCountsSinceReset | tumult-autopilot/src/ladder.rs:82-98 | after any history the record holds the outcomes and clean outcomes since the last reset, saturated at 2^32-1, clean at most total |
| Autopilot.EarnedExactlyWhen | tumult-autopilot/src/ladder.rs:35-75 | without pretrust autonomy is earned exactly with at least one and the minimum of outcomes, of which at least the threshold share is clean |
| Autopilot.StripSvcExactly | tumult-autopilot/src/policy.rs:223-225 | one service prefix is ignored, at the front only |
| Autopilot.EnactNeedsEvidence | tumult-autopilot/src/ladder.rs:35-75 | without pretrust, enacting needs at least one and at least the minimum of outcomes since the last reset, and below 2^32 of them the threshold share of clean ones |
| Autopilot.NoRecordNoEnact | tumult-autopilot/src/ladder.rs:43-48 | without a record and without pretrust nothing enacts |
| LabProtocol.InitializedInv | chaos-lab/agent/engine.py:152-166 | start-up marks exactly the unfinished records interrupted and inconclusive and establishes the invariant, whatever the records say |
| LabProtocol.NextKeepsInv | chaos-lab/agent/engine.py:204-526 | every event keeps the invariant on records, evidence, slot and task |
| LabProtocol.UnfinishedIsActive | chaos-lab/agent/engine.py:204-244 | in every interleaving a record is unfinished only as the single active run, unless an error escapes the refresh of that record over its evidence |
| LabProtocol.VerdictMatchesHealth | chaos-lab/agent/engine.py:437-453 | for every run started here, and every loaded one that was sound: held or deviated only on finalizing or completed runs with exactly that health, and completed runs always carry the verdict of their measurements |
| LabProtocol.RestartKeepsSound | chaos-lab/agent/engine.py:94-107 | from sound records, every version of a record that a process may leave on disk is sound in its folder as found later |
| LabProtocol.ReleasedStaysTerminal | chaos-lab/agent/engine.py:246-307 | a finished run outside the slot stays finished in every continuation |
| LabProtocol.TerminalReopensExactlyWhen | chaos-lab/agent/engine.py:288-295 | some continuation makes a finished status unfinished exactly when the run is active and its task may yet report |
| LabProtocol.FailedRunReopens | chaos-lab/agent/engine.py:470-478 | a run whose status goes from failed to finalizing |
| LabProtocol.ReleaseFollowsReset | chaos-lab/agent/engine.py:480-510 | the slot is released only after the cleanup attempted the target reset; the released run ends unfinished exactly when an error escapes the final refresh, nothing it reads before that is malformed, and the run was not failed already |
| LabProtocol.ReleasedStatusExactly | chaos-lab/agent/engine.py:480-510 | the status with which a run leaves the slot, from its status and evidence before; only a cancelled run is stopped |
| LabProtocol.RefreshFacts | chaos-lab/agent/engine.py:263-307 | an error escapes the refresh exactly for raising measurements, a raising phase of a run that is and stays running, or a raising journal; and exactly what it does to status and verdict |
| LabProtocol.RefreshReads | chaos-lab/agent/engine.py:263-307 | a refresh from which no error escapes takes each measurement from its own file and looks for the journal |
| LabProtocol.AcceptedExactlyWhen | chaos-lab/agent/engine.py:414-436 | a result is accepted exactly with three measurements, an available journal that says completed or deviated, exit code 0 or 1, and readable files |
| LabProtocol.CompletesExactlyWhen | chaos-lab/agent/engine.py:371-457 | a task sets out to complete its run exactly when its process has exited with 0 or 1, has left such evidence and nothing fails; the verdict is that of the files |
| LabProtocol.RaisingEvidenceEnds | chaos-lab/agent/engine.py:413-510 | for every evidence over which the refresh raises, a run that is released over it, and whether it ends failed, running or finalizing |
| LabProtocol.OversizedNumberLeavesRunUnfinished | chaos-lab/agent/engine.py:273-288 | a run that ends released and still running over an oversized number |
| LabProtocol.PhaseFileLeavesRunUnfinished | chaos-lab/agent/engine.py:299-306 | a run that ends released and still running although its measurements and journal are perfect |
| LabProtocol.NestedFileLeavesRunFinalizing | chaos-lab/agent/engine.py:470-478 | a run that ends released and finalizing |
| LabProtocol.SlotLostExactlyWhen | chaos-lab/agent/engine.py:480-510 | the task ends without releasing the slot exactly on a late or too early cancellation, an error that the cleanup does not catch, or one that it catches and cannot record |
| LabProtocol.LostSlotIsHeldForever | chaos-lab/agent/engine.py:210-212 | once lost, the slot stays taken and no run can start, in every continuation |
| LabProtocol.EarlyStopLosesSlot | chaos-lab/agent/engine.py:242-243 | a start and a cancellation before the first step after which the slot is lost |
| LabProtocol.UnrecordedCleanupFailureLosesSlot | chaos-lab/agent/engine.py:491-497 | a run whose failed cleanup cannot be saved and whose slot is lost |
| LabProtocol.UncaughtTargetErrorLosesSlot | chaos-lab/agent/engine.py:481-497 | a run whose target twice answers with an error outside the caught classes, and whose slot is lost although every save succeeds |
| LabProtocol.StopDuringCleanupLosesSlot | chaos-lab/agent/engine.py:512-519 | a run still called running in its cleanup, stopped there, whose slot is lost |
| LabEngine.LabEngine.constructor | chaos-lab/agent/engine.py:152-166 | loading and interrupting give the initial state of the protocol, whatever the records say |
| LabEngine.LabEngine.StartRun | chaos-lab/agent/engine.py:210-244 | the protocol's start event; claims the slot exactly when it is free and the history is not full |
| LabEngine.LabEngine.RefreshMeasurements | chaos-lab/agent/engine.py:265-298 | the three stages up to the first over which an error escapes |
| LabEngine.LabEngine.RefreshRecord | chaos-lab/agent/engine.py:263-307 | measurements, phase and journal in turn; whether an error escaped and of which kind; the status becomes failed exactly over a malformed measurement that was reached |
| LabEngine.LabEngine.GetRun | chaos-lab/agent/engine.py:246-251 | the protocol's get event; tells an unknown run, an error escaping the refresh and a record apart; changes no other record, and this one's status only to failed |
| LabEngine.LabEngine.StopRun | chaos-lab/agent/engine.py:512-520 | one cancellation of a running active run, for whose task the caller then waits; any other run is read at once |
| LabEngine.LabEngine.WriteVerdict | chaos-lab/agent/engine.py:414-453 | accepted exactly on three measurements, an available journal that says completed or deviated, exit code 0 or 1 and readable files; the verdict says exactly what was measured; a refused record keeps status and verdict, with the kind of error |
| LabEngine.LabEngine.DecideVerdict | chaos-lab/agent/engine.py:414-457 | the verdict of the refreshed record, or the error path; the run completes only with a completed or deviated journal, exit code 0 or 1 and a verdict that says what was measured; slot and other records stay |
| LabEngine.LabEngine.OnExit | chaos-lab/agent/engine.py:413-457 | reads the evidence after the process exited, then decides |
| LabEngine.LabEngine.OnError | chaos-lab/agent/engine.py:470-479 | the error handler: the slot and other records stay, and the record changes only to finalizing and inconclusive |
| LabEngine.LabEngine.OnFailure | chaos-lab/agent/engine.py:470-480 | an error of the caught classes goes to the handler, any other to the cleanup with the record untouched |
| LabEngine.LabEngine.OnCancel | chaos-lab/agent/engine.py:458-469 | the cancellation handler: the run is stopping and inconclusive, the slot and other records stay |
| LabEngine.LabEngine.OnCleanupFailure | chaos-lab/agent/engine.py:491-497 | a failed cleanup leaves an inconclusive run and keeps the slot exactly when that could not be saved |
| LabEngine.LabEngine.SettleStatus | chaos-lab/agent/engine.py:498-504 | unless the refresh raises, the status is failed or that of the outcome; other records stay |
| LabEngine.LabEngine.OnCleanupError | chaos-lab/agent/engine.py:480-497 | an error outside the caught classes ends the task with slot and record as they were; a caught one releases the slot exactly when it can be saved |
| LabEngine.LabEngine.Release | chaos-lab/agent/engine.py:498-510 | the last block settles the status and releases the slot |
| LabEngine.LabEngine.SurfaceCancel | chaos-lab/agent/engine.py:407-411 | where a pending cancellation surfaces: slot, files and other records stay, and the task ends exactly before its first step or in the cleanup |
| LabEngine.LabEngine.ContinueBody | chaos-lab/agent/engine.py:371-480 | a step before the cleanup, for every class of error; slot, files and other records stay |
| LabEngine.LabEngine.ContinueCleanup | chaos-lab/agent/engine.py:480-510 | a step of the cleanup releases the slot exactly when its operations succeed or a caught failure can be recorded |
| LabEngine.LabEngine.Continue | chaos-lab/agent/engine.py:371-510 | what the task does from one await to the next; only the cleanup releases the slot |
| LabEngine.LabEngine.ResumeTask | chaos-lab/agent/engine.py:371-510 | one resumption is the protocol's resume event and keeps the invariant and all other records; it releases the slot only from a cleanup that attempted the reset |

## Left out

- Floating point: probabilities, severities, samples and thresholds are reals; NaN, infinities and rounding are not modelled. The generator's own draw is exact in a double, so nothing is lost there.
- Square roots: the standard deviation is a nonnegative value whose square is the variance, given by the caller.
- Library sorting: `sort_by` is a function, the stable insertion sort, because its loop is not in the source.
- Errors of `apply_fault`: it returns a `Result` but no branch of it fails, so the model returns the response itself.
- JSON: whether a body parses is a predicate given by the caller.
- `OutputTruncation` on a multi-byte character: bodies are sequences of one-byte characters.
- Non-ASCII case and space: header names are lowercased and values trimmed over ASCII; percent-encoding works on bytes, the other texts on characters.
- Hashing and signing: the payload digest is a function given by the caller; the key derivation and the Authorization header are not part of this model.
- SQL case folding: `ILIKE` compares characters up to a given fold, applied to single characters.
- Shell.Words: declines every character with a meaning beyond quoting, so the proofs say nothing about expansions; the printed commands contain none outside quotes.
- Human-readable reasons: a gate rule carries its own id as the reason, the validator a short label; how many there are and when is as in the source.
- LabEngine: the phase label, event log, explanations and timestamps of a record; the lab's measurement process writes evidence only while it is launching or live and never removes a measurement; a time-out that races with a stop request; a log file that cannot be closed.
- An await that raises before it suspends: it is a suspension that raises when it is resumed.
- Reading a file of a run: it gives the same answer until the file is written again, so errors that come and go are not modelled; which errors a file raises, and whether the handlers of the executing task catch them, is part of the evidence.
- Starting up: loading and `initialize` are one step whose saves and reset do not fail with an error that stops it.
- LabEngine.LabEngine.StopRun: the wait for the task is the caller's; what happens during it are further events, and the record it then returns is GetRun's.
- Loaded records with a status outside the eight that the engine writes, or with measurements that are not objects: the engine keeps them as they are.
- A record saved in the middle of one step and not again at its end: restarts find versions that a record has had between two awaits.
- Evidence after the process has exited: apart from the lab's own recovery sample, a run's files are assumed not to change then.
- The bundled trajectory packs, the telemetry of both engines and the per-call score matrix: data and plumbing around the members above.
- `fmt_date` outside 64-bit nanoseconds: not representable in the source.
- `esc` and the HTML page: an escaper of the same kind as the SQL one, and templates.
- Policy TTLs, class keys and the policy hash: they do not enter the verdict.
- HTTP handlers, database access, cloud clients, Kubernetes, SSH and the web UI: input and output.
