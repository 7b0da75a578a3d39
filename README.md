# evaluation-calibration-core, modelled in Dafny

The evaluation core reads a trace of decision packets (`PacketV2`). Each packet records:

- the proposed decision (`mdm`);
- the final action, with its optional `allowed` flag;
- an optional guard mismatch, with deny `flags` and `reason_codes`;
- a latency and a schema version.

From the trace the core computes four metrics:

- the action distribution;
- the guard trigger rate per reason code;
- the safety invariant pass rate;
- nearest-rank latency percentiles p50, p95 and p99.

It also checks four batch invariants: `contract_closure`, `confidence_clamp`, `fail_closed` and `packet_version`.

It compares the installed decision-schema version against an expected minor range. It packages all of this into a `Report` whose dictionary form has a fixed key set. Three synthetic fixture suites (`smoke`, `determinism`, `guard_pressure`) generate traces to evaluate.

The project models each part in Dafny and proves what it computes.

- **Packets** (`packets.dfy`): the packet as a record. Each optional dictionary key is an `Option`. The defaults the evaluator applies (`allowed` true, missing `flags`/`reason_codes` empty) are written out once.
- **Metrics** (`metric_definitions.dfy`, `sorting.dfy`, `compute.dfy`):
  - `collections.Counter` is `Tally`.
  - The two counting loops of the source are methods with loop invariants, proved equal to the specification functions `GuardRates` and `SafetyRate`.
  - `sorted` is an insertion sort. `SortedUnique` shows that its two properties, sorted and a permutation, determine the result.
  - Percentiles use the nearest-rank index, clamped to the last position.
  - `compute_metrics` is a map whose key set is proved to be the five metric keys.
- **Invariants** (`invariants.dfy`): one early-exit batch check, `Check`, used for all four invariants. For each invariant, a lemma states its meaning over all packets.
- **Contracts** (`contracts.dfy`): the external schema package (its version string and its `is_compatible` predicate) is an input value.
- **Report** (`report_model.dfy`, `report_builder.dfy`): the `Report` record, its defaults, `to_dict`, and `build_report`.
- **Fixtures** (`fixtures.dfy`, `fixture_scenarios.dfy`): the three generators as loops. The scenario lemmas derive the metrics and verdicts for each generated trace.

Where the code and the repository's design description disagree, the model follows the code.

- A packet's action key is `"UNKNOWN"` only when the `action` key is missing.
- `fail_closed` is exactly "a non-empty flag list implies not allowed". It has no further rule about external deny markers.
- Guard trigger rates count every listed reason code, so one packet that lists a code twice counts it twice, and a rate can exceed 1 (`GuardRateCountsDuplicates`).
- `build_report` passes `contract_ok=` to the `Report` constructor, but `Report` declares no such field, so the call as written raises `TypeError` (see "## Findings"). The model returns the contract verdict beside the report instead (`ReportBuilder.BuildReport`).

## Model

| member | source | states |
|---|---|---|
| MetricDefinitions.TallyCounts | eval_calibration_core/metrics/definitions.py:36 | `Counter` has a key for exactly the strings present in the list; each key maps to its number of occurrences |
| MetricDefinitions.TallySnoc | eval_calibration_core/metrics/definitions.py:62-63 | counting one more string increments its count by one (missing key counts as 0) and leaves every other count unchanged |
| MetricDefinitions.TallySum | eval_calibration_core/metrics/definitions.py:36 | the counts over the distinct keys add up to the length of the counted list |
| MetricDefinitions.ActionKeys | eval_calibration_core/metrics/definitions.py:35 | one key per packet, in packet order: the final action's `action`, defaulting to "UNKNOWN" |
| MetricDefinitions.ActionDistribution | eval_calibration_core/metrics/definitions.py:19-36 | `action_distribution`. It has no contract of its own; `ActionDistributionCounts` and `ActionDistributionSum` give its meaning |
| MetricDefinitions.ActionDistributionCounts | eval_calibration_core/metrics/definitions.py:19-36 | an action is a key iff some packet has that final action key; its value is the number of such packets |
| MetricDefinitions.ActionDistributionSum | eval_calibration_core/metrics/definitions.py:19-36 | the distribution's counts, summed once per key (the key list has exactly the distribution's keys and no duplicates), add up to the number of packets |
| MetricDefinitions.MissingActionCountedAsUnknown | eval_calibration_core/metrics/definitions.py:35 | a packet without an `action` key is counted under "UNKNOWN" |
| MetricDefinitions.AllCodesMembers | eval_calibration_core/metrics/definitions.py:59-63 | a code is among the collected reason codes iff some packet's mismatch lists it |
| MetricDefinitions.CountReasonCodes | eval_calibration_core/metrics/definitions.py:62-63 | the inner loop turns a Counter of the codes seen so far into the Counter of those codes followed by this packet's codes |
| MetricDefinitions.GuardTriggerRate | eval_calibration_core/metrics/definitions.py:39-65 | the loop returns `GuardRates`: no rates for no packets; otherwise each collected code's count divided by the number of packets |
| MetricDefinitions.GuardRatesMeaning | eval_calibration_core/metrics/definitions.py:54-65 | on a non-empty trace, a code has a rate iff some packet lists it, and its rate is its number of listings over the number of packets |
| MetricDefinitions.GuardRatesBounded | eval_calibration_core/metrics/definitions.py:58-65 | when no packet lists a code twice, every guard rate lies in [0, 1] |
| MetricDefinitions.GuardRateCountsDuplicates | eval_calibration_core/metrics/definitions.py:60-65 | one packet listing code "x" twice gives rate 2.0 for "x": the rate is per listing, not per packet |
| MetricDefinitions.RatioBounded | eval_calibration_core/metrics/definitions.py:65 | a count k ≤ n over n > 0 lies in [0, 1], and equals 1 iff k = n |
| MetricDefinitions.SafetyInvariantPassRate | eval_calibration_core/metrics/definitions.py:68-103 | the loop returns `SafetyRate`: 1.0 for no packets, otherwise the passing packets over all packets. An allowed packet passes with no flags; a denied packet passes with a mismatch |
| MetricDefinitions.PassCountBound | eval_calibration_core/metrics/definitions.py:89-101 | at most every packet passes, and all pass iff each one does |
| MetricDefinitions.SafetyRateBounds | eval_calibration_core/metrics/definitions.py:83-103 | the pass rate lies in [0, 1] and is 1 iff every packet passes its check |
| MetricDefinitions.LatencyListMembers | eval_calibration_core/metrics/definitions.py:124 | a value is among the collected latencies iff some packet carries that latency |
| MetricDefinitions.LatencyListAppend | eval_calibration_core/metrics/definitions.py:124 | collecting latencies distributes over concatenation of traces |
| MetricDefinitions.LatencyListPermutation | eval_calibration_core/metrics/definitions.py:124 | reordering the packets only reorders the collected latencies (same multiset) |
| MetricDefinitions.RankIndex | eval_calibration_core/metrics/definitions.py:131-134 | the index is a valid position, never above floor(k·n/100), and equal to it whenever that is below n (the `min(idx, n - 1)` clamp) |
| MetricDefinitions.Percentile | eval_calibration_core/metrics/definitions.py:131-134 | the inner `percentile(k)` returns one of the sorted latencies. On sorted input, everything up to the rank index is at most the result and everything from it on is at least the result |
| MetricDefinitions.LatencyPercentiles | eval_calibration_core/metrics/definitions.py:105-140 | `latency_percentiles`. It has no contract of its own; `PercentilesOrdered`, `PercentilesAreLatencies`, `PercentilesSmallSample` and `LatencyPercentilesPermutation` give its meaning |
| MetricDefinitions.RankIndexMonotone | eval_calibration_core/metrics/definitions.py:131-134 | a higher rank never yields a lower index |
| MetricDefinitions.PercentileMonotone | eval_calibration_core/metrics/definitions.py:128-134 | on sorted latencies, a higher rank never yields a lower percentile |
| MetricDefinitions.PercentilesOrdered | eval_calibration_core/metrics/definitions.py:122-140 | p50 ≤ p95 ≤ p99 on every trace, including the all-zero result for no latencies |
| MetricDefinitions.PercentilesAreLatencies | eval_calibration_core/metrics/definitions.py:128-140 | when some latency exists, each percentile is one of the observed latencies |
| MetricDefinitions.SortedLastIsMaximum | eval_calibration_core/metrics/definitions.py:128 | the last element of the sorted latencies is their maximum |
| MetricDefinitions.RankTop | eval_calibration_core/metrics/definitions.py:116 | for rank k in 95..99 and (100 − k)·n ≤ 100, the index is the last position |
| MetricDefinitions.PercentilesSmallSample | eval_calibration_core/metrics/definitions.py:116 | with at most 20 latencies p95 is the maximum, and with at most 100 p99 is the maximum |
| MetricDefinitions.LatencyPercentilesPermutation | eval_calibration_core/metrics/definitions.py:122-140 | the percentiles depend only on the multiset of packets, not on their order |
| MetricDefinitions.RankIndexDocstringExample | eval_calibration_core/metrics/definitions.py:112 | for k = 95 and n = 100 the code's index is 95, while the docstring's 0-indexed answer, the textbook nearest rank, is 94 |
| MetricDefinitions.NearestRankIndex | eval_calibration_core/metrics/definitions.py:108-116 | the textbook nearest-rank index ceil(k·n/100) − 1 is a valid position |
| MetricDefinitions.NearestRankIndexMeaning | eval_calibration_core/metrics/definitions.py:108-116 | that index is the first position through which at least k percent of the values lie |
| Sorting.Sort | eval_calibration_core/metrics/definitions.py:128 | `sorted`: the result is sorted, a permutation of the input, and of equal length |
| Sorting.SortedUnique | eval_calibration_core/metrics/definitions.py:128 | two sorted sequences with the same elements are equal, so the sorted result is determined |
| Sorting.SortPermutation | eval_calibration_core/metrics/definitions.py:128 | inputs with the same elements sort to the same sequence |
| Compute.ComputeMetrics | eval_calibration_core/metrics/compute.py:10-35 | exactly the five metric keys; each holds its metric definition on the trace and the packet count. The empty-trace literals agree with the definitions |
| Compute.ComputeMetricsEmpty | eval_calibration_core/metrics/compute.py:20-27 | no packets: empty counts and rates, pass rate 1.0, zero percentiles, zero steps |
| Compute.ActionCountsSumToTotalSteps | eval_calibration_core/metrics/compute.py:29-35 | the action counts in the result, summed once per key, add up to its `total_steps` |
| Compute.MetricRatesBounded | eval_calibration_core/metrics/compute.py:29-35 | the reported pass rate lies in [0, 1], and so does every guard rate when no packet lists a code twice |
| Invariants.PacketSatisfies | eval_calibration_core/suites/invariants.py:25-66 | the per-packet test of each `_check_*` loop. It has no contract of its own; the four `*Meaning` lemmas spell it out |
| Invariants.Check | eval_calibration_core/suites/invariants.py:25-66 | the early-exit loop shared by the four `_check_*` functions returns True iff every packet passes the per-packet check |
| Invariants.CheckAll | eval_calibration_core/suites/invariants.py:28-33 | the early-exit loop returns True iff every packet passes the per-packet check |
| Invariants.CheckAppend | eval_calibration_core/suites/invariants.py:28-33 | the verdict on a concatenation is the conjunction of the verdicts on the parts |
| Invariants.CheckEmpty | eval_calibration_core/suites/invariants.py:28-33 | every verdict holds on an empty trace |
| Invariants.OneFailingPacketFailsBatch | eval_calibration_core/suites/invariants.py:28-33 | one failing packet anywhere fails the whole batch |
| Invariants.ContractClosureMeaning | eval_calibration_core/suites/invariants.py:25-33 | `contract_closure` holds iff every proposed and final action is present and a valid action |
| Invariants.ConfidenceClampMeaning | eval_calibration_core/suites/invariants.py:36-43 | `confidence_clamp` holds iff every confidence that is present lies in [0, 1] |
| Invariants.FailClosedMeaning | eval_calibration_core/suites/invariants.py:46-58 | `fail_closed` holds iff every packet whose mismatch has a non-empty flag list says `allowed` false |
| Invariants.PacketVersionMeaning | eval_calibration_core/suites/invariants.py:61-66 | `packet_version` holds iff every schema version is non-empty |
| Invariants.CheckInvariants | eval_calibration_core/suites/invariants.py:9-22 | exactly the four invariant names, each mapped to its batch verdict |
| Invariants.CheckSingle | eval_calibration_core/suites/invariants.py:28-33 | on one packet the verdict is that packet's check |
| Invariants.ContractClosureCases | tests/test_invariants.py:9-35 | HOLD everywhere passes `contract_closure`; INVALID_ACTION fails it |
| Invariants.ConfidenceClampCases | tests/test_invariants.py:38-64 | confidence 0.5 passes `confidence_clamp`; 1.5 fails it |
| Invariants.FailClosedCases | tests/test_invariants.py:67-109 | allowed without mismatch, and denied with flags, pass `fail_closed`; allowed with flags fails it |
| Contracts.GetSchemaVersion | eval_calibration_core/contracts.py:24-26 | `get_schema_version`. It has no contract of its own; `CheckExpectedMinorRange` and `BuildReport` state that the version they report is this one |
| Contracts.CheckExpectedMinorRange | eval_calibration_core/contracts.py:29-49 | the verdict is `is_compatible` on the installed version and range (defaults major 0, minors 1 to 1); the details echo the version, the range and that same verdict |
| Contracts.CheckSchemaCompatibility | eval_calibration_core/contracts.py:7-21 | returns normally iff the version is compatible with 0.expected_minor (default 1); otherwise it fails with the version and the expected minor |
| Contracts.DefaultRangeIsZeroOne | eval_calibration_core/contracts.py:7-49 | with no arguments, both checks compare against 0.1.x, and they agree on the verdict |
| ReportModel.DefaultReport | eval_calibration_core/report/model.py:7-20 | every field of `Report()` at its declared default |
| ReportModel.ToDict | eval_calibration_core/report/model.py:22-37 | the nine base keys, each holding its field, plus `contract_matrix_check` exactly when that field is set |
| ReportBuilder.BuildReport | eval_calibration_core/report/builder.py:14-44 | with defaults suite "default" and minor 2, the report is `Report()` with exactly the fields the call names replaced. Those are version "0.1.0", the installed schema version, the suite name, `total_packets`, `compute_metrics`, `check_invariants` and the range details for `0.<minor>` on the same packets. The contract verdict is returned beside the report |
| ReportBuilder.DefaultBuildReport | eval_calibration_core/report/builder.py:14-18 | `build_report(packets)` names the suite "default" and checks the range 0.2 to 0.2, returning that verdict |
| ReportBuilder.FirstUnknownKeyword | eval_calibration_core/report/model.py:7-20 | a keyword call to the dataclass finds no unknown keyword iff every keyword is a field; a keyword it reports is passed and is not a field |
| ReportBuilder.BuildReportAsWritten | eval_calibration_core/report/builder.py:35-44 | the constructor call fails iff one of its keywords is not a field of `Report`; otherwise its report is `BuildReport`'s |
| ReportBuilder.BuildReportAsWrittenRaises | eval_calibration_core/report/builder.py:43 | as written, every call fails with `TypeError` on the keyword `contract_ok` |
| ReportBuilder.BuildReportKeywordsAreFields | eval_calibration_core/report/builder.py:36-42 | without `contract_ok`, every keyword passed is a field of `Report` |
| ReportBuilder.ResultsIndependentOfContract | eval_calibration_core/report/builder.py:30-43 | the metrics and verdicts do not depend on the suite name, the expected minor or the schema package |
| ReportBuilder.FullSafetyRateImpliesFailClosed | eval_calibration_core/report/builder.py:30-31 | a safety pass rate of 1 implies the `fail_closed` verdict |
| ReportBuilder.DeniedWithoutMismatch | eval_calibration_core/report/builder.py:30-31 | the converse fails: a denied packet without a mismatch passes `fail_closed` but has safety rate 0 |
| Fixtures.SmokeSuite | eval_calibration_core/io/fixtures.py:31-47 | ten packets, steps 0..9, each HOLD with latency 2 and no mismatch |
| Fixtures.DeterminismSuite | eval_calibration_core/io/fixtures.py:50-67 | twenty packets; ACT exactly on the steps divisible by 3; latency 1 + step mod 5 |
| Fixtures.GuardPressureSuite | eval_calibration_core/io/fixtures.py:70-96 | twenty packets; exactly the steps divisible by 5 carry the exposure mismatch and are held; `allowed` never set |
| Fixtures.LoadFixtureSuite | eval_calibration_core/io/fixtures.py:8-28 | a known name yields its suite; an unknown name is rejected with the list of available names |
| FixtureScenarios.SmokeMetrics | tests/test_metrics_smoke.py:7-17 | smoke trace: {HOLD: 10}, no guard rates, pass rate 1.0, all percentiles 2, 10 steps |
| FixtureScenarios.SmokeInvariants | eval_calibration_core/io/fixtures.py:31-47 | all four invariants hold on the smoke trace, given that "HOLD" is a value of `Action` and the packet type's default schema version is non-empty |
| FixtureScenarios.SmokeReport | tests/test_report_builder_smoke.py:18-25 | on the smoke trace the report has exactly the five metric keys, a contract record whose verdict is `is_compatible` for 0.2.x, and all four verdicts true (under the same two premises) |
| FixtureScenarios.AllVerdictsTrue | eval_calibration_core/suites/invariants.py:9-22 | when every verdict holds, the verdict map is the four names mapped to true |
| FixtureScenarios.DeterminismDistribution | eval_calibration_core/io/fixtures.py:53-62 | determinism trace: 7 ACT and 13 HOLD |
| FixtureScenarios.DeterminismTopPercentiles | eval_calibration_core/io/fixtures.py:53-63 | determinism trace: p95 = p99 = 5, the maximum latency |
| FixtureScenarios.GuardPressureRates | tests/test_metrics_smoke.py:27-34 | guard-pressure trace: the only guard rate is max_exposure_exceeded, at 4/20 |
| FixtureScenarios.GuardPressureSafety | eval_calibration_core/io/fixtures.py:73-93 | guard-pressure trace: the four flagged steps are allowed by default and fail, so the pass rate is 16/20 |
| FixtureScenarios.GuardPressureMetrics | eval_calibration_core/io/fixtures.py:70-96 | guard-pressure metrics: rate 4/20 for max_exposure_exceeded, pass rate 16/20, 20 steps |
| FixtureScenarios.GuardPressureNotFailClosed | eval_calibration_core/io/fixtures.py:75-91 | `fail_closed` fails on the guard-pressure trace: step 0 is flagged but allowed by default |
| FixtureScenarios.UniformActionDistribution | eval_calibration_core/metrics/definitions.py:35-36 | when every packet has the same action key a, the distribution is {a: number of packets} |
| FixtureScenarios.ConstantLatency | eval_calibration_core/metrics/definitions.py:124-140 | when every packet has latency v, all three percentiles are v |

## Left out

- The report writer, the packet reader, the command-line entry point and the suite runner modules are not part of this model. That includes the writer reading `guard_trigger_rate` while the metrics use the key `guard_trigger_rates`; the model keeps the metrics key as `compute_metrics` writes it.
- `decision_schema.compat.is_compatible`, `decision_schema.__version__` and the values of the `Action` enum belong to the external schema package. They are inputs here (`SchemaPackage`, `validActions`); version-string parsing is not modelled.
- The text of the error messages is not modelled; the errors carry their data (the version and expected minor; the unknown name and available names).
- JSON, file I/O and the packets' `input`/`external` payloads are not modelled; no metric or invariant reads them.
- The fixtures set no schema version, so each packet gets the packet type's default. That default is a parameter (`schemaDefault`).
- Floating point: rates and confidences are exact reals, latencies are integer milliseconds, and NaN is not modelled. The percentiles are returned as the latency values themselves, without the `float` annotation.
- MetricDefinitions.RankIndex: uses the exact quotient floor(k·n/100), while the source computes `int((k / 100.0) * n)` in floating point. The rounding of that product is not modelled.
- `hasattr(p, "latency_ms")` is modelled as the packet's latency being present (`Option`). A present latency of `None` is not distinguished from a missing one.
- Packets.Packet: a dictionary key that is present with the value `None` is modelled as a missing key, while `.get(key, default)` returns `None` for it. So the model misses three cases:
  - `"allowed": None` counts as denied in the source but as allowed in the model;
  - `"action": None` is counted under the key `None` in the source, not "UNKNOWN";
  - `"reason_codes": None` makes the guard-rate loop raise `TypeError` in the source.
- `if packet.mismatch:` in the guard-rate loop tests truthiness. The model tests presence, which gives the same codes, because an empty mismatch lists no reason codes.
- MetricDefinitions.GuardRatesBounded: states the bound [0, 1] only when no packet lists a reason code twice. The code counts every listing, so without that precondition a rate can exceed 1 (`GuardRateCountsDuplicates`).
- ReportBuilder.BuildReport: returns the `contract_ok` verdict beside the report rather than inside it, because `Report` has no such field and the constructor call as written fails (see "## Findings").
- The determinism suite's p50 is not stated as a lemma, only p95 and p99.

## Findings

| source | as written | input that shows it | evidently intended | confidence | as-written member | corrected member |
|---|---|---|---|---|---|---|
| eval_calibration_core/report/builder.py:35-44 | `Report(..., contract_ok=contract_ok)`, but `Report` (report/model.py:7-20) declares no `contract_ok` field, so the dataclass constructor raises `TypeError` | any call, e.g. `build_report([])` | build the report and make the contract verdict available to the caller | high (not executed) | ReportBuilder.BuildReportAsWrittenRaises | ReportBuilder.BuildReport |
| eval_calibration_core/metrics/definitions.py:112 | the docstring's example says k = 95, n = 100 gives "index = 95 (0-indexed: 94)", while the code (line 133) indexes `sorted_latencies[95]`, the 96th value | k = 95 with 100 latencies | either the sentence's own formula floor(k·n/100), which is what the code does, or the 0-indexed nearest rank 94 its parenthesis gives. The intent is unclear, so the rest of the model keeps the code's index | low (not executed) | MetricDefinitions.RankIndexDocstringExample | MetricDefinitions.NearestRankIndexMeaning |
