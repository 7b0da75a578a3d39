/**
 * End-to-end consequences of the fixture suites: the metrics and verdicts
 * the evaluator produces on each generated trace.
 */
module FixtureScenarios {
  import opened Wrappers
  import opened Packets
  import opened MetricDefinitions
  import opened Compute
  import opened Invariants
  import opened Fixtures
  import opened Contracts
  import opened ReportModel
  import opened ReportBuilder

  // ---------------------------------------------------------------------------
  // General facts used by the scenarios
  // ---------------------------------------------------------------------------

  /** A list holding `c` everywhere counts `c` at every position. */
  lemma {:induction false} OccurrencesConstant(cs: seq<string>, c: string)
    requires forall i :: 0 <= i < |cs| ==> cs[i] == c
    ensures Occurrences(cs, c) == |cs|
  {
    if cs != [] {
      OccurrencesConstant(cs[..|cs| - 1], c);
    }
  }

  /** When every packet has the same action key, the distribution is that key with the packet count. */
  lemma {:induction false} UniformActionDistribution(ps: seq<Packet>, a: string)
    requires |ps| > 0
    requires forall i :: 0 <= i < |ps| ==> ActionKey(ps[i]) == a
    ensures ActionDistribution(ps) == map[a := |ps|]
  {
    ActionDistributionCounts(ps);
    OccurrencesConstant(ActionKeys(ps), a);
    assert ActionKey(ps[0]) == a;
    assert ActionDistribution(ps).Keys == {a};
  }

  /** When no packet lists a reason code there are no guard rates. */
  lemma {:induction false} NoGuardRates(ps: seq<Packet>)
    requires forall i :: 0 <= i < |ps| ==> CodesOf(ps[i]) == []
    ensures GuardRates(ps) == map[]
  {
    if |ps| > 0 {
      GuardRatesMeaning(ps);
      assert GuardRates(ps).Keys == {};
    }
  }

  /** When every packet carries latency `v`, all three percentiles are `v`. */
  lemma {:induction false} ConstantLatency(ps: seq<Packet>, v: int)
    requires |ps| > 0
    requires forall i :: 0 <= i < |ps| ==> ps[i].latencyMs == Some(v)
    ensures LatencyPercentiles(ps) == Percentiles(v, v, v)
  {
    LatencyListMembers(ps, v);
    assert v in LatencyList(ps);
    PercentilesAreLatencies(ps);
    var pct := LatencyPercentiles(ps);
    LatencyListMembers(ps, pct.p50);
    LatencyListMembers(ps, pct.p95);
    LatencyListMembers(ps, pct.p99);
  }

  // ---------------------------------------------------------------------------
  // Smoke suite
  // ---------------------------------------------------------------------------

  /** Smoke trace metrics: {HOLD: 10}, no guard rates, safety 1.0, every percentile 2, 10 steps. */
  lemma {:induction false} SmokeMetrics(schemaDefault: string)
    ensures var m := ComputeMetrics(SmokeTrace(schemaDefault));
      && m["action_distribution"] == Counts(map["HOLD" := 10])
      && m["guard_trigger_rates"] == Rates(map[])
      && m["safety_invariant_pass_rate"] == Ratio(1.0)
      && m["latency_percentiles"] == Latency(Percentiles(2, 2, 2))
      && m["total_steps"] == Steps(10)
  {
    var ps := SmokeTrace(schemaDefault);
    UniformActionDistribution(ps, "HOLD");
    NoGuardRates(ps);
    SafetyRateBounds(ps);
    ConstantLatency(ps, 2);
  }

  /** All four invariants hold on the smoke trace, given that HOLD is an action and the default version is non-empty. */
  lemma {:induction false} SmokeInvariants(schemaDefault: string, validActions: set<string>)
    requires "HOLD" in validActions && schemaDefault != ""
    ensures forall inv :: CheckInvariants(SmokeTrace(schemaDefault), validActions)[Name(inv)]
  {
    var ps := SmokeTrace(schemaDefault);
    forall inv ensures Check(inv, ps, validActions) {
      CheckAll(inv, ps, validActions);
    }
  }

  /** `build_report` on the smoke trace: the five metric keys, a contract record with a verdict, and all four verdicts true. */
  lemma {:induction false} SmokeReport(schemaDefault: string, validActions: set<string>, schema: SchemaPackage)
    requires "HOLD" in validActions && schemaDefault != ""
    ensures var report := BuildReport(SmokeTrace(schemaDefault), validActions, schema, "smoke").0;
      && report.metrics.Keys == MetricKeys
      && report.contractMatrixCheck.Some?
      && report.contractMatrixCheck.value.compatible == schema.isCompatible(schema.version, 0, 2, 2)
      && report.invariantResults
         == map["contract_closure" := true, "confidence_clamp" := true, "fail_closed" := true, "packet_version" := true]
  {
    SmokeInvariants(schemaDefault, validActions);
    AllVerdictsTrue(SmokeTrace(schemaDefault), validActions);
  }

  /** When every verdict holds, the verdict map is the four names mapped to true. */
  lemma {:induction false} AllVerdictsTrue(ps: seq<Packet>, validActions: set<string>)
    requires forall inv :: CheckInvariants(ps, validActions)[Name(inv)]
    ensures CheckInvariants(ps, validActions)
         == map["contract_closure" := true, "confidence_clamp" := true, "fail_closed" := true, "packet_version" := true]
  {
    assert CheckInvariants(ps, validActions)[Name(ContractClosure)] && CheckInvariants(ps, validActions)[Name(ConfidenceClamp)];
    assert CheckInvariants(ps, validActions)[Name(FailClosed)] && CheckInvariants(ps, validActions)[Name(PacketVersion)];
  }

  // ---------------------------------------------------------------------------
  // Determinism suite
  // ---------------------------------------------------------------------------

  /** The number of steps below `k` that are multiples of `m`. */
  function MultiplesBelow(m: nat, k: nat): nat
    requires m > 0
  {
    if k == 0 then 0 else MultiplesBelow(m, k - 1) + (if (k - 1) % m == 0 then 1 else 0)
  }

  /** ceil(k / 3) steps below `k` are multiples of 3. */
  lemma {:induction false} MultiplesOf3Below(k: nat)
    ensures MultiplesBelow(3, k) == (k + 2) / 3
  {
    if k > 0 {
      MultiplesOf3Below(k - 1);
    }
  }

  /** ceil(k / 5) steps below `k` are multiples of 5. */
  lemma {:induction false} MultiplesOf5Below(k: nat)
    ensures MultiplesBelow(5, k) == (k + 4) / 5
  {
    if k > 0 {
      MultiplesOf5Below(k - 1);
    }
  }

  /** In a list with ACT exactly at the positions divisible by 3 and HOLD elsewhere, the first `k` hold ceil(k / 3) ACT. */
  lemma {:induction false} ThirdsCounts(keys: seq<string>, k: nat)
    requires k <= |keys|
    requires forall i :: 0 <= i < |keys| ==> keys[i] == (if i % 3 == 0 then "ACT" else "HOLD")
    ensures Occurrences(keys[..k], "ACT") == MultiplesBelow(3, k)
    ensures Occurrences(keys[..k], "HOLD") == k - MultiplesBelow(3, k)
  {
    if k > 0 {
      ThirdsCounts(keys, k - 1);
      var prefix := keys[..k];
      var act := (k - 1) % 3 == 0;
      assert prefix[..k - 1] == keys[..k - 1];
      assert prefix[k - 1] == (if act then "ACT" else "HOLD");
      assert Occurrences(prefix, "ACT") == Occurrences(keys[..k - 1], "ACT") + (if act then 1 else 0);
      assert Occurrences(prefix, "HOLD") == Occurrences(keys[..k - 1], "HOLD") + (if act then 0 else 1);
    }
  }

  /** A list holding only `a` and `b`, `na > 0` and `nb > 0` times, is counted as {a: na, b: nb}. */
  lemma {:induction false} TwoKeyTally(cs: seq<string>, a: string, b: string, na: nat, nb: nat)
    requires a != b && na > 0 && nb > 0
    requires Occurrences(cs, a) == na && Occurrences(cs, b) == nb
    requires forall c :: c in cs ==> c == a || c == b
    ensures Tally(cs) == map[a := na, b := nb]
  {
    TallyCounts(cs);
    assert Tally(cs).Keys == {a, b};
  }

  /** Counting twenty keys in the ACT-every-third-step pattern gives seven ACT and thirteen HOLD. */
  lemma {:induction false} ThirdsTally(keys: seq<string>)
    requires |keys| == 20
    requires forall i :: 0 <= i < |keys| ==> keys[i] == (if i % 3 == 0 then "ACT" else "HOLD")
    ensures Tally(keys) == map["ACT" := 7, "HOLD" := 13]
  {
    var n := |keys|;
    ThirdsCounts(keys, n);
    MultiplesOf3Below(n);
    assert keys[..n] == keys;
    assert forall c :: c in keys ==> c == "ACT" || c == "HOLD";
    TwoKeyTally(keys, "ACT", "HOLD", 7, 13);
  }

  /** Determinism trace: seven ACT and thirteen HOLD. */
  lemma {:induction false} DeterminismDistribution(schemaDefault: string)
    ensures ActionDistribution(DeterminismTrace(schemaDefault)) == map["ACT" := 7, "HOLD" := 13]
  {
    var ps := DeterminismTrace(schemaDefault);
    ThirdsTally(ActionKeys(ps));
  }

  /** Determinism trace: with twenty latencies between 1 and 5, p95 and p99 are the maximum, 5. */
  lemma {:induction false} DeterminismTopPercentiles(schemaDefault: string)
    ensures LatencyPercentiles(DeterminismTrace(schemaDefault)).p95 == 5
    ensures LatencyPercentiles(DeterminismTrace(schemaDefault)).p99 == 5
  {
    var ps := DeterminismTrace(schemaDefault);
    var latencies := LatencyList(ps);
    assert ps[4].latencyMs == Some(5);
    LatencyListMembers(ps, 5);
    var j :| 0 <= j < |latencies| && latencies[j] == 5;
    assert |latencies| <= 20 by {
      LatencyListLength(ps);
    }
    PercentilesSmallSample(ps);
    PercentilesAreLatencies(ps);
    var pct := LatencyPercentiles(ps);
    LatencyListMembers(ps, pct.p95);
    LatencyListMembers(ps, pct.p99);
  }

  /** No more latencies are collected than there are packets. */
  lemma {:induction false} LatencyListLength(ps: seq<Packet>)
    ensures |LatencyList(ps)| <= |ps|
  {
    if ps != [] {
      LatencyListLength(ps[1..]);
    }
  }

  // ---------------------------------------------------------------------------
  // Guard-pressure suite
  // ---------------------------------------------------------------------------

  /** The guard-pressure pattern: the exposure mismatch exactly on the steps divisible by 5, `allowed` never set. */
  predicate GuardPressureShape(ps: seq<Packet>)
  {
    forall i :: 0 <= i < |ps| ==>
      && ps[i].mismatch == (if i % 5 == 0 then Some(ExposureMismatch) else None)
      && ps[i].finalAction.allowed.None?
  }

  /** The codes a guard-pressure packet lists: max_exposure_exceeded on the steps divisible by 5, nothing elsewhere. */
  lemma {:induction false} GuardPressureStep(ps: seq<Packet>, i: int)
    requires GuardPressureShape(ps) && 0 <= i < |ps|
    ensures CodesOf(ps[i]) == if i % 5 == 0 then ["max_exposure_exceeded"] else []
    ensures Passes(ps[i]) <==> i % 5 != 0
    ensures Occurrences(CodesOf(ps[i]), "max_exposure_exceeded") == if i % 5 == 0 then 1 else 0
  {
    assert ["max_exposure_exceeded"][..0] == [];
  }

  /** Step `k - 1` adds max_exposure_exceeded to the listed codes when it is a multiple of 5, and nothing otherwise. */
  lemma {:induction false} GuardPressureCodesStep(ps: seq<Packet>, k: nat)
    requires GuardPressureShape(ps) && 0 < k <= |ps|
    ensures AllCodes(ps[..k]) == AllCodes(ps[..k - 1]) + (if (k - 1) % 5 == 0 then ["max_exposure_exceeded"] else [])
  {
    AllCodesPrefix(ps, k - 1);
    GuardPressureStep(ps, k - 1);
  }

  /** Among the first `k` steps, the multiples of 5 list the code max_exposure_exceeded. */
  lemma {:induction false} GuardPressureOccurrences(ps: seq<Packet>, k: nat)
    requires GuardPressureShape(ps) && k <= |ps|
    ensures Occurrences(AllCodes(ps[..k]), "max_exposure_exceeded") == MultiplesBelow(5, k)
  {
    if k > 0 {
      GuardPressureOccurrences(ps, k - 1);
      GuardPressureCodesStep(ps, k);
      var here: seq<string> := if (k - 1) % 5 == 0 then ["max_exposure_exceeded"] else [];
      OccurrencesAppend(AllCodes(ps[..k - 1]), here, "max_exposure_exceeded");
      assert ["max_exposure_exceeded"][..0] == [];
    }
  }

  /** Among the first `k` steps, all but the multiples of 5 pass the safety check. */
  lemma {:induction false} GuardPressurePasses(ps: seq<Packet>, k: nat)
    requires GuardPressureShape(ps) && k <= |ps|
    ensures PassCount(ps[..k]) == k - MultiplesBelow(5, k)
  {
    if k > 0 {
      GuardPressurePasses(ps, k - 1);
      assert ps[..k][..k - 1] == ps[..k - 1];
      GuardPressureStep(ps, k - 1);
    }
  }

  /** The first `k` steps list no code other than max_exposure_exceeded. */
  lemma {:induction false} GuardPressureOnlyCode(ps: seq<Packet>, k: nat)
    requires GuardPressureShape(ps) && k <= |ps|
    ensures forall c :: c in AllCodes(ps[..k]) ==> c == "max_exposure_exceeded"
  {
    if k > 0 {
      GuardPressureOnlyCode(ps, k - 1);
      GuardPressureCodesStep(ps, k);
    }
  }

  /** When every listed code is `c`, and `c` is listed `n > 0` times, `c` is the only guard rate, at n / |ps|. */
  lemma {:induction false} SingleGuardRate(ps: seq<Packet>, c: string, n: nat)
    requires |ps| > 0 && n > 0
    requires Occurrences(AllCodes(ps), c) == n
    requires forall d :: d in AllCodes(ps) ==> d == c
    ensures GuardRates(ps) == map[c := n as real / |ps| as real]
  {
    TallyCounts(AllCodes(ps));
    var counts := Tally(AllCodes(ps));
    assert counts.Keys == {c};
  }

  /** Twenty packets in the guard-pressure pattern have the single guard rate max_exposure_exceeded at 4/20. */
  lemma {:induction false} GuardPressureShapeRates(ps: seq<Packet>)
    requires GuardPressureShape(ps) && |ps| == 20
    ensures GuardRates(ps) == map["max_exposure_exceeded" := 4.0 / 20.0]
  {
    var n := |ps|;
    assert ps[..n] == ps;
    GuardPressureOccurrences(ps, n);
    GuardPressureOnlyCode(ps, n);
    MultiplesOf5Below(n);
    SingleGuardRate(ps, "max_exposure_exceeded", 4);
  }

  /** Guard-pressure trace: the only guard rate is max_exposure_exceeded at 4/20. */
  lemma {:induction false} GuardPressureRates(schemaDefault: string)
    ensures GuardRates(GuardPressureTrace(schemaDefault)) == map["max_exposure_exceeded" := 4.0 / 20.0]
  {
    GuardPressureShapeRates(GuardPressureTrace(schemaDefault));
  }

  /** Guard-pressure trace: the four flagged steps are allowed by default and fail, so the pass rate is 16/20. */
  lemma {:induction false} GuardPressureSafety(schemaDefault: string)
    ensures SafetyRate(GuardPressureTrace(schemaDefault)) == 16.0 / 20.0
  {
    GuardPressureShapeSafety(GuardPressureTrace(schemaDefault));
  }

  /** Twenty packets in the guard-pressure pattern pass the safety check 16 times. */
  lemma {:induction false} GuardPressureShapeSafety(ps: seq<Packet>)
    requires GuardPressureShape(ps) && |ps| == 20
    ensures SafetyRate(ps) == 16.0 / 20.0
  {
    var n := |ps|;
    GuardPressurePasses(ps, n);
    MultiplesOf5Below(n);
    assert ps[..n] == ps;
  }

  /** Guard-pressure metrics: {max_exposure_exceeded: 4/20}, a safety rate of 16/20, 20 steps. */
  lemma {:induction false} GuardPressureMetrics(schemaDefault: string)
    ensures var m := ComputeMetrics(GuardPressureTrace(schemaDefault));
      && m["guard_trigger_rates"] == Rates(map["max_exposure_exceeded" := 4.0 / 20.0])
      && m["safety_invariant_pass_rate"] == Ratio(16.0 / 20.0)
      && m["total_steps"] == Steps(20)
  {
    GuardPressureRates(schemaDefault);
    GuardPressureSafety(schemaDefault);
  }

  /** `fail_closed` fails on the guard-pressure trace: step 0 is flagged but allowed by default. */
  lemma {:induction false} GuardPressureNotFailClosed(schemaDefault: string, validActions: set<string>)
    ensures !CheckInvariants(GuardPressureTrace(schemaDefault), validActions)["fail_closed"]
  {
    var ps := GuardPressureTrace(schemaDefault);
    assert !PacketSatisfies(FailClosed, ps[0], validActions);
    OneFailingPacketFailsBatch(FailClosed, ps, 0, validActions);
    assert Name(FailClosed) == "fail_closed";
  }
}
