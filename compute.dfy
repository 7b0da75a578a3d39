/**
 * `compute_metrics`: the five-key metrics result. The result is a map from
 * key name to a tagged value, so that its key set is something the model can
 * state and prove rather than a property of a record type.
 */
module Compute {
  import opened Packets
  import opened MetricDefinitions

  /** The value stored under one metrics key. */
  datatype MetricValue =
    | Counts(counts: map<string, nat>)
    | Rates(rates: map<string, real>)
    | Ratio(ratio: real)
    | Latency(percentiles: Percentiles)
    | Steps(steps: nat)

  /** The fixed key set of every metrics result. */
  const MetricKeys: set<string> :=
    {"action_distribution", "guard_trigger_rates", "safety_invariant_pass_rate", "latency_percentiles", "total_steps"}

  /**
   * `compute_metrics`: literal values for no packets, otherwise the four
   * metric definitions and the packet count. The contract holds on both
   * branches, so the empty-input special case returns exactly what the
   * definitions give on an empty trace.
   */
  function ComputeMetrics(ps: seq<Packet>): (r: map<string, MetricValue>)
    ensures r.Keys == MetricKeys
    ensures r["action_distribution"] == Counts(ActionDistribution(ps))
    ensures r["guard_trigger_rates"] == Rates(GuardRates(ps))
    ensures r["safety_invariant_pass_rate"] == Ratio(SafetyRate(ps))
    ensures r["latency_percentiles"] == Latency(LatencyPercentiles(ps))
    ensures r["total_steps"] == Steps(|ps|)
  {
    if |ps| == 0 then
      map[
        "action_distribution" := Counts(map[]),
        "guard_trigger_rates" := Rates(map[]),
        "safety_invariant_pass_rate" := Ratio(1.0),
        "latency_percentiles" := Latency(Percentiles(0, 0, 0)),
        "total_steps" := Steps(0)]
    else
      map[
        "action_distribution" := Counts(ActionDistribution(ps)),
        "guard_trigger_rates" := Rates(GuardRates(ps)),
        "safety_invariant_pass_rate" := Ratio(SafetyRate(ps)),
        "latency_percentiles" := Latency(LatencyPercentiles(ps)),
        "total_steps" := Steps(|ps|)]
  }

  /** On no packets: no counts, no rates, a pass rate of 1, zero percentiles and zero steps. */
  lemma {:induction false} ComputeMetricsEmpty()
    ensures ComputeMetrics([]) == map[
      "action_distribution" := Counts(map[]),
      "guard_trigger_rates" := Rates(map[]),
      "safety_invariant_pass_rate" := Ratio(1.0),
      "latency_percentiles" := Latency(Percentiles(0, 0, 0)),
      "total_steps" := Steps(0)]
  {
  }

  /** The action counts, each key once, add up to `total_steps`. */
  lemma {:induction false} ActionCountsSumToTotalSteps(ps: seq<Packet>)
    ensures var dist := ComputeMetrics(ps)["action_distribution"].counts;
      && (forall a :: a in Distinct(ActionKeys(ps)) <==> a in dist)
      && NoDuplicates(Distinct(ActionKeys(ps)))
      && SumOver(Distinct(ActionKeys(ps)), dist) == ComputeMetrics(ps)["total_steps"].steps
  {
    ActionDistributionSum(ps);
  }

  /** The pass rate lies in [0, 1], and so does every guard rate when no packet lists a code twice. */
  lemma {:induction false} MetricRatesBounded(ps: seq<Packet>)
    ensures 0.0 <= ComputeMetrics(ps)["safety_invariant_pass_rate"].ratio <= 1.0
    ensures (forall i :: 0 <= i < |ps| ==> NoDuplicates(CodesOf(ps[i]))) ==>
      var rates := ComputeMetrics(ps)["guard_trigger_rates"].rates;
      forall c :: c in rates ==> 0.0 <= rates[c] <= 1.0
  {
    SafetyRateBounds(ps);
    if forall i :: 0 <= i < |ps| ==> NoDuplicates(CodesOf(ps[i])) {
      GuardRatesBounded(ps);
    }
  }
}
