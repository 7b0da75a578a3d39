/** The `Report` record, its defaults, and its dictionary form (`to_dict`). */
module ReportModel {
  import opened Wrappers
  import opened Compute
  import opened Contracts

  /** The evaluation report. `calibrationSummary` is never filled in by the evaluator; its value type is left as numbers. */
  datatype Report = Report(
    reportVersion: string,
    schemaVersion: string,
    packetVersions: seq<string>,
    suiteName: string,
    seed: Option<int>,
    inputStats: map<string, int>,
    metrics: map<string, MetricValue>,
    invariantResults: map<string, bool>,
    calibrationSummary: Option<map<string, real>>,
    contractMatrixCheck: Option<ContractDetails>)

  /** `Report()` with every field at its declared default. */
  function DefaultReport(): (r: Report)
    ensures r.reportVersion == "0.1.0" && r.schemaVersion == "" && r.suiteName == ""
    ensures r.packetVersions == [] && r.inputStats == map[] && r.metrics == map[] && r.invariantResults == map[]
    ensures r.seed.None? && r.calibrationSummary.None? && r.contractMatrixCheck.None?
  {
    Report("0.1.0", "", [], "", None, map[], map[], map[], None, None)
  }

  /** A value of the report's dictionary form; `Null` is Python's `None`. */
  datatype ReportValue =
    | Text(text: string)
    | TextList(texts: seq<string>)
    | Integer(n: int)
    | Null
    | Stats(stats: map<string, int>)
    | Metrics(metrics: map<string, MetricValue>)
    | Verdicts(verdicts: map<string, bool>)
    | Summary(summary: map<string, real>)
    | Contract(details: ContractDetails)

  /** The nine keys `to_dict` always emits. */
  const BaseKeys: set<string> :=
    {"report_version", "schema_version", "packet_versions", "suite_name", "seed",
     "input_stats", "metrics", "invariant_results", "calibration_summary"}

  /** The ten fields `Report` declares: the base keys and `contract_matrix_check`. */
  const ReportFields: set<string> := BaseKeys + {"contract_matrix_check"}

  function OptionalInteger(v: Option<int>): ReportValue
  {
    if v.Some? then Integer(v.value) else Null
  }

  function OptionalSummary(v: Option<map<string, real>>): ReportValue
  {
    if v.Some? then Summary(v.value) else Null
  }

  /**
   * `Report.to_dict`: the nine base keys, each mapped to the field of the same
   * name, and `contract_matrix_check` added afterwards only when that field is
   * set. No other key is ever present.
   */
  method ToDict(report: Report) returns (result: map<string, ReportValue>)
    ensures result.Keys == BaseKeys + (if report.contractMatrixCheck.Some? then {"contract_matrix_check"} else {})
    ensures result["report_version"] == Text(report.reportVersion)
    ensures result["schema_version"] == Text(report.schemaVersion)
    ensures result["packet_versions"] == TextList(report.packetVersions)
    ensures result["suite_name"] == Text(report.suiteName)
    ensures result["seed"] == OptionalInteger(report.seed)
    ensures result["input_stats"] == Stats(report.inputStats)
    ensures result["metrics"] == Metrics(report.metrics)
    ensures result["invariant_results"] == Verdicts(report.invariantResults)
    ensures result["calibration_summary"] == OptionalSummary(report.calibrationSummary)
    ensures "contract_matrix_check" in result <==> report.contractMatrixCheck.Some?
    ensures report.contractMatrixCheck.Some? ==> result["contract_matrix_check"] == Contract(report.contractMatrixCheck.value)
  {
    result := map[
      "report_version" := Text(report.reportVersion),
      "schema_version" := Text(report.schemaVersion),
      "packet_versions" := TextList(report.packetVersions),
      "suite_name" := Text(report.suiteName),
      "seed" := OptionalInteger(report.seed),
      "input_stats" := Stats(report.inputStats),
      "metrics" := Metrics(report.metrics),
      "invariant_results" := Verdicts(report.invariantResults),
      "calibration_summary" := OptionalSummary(report.calibrationSummary)];
    assert result.Keys == BaseKeys;
    if report.contractMatrixCheck.Some? {
      result := result["contract_matrix_check" := Contract(report.contractMatrixCheck.value)];
    }
  }
}
