/**
 * `build_report`: runs the metrics, the invariant checks and the contract
 * range check over the same input and packages the three results.
 */
module ReportBuilder {
  import opened Wrappers
  import opened Packets
  import opened MetricDefinitions
  import opened Compute
  import opened Invariants
  import opened Contracts
  import opened ReportModel

  /**
   * `build_report(packets, suite_name="default", expected_schema_minor=2)`.
   * The source also passes `contract_ok` to the `Report` constructor, which
   * declares no such field (see `BuildReportAsWritten`); the model returns it
   * beside the report instead.
   */
  function BuildReport(
    ps: seq<Packet>, validActions: set<string>, schema: SchemaPackage,
    suiteName: string := "default", expectedSchemaMinor: int := 2)
    : (out: (Report, bool))
    // The fields the call names; every other field keeps its `Report()` default.
    ensures out.0 == DefaultReport().(
      reportVersion := "0.1.0",
      schemaVersion := GetSchemaVersion(schema),
      suiteName := suiteName,
      inputStats := map["total_packets" := |ps|],
      metrics := ComputeMetrics(ps),
      invariantResults := CheckInvariants(ps, validActions),
      contractMatrixCheck := Some(CheckExpectedMinorRange(schema, 0, expectedSchemaMinor, expectedSchemaMinor).1))
    ensures out.0.packetVersions == [] && out.0.seed.None? && out.0.calibrationSummary.None?
    ensures var report := out.0;
      && report.metrics.Keys == MetricKeys
      && report.invariantResults.Keys == InvariantNames
      && report.contractMatrixCheck.Some?
      && out.1 == report.contractMatrixCheck.value.compatible
      && out.1 == schema.isCompatible(schema.version, 0, expectedSchemaMinor, expectedSchemaMinor)
  {
    var metrics := ComputeMetrics(ps);
    var invariantResults := CheckInvariants(ps, validActions);
    var (contractOk, contractDetails) := CheckExpectedMinorRange(schema, 0, expectedSchemaMinor, expectedSchemaMinor);
    (Report(
       reportVersion := "0.1.0",
       schemaVersion := schema.version,
       packetVersions := [],
       suiteName := suiteName,
       seed := None,
       inputStats := map["total_packets" := |ps|],
       metrics := metrics,
       invariantResults := invariantResults,
       calibrationSummary := None,
       contractMatrixCheck := Some(contractDetails)),
     contractOk)
  }

  /**
   * The metrics and verdicts of a report depend on the packets (and the action
   * set) only: neither the suite name, the expected minor nor the schema
   * package changes them.
   */
  lemma {:induction false} ResultsIndependentOfContract(
    ps: seq<Packet>, validActions: set<string>,
    suite1: string, minor1: int, schema1: SchemaPackage,
    suite2: string, minor2: int, schema2: SchemaPackage)
    ensures BuildReport(ps, validActions, schema1, suite1, minor1).0.metrics
         == BuildReport(ps, validActions, schema2, suite2, minor2).0.metrics
    ensures BuildReport(ps, validActions, schema1, suite1, minor1).0.invariantResults
         == BuildReport(ps, validActions, schema2, suite2, minor2).0.invariantResults
  {
  }

  /**
   * The per-packet safety metric is stricter than the `fail_closed` verdict:
   * a pass rate of 1 implies `fail_closed`, ...
   */
  lemma {:induction false} FullSafetyRateImpliesFailClosed(ps: seq<Packet>, validActions: set<string>)
    requires SafetyRate(ps) == 1.0
    ensures Check(FailClosed, ps, validActions)
  {
    SafetyRateBounds(ps);
    CheckAll(FailClosed, ps, validActions);
  }

  /** ... but not conversely: a denied packet without a mismatch passes `fail_closed` and fails the safety metric. */
  lemma {:induction false} DeniedWithoutMismatch(p: Packet, validActions: set<string>)
    requires p.finalAction.allowed == Some(false) && p.mismatch.None?
    ensures Check(FailClosed, [p], validActions)
    ensures SafetyRate([p]) == 0.0
  {
    CheckSingle(FailClosed, p, validActions);
    assert [p][..0] == [];
    assert !Passes(p);
    assert PassCount([p]) == PassCount([]) == 0;
  }

  /** `build_report(packets)`: suite "default", checked against the 0.2.x line. */
  lemma {:induction false} DefaultBuildReport(ps: seq<Packet>, validActions: set<string>, schema: SchemaPackage)
    ensures BuildReport(ps, validActions, schema).0.suiteName == "default"
    ensures BuildReport(ps, validActions, schema).0.contractMatrixCheck
         == Some(ContractDetails(schema.version, 0, 2, 2, schema.isCompatible(schema.version, 0, 2, 2)))
    ensures BuildReport(ps, validActions, schema).1 == schema.isCompatible(schema.version, 0, 2, 2)
  {
  }

  // ---------------------------------------------------------------------------
  // The constructor call as written
  // ---------------------------------------------------------------------------

  /** The keyword arguments `build_report` passes to `Report(...)`, in order. */
  const BuildReportKeywords: seq<string> :=
    ["report_version", "schema_version", "suite_name", "input_stats", "metrics",
     "invariant_results", "contract_matrix_check", "contract_ok"]

  /** A dataclass constructor's `TypeError` for a keyword it has no field for. */
  datatype TypeError = UnexpectedKeyword(keyword: string)

  /** The first keyword that names no field, if any. */
  function FirstUnknownKeyword(keywords: seq<string>, fields: set<string>): (r: Option<string>)
    ensures r.None? <==> forall i :: 0 <= i < |keywords| ==> keywords[i] in fields
    ensures r.Some? ==> r.value in keywords && r.value !in fields
  {
    if keywords == [] then None
    else if keywords[0] !in fields then Some(keywords[0])
    else
      var r := FirstUnknownKeyword(keywords[1..], fields);
      assert forall i :: 1 <= i < |keywords| ==> keywords[i] == keywords[1..][i - 1];
      r
  }

  /**
   * `build_report` as written: the keyword call is rejected when one of its
   * keywords is not a field of `Report`, and otherwise builds the report.
   */
  function BuildReportAsWritten(
    ps: seq<Packet>, validActions: set<string>, schema: SchemaPackage,
    suiteName: string := "default", expectedSchemaMinor: int := 2)
    : (r: Result<Report, TypeError>)
    ensures r.Err? <==> exists i :: 0 <= i < |BuildReportKeywords| && BuildReportKeywords[i] !in ReportFields
    ensures r.Ok? ==> r.value == BuildReport(ps, validActions, schema, suiteName, expectedSchemaMinor).0
  {
    match FirstUnknownKeyword(BuildReportKeywords, ReportFields)
    case Some(k) => Err(UnexpectedKeyword(k))
    case None => Ok(BuildReport(ps, validActions, schema, suiteName, expectedSchemaMinor).0)
  }

  /** As written, every call fails: `contract_ok` is not a field of `Report`. */
  lemma {:induction false} BuildReportAsWrittenRaises(
    ps: seq<Packet>, validActions: set<string>, schema: SchemaPackage, suiteName: string, expectedSchemaMinor: int)
    ensures BuildReportAsWritten(ps, validActions, schema, suiteName, expectedSchemaMinor) == Err(UnexpectedKeyword("contract_ok"))
  {
    var fields := ReportFields;
    assert forall i :: 0 <= i < 7 ==> BuildReportKeywords[i] in fields;
    assert "contract_ok" !in fields;
    KeywordsPrefix(BuildReportKeywords, fields, 7);
  }

  /** When the first `n` keywords are fields, the first unknown one is found after them. */
  lemma {:induction false} KeywordsPrefix(keywords: seq<string>, fields: set<string>, n: nat)
    requires n <= |keywords|
    requires forall i :: 0 <= i < n ==> keywords[i] in fields
    ensures FirstUnknownKeyword(keywords, fields) == FirstUnknownKeyword(keywords[n..], fields)
  {
    if n > 0 {
      assert keywords[1..][n - 1..] == keywords[n..];
      KeywordsPrefix(keywords[1..], fields, n - 1);
    }
  }

  /** Without `contract_ok`, the keywords `BuildReport` fills in are all fields of `Report`. */
  lemma {:induction false} BuildReportKeywordsAreFields()
    ensures FirstUnknownKeyword(BuildReportKeywords[..7], ReportFields).None?
  {
    var fields := ReportFields;
    assert forall i :: 0 <= i < 7 ==> BuildReportKeywords[..7][i] in fields;
  }
}
