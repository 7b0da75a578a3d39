/**
 * The contract-version gate. The version of the installed decision schema
 * and its `is_compatible` predicate belong to the external schema package;
 * the model takes both as a `SchemaPackage` value and nothing here depends on
 * how `is_compatible` parses a version string.
 */
module Contracts {
  import opened Wrappers

  /** `decision_schema.__version__` and `decision_schema.compat.is_compatible(version, expected_major, min_minor, max_minor)`. */
  datatype SchemaPackage = SchemaPackage(version: string, isCompatible: (string, int, int, int) -> bool)

  /** The `details` record: a snapshot of one range comparison. */
  datatype ContractDetails = ContractDetails(
    schemaVersion: string,
    expectedMajor: int,
    minMinor: int,
    maxMinor: int,
    compatible: bool)

  /** `get_schema_version`. */
  function GetSchemaVersion(schema: SchemaPackage): string
  {
    schema.version
  }

  /**
   * `check_expected_minor_range`: the verdict of `is_compatible` on the
   * installed version and the given range, and a record echoing the inputs
   * together with that same verdict.
   */
  function CheckExpectedMinorRange(schema: SchemaPackage, expectedMajor: int := 0, minMinor: int := 1, maxMinor: int := 1)
    : (result: (bool, ContractDetails))
    ensures result.0 == schema.isCompatible(schema.version, expectedMajor, minMinor, maxMinor)
    ensures result.1.compatible == result.0
    ensures result.1.schemaVersion == GetSchemaVersion(schema)
    ensures result.1.expectedMajor == expectedMajor && result.1.minMinor == minMinor && result.1.maxMinor == maxMinor
  {
    var ok := schema.isCompatible(schema.version, expectedMajor, minMinor, maxMinor);
    (ok, ContractDetails(schema.version, expectedMajor, minMinor, maxMinor, ok))
  }

  /** The `RuntimeError` of `check_schema_compatibility`: the installed version and the expected `0.<minor>.x` line. */
  datatype Incompatible = Incompatible(schemaVersion: string, expectedMinor: int)

  /**
   * `check_schema_compatibility`: returns normally iff the installed version
   * is compatible with major 0 and exactly the expected minor, and raises
   * otherwise.
   */
  function CheckSchemaCompatibility(schema: SchemaPackage, expectedMinor: int := 1): (r: Result<(), Incompatible>)
    ensures r.Ok? <==> schema.isCompatible(schema.version, 0, expectedMinor, expectedMinor)
    ensures r.Ok? <==> CheckExpectedMinorRange(schema, 0, expectedMinor, expectedMinor).1.compatible
    ensures r.Err? ==> r.error == Incompatible(schema.version, expectedMinor)
  {
    if !schema.isCompatible(schema.version, 0, expectedMinor, expectedMinor) then
      Err(Incompatible(schema.version, expectedMinor))
    else
      Ok(())
  }

  /** Called with no arguments, both checks compare against the 0.1.x line. */
  lemma {:induction false} DefaultRangeIsZeroOne(schema: SchemaPackage)
    ensures CheckExpectedMinorRange(schema).1
         == ContractDetails(schema.version, 0, 1, 1, schema.isCompatible(schema.version, 0, 1, 1))
    ensures CheckSchemaCompatibility(schema).Ok? <==> schema.isCompatible(schema.version, 0, 1, 1)
    ensures CheckSchemaCompatibility(schema).Ok? <==> CheckExpectedMinorRange(schema).0
  {
  }
}
