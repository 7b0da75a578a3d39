/**
 * The synthetic fixture suites. Each generator loops over the steps and
 * appends one packet per step; `load_fixture_suite` builds all three suites
 * and looks the requested one up by name.
 *
 * The packets' `input` and `external` payloads are not modelled (no metric or
 * invariant reads them), and the generators do not set a schema version, so
 * each packet gets the packet type's default, passed in as `schemaDefault`.
 */
module Fixtures {
  import opened Wrappers
  import opened Packets

  /** Step `step` of the smoke suite: HOLD at confidence 0.5, latency 2, no mismatch. */
  function SmokePacket(step: nat, schemaDefault: string): Packet
  {
    Packet("smoke-run", step, schemaDefault,
           Proposal(Some("HOLD"), Some(0.5)), FinalAction(Some("HOLD"), None), Some(2), None)
  }

  /** The action of step `step` of the determinism suite: ACT on every third step. */
  function DeterminismAction(step: nat): string
  {
    if step % 3 == 0 then "ACT" else "HOLD"
  }

  /** Step `step` of the determinism suite. */
  function DeterminismPacket(step: nat, schemaDefault: string): Packet
  {
    var action := DeterminismAction(step);
    Packet("determinism-run", step, schemaDefault,
           Proposal(Some(action), Some(0.6)), FinalAction(Some(action), None), Some(1 + step % 5), None)
  }

  /** The mismatch of every fifth step of the guard-pressure suite. */
  const ExposureMismatch: Mismatch := Mismatch(Some(["exposure_limit"]), Some(["max_exposure_exceeded"]))

  /** Step `step` of the guard-pressure suite: every fifth step carries a mismatch and is held. */
  function GuardPressurePacket(step: nat, schemaDefault: string): Packet
  {
    var hasMismatch := step % 5 == 0;
    Packet("guard-pressure-run", step, schemaDefault,
           Proposal(Some("ACT"), Some(0.8)),
           FinalAction(Some(if hasMismatch then "HOLD" else "ACT"), None),
           Some(3),
           if hasMismatch then Some(ExposureMismatch) else None)
  }

  function SmokeTrace(schemaDefault: string): seq<Packet>
  {
    seq(10, i requires 0 <= i => SmokePacket(i, schemaDefault))
  }

  function DeterminismTrace(schemaDefault: string): seq<Packet>
  {
    seq(20, i requires 0 <= i => DeterminismPacket(i, schemaDefault))
  }

  function GuardPressureTrace(schemaDefault: string): seq<Packet>
  {
    seq(20, i requires 0 <= i => GuardPressurePacket(i, schemaDefault))
  }

  /** `_smoke_suite`: ten packets, steps 0 to 9. */
  method SmokeSuite(schemaDefault: string) returns (packets: seq<Packet>)
    ensures |packets| == 10
    ensures forall i :: 0 <= i < 10 ==> packets[i].step == i && packets[i] == SmokePacket(i, schemaDefault)
    ensures packets == SmokeTrace(schemaDefault)
  {
    packets := [];
    for step := 0 to 10
      invariant |packets| == step
      invariant forall i :: 0 <= i < step ==> packets[i] == SmokePacket(i, schemaDefault)
    {
      packets := packets + [SmokePacket(step, schemaDefault)];
    }
  }

  /** `_determinism_suite`: twenty packets, ACT exactly on the steps divisible by 3, latency 1 + step % 5. */
  method DeterminismSuite(schemaDefault: string) returns (packets: seq<Packet>)
    ensures |packets| == 20
    ensures forall i :: 0 <= i < 20 ==> packets[i].step == i && packets[i] == DeterminismPacket(i, schemaDefault)
    ensures forall i :: 0 <= i < 20 ==> (packets[i].finalAction.action == Some("ACT") <==> i % 3 == 0)
    ensures forall i :: 0 <= i < 20 ==> packets[i].latencyMs == Some(1 + i % 5)
    ensures packets == DeterminismTrace(schemaDefault)
  {
    packets := [];
    for step := 0 to 20
      invariant |packets| == step
      invariant forall i :: 0 <= i < step ==> packets[i] == DeterminismPacket(i, schemaDefault)
    {
      packets := packets + [DeterminismPacket(step, schemaDefault)];
    }
  }

  /**
   * `_guard_pressure_suite`: twenty packets; exactly the steps divisible by 5
   * carry the exposure mismatch and are held, and no packet sets `allowed`.
   */
  method GuardPressureSuite(schemaDefault: string) returns (packets: seq<Packet>)
    ensures |packets| == 20
    ensures forall i :: 0 <= i < 20 ==> packets[i].step == i && packets[i] == GuardPressurePacket(i, schemaDefault)
    ensures forall i :: 0 <= i < 20 ==> (packets[i].mismatch.Some? <==> i % 5 == 0)
    ensures forall i :: 0 <= i < 20 && i % 5 == 0 ==>
      packets[i].mismatch == Some(ExposureMismatch) && packets[i].finalAction.action == Some("HOLD")
    ensures forall i :: 0 <= i < 20 ==> packets[i].finalAction.allowed.None?
    ensures packets == GuardPressureTrace(schemaDefault)
  {
    packets := [];
    for step := 0 to 20
      invariant |packets| == step
      invariant forall i :: 0 <= i < step ==> packets[i] == GuardPressurePacket(i, schemaDefault)
    {
      packets := packets + [GuardPressurePacket(step, schemaDefault)];
    }
  }

  /** The names `load_fixture_suite` accepts, in the order it lists them. */
  const SuiteNames: seq<string> := ["smoke", "determinism", "guard_pressure"]

  /** The `ValueError` for an unknown suite: the name asked for and the available names. */
  datatype UnknownSuite = UnknownSuite(name: string, available: seq<string>)

  /** The trace a known suite name stands for. */
  function SuiteTrace(name: string, schemaDefault: string): seq<Packet>
    requires name in SuiteNames
  {
    if name == "smoke" then SmokeTrace(schemaDefault)
    else if name == "determinism" then DeterminismTrace(schemaDefault)
    else GuardPressureTrace(schemaDefault)
  }

  /**
   * `load_fixture_suite`: builds every suite, then returns the named one, or
   * rejects an unknown name with the list of available names.
   */
  method LoadFixtureSuite(name: string, schemaDefault: string) returns (r: Result<seq<Packet>, UnknownSuite>)
    ensures r.Ok? <==> name in SuiteNames
    ensures r.Ok? ==> r.value == SuiteTrace(name, schemaDefault)
    ensures r.Err? ==> r.error == UnknownSuite(name, ["smoke", "determinism", "guard_pressure"])
  {
    var smoke := SmokeSuite(schemaDefault);
    var determinism := DeterminismSuite(schemaDefault);
    var guardPressure := GuardPressureSuite(schemaDefault);
    var suites := map["smoke" := smoke, "determinism" := determinism, "guard_pressure" := guardPressure];
    if name !in suites {
      return Err(UnknownSuite(name, ["smoke", "determinism", "guard_pressure"]));
    }
    r := Ok(suites[name]);
  }
}
