/**
 * `check_invariants`: four batch-wide verdicts. Each helper of the source is a
 * loop over the packets that returns False at the first packet that fails its
 * per-packet check and True after the last; `Check` is that loop, once, for
 * the four checks named by `Invariant`.
 */
module Invariants {
  import opened Wrappers
  import opened Packets

  datatype Invariant = ContractClosure | ConfidenceClamp | FailClosed | PacketVersion

  /** The key each verdict is reported under. */
  function Name(inv: Invariant): string
  {
    match inv
    case ContractClosure => "contract_closure"
    case ConfidenceClamp => "confidence_clamp"
    case FailClosed => "fail_closed"
    case PacketVersion => "packet_version"
  }

  const InvariantNames: set<string> := {"contract_closure", "confidence_clamp", "fail_closed", "packet_version"}

  /** `action in valid_actions` for an optional action: a missing action (`None`) is never valid. */
  predicate InActions(action: Option<string>, validActions: set<string>)
  {
    action.Some? && action.value in validActions
  }

  /** The per-packet check of each invariant; `validActions` is the set of values of the `Action` enum. */
  predicate PacketSatisfies(inv: Invariant, p: Packet, validActions: set<string>)
  {
    match inv
    case ContractClosure => InActions(p.mdm.action, validActions) && InActions(p.finalAction.action, validActions)
    case ConfidenceClamp => p.mdm.confidence.None? || 0.0 <= p.mdm.confidence.value <= 1.0
    case FailClosed => !(HasDenyFlags(p) && Allowed(p))
    case PacketVersion => p.schemaVersion != ""
  }

  /** The loop of `_check_<name>`: False at the first failing packet, True otherwise. */
  function Check(inv: Invariant, ps: seq<Packet>, validActions: set<string>): (ok: bool)
    ensures ok <==> forall i :: 0 <= i < |ps| ==> PacketSatisfies(inv, ps[i], validActions)
  {
    if ps == [] then true
    else if !PacketSatisfies(inv, ps[0], validActions) then false
    else
      var ok := Check(inv, ps[1..], validActions);
      assert forall i :: 1 <= i < |ps| ==> ps[i] == ps[1..][i - 1];
      ok
  }

  /** A verdict holds iff every packet passes its check: no partial credit. */
  lemma {:induction false} CheckAll(inv: Invariant, ps: seq<Packet>, validActions: set<string>)
    ensures Check(inv, ps, validActions) <==> forall i :: 0 <= i < |ps| ==> PacketSatisfies(inv, ps[i], validActions)
  {
    if ps != [] {
      CheckAll(inv, ps[1..], validActions);
      assert forall i :: 1 <= i < |ps| ==> ps[i] == ps[1..][i - 1];
    }
  }

  /** A verdict over a concatenation is the conjunction of the verdicts over the parts. */
  lemma {:induction false} CheckAppend(inv: Invariant, ps: seq<Packet>, qs: seq<Packet>, validActions: set<string>)
    ensures Check(inv, ps + qs, validActions) == (Check(inv, ps, validActions) && Check(inv, qs, validActions))
  {
    if ps == [] {
      assert ps + qs == qs;
    } else {
      assert (ps + qs)[1..] == ps[1..] + qs;
      CheckAppend(inv, ps[1..], qs, validActions);
    }
  }

  /** Every verdict holds on an empty trace. */
  lemma {:induction false} CheckEmpty(inv: Invariant, validActions: set<string>)
    ensures Check(inv, [], validActions)
  {
  }

  /** One failing packet anywhere fails the whole batch. */
  lemma {:induction false} OneFailingPacketFailsBatch(inv: Invariant, ps: seq<Packet>, i: int, validActions: set<string>)
    requires 0 <= i < |ps| && !PacketSatisfies(inv, ps[i], validActions)
    ensures !Check(inv, ps, validActions)
  {
    CheckAll(inv, ps, validActions);
  }

  /** `contract_closure`: every proposed and final action is present and a valid action. */
  lemma {:induction false} ContractClosureMeaning(ps: seq<Packet>, validActions: set<string>)
    ensures Check(ContractClosure, ps, validActions) <==>
      forall i :: 0 <= i < |ps| ==>
        && ps[i].mdm.action.Some? && ps[i].mdm.action.value in validActions
        && ps[i].finalAction.action.Some? && ps[i].finalAction.action.value in validActions
  {
    CheckAll(ContractClosure, ps, validActions);
  }

  /** `confidence_clamp`: every confidence that is present lies in [0, 1]. */
  lemma {:induction false} ConfidenceClampMeaning(ps: seq<Packet>, validActions: set<string>)
    ensures Check(ConfidenceClamp, ps, validActions) <==>
      forall i :: 0 <= i < |ps| && ps[i].mdm.confidence.Some? ==> 0.0 <= ps[i].mdm.confidence.value <= 1.0
  {
    CheckAll(ConfidenceClamp, ps, validActions);
  }

  /** `fail_closed`: no packet has a non-empty flag list while allowed (allowed defaults to true). */
  lemma {:induction false} FailClosedMeaning(ps: seq<Packet>, validActions: set<string>)
    ensures Check(FailClosed, ps, validActions) <==>
      forall i :: 0 <= i < |ps| && ps[i].mismatch.Some? && Flags(ps[i].mismatch.value) != [] ==>
        ps[i].finalAction.allowed == Some(false)
  {
    CheckAll(FailClosed, ps, validActions);
  }

  /** `packet_version`: every schema version is non-empty. */
  lemma {:induction false} PacketVersionMeaning(ps: seq<Packet>, validActions: set<string>)
    ensures Check(PacketVersion, ps, validActions) <==> forall i :: 0 <= i < |ps| ==> ps[i].schemaVersion != ""
  {
    CheckAll(PacketVersion, ps, validActions);
  }

  /** `check_invariants`: exactly the four named verdicts. */
  function CheckInvariants(ps: seq<Packet>, validActions: set<string>): (results: map<string, bool>)
    ensures results.Keys == InvariantNames
    ensures forall inv :: results[Name(inv)] == Check(inv, ps, validActions)
  {
    map[
      "contract_closure" := Check(ContractClosure, ps, validActions),
      "confidence_clamp" := Check(ConfidenceClamp, ps, validActions),
      "fail_closed" := Check(FailClosed, ps, validActions),
      "packet_version" := Check(PacketVersion, ps, validActions)]
  }

  /** A test packet: run "test", step 0, latency 1, with the given proposal, final action and mismatch. */
  function TestPacket(schemaVersion: string, mdm: Proposal, finalAction: FinalAction, mismatch: Option<Mismatch>): Packet
  {
    Packet("test", 0, schemaVersion, mdm, finalAction, Some(1), mismatch)
  }

  /** On a one-packet trace a verdict is that packet's check. */
  lemma {:induction false} CheckSingle(inv: Invariant, p: Packet, validActions: set<string>)
    ensures Check(inv, [p], validActions) == PacketSatisfies(inv, p, validActions)
  {
    assert [p][1..] == [];
  }

  /** The contract-closure test: "HOLD" everywhere passes, "INVALID_ACTION" everywhere fails. */
  lemma {:induction false} ContractClosureCases(sv: string, validActions: set<string>)
    requires "HOLD" in validActions && "INVALID_ACTION" !in validActions
    ensures var valid := TestPacket(sv, Proposal(Some("HOLD"), None), FinalAction(Some("HOLD"), None), None);
      CheckInvariants([valid], validActions)["contract_closure"]
    ensures var invalid := TestPacket(sv, Proposal(Some("INVALID_ACTION"), None), FinalAction(Some("INVALID_ACTION"), None), None);
      !CheckInvariants([invalid], validActions)["contract_closure"]
  {
    assert Name(ContractClosure) == "contract_closure";
    CheckSingle(ContractClosure, TestPacket(sv, Proposal(Some("HOLD"), None), FinalAction(Some("HOLD"), None), None), validActions);
  }

  /** The confidence-clamp test: confidence 0.5 passes, 1.5 fails. */
  lemma {:induction false} ConfidenceClampCases(sv: string, validActions: set<string>)
    ensures var valid := TestPacket(sv, Proposal(Some("HOLD"), Some(0.5)), FinalAction(Some("HOLD"), None), None);
      CheckInvariants([valid], validActions)["confidence_clamp"]
    ensures var invalid := TestPacket(sv, Proposal(Some("HOLD"), Some(1.5)), FinalAction(Some("HOLD"), None), None);
      !CheckInvariants([invalid], validActions)["confidence_clamp"]
  {
    assert Name(ConfidenceClamp) == "confidence_clamp";
    CheckSingle(ConfidenceClamp, TestPacket(sv, Proposal(Some("HOLD"), Some(0.5)), FinalAction(Some("HOLD"), None), None), validActions);
  }

  /** The fail-closed test: allowed without mismatch and denied with flags pass; allowed with flags fails. */
  lemma {:induction false} FailClosedCases(sv: string, validActions: set<string>)
    ensures var allowedClean := TestPacket(sv, Proposal(Some("ACT"), None), FinalAction(Some("ACT"), Some(true)), None);
      CheckInvariants([allowedClean], validActions)["fail_closed"]
    ensures var deniedFlagged := TestPacket(sv, Proposal(Some("ACT"), None), FinalAction(Some("HOLD"), Some(false)),
                                            Some(Mismatch(Some(["exposure_limit"]), None)));
      CheckInvariants([deniedFlagged], validActions)["fail_closed"]
    ensures var allowedFlagged := TestPacket(sv, Proposal(Some("ACT"), None), FinalAction(Some("ACT"), Some(true)),
                                             Some(Mismatch(Some(["exposure_limit"]), None)));
      !CheckInvariants([allowedFlagged], validActions)["fail_closed"]
  {
    assert Name(FailClosed) == "fail_closed";
    CheckSingle(FailClosed, TestPacket(sv, Proposal(Some("ACT"), None), FinalAction(Some("ACT"), Some(true)), None), validActions);
    CheckSingle(FailClosed, TestPacket(sv, Proposal(Some("ACT"), None), FinalAction(Some("HOLD"), Some(false)),
                                       Some(Mismatch(Some(["exposure_limit"]), None))), validActions);
  }
}
