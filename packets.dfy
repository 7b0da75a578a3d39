/**
 * The decision packet (`PacketV2` of the external decision schema), reduced
 * to the fields the evaluator reads. Each nested dictionary becomes a record
 * whose optional keys are `Option`s, so that "key missing" is explicit and the
 * defaults the evaluator applies are written out once, below.
 */
module Packets {
  import opened Wrappers

  /** The proposed decision (`mdm`): `action` and `confidence` keys. */
  datatype Proposal = Proposal(action: Option<string>, confidence: Option<real>)

  /** The decision actually taken (`final_action`): `action` and `allowed` keys. */
  datatype FinalAction = FinalAction(action: Option<string>, allowed: Option<bool>)

  /** A guard override record (`mismatch`): `flags` and `reason_codes` keys. */
  datatype Mismatch = Mismatch(flags: Option<seq<string>>, reasonCodes: Option<seq<string>>)

  /** One evaluated decision step. `latencyMs` is `None` when the packet has no latency attribute. */
  datatype Packet = Packet(
    runId: string,
    step: int,
    schemaVersion: string,
    mdm: Proposal,
    finalAction: FinalAction,
    latencyMs: Option<int>,
    mismatch: Option<Mismatch>)

  /** `final_action.get("allowed", True)`. */
  function Allowed(p: Packet): bool
  {
    p.finalAction.allowed.GetOr(true)
  }

  /** `mismatch.get("flags", [])`. */
  function Flags(m: Mismatch): seq<string>
  {
    m.flags.GetOr([])
  }

  /** `mismatch.get("reason_codes", [])`. */
  function ReasonCodes(m: Mismatch): seq<string>
  {
    m.reasonCodes.GetOr([])
  }

  /** The packet carries a mismatch whose flag list is non-empty. */
  predicate HasDenyFlags(p: Packet)
  {
    p.mismatch.Some? && Flags(p.mismatch.value) != []
  }
}
