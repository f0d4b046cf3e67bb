/** A mark for proofs that look inside an invariant which others only carry around. */
module Seal {
  /** Always true.  A predicate guarded by it is opened where a proof mentions it. */
  ghost predicate Look(k: nat) {
    true
  }
}
