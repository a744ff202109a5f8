/** The lease reducer itself: one struct whose fields every operation updates in
    place. Each method is proved against its function in LeaseSpec; what those
    functions promise over whole histories is proved in LeaseHistory.
 */
module ControlLeaseReducer {
  import opened SmcBaseline
  import opened MinuteRule
  import opened LeaseSpec

  class ControlLease {
    var state: State
    var owner: u64
    var expiresAt: u64
    var observationStarted: u64
    var lastSample: u64
    var samples: u32
    var writePending: bool
    var recoveryVerified: bool

    function Value(): Lease
      reads this
    {
      Lease(state, owner, expiresAt, observationStarted, lastSample, samples, writePending, recoveryVerified)
    }

    constructor ()
      ensures Value() == ZERO
    {
      state := Observing;
      owner, expiresAt, observationStarted, lastSample, samples := 0, 0, 0, 0, 0;
      writePending, recoveryVerified := false, false;
    }

    /** memset to zero. */
    method Clear()
      modifies this
      ensures Value() == ZERO
    {
      state := Observing;
      owner, expiresAt, observationStarted, lastSample, samples := 0, 0, 0, 0, 0;
      writePending, recoveryVerified := false, false;
    }

    method RequireRecovery()
      modifies this
      ensures Value() == LeaseSpec.RequireRecovery(old(Value()))
    {
      state := RecoveryRequired;
      owner := 0;
      expiresAt := 0;
      recoveryVerified := false;
    }

    method Start(intent: Intent, r: Reading)
      modifies this
      ensures Value() == LeaseSpec.Start(intent, r)
    {
      Clear();
      if intent != Intent.Clear {
        writePending := true;
        RequireRecovery();
      } else if r.now == 0 || !ValidRead(r) {
        state := State.ReadFailed;
      } else if !IsSystem(r.snapshot.value) {
        RequireRecovery();
      } else {
        state := Observing;
        observationStarted := r.now;
        lastSample := r.now;
        samples := 1;
      }
    }

    method Sample(r: Reading)
      modifies this
      ensures Value() == LeaseSpec.Sample(old(Value()), r)
    {
      if state != Observing && state != VerifyingRecovery {
        return;
      }
      if !ValidRead(r) || r.now <= lastSample
         || Minus(r.now, lastSample) < SAMPLE_MIN_NS || Minus(r.now, lastSample) > SAMPLE_MAX_NS {
        state := State.ReadFailed;
        return;
      }
      lastSample := r.now;
      samples := Increment(samples);
      if !IsSystem(r.snapshot.value) {
        RequireRecovery();
        return;
      }
      if samples >= REQUIRED_SAMPLES && Minus(r.now, observationStarted) >= BASELINE_NS {
        recoveryVerified := state == VerifyingRecovery;
        state := Stable;
        writePending := false;
        owner := 0;
        expiresAt := 0;
      }
    }

    method Claim(newOwner: u64, protocolVerified: bool, intent: Intent, r: Reading) returns (granted: bool)
      modifies this
      ensures granted == ClaimGranted(old(Value()), newOwner, protocolVerified, intent, r)
      ensures Value() == LeaseSpec.Claim(old(Value()), newOwner, protocolVerified, intent, r)
    {
      if state != Stable {
        return false;
      }
      if intent != Intent.Clear {
        RequireRecovery();
        return false;
      }
      if !protocolVerified || newOwner == 0 || r.now == 0 || r.now < lastSample
         || Minus(r.now, lastSample) > CLAIM_MAX_AGE_NS || r.now > U64_MAX - TTL_NS {
        return false;
      }
      if !ValidRead(r) {
        state := State.ReadFailed;
        return false;
      }
      if !IsSystem(r.snapshot.value) || !CoolEnough(r.snapshot.value) {
        RequireRecovery();
        return false;
      }
      state := Held;
      owner := newOwner;
      lastSample := r.now;
      expiresAt := Plus(r.now, TTL_NS);
      writePending := false;
      return true;
    }

    method MarkWritePending(claimant: u64, now: u64, intent: Intent) returns (granted: bool)
      modifies this
      ensures granted == MarkGranted(old(Value()), claimant, now, intent)
      ensures Value() == LeaseSpec.Mark(old(Value()), claimant, now, intent)
    {
      if state != Held || claimant == 0 || claimant != owner {
        return false;
      }
      if intent != Intent.Pending || now < lastSample || now >= expiresAt {
        RequireRecovery();
        return false;
      }
      writePending := true;
      return true;
    }

    method PreparePersistentIntent() returns (granted: bool)
      modifies this
      ensures granted == PrepareGranted(old(Value()))
      ensures Value() == LeaseSpec.Prepare(old(Value()))
    {
      if state != Held || owner == 0 || writePending {
        return false;
      }
      recoveryVerified := false;
      return true;
    }

    method Renew(claimant: u64, intent: Intent, r: Reading) returns (granted: bool)
      modifies this
      ensures granted == RenewGranted(old(Value()), claimant, intent, r)
      ensures Value() == LeaseSpec.Renew(old(Value()), claimant, intent, r)
    {
      if state != Held || claimant == 0 || claimant != owner {
        return false;
      }
      if intent != (if writePending then Intent.Pending else Intent.Clear)
         || r.now < lastSample || r.now >= expiresAt || r.now > U64_MAX - TTL_NS
         || !ValidRead(r) || !CoolEnough(r.snapshot.value)
         || (writePending && IsSystem(r.snapshot.value))
         || (!writePending && !IsSystem(r.snapshot.value)) {
        RequireRecovery();
        return false;
      }
      lastSample := r.now;
      expiresAt := Plus(r.now, TTL_NS);
      return true;
    }

    method OwnerLost(claimant: u64)
      modifies this
      ensures Value() == LeaseSpec.OwnerLost(old(Value()), claimant)
    {
      if state == Held && claimant != 0 && claimant == owner {
        RequireRecovery();
      }
    }

    method Tick(now: u64)
      modifies this
      ensures Value() == LeaseSpec.Tick(old(Value()), now)
    {
      if state == Held && now >= expiresAt {
        RequireRecovery();
      }
    }

    method Sleep()
      modifies this
      ensures Value() == LeaseSpec.Sleep(old(Value()))
    {
      if state == Held || state == Stable || state == Observing || state == VerifyingRecovery {
        RequireRecovery();
      }
    }

    method RecoveryStarted(r: Reading)
      modifies this
      ensures Value() == LeaseSpec.RecoveryStarted(old(Value()), r)
    {
      if state != RecoveryRequired {
        return;
      }
      if r.now == 0 || !ValidRead(r) {
        state := State.ReadFailed;
      } else if IsSystem(r.snapshot.value) {
        recoveryVerified := false;
        state := VerifyingRecovery;
        observationStarted := r.now;
        lastSample := r.now;
        samples := 1;
      }
    }

    method TakeRecoveryProof() returns (taken: bool)
      modifies this
      ensures taken == ProofAvailable(old(Value()))
      ensures Value() == LeaseSpec.TakeProof(old(Value()))
    {
      if state != Stable || !recoveryVerified || writePending || owner != 0 || expiresAt != 0
         || samples < REQUIRED_SAMPLES || lastSample < observationStarted
         || Minus(lastSample, observationStarted) < BASELINE_NS {
        return false;
      }
      recoveryVerified := false;
      return true;
    }
  }
}
