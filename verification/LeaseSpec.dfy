/** The control lease as a value, and one function for each entry point of the reducer. */
module LeaseSpec {
  import opened SmcBaseline
  import opened MinuteRule

  datatype State = Observing | Stable | Held | RecoveryRequired | VerifyingRecovery | ReadFailed

  datatype Intent = Clear | Pending | Unknown

  const TTL_NS: u64 := 15_000_000_000
  const CLAIM_MAX_AGE_NS: u64 := 2_000_000_000

  datatype Lease = Lease(
    state: State,
    owner: u64,
    expiresAt: u64,
    observationStarted: u64,
    lastSample: u64,
    samples: u32,
    writePending: bool,
    recoveryVerified: bool)

  const ZERO := Lease(Observing, 0, 0, 0, 0, 0, false, false)

  /** What a timed read of the SMC hands to the reducer. */
  datatype Reading = Reading(result: ReadResult, snapshot: Option<Snapshot>, now: u64)

  predicate ValidRead(r: Reading) {
    r.result == Ok && r.snapshot.Some?
  }

  predicate SystemReading(r: Reading) {
    ValidRead(r) && IsSystem(r.snapshot.value)
  }

  predicate CoolReading(r: Reading) {
    ValidRead(r) && CoolEnough(r.snapshot.value)
  }

  function RequireRecovery(l: Lease): Lease {
    l.(state := RecoveryRequired, owner := 0, expiresAt := 0, recoveryVerified := false)
  }

  function Start(intent: Intent, r: Reading): Lease {
    if intent != Clear then RequireRecovery(ZERO.(writePending := true))
    else if r.now == 0 || !ValidRead(r) then ZERO.(state := ReadFailed)
    else if !SystemReading(r) then RequireRecovery(ZERO)
    else ZERO.(observationStarted := r.now, lastSample := r.now, samples := 1)
  }

  predicate Watching(l: Lease) {
    l.state.Observing? || l.state.VerifyingRecovery?
  }

  predicate InTime(previous: u64, now: u64) {
    now > previous && SAMPLE_MIN_NS <= Minus(now, previous) <= SAMPLE_MAX_NS
  }

  function Sample(l: Lease, r: Reading): Lease {
    if !Watching(l) then l
    else if !ValidRead(r) || !InTime(l.lastSample, r.now) then l.(state := ReadFailed)
    else
      var counted := l.(lastSample := r.now, samples := Increment(l.samples));
      if !SystemReading(r) then RequireRecovery(counted)
      else if counted.samples >= REQUIRED_SAMPLES && Minus(r.now, l.observationStarted) >= BASELINE_NS then
        counted.(recoveryVerified := l.state.VerifyingRecovery?, state := Stable,
                 writePending := false, owner := 0, expiresAt := 0)
      else counted
  }

  /** The timing and identity part of a claim; failing it leaves the lease stable. */
  predicate ClaimTimely(l: Lease, owner: u64, protocolVerified: bool, now: u64) {
    && protocolVerified && owner != 0 && now != 0
    && now >= l.lastSample && Minus(now, l.lastSample) <= CLAIM_MAX_AGE_NS
    && now <= U64_MAX - TTL_NS
  }

  predicate ClaimGranted(l: Lease, owner: u64, protocolVerified: bool, intent: Intent, r: Reading) {
    && l.state.Stable? && intent == Clear
    && ClaimTimely(l, owner, protocolVerified, r.now)
    && SystemReading(r) && CoolReading(r)
  }

  function Claim(l: Lease, owner: u64, protocolVerified: bool, intent: Intent, r: Reading): Lease {
    if !l.state.Stable? then l
    else if intent != Clear then RequireRecovery(l)
    else if !ClaimTimely(l, owner, protocolVerified, r.now) then l
    else if !ValidRead(r) then l.(state := ReadFailed)
    else if !(SystemReading(r) && CoolReading(r)) then RequireRecovery(l)
    else l.(state := Held, owner := owner, lastSample := r.now,
            expiresAt := Plus(r.now, TTL_NS), writePending := false)
  }

  predicate HeldBy(l: Lease, owner: u64) {
    l.state.Held? && owner != 0 && owner == l.owner
  }

  predicate Unexpired(l: Lease, now: u64) {
    l.lastSample <= now < l.expiresAt
  }

  predicate MarkGranted(l: Lease, owner: u64, now: u64, intent: Intent) {
    HeldBy(l, owner) && intent == Pending && Unexpired(l, now)
  }

  function Mark(l: Lease, owner: u64, now: u64, intent: Intent): Lease {
    if !HeldBy(l, owner) then l
    else if MarkGranted(l, owner, now, intent) then l.(writePending := true)
    else RequireRecovery(l)
  }

  predicate PrepareGranted(l: Lease) {
    l.state.Held? && l.owner != 0 && !l.writePending
  }

  function Prepare(l: Lease): Lease {
    if PrepareGranted(l) then l.(recoveryVerified := false) else l
  }

  predicate RenewGranted(l: Lease, owner: u64, intent: Intent, r: Reading) {
    && HeldBy(l, owner)
    && intent == (if l.writePending then Pending else Clear)
    && Unexpired(l, r.now) && r.now <= U64_MAX - TTL_NS
    && CoolReading(r)
    && SystemReading(r) == !l.writePending
  }

  function Renew(l: Lease, owner: u64, intent: Intent, r: Reading): Lease {
    if !HeldBy(l, owner) then l
    else if RenewGranted(l, owner, intent, r) then l.(lastSample := r.now, expiresAt := Plus(r.now, TTL_NS))
    else RequireRecovery(l)
  }

  function OwnerLost(l: Lease, owner: u64): Lease {
    if HeldBy(l, owner) then RequireRecovery(l) else l
  }

  function Tick(l: Lease, now: u64): Lease {
    if l.state.Held? && now >= l.expiresAt then RequireRecovery(l) else l
  }

  function Sleep(l: Lease): Lease {
    if l.state.RecoveryRequired? || l.state.ReadFailed? then l else RequireRecovery(l)
  }

  function RecoveryStarted(l: Lease, r: Reading): Lease {
    if !l.state.RecoveryRequired? then l
    else if r.now == 0 || !ValidRead(r) then l.(state := ReadFailed)
    else if SystemReading(r) then
      l.(recoveryVerified := false, state := VerifyingRecovery,
         observationStarted := r.now, lastSample := r.now, samples := 1)
    else l
  }

  predicate ProofAvailable(l: Lease) {
    && l.state.Stable? && l.recoveryVerified && !l.writePending
    && l.owner == 0 && l.expiresAt == 0
    && l.samples >= REQUIRED_SAMPLES
    && l.lastSample >= l.observationStarted
    && Minus(l.lastSample, l.observationStarted) >= BASELINE_NS
  }

  function TakeProof(l: Lease): Lease {
    if ProofAvailable(l) then l.(recoveryVerified := false) else l
  }

  /** Any call a program can make on a lease, with any arguments. */
  datatype Call =
    | CallClear                            // memset to zero
    | CallStart(intent: Intent, reading: Reading)
    | CallSample(reading: Reading)
    | CallClaim(owner: u64, protocolVerified: bool, intent: Intent, reading: Reading)
    | CallMark(owner: u64, now: u64, intent: Intent)
    | CallPrepare
    | CallRenew(owner: u64, intent: Intent, reading: Reading)
    | CallOwnerLost(owner: u64)
    | CallTick(now: u64)
    | CallSleep
    | CallRecoveryStarted(reading: Reading)
    | CallTakeProof

  function Apply(l: Lease, c: Call): Lease {
    match c
    case CallClear => ZERO
    case CallStart(intent, r) => Start(intent, r)
    case CallSample(r) => Sample(l, r)
    case CallClaim(owner, verified, intent, r) => Claim(l, owner, verified, intent, r)
    case CallMark(owner, now, intent) => Mark(l, owner, now, intent)
    case CallPrepare => Prepare(l)
    case CallRenew(owner, intent, r) => Renew(l, owner, intent, r)
    case CallOwnerLost(owner) => OwnerLost(l, owner)
    case CallTick(now) => Tick(l, now)
    case CallSleep => Sleep(l)
    case CallRecoveryStarted(r) => RecoveryStarted(l, r)
    case CallTakeProof => TakeProof(l)
  }

  /** The boolean the call returns (false for calls that return nothing). */
  predicate Returns(l: Lease, c: Call) {
    match c
    case CallClaim(owner, verified, intent, r) => ClaimGranted(l, owner, verified, intent, r)
    case CallMark(owner, now, intent) => MarkGranted(l, owner, now, intent)
    case CallPrepare => PrepareGranted(l)
    case CallRenew(owner, intent, r) => RenewGranted(l, owner, intent, r)
    case CallTakeProof => ProofAvailable(l)
    case _ => false
  }
}
