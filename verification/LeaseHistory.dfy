/** Safety of the control lease over every history of calls with arbitrary arguments,
    from a zeroed lease on. Indices point into the history, and At(cs, n) is the lease
    before call n.
 */
module LeaseHistory {
  import opened SmcBaseline
  import opened MinuteRule
  import opened LeaseSpec

  function At(cs: seq<Call>, n: nat): Lease
    requires n <= |cs|
  {
    if n == 0 then ZERO else Apply(At(cs, n - 1), cs[n - 1])
  }

  predicate Accepted(cs: seq<Call>, i: nat) {
    i < |cs| && Returns(At(cs, i), cs[i])
  }

  function TimeOf(c: Call): u64 {
    match c
    case CallStart(_, r) => r.now
    case CallSample(r) => r.now
    case CallClaim(_, _, _, r) => r.now
    case CallMark(_, now, _) => now
    case CallRenew(_, _, r) => r.now
    case CallTick(now) => now
    case CallRecoveryStarted(r) => r.now
    case _ => 0
  }

  /** Call i opens an observation: a start with a clear journal, or the first
      system reading after recovery became required.
   */
  predicate Opening(cs: seq<Call>, i: nat)
    requires i < |cs|
  {
    match cs[i]
    case CallStart(intent, r) => intent == Clear && SystemReading(r) && r.now > 0
    case CallRecoveryStarted(r) => At(cs, i).state.RecoveryRequired? && SystemReading(r) && r.now > 0
    case _ => false
  }

  /** Times of the opening reading and of every sample offered after it. */
  function Readings(cs: seq<Call>, first: nat, end: nat): (times: seq<int>)
    requires first < end <= |cs|
    ensures |times| > 0 && times[0] == TimeOf(cs[first])
  {
    if end == first + 1 then [TimeOf(cs[first])]
    else Readings(cs, first, end - 1) + if cs[end - 1].CallSample? then [TimeOf(cs[end - 1])] else []
  }

  /** The observation opened at first is still the current one before call n, and
      every sample in it was a successful system reading taken in time.
   */
  predicate WindowOpen(cs: seq<Call>, first: nat, n: nat) {
    && first < n <= |cs| && Opening(cs, first)
    && (forall k | first < k < n ::
          Undisturbing(cs[k]) && (cs[k].CallSample? ==> SystemReading(cs[k].reading)))
    && Spaced(Readings(cs, first, n))
  }

  /** The call does not by itself end an observation. */
  predicate Undisturbing(c: Call) {
    !c.CallClear? && !c.CallStart? && !c.CallSleep?
  }

  /** A full, gap-free minute of system readings, from call first to call last. */
  predicate CompletedWindow(cs: seq<Call>, first: nat, last: nat) {
    && first < last < |cs| && cs[last].CallSample?
    && WindowOpen(cs, first, last + 1)
    && FullMinute(Readings(cs, first, last + 1))
  }

  // ---------------------------------------------------------------------------
  // A zeroed lease that is used without a start
  // ---------------------------------------------------------------------------

  /** The lease was zeroed before call z. */
  predicate ZeroedAt(cs: seq<Call>, z: nat) {
    z <= |cs| && (z > 0 ==> cs[z - 1].CallClear?)
  }

  /** Time zero, and the times of the samples offered since. */
  function ZeroReadings(cs: seq<Call>, z: nat, end: nat): (times: seq<int>)
    requires z <= end <= |cs|
    ensures |times| > 0 && times[0] == 0
  {
    if end == z then [0]
    else ZeroReadings(cs, z, end - 1) + if cs[end - 1].CallSample? then [TimeOf(cs[end - 1])] else []
  }

  /** A lease zeroed before call z was sampled, without a start, as if a first sample had been taken at time zero. */
  predicate ZeroOpen(cs: seq<Call>, z: nat, n: nat) {
    && z <= n <= |cs| && ZeroedAt(cs, z)
    && (forall k | z <= k < n :: Undisturbing(cs[k]) && (cs[k].CallSample? ==> SystemReading(cs[k].reading)))
    && Spaced(ZeroReadings(cs, z, n))
  }

  /** At least 61 system samples, 0.9 to 5 seconds apart and the first as long after time zero, the last after a minute. */
  predicate ZeroMinute(cs: seq<Call>, z: nat, last: nat) {
    && z <= last < |cs| && cs[last].CallSample? && ZeroOpen(cs, z, last + 1)
    && ZeroFull(ZeroReadings(cs, z, last + 1))
  }

  predicate ZeroFull(times: seq<int>) {
    |times| > REQUIRED_SAMPLES && times[|times| - 1] >= BASELINE_NS
  }

  /** No other observation was opened and no proof was taken after first. */
  predicate Quiet(cs: seq<Call>, first: nat, n: nat)
    requires n <= |cs|
  {
    forall k | first < k < n :: !Opening(cs, k) && !(cs[k].CallTakeProof? && Accepted(cs, k))
  }

  /** A completed window opened by the latest recovery, and not consumed before n. */
  predicate RecoveryWindow(cs: seq<Call>, first: nat, last: nat, n: nat) {
    && last < n <= |cs| && CompletedWindow(cs, first, last)
    && cs[first].CallRecoveryStarted? && Quiet(cs, first, n)
  }

  /** The indices of the claim at k and of the renewals accepted before n. */
  function Links(cs: seq<Call>, k: nat, n: nat): (links: seq<nat>)
    requires k < n <= |cs|
    ensures |links| > 0 && links[0] == k
    ensures forall i | 0 <= i < |links| :: k <= links[i] < n
  {
    if n == k + 1 then [k]
    else Links(cs, k, n - 1) + if cs[n - 1].CallRenew? && Accepted(cs, n - 1) then [n - 1] else []
  }

  function LastLink(cs: seq<Call>, k: nat, n: nat): (j: nat)
    requires k < n <= |cs|
    ensures k <= j < n
  {
    var links := Links(cs, k, n);
    links[|links| - 1]
  }

  /** A write intent was marked between the claim at k and call j. */
  predicate MarkedBetween(cs: seq<Call>, k: nat, j: nat) {
    exists m | k < m < j :: m < |cs| && cs[m].CallMark? && Accepted(cs, m)
  }

  /** One link of the authority chain of the claim at k: a valid cool snapshot,
      system before the write mark and not system after it, by the same owner.
   */
  predicate SoundLink(cs: seq<Call>, k: nat, j: nat)
    requires k < |cs| && cs[k].CallClaim?
  {
    && j < |cs| && (cs[j].CallClaim? || cs[j].CallRenew?)
    && cs[j].owner == cs[k].owner && CoolReading(cs[j].reading)
    && (IsSystem(cs[j].reading.snapshot.value) <==> !MarkedBetween(cs, k, j))
  }

  /** Links[i] may be followed by call j: it came before the fifteen seconds had passed. */
  predicate InLease(cs: seq<Call>, i: nat, j: nat)
    requires i < |cs| && j < |cs|
  {
    TimeOf(cs[i]) <= TimeOf(cs[j]) < TimeOf(cs[i]) + TTL_NS
  }

  /** Sound links, each within the lease of the one before. */
  predicate SoundChain(cs: seq<Call>, k: nat, links: seq<nat>)
    requires k < |cs| && cs[k].CallClaim?
  {
    && (forall i | 0 <= i < |links| :: SoundLink(cs, k, links[i]))
    && (forall i | 0 < i < |links| :: InLease(cs, links[i - 1], links[i]))
  }

  /** The claim at k was accepted at most two seconds after a completed window, or, if the
      lease had never been started, after a minute that it counted from time zero.
   */
  ghost predicate FreshClaim(cs: seq<Call>, k: nat) {
    && k < |cs| && cs[k].CallClaim? && Accepted(cs, k)
    && exists first: nat, last: nat ::
         && (if At(cs, k).observationStarted != 0 then CompletedWindow(cs, first, last) else ZeroMinute(cs, first, last))
         && last < k && TimeOf(cs[last]) <= TimeOf(cs[k]) <= TimeOf(cs[last]) + CLAIM_MAX_AGE_NS
  }

  predicate NoLaterClaim(cs: seq<Call>, k: nat, n: nat)
    requires n <= |cs|
  {
    forall j | k < j < n :: !(cs[j].CallClaim? && Accepted(cs, j))
  }

  /** A renewal at j for the claim at k must be accepted: within the lease, with a cool
      snapshot, and with the journal and the snapshot as the write mark demands.
   */
  predicate RenewalDue(cs: seq<Call>, k: nat, j: nat)
    requires k < j < |cs| && cs[j].CallRenew?
  {
    && InLease(cs, LastLink(cs, k, j), j) && cs[j].reading.now <= U64_MAX - TTL_NS && CoolReading(cs[j].reading)
    && (if MarkedBetween(cs, k, j) then cs[j].intent.Pending? && !IsSystem(cs[j].reading.snapshot.value)
        else cs[j].intent.Clear? && IsSystem(cs[j].reading.snapshot.value))
  }

  /** Call j does not end the authority of the claim at k: the lease is neither restarted
      nor put to sleep, no tick comes when it has expired, its owner is not lost, and what
      its owner asks for is due.
   */
  predicate Leaves(cs: seq<Call>, k: nat, j: nat)
    requires k < j < |cs| && cs[k].CallClaim?
  {
    match cs[j]
    case CallClear => false
    case CallStart(_, _) => false
    case CallSleep => false
    case CallTick(now) => now < TimeOf(cs[LastLink(cs, k, j)]) + TTL_NS
    case CallOwnerLost(owner) => owner != cs[k].owner
    case CallRenew(owner, _, _) => owner == cs[k].owner ==> RenewalDue(cs, k, j)
    case CallMark(owner, _, intent) => owner == cs[k].owner ==> intent.Pending? && InLease(cs, LastLink(cs, k, j), j)
    case _ => true
  }

  /** Nothing has ended the authority of the claim at k before call n. */
  predicate Unchallenged(cs: seq<Call>, k: nat, n: nat)
    requires k < n <= |cs| && cs[k].CallClaim?
  {
    forall j | k < j < n :: Leaves(cs, k, j)
  }

  /** Authority before call n rests on the claim at k and an unbroken chain of renewals. */
  ghost predicate Chain(cs: seq<Call>, k: nat, n: nat) {
    && k < n <= |cs| && cs[k].CallClaim? && FreshClaim(cs, k)
    && NoLaterClaim(cs, k, n) && Unchallenged(cs, k, n)
    && SoundChain(cs, k, Links(cs, k, n))
  }

  // ---------------------------------------------------------------------------
  // The inductive invariant
  // ---------------------------------------------------------------------------

  /** Facts about one lease that need no history. */
  predicate Shape(l: Lease) {
    && (l.owner != 0 <==> l.state.Held?)
    && (if l.state.Held? then l.expiresAt == l.lastSample + TTL_NS else l.expiresAt == 0)
    && (l.state.Observing? || l.state.Stable? ==> !l.writePending)
    && (Watching(l) || l.state.Stable? ==> l.observationStarted <= l.lastSample)
    && (l.recoveryVerified ==> !Watching(l) && !l.state.RecoveryRequired?)
  }

  /** A watching lease mirrors the times of its open window. */
  predicate Mirrors(l: Lease, times: seq<int>) {
    && |times| > 0 && l.samples == |times|
    && l.observationStarted == times[0] && l.lastSample == times[|times| - 1]
    && !FullMinute(times)
  }

  predicate WatchingBy(cs: seq<Call>, first: nat, n: nat)
    requires n <= |cs|
  {
    && WindowOpen(cs, first, n) && Mirrors(At(cs, n), Readings(cs, first, n))
    && (At(cs, n).state.VerifyingRecovery? <==> cs[first].CallRecoveryStarted?)
    && Quiet(cs, first, n)
  }

  /** A zeroed lease mirrors the samples offered to it. */
  predicate ZeroWatchedBy(cs: seq<Call>, z: nat, n: nat)
    requires n <= |cs|
  {
    && ZeroOpen(cs, z, n)
    && var l, times := At(cs, n), ZeroReadings(cs, z, n);
       && l.state.Observing? && l.samples == |times| - 1
       && l.observationStarted == 0 && l.lastSample == times[|times| - 1]
       && !ZeroFull(times)
  }

  predicate ZeroStableBy(cs: seq<Call>, z: nat, last: nat, n: nat)
    requires n <= |cs|
  {
    && last < n && ZeroMinute(cs, z, last)
    && At(cs, n).observationStarted == 0 && At(cs, n).lastSample == TimeOf(cs[last]) && !At(cs, n).recoveryVerified
  }

  predicate StableBy(cs: seq<Call>, first: nat, last: nat, n: nat)
    requires n <= |cs|
  {
    && last < n && CompletedWindow(cs, first, last)
    && At(cs, n).observationStarted == TimeOf(cs[first]) && At(cs, n).lastSample == TimeOf(cs[last])
    && (At(cs, n).recoveryVerified ==> RecoveryWindow(cs, first, last, n))
  }

  ghost predicate HeldBySome(cs: seq<Call>, k: nat, n: nat)
    requires n <= |cs|
  {
    && Chain(cs, k, n)
    && var l := At(cs, n);
    && l.owner == cs[k].owner && l.lastSample == TimeOf(cs[LastLink(cs, k, n)])
    && (l.writePending <==> MarkedBetween(cs, k, n))
  }

  ghost predicate Invariant(cs: seq<Call>, n: nat)
    requires n <= |cs|
  {
    var l := At(cs, n);
    && Shape(l)
    && (Watching(l) ==>
          (exists first: nat :: WatchingBy(cs, first, n)) || (exists z: nat :: ZeroWatchedBy(cs, z, n)))
    && (l.state.Stable? ==>
          || (exists first: nat, last: nat :: StableBy(cs, first, last, n))
          || (exists z: nat, last: nat :: ZeroStableBy(cs, z, last, n)))
    && (l.state.Held? ==> exists k: nat :: HeldBySome(cs, k, n))
  }

  lemma {:induction false} ShapeKept(l: Lease, c: Call)
    requires Shape(l)
    ensures Shape(Apply(l, c))
  {
  }

  /** A call that opens an observation starts a one-reading window. */
  lemma {:induction false} OpeningStartsWindow(cs: seq<Call>, n: nat)
    requires n < |cs| && Opening(cs, n)
    ensures WatchingBy(cs, n, n + 1)
  {
  }

  /** What one call can do to a watching lease. */
  lemma {:induction false} WatchingCall(l: Lease, c: Call)
    requires Shape(l) && Watching(l) && !c.CallStart? && !c.CallClear?
    ensures !Returns(l, c)
    ensures !c.CallSample? && !c.CallSleep? ==> Apply(l, c) == l
    ensures c.CallSleep? ==> Apply(l, c).state.RecoveryRequired?
    ensures var m := Apply(l, c);
            c.CallSample? && (Watching(m) || m.state.Stable?) ==>
              && SystemReading(c.reading) && InTime(l.lastSample, c.reading.now)
              && m.lastSample == c.reading.now && m.observationStarted == l.observationStarted
              && m.samples == Increment(l.samples)
              && if m.samples >= REQUIRED_SAMPLES && c.reading.now - l.observationStarted >= BASELINE_NS
                 then m.state.Stable? && m.recoveryVerified == l.state.VerifyingRecovery?
                 else m.state == l.state
  {
  }

  lemma {:induction false} WindowContinues(cs: seq<Call>, n: nat, first: nat)
    requires n < |cs| && WindowOpen(cs, first, n)
    requires Undisturbing(cs[n]) && !cs[n].CallSample?
    ensures WindowOpen(cs, first, n + 1) && Readings(cs, first, n + 1) == Readings(cs, first, n)
  {
  }

  lemma {:induction false} WindowGrows(cs: seq<Call>, n: nat, first: nat)
    requires n < |cs| && WindowOpen(cs, first, n) && cs[n].CallSample? && SystemReading(cs[n].reading)
    requires var times := Readings(cs, first, n);
             SAMPLE_MIN_NS <= cs[n].reading.now - times[|times| - 1] <= SAMPLE_MAX_NS
    ensures WindowOpen(cs, first, n + 1)
    ensures Readings(cs, first, n + 1) == Readings(cs, first, n) + [cs[n].reading.now]
  {
  }

  /** A watching lease either keeps its window, extends it, completes it or leaves. */
  lemma {:induction false} WatchingStep(cs: seq<Call>, n: nat, first: nat)
    requires n < |cs| && Shape(At(cs, n)) && Watching(At(cs, n)) && WatchingBy(cs, first, n)
    requires !cs[n].CallStart? && !cs[n].CallClear?
    ensures Watching(At(cs, n + 1)) ==> WatchingBy(cs, first, n + 1)
    ensures At(cs, n + 1).state.Stable? ==> StableBy(cs, first, n, n + 1)
  {
    var l, c, m := At(cs, n), cs[n], At(cs, n + 1);
    var times := Readings(cs, first, n);
    hide Apply, Returns;
    WatchingCall(l, c);
    SpanBounds(times);
    if Watching(m) || m.state.Stable? {
      QuietStep(cs, first, n);
      if c.CallSample? {
        WindowGrows(cs, n, first);
      } else {
        WindowContinues(cs, n, first);
      }
    }
  }

  /** What one call can do to a stable lease. */
  lemma {:induction false} StableCall(l: Lease, c: Call)
    requires Shape(l) && l.state.Stable? && !c.CallStart? && !c.CallClear?
    ensures var m := Apply(l, c);
            m.state.Stable? ==>
              && m.lastSample == l.lastSample
              && (m.recoveryVerified ==> l.recoveryVerified && !(c.CallTakeProof? && Returns(l, c)))
    ensures var m := Apply(l, c);
            m.state.Held? ==>
              && c.CallClaim? && Returns(l, c) && m.owner == c.owner && m.lastSample == c.reading.now && !m.writePending
              && l.lastSample <= c.reading.now <= l.lastSample + CLAIM_MAX_AGE_NS
              && CoolReading(c.reading) && SystemReading(c.reading)
    ensures !Watching(Apply(l, c))
  {
  }

  lemma {:induction false} StableStep(cs: seq<Call>, n: nat, first: nat, last: nat)
    requires n < |cs| && Shape(At(cs, n)) && At(cs, n).state.Stable? && StableBy(cs, first, last, n)
    requires !cs[n].CallStart? && !cs[n].CallClear?
    ensures !Watching(At(cs, n + 1))
    ensures At(cs, n + 1).state.Stable? ==> StableBy(cs, first, last, n + 1)
    ensures At(cs, n + 1).state.Held? ==> HeldBySome(cs, n, n + 1)
  {
    var l, c, m := At(cs, n), cs[n], At(cs, n + 1);
    hide Apply, Returns, Links, Chain, FreshClaim, CompletedWindow, MarkedBetween, Opening;
    StableCall(l, c);
    if m.state.Held? {
      ClaimIsFresh(cs, first, last, n);
      ClaimStartsChain(cs, n);
    } else if m.state.Stable? && m.recoveryVerified {
      QuietStep(cs, first, n);
    }
  }

  lemma {:induction false} QuietStep(cs: seq<Call>, first: nat, n: nat)
    requires n < |cs| && Quiet(cs, first, n)
    requires !cs[n].CallStart? && !At(cs, n).state.RecoveryRequired? && !(cs[n].CallTakeProof? && Accepted(cs, n))
    ensures Quiet(cs, first, n + 1)
  {
  }

  lemma {:induction false} ClaimIsFresh(cs: seq<Call>, first: nat, last: nat, n: nat)
    requires n < |cs| && cs[n].CallClaim? && Accepted(cs, n) && last < n
    requires if At(cs, n).observationStarted != 0 then CompletedWindow(cs, first, last) else ZeroMinute(cs, first, last)
    requires TimeOf(cs[last]) <= TimeOf(cs[n]) <= TimeOf(cs[last]) + CLAIM_MAX_AGE_NS
    ensures FreshClaim(cs, n)
  {
  }

  lemma {:induction false} ClaimStartsChain(cs: seq<Call>, n: nat)
    requires n < |cs| && FreshClaim(cs, n) && CoolReading(cs[n].reading) && SystemReading(cs[n].reading)
    ensures Chain(cs, n, n + 1) && Links(cs, n, n + 1) == [n] && !MarkedBetween(cs, n, n + 1)
  {
    assert SoundLink(cs, n, n);
  }

  lemma {:induction false} ZeroContinues(cs: seq<Call>, n: nat, z: nat)
    requires n < |cs| && ZeroOpen(cs, z, n) && Undisturbing(cs[n]) && !cs[n].CallSample?
    ensures ZeroOpen(cs, z, n + 1) && ZeroReadings(cs, z, n + 1) == ZeroReadings(cs, z, n)
  {
  }

  lemma {:induction false} ZeroGrows(cs: seq<Call>, n: nat, z: nat)
    requires n < |cs| && ZeroOpen(cs, z, n) && cs[n].CallSample? && SystemReading(cs[n].reading)
    requires var times := ZeroReadings(cs, z, n);
             SAMPLE_MIN_NS <= cs[n].reading.now - times[|times| - 1] <= SAMPLE_MAX_NS
    ensures ZeroOpen(cs, z, n + 1)
    ensures ZeroReadings(cs, z, n + 1) == ZeroReadings(cs, z, n) + [cs[n].reading.now]
  {
  }

  /** A zeroed lease either goes on counting, completes its minute or leaves. */
  lemma {:induction false} ZeroWatchingStep(cs: seq<Call>, n: nat, z: nat)
    requires n < |cs| && Shape(At(cs, n)) && Watching(At(cs, n)) && ZeroWatchedBy(cs, z, n)
    requires !cs[n].CallStart? && !cs[n].CallClear?
    ensures Watching(At(cs, n + 1)) ==> ZeroWatchedBy(cs, z, n + 1)
    ensures At(cs, n + 1).state.Stable? ==> ZeroStableBy(cs, z, n, n + 1)
  {
    var l, c, m := At(cs, n), cs[n], At(cs, n + 1);
    var times := ZeroReadings(cs, z, n);
    hide Apply, Returns, ZeroOpen, ZeroReadings, Spaced, SystemReading;
    WatchingCall(l, c);
    if Watching(m) || m.state.Stable? {
      ZeroTimes(cs, z, n);
      if c.CallSample? {
        ZeroGrows(cs, n, z);
      } else {
        ZeroContinues(cs, n, z);
      }
    }
  }

  lemma {:induction false} ZeroTimes(cs: seq<Call>, z: nat, n: nat)
    requires ZeroOpen(cs, z, n)
    ensures var times := ZeroReadings(cs, z, n);
            (|times| - 1) * SAMPLE_MIN_NS <= times[|times| - 1]
  {
    SpanBounds(ZeroReadings(cs, z, n));
  }


  lemma {:induction false} ZeroStableStep(cs: seq<Call>, n: nat, z: nat, last: nat)
    requires n < |cs| && Shape(At(cs, n)) && At(cs, n).state.Stable? && ZeroStableBy(cs, z, last, n)
    requires !cs[n].CallStart? && !cs[n].CallClear?
    ensures !Watching(At(cs, n + 1))
    ensures At(cs, n + 1).state.Stable? ==> ZeroStableBy(cs, z, last, n + 1)
    ensures At(cs, n + 1).state.Held? ==> HeldBySome(cs, n, n + 1)
  {
    var l, c, m := At(cs, n), cs[n], At(cs, n + 1);
    hide Apply, Returns, Links, Chain, FreshClaim, ZeroMinute, MarkedBetween, Opening;
    StableCall(l, c);
    if m.state.Held? {
      ClaimIsFresh(cs, z, last, n);
      ClaimStartsChain(cs, n);
    }
  }

  /** What one call can do to a held lease. */
  lemma {:induction false} HeldCall(l: Lease, c: Call)
    requires Shape(l) && l.state.Held? && !c.CallStart? && !c.CallClear?
    ensures var m := Apply(l, c);
            && !Watching(m) && !m.state.Stable?
            && (m.state.Held? ==>
                  && m.owner == l.owner
                  && !(c.CallClaim? && Returns(l, c))
                  && m.writePending == (l.writePending || (c.CallMark? && Returns(l, c)))
                  && m.lastSample == if c.CallRenew? && Returns(l, c) then c.reading.now else l.lastSample)
    ensures c.CallRenew? && Returns(l, c) ==>
              && c.owner == l.owner && l.lastSample <= c.reading.now < l.lastSample + TTL_NS
              && CoolReading(c.reading) && (IsSystem(c.reading.snapshot.value) <==> !l.writePending)
    ensures c.CallMark? && Returns(l, c) ==> c.owner == l.owner && l.lastSample <= c.now < l.lastSample + TTL_NS
    ensures Apply(l, c).state.Held? <==> Endured(l, c)
    ensures c.CallMark? || c.CallRenew? ==> (Returns(l, c) <==> c.owner == l.owner && Endured(l, c))
  {
  }

  /** A held lease stays held. */
  predicate Endured(l: Lease, c: Call) {
    match c
    case CallClear => false
    case CallStart(_, _) => false
    case CallSleep => false
    case CallTick(now) => now < l.lastSample + TTL_NS
    case CallOwnerLost(owner) => owner != l.owner
    case CallRenew(owner, intent, r) =>
      owner == l.owner ==>
        && l.lastSample <= r.now < l.lastSample + TTL_NS && r.now <= U64_MAX - TTL_NS && CoolReading(r)
        && (if l.writePending then intent.Pending? && !IsSystem(r.snapshot.value)
            else intent.Clear? && IsSystem(r.snapshot.value))
    case CallMark(owner, now, intent) => owner == l.owner ==> intent.Pending? && l.lastSample <= now < l.lastSample + TTL_NS
    case _ => true
  }

  /** What a held lease endures is what leaves its claim unchallenged. */
  lemma {:induction false} EnduredLeaves(cs: seq<Call>, k: nat, n: nat)
    requires k < n < |cs| && cs[k].CallClaim?
    requires var l := At(cs, n);
             && l.owner == cs[k].owner && l.lastSample == TimeOf(cs[LastLink(cs, k, n)])
             && (l.writePending <==> MarkedBetween(cs, k, n))
    ensures Endured(At(cs, n), cs[n]) <==> Leaves(cs, k, n)
  {
    hide At, LastLink, MarkedBetween, CoolReading, IsSystem;
  }

  lemma {:induction false} HeldStep(cs: seq<Call>, n: nat, k: nat)
    requires n < |cs| && Shape(At(cs, n)) && At(cs, n).state.Held? && HeldBySome(cs, k, n)
    requires !cs[n].CallStart? && !cs[n].CallClear?
    ensures !Watching(At(cs, n + 1)) && !At(cs, n + 1).state.Stable?
    ensures At(cs, n + 1).state.Held? ==> HeldBySome(cs, k, n + 1)
  {
    var l, c, m := At(cs, n), cs[n], At(cs, n + 1);
    assert m == Apply(l, c) && Accepted(cs, n) == Returns(l, c);
    hide At, Apply, Returns, Links, LastLink, SoundChain, SoundLink, InLease, NoLaterClaim, MarkedBetween, FreshClaim,
      Accepted, Leaves, Endured, Unchallenged, Shape;
    HeldCall(l, c);
    if m.state.Held? {
      EnduredLeaves(cs, k, n);
      UnchallengedStep(cs, k, n);
      MarkedStep(cs, k, n);
      NoClaimStep(cs, k, n);
      LinksStep(cs, k, n);
      if c.CallRenew? && Accepted(cs, n) {
        AuthorityIsSound(cs, k, n);
        LinkAppended(cs, k, n);
      }
    }
  }

  lemma {:induction false} AuthorityIsSound(cs: seq<Call>, k: nat, n: nat)
    requires n < |cs| && Shape(At(cs, n)) && At(cs, n).state.Held? && HeldBySome(cs, k, n)
    requires Accepted(cs, n) && (cs[n].CallRenew? || cs[n].CallMark?)
    ensures cs[n].owner == cs[k].owner != 0 && InLease(cs, LastLink(cs, k, n), n)
    ensures cs[n].CallRenew? ==> SoundLink(cs, k, n)
  {
    hide Apply, Returns, Links, SoundChain, NoLaterClaim, MarkedBetween, FreshClaim, Endured, Leaves;
    HeldCall(At(cs, n), cs[n]);
  }

  lemma {:induction false} UnchallengedStep(cs: seq<Call>, k: nat, n: nat)
    requires k < n < |cs| && cs[k].CallClaim? && Unchallenged(cs, k, n) && Leaves(cs, k, n)
    ensures Unchallenged(cs, k, n + 1)
  {
    hide Leaves;
  }

  lemma {:induction false} MarkedStep(cs: seq<Call>, k: nat, n: nat)
    requires k < n < |cs|
    ensures MarkedBetween(cs, k, n + 1) <==> (MarkedBetween(cs, k, n) || (cs[n].CallMark? && Accepted(cs, n)))
  {
    if MarkedBetween(cs, k, n + 1) {
      var m: nat :| k < m < n + 1 && m < |cs| && cs[m].CallMark? && Accepted(cs, m);
      assert m == n || MarkedBetween(cs, k, n);
    }
  }

  lemma {:induction false} NoClaimStep(cs: seq<Call>, k: nat, n: nat)
    requires n < |cs| && NoLaterClaim(cs, k, n) && !(cs[n].CallClaim? && Accepted(cs, n))
    ensures NoLaterClaim(cs, k, n + 1)
  {
  }

  lemma {:induction false} LinksStep(cs: seq<Call>, k: nat, n: nat)
    requires k < n < |cs|
    ensures Links(cs, k, n + 1) ==
            if cs[n].CallRenew? && Accepted(cs, n) then Links(cs, k, n) + [n] else Links(cs, k, n)
    ensures LastLink(cs, k, n + 1) == if cs[n].CallRenew? && Accepted(cs, n) then n else LastLink(cs, k, n)
  {
  }

  lemma {:induction false} LinkAppended(cs: seq<Call>, k: nat, n: nat)
    requires k < n < |cs| && cs[k].CallClaim? && SoundChain(cs, k, Links(cs, k, n)) && SoundLink(cs, k, n)
    requires InLease(cs, LastLink(cs, k, n), n)
    ensures SoundChain(cs, k, Links(cs, k, n) + [n])
  {
    hide Links, SoundLink, InLease;
  }

  /** What one call can do to a lease that needs recovery or a restart. */
  lemma {:induction false} ClosedCall(l: Lease, c: Call)
    requires Shape(l) && (l.state.RecoveryRequired? || l.state.ReadFailed?) && !c.CallStart? && !c.CallClear?
    ensures var m := Apply(l, c);
            !m.state.Stable? && !m.state.Held? &&
            (Watching(m) ==>
               l.state.RecoveryRequired? && c.CallRecoveryStarted? && SystemReading(c.reading) && c.reading.now > 0)
  {
  }

  lemma {:induction false} StartOnly(l: Lease, c: Call)
    requires c.CallStart?
    ensures var m := Apply(l, c);
            && !m.state.Stable? && !m.state.Held?
            && (Watching(m) ==> c.intent == Clear && SystemReading(c.reading) && c.reading.now > 0)
  {
  }

  lemma {:induction false} ZeroedStep(cs: seq<Call>, n: nat)
    requires n <= |cs| && ZeroedAt(cs, n)
    ensures At(cs, n) == ZERO && ZeroWatchedBy(cs, n, n)
  {
  }

  lemma {:induction false} InvariantStep(cs: seq<Call>, n: nat)
    requires n < |cs| && Invariant(cs, n)
    ensures Invariant(cs, n + 1)
  {
    var l, c, m := At(cs, n), cs[n], At(cs, n + 1);
    ShapeKept(l, c);
    hide WatchingBy, ZeroWatchedBy, StableBy, ZeroStableBy, HeldBySome, Returns;
    if c.CallClear? {
      ZeroedStep(cs, n + 1);
    } else if c.CallStart? {
      StartOnly(l, c);
      if Watching(m) {
        OpeningStartsWindow(cs, n);
      }
    } else if Watching(l) {
      if first: nat :| WatchingBy(cs, first, n) {
        WatchingStep(cs, n, first);
      } else {
        var z: nat :| ZeroWatchedBy(cs, z, n);
        ZeroWatchingStep(cs, n, z);
      }
    } else if l.state.Stable? {
      if first: nat, last: nat :| StableBy(cs, first, last, n) {
        StableStep(cs, n, first, last);
      } else {
        var z: nat, last: nat :| ZeroStableBy(cs, z, last, n);
        ZeroStableStep(cs, n, z, last);
      }
    } else if l.state.Held? {
      var k: nat :| HeldBySome(cs, k, n);
      HeldStep(cs, n, k);
    } else {
      ClosedCall(l, c);
      if Watching(m) {
        OpeningStartsWindow(cs, n);
      }
    }
  }

  lemma {:induction false} InvariantStarts(cs: seq<Call>)
    ensures Invariant(cs, 0)
  {
    hide ZeroWatchedBy;
    ZeroedStep(cs, 0);
  }

  lemma {:induction false} InvariantHolds(cs: seq<Call>, n: nat)
    requires n <= |cs|
    ensures Invariant(cs, n)
  {
    hide Invariant, At, Apply;
    if n == 0 {
      InvariantStarts(cs);
    } else {
      InvariantHolds(cs, n - 1);
      InvariantStep(cs, n - 1);
    }
  }

  // ---------------------------------------------------------------------------
  // Main results
  // ---------------------------------------------------------------------------

  /** A proof can be taken only after a full minute of system readings, observed
      since the latest recovery began and not used by an earlier proof.
   */
  lemma {:induction false} ProofSound(cs: seq<Call>, n: nat)
    requires n < |cs| && cs[n].CallTakeProof? && Accepted(cs, n)
    ensures exists first: nat, last: nat :: RecoveryWindow(cs, first, last, n)
  {
    InvariantHolds(cs, n);
    var first: nat, last: nat :| StableBy(cs, first, last, n);
    assert RecoveryWindow(cs, first, last, n);
  }

  /** Two accepted proofs rest on windows that share no reading. */
  lemma {:induction false} ProofsDisjoint(cs: seq<Call>, m: nat, n: nat)
    requires m < n < |cs|
    requires cs[m].CallTakeProof? && Accepted(cs, m) && cs[n].CallTakeProof? && Accepted(cs, n)
    ensures exists first: nat, last: nat, first': nat, last': nat ::
              RecoveryWindow(cs, first, last, m) && RecoveryWindow(cs, first', last', n) && last < m < first'
  {
    ProofSound(cs, m);
    ProofSound(cs, n);
    var first: nat, last: nat :| RecoveryWindow(cs, first, last, m);
    var first': nat, last': nat :| RecoveryWindow(cs, first', last', n);
    assert m != first' && !(first' < m);
  }

  lemma {:induction false} PendingKept(l: Lease, c: Call)
    requires Shape(l) && l.writePending && !Apply(l, c).writePending
    ensures c.CallClear? || (c.CallStart? && c.intent == Clear) ||
            (l.state.VerifyingRecovery? && c.CallSample? && Apply(l, c).state.Stable?)
  {
  }

  /** Call n is the sample that completes the window of the latest recovery. */
  ghost predicate EndsRecoveryWindow(cs: seq<Call>, n: nat) {
    exists first: nat, last: nat, end: nat :: last == n && end == n + 1 && RecoveryWindow(cs, first, last, end)
  }

  /** A pending write is forgotten only by completing a recovery window, by a restart
      that found the journal clear, or with the whole lease.
   */
  lemma {:induction false} PendingFallsOnlyByRecovery(cs: seq<Call>, n: nat)
    requires n < |cs|
    requires At(cs, n).writePending && !At(cs, n + 1).writePending
    ensures cs[n].CallClear? || (cs[n].CallStart? && cs[n].intent == Clear) || EndsRecoveryWindow(cs, n)
  {
    InvariantHolds(cs, n);
    PendingKept(At(cs, n), cs[n]);
    if !cs[n].CallStart? && !cs[n].CallClear? {
      var first: nat :| WatchingBy(cs, first, n);
      WatchingCall(At(cs, n), cs[n]);
      WatchingStep(cs, n, first);
      assert RecoveryWindow(cs, first, n, n + 1);
    }
  }

  /** Every accepted renewal or write mark comes from the owner of the latest claim,
      within fifteen seconds of the previous link of an unbroken chain, which starts
      at most two seconds after a full minute of system readings, or after what a
      zeroed and never started lease counts as one.
   */
  lemma {:induction false} AuthorityChain(cs: seq<Call>, n: nat)
    requires n < |cs| && Accepted(cs, n) && (cs[n].CallRenew? || cs[n].CallMark?)
    ensures exists k: nat :: Chain(cs, k, n) && cs[k].owner == cs[n].owner != 0 &&
                             InLease(cs, LastLink(cs, k, n), n) && (cs[n].CallRenew? ==> SoundLink(cs, k, n))
  {
    InvariantHolds(cs, n);
    HeldToAuthorize(At(cs, n), cs[n]);
    var k: nat :| HeldBySome(cs, k, n);
    AuthorityIsSound(cs, k, n);
  }

  /** The sample at last completed the observation of a lease that is stable before call n. */
  predicate Completes(cs: seq<Call>, last: nat, n: nat) {
    && last < n <= |cs| && cs[last].CallSample? && Watching(At(cs, last))
    && forall j | last < j <= n :: At(cs, j).state.Stable?
  }

  lemma {:induction false} StableSince(cs: seq<Call>, n: nat) returns (last: nat)
    requires n <= |cs| && At(cs, n).state.Stable?
    ensures Completes(cs, last, n)
  {
    if At(cs, n - 1).state.Stable? {
      last := StableSince(cs, n - 1);
    } else {
      last := n - 1;
    }
  }

  /** A lease that stays stable keeps the times of its observation. */
  lemma {:induction false} StableKeeps(cs: seq<Call>, last: nat, n: nat)
    requires Completes(cs, last, n)
    ensures At(cs, n).observationStarted == At(cs, last).observationStarted && At(cs, n).lastSample == TimeOf(cs[last])
  {
    if n > last + 1 {
      StableKeeps(cs, last, n - 1);
    }
  }

  /** While a window is open, the lease remembers a start. */
  lemma {:induction false} WindowIsStarted(cs: seq<Call>, first: nat, n: nat)
    requires WindowOpen(cs, first, n)
    ensures At(cs, n).observationStarted != 0
  {
    if n > first + 1 {
      WindowShrinks(cs, first, n);
      WindowIsStarted(cs, first, n - 1);
      UndisturbedIsStarted(At(cs, n - 1), cs[n - 1]);
    }
  }

  lemma {:induction false} UndisturbedIsStarted(l: Lease, c: Call)
    requires l.observationStarted != 0 && Undisturbing(c)
    ensures Apply(l, c).observationStarted != 0
  {
  }

  /** The times of the samples offered to a lease since it was zeroed. */
  function OfferedSince(cs: seq<Call>, z: nat, end: nat): seq<int>
    requires z <= end <= |cs|
  {
    ZeroReadings(cs, z, end)[1..]
  }

  /** It counted 61 samples since it was zeroed, as a minute from time zero on; they are
      one exactly if the first of them came a minute before the last.
   */
  predicate ZeroMinuteUpTo(cs: seq<Call>, z: nat, last: nat) {
    && ZeroMinute(cs, z, last)
    && var times := OfferedSince(cs, z, last + 1);
       |times| >= REQUIRED_SAMPLES && (FullMinute(times) <==> TimeOf(cs[last]) - times[0] >= BASELINE_NS)
  }

  lemma {:induction false} ClaimIsTimely(l: Lease, c: Call)
    requires c.CallClaim? && Returns(l, c)
    ensures l.state.Stable? && l.lastSample <= TimeOf(c) <= l.lastSample + CLAIM_MAX_AGE_NS
  {
  }

  /** What a zeroed lease counts as a minute is one exactly if its first sample came a
      minute before its last.
   */
  lemma {:induction false} ZeroMinuteIsFull(cs: seq<Call>, z: nat, last: nat)
    requires ZeroMinute(cs, z, last)
    ensures ZeroMinuteUpTo(cs, z, last)
  {
    var times := ZeroReadings(cs, z, last + 1);
    assert Spaced(times[1..]) by {
      forall k | 0 < k < |times[1..]|
        ensures SAMPLE_MIN_NS <= times[1..][k] - times[1..][k - 1] <= SAMPLE_MAX_NS
      {
        assert times[1..][k] == times[k + 1] && times[1..][k - 1] == times[k];
      }
    }
  }

  /** What a completing sample completes. */
  lemma {:induction false} CompletionRests(cs: seq<Call>, last: nat)
    requires last < |cs| && cs[last].CallSample? && Watching(At(cs, last)) && At(cs, last + 1).state.Stable?
    ensures At(cs, last).observationStarted != 0 <==> exists first: nat :: CompletedWindow(cs, first, last)
    ensures At(cs, last).observationStarted == 0 ==> exists z: nat :: ZeroMinuteUpTo(cs, z, last)
  {
    hide Apply, Readings, ZeroReadings, FullMinute;
    InvariantHolds(cs, last);
    WatchingCall(At(cs, last), cs[last]);
    if first: nat :| WatchingBy(cs, first, last) {
      WatchingStep(cs, last, first);
      WindowIsStarted(cs, first, last);
    } else {
      var z: nat :| ZeroWatchedBy(cs, z, last);
      ZeroWatchingStep(cs, last, z);
      ZeroMinuteIsFull(cs, z, last);
    }
    forall first: nat | CompletedWindow(cs, first, last)
      ensures At(cs, last).observationStarted != 0
    {
      WindowIsStarted(cs, first, last + 1);
    }
  }

  /** Behind every accepted claim there is one sample that made the lease stable, at most
      two seconds before. It completed a full minute of system readings since a start
      exactly if the lease remembers a start; without one, the samples that it counted are
      a full minute exactly if the first of them came a minute before.
   */
  lemma {:induction false} ClaimedMinute(cs: seq<Call>, k: nat)
    requires k < |cs| && cs[k].CallClaim? && Accepted(cs, k)
    ensures exists last: nat :: Completes(cs, last, k)
    ensures forall last: nat | Completes(cs, last, k) ::
              && TimeOf(cs[last]) <= TimeOf(cs[k]) <= TimeOf(cs[last]) + CLAIM_MAX_AGE_NS
              && (At(cs, k).observationStarted != 0 <==> exists first: nat :: CompletedWindow(cs, first, last))
              && (At(cs, k).observationStarted == 0 ==> exists z: nat :: ZeroMinuteUpTo(cs, z, last))
  {
    hide CompletedWindow, ZeroMinute, Readings, At, Apply;
    ClaimIsTimely(At(cs, k), cs[k]);
    var _ := StableSince(cs, k);
    forall last: nat | Completes(cs, last, k)
      ensures TimeOf(cs[last]) <= TimeOf(cs[k]) <= TimeOf(cs[last]) + CLAIM_MAX_AGE_NS
      ensures At(cs, k).observationStarted != 0 <==> exists first: nat :: CompletedWindow(cs, first, last)
      ensures At(cs, k).observationStarted == 0 ==> exists z: nat :: ZeroMinuteUpTo(cs, z, last)
    {
      StableKeeps(cs, last, k);
      CompletionRests(cs, last);
    }
  }

  /** Samples from five seconds after time zero on, 0.92 seconds apart. */
  function LateSample(k: nat): Reading
    requires k <= 61
  {
    Reading(Ok, Some(COOL), 5_000_000_000 + k * 920_000_000)
  }

  /** 61 of them and a claim, on a lease that was only zeroed. */
  function ShortMinute(): (cs: seq<Call>)
    ensures |cs| == 62 && cs[61] == CallClaim(1, true, Clear, LateSample(60))
    ensures forall k | 0 <= k < 61 :: cs[k] == CallSample(LateSample(k))
  {
    seq(61, k requires 0 <= k < 61 => CallSample(LateSample(k))) + [CallClaim(1, true, Clear, LateSample(60))]
  }

  lemma {:induction false} ShortMinuteCounts(n: nat)
    requires n <= 61
    ensures At(ShortMinute(), n) ==
            Lease(if n == 61 then Stable else Observing, 0, 0, 0, if n == 0 then 0 else LateSample(n - 1).now, n, false, false)
  {
    if n > 0 {
      ShortMinuteCounts(n - 1);
      CoolSnapshot();
    }
  }

  /** Without a start, the claim is granted although the readings span less than a minute. */
  lemma {:induction false} UnstartedLeaseIsClaimedEarly()
    ensures Accepted(ShortMinute(), 61) && TimeOf(ShortMinute()[60]) - TimeOf(ShortMinute()[0]) < BASELINE_NS
  {
    ShortMinuteCounts(61);
    CoolSnapshot();
  }

  lemma {:induction false} HeldToAuthorize(l: Lease, c: Call)
    requires Returns(l, c) && (c.CallRenew? || c.CallMark?)
    ensures l.state.Held?
  {
  }

  /** The owner field is set exactly while the lease is held, and then the lease
      expires fifteen seconds after its last sample, without wrapping.
   */
  lemma {:induction false} OwnerOnlyWhileHeld(cs: seq<Call>, n: nat)
    requires n <= |cs|
    ensures Shape(At(cs, n))
  {
    if n > 0 {
      OwnerOnlyWhileHeld(cs, n - 1);
      ShapeKept(At(cs, n - 1), cs[n - 1]);
    }
  }

  /** Bounds that hold without any history. */
  predicate Bounded(l: Lease) {
    Watching(l) ==>
      && l.observationStarted <= l.lastSample
      && (l.samples - 1) * SAMPLE_MIN_NS <= l.lastSample - l.observationStarted
      && (l.samples >= REQUIRED_SAMPLES ==> l.lastSample - l.observationStarted < BASELINE_NS)
  }

  /** In every history, even one that never called start, a watching lease holds at
      most 67 samples and one holding 61 spans less than a minute; the
      subtraction and the increment of the next sample cannot wrap, and neither
      can the expiry of a claim or renewal.
   */
  lemma {:induction false} NothingWraps(cs: seq<Call>, n: nat)
    requires n <= |cs|
    ensures Bounded(At(cs, n))
    ensures var l := At(cs, n);
            Watching(l) ==>
              && l.samples <= 67 && Increment(l.samples) == l.samples + 1
              && forall now: u64 | InTime(l.lastSample, now) ::
                   Minus(now, l.observationStarted) == now - l.observationStarted
    ensures At(cs, n).state.Held? ==> At(cs, n).expiresAt == At(cs, n).lastSample + TTL_NS
  {
    hide Apply;
    OwnerOnlyWhileHeld(cs, n);
    if n > 0 {
      NothingWraps(cs, n - 1);
      OwnerOnlyWhileHeld(cs, n - 1);
      BoundedKept(At(cs, n - 1), cs[n - 1]);
    }
  }

  lemma {:induction false} BoundedKept(l: Lease, c: Call)
    requires Shape(l) && Bounded(l)
    ensures Bounded(Apply(l, c))
  {
    if Watching(l) && !c.CallStart? && !c.CallClear? {
      WatchingCall(l, c);
      hide Apply;
    }
  }

  /** Once authority has ended, it returns only through a new accepted claim. */
  lemma {:induction false} HeldOnlyByClaim(cs: seq<Call>, i: nat, j: nat)
    requires i < j <= |cs| && !At(cs, i).state.Held? && At(cs, j).state.Held?
    ensures exists k :: i <= k < j && cs[k].CallClaim? && Accepted(cs, k)
  {
    if At(cs, j - 1).state.Held? {
      HeldOnlyByClaim(cs, i, j - 1);
    } else {
      assert cs[j - 1].CallClaim? && Accepted(cs, j - 1);
    }
  }

  /** The converse of the invariant: an open window that is not yet full keeps the
      lease watching, whatever other calls are made.
   */
  lemma {:induction false} OpenWindowIsWatched(cs: seq<Call>, first: nat, n: nat)
    requires WindowOpen(cs, first, n)
    requires forall j | first < j <= n :: !FullMinute(Readings(cs, first, j))
    ensures Watching(At(cs, n)) && WatchingBy(cs, first, n)
  {
    if n == first + 1 {
      OpeningStartsWindow(cs, first);
      OpeningWatches(cs, first);
    } else {
      hide Apply, Opening, Returns;
      WindowShrinks(cs, first, n);
      OpenWindowIsWatched(cs, first, n - 1);
      OwnerOnlyWhileHeld(cs, n - 1);
      if cs[n - 1].CallSample? {
        SampleKeepsWatching(cs, first, n - 1);
      } else {
        OtherCallIgnored(At(cs, n - 1), cs[n - 1]);
      }
      WatchingStep(cs, n - 1, first);
    }
  }

  lemma {:induction false} OpeningWatches(cs: seq<Call>, n: nat)
    requires n < |cs| && Opening(cs, n)
    ensures Watching(At(cs, n + 1))
  {
  }

  lemma {:induction false} WindowShrinks(cs: seq<Call>, first: nat, n: nat)
    requires first + 1 < n <= |cs| && WindowOpen(cs, first, n)
    ensures WindowOpen(cs, first, n - 1) && Spaced(Readings(cs, first, n))
    ensures Undisturbing(cs[n - 1])
    ensures var times := Readings(cs, first, n - 1);
            if cs[n - 1].CallSample? then
              && SystemReading(cs[n - 1].reading)
              && Readings(cs, first, n) == times + [cs[n - 1].reading.now]
              && SAMPLE_MIN_NS <= cs[n - 1].reading.now - times[|times| - 1] <= SAMPLE_MAX_NS
            else Readings(cs, first, n) == times
  {
    hide Opening;
    var times, longer := Readings(cs, first, n - 1), Readings(cs, first, n);
    assert times == longer[..|times|];
    if cs[n - 1].CallSample? {
      assert longer == times + [cs[n - 1].reading.now];
      assert longer[|times|] - longer[|times| - 1] == cs[n - 1].reading.now - times[|times| - 1];
    }
  }

  /** A sample that fits an open window is counted, and completes it if it is full. */
  lemma {:induction false} SampleKeepsWatching(cs: seq<Call>, first: nat, n: nat)
    requires first < n < |cs| && cs[n].CallSample? && WindowOpen(cs, first, n + 1)
    requires Watching(At(cs, n)) && Shape(At(cs, n))
    requires Mirrors(At(cs, n), Readings(cs, first, n))
    requires At(cs, n).state.VerifyingRecovery? <==> cs[first].CallRecoveryStarted?
    ensures if FullMinute(Readings(cs, first, n + 1)) then At(cs, n + 1).state.Stable? else Watching(At(cs, n + 1))
    ensures At(cs, n + 1).state.Stable? ==> At(cs, n + 1).recoveryVerified == cs[first].CallRecoveryStarted?
  {
    hide Apply, Opening, WindowOpen, Readings, SystemReading, Spaced, FullMinute, Returns, At, Shape, Mirrors;
    WindowShrinks(cs, first, n + 1);
    AtStep(cs, n);
    SampleCounted(At(cs, n), Readings(cs, first, n), cs[n].reading);
  }

  lemma {:induction false} OtherCallIgnored(l: Lease, c: Call)
    requires Watching(l) && !c.CallSample? && Undisturbing(c)
    requires Shape(l)
    ensures Apply(l, c) == l
  {
  }

  lemma {:induction false} AtStep(cs: seq<Call>, n: nat)
    requires n < |cs|
    ensures At(cs, n + 1) == Apply(At(cs, n), cs[n])
  {
  }

  lemma {:induction false} SampleCounted(l: Lease, times: seq<int>, r: Reading)
    requires Watching(l) && Shape(l) && Mirrors(l, times) && SystemReading(r)
    requires Spaced(times + [r.now])
    requires SAMPLE_MIN_NS <= r.now - times[|times| - 1] <= SAMPLE_MAX_NS
    ensures var m := Apply(l, CallSample(r));
            if FullMinute(times + [r.now]) then m.state.Stable? && m.recoveryVerified == l.state.VerifyingRecovery?
            else Watching(m)
  {
    hide IsSystem;
    assert Spaced(times) by {
      var longer: seq<int> := times + [r.now];
      assert forall k | 0 < k < |times| :: longer[k] - longer[k - 1] == times[k] - times[k - 1];
    }
    SpanBounds(times);
    hide Spaced;
  }

  /** Completeness: the sample that first makes a window a full minute makes the
      lease stable, and earns a proof exactly if recovery opened the window.
   */
  lemma {:induction false} WindowEarnsProof(cs: seq<Call>, first: nat, last: nat)
    requires CompletedWindow(cs, first, last)
    requires forall j | first < j <= last :: !FullMinute(Readings(cs, first, j))
    ensures At(cs, last + 1).state.Stable?
    ensures ProofAvailable(At(cs, last + 1)) <==> cs[first].CallRecoveryStarted?
  {
    if last == first + 1 {
      OpeningWatches(cs, first);
    }
    WindowShrinks(cs, first, last + 1);
    OpenWindowIsWatched(cs, first, last);
    OwnerOnlyWhileHeld(cs, last);
    SampleKeepsWatching(cs, first, last);
    StableIsComplete(At(cs, last), cs[last]);
  }

  lemma {:induction false} StableIsComplete(l: Lease, c: Call)
    requires Shape(l) && Watching(l) && l.observationStarted <= l.lastSample && c.CallSample?
    requires Apply(l, c).state.Stable?
    ensures ProofAvailable(Apply(l, c)) <==> Apply(l, c).recoveryVerified
  {
  }
}
