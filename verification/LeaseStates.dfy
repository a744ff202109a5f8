/** Exactly when the control lease is in each of its states, and exactly when it grants a
    call: by what happened in the history, not by how one call changes the lease.
 */
module LeaseStates {
  import opened SmcBaseline
  import opened MinuteRule
  import opened LeaseSpec
  import opened LeaseHistory

  /** The lease was neither zeroed nor started again after call j. */
  predicate SameRun(cs: seq<Call>, j: nat, n: nat)
    requires n <= |cs|
  {
    forall i | j < i < n :: !cs[i].CallClear? && !cs[i].CallStart?
  }

  // ---------------------------------------------------------------------------
  // Held
  // ---------------------------------------------------------------------------

  /** The claim at k was accepted and nothing has ended its authority before call n. */
  predicate Authority(cs: seq<Call>, k: nat, n: nat) {
    k < n <= |cs| && cs[k].CallClaim? && Accepted(cs, k) && Unchallenged(cs, k, n)
  }

  /** What the lease remembers of the claim at k. */
  predicate Remembers(cs: seq<Call>, k: nat, n: nat) {
    && k < n <= |cs| && cs[k].CallClaim?
    && var l := At(cs, n);
    && l.state.Held? && l.owner == cs[k].owner && l.lastSample == TimeOf(cs[LastLink(cs, k, n)])
    && (l.writePending <==> MarkedBetween(cs, k, n))
  }

  lemma {:induction false} ClaimHolds(l: Lease, c: Call)
    requires c.CallClaim? && Returns(l, c)
    ensures var m := Apply(l, c);
            m.state.Held? && m.owner == c.owner && m.lastSample == c.reading.now && !m.writePending
  {
  }

  lemma {:induction false} AuthorityHolds(cs: seq<Call>, k: nat, n: nat)
    requires Authority(cs, k, n)
    ensures Remembers(cs, k, n)
  {
    if n == k + 1 {
      ClaimHolds(At(cs, k), cs[k]);
    } else {
      hide Apply, Returns, Leaves, MarkedBetween, LastLink, Endured, Accepted;
      var l, c := At(cs, n - 1), cs[n - 1];
      AuthorityHolds(cs, k, n - 1);
      OwnerOnlyWhileHeld(cs, n - 1);
      EnduredLeaves(cs, k, n - 1);
      assert Endured(l, c) && At(cs, n) == Apply(l, c) && Accepted(cs, n - 1) == Returns(l, c) by { Unfolds(cs, n - 1); }
      NotRestarted(l, c);
      HeldCall(l, c);
      MarkedStep(cs, k, n - 1);
      LinksStep(cs, k, n - 1);
    }
  }

  lemma {:induction false} Unfolds(cs: seq<Call>, n: nat)
    requires n < |cs|
    ensures At(cs, n + 1) == Apply(At(cs, n), cs[n]) && Accepted(cs, n) == Returns(At(cs, n), cs[n])
  {
  }

  lemma {:induction false} NotRestarted(l: Lease, c: Call)
    requires Endured(l, c)
    ensures !c.CallStart? && !c.CallClear?
  {
  }

  /** The lease is held exactly if there is a claim whose authority nothing has ended: no
      refused renewal or mark of its owner, no loss of its owner, no tick after it had
      expired, no sleep and no restart. Then it is the owner's, expires fifteen seconds
      after its last link, and knows whether a write was marked.
   */
  lemma {:induction false} HeldExactly(cs: seq<Call>, n: nat)
    requires n <= |cs|
    ensures At(cs, n).state.Held? <==> exists k: nat :: Authority(cs, k, n)
    ensures forall k: nat | Authority(cs, k, n) ::
              Remembers(cs, k, n) && k < n && At(cs, n).expiresAt == TimeOf(cs[LastLink(cs, k, n)]) + 15 * SECOND
  {
    hide At, Remembers, Authority, HeldBySome, LastLink;
    OwnerOnlyWhileHeld(cs, n);
    if At(cs, n).state.Held? {
      InvariantHolds(cs, n);
      var k: nat :| HeldBySome(cs, k, n);
      assert Authority(cs, k, n) by { ChainHasAuthority(cs, k, n); }
    }
    forall k: nat | Authority(cs, k, n)
      ensures k < n && Remembers(cs, k, n) && At(cs, n).state.Held?
      ensures At(cs, n).expiresAt == TimeOf(cs[LastLink(cs, k, n)]) + TTL_NS
    {
      AuthorityHolds(cs, k, n);
      RemembersHeld(cs, k, n);
    }
  }

  lemma {:induction false} RemembersHeld(cs: seq<Call>, k: nat, n: nat)
    requires Authority(cs, k, n) && Remembers(cs, k, n)
    ensures k < n && At(cs, n).state.Held? && At(cs, n).lastSample == TimeOf(cs[LastLink(cs, k, n)])
  {
  }

  lemma {:induction false} ChainHasAuthority(cs: seq<Call>, k: nat, n: nat)
    requires n <= |cs| && HeldBySome(cs, k, n)
    ensures Authority(cs, k, n)
  {
  }

  /** What the owner of the claim at k may ask for with call n, and when. */
  predicate Due(cs: seq<Call>, k: nat, n: nat) {
    && k < n < |cs| && cs[k].CallClaim?
    && match cs[n]
    case CallRenew(owner, _, _) => owner == cs[k].owner && RenewalDue(cs, k, n)
    case CallMark(owner, _, intent) => owner == cs[k].owner && intent.Pending? && InLease(cs, LastLink(cs, k, n), n)
    case CallPrepare => !MarkedBetween(cs, k, n)
    case _ => false
  }

  /** A renewal, a write mark or the preparation of one is granted exactly if it is due
      under the authority of a claim.
   */
  lemma {:induction false} GrantedExactly(cs: seq<Call>, n: nat)
    requires n < |cs| && (cs[n].CallRenew? || cs[n].CallMark? || cs[n].CallPrepare?)
    ensures Accepted(cs, n) <==> exists k: nat :: Authority(cs, k, n) && Due(cs, k, n)
  {
    hide Apply, Authority, Remembers, LastLink, MarkedBetween, RenewalDue, InLease, Returns, At, Accepted;
    HeldExactly(cs, n);
    OwnerOnlyWhileHeld(cs, n);
    Unfolds(cs, n);
    GrantNeedsHeld(At(cs, n), cs[n]);
    forall k: nat | Authority(cs, k, n)
      ensures k < n && cs[k].CallClaim? && (Accepted(cs, n) <==> Due(cs, k, n))
    {
      GrantedUnder(cs, k, n);
    }
  }

  lemma {:induction false} GrantNeedsHeld(l: Lease, c: Call)
    requires c.CallRenew? || c.CallMark? || c.CallPrepare?
    ensures Returns(l, c) ==> l.state.Held?
  {
  }

  lemma {:induction false} GrantedUnder(cs: seq<Call>, k: nat, n: nat)
    requires n < |cs| && Authority(cs, k, n) && (cs[n].CallRenew? || cs[n].CallMark? || cs[n].CallPrepare?)
    ensures k < n && cs[k].CallClaim? && (Accepted(cs, n) <==> Due(cs, k, n))
  {
    hide Apply, LastLink, MarkedBetween, CoolReading, IsSystem, Unchallenged;
    AuthorityHolds(cs, k, n);
    OwnerOnlyWhileHeld(cs, n);
    if !cs[n].CallPrepare? {
      EnduredLeaves(cs, k, n);
      HeldCall(At(cs, n), cs[n]);
    }
  }

  // ---------------------------------------------------------------------------
  // Watching
  // ---------------------------------------------------------------------------

  /** An observation opened at first goes on before call n; its minute is not yet full. */
  predicate Observed(cs: seq<Call>, first: nat, n: nat) {
    WindowOpen(cs, first, n) && !FullMinute(Readings(cs, first, n))
  }

  /** The same of a lease that was only zeroed. */
  predicate ZeroObserved(cs: seq<Call>, z: nat, n: nat) {
    ZeroOpen(cs, z, n) && !ZeroFull(ZeroReadings(cs, z, n))
  }

  /** A full minute stays full. */
  lemma {:induction false} NeverFull(cs: seq<Call>, first: nat, n: nat, j: nat)
    requires WindowOpen(cs, first, n) && first < j <= n && !FullMinute(Readings(cs, first, n))
    ensures WindowOpen(cs, first, j) && !FullMinute(Readings(cs, first, j))
    decreases n - j
  {
    if j < n {
      WindowShrinks(cs, first, n);
      hide WindowOpen, Readings;
      NotFullBefore(Readings(cs, first, n - 1), Readings(cs, first, n));
      NeverFull(cs, first, n - 1, j);
    }
  }

  lemma {:induction false} NotFullBefore(times: seq<int>, longer: seq<int>)
    requires |times| > 0 && Spaced(times) && Spaced(longer) && !FullMinute(longer)
    requires longer == times || (|longer| == |times| + 1 && longer[..|times|] == times)
    ensures !FullMinute(times)
  {
    if |longer| == |times| + 1 {
      assert longer[0] == times[0] && longer[|times| - 1] == times[|times| - 1];
    }
  }

  lemma {:induction false} ObservedIsWatched(cs: seq<Call>, first: nat, n: nat)
    requires Observed(cs, first, n)
    ensures Watching(At(cs, n)) && WatchingBy(cs, first, n)
  {
    hide WatchingBy;
    forall j | first < j <= n
      ensures !FullMinute(Readings(cs, first, j))
    {
      NeverFull(cs, first, n, j);
    }
    OpenWindowIsWatched(cs, first, n);
  }

  lemma {:induction false} ZeroObservedIsWatched(cs: seq<Call>, z: nat, n: nat)
    requires ZeroObserved(cs, z, n)
    ensures ZeroWatchedBy(cs, z, n)
  {
    if n == z {
      ZeroedStep(cs, z);
    } else {
      hide Apply, Returns;
      ZeroShrinks(cs, z, n);
      ZeroObservedIsWatched(cs, z, n - 1);
      OwnerOnlyWhileHeld(cs, n - 1);
      if cs[n - 1].CallSample? {
        ZeroTimes(cs, z, n - 1);
        ZeroSampleCounted(At(cs, n - 1), ZeroReadings(cs, z, n - 1), cs[n - 1].reading);
      } else {
        OtherCallIgnored(At(cs, n - 1), cs[n - 1]);
      }
    }
  }

  lemma {:induction false} ZeroShrinks(cs: seq<Call>, z: nat, n: nat)
    requires z < n && ZeroObserved(cs, z, n)
    ensures ZeroObserved(cs, z, n - 1) && Undisturbing(cs[n - 1])
    ensures var times := ZeroReadings(cs, z, n - 1);
            if cs[n - 1].CallSample? then
              && SystemReading(cs[n - 1].reading)
              && ZeroReadings(cs, z, n) == times + [cs[n - 1].reading.now]
              && SAMPLE_MIN_NS <= cs[n - 1].reading.now - times[|times| - 1] <= SAMPLE_MAX_NS
            else ZeroReadings(cs, z, n) == times
  {
    var times, longer := ZeroReadings(cs, z, n - 1), ZeroReadings(cs, z, n);
    assert times == longer[..|times|];
    if cs[n - 1].CallSample? {
      assert longer == times + [cs[n - 1].reading.now];
      assert longer[|times|] - longer[|times| - 1] == cs[n - 1].reading.now - times[|times| - 1];
    }
  }

  lemma {:induction false} ZeroSampleCounted(l: Lease, times: seq<int>, r: Reading)
    requires l.state.Observing? && Shape(l) && l.samples == |times| - 1 && l.observationStarted == 0
    requires |times| > 0 && l.lastSample == times[|times| - 1] && (|times| - 1) * SAMPLE_MIN_NS <= l.lastSample
    requires SystemReading(r) && SAMPLE_MIN_NS <= r.now - l.lastSample <= SAMPLE_MAX_NS
    requires !ZeroFull(times) && !ZeroFull(times + [r.now])
    ensures var m := Apply(l, CallSample(r));
            m.state.Observing? && m.samples == |times| && m.observationStarted == 0 && m.lastSample == r.now
  {
    hide IsSystem;
  }

  /** The lease watches exactly if an observation is open that is not yet a full minute,
      or a zeroed lease counts what is none from time zero on. It verifies a recovery
      exactly if a recovery opened the observation.
   */
  lemma {:induction false} WatchingExactly(cs: seq<Call>, n: nat)
    requires n <= |cs|
    ensures Watching(At(cs, n)) <==>
            (exists first: nat :: Observed(cs, first, n)) || (exists z: nat :: ZeroObserved(cs, z, n))
    ensures At(cs, n).state.VerifyingRecovery? <==>
            exists first: nat :: Observed(cs, first, n) && cs[first].CallRecoveryStarted?
  {
    hide At, Observed, ZeroObserved, WatchingBy, ZeroWatchedBy;
    InvariantHolds(cs, n);
    forall first: nat | Observed(cs, first, n)
      ensures Watching(At(cs, n)) && first < |cs|
      ensures At(cs, n).state.VerifyingRecovery? <==> cs[first].CallRecoveryStarted?
    {
      ObservedIsWatched(cs, first, n);
      WatchedKind(cs, first, n);
    }
    forall z: nat | ZeroObserved(cs, z, n)
      ensures At(cs, n).state.Observing?
    {
      ZeroObservedIsWatched(cs, z, n);
      ZeroWatchedKind(cs, z, n);
    }
    if Watching(At(cs, n)) {
      if first: nat :| WatchingBy(cs, first, n) {
        WatchedKind(cs, first, n);
        assert Observed(cs, first, n);
      } else {
        var z: nat :| ZeroWatchedBy(cs, z, n);
        ZeroWatchedKind(cs, z, n);
        assert ZeroObserved(cs, z, n);
      }
    }
  }

  lemma {:induction false} WatchedKind(cs: seq<Call>, first: nat, n: nat)
    requires n <= |cs| && WatchingBy(cs, first, n)
    ensures Observed(cs, first, n) && first < |cs|
    ensures At(cs, n).state.VerifyingRecovery? <==> cs[first].CallRecoveryStarted?
  {
  }

  lemma {:induction false} ZeroWatchedKind(cs: seq<Call>, z: nat, n: nat)
    requires n <= |cs| && ZeroWatchedBy(cs, z, n)
    ensures ZeroObserved(cs, z, n) && At(cs, n).state.Observing?
  {
  }

  // ---------------------------------------------------------------------------
  // Stable
  // ---------------------------------------------------------------------------

  /** The sample at last makes the observation opened at first a full minute. */
  predicate FirstFull(cs: seq<Call>, first: nat, last: nat) {
    CompletedWindow(cs, first, last) && !FullMinute(Readings(cs, first, last))
  }

  predicate FirstZeroFull(cs: seq<Call>, z: nat, last: nat) {
    ZeroMinute(cs, z, last) && !ZeroFull(ZeroReadings(cs, z, last))
  }

  ghost predicate MinuteEnds(cs: seq<Call>, last: nat) {
    (exists first: nat :: FirstFull(cs, first, last)) || (exists z: nat :: FirstZeroFull(cs, z, last))
  }

  /** A claim that comes in time, from an owner, with its protocol verified. */
  predicate Timely(latest: u64, owner: u64, verified: bool, now: u64) {
    verified && owner != 0 && now != 0 && latest <= now <= latest + 2 * SECOND && now <= U64_MAX - 15 * SECOND
  }

  /** The call leaves a stable lease stable. */
  predicate Idle(latest: u64, c: Call) {
    match c
    case CallClear => false
    case CallStart(_, _) => false
    case CallSleep => false
    case CallClaim(owner, verified, intent, r) => intent.Clear? && !Timely(latest, owner, verified, r.now)
    case _ => true
  }

  /** A minute ended with the sample at last, and only idle calls were made since. */
  ghost predicate Rested(cs: seq<Call>, last: nat, n: nat) {
    last < n <= |cs| && MinuteEnds(cs, last) && forall j | last < j < n :: Idle(TimeOf(cs[last]), cs[j])
  }

  lemma {:induction false} StableCallExact(l: Lease, c: Call)
    requires l.state.Stable?
    ensures Apply(l, c).state.Stable? <==> Idle(l.lastSample, c)
    ensures Apply(l, c).state.Stable? ==>
              Apply(l, c) == if c.CallTakeProof? && ProofAvailable(l) then l.(recoveryVerified := false) else l
  {
  }

  lemma {:induction false} MinuteMakesStable(cs: seq<Call>, last: nat)
    requires MinuteEnds(cs, last)
    ensures last < |cs| && cs[last].CallSample? && At(cs, last + 1).state.Stable?
    ensures At(cs, last + 1).lastSample == TimeOf(cs[last])
    ensures forall first: nat | FirstFull(cs, first, last) ::
              ProofAvailable(At(cs, last + 1)) <==> cs[first].CallRecoveryStarted?
    ensures (exists z: nat :: FirstZeroFull(cs, z, last)) ==> !At(cs, last + 1).recoveryVerified
  {
    hide At, FullMinute, ZeroFull, WindowOpen, ZeroOpen, ProofAvailable;
    forall first: nat | FirstFull(cs, first, last)
      ensures At(cs, last + 1).state.Stable? && At(cs, last + 1).lastSample == TimeOf(cs[last]) && first < |cs|
      ensures ProofAvailable(At(cs, last + 1)) <==> cs[first].CallRecoveryStarted?
    {
      FullMakesStable(cs, first, last);
    }
    forall z: nat | FirstZeroFull(cs, z, last)
      ensures At(cs, last + 1).state.Stable? && At(cs, last + 1).lastSample == TimeOf(cs[last])
      ensures !At(cs, last + 1).recoveryVerified
    {
      ZeroFullMakesStable(cs, z, last);
    }
  }

  lemma {:induction false} FullMakesStable(cs: seq<Call>, first: nat, last: nat)
    requires FirstFull(cs, first, last)
    ensures At(cs, last + 1).state.Stable? && At(cs, last + 1).lastSample == TimeOf(cs[last])
    ensures ProofAvailable(At(cs, last + 1)) <==> cs[first].CallRecoveryStarted?
  {
    hide FullMinute, Readings, At, Apply, ProofAvailable, Opening;
    if last > first + 1 {
      WindowShrinks(cs, first, last + 1);
    } else {
      OpeningIsWindow(cs, first);
    }
    forall j | first < j <= last
      ensures !FullMinute(Readings(cs, first, j))
    {
      NeverFull(cs, first, last, j);
    }
    WindowEarnsProof(cs, first, last);
    OpenWindowIsWatched(cs, first, last);
    SampleTakesTime(cs, last);
  }

  lemma {:induction false} OpeningIsWindow(cs: seq<Call>, first: nat)
    requires first < |cs| && Opening(cs, first)
    ensures WindowOpen(cs, first, first + 1)
  {
  }

  lemma {:induction false} SampleTakesTime(cs: seq<Call>, n: nat)
    requires n < |cs| && cs[n].CallSample? && Watching(At(cs, n)) && At(cs, n + 1).state.Stable?
    ensures At(cs, n + 1).lastSample == TimeOf(cs[n])
    ensures At(cs, n + 1).recoveryVerified <==> At(cs, n).state.VerifyingRecovery?
  {
  }

  lemma {:induction false} ZeroFullMakesStable(cs: seq<Call>, z: nat, last: nat)
    requires FirstZeroFull(cs, z, last)
    ensures At(cs, last + 1).state.Stable? && At(cs, last + 1).lastSample == TimeOf(cs[last])
    ensures !At(cs, last + 1).recoveryVerified
  {
    hide At, Apply, ZeroReadings, ZeroFull, ZeroOpen, FirstZeroFull, SystemReading;
    ZeroExtends(cs, z, last);
    ZeroObservedIsWatched(cs, z, last);
    OwnerOnlyWhileHeld(cs, last);
    ZeroTimes(cs, z, last);
    ZeroSampleCompletes(At(cs, last), ZeroReadings(cs, z, last), cs[last].reading);
    Unfolds(cs, last);
  }

  lemma {:induction false} ZeroExtends(cs: seq<Call>, z: nat, last: nat)
    requires FirstZeroFull(cs, z, last)
    ensures z <= last < |cs| && cs[last].CallSample? && SystemReading(cs[last].reading) && ZeroObserved(cs, z, last)
    ensures var times := ZeroReadings(cs, z, last);
            && SAMPLE_MIN_NS <= cs[last].reading.now - times[|times| - 1] <= SAMPLE_MAX_NS
            && !ZeroFull(times) && ZeroFull(times + [cs[last].reading.now])
  {
    var times, longer := ZeroReadings(cs, z, last), ZeroReadings(cs, z, last + 1);
    assert longer == times + [cs[last].reading.now];
    assert longer[|times|] - longer[|times| - 1] == cs[last].reading.now - times[|times| - 1];
    assert times == longer[..|times|];
  }

  lemma {:induction false} ZeroSampleCompletes(l: Lease, times: seq<int>, r: Reading)
    requires l.state.Observing? && Shape(l) && l.samples == |times| - 1 && l.observationStarted == 0
    requires |times| > 0 && l.lastSample == times[|times| - 1] && (|times| - 1) * SAMPLE_MIN_NS <= l.lastSample
    requires SystemReading(r) && SAMPLE_MIN_NS <= r.now - l.lastSample <= SAMPLE_MAX_NS
    requires !ZeroFull(times) && ZeroFull(times + [r.now])
    ensures var m := Apply(l, CallSample(r)); m.state.Stable? && m.lastSample == r.now && !m.recoveryVerified
  {
    hide IsSystem;
  }

  lemma {:induction false} RestedIsStable(cs: seq<Call>, last: nat, n: nat)
    requires Rested(cs, last, n)
    ensures At(cs, n).state.Stable? && At(cs, n).lastSample == TimeOf(cs[last])
  {
    hide At, Apply, MinuteEnds, ProofAvailable;
    if n == last + 1 {
      MinuteMakesStable(cs, last);
    } else {
      RestedIsStable(cs, last, n - 1);
      Unfolds(cs, n - 1);
      StableCallExact(At(cs, n - 1), cs[n - 1]);
    }
  }

  lemma {:induction false} StableRests(cs: seq<Call>, n: nat) returns (last: nat)
    requires n <= |cs| && At(cs, n).state.Stable?
    ensures Rested(cs, last, n)
  {
    hide Apply, MinuteEnds, ProofAvailable;
    Unfolds(cs, n - 1);
    if At(cs, n - 1).state.Stable? {
      last := StableRests(cs, n - 1);
      RestedIsStable(cs, last, n - 1);
      StableCallExact(At(cs, n - 1), cs[n - 1]);
    } else {
      last := n - 1;
      MinuteFound(cs, last);
    }
  }

  lemma {:induction false} MinuteFound(cs: seq<Call>, last: nat)
    requires last < |cs| && !At(cs, last).state.Stable? && At(cs, last + 1).state.Stable?
    ensures MinuteEnds(cs, last)
  {
    hide FullMinute, ZeroFull, WindowOpen, ZeroOpen, Readings, ZeroReadings, Quiet;
    InvariantHolds(cs, last);
    OwnerOnlyWhileHeld(cs, last);
    OnlySamplesComplete(At(cs, last), cs[last]);
    if first: nat :| WatchingBy(cs, first, last) {
      WatchingStep(cs, last, first);
      assert FirstFull(cs, first, last);
    } else {
      var z: nat :| ZeroWatchedBy(cs, z, last);
      ZeroWatchingStep(cs, last, z);
      assert FirstZeroFull(cs, z, last);
    }
  }

  lemma {:induction false} OnlySamplesComplete(l: Lease, c: Call)
    requires !l.state.Stable? && Apply(l, c).state.Stable?
    ensures Watching(l) && c.CallSample?
  {
  }

  /** The lease is stable exactly if a minute ended and only idle calls were made since. */
  lemma {:induction false} StableExactly(cs: seq<Call>, n: nat)
    requires n <= |cs|
    ensures At(cs, n).state.Stable? <==> exists last: nat :: Rested(cs, last, n)
  {
    hide At, Rested;
    if At(cs, n).state.Stable? {
      var _ := StableRests(cs, n);
    }
    forall last: nat | Rested(cs, last, n)
      ensures At(cs, n).state.Stable?
    {
      RestedIsStable(cs, last, n);
    }
  }

  /** A claim is granted exactly if it comes in time after a minute, with a clear journal
      and a cool snapshot of system mode.
   */
  lemma {:induction false} ClaimedExactly(cs: seq<Call>, n: nat)
    requires n < |cs| && cs[n].CallClaim?
    ensures Accepted(cs, n) <==>
            && cs[n].intent.Clear? && SystemReading(cs[n].reading) && CoolReading(cs[n].reading)
            && exists last: nat ::
                 Rested(cs, last, n) && Timely(TimeOf(cs[last]), cs[n].owner, cs[n].protocolVerified, cs[n].reading.now)
  {
    hide At, Rested, Apply, SystemReading, CoolReading;
    if Accepted(cs, n) {
      var last := StableRests(cs, n);
      RestedIsStable(cs, last, n);
      RestedBefore(cs, last, n);
    }
    forall last: nat | Rested(cs, last, n)
      ensures last < |cs| && At(cs, n).state.Stable? && At(cs, n).lastSample == TimeOf(cs[last])
    {
      RestedIsStable(cs, last, n);
      RestedBefore(cs, last, n);
    }
  }

  lemma {:induction false} RestedBefore(cs: seq<Call>, last: nat, n: nat)
    requires Rested(cs, last, n)
    ensures last < n <= |cs|
  {
  }

  /** The proof of a recovery opened at first is there: its minute ended with the sample at
      last, only idle calls were made since, and none of them took the proof.
   */
  ghost predicate ProofStands(cs: seq<Call>, first: nat, last: nat, n: nat) {
    && Rested(cs, last, n) && FirstFull(cs, first, last) && cs[first].CallRecoveryStarted?
    && forall j | last < j < n :: !cs[j].CallTakeProof?
  }

  /** A proof can be taken exactly if it stands. */
  lemma {:induction false} ProvenExactly(cs: seq<Call>, n: nat)
    requires n < |cs| && cs[n].CallTakeProof?
    ensures Accepted(cs, n) <==> exists first: nat, last: nat :: ProofStands(cs, first, last, n)
  {
    hide At, Rested, FirstFull, ProofAvailable, ProofStands;
    if Accepted(cs, n) {
      assert At(cs, n).state.Stable? && ProofAvailable(At(cs, n)) by { ProofNeedsStable(cs, n); }
      var last := StableRests(cs, n);
      var first := ProofLasts(cs, last, n);
    }
    forall first: nat, last: nat | ProofStands(cs, first, last, n)
      ensures Accepted(cs, n)
    {
      StandingLasts(cs, first, last, n);
    }
  }

  lemma {:induction false} ProofNeedsStable(cs: seq<Call>, n: nat)
    requires n < |cs| && cs[n].CallTakeProof? && Accepted(cs, n)
    ensures At(cs, n).state.Stable? && ProofAvailable(At(cs, n))
  {
  }

  lemma {:induction false} StandingLasts(cs: seq<Call>, first: nat, last: nat, n: nat)
    requires ProofStands(cs, first, last, n)
    ensures ProofAvailable(At(cs, n))
  {
    hide At, Apply, FirstFull, MinuteEnds, ProofAvailable;
    if n == last + 1 {
      MinuteMakesStable(cs, last);
    } else {
      StandingLasts(cs, first, last, n - 1);
      RestedIsStable(cs, last, n - 1);
      Unfolds(cs, n - 1);
      StableCallExact(At(cs, n - 1), cs[n - 1]);
    }
  }

  lemma {:induction false} ProofLasts(cs: seq<Call>, last: nat, n: nat) returns (first: nat)
    requires Rested(cs, last, n) && ProofAvailable(At(cs, n))
    ensures ProofStands(cs, first, last, n)
  {
    hide At, Apply, FirstFull;
    if n == last + 1 {
      MinuteMakesStable(cs, last);
      first :| FirstFull(cs, first, last);
    } else {
      RestedIsStable(cs, last, n - 1);
      Unfolds(cs, n - 1);
      StableCallExact(At(cs, n - 1), cs[n - 1]);
      first := ProofLasts(cs, last, n - 1);
    }
  }

  lemma {:induction false} ProofArises(l: Lease, c: Call)
    requires Shape(l) && !l.recoveryVerified && Apply(l, c).recoveryVerified
    ensures c.CallSample? && !l.state.Stable? && Apply(l, c).state.Stable?
  {
  }

  lemma {:induction false} PreparedClears(l: Lease, c: Call)
    requires c.CallPrepare? && Returns(l, c)
    ensures !Apply(l, c).recoveryVerified
  {
  }

  /** Preparing a write intent drops an old proof: the flag is set again only by a sample
      that ends a later minute.
   */
  lemma {:induction false} PreparedIsUnproven(cs: seq<Call>, n: nat, m: nat)
    requires n < m <= |cs| && cs[n].CallPrepare? && Accepted(cs, n) && At(cs, m).recoveryVerified
    ensures exists last: nat :: n < last < m && MinuteEnds(cs, last)
  {
    hide At, Apply, Returns, MinuteEnds, Shape, Accepted;
    Unfolds(cs, m - 1);
    Unfolds(cs, n);
    OwnerOnlyWhileHeld(cs, m - 1);
    if m == n + 1 {
      PreparedClears(At(cs, n), cs[n]);
    } else if At(cs, m - 1).recoveryVerified {
      PreparedIsUnproven(cs, n, m - 1);
    } else {
      ProofArises(At(cs, m - 1), cs[m - 1]);
      MinuteFound(cs, m - 1);
    }
  }

  // ---------------------------------------------------------------------------
  // Read failed and recovery required
  // ---------------------------------------------------------------------------

  /** The reading is used and is no reading, or a sample too early or too late. */
  predicate Fails(l: Lease, c: Call) {
    match c
    case CallStart(intent, r) => intent.Clear? && (r.now == 0 || !ValidRead(r))
    case CallSample(r) => Watching(l) && (!ValidRead(r) || !(SAMPLE_MIN_NS <= r.now - l.lastSample <= SAMPLE_MAX_NS))
    case CallClaim(owner, verified, intent, r) =>
      l.state.Stable? && intent.Clear? && Timely(l.lastSample, owner, verified, r.now) && !ValidRead(r)
    case CallRecoveryStarted(r) => l.state.RecoveryRequired? && (r.now == 0 || !ValidRead(r))
    case _ => false
  }

  /** The call shows that the machine may not be in system mode or was not left in peace,
      or that authority has ended.
   */
  predicate Demands(l: Lease, c: Call) {
    match c
    case CallStart(intent, r) => !intent.Clear? || (r.now != 0 && ValidRead(r) && !IsSystem(r.snapshot.value))
    case CallSample(r) =>
      && Watching(l) && ValidRead(r) && SAMPLE_MIN_NS <= r.now - l.lastSample <= SAMPLE_MAX_NS
      && !IsSystem(r.snapshot.value)
    case CallClaim(owner, verified, intent, r) =>
      && l.state.Stable?
      && (!intent.Clear?
          || (Timely(l.lastSample, owner, verified, r.now) && ValidRead(r)
              && !(IsSystem(r.snapshot.value) && CoolEnough(r.snapshot.value))))
    case CallSleep => !l.state.ReadFailed?
    case CallClear => false
    case _ => l.state.Held? && !Endured(l, c)
  }

  /** The call leaves a lease that requires recovery as it is. */
  predicate Waits(c: Call) {
    match c
    case CallClear => false
    case CallStart(_, _) => false
    case CallRecoveryStarted(r) => r.now != 0 && ValidRead(r) && !IsSystem(r.snapshot.value)
    case _ => true
  }

  lemma {:induction false} FailsExactly(l: Lease, c: Call)
    requires Shape(l)
    ensures Apply(l, c).state.ReadFailed? <==> Fails(l, c) || (l.state.ReadFailed? && !c.CallClear? && !c.CallStart?)
  {
    hide IsSystem, CoolEnough;
  }

  lemma {:induction false} DemandsExactly(l: Lease, c: Call)
    requires Shape(l)
    ensures Apply(l, c).state.RecoveryRequired? <==> Demands(l, c) || (l.state.RecoveryRequired? && Waits(c))
  {
    hide IsSystem, CoolEnough;
    if l.state.Held? && !c.CallStart? && !c.CallClear? {
      HeldCall(l, c);
    }
  }

  /** A failed reading at j, after which the lease was neither zeroed nor started. */
  predicate FailedSince(cs: seq<Call>, j: nat, n: nat) {
    j < n <= |cs| && Fails(At(cs, j), cs[j]) && SameRun(cs, j, n)
  }

  /** Recovery has been required since call j: nothing restarted the lease, and recovery
      was never started with a reading of system mode, nor with none.
   */
  predicate DemandedSince(cs: seq<Call>, j: nat, n: nat) {
    j < n <= |cs| && Demands(At(cs, j), cs[j]) && forall i | j < i < n :: Waits(cs[i])
  }

  lemma {:induction false} ReadFailedExactly(cs: seq<Call>, n: nat)
    requires n <= |cs|
    ensures At(cs, n).state.ReadFailed? <==> exists j: nat :: FailedSince(cs, j, n)
  {
    if n > 0 {
      hide Apply, Fails, Returns;
      OwnerOnlyWhileHeld(cs, n - 1);
      Unfolds(cs, n - 1);
      FailsExactly(At(cs, n - 1), cs[n - 1]);
      ReadFailedExactly(cs, n - 1);
      if Fails(At(cs, n - 1), cs[n - 1]) {
        assert FailedSince(cs, n - 1, n);
      } else if At(cs, n).state.ReadFailed? {
        var j: nat :| FailedSince(cs, j, n - 1);
        assert FailedSince(cs, j, n);
      }
      forall j: nat | FailedSince(cs, j, n)
        ensures j == n - 1 || FailedSince(cs, j, n - 1)
      {
      }
    }
  }

  lemma {:induction false} RecoveryRequiredExactly(cs: seq<Call>, n: nat)
    requires n <= |cs|
    ensures At(cs, n).state.RecoveryRequired? <==> exists j: nat :: DemandedSince(cs, j, n)
  {
    if n > 0 {
      hide Apply, Demands, Waits, Returns;
      OwnerOnlyWhileHeld(cs, n - 1);
      Unfolds(cs, n - 1);
      DemandsExactly(At(cs, n - 1), cs[n - 1]);
      RecoveryRequiredExactly(cs, n - 1);
      if Demands(At(cs, n - 1), cs[n - 1]) {
        assert DemandedSince(cs, n - 1, n);
      } else if At(cs, n).state.RecoveryRequired? {
        var j: nat :| DemandedSince(cs, j, n - 1);
        assert DemandedSince(cs, j, n);
      }
      forall j: nat | DemandedSince(cs, j, n)
        ensures j == n - 1 || DemandedSince(cs, j, n - 1)
      {
      }
    }
  }

  // ---------------------------------------------------------------------------
  // A pending write
  // ---------------------------------------------------------------------------

  /** A write was marked, or a start found the journal not clear. */
  predicate MarksPending(cs: seq<Call>, j: nat)
    requires j < |cs|
  {
    (cs[j].CallMark? && Accepted(cs, j)) || (cs[j].CallStart? && !cs[j].intent.Clear?)
  }

  /** The lease was zeroed, or started with a clear journal, or the minute of a recovery ended. */
  ghost predicate ForgetsPending(cs: seq<Call>, i: nat)
    requires i < |cs|
  {
    || cs[i].CallClear? || (cs[i].CallStart? && cs[i].intent.Clear?)
    || exists first: nat :: FirstFull(cs, first, i) && cs[first].CallRecoveryStarted?
  }

  ghost predicate PendingSince(cs: seq<Call>, j: nat, n: nat) {
    j < n <= |cs| && MarksPending(cs, j) && forall i | j < i < n :: !ForgetsPending(cs, i)
  }

  lemma {:induction false} PendingArises(l: Lease, c: Call)
    ensures !l.writePending && Apply(l, c).writePending ==>
              (c.CallMark? && Returns(l, c)) || (c.CallStart? && !c.intent.Clear?)
    ensures (c.CallMark? && Returns(l, c)) || (c.CallStart? && !c.intent.Clear?) ==> Apply(l, c).writePending
    ensures c.CallClear? || (c.CallStart? && c.intent.Clear?) ==> !Apply(l, c).writePending
  {
  }

  lemma {:induction false} ForgottenOnlySo(cs: seq<Call>, n: nat)
    requires n < |cs| && At(cs, n).writePending && !At(cs, n + 1).writePending
    ensures ForgetsPending(cs, n)
  {
    hide Apply, WindowOpen, FullMinute, Readings, CompletedWindow;
    InvariantHolds(cs, n);
    Unfolds(cs, n);
    PendingKept(At(cs, n), cs[n]);
    if !cs[n].CallStart? && !cs[n].CallClear? {
      var first: nat :| WatchingBy(cs, first, n);
      WatchingStep(cs, n, first);
      assert FirstFull(cs, first, n);
    }
  }

  lemma {:induction false} ForgettingForgets(cs: seq<Call>, n: nat)
    requires n < |cs| && ForgetsPending(cs, n)
    ensures !At(cs, n + 1).writePending
  {
    hide At, Apply, CompletedWindow, FullMinute, Readings;
    Unfolds(cs, n);
    PendingArises(At(cs, n), cs[n]);
    if !cs[n].CallClear? && !(cs[n].CallStart? && cs[n].intent.Clear?) {
      MinuteMakesStable(cs, n);
      OwnerOnlyWhileHeld(cs, n + 1);
    }
  }

  lemma {:induction false} PendingStep(cs: seq<Call>, n: nat)
    requires n < |cs|
    ensures At(cs, n + 1).writePending <==> MarksPending(cs, n) || (At(cs, n).writePending && !ForgetsPending(cs, n))
  {
    hide At, Apply, Returns, ForgetsPending;
    Unfolds(cs, n);
    PendingArises(At(cs, n), cs[n]);
    if ForgetsPending(cs, n) {
      ForgettingForgets(cs, n);
    } else if At(cs, n).writePending && !At(cs, n + 1).writePending {
      ForgottenOnlySo(cs, n);
    }
  }

  /** A write is pending exactly if one was marked, or found pending at a start, and it was
      not forgotten since: only by the minute that proves a recovery, by a start that found
      the journal clear, or with the whole lease.
   */
  lemma {:induction false} PendingExactly(cs: seq<Call>, n: nat)
    requires n <= |cs|
    ensures At(cs, n).writePending <==> exists j: nat :: PendingSince(cs, j, n)
  {
    if n > 0 {
      hide At, MarksPending, ForgetsPending;
      PendingExactly(cs, n - 1);
      PendingStep(cs, n - 1);
      if MarksPending(cs, n - 1) {
        assert PendingSince(cs, n - 1, n);
      } else if At(cs, n).writePending {
        var j: nat :| PendingSince(cs, j, n - 1);
        assert PendingSince(cs, j, n);
      }
      forall j: nat | PendingSince(cs, j, n)
        ensures j == n - 1 || (PendingSince(cs, j, n - 1) && !ForgetsPending(cs, n - 1))
      {
      }
    }
  }
}
