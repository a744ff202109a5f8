/** Restoring system mode: the plain procedure, and the one that also releases Ftst. */
module TrialUnlock {
  import opened SmcBaseline
  import opened MinuteRule
  import opened TrialDevice
  import opened TrialRestore

  // ---------------------------------------------------------------------------
  // Retried writes
  // ---------------------------------------------------------------------------

  /** Up to ten attempts at one mode write, all rejected except possibly the last. */
  predicate ModeTries(before: seq<Attempt>, after: seq<Attempt>, fan: nat, mode: Byte, ok: bool) {
    && before <= after && |before| < |after| <= |before| + RESTORE_RETRIES
    && (forall i | |before| <= i < |after| :: after[i].event == WriteMode(fan, mode, ok && i == |after| - 1))
    && (!ok ==> |after| == |before| + RESTORE_RETRIES)
  }

  /** Up to ten attempts at one target write, all rejected except possibly the last. */
  predicate TargetTries(before: seq<Attempt>, after: seq<Attempt>, fan: nat, rpm: Double, ok: bool) {
    && before <= after && |before| < |after| <= |before| + RESTORE_RETRIES
    && (forall i | |before| <= i < |after| :: after[i].event == WriteTarget(fan, rpm, ok && i == |after| - 1))
    && (!ok ==> |after| == |before| + RESTORE_RETRIES)
  }

  /** Nothing was read, and fifty milliseconds passed between any two attempts. */
  predicate Paced(before: seq<Event>, after: seq<Event>) {
    var t, attempts := Counted(before), |Attempts(after)| - |Attempts(before)|;
    attempts > 0 && Counted(after) == t.(waited := t.waited + (attempts - 1) * RESTORE_RETRY_DELAY_MS)
  }

  method RetryMode(b: TrialBackend, fan: nat, mode: Byte) returns (ok: bool)
    modifies b`calls, b`log
    ensures old(b.log) <= b.log && Settled(b.log)
    ensures LatestRead(b.log) == LatestRead(old(b.log)) && Deviations(b.log) == Deviations(old(b.log))
    ensures ModeTries(Attempts(old(b.log)), Attempts(b.log), fan, mode, ok)
    ensures Paced(old(b.log), b.log)
  {
    hide Attempts, LatestRead, Deviations, Run, Counted;
    ok := false;
    ghost var t := Counted(b.log);
    for attempt := 0 to RESTORE_RETRIES
      invariant Counted(b.log) ==
                  t.(waited := t.waited
                     + (if attempt < RESTORE_RETRIES then attempt else RESTORE_RETRIES - 1) * RESTORE_RETRY_DELAY_MS)
      invariant old(b.log) <= b.log && (attempt > 0 ==> Settled(b.log)) && !ok
      invariant LatestRead(b.log) == LatestRead(old(b.log)) && Deviations(b.log) == Deviations(old(b.log))
      invariant Attempts(old(b.log)) <= Attempts(b.log) && |Attempts(b.log)| == |Attempts(old(b.log))| + attempt
      invariant forall i | |Attempts(old(b.log))| <= i < |Attempts(b.log)| ::
                Attempts(b.log)[i].event == WriteMode(fan, mode, false)
    {
      ok := b.AttemptMode(fan, mode);
      if ok {
        return;
      }
      if attempt + 1 < RESTORE_RETRIES {
        var _ := b.WaitMilliseconds(RESTORE_RETRY_DELAY_MS);
      }
    }
  }

  method RetryTarget(b: TrialBackend, fan: nat, rpm: Double) returns (ok: bool)
    modifies b`calls, b`log
    ensures old(b.log) <= b.log && Settled(b.log)
    ensures LatestRead(b.log) == LatestRead(old(b.log)) && Deviations(b.log) == Deviations(old(b.log))
    ensures TargetTries(Attempts(old(b.log)), Attempts(b.log), fan, rpm, ok)
    ensures Paced(old(b.log), b.log)
  {
    hide Attempts, LatestRead, Deviations, Run, Counted;
    ok := false;
    ghost var t := Counted(b.log);
    for attempt := 0 to RESTORE_RETRIES
      invariant Counted(b.log) ==
                  t.(waited := t.waited
                     + (if attempt < RESTORE_RETRIES then attempt else RESTORE_RETRIES - 1) * RESTORE_RETRY_DELAY_MS)
      invariant old(b.log) <= b.log && (attempt > 0 ==> Settled(b.log)) && !ok
      invariant LatestRead(b.log) == LatestRead(old(b.log)) && Deviations(b.log) == Deviations(old(b.log))
      invariant Attempts(old(b.log)) <= Attempts(b.log) && |Attempts(b.log)| == |Attempts(old(b.log))| + attempt
      invariant forall i | |Attempts(old(b.log))| <= i < |Attempts(b.log)| ::
                Attempts(b.log)[i].event == WriteTarget(fan, rpm, false)
    {
      ok := b.AttemptTarget(fan, rpm);
      if ok {
        return;
      }
      if attempt + 1 < RESTORE_RETRIES {
        var _ := b.WaitMilliseconds(RESTORE_RETRY_DELAY_MS);
      }
    }
  }

  // ---------------------------------------------------------------------------
  // restore_system
  // ---------------------------------------------------------------------------

  const RESTORE_CALLBACKS := {CanWriteMode, CanWriteTarget, CanRead, CanWait}

  /** Mode 0, then target 0, were tried for one fan. */
  ghost predicate FanReleased(before: seq<Attempt>, after: seq<Attempt>, fan: nat) {
    exists mid, modeOk, targetOk ::
      ModeTries(before, mid, fan, 0, modeOk) && TargetTries(mid, after, fan, Finite(0.0), targetOk)
  }

  /** Both fans were released, fan 0 first. */
  ghost predicate FansReleased(before: seq<Attempt>, after: seq<Attempt>) {
    exists mid :: FanReleased(before, mid, 0) && FanReleased(mid, after, 1)
  }

  lemma {:induction false} FanReleasedRestores(before: seq<Attempt>, after: seq<Attempt>, fan: nat)
    requires FanReleased(before, after, fan)
    ensures OnlyRestores(before, after, 20)
  {
  }

  lemma {:induction false} RestoresCompose(before: seq<Attempt>, mid: seq<Attempt>, after: seq<Attempt>, m: nat, n: nat)
    requires OnlyRestores(before, mid, m) && OnlyRestores(mid, after, n)
    ensures OnlyRestores(before, after, m + n)
  {
  }

  lemma {:induction false} FansReleasedRestores(before: seq<Attempt>, after: seq<Attempt>)
    requires FansReleased(before, after)
    ensures OnlyRestores(before, after, 40)
  {
    var mid :| FanReleased(before, mid, 0) && FanReleased(mid, after, 1);
    FanReleasedRestores(before, mid, 0);
    FanReleasedRestores(mid, after, 1);
    RestoresCompose(before, mid, after, 20, 20);
  }

  predicate SystemRead(result: Option<Snapshot>) {
    result.Some? && IsSystem(result.value)
  }

  /** Release one fan: mode 0, then target 0, whatever the first one answers. */
  method ReleaseFan(b: TrialBackend, fan: nat)
    modifies b`calls, b`log
    ensures old(b.log) <= b.log && Settled(b.log) && LatestRead(b.log) == LatestRead(old(b.log))
    ensures FanReleased(Attempts(old(b.log)), Attempts(b.log), fan)
    ensures Deviations(b.log) == Deviations(old(b.log))
    ensures Counted(b.log).made == Counted(old(b.log)).made && Counted(b.log).clocks == Counted(old(b.log)).clocks
    ensures Counted(b.log).waited >= Counted(old(b.log)).waited
  {
    hide Attempts, LatestRead, Deviations, Run, Counted;
    var _ := RetryMode(b, fan, 0);
    ghost var mid := Attempts(b.log);
    var _ := RetryTarget(b, fan, Finite(0.0));
  }

  /** The first thing done was a read that did not show system mode; then both fans were
      released, and so many reads followed.
   */
  ghost predicate FansTried(before: seq<Event>, after: seq<Event>, looks: nat) {
    && |before| < |after| && before <= after && after[|before|].Read? && !SystemRead(after[|before|].result)
    && FansReleased(Attempts(before), Attempts(after))
    && Counted(after).made == Counted(before).made + 1 + looks
    && (looks > 0 ==> Counted(after).waited >= Counted(before).waited + (looks - 1) * 1000)
  }

  /** The trace ends in a read, of system mode or not. */
  predicate EndsInRead(log: seq<Event>, system: bool) {
    |log| > 0 && log[|log| - 1].Read? && SystemRead(log[|log| - 1].result) == system
  }

  /** Restoring the fans was given up after both were released and six reads, a second
      apart, showed no system mode.
   */
  ghost predicate SystemStopped(before: seq<Event>, after: seq<Event>) {
    FansTried(before, after, RESTORE_VERIFY_SECONDS + 1) && EndsInRead(after, false)
  }

  /** System mode was there at the first read, or at one of six reads after both fans were released. */
  ghost predicate SystemReached(before: seq<Event>, after: seq<Event>) {
    && EndsInRead(after, true)
    && (after == before + [after[|after| - 1]]
        || exists looks | 0 < looks <= RESTORE_VERIFY_SECONDS + 1 :: FansTried(before, after, looks))
  }

  /** Leaves an SMC already in system mode alone; otherwise releases both fans and
      looks for system mode for five seconds. True means the latest read showed it.
      The ghost result is what the first read found.
   */
  method RestoreSystem(b: TrialBackend) returns (restored: bool, ghost found: Option<Snapshot>)
    modifies b`calls, b`log
    ensures old(b.log) <= b.log && Deviations(old(b.log)) <= Deviations(b.log)
    ensures Counted(b.log).clocks == Counted(old(b.log)).clocks && Counted(b.log).waited >= Counted(old(b.log)).waited
    ensures !(RESTORE_CALLBACKS <= b.callbacks) ==> !restored && b.log == old(b.log)
    ensures RESTORE_CALLBACKS <= b.callbacks ==>
              if restored then SystemReached(old(b.log), b.log) else SystemStopped(old(b.log), b.log)
    ensures RESTORE_CALLBACKS <= b.callbacks ==>
              if SystemRead(found) then restored && Attempts(b.log) == Attempts(old(b.log))
              else FansReleased(Attempts(old(b.log)), Attempts(b.log))
    ensures RESTORE_CALLBACKS <= b.callbacks ==>
              |b.log| > |old(b.log)| && b.log[|old(b.log)|].Read? && b.log[|old(b.log)|].result == found
    ensures restored ==> SystemRead(LatestRead(b.log))
    ensures RESTORE_CALLBACKS <= b.callbacks ==>
              |b.log| > |old(b.log)| && b.log[|b.log| - 1].Read? && restored == SystemRead(b.log[|b.log| - 1].result)
  {
    hide Attempts, LatestRead, Deviations, Run, IsSystem, FanReleased, Counted;
    restored, found := false, None;
    if !(RESTORE_CALLBACKS <= b.callbacks) {
      return;
    }
    var initial := b.ReadObservation(false);
    found := initial;
    if initial.Some? && IsSystem(initial.value) {
      return true, found;
    }
    ReleaseFan(b, 0);
    ghost var mid := Attempts(b.log);
    ReleaseFan(b, 1);
    assert FansReleased(Attempts(old(b.log)), Attempts(b.log));
    ghost var log := b.log;
    hide FansReleased;
    var second := 0;
    while second <= RESTORE_VERIFY_SECONDS
      invariant 0 <= second <= RESTORE_VERIFY_SECONDS + 1 && old(b.log) <= log <= b.log && |log| > |old(b.log)|
      invariant Attempts(b.log) == Attempts(log) && Deviations(old(b.log)) <= Deviations(b.log)
      invariant Counted(b.log).made == Counted(old(b.log)).made + 1 + second
      invariant Counted(b.log).clocks == Counted(old(b.log)).clocks
      invariant Counted(b.log).waited >=
                  Counted(old(b.log)).waited + 1000 * if second <= RESTORE_VERIFY_SECONDS then second else second - 1
      invariant second > RESTORE_VERIFY_SECONDS ==> EndsInRead(b.log, false)
    {
      var observation := b.ReadObservation(false);
      if observation.Some? && IsSystem(observation.value) {
        assert FansTried(old(b.log), b.log, second + 1);
        return true, found;
      }
      if second < RESTORE_VERIFY_SECONDS {
        var _ := b.WaitMilliseconds(1000);
      }
      second := second + 1;
    }
  }

  // ---------------------------------------------------------------------------
  // restore_unlock, phase by phase
  // ---------------------------------------------------------------------------

  /** If fan state is tracked, what this observation shows has been noted. */
  predicate Noticed(tracking: bool, changed: bool, s: Snapshot) {
    tracking && !changed ==> SystemFans(s)
  }

  /** All reads since before were lost: three of them, or fewer and then one succeeded,
      with which the trace ends.
   */
  predicate FirstFound(before: seq<Event>, after: seq<Event>, found: Option<Snapshot>) {
    var t, t' := Counted(before), Counted(after);
    && before < after && Attempts(after) == Attempts(before) && t'.clocks == t.clocks
    && t'.made - t.made == t'.lost - t.lost + (if found.Some? then 1 else 0) <= FTST_RELEASE_RETRIES
    && (found.None? ==> t'.made == t.made + FTST_RELEASE_RETRIES)
    && after[|after| - 1] == Read(false, found)
    && t'.waited == t.waited + (t'.made - t.made - 1) * RESTORE_RETRY_DELAY_MS
  }

  /** The first successful read of at most three. */
  method FirstRead(b: TrialBackend) returns (current: Option<Snapshot>)
    modifies b`calls, b`changed, b`log
    ensures old(b.log) <= b.log && Attempts(b.log) == Attempts(old(b.log)) && AllNoted(b)
    ensures FirstFound(old(b.log), b.log, current)
    ensures current.Some? ==> LatestRead(b.log) == current && Noticed(b.tracking, b.changed, current.value)
    ensures current.None? || !IsSystem(current.value) ==> Troubled(b.log, |old(b.log)|)
  {
    hide Attempts, LatestRead, Deviations, Run, SystemFans, IsSystem, Troubled, Counted;
    current := None;
    ghost var t := Counted(b.log);
    for attempt := 0 to FTST_RELEASE_RETRIES
      invariant attempt > 0 ==> Troubled(b.log, |old(b.log)|)
      invariant old(b.log) <= b.log && Attempts(b.log) == Attempts(old(b.log)) && AllNoted(b) && current.None?
      invariant Counted(b.log).made == t.made + attempt && Counted(b.log).lost == t.lost + attempt
      invariant Counted(b.log).clocks == t.clocks
      invariant Counted(b.log).waited ==
                  t.waited + (if attempt < FTST_RELEASE_RETRIES then attempt else attempt - 1) * RESTORE_RETRY_DELAY_MS
      invariant attempt == FTST_RELEASE_RETRIES ==> |b.log| > |old(b.log)| && b.log[|b.log| - 1] == Read(false, None)
    {
      current := b.ReadObservation(false);
      ghost var at := |b.log| - 1;
      if current.Some? {
        b.NoteFanState(current.value);
        if !IsSystem(current.value) {
          TroubledRead(b.log, |old(b.log)|, at);
        }
        return;
      }
      TroubledRead(b.log, |old(b.log)|, at);
      ghost var log := b.log;
      if attempt + 1 < FTST_RELEASE_RETRIES {
        var _ := b.WaitMilliseconds(RESTORE_RETRY_DELAY_MS);
      }
      TroubledLater(log, b.log, |old(b.log)|, |old(b.log)|);
    }
  }

  /** Mode 0 was tried for a fan in manual mode; any other fan was left alone. */
  predicate ManualFan(before: seq<Attempt>, after: seq<Attempt>, fan: nat, manual: bool, ok: bool) {
    if manual then ModeTries(before, after, fan, 0, ok) else after == before && ok
  }

  /** Both fans were released from manual mode in turn, the second only after the first. */
  ghost predicate ManualReleased(before: seq<Attempt>, after: seq<Attempt>, manual0: bool, manual1: bool, ok: bool) {
    || (!ok && ManualFan(before, after, 0, manual0, false))
    || exists mid :: ManualFan(before, mid, 0, manual0, true) && ManualFan(mid, after, 1, manual1, ok)
  }

  /** Mode 0 for each fan seen in manual mode; fails exactly if one fan rejects it ten times. */
  method ReleaseManualModes(b: TrialBackend, current: Snapshot) returns (ok: bool)
    modifies b`calls, b`log
    ensures old(b.log) <= b.log
    ensures LatestRead(b.log) == LatestRead(old(b.log)) && Deviations(b.log) == Deviations(old(b.log))
    ensures OnlyRestores(Attempts(old(b.log)), Attempts(b.log), 20)
    ensures ManualReleased(Attempts(old(b.log)), Attempts(b.log), current.mode[0] == 1, current.mode[1] == 1, ok)
    ensures NoManualMode(current) ==> ok && b.log == old(b.log)
  {
    hide Attempts, LatestRead, Deviations, Run, Restoring, ModeTries, Paced;
    ghost var before, mid := Attempts(b.log), Attempts(b.log);
    var fan := 0;
    while fan < 2
      invariant 0 <= fan <= 2 && old(b.log) <= b.log
      invariant LatestRead(b.log) == LatestRead(old(b.log)) && Deviations(b.log) == Deviations(old(b.log))
      invariant OnlyRestores(before, Attempts(b.log), 10 * fan)
      invariant fan == 0 ==> Attempts(b.log) == before == mid
      invariant fan > 0 ==> ManualFan(before, mid, 0, current.mode[0] == 1, true)
      invariant fan == 1 ==> Attempts(b.log) == mid
      invariant fan == 2 ==> ManualFan(mid, Attempts(b.log), 1, current.mode[1] == 1, true)
      invariant NoManualMode(current) ==> b.log == old(b.log)
    {
      if current.mode[fan] == 1 {
        ghost var here := Attempts(b.log);
        var released := RetryMode(b, fan, 0);
        TriesRestore(here, Attempts(b.log), fan, released);
        if !released {
          if fan == 0 {
            assert ManualFan(before, Attempts(b.log), 0, true, false);
          } else {
            assert ManualFan(mid, Attempts(b.log), 1, true, false);
          }
          return false;
        }
      }
      if fan == 0 {
        mid := Attempts(b.log);
      }
      fan := fan + 1;
    }
    return true;
  }

  lemma {:induction false} TriesRestore(before: seq<Attempt>, after: seq<Attempt>, fan: nat, ok: bool)
    requires ModeTries(before, after, fan, 0, ok)
    ensures OnlyRestores(before, after, 10)
  {
  }

  predicate HasTarget(rpm: Double) {
    rpm.Finite? && rpm.value > 1.0
  }

  /** A zero target may be written only while the latest read shows Ftst set, both fans
      in mode 0 and a target for this fan: never once a fan is system-owned.
   */
  predicate ZeroAllowed(a: Attempt) {
    && a.event.WriteTarget? && a.event.rpm == Finite(0.0) && a.event.fan < 2
    && a.seen.Some? && a.seen.value.ftst == 1 && BothReleased(a.seen.value) && HasTarget(a.seen.value.target[a.event.fan])
  }

  /** Ftst still holds both fans in mode 0. */
  predicate StillHeld(s: Snapshot) {
    s.ftst == 1 && BothReleased(s) && ModesReleased(s)
  }

  predicate NeedsZero(s: Snapshot) {
    BothReleased(s) && (HasTarget(s.target[0]) || HasTarget(s.target[1]))
  }

  /** What was read and answered while targets were zeroed. */
  datatype Zeros = Zeros(first: Option<Snapshot>, ok0: bool, second: Option<Snapshot>, ok1: bool, last: Option<Snapshot>)

  /** A read, and a zero target for this fan if the read still allows and needs it. */
  function ZeroTurn(fan: nat, seen: Option<Snapshot>, ok: bool): seq<Event>
    requires fan < 2
  {
    [Read(false, seen)]
    + if seen.Some? && StillHeld(seen.value) && HasTarget(seen.value.target[fan])
      then [WriteTarget(fan, Finite(0.0), ok)] else []
  }

  /** One turn for each fan, the second only if the first read allowed it. */
  function ZeroTurns(z: Zeros): seq<Event> {
    ZeroTurn(0, z.first, z.ok0) + if z.first.Some? && StillHeld(z.first.value) then ZeroTurn(1, z.second, z.ok1) else []
  }

  /** Nothing was done if there was no target to zero. Otherwise there were the turns and a
      last read, which must show released fans, and Ftst set if it went well.
   */
  predicate Zeroed(seen: Snapshot, z: Zeros, before: seq<Event>, after: seq<Event>, recorded: bool, ok: bool) {
    if !NeedsZero(seen) then after == before && ok
    else if z.last.None? || !ModesReleased(z.last.value) then after == before + ZeroTurns(z) + [Read(false, z.last)] && !ok
    else
      && after == before + ZeroTurns(z) + [Read(false, z.last)] + (if recorded then [Record(0, z.last.value)] else [])
      && ok == (z.last.value.ftst == 1)
  }

  /** Read, and zero the target of one fan if that is still allowed and needed. */
  method ZeroFan(b: TrialBackend, fan: nat) returns (held: bool, ghost seen: Option<Snapshot>, ghost ok: bool)
    requires fan < 2 && (b.tracking ==> b.changed)
    modifies b`calls, b`changed, b`log
    ensures b.log == old(b.log) + ZeroTurn(fan, seen, ok) && b.changed == old(b.changed)
    ensures held <==> seen.Some? && StillHeld(seen.value)
    ensures Deviations(old(b.log)) <= Deviations(b.log)
    ensures OnlyRestores(Attempts(old(b.log)), Attempts(b.log), 1)
    ensures forall i | |Attempts(old(b.log))| <= i < |Attempts(b.log)| :: ZeroAllowed(Attempts(b.log)[i])
  {
    hide Attempts, LatestRead, Deviations, Run, ModesReleased, Counted;
    seen, ok := None, false;
    var current := b.ReadObservation(false);
    seen := current;
    if current.None? || current.value.ftst != 1 || !BothReleased(current.value) || !ModesReleased(current.value) {
      return false, seen, ok;
    }
    b.NoteFanState(current.value);
    if HasTarget(current.value.target[fan]) {
      var accepted := b.AttemptTarget(fan, Finite(0.0));
      ok := accepted;
    }
    return true, seen, ok;
  }

  lemma {:induction false} ZeroesCompose(before: seq<Attempt>, mid: seq<Attempt>, after: seq<Attempt>)
    requires OnlyRestores(before, mid, 1) && OnlyRestores(mid, after, 1)
    requires forall i | |before| <= i < |mid| :: ZeroAllowed(mid[i])
    requires forall i | |mid| <= i < |after| :: ZeroAllowed(after[i])
    ensures OnlyRestores(before, after, 2) && forall i | |before| <= i < |after| :: ZeroAllowed(after[i])
  {
    hide ZeroAllowed, Restoring;
  }

  /** One zero for each nonzero target while Ftst holds both fans in mode 0, each
      after a fresh read.
   */
  method ZeroBoth(b: TrialBackend) returns (ghost z: Zeros)
    requires b.tracking ==> b.changed
    modifies b`calls, b`changed, b`log
    ensures b.log == old(b.log) + ZeroTurns(z) && b.changed == old(b.changed)
    ensures Deviations(old(b.log)) <= Deviations(b.log)
    ensures OnlyRestores(Attempts(old(b.log)), Attempts(b.log), 2)
    ensures forall i | |Attempts(old(b.log))| <= i < |Attempts(b.log)| :: ZeroAllowed(Attempts(b.log)[i])
  {
    hide Attempts, LatestRead, Deviations, Run, ModesReleased, Counted, ZeroTurn, OnlyRestores, ZeroAllowed;
    z := Zeros(None, false, None, false, None);
    ghost var mid := Attempts(b.log);
    NothingZeroed(mid);
    var fan, held := 0, true;
    while fan < 2 && held
      invariant 0 <= fan <= 2 && b.changed == old(b.changed) && Deviations(old(b.log)) <= Deviations(b.log)
      invariant fan == 0 ==> b.log == old(b.log) && held
      invariant fan == 1 ==>
                  && b.log == old(b.log) + ZeroTurn(0, z.first, z.ok0) && (held <==> z.first.Some? && StillHeld(z.first.value))
                  && Attempts(b.log) == mid
      invariant fan == 2 ==> b.log == old(b.log) + ZeroTurns(z)
      invariant fan < 2 ==>
                  && OnlyRestores(Attempts(old(b.log)), mid, 1)
                  && forall i | |Attempts(old(b.log))| <= i < |mid| :: ZeroAllowed(mid[i])
      invariant fan == 2 ==>
                  && OnlyRestores(Attempts(old(b.log)), Attempts(b.log), 2)
                  && forall i | |Attempts(old(b.log))| <= i < |Attempts(b.log)| :: ZeroAllowed(Attempts(b.log)[i])
    {
      ghost var seen, ok;
      held, seen, ok := ZeroFan(b, fan);
      if fan == 0 {
        z, mid := z.(first := seen, ok0 := ok), Attempts(b.log);
      } else {
        z := z.(second := seen, ok1 := ok);
        ZeroesCompose(Attempts(old(b.log)), mid, Attempts(b.log));
      }
      fan := fan + 1;
    }
    if fan < 2 {
      OneZeroed(Attempts(old(b.log)), mid);
    }
  }

  lemma {:induction false} NothingZeroed(attempts: seq<Attempt>)
    ensures OnlyRestores(attempts, attempts, 1)
  {
  }

  lemma {:induction false} OneZeroed(before: seq<Attempt>, after: seq<Attempt>)
    requires OnlyRestores(before, after, 1)
    ensures OnlyRestores(before, after, 2)
  {
    hide Restoring;
  }

  /** The targets, then a read that must still show Ftst set and fans released. */
  method ZeroTargets(b: TrialBackend, seen: Snapshot) returns (ok: bool, ghost z: Zeros)
    requires LatestRead(b.log) == Some(seen) && seen.ftst == 1 && ModesReleased(seen)
    requires Noticed(b.tracking, b.changed, seen)
    modifies b`calls, b`changed, b`log
    ensures old(b.log) <= b.log && Honest(b)
    ensures Zeroed(seen, z, old(b.log), b.log, CanRecord in b.callbacks, ok)
    ensures OnlyRestores(Attempts(old(b.log)), Attempts(b.log), 2)
    ensures forall i | |Attempts(old(b.log))| <= i < |Attempts(b.log)| :: ZeroAllowed(Attempts(b.log)[i])
    ensures b.tracking && !b.changed ==> Attempts(b.log) == Attempts(old(b.log))
    ensures ok ==>
              AllNoted(b) && LatestRead(b.log).Some? && LatestRead(b.log).value.ftst == 1
                && ModesReleased(LatestRead(b.log).value)
  {
    hide Attempts, LatestRead, Deviations, Run, ModesReleased, Counted, ZeroTurns, ZeroAllowed, OnlyRestores;
    z := Zeros(None, false, None, false, None);
    if !(BothReleased(seen) && (HasTarget(seen.target[0]) || HasTarget(seen.target[1]))) {
      NothingRestored(Attempts(b.log), 2);
      return true, z;
    }
    assert b.tracking ==> b.changed;
    z := ZeroBoth(b);
    var current := b.ReadObservation(false);
    TurnsKeepLast(z, current);
    z := z.(last := current);
    if current.None? || !ModesReleased(current.value) {
      return false, z;
    }
    b.NoteFanState(current.value);
    b.RecordObservation(0, current.value);
    return current.value.ftst == 1, z;
  }

  lemma {:induction false} NothingRestored(attempts: seq<Attempt>, limit: nat)
    ensures OnlyRestores(attempts, attempts, limit)
  {
  }

  lemma {:induction false} TurnsKeepLast(z: Zeros, last: Option<Snapshot>)
    ensures ZeroTurns(z.(last := last)) == ZeroTurns(z)
  {
  }

  /** Watching Ftst after a clear ended with a lost read, a fan no longer released, a
      strange value of Ftst or a failed wait.
   */
  predicate WatchLost(before: seq<Event>, after: seq<Event>) {
    && |after| > |before|
    && var e := after[|after| - 1];
       || (e.Read? && (e.result.None? || !ModesReleased(e.result.value)))
       || e == Wait(1000, false)
       || (Counted(after).made > Counted(before).made && LatestRead(after).Some?
           && LatestRead(after).value.ftst != 0 && LatestRead(after).value.ftst != 1)
  }

  predicate LatestFtst(log: seq<Event>, value: Byte) {
    LatestRead(log).Some? && ModesReleased(LatestRead(log).value) && LatestRead(log).value.ftst == value
  }

  /** So many clears were attempted, and each but the last was watched for ten seconds in vain. */
  predicate ClearsTried(before: seq<Event>, after: seq<Event>, count: nat) {
    && OnlyClears(Attempts(before), Attempts(after), count)
    && |Attempts(after)| == |Attempts(before)| + count > |Attempts(before)|
    && Counted(after).made > Counted(before).made + (count - 1) * FTST_RELEASE_WAIT_SECONDS
    && Counted(after).waited >= Counted(before).waited + (count - 1) * FTST_RELEASE_WAIT_SECONDS * 1000
  }

  /** Ftst was not seen cleared: the watch was lost, or three clears had no effect for ten seconds each. */
  ghost predicate ClearStopped(before: seq<Event>, after: seq<Event>) {
    || (WatchLost(before, after) && exists count | 0 < count <= FTST_RELEASE_RETRIES :: ClearsTried(before, after, count))
    || (ClearsTried(before, after, FTST_RELEASE_RETRIES) && LatestFtst(after, 1)
        && Counted(after).made == Counted(before).made + FTST_RELEASE_RETRIES * FTST_RELEASE_WAIT_SECONDS
        && Counted(after).waited == Counted(before).waited + FTST_RELEASE_RETRIES * FTST_RELEASE_WAIT_SECONDS * 1000)
  }

  ghost predicate ClearDone(before: seq<Event>, after: seq<Event>) {
    LatestFtst(after, 0) && exists count | 0 < count <= FTST_RELEASE_RETRIES :: ClearsTried(before, after, count)
  }

  lemma {:induction false} ReleasedNotManual(s: Snapshot)
    requires ModesReleased(s)
    ensures NoManualMode(s)
  {
  }

  /** At most three times: clear Ftst, then watch it for ten seconds. */
  method ClearFtst(b: TrialBackend) returns (cleared: bool)
    requires LatestRead(b.log).Some? && ModesReleased(LatestRead(b.log).value)
    modifies b`calls, b`changed, b`log
    ensures old(b.log) <= b.log && Honest(b)
    ensures if cleared then ClearDone(old(b.log), b.log) else ClearStopped(old(b.log), b.log)
    ensures OnlyRestores(Attempts(old(b.log)), Attempts(b.log), 3)
    ensures OnlyClears(Attempts(old(b.log)), Attempts(b.log), 3)
    ensures |Attempts(b.log)| > |Attempts(old(b.log))|
    ensures cleared ==> AllNoted(b) && LatestRead(b.log).Some? && LatestRead(b.log).value.ftst == 0
  {
    hide Attempts, LatestRead, Deviations, Run, SystemFans, Counted, ModesReleased;
    cleared := false;
    ghost var t := Counted(b.log);
    var attempt := 0;
    while attempt < FTST_RELEASE_RETRIES && !cleared
      invariant 0 <= attempt <= FTST_RELEASE_RETRIES && old(b.log) <= b.log && AllNoted(b)
      invariant LatestRead(b.log).Some? && ModesReleased(LatestRead(b.log).value)
      invariant OnlyRestores(Attempts(old(b.log)), Attempts(b.log), attempt)
      invariant OnlyClears(Attempts(old(b.log)), Attempts(b.log), attempt)
      invariant |Attempts(b.log)| == |Attempts(old(b.log))| + attempt && (attempt == 0 ==> !cleared)
      invariant if cleared then LatestFtst(b.log, 0) && ClearsTried(old(b.log), b.log, attempt)
                else
                  && Counted(b.log).made == t.made + attempt * FTST_RELEASE_WAIT_SECONDS
                  && Counted(b.log).waited == t.waited + attempt * FTST_RELEASE_WAIT_SECONDS * 1000
      invariant attempt > 0 && !cleared ==> LatestFtst(b.log, 1)
    {
      ReleasedNotManual(LatestRead(b.log).value);
      var _ := b.AttemptFtst(0);
      ghost var log := b.log;
      var ok: bool;
      cleared, ok := WatchRelease(b);
      if !ok {
        assert ClearsTried(old(b.log), b.log, attempt + 1);
        return false;
      }
      attempt := attempt + 1;
    }
  }

  /** Up to ten seconds of reads after a clear; fails on a lost read, a fan no longer
      released, a strange Ftst value or an interrupted wait.
   */
  method WatchRelease(b: TrialBackend) returns (cleared: bool, ok: bool)
    requires LatestRead(b.log).Some? && ModesReleased(LatestRead(b.log).value)
    modifies b`calls, b`changed, b`log
    ensures old(b.log) <= b.log && Attempts(b.log) == Attempts(old(b.log)) && Honest(b)
    ensures ok ==> AllNoted(b) && LatestRead(b.log).Some? && ModesReleased(LatestRead(b.log).value)
    ensures cleared ==> ok && LatestFtst(b.log, 0)
    ensures !ok ==> WatchLost(old(b.log), b.log)
    ensures Counted(b.log).made > Counted(old(b.log)).made && Counted(b.log).waited >= Counted(old(b.log)).waited
    ensures ok && !cleared ==>
              && LatestFtst(b.log, 1)
              && Counted(b.log).made == Counted(old(b.log)).made + FTST_RELEASE_WAIT_SECONDS
              && Counted(b.log).waited == Counted(old(b.log)).waited + FTST_RELEASE_WAIT_SECONDS * 1000
  {
    hide Attempts, LatestRead, Deviations, Run, SystemFans, ModesReleased, Counted;
    ghost var t := Counted(b.log);
    for second := 0 to FTST_RELEASE_WAIT_SECONDS
      invariant old(b.log) <= b.log && Attempts(b.log) == Attempts(old(b.log)) && AllNoted(b)
      invariant LatestRead(b.log).Some? && ModesReleased(LatestRead(b.log).value)
      invariant Counted(b.log).made == t.made + second && Counted(b.log).waited == t.waited + second * 1000
      invariant second > 0 ==> LatestRead(b.log).value.ftst == 1
    {
      var afterWrite := b.ReadObservation(false);
      if afterWrite.None? || !ModesReleased(afterWrite.value) {
        return false, false;
      }
      b.NoteFanState(afterWrite.value);
      b.RecordObservation(second, afterWrite.value);
      if afterWrite.value.ftst == 0 {
        return true, true;
      }
      if afterWrite.value.ftst != 1 {
        return false, false;
      }
      var waited := b.WaitMilliseconds(1000);
      if !waited {
        return false, false;
      }
    }
    return false, true;
  }

  /** No read and no clock value after position p. */
  predicate QuietSince(log: seq<Event>, p: nat) {
    forall q | p < q < |log| :: !log[q].Read? && !log[q].Clock?
  }

  /** The previous timed read ended at position p. */
  predicate EndedAt(log: seq<Event>, previous: Option<real>, from: nat, p: nat) {
    previous.Some? ==> from <= p < |log| && log[p] == Clock(Finite(previous.value)) && QuietSince(log, p)
  }

  /** The trace ends in a timed read that took too long, or did not follow the previous
      timed read since position from in time.
   */
  predicate Untimely(log: seq<Event>, from: nat) {
    && |log| >= from + 3 && log[|log| - 3].Clock? && log[|log| - 2].Read? && log[|log| - 1].Clock?
    && var started, finished := log[|log| - 3].time, log[|log| - 1].time;
       || !ReadTimingValid(started, finished)
       || exists p | from <= p < |log| - 3 ::
            && log[p].Clock? && log[p].time.Finite? && QuietSince(log[..|log| - 3], p)
            && !SampleTimingValid(log[p].time.value, started, finished)
  }

  /** The trace ends in a lost read, or one that shows Ftst set or a fan not released, or
      in an untimely one.
   */
  predicate SettleLost(log: seq<Event>, from: nat) {
    && |log| > from
    && var e := log[|log| - 1];
       || (e.Read? && (e.result.None? || e.result.value.ftst != 0 || !ModesReleased(e.result.value)))
       || Untimely(log, from)
  }

  lemma {:induction false} UntimelyNow(log: seq<Event>, previous: Option<real>, started: Double,
                                       result: Option<Snapshot>,
                                       finished: Double, from: nat, p: nat)
    requires from <= |log| && EndedAt(log, previous, from, p)
    requires !(if previous.Some? then SampleTimingValid(previous.value, started, finished)
               else ReadTimingValid(started, finished))
    ensures Untimely(log + [Clock(started)] + [Read(false, result)] + [Clock(finished)], from)
  {
    var longer := log + [Clock(started)] + [Read(false, result)] + [Clock(finished)];
    assert longer[..|longer| - 3] == log;
    if previous.Some? {
      assert longer[p] == log[p];
    }
  }

  /** A read that is not of system mode ends the run. */
  lemma {:induction false} OtherReadEndsRun(log: seq<Event>, t0: Double, s: Snapshot, t1: Double)
    requires !IsSystem(s)
    ensures Run(log + [Clock(t0)] + [Read(false, Some(s))] + [Clock(t1)]) == []
  {
    hide Run, IsSystem;
    var log1 := log + [Clock(t0)];
    var log2 := log1 + [Read(false, Some(s))];
    Appended(log1, Read(false, Some(s)));
    Appended(log2, Clock(t1));
  }

  /** A read without a clock value after it ends the run. */
  lemma {:induction false} UntimedReadEndsRun(log: seq<Event>, e: Event)
    requires |log| > 0 && log[|log| - 1].Read? && !e.Read? && !e.Clock?
    ensures Run(log + [e]) == []
  {
    hide Run;
    Appended(log, e);
  }

  /** What one timed read, and perhaps its record, leave in the trace. */
  function SettledSecond(second: nat, started: Double, s: Snapshot, finished: Double, recorded: bool): seq<Event> {
    [Clock(started)] + [Read(false, Some(s))] + [Clock(finished)] + if recorded then [Record(second, s)] else []
  }

  lemma {:induction false} SettledSecondEnds(before: seq<Event>, after: seq<Event>, second: nat, started: Double,
                                        s: Snapshot,
                                             finished: Double, recorded: bool)
    requires after == before + SettledSecond(second, started, s, finished, recorded)
    ensures |after| == |before| + 3 + (if recorded then 1 else 0) && before <= after
    ensures after[|before|].Clock? && after[|before| + 1] == Read(false, Some(s))
    ensures after[|before| + 2] == Clock(finished) && QuietSince(after, |before| + 2)
  {
  }

  /** One timed read while waiting for a stable minute; fans must stay released and Ftst clear. */
  method SettleSecond(b: TrialBackend, second: nat, previous: Option<real>, ghost from: nat, ghost p: nat)
    returns (ok: bool, observation: Snapshot, ghost earlier: seq<Sample>, ghost sample: Sample, sampled: real)
    requires previous.Some? ==> Settled(b.log)
    requires from <= |b.log| && EndedAt(b.log, previous, from, p)
    modifies b`calls, b`changed, b`log
    ensures old(b.log) <= b.log && Attempts(b.log) == Attempts(old(b.log)) && Honest(b)
    ensures |b.log| > |old(b.log)|
    ensures !ok ==> SettleLost(b.log, from) && Counted(b.log).clocks <= Counted(old(b.log)).clocks + 2
    ensures ok ==>
              && b.log == old(b.log)
                          + SettledSecond(second, Finite(sample.started), observation, Finite(sampled),
                            CanRecord in b.callbacks)
              && Counted(b.log).clocks == Counted(old(b.log)).clocks + 2
              && Counted(b.log).waited == Counted(old(b.log)).waited
              && Counted(b.log[..|old(b.log)| + 1]).clocks == Counted(old(b.log)).clocks + 1
    ensures ok ==>
              && AllNoted(b) && Settled(b.log) && Noticed(b.tracking, b.changed, observation)
              && LatestRead(b.log) == Some(observation)
              && ReadTimely(sample) && sample.at == |old(b.log)| + 1 && sampled == sample.finished
              && (previous.Some? ==> previous.value <= sample.started && GAP_MIN <= sampled - previous.value <= GAP_MAX)
              && (if IsSystem(observation) then
                    && Run(b.log) == earlier + [sample] && earlier == Run(b.log[..|old(b.log)| + 1])
                    && (previous.Some? ==> earlier == Run(old(b.log)))
                  else Run(b.log) == [])
  {
    hide Attempts, LatestRead, Deviations, Run, SystemFans, ModesReleased, IsSystem, Counted, QuietSince;
    ok, sampled := false, 0.0;
    observation := Snapshot(0, [0, 0], [NaN, NaN], [NaN, NaN], [NaN, NaN, NaN]);
    earlier, sample := [], Sample(0, 0.0, 0.0, observation);
    var readStarted := b.MonotonicSeconds();
    ghost var log := b.log;
    var result := b.ReadObservation(false);
    if result.None? || result.value.ftst != 0 || !ModesReleased(result.value) {
      return;
    }
    observation := result.value;
    var finished := b.MonotonicSeconds();
    if !(if previous.Some? then SampleTimingValid(previous.value, readStarted, finished)
         else ReadTimingValid(readStarted, finished)) {
      UntimelyNow(old(b.log), previous, readStarted, result, finished, from, p);
      return;
    }
    ok, sampled := true, finished.value;
    if IsSystem(observation) {
      TimedReadEnds(old(b.log), readStarted, observation, finished);
    } else {
      OtherReadEndsRun(old(b.log), readStarted, observation, finished);
    }
    earlier := Run(log);
    sample := Sample(|log|, readStarted.value, finished.value, observation);
    b.NoteFanState(observation);
    b.RecordObservation(second, observation);
    assert b.log[..|old(b.log)| + 1] == log;
  }

  /** Only the last n samples of the run were taken since position from. */
  predicate Fresh(run: seq<Sample>, n: nat, from: nat) {
    forall i | 0 <= i < |run| :: run[i].at >= from ==> i + n >= |run|
  }

  lemma {:induction false} NotStableYet(run: seq<Sample>, n: nat, from: nat, first: real, previous: real)
    requires Fresh(run, n, from) && (n > 0 ==> Holds(run, n, from, first, previous))
    requires !(n > FTST_BASELINE_STABLE_SECONDS && previous - first >= MINUTE)
    ensures !StableMinuteSince(run, from)
  {
    hide Lasts, Holds;
    forall i | 0 <= i < |run| && run[i].at >= from
      ensures !Lasts(run[i..], 61, MINUTE)
    {
      if Lasts(run[i..], 61, MINUTE) {
        LongerLasts(run, n, i, from, first, previous);
      }
    }
  }

  lemma {:induction false} LongerLasts(run: seq<Sample>, n: nat, i: nat, from: nat, first: real, previous: real)
    requires n > 0 && Holds(run, n, from, first, previous) && i < |run| <= i + n && Lasts(run[i..], 61, MINUTE)
    ensures n > FTST_BASELINE_STABLE_SECONDS && previous - first >= MINUTE
  {
    var j := |run| - n;
    FinishesInOrder(run[j..], 0, i - j);
    assert run[i..][0] == run[i] && run[j..][0] == run[j] && run[j..][i - j] == run[i];
    assert run[i..][|run| - i - 1] == run[|run| - 1];
  }

  lemma {:induction false} FinishesInOrder(run: seq<Sample>, i: nat, j: nat)
    requires Unbroken(run) && i <= j < |run|
    ensures run[i].finished <= run[j].finished
  {
    if i < j {
      FinishesInOrder(run, i, j - 1);
      assert Follows(run[j - 1], run[j]);
    }
  }

  lemma {:induction false} FreshMore(earlier: seq<Sample>, n: nat, from: nat, s: Sample)
    requires Fresh(earlier, n, from)
    ensures Fresh(earlier + [s], n + 1, from)
  {
  }

  /** No sample of the run is at or after the end of the trace. */
  lemma {:induction false} RunIsPast(log: seq<Event>, n: nat)
    requires n <= |log|
    ensures Fresh(Run(log[..n]), 0, n)
  {
    RunIsConsecutive(log[..n]);
    forall k | 0 <= k < |Run(log[..n])|
      ensures Run(log[..n])[k].at < n
    {
      assert InTrace(log[..n], Run(log[..n])[k]);
    }
  }

  /** The one-shot fallback at the read at position at: with both fans still released,
      system mode was looked for, and unless it was there, both were released again.
   */
  ghost predicate FellBack(before: seq<Event>, after: seq<Event>, at: nat, recorded: bool) {
    && |before| < at < |after| && before <= after && after[at].Read? && after[at].result.Some?
    && Counted(after[..at]).clocks == Counted(before).clocks + 2 * FTST_POST_CLEAR_FALLBACK_SECONDS + 1
    && if BothReleased(after[at].result.value) then
         var next := at + 2 + if recorded then 1 else 0;
         && next < |after| && after[next].Read?
         && if SystemRead(after[next].result) then Attempts(after) == Attempts(before)
            else FansReleased(Attempts(before), Attempts(after))
       else Attempts(after) == Attempts(before)
  }

  lemma {:induction false} FellBackLater(before: seq<Event>, after: seq<Event>, at: nat, recorded: bool,
                                        longer: seq<Event>)
    requires FellBack(before, after, at, recorded) && after <= longer && Attempts(longer) == Attempts(after)
    ensures FellBack(before, longer, at, recorded)
  {
    assert longer[..at] == after[..at];
  }

  /** What became of the fallback: it was not yet its turn, or it was decided at a read. */
  ghost predicate FallbackDecided(before: seq<Event>, after: seq<Event>, eleventh: Option<nat>, recorded: bool) {
    match eleventh
    case None =>
      && Attempts(after) == Attempts(before)
      && (Counted(after).clocks < Counted(before).clocks + 2 * FTST_POST_CLEAR_FALLBACK_SECONDS + 2
          || SettleLost(after, |before|))
    case Some(at) => FellBack(before, after, at, recorded)
  }

  /** The wait for a minute was given up: a timed read was lost, a wait failed, or 91 timed
      reads over ninety seconds hold no stable minute.
   */
  ghost predicate MinuteStopped(before: seq<Event>, after: seq<Event>) {
    && before <= after && |before| < |after|
    && (SettleLost(after, |before|) || after[|after| - 1] == Wait(1000, false)
        || (Counted(after).clocks == Counted(before).clocks + 2 * (FTST_BASELINE_WAIT_SECONDS + 1)
            && Counted(after).waited >= Counted(before).waited + FTST_BASELINE_WAIT_SECONDS * 1000
            && !StableMinuteSince(Run(after), |before|)))
  }

  /** The last n samples of the run are those counted, from the one that ended at first to the previous. */
  predicate Counting(run: seq<Sample>, from: nat, n: nat, first: real, previous: Option<real>) {
    && (n > 0 ==> previous.Some? && Holds(run, n, from, first, previous.value))
    && (previous.Some? ==> Fresh(run, n, from))
  }

  /** Before a timed read: the previous one ended at p, or there is none to follow. */
  ghost predicate ReadyToCount(before: seq<Event>, log: seq<Event>, n: nat, first: real, previous: Option<real>,
                               p: nat) {
    && before <= log && Counting(Run(log), |before|, n, first, previous) && EndedAt(log, previous, |before|, p)
    && if previous.Some? then Settled(log) else log == before || (Run(log) == [] && Settled(log))
  }

  lemma {:induction false} CountedSystem(before: seq<Event>, turn: seq<Event>, log: seq<Event>, n: nat, first: real,
                                         previous: Option<real>, p: nat, earlier: seq<Sample>, sample: Sample)
    requires ReadyToCount(before, turn, n, first, previous, p) && turn < log && log[|turn|].Clock?
    requires earlier == Run(log[..|turn| + 1]) && (previous.Some? ==> earlier == Run(turn))
    requires Run(log) == earlier + [sample]
    requires ReadTimely(sample) && sample.at >= |before|
    requires previous.Some? ==>
              previous.value <= sample.started && GAP_MIN <= sample.finished - previous.value <= GAP_MAX
    ensures Counting(Run(log), |before|, n + 1, if n == 0 then sample.finished else first, Some(sample.finished))
  {
    hide Run, Holds, ReadTimely;
    FreshBefore(before, turn, log, previous, earlier, n);
    HoldsMore(earlier, n, |before|, first, previous.GetOr(0.0), sample);
    FreshMore(earlier, n, |before|, sample);
  }

  /** One timed read, counted if it shows system mode. */
  method CountSecond(b: TrialBackend, second: nat, n: nat, first: real, previous: Option<real>,
                     ghost before: seq<Event>,
                     ghost p: nat)
    returns (ok: bool, observation: Snapshot, samples: nat, start: real, sampled: real, ghost started: Double)
    requires ReadyToCount(before, b.log, n, first, previous, p)
    modifies b`calls, b`changed, b`log
    ensures old(b.log) < b.log && Attempts(b.log) == Attempts(old(b.log)) && Honest(b)
    ensures !ok ==> SettleLost(b.log, |before|) && Counted(b.log).clocks <= Counted(old(b.log)).clocks + 2
    ensures ok ==>
              && b.log == old(b.log)
                          + SettledSecond(second, started, observation, Finite(sampled), CanRecord in b.callbacks)
              && Counted(b.log).clocks == Counted(old(b.log)).clocks + 2
              && Counted(b.log).waited == Counted(old(b.log)).waited
              && Counted(b.log[..|old(b.log)| + 1]).clocks == Counted(old(b.log)).clocks + 1
    ensures ok ==>
              && AllNoted(b) && Noticed(b.tracking, b.changed, observation) && samples <= n + 1
              && (samples == 0 || start == if n == 0 then sampled else first)
              && ReadyToCount(before, b.log, samples, start, Some(sampled), |old(b.log)| + 2)
  {
    hide Attempts, LatestRead, Deviations, Run, SystemFans, IsSystem, Holds, ReadTimely, Noticed, Counted, SettleLost,
      Fresh,
      SettledSecond, EndedAt, Counting;
    samples, start := 0, first;
    ghost var earlier, sample;
    PreviousIsSettled(before, b.log, n, first, previous, p);
    ok, observation, earlier, sample, sampled := SettleSecond(b, second, previous, |before|, p);
    started := Finite(sample.started);
    if !ok {
      return;
    }
    SettledSecondEnds(old(b.log), b.log, second, started, observation, Finite(sampled), CanRecord in b.callbacks);
    EndedNow(b.log, sampled, |before|, |old(b.log)| + 2);
    if IsSystem(observation) {
      CountedSystem(before, old(b.log), b.log, n, first, previous, p, earlier, sample);
      samples, start := n + 1, if n == 0 then sampled else first;
    } else {
      CountedOther(b.log, |before|, first, sampled);
    }
  }

  lemma {:induction false} PreviousIsSettled(before: seq<Event>, log: seq<Event>, n: nat, first: real,
                                        previous: Option<real>,
                                             p: nat)
    requires ReadyToCount(before, log, n, first, previous, p)
    ensures (previous.Some? ==> Settled(log)) && before <= log && EndedAt(log, previous, |before|, p)
  {
  }

  lemma {:induction false} CountedOther(log: seq<Event>, from: nat, first: real, sampled: real)
    requires Run(log) == []
    ensures Counting(Run(log), from, 0, first, Some(sampled))
  {
  }

  /** After ten seconds, with both fans still released, restore once and start over. */
  method FallBackIf(b: TrialBackend, observation: Snapshot, ghost before: seq<Event>, ghost turn: seq<Event>,
                    ghost second: nat, ghost started: Double, ghost finished: Double)
    returns (again: bool)
    requires RESTORE_CALLBACKS <= b.callbacks && Noticed(b.tracking, b.changed, observation)
    requires before < turn && Attempts(b.log) == Attempts(before)
    requires b.log == turn + SettledSecond(second, started, observation, finished, CanRecord in b.callbacks)
    requires Counted(b.log[..|turn| + 1]).clocks == Counted(before).clocks + 2 * FTST_POST_CLEAR_FALLBACK_SECONDS + 1
    modifies b`calls, b`log
    ensures old(b.log) <= b.log && Deviations(old(b.log)) <= Deviations(b.log)
    ensures OnlyRestores(Attempts(before), Attempts(b.log), 40) && (again && b.tracking ==> b.changed)
    ensures FellBack(before, b.log, |turn| + 1, CanRecord in b.callbacks)
    ensures if again then |b.log| > 0 && b.log[|b.log| - 1].Read? else b.log == old(b.log)
    ensures Counted(b.log).clocks == Counted(old(b.log)).clocks && Counted(b.log).waited >= Counted(old(b.log)).waited
  {
    hide Attempts, LatestRead, Deviations, Run, Counted, FellBack, SettledSecond, BothReleased, Noticed, OnlyRestores,
      FansReleased;
    again := BothReleased(observation);
    if again {
      ReleasedIsNoticed(b.tracking, b.changed, observation);
      FallBack(b);
      FellBackNow(before, turn, old(b.log), b.log, second, started, observation, finished, CanRecord in b.callbacks);
    } else {
      NothingRestores(Attempts(b.log));
      FellBackNot(before, turn, b.log, second, started, observation, finished, CanRecord in b.callbacks);
    }
  }

  /** What the trace shows before a second of the wait, apart from the samples counted. */
  ghost predicate Waiting(before: seq<Event>, log: seq<Event>, second: nat, eleventh: Option<nat>, recorded: bool) {
    && before <= log && (second == 0 <==> log == before)
    && Counted(log).clocks == Counted(before).clocks + 2 * second
    && Counted(log).waited >= Counted(before).waited + 1000 * second
    && OnlyRestores(Attempts(before), Attempts(log), 40)
    && if second <= FTST_POST_CLEAR_FALLBACK_SECONDS then eleventh.None? && Attempts(log) == Attempts(before)
       else eleventh.Some? && FellBack(before, log, eleventh.value, recorded)
  }

  /** The same after that second's read, and after the fallback if it was its turn. */
  ghost predicate Watched(before: seq<Event>, log: seq<Event>, second: nat, eleventh: Option<nat>, recorded: bool) {
    && before < log
    && Counted(log).clocks == Counted(before).clocks + 2 * second + 2
    && Counted(log).waited >= Counted(before).waited + 1000 * second
    && OnlyRestores(Attempts(before), Attempts(log), 40)
    && if second < FTST_POST_CLEAR_FALLBACK_SECONDS then eleventh.None? && Attempts(log) == Attempts(before)
       else eleventh.Some? && FellBack(before, log, eleventh.value, recorded)
  }

  lemma {:induction false} WaitBegins(log: seq<Event>, p: nat, recorded: bool)
    ensures Waiting(log, log, 0, None, recorded) && ReadyToCount(log, log, 0, 0.0, None, p)
  {
    hide Run, Counted, Attempts;
    NothingRestores(Attempts(log));
  }

  lemma {:induction false} LostNow(before: seq<Event>, turn: seq<Event>, log: seq<Event>, second: nat,
                                   eleventh: Option<nat>,
                                   recorded: bool)
    requires Waiting(before, turn, second, eleventh, recorded) && turn < log && Attempts(log) == Attempts(turn)
    requires SettleLost(log, |before|) && Counted(log).clocks <= Counted(turn).clocks + 2
    ensures MinuteStopped(before, log) && FallbackDecided(before, log, eleventh, recorded)
    ensures OnlyRestores(Attempts(before), Attempts(log), 40)
  {
    hide Run, Counted, Attempts, SettleLost, FellBack, StableMinuteSince;
    if eleventh.Some? {
      FellBackLater(before, turn, eleventh.value, recorded, log);
    }
  }

  lemma {:induction false} WatchedNow(before: seq<Event>, turn: seq<Event>, log: seq<Event>, second: nat,
                                      eleventh: Option<nat>,
                                      recorded: bool)
    requires Waiting(before, turn, second, eleventh, recorded) && turn < log && Attempts(log) == Attempts(turn)
    requires Counted(log).clocks == Counted(turn).clocks + 2 && Counted(log).waited == Counted(turn).waited
    ensures second != FTST_POST_CLEAR_FALLBACK_SECONDS ==> Watched(before, log, second, eleventh, recorded)
    ensures second == FTST_POST_CLEAR_FALLBACK_SECONDS ==>
              && before < turn && Attempts(log) == Attempts(before)
              && Counted(turn).clocks == Counted(before).clocks + 2 * FTST_POST_CLEAR_FALLBACK_SECONDS
              && Counted(log).clocks == Counted(before).clocks + 2 * second + 2
              && Counted(log).waited >= Counted(before).waited + 1000 * second
  {
    hide Run, Counted, Attempts, FellBack;
    if eleventh.Some? {
      FellBackLater(before, turn, eleventh.value, recorded, log);
    }
  }

  lemma {:induction false} WatchedDecides(before: seq<Event>, log: seq<Event>, second: nat, eleventh: Option<nat>,
                                          recorded: bool)
    requires Watched(before, log, second, eleventh, recorded)
    ensures FallbackDecided(before, log, eleventh, recorded) && OnlyRestores(Attempts(before), Attempts(log), 40)
    ensures second == FTST_BASELINE_WAIT_SECONDS && !StableMinuteSince(Run(log), |before|) ==>
              MinuteStopped(before, log)
  {
    hide Run, Counted, Attempts, SettleLost, FellBack, StableMinuteSince;
  }

  lemma {:induction false} WaitedSecond(before: seq<Event>, log: seq<Event>, second: nat, eleventh: Option<nat>,
                                        recorded: bool,
                                        waited: bool)
    requires Watched(before, log, second, eleventh, recorded)
    ensures var after := log + [Wait(1000, waited)];
            && (waited ==> Waiting(before, after, second + 1, eleventh, recorded))
            && (!waited ==> MinuteStopped(before, after)) && FallbackDecided(before, after, eleventh, recorded)
            && OnlyRestores(Attempts(before), Attempts(after), 40)
  {
    hide Run, Counted, Attempts, SettleLost, FellBack, StableMinuteSince;
    Appended(log, Wait(1000, waited));
    if eleventh.Some? {
      FellBackLater(before, log, eleventh.value, recorded, log + [Wait(1000, waited)]);
    }
  }

  lemma {:induction false} StableNow(before: seq<Event>, log: seq<Event>, n: nat, first: real, sampled: real, p: nat)
    requires ReadyToCount(before, log, n, first, Some(sampled), p)
    ensures n > FTST_BASELINE_STABLE_SECONDS && sampled - first >= MINUTE <==> StableMinuteSince(Run(log), |before|)
  {
    hide Run, StableMinuteSince, Holds, Lasts, Fresh;
    if n > FTST_BASELINE_STABLE_SECONDS && sampled - first >= MINUTE {
      HoldsLong(Run(log), n, |before|, first, sampled, MINUTE);
      LongIsStable(Run(log), n, |before|);
    } else {
      NotStableYet(Run(log), n, |before|, first, sampled);
    }
  }

  lemma {:induction false} ReadyAgain(before: seq<Event>, log: seq<Event>, n: nat, first: real,
                                      previous: Option<real>, p: nat)
    requires if previous.Some? then ReadyToCount(before, log, n, first, previous, p)
             else n == 0 && before <= log && |log| > 0 && log[|log| - 1].Read?
    ensures ReadyToCount(before, log + [Wait(1000, true)], n, first, previous, p)
  {
    hide Run, Holds, Fresh;
    Appended(log, Wait(1000, true));
    if previous.None? {
      UntimedReadEndsRun(log, Wait(1000, true));
    } else {
      EndedThen(log, previous, |before|, p, Wait(1000, true));
    }
  }

  /** Wait up to ninety seconds for an uninterrupted minute of system reads. After ten
      seconds with both fans still released, restore once and start over.
   */
  method AwaitStableMinute(b: TrialBackend) returns (stable: bool, ghost eleventh: Option<nat>)
    requires RESTORE_CALLBACKS <= b.callbacks
    modifies b`calls, b`changed, b`log
    ensures old(b.log) <= b.log && Honest(b)
    ensures OnlyRestores(Attempts(old(b.log)), Attempts(b.log), 40)
    ensures stable ==> StableMinuteSince(Run(b.log), |old(b.log)|) && AllNoted(b)
    ensures !stable ==> MinuteStopped(old(b.log), b.log)
    ensures FallbackDecided(old(b.log), b.log, eleventh, CanRecord in b.callbacks)
    ensures b.tracking && !b.changed ==> Attempts(b.log) == Attempts(old(b.log))
  {
    hide Attempts, LatestRead, Deviations, Run, SystemFans, IsSystem, Holds, OnlyRestores, FansReleased,
      Settled, Noticed, BothReleased, StableMinuteSince, Counted, SettleLost, FellBack, SettledSecond, ReadyToCount,
      FallbackDecided, MinuteStopped, Waiting;
    ghost var recorded := CanRecord in b.callbacks;
    eleventh := None;
    var stableSamples := 0;
    var stableStarted := 0.0;
    var previousSample: Option<real> := None;
    ghost var p: nat := 0;
    var second := 0;
    WaitBegins(b.log, p, recorded);
    while true
      invariant 0 <= second <= FTST_BASELINE_WAIT_SECONDS && 0 <= stableSamples <= second && old(b.log) <= b.log
      invariant AllNoted(b)
      invariant Waiting(old(b.log), b.log, second, eleventh, recorded)
      invariant ReadyToCount(old(b.log), b.log, stableSamples, stableStarted, previousSample, p)
      invariant b.tracking && !b.changed ==> Attempts(b.log) == Attempts(old(b.log))
      decreases FTST_BASELINE_WAIT_SECONDS - second
    {
      ghost var turn := b.log;
      var ok, observation, samples, start, sampled, started :=
        CountSecond(b, second, stableSamples, stableStarted, previousSample, old(b.log), p);
      if !ok {
        LostNow(old(b.log), turn, b.log, second, eleventh, recorded);
        return false, eleventh;
      }
      WatchedNow(old(b.log), turn, b.log, second, eleventh, recorded);
      stableSamples, stableStarted, previousSample, p := samples, start, Some(sampled), |turn| + 2;
      StableNow(old(b.log), b.log, stableSamples, stableStarted, sampled, p);
      if stableSamples > FTST_BASELINE_STABLE_SECONDS && sampled - stableStarted >= MINUTE {
        WatchedDecides(old(b.log), b.log, second, eleventh, recorded);
        return true, eleventh;
      }
      if second == FTST_POST_CLEAR_FALLBACK_SECONDS {
        var again := FallBackIf(b, observation, old(b.log), turn, second, started, Finite(sampled));
        eleventh := Some(|turn| + 1);
        if again {
          stableSamples, previousSample := 0, None;
        }
      }
      if second == FTST_BASELINE_WAIT_SECONDS {
        WatchedDecides(old(b.log), b.log, second, eleventh, recorded);
        return false, eleventh;
      }
      assert Watched(old(b.log), b.log, second, eleventh, recorded);
      WaitedSecond(old(b.log), b.log, second, eleventh, recorded, true);
      WaitedSecond(old(b.log), b.log, second, eleventh, recorded, false);
      ReadyAgain(old(b.log), b.log, stableSamples, stableStarted, previousSample, p);
      var waited := b.WaitMilliseconds(1000);
      if !waited {
        return false, eleventh;
      }
      second := second + 1;
    }
  }

  lemma {:induction false} NoneEnded(log: seq<Event>, from: nat, p: nat)
    ensures EndedAt(log, None, from, p)
  {
  }

  lemma {:induction false} EndedNow(log: seq<Event>, sampled: real, from: nat, p: nat)
    requires from <= p < |log| && log[p] == Clock(Finite(sampled)) && QuietSince(log, p)
    ensures EndedAt(log, Some(sampled), from, p)
  {
  }

  lemma {:induction false} EndedThen(log: seq<Event>, previous: Option<real>, from: nat, p: nat, e: Event)
    requires EndedAt(log, previous, from, p) && !e.Read? && !e.Clock?
    ensures EndedAt(log + [e], previous, from, p)
  {
  }

  lemma {:induction false} NothingFresh(from: nat)
    ensures Fresh([], 0, from)
  {
  }

  lemma {:induction false} FreshBefore(before: seq<Event>, turn: seq<Event>, log: seq<Event>, previous: Option<real>,
                                       earlier: seq<Sample>, n: nat)
    requires before <= turn < log && earlier == Run(log[..|turn| + 1]) && log[|turn|].Clock?
    requires previous.Some? ==> earlier == Run(turn) && Fresh(Run(turn), n, |before|)
    requires previous.None? ==> n == 0 && (turn == before || (Run(turn) == [] && Settled(turn)))
    ensures Fresh(earlier, n, |before|)
  {
    if previous.None? {
      hide Run;
      assert log[..|turn| + 1] == turn + [log[|turn|]];
      Appended(turn, log[|turn|]);
      if turn == before {
        RunIsConsecutive(log[..|turn| + 1]);
        forall k | 0 <= k < |earlier|
          ensures earlier[k].at < |before|
        {
          assert InTrace(log[..|turn| + 1], earlier[k]);
        }
      }
    }
  }

  lemma {:induction false} NothingRestores(attempts: seq<Attempt>)
    ensures OnlyRestores(attempts, attempts, 40)
  {
  }

  lemma {:induction false} ReleasedIsNoticed(tracking: bool, changed: bool, s: Snapshot)
    requires Noticed(tracking, changed, s) && BothReleased(s)
    ensures tracking ==> changed
  {
  }

  lemma {:induction false} FellBackNow(before: seq<Event>, turn: seq<Event>, settled: seq<Event>, after: seq<Event>,
                                       second: nat, started: Double, s: Snapshot, finished: Double, recorded: bool)
    requires before < turn && settled == turn + SettledSecond(second, started, s, finished, recorded)
    requires settled <= after
    requires BothReleased(s) && Attempts(settled) == Attempts(before)
    requires Counted(settled[..|turn| + 1]).clocks == Counted(before).clocks + 2 * FTST_POST_CLEAR_FALLBACK_SECONDS + 1
    requires |settled| < |after| && after[|settled|].Read?
    requires if SystemRead(after[|settled|].result) then Attempts(after) == Attempts(settled)
             else FansReleased(Attempts(settled), Attempts(after))
    ensures FellBack(before, after, |turn| + 1, recorded)
  {
    hide Attempts, Counted, FansReleased, BothReleased;
    SettledSecondEnds(turn, settled, second, started, s, finished, recorded);
    assert after[..|turn| + 1] == settled[..|turn| + 1];
  }

  lemma {:induction false} FellBackNot(before: seq<Event>, turn: seq<Event>, settled: seq<Event>,
                                       second: nat, started: Double, s: Snapshot, finished: Double, recorded: bool)
    requires before < turn && settled == turn + SettledSecond(second, started, s, finished, recorded)
    requires !BothReleased(s) && Attempts(settled) == Attempts(before)
    requires Counted(settled[..|turn| + 1]).clocks == Counted(before).clocks + 2 * FTST_POST_CLEAR_FALLBACK_SECONDS + 1
    ensures FellBack(before, settled, |turn| + 1, recorded)
  {
    hide Attempts, Counted, FansReleased, BothReleased;
    SettledSecondEnds(turn, settled, second, started, s, finished, recorded);
  }

  /** The one-shot fallback, whose own reads are not noted. */
  method FallBack(b: TrialBackend)
    requires RESTORE_CALLBACKS <= b.callbacks
    modifies b`calls, b`log
    ensures old(b.log) <= b.log && Deviations(old(b.log)) <= Deviations(b.log)
    ensures OnlyRestores(Attempts(old(b.log)), Attempts(b.log), 40)
    ensures |b.log| > |old(b.log)| && b.log[|old(b.log)|].Read? && b.log[|b.log| - 1].Read?
    ensures if SystemRead(b.log[|old(b.log)|].result) then Attempts(b.log) == Attempts(old(b.log))
            else FansReleased(Attempts(old(b.log)), Attempts(b.log))
    ensures Counted(b.log).clocks == Counted(old(b.log)).clocks && Counted(b.log).waited >= Counted(old(b.log)).waited
  {
    hide Attempts, LatestRead, FansReleased, IsSystem;
    var _, _ := RestoreSystem(b);
    if Attempts(b.log) != Attempts(old(b.log)) {
      FansReleasedRestores(Attempts(old(b.log)), Attempts(b.log));
    }
  }

  const UNLOCK_CALLBACKS := {CanWriteFtst, CanWriteMode, CanWriteTarget, CanRead, CanWait, CanTellTime, CanStop}

  // ---------------------------------------------------------------------------
  // The course of restore_unlock
  // ---------------------------------------------------------------------------

  /** How far restoring got with Ftst set. */
  datatype LockedEnd = ModesRejected | StateLost | TargetsLost | ClearFailed | MinuteFailed | MinuteSeen

  /** The trace after each phase that went well. */
  datatype Locked = Locked(
    end: LockedEnd, modes: seq<Event>, zeros: Zeros, targets: seq<Event>, cleared: seq<Event>, eleventh: Option<nat>)

  /** The read after the modes were released, and its record. */
  function Reread(modes: seq<Event>, again: Snapshot, recorded: bool): seq<Event> {
    modes + [Read(false, Some(again))] + if recorded then [Record(0, again)] else []
  }

  /** With Ftst set: mode 0 for each fan in manual mode, a read, zero targets, clears of
      Ftst, and the wait for a minute; as far as each phase went well.
   */
  ghost predicate Went(c: Locked, seen: Snapshot, before: seq<Event>, after: seq<Event>, recorded: bool) {
    if c.end.ModesRejected? then
      before <= after && ManualReleased(Attempts(before), Attempts(after), seen.mode[0] == 1, seen.mode[1] == 1, false)
    else
      && before <= c.modes < after && (NoManualMode(seen) ==> c.modes == before)
      && ManualReleased(Attempts(before), Attempts(c.modes), seen.mode[0] == 1, seen.mode[1] == 1, true)
      && after[|c.modes|].Read?
      && var again := after[|c.modes|].result;
         if c.end.StateLost? then
           after == c.modes + [Read(false, again)] && (again.None? || again.value.ftst != 1 || !ModesReleased(again.value))
         else
           && again.Some? && again.value.ftst == 1 && ModesReleased(again.value)
           && WentOn(c, again.value, Reread(c.modes, again.value, recorded), after, recorded)
  }

  ghost predicate WentOn(c: Locked, again: Snapshot, before: seq<Event>, after: seq<Event>, recorded: bool) {
    if c.end.TargetsLost? then Zeroed(again, c.zeros, before, after, recorded, false)
    else
      && Zeroed(again, c.zeros, before, c.targets, recorded, true) && c.targets <= after
      && if c.end.ClearFailed? then ClearStopped(c.targets, after)
         else
           && c.targets <= c.cleared <= after && ClearDone(c.targets, c.cleared)
           && FallbackDecided(c.cleared, after, c.eleventh, recorded)
           && if c.end.MinuteFailed? then MinuteStopped(c.cleared, after) else StableMinuteSince(Run(after), |c.cleared|)
  }

  /** With the fans released: zero targets, clear Ftst and wait for a stable minute. */
  method ReleaseFtst(b: TrialBackend, again: Snapshot, ghost modes: seq<Event>)
    returns (restored: bool, ghost course: Locked)
    requires UNLOCK_CALLBACKS <= b.callbacks && Noticed(b.tracking, b.changed, again)
    requires LatestRead(b.log) == Some(again) && again.ftst == 1 && ModesReleased(again)
    modifies b`calls, b`changed, b`log
    ensures old(b.log) <= b.log && Honest(b)
    ensures course.modes == modes && WentOn(course, again, old(b.log), b.log, CanRecord in b.callbacks)
    ensures !course.end.ModesRejected? && !course.end.StateLost? && restored == course.end.MinuteSeen?
    ensures OnlyRestores(Attempts(old(b.log)), Attempts(b.log), 45)
    ensures restored ==> StableMinuteSince(Run(b.log), |old(b.log)|) && |Attempts(b.log)| > |Attempts(old(b.log))|
    ensures restored && b.tracking && !b.changed ==>
              Deviations(b.log) == Deviations(old(b.log)) && OnlyClears(Attempts(old(b.log)), Attempts(b.log), 3)
  {
    hide Attempts, LatestRead, Deviations, Run, StableMinuteSince, ModesReleased, Restoring, Clearing,
      ZeroAllowed, Zeroed, ClearStopped, ClearDone, MinuteStopped, FallbackDecided, WentOn, Counted;
    ghost var before, recorded := Attempts(b.log), CanRecord in b.callbacks;
    var ready, zeros := ZeroTargets(b, again);
    ghost var targets, afterTargets := b.log, Attempts(b.log);
    course := Locked(TargetsLost, modes, zeros, targets, [], None);
    if !ready {
      WentTargets(course, again, old(b.log), b.log, recorded);
      return false, course;
    }
    var cleared := ClearFtst(b);
    ghost var afterClears := Attempts(b.log);
    RestoresCompose(before, afterTargets, afterClears, 2, 3);
    course := course.(end := ClearFailed, cleared := b.log);
    if !cleared {
      WentClears(course, again, old(b.log), b.log, recorded);
      return false, course;
    }
    ghost var eleventh;
    restored, eleventh := AwaitStableMinute(b);
    course := course.(end := if restored then MinuteSeen else MinuteFailed, eleventh := eleventh);
    WentMinute(course, again, old(b.log), b.log, recorded);
    RestoresCompose(before, afterClears, Attempts(b.log), 5, 40);
    if restored {
      StableSinceEarlier(Run(b.log), |old(b.log)|);
    }
  }

  /** Ftst is set: release manual fans, zero targets, clear Ftst and wait for a stable minute. */
  method RestoreLockedState(b: TrialBackend, seen: Snapshot) returns (restored: bool, ghost course: Locked)
    requires UNLOCK_CALLBACKS <= b.callbacks && Noticed(b.tracking, b.changed, seen)
    modifies b`calls, b`changed, b`log
    ensures old(b.log) <= b.log && Honest(b)
    ensures Went(course, seen, old(b.log), b.log, CanRecord in b.callbacks) && restored == course.end.MinuteSeen?
    ensures OnlyRestores(Attempts(old(b.log)), Attempts(b.log), 65)
    ensures restored ==> StableMinuteSince(Run(b.log), |old(b.log)|) && |Attempts(b.log)| > |Attempts(old(b.log))|
    ensures restored && b.tracking && !b.changed ==>
              Deviations(b.log) == Deviations(old(b.log)) && OnlyClears(Attempts(old(b.log)), Attempts(b.log), 3)
  {
    hide Attempts, LatestRead, Deviations, Run, StableMinuteSince, ModesReleased, Restoring, Clearing, ManualReleased,
      WentOn, Counted, OnlyClears, ManualFan;
    ghost var before, nothing := Attempts(b.log), Zeros(None, false, None, false, None);
    course := Locked(ModesRejected, [], nothing, [], [], None);
    var released := ReleaseManualModes(b, seen);
    ghost var modes, afterModes := b.log, Attempts(b.log);
    if !released {
      return false, course;
    }
    course := course.(end := StateLost, modes := modes);
    var again := b.ReadObservation(false);
    if again.None? || again.value.ftst != 1 || !ModesReleased(again.value) {
      return false, course;
    }
    b.NoteFanState(again.value);
    b.RecordObservation(0, again.value);
    restored, course := ReleaseFtst(b, again.value, modes);
    RestoresCompose(before, afterModes, Attempts(b.log), 20, 45);
    if restored {
      StableSinceEarlier(Run(b.log), |old(b.log)|);
    }
  }

  lemma {:induction false} WentTargets(c: Locked, again: Snapshot, before: seq<Event>, after: seq<Event>,
                                       recorded: bool)
    requires c.end.TargetsLost? && Zeroed(again, c.zeros, before, after, recorded, false)
    ensures WentOn(c, again, before, after, recorded)
  {
  }

  lemma {:induction false} WentClears(c: Locked, again: Snapshot, before: seq<Event>, after: seq<Event>, recorded: bool)
    requires c.end.ClearFailed? && Zeroed(again, c.zeros, before, c.targets, recorded, true) && c.targets <= after
    requires ClearStopped(c.targets, after)
    ensures WentOn(c, again, before, after, recorded)
  {
    hide Zeroed, ClearStopped;
  }

  lemma {:induction false} WentMinute(c: Locked, again: Snapshot, before: seq<Event>, after: seq<Event>, recorded: bool)
    requires c.end.MinuteFailed? || c.end.MinuteSeen?
    requires Zeroed(again, c.zeros, before, c.targets, recorded, true) && c.targets <= after
    requires ClearDone(c.targets, c.cleared) && c.targets <= c.cleared <= after
    requires FallbackDecided(c.cleared, after, c.eleventh, recorded)
    requires if c.end.MinuteFailed? then MinuteStopped(c.cleared, after) else StableMinuteSince(Run(after), |c.cleared|)
    ensures WentOn(c, again, before, after, recorded)
  {
    hide Zeroed, ClearStopped, ClearDone, FallbackDecided, MinuteStopped, StableMinuteSince;
  }

  /** With Ftst clear: the fans could not be restored, or they were and a minute was watched. */
  datatype Open = Unrestored | WatchedOpen(restored: seq<Event>, status: BaselineStatus)

  ghost predicate WentOpen(c: Open, before: seq<Event>, after: seq<Event>) {
    match c
    case Unrestored => SystemStopped(before, after)
    case WatchedOpen(restored, status) =>
      before <= restored && SystemReached(before, restored) && WindowEnded(status, restored, after)
  }

  /** Ftst is clear: restore the fans, then observe a whole minute. */
  method RestoreOpenState(b: TrialBackend, seen: Snapshot, delayedChange: bool)
    returns (restored: bool, ghost course: Open)
    requires UNLOCK_CALLBACKS <= b.callbacks && seen.ftst == 0 && Noticed(b.tracking, b.changed, seen)
    requires !delayedChange ==> !IsSystem(seen)
    modifies b`calls, b`changed, b`log
    ensures old(b.log) <= b.log && Honest(b)
    ensures WentOpen(course, old(b.log), b.log)
    ensures restored <==> course.WatchedOpen? && course.status.BaselineStable? && !delayedChange
    ensures OnlyRestores(Attempts(old(b.log)), Attempts(b.log), 40)
    ensures restored ==> StableMinuteSince(Run(b.log), |old(b.log)|) && (b.tracking ==> b.changed)
  {
    hide Attempts, LatestRead, Deviations, Run, StableMinuteSince, FansReleased, Restoring, Evidence, Lasts, Counted,
      SystemStopped, SystemReached;
    ghost var before := Attempts(b.log);
    var ok, found := RestoreSystem(b);
    if Attempts(b.log) != before {
      FansReleasedRestores(before, Attempts(b.log));
    }
    course := Unrestored;
    if !ok {
      return false, course;
    }
    ghost var log := b.log;
    var result, seconds, samples := ObserveBaselineWindow(b, FTST_BASELINE_STABLE_SECONDS);
    course := WatchedOpen(log, result);
    if result == BaselineStable {
      LongIsStable(Run(b.log), 61, |old(b.log)|);
      LongIsStable(Run(b.log), 61, |log|);
    }
    return result == BaselineStable && !delayedChange, course;
  }

  /** The first read, whether system mode then changed while it was watched, and the state
      that is acted upon.
   */
  datatype Start = Start(first: Snapshot, found: seq<Event>, watched: Option<seq<Event>>, current: Snapshot)

  /** The trace with the first read and its record. */
  function Noted(s: Start, recorded: bool): seq<Event> {
    s.found + if recorded then [Record(0, s.first)] else []
  }

  ghost predicate Began(s: Start, before: seq<Event>, log: seq<Event>, recorded: bool) {
    && FirstFound(before, s.found, Some(s.first))
    && match s.watched
       case None => !IsSystem(s.first) && s.current == s.first && log == Noted(s, recorded)
       case Some(changed) =>
         && IsSystem(s.first) && WindowEnded(BaselineChanged, Noted(s, recorded), changed)
         && log == changed + [Read(false, Some(s.current))]
  }

  /** Everything restore_unlock may do. */
  datatype Course =
    | Unread                                                                     // three reads were lost
    | WatchedOnly(first: Snapshot, found: seq<Event>, status: BaselineStatus)    // system mode, which was watched
    | SightLost(first: Snapshot, found: seq<Event>, changed: seq<Event>)         // it changed, and a read was lost
    | Strange(start: Start)                                                      // Ftst neither clear nor set
    | Opened(start: Start, from: seq<Event>, open: Open)
    | Unlocked(start: Start, from: seq<Event>, locked: Locked)

  ghost predicate Took(c: Course, before: seq<Event>, after: seq<Event>, recorded: bool) {
    match c
    case Unread => FirstFound(before, after, None)
    case WatchedOnly(first, found, status) =>
      && FirstFound(before, found, Some(first)) && IsSystem(first) && !status.BaselineChanged?
      && WindowEnded(status, found + if recorded then [Record(0, first)] else [], after)
    case SightLost(first, found, changed) =>
      && FirstFound(before, found, Some(first)) && IsSystem(first)
      && WindowEnded(BaselineChanged, found + if recorded then [Record(0, first)] else [], changed)
      && after == changed + [Read(false, None)]
    case Strange(start) => Began(start, before, after, recorded) && start.current.ftst != 0 && start.current.ftst != 1
    case Opened(start, from, open) =>
      Began(start, before, from, recorded) && start.current.ftst == 0 && WentOpen(open, from, after)
    case Unlocked(start, from, locked) =>
      Began(start, before, from, recorded) && start.current.ftst == 1 && Went(locked, start.current, from, after, recorded)
  }

  /** The courses that end in a minute which counts; a change that came late spoils it. */
  predicate Restores(c: Course) {
    match c
    case WatchedOnly(_, _, status) => status.BaselineStable?
    case Opened(start, _, open) => start.watched.None? && open.WatchedOpen? && open.status.BaselineStable?
    case Unlocked(start, _, locked) => start.watched.None? && locked.end.MinuteSeen?
    case _ => false
  }

  /** The first read, and a minute of watching if it shows system mode: either this decides,
      or there is a state to act upon.
   */
  method FirstState(b: TrialBackend)
    returns (decided: bool, restored: bool, current: Snapshot, delayedChange: bool, ghost course: Course, ghost start: Start)
    requires UNLOCK_CALLBACKS <= b.callbacks
    modifies b`calls, b`changed, b`log
    ensures old(b.log) <= b.log && AllNoted(b) && Attempts(b.log) == Attempts(old(b.log))
    ensures decided ==> Took(course, old(b.log), b.log, CanRecord in b.callbacks) && restored == Restores(course)
    ensures decided && restored ==> StableMinuteSince(Run(b.log), |old(b.log)|)
    ensures !decided || !restored ==> Troubled(b.log, |old(b.log)|)
    ensures !decided ==>
              && Began(start, old(b.log), b.log, CanRecord in b.callbacks)
              && start.current == current && start.watched.Some? == delayedChange && (!delayedChange ==> !IsSystem(current))
              && Noticed(b.tracking, b.changed, current)
  {
    hide Attempts, LatestRead, Deviations, Run, SystemFans, IsSystem, StableMinuteSince, ModesReleased,
      NoManualMode, Evidence, Lasts, Troubled, FirstFound, Counted;
    decided, restored, delayedChange, course := true, false, false, Unread;
    current := Snapshot(0, [0, 0], [NaN, NaN], [NaN, NaN], [NaN, NaN, NaN]);
    start := Start(current, [], None, current);
    var first := FirstRead(b);
    if first.None? {
      return;
    }
    current := first.value;
    start := Start(current, b.log, None, current);
    ghost var here := b.log;
    b.RecordObservation(0, current);
    if !IsSystem(current) {
      decided := false;
      TroubledLater(here, b.log, |old(b.log)|, |old(b.log)|);
      return;
    }
    ghost var from := b.log;
    var result, seconds, samples := ObserveBaselineWindow(b, FTST_BASELINE_STABLE_SECONDS);
    course := WatchedOnly(current, start.found, result);
    if result == BaselineStable {
      LongIsStable(Run(b.log), 61, |old(b.log)|);
      LongIsStable(Run(b.log), 61, |from|);
      restored := true;
      return;
    }
    TroubledLater(b.log, b.log, |from|, |old(b.log)|);
    here := b.log;
    if result != BaselineChanged {
      return;
    }
    var again := b.ReadObservation(false);
    TroubledLater(here, b.log, |old(b.log)|, |old(b.log)|);
    if again.None? {
      course := SightLost(current, start.found, here);
      return;
    }
    current := again.value;
    start := start.(watched := Some(here), current := current);
    b.NoteFanState(current);
    decided, delayedChange := false, true;
  }

  /** True means the trace ends in a stable minute observed by this call. The course it took
      says what was done, and shows at the end of the trace why it was given up.
   */
  method RestoreUnlock(b: TrialBackend) returns (restored: bool, ghost course: Course)
    modifies b`calls, b`changed, b`log
    ensures old(b.log) <= b.log && Honest(b)
    ensures !(UNLOCK_CALLBACKS <= b.callbacks) ==> !restored && b.log == old(b.log)
    ensures UNLOCK_CALLBACKS <= b.callbacks ==>
              Took(course, old(b.log), b.log, CanRecord in b.callbacks) && restored == Restores(course)
    ensures OnlyRestores(Attempts(old(b.log)), Attempts(b.log), 65)
    ensures restored ==> StableMinuteSince(Run(b.log), |old(b.log)|)
    ensures UNLOCK_CALLBACKS <= b.callbacks && !restored ==> Troubled(b.log, |old(b.log)|)
    ensures restored && b.tracking && !b.changed ==>
              Deviations(b.log) == Deviations(old(b.log)) && OnlyClears(Attempts(old(b.log)), Attempts(b.log), 3)
  {
    hide Attempts, LatestRead, Deviations, Run, SystemFans, IsSystem, StableMinuteSince, ModesReleased,
      Restoring, Clearing, Troubled, Began, WentOpen, Went, Counted, FirstFound, WindowEnded;
    course, restored := Unread, false;
    if !(UNLOCK_CALLBACKS <= b.callbacks) {
      return;
    }
    var decided, current, delayedChange;
    ghost var start;
    decided, restored, current, delayedChange, course, start := FirstState(b);
    if decided {
      return;
    }
    ghost var from := b.log;
    if current.ftst == 0 {
      ghost var open;
      restored, open := RestoreOpenState(b, current, delayedChange);
      course := Opened(start, from, open);
    } else if current.ftst != 1 {
      restored, course := false, Strange(start);
    } else {
      ghost var locked;
      restored, locked := RestoreLockedState(b, current);
      course := Unlocked(start, from, locked);
      restored := restored && !delayedChange;
    }
    TroubledLater(from, b.log, |old(b.log)|, |old(b.log)|);
    if restored {
      StableSinceEarlier(Run(b.log), |old(b.log)|);
    }
  }

  // ---------------------------------------------------------------------------
  // With Ftst set
  // ---------------------------------------------------------------------------

  /** What may stop the release of Ftst; each shows at the end of the trace. */
  ghost predicate Obstacle(c: Locked, seen: Snapshot, before: seq<Event>, after: seq<Event>) {
    match c.end
    case ModesRejected =>         // ten rejected mode writes to a fan in manual mode
      exists mid, fan: nat | fan < 2 && seen.mode[fan] == 1 ::
        Attempts(before) <= mid && ModeTries(mid, Attempts(after), fan, 0, false)
    case StateLost =>             // a read lost, or of Ftst not set or a fan not released
      && |after| > |before| && after[|after| - 1].Read?
      && (after[|after| - 1].result.None? || after[|after| - 1].result.value.ftst != 1
          || !ModesReleased(after[|after| - 1].result.value))
    case TargetsLost =>
      || (|after| > |before| && after[|after| - 1].Read?
          && (after[|after| - 1].result.None? || !ModesReleased(after[|after| - 1].result.value)))
      || (LatestRead(after).Some? && LatestRead(after).value.ftst != 1)
    case ClearFailed => ClearStopped(c.targets, after)
    case MinuteFailed => MinuteStopped(c.cleared, after)
    case MinuteSeen => false
  }

  /** Ftst was cleared, or it was tried, after this. */
  predicate TriedToClear(before: seq<Attempt>, after: seq<Attempt>) {
    exists i | |before| <= i < |after| :: Clearing(after[i])
  }

  /** What the first successful read showed. */
  function FirstSeen(c: Course): Option<Snapshot> {
    match c
    case Unread => None
    case WatchedOnly(first, _, _) => Some(first)
    case SightLost(first, _, _) => Some(first)
    case Strange(start) => Some(start.first)
    case Opened(start, _, _) => Some(start.first)
    case Unlocked(start, _, _) => Some(start.first)
  }

  /** With Ftst set at the first read, either an obstacle shows at the end of the trace, or a
      clear of Ftst was tried and a stable minute followed: then restoring succeeds.
   */
  lemma {:induction false} ClearsUnlessObstructed(c: Course, first: Snapshot, before: seq<Event>, after: seq<Event>,
                                                  recorded: bool)
    requires Took(c, before, after, recorded) && FirstSeen(c) == Some(first) && first.ftst == 1
    ensures c.Unlocked? && before <= c.from <= after
    ensures if Restores(c) then
              TriedToClear(Attempts(c.from), Attempts(after)) && StableMinuteSince(Run(after), |c.from|)
            else Obstacle(c.locked, first, c.from, after)
  {
    hide StableMinuteSince, Attempts, Run, ManualReleased, ClearStopped, MinuteStopped, ClearsTried, Zeroed,
      FallbackDecided,
      ModesReleased, SystemFans;
    var start, locked := c.start, c.locked;
    if locked.end.ModesRejected? {
      ModesObstacle(Attempts(c.from), Attempts(after), first);
    } else if locked.end.TargetsLost? {
      ZeroesObstacle(after[|locked.modes|].result.value, locked.zeros,
        Reread(locked.modes, after[|locked.modes|].result.value, recorded),
                     after, recorded);
    } else if locked.end.MinuteSeen? {
      ZeroedGrows(after[|locked.modes|].result.value, locked.zeros, Reread(locked.modes,
        after[|locked.modes|].result.value, recorded),
                  locked.targets, recorded);
      AttemptsGrow(c.from, locked.targets);
      AttemptsGrow(locked.cleared, after);
      ClearTried(locked.targets, locked.cleared);
      StableSinceEarlier(Run(after), |c.from|);
    }
  }

  lemma {:induction false} ModesObstacle(before: seq<Attempt>, after: seq<Attempt>, seen: Snapshot)
    requires ManualReleased(before, after, seen.mode[0] == 1, seen.mode[1] == 1, false)
    ensures exists mid, fan: nat | fan < 2 && seen.mode[fan] == 1 :: before <= mid && ModeTries(mid, after, fan, 0, false)
  {
    if ManualFan(before, after, 0, seen.mode[0] == 1, false) {
      var fan: nat := 0;
      assert seen.mode[fan] == 1 && ModeTries(before, after, fan, 0, false);
    } else {
      var mid :| ManualFan(before, mid, 0, seen.mode[0] == 1, true) && ManualFan(mid, after, 1, seen.mode[1] == 1, false);
      var fan: nat := 1;
      assert before <= mid && seen.mode[fan] == 1 && ModeTries(mid, after, fan, 0, false);
    }
  }

  lemma {:induction false} ZeroesObstacle(seen: Snapshot, z: Zeros, before: seq<Event>, after: seq<Event>,
                                        recorded: bool)
    requires Zeroed(seen, z, before, after, recorded, false)
    ensures |after| > |before|
    ensures (after[|after| - 1].Read? && (after[|after| - 1].result.None? || !ModesReleased(after[|after| - 1].result.value)))
            || (LatestRead(after).Some? && LatestRead(after).value.ftst != 1)
  {
    hide ZeroTurns, LatestRead, ModesReleased;
    if z.last.Some? && ModesReleased(z.last.value) {
      var read := before + ZeroTurns(z) + [Read(false, z.last)];
      Appended(before + ZeroTurns(z), Read(false, z.last));
      if recorded {
        Appended(read, Record(0, z.last.value));
        assert after == read + [Record(0, z.last.value)];
      } else {
        assert after == read;
      }
    }
  }

  lemma {:induction false} ZeroedGrows(seen: Snapshot, z: Zeros, before: seq<Event>, after: seq<Event>, recorded: bool)
    requires Zeroed(seen, z, before, after, recorded, true)
    ensures before <= after
  {
    hide ZeroTurns, ModesReleased, NeedsZero;
  }

  lemma {:induction false} ClearTried(before: seq<Event>, after: seq<Event>)
    requires ClearDone(before, after)
    ensures |Attempts(before)| < |Attempts(after)| && Clearing(Attempts(after)[|Attempts(before)|])
  {
    hide Attempts, Counted, LatestFtst;
  }

  lemma {:induction false} StableSinceEarlier(run: seq<Sample>, from: nat)
    requires exists later: nat :: later >= from && StableMinuteSince(run, later)
    ensures StableMinuteSince(run, from)
  {
    var later: nat :| later >= from && StableMinuteSince(run, later);
    var i :| 0 <= i < |run| && run[i].at >= later && Lasts(run[i..], 61, MINUTE);
  }
}
