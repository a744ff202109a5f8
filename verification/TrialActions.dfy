/** The three drivers of the write trial. Whatever the device does, a driver either
    never writes, or reports that restoring failed, or ends with a stable minute.
 */
module TrialActions {
  import opened SmcBaseline
  import opened MinuteRule
  import opened TrialDevice
  import opened TrialRestore
  import opened TrialUnlock

  datatype RunStatus = Succeeded | BaselineRejected | ControlFailedSystemVerified | WriteEffectUnverified | RestoreFailed

  const OBSERVE_SECONDS := 5
  const FTST_EFFECT_WAIT_HALF_SECONDS := 20

  predicate TemperaturesSafe(s: Snapshot) {
    forall sensor | 0 <= sensor < 3 ::
      s.temperature[sensor].Finite? && 10.0 <= s.temperature[sensor].value < TEMPERATURE_LIMIT
  }

  /** A rejected baseline left no write; any other outcome but a failed restore
      ends the trace with a stable minute observed during the run; and restoring fails
      only if something went wrong on the way.
   */
  ghost predicate FailClosed(status: RunStatus, before: seq<Event>, after: seq<Event>) {
    && (status == BaselineRejected ==> Attempts(after) == Attempts(before))
    && (status == RestoreFailed ==> Troubled(after, |before|))
    && (status !in {BaselineRejected, RestoreFailed} ==> StableMinuteSince(Run(after), |before|))
  }

  /** The window observed after every recovery. */
  method ObserveAfterFtst(b: TrialBackend) returns (stable: bool, ghost status: BaselineStatus)
    requires OBSERVER_CALLBACKS <= b.callbacks
    modifies b`calls, b`changed, b`log
    ensures old(b.log) <= b.log && Attempts(b.log) == Attempts(old(b.log)) && AllNoted(b)
    ensures WindowEnded(status, old(b.log), b.log) && stable == status.BaselineStable?
    ensures if stable then StableMinuteSince(Run(b.log), |old(b.log)|) else Troubled(b.log, |old(b.log)|)
  {
    hide Attempts, LatestRead, Deviations, Run, StableMinuteSince, Lasts, Evidence, Troubled, Counted;
    var result, second, samples := ObserveBaselineWindow(b, FTST_BASELINE_STABLE_SECONDS);
    status, stable := result, result == BaselineStable;
    if stable {
      LongIsStable(Run(b.log), 61, |old(b.log)|);
    }
  }

  // ---------------------------------------------------------------------------
  // Procedures given up
  // ---------------------------------------------------------------------------

  /** A procedure that was given up: the traces when it began and when it ended. */
  datatype Stop =
    | UnlockStop(before: seq<Event>, after: seq<Event>, course: Course)
    | SystemStop(before: seq<Event>, after: seq<Event>)
    | WindowStop(before: seq<Event>, after: seq<Event>, status: BaselineStatus)

  /** It ended as such a procedure ends without success. */
  ghost predicate Stopped(s: Stop, recorded: bool) {
    match s
    case UnlockStop(before, after, course) => Took(course, before, after, recorded) && !Restores(course)
    case SystemStop(before, after) => SystemStopped(before, after)
    case WindowStop(before, after, status) => WindowEnded(status, before, after) && !status.BaselineStable?
  }

  /** The procedures given up between two traces, one after another. */
  ghost predicate Stops(stops: seq<Stop>, before: seq<Event>, after: seq<Event>, recorded: bool) {
    && before <= after
    && (forall i | 0 <= i < |stops| :: before <= stops[i].before <= stops[i].after <= after && Stopped(stops[i], recorded))
    && (forall i | 0 < i < |stops| :: stops[i - 1].after <= stops[i].before)
  }

  /** The last of them ended the trace. */
  predicate EndsStopped(stops: seq<Stop>, log: seq<Event>) {
    |stops| > 0 && stops[|stops| - 1].after == log
  }

  lemma {:induction false} NoStops(before: seq<Event>, after: seq<Event>, recorded: bool)
    requires before <= after
    ensures Stops([], before, after, recorded)
  {
  }

  lemma {:induction false} StopsLater(stops: seq<Stop>, before: seq<Event>, after: seq<Event>, recorded: bool,
                                      earlier: seq<Event>, longer: seq<Event>)
    requires Stops(stops, before, after, recorded) && earlier <= before && after <= longer
    ensures Stops(stops, earlier, longer, recorded)
  {
    hide Stopped;
  }

  lemma {:induction false} FirstStop(before: seq<Event>, recorded: bool, s: Stop, longer: seq<Event>)
    requires Stopped(s, recorded) && before <= s.before <= s.after == longer
    ensures Stops([s], before, longer, recorded) && EndsStopped([s], longer)
  {
    hide Stopped;
  }

  lemma {:induction false} OneMoreStop(stops: seq<Stop>, before: seq<Event>, after: seq<Event>, recorded: bool, s: Stop,
                                       longer: seq<Event>)
    requires Stops(stops, before, after, recorded) && Stopped(s, recorded) && after <= s.before <= s.after == longer
    ensures Stops(stops + [s], before, longer, recorded) && EndsStopped(stops + [s], longer)
  {
    hide Stopped;
  }

  // ---------------------------------------------------------------------------
  // Admission
  // ---------------------------------------------------------------------------

  /** What admission leaves in the trace up to the clock value. */
  function Admission(s: Snapshot): seq<Event> {
    [Read(true, Some(s))] + [StopAsked(false)]
  }

  /** Why a baseline is not admitted: its read was lost or not of system mode or too hot or
      cold, a stop was requested, or the clock is unusable. Nothing else was done.
   */
  ghost predicate Refused(before: seq<Event>, after: seq<Event>) {
    || (exists r :: after == before + [Read(true, r)] && (r.None? || !IsSystem(r.value) || !TemperaturesSafe(r.value)))
    || (exists s :: after == before + [Read(true, Some(s))] + [StopAsked(true)])
    || (exists s, t :: after == before + Admission(s) + [Clock(t)] && (!t.Finite? || t.value < 0.0))
  }

  ghost predicate Admitted(before: seq<Event>, after: seq<Event>, started: real) {
    exists s ::
      after == before + Admission(s) + [Clock(Finite(started))] && IsSystem(s) && TemperaturesSafe(s) && started >= 0.0
  }

  /** Admission shared by the two Ftst drivers: one system read with safe temperatures,
      no stop request and a usable clock. Nothing is written.
   */
  method AdmitBaseline(b: TrialBackend) returns (started: Option<real>)
    modifies b`calls, b`log
    ensures old(b.log) <= b.log && Attempts(b.log) == Attempts(old(b.log))
    ensures started.Some? ==>
              && Admitted(old(b.log), b.log, started.value)
              && started.value >= 0.0 && LatestRead(b.log).Some? && Deviations(b.log) == Deviations(old(b.log))
              && IsSystem(LatestRead(b.log).value) && TemperaturesSafe(LatestRead(b.log).value)
    ensures started.None? ==> Refused(old(b.log), b.log)
  {
    hide Attempts, LatestRead, Deviations, Run, TemperaturesSafe, Counted;
    var baseline := b.ReadObservation(true);
    if baseline.None? || !IsSystem(baseline.value) {
      return None;
    }
    if !TemperaturesSafe(baseline.value) {
      return None;
    }
    var stop := b.ShouldStop();
    if stop {
      return None;
    }
    assert b.log == old(b.log) + Admission(baseline.value);
    var now := b.MonotonicSeconds();
    if !now.Finite? || now.value < 0.0 {
      return None;
    }
    return Some(now.value);
  }

  // ---------------------------------------------------------------------------
  // trial_check_ftst
  // ---------------------------------------------------------------------------

  /** Why no effect was seen: a read was lost or too hot or cold, a stop was requested, a
      wait failed, or 21 reads over ten seconds showed none.
   */
  predicate Unseen(before: seq<Event>, after: seq<Event>) {
    && before < after
    && var e, t, t' := after[|after| - 1], Counted(before), Counted(after);
       || e == Read(true, None) || e == StopAsked(true) || e == Wait(500, false)
       || (LatestRead(after).Some? && !TemperaturesSafe(LatestRead(after).value) && t'.made > t.made)
       || (t'.made == t.made + FTST_EFFECT_WAIT_HALF_SECONDS + 1
           && t'.waited == t.waited + FTST_EFFECT_WAIT_HALF_SECONDS * 500)
  }

  /** No successful read between two positions showed anything but system mode. */
  predicate AllSystem(log: seq<Event>, from: nat, to: nat) {
    forall i | from <= i < to <= |log| :: log[i].Read? && log[i].result.Some? ==> IsSystem(log[i].result.value)
  }

  /** Up to ten seconds of reads after Ftst=1, until the first that is not system mode. */
  method WatchEffect(b: TrialBackend) returns (effect: Option<Snapshot>, ghost at: nat)
    requires LatestRead(b.log).Some? && IsSystem(LatestRead(b.log).value)
    modifies b`calls, b`changed, b`log
    ensures old(b.log) <= b.log && Attempts(b.log) == Attempts(old(b.log)) && AllNoted(b)
    ensures effect.Some? ==>
              && !IsSystem(effect.value) && |old(b.log)| <= at < |b.log| <= at + 2 && b.log[at] == Read(true, effect)
              && AllSystem(b.log, |old(b.log)|, at)
    ensures effect.None? ==>
              && LatestRead(b.log).Some? && IsSystem(LatestRead(b.log).value) && Unseen(old(b.log), b.log)
              && AllSystem(b.log, |old(b.log)|, |b.log|)
  {
    hide Attempts, LatestRead, Deviations, Run, SystemFans, IsSystem, TemperaturesSafe, Counted;
    at := 0;
    ghost var t := Counted(b.log);
    var half := 0;
    while true
      invariant 0 <= half <= FTST_EFFECT_WAIT_HALF_SECONDS
      invariant old(b.log) <= b.log && Attempts(b.log) == Attempts(old(b.log)) && AllNoted(b)
      invariant LatestRead(b.log).Some? && IsSystem(LatestRead(b.log).value) && AllSystem(b.log, |old(b.log)|, |b.log|)
      invariant Counted(b.log).made == t.made + half && Counted(b.log).waited == t.waited + half * 500
      decreases FTST_EFFECT_WAIT_HALF_SECONDS - half
    {
      at := |b.log|;
      var after := b.ReadObservation(true);
      if after.None? {
        return None, 0;
      }
      b.RecordObservation(half, after.value);
      b.NoteFanState(after.value);
      if !IsSystem(after.value) {
        return after, at;
      }
      if !TemperaturesSafe(after.value) {
        return None, 0;
      }
      var stop := b.ShouldStop();
      if stop || half == FTST_EFFECT_WAIT_HALF_SECONDS {
        return None, 0;
      }
      var waited := b.WaitMilliseconds(500);
      if !waited {
        return None, 0;
      }
      half := half + 1;
    }
  }

  /** The attempts of a successful check: Ftst=1 once, then at most three clears. */
  predicate SetThenCleared(before: seq<Attempt>, after: seq<Attempt>) {
    && before < after && after[|before|].event == WriteFtst(1, true)
    && OnlyClears(after[..|before| + 1], after, 3)
  }

  /** Every attempt restores, except one Ftst=1 right after before. */
  predicate SetThenRestored(before: seq<Attempt>, after: seq<Attempt>) {
    after == before ||
    (before < after && after[|before|].event.WriteFtst? && after[|before|].event.value == 1
     && forall i | |before| < i < |after| :: Restoring(after[i]))
  }

  /** Ftst took effect while both fans stayed with the system, at safe temperatures. */
  predicate Locked(s: Snapshot) {
    s.ftst == 1 && SystemFans(s) && TemperaturesSafe(s)
  }

  predicate SawLocked(log: seq<Event>, from: nat) {
    exists i | from <= i < |log| :: log[i].Read? && log[i].result.Some? && Locked(log[i].result.value)
  }

  /** What a check did after admission: the write, the first read out of system mode if there
      was one, the trace when that was judged, and the procedures given up.
   */
  datatype Check = Check(
    admitted: seq<Event>, started: real, writeOk: bool, effect: Option<Snapshot>, at: nat,
    watched: seq<Event>, judged: seq<Event>, stops: seq<Stop>)

  /** The effect of an accepted write was exactly Ftst=1, within five seconds of admission,
      and no stop was requested.
   */
  predicate Undisturbed(writeOk: bool, effect: Snapshot, started: real, before: seq<Event>, after: seq<Event>) {
    && writeOk && Locked(effect) && |after| == |before| + 2 && before <= after
    && after[|before|].Clock? && Below(Subtract(after[|before|].time, Finite(started)), 5.0)
    && after[|before| + 1] == StopAsked(false)
  }

  /** It was not accepted, not exactly that, not soon enough, or a stop was requested. */
  predicate Disturbed(writeOk: bool, effect: Snapshot, started: real, before: seq<Event>, after: seq<Event>) {
    || !writeOk || !Locked(effect)
    || (|after| == |before| + 1 && after[|before|].Clock?
        && !Below(Subtract(after[|before|].time, Finite(started)), 5.0))
    || (|after| == |before| + 2 && after[|before| + 1] == StopAsked(true))
  }

  /** The trace of a check shows this. */
  ghost predicate Checked(c: Check, before: seq<Event>, after: seq<Event>, recorded: bool) {
    && Admitted(before, c.admitted, c.started)
    && c.admitted + [WriteFtst(1, c.writeOk)] <= c.watched <= c.judged <= after && Stops(c.stops, c.judged, after, recorded)
    && match c.effect
       case None => Unseen(c.admitted + [WriteFtst(1, c.writeOk)], c.watched) && c.judged == c.watched
       case Some(effect) =>
         && !IsSystem(effect) && |c.admitted| < c.at < |c.watched| <= c.at + 2 && c.watched[c.at] == Read(true, Some(effect))
         && AllSystem(c.watched, |c.admitted| + 1, c.at)
         && (Undisturbed(c.writeOk, effect, c.started, c.watched, c.judged)
             || Disturbed(c.writeOk, effect, c.started, c.watched, c.judged))
  }

  /** How a check must end: it succeeds exactly if the effect was undisturbed, no read showed
      a fan changed and no procedure was given up. Restoring fails only with a procedure
      given up at the end of the trace, not the first one, or with a rejected clear.
   */
  ghost predicate CheckedSo(c: Check, status: RunStatus, before: seq<Event>, after: seq<Event>) {
    && (status.Succeeded? <==>
          && c.effect.Some? && Undisturbed(c.writeOk, c.effect.value, c.started, c.watched, c.judged)
          && Deviations(after) == Deviations(before) && c.stops == [])
    && (status.WriteEffectUnverified? ==> c.effect.None? && |c.stops| <= 1)
    && (status.ControlFailedSystemVerified? ==> c.effect.Some? && |c.stops| <= 1)
    && (status.RestoreFailed? ==>
          || (|c.stops| == 2 && EndsStopped(c.stops, after))
          || (c.effect.None? && |Attempts(after)| > |Attempts(c.watched)|
              && Attempts(after)[|Attempts(c.watched)|].event == WriteFtst(0, false)))
  }

  /** The check runs on a copy of the backend that tracks fan state from a clean flag. */
  method CheckFtst(b: TrialBackend) returns (status: RunStatus, ghost check: Check)
    modifies b
    ensures !(UNLOCK_CALLBACKS <= b.callbacks) ==> status == RestoreFailed && b.log == old(b.log)
    ensures UNLOCK_CALLBACKS <= b.callbacks ==> old(b.log) <= b.log && FailClosed(status, old(b.log), b.log)
    ensures UNLOCK_CALLBACKS <= b.callbacks ==> (status == BaselineRejected <==> Attempts(b.log) == Attempts(old(b.log)))
    ensures status == BaselineRejected ==> Refused(old(b.log), b.log)
    ensures UNLOCK_CALLBACKS <= b.callbacks && status != BaselineRejected ==>
              && Checked(check, old(b.log), b.log, CanRecord in b.callbacks)
              && CheckedSo(check, status, old(b.log), b.log)
    ensures status == WriteEffectUnverified ==>
              && |Attempts(b.log)| > |Attempts(old(b.log))|
              && Released(Attempts(b.log)[..|Attempts(old(b.log))| + 1], Attempts(b.log), true)
    ensures SetThenRestored(Attempts(old(b.log)), Attempts(b.log))
    ensures status == Succeeded ==>
              && Deviations(b.log) == Deviations(old(b.log)) && SetThenCleared(Attempts(old(b.log)), Attempts(b.log))
              && SawLocked(b.log, |old(b.log)|)
    ensures b.tracking == old(b.tracking) && b.changed == old(b.changed)
  {
    check := Check([], 0.0, false, None, 0, [], [], []);
    if !(UNLOCK_CALLBACKS <= b.callbacks) {
      return RestoreFailed, check;
    }
    var tracking, changed := b.tracking, b.changed;
    b.tracking, b.changed := true, false;
    status, check := CheckTracked(b);
    b.tracking, b.changed := tracking, changed;
  }

  method CheckTracked(b: TrialBackend) returns (status: RunStatus, ghost check: Check)
    requires UNLOCK_CALLBACKS <= b.callbacks && b.tracking && !b.changed
    modifies b`calls, b`changed, b`log
    ensures old(b.log) <= b.log && FailClosed(status, old(b.log), b.log)
    ensures status == BaselineRejected <==> Attempts(b.log) == Attempts(old(b.log))
    ensures status == BaselineRejected ==> Refused(old(b.log), b.log)
    ensures status != BaselineRejected ==>
              && Checked(check, old(b.log), b.log, CanRecord in b.callbacks)
              && CheckedSo(check, status, old(b.log), b.log)
    ensures status == WriteEffectUnverified ==>
              && |Attempts(b.log)| > |Attempts(old(b.log))|
              && Released(Attempts(b.log)[..|Attempts(old(b.log))| + 1], Attempts(b.log), true)
    ensures SetThenRestored(Attempts(old(b.log)), Attempts(b.log))
    ensures status == Succeeded ==>
              && Deviations(b.log) == Deviations(old(b.log)) && SetThenCleared(Attempts(old(b.log)), Attempts(b.log))
              && SawLocked(b.log, |old(b.log)|)
  {
    hide Attempts, LatestRead, Deviations, Run, SystemFans, TemperaturesSafe, StableMinuteSince, OnlyRestores,
      OnlyClears, SawLocked, Troubled, Refused, Released, Counted, Admitted, Unseen, Stops, Undisturbed, Disturbed, IsSystem,
      Locked, AllSystem, EndsStopped;
    ghost var before := Attempts(b.log);
    check := Check([], 0.0, false, None, 0, [], [], []);
    var started := AdmitBaseline(b);
    if started.None? {
      return BaselineRejected, check;
    }
    ghost var admitted := b.log;
    var writeOk := b.AttemptFtst(1);
    ghost var afterSet := Attempts(b.log);
    var effect, at := WatchEffect(b);
    ghost var from, watched, stops := |b.log|, b.log, [];
    check := Check(admitted, started.value, writeOk, effect, at, watched, watched, []);
    if effect.Some? {
      var unlockOk := EffectUndisturbed(b, writeOk, effect.value, started.value);
      check := check.(judged := b.log);
      from := |b.log|;
      status, stops := RecoverFromEffect(b, unlockOk);
      if status == Succeeded {
        UndisturbedLocked(writeOk, effect.value, started.value, watched, check.judged);
        LockedSeen(b.log, |old(b.log)|, at);
      }
    } else {
      status, stops := ReleaseUnseen(b);
    }
    check := check.(stops := stops);
    SetComposes(before, afterSet, Attempts(b.log), status == Succeeded);
    if status != RestoreFailed {
      StableSinceEarlier(Run(b.log), |old(b.log)|);
    } else {
      TroubledLater(b.log, b.log, from, |old(b.log)|);
    }
  }

  lemma {:induction false} UndisturbedLocked(writeOk: bool, effect: Snapshot, started: real, before: seq<Event>,
                                             after: seq<Event>)
    requires Undisturbed(writeOk, effect, started, before, after)
    ensures writeOk && Locked(effect)
  {
  }

  lemma {:induction false} SetComposes(before: seq<Attempt>, set1: seq<Attempt>, after: seq<Attempt>, succeeded: bool)
    requires |set1| == |before| + 1 && before <= set1
    requires set1[|before|].event.WriteFtst? && set1[|before|].event.value == 1
    requires OnlyRestores(set1, after, 200)
    requires succeeded ==> set1[|before|].event.ok && OnlyClears(set1, after, 3)
    ensures SetThenRestored(before, after) && (succeeded ==> SetThenCleared(before, after))
    ensures before < after && after[|before|] == set1[|before|] && after[..|before| + 1] == set1
  {
    assert after[..|before| + 1] == set1;
  }

  lemma {:induction false} LockedSeen(log: seq<Event>, from: nat, at: nat)
    requires from <= at < |log| && log[at].Read? && log[at].result.Some? && Locked(log[at].result.value)
    ensures SawLocked(log, from)
  {
  }

  /** Whether the effect of an accepted write showed exactly Ftst=1, soon and safely. */
  method EffectUndisturbed(b: TrialBackend, writeOk: bool, effect: Snapshot, started: real) returns (undisturbed: bool)
    modifies b`calls, b`log
    ensures old(b.log) <= b.log && Attempts(b.log) == Attempts(old(b.log))
    ensures Deviations(b.log) == Deviations(old(b.log))
    ensures undisturbed == Undisturbed(writeOk, effect, started, old(b.log), b.log)
    ensures !undisturbed ==> Disturbed(writeOk, effect, started, old(b.log), b.log)
  {
    hide Attempts, LatestRead, Deviations, Run, SystemFans, TemperaturesSafe, Counted;
    if !writeOk || effect.ftst != 1 || !SystemFans(effect) || !TemperaturesSafe(effect) {
      return false;
    }
    var now := b.MonotonicSeconds();
    if !Below(Subtract(now, Finite(started)), 5.0) {
      return false;
    }
    var stop := b.ShouldStop();
    return !stop;
  }

  /** Restore and watch; if the minute is spoiled, once more. What was given up on the way
      decides what is verified.
   */
  method RecoverAndWatch(b: TrialBackend) returns (verified: bool, ghost stops: seq<Stop>, clean: bool, restored: bool)
    requires UNLOCK_CALLBACKS <= b.callbacks
    modifies b`calls, b`changed, b`log
    ensures old(b.log) <= b.log && Honest(b)
    ensures Stops(stops, old(b.log), b.log, CanRecord in b.callbacks)
    ensures (clean <==> verified && stops == []) && (verified ==> |stops| <= 1)
    ensures restored <==> stops == [] || !(stops[0].UnlockStop? && stops[0].before == old(b.log))
    ensures !verified ==> |stops| == 2 && EndsStopped(stops, b.log)
    ensures OnlyRestores(Attempts(old(b.log)), Attempts(b.log), 130)
    ensures if verified then StableMinuteSince(Run(b.log), |old(b.log)|) else Troubled(b.log, |old(b.log)|)
    ensures clean && b.tracking && !b.changed ==>
              Deviations(b.log) == Deviations(old(b.log)) && OnlyClears(Attempts(old(b.log)), Attempts(b.log), 3)
  {
    hide Attempts, LatestRead, Deviations, Run, SystemFans, StableMinuteSince, Restoring, Clearing, Troubled, Counted,
      Stops, Took, Restores, WindowEnded, EndsStopped;
    ghost var recorded := CanRecord in b.callbacks;
    NoStops(b.log, b.log, recorded);
    stops, clean := [], false;
    ghost var course, status;
    restored, course := RestoreUnlock(b);
    ghost var mid, log := Attempts(b.log), b.log;
    if !restored {
      FirstStop(old(b.log), recorded, UnlockStop(old(b.log), log, course), log);
      stops := [UnlockStop(old(b.log), log, course)];
      verified, status := ObserveAfterFtst(b);
      if verified {
        StableSinceEarlier(Run(b.log), |old(b.log)|);
        StopsLater(stops, old(b.log), log, recorded, old(b.log), b.log);
      } else {
        OneMoreStop(stops, old(b.log), log, recorded, WindowStop(log, b.log, status), b.log);
        stops := stops + [WindowStop(log, b.log, status)];
      }
      TroubledLater(log, b.log, |old(b.log)|, |old(b.log)|);
      RestoresCompose(Attempts(old(b.log)), mid, Attempts(b.log), 65, 65);
      return;
    }
    var stable;
    stable, status := ObserveAfterFtst(b);
    ghost var watched := b.log;
    if stable {
      NoStops(old(b.log), b.log, recorded);
      StableSinceEarlier(Run(b.log), |old(b.log)|);
      verified, clean := true, true;
      RestoresCompose(Attempts(old(b.log)), mid, Attempts(b.log), 65, 65);
      return;
    }
    NoStops(old(b.log), log, recorded);
    FirstStop(old(b.log), recorded, WindowStop(log, watched, status), watched);
    stops := [WindowStop(log, watched, status)];
    TroubledLater(b.log, b.log, |log|, |old(b.log)|);
    verified, stops := RestoreAgain(b, old(b.log), log, stops);
    RestoresCompose(Attempts(old(b.log)), mid, Attempts(b.log), 65, 65);
    TroubledLater(watched, b.log, |old(b.log)|, |old(b.log)|);
  }

  /** The second try, after a first minute was spoiled. */
  method RestoreAgain(b: TrialBackend, ghost before: seq<Event>, ghost log: seq<Event>, ghost given: seq<Stop>)
    returns (verified: bool, ghost stops: seq<Stop>)
    requires UNLOCK_CALLBACKS <= b.callbacks && before <= log <= b.log
    requires |given| == 1 && Stops(given, before, b.log, CanRecord in b.callbacks) && given[0].after == b.log
    modifies b`calls, b`changed, b`log
    ensures old(b.log) <= b.log && Honest(b)
    ensures Stops(stops, before, b.log, CanRecord in b.callbacks)
    ensures if verified then stops == given else |stops| == 2 && EndsStopped(stops, b.log) && stops[0] == given[0]
    ensures OnlyRestores(Attempts(old(b.log)), Attempts(b.log), 65)
    ensures verified ==> StableMinuteSince(Run(b.log), |before|)
  {
    hide Attempts, LatestRead, Deviations, Run, StableMinuteSince, Restoring, Troubled, Counted, Stops, Took, Restores,
      WindowEnded;
    ghost var recorded, here, course, status := CanRecord in b.callbacks, b.log, Unread, BaselineStable;
    stops := given;
    verified, course := RestoreUnlock(b);
    if !verified {
      OneMoreStop(given, before, here, recorded, UnlockStop(here, b.log, course), b.log);
      stops := given + [UnlockStop(here, b.log, course)];
      return;
    }
    ghost var again := b.log;
    StopsLater(given, before, here, recorded, before, again);
    verified, status := ObserveAfterFtst(b);
    if verified {
      StopsLater(given, before, here, recorded, before, b.log);
      StableSinceEarlier(Run(b.log), |before|);
    } else {
      OneMoreStop(given, before, again, recorded, WindowStop(again, b.log, status), b.log);
      stops := given + [WindowStop(again, b.log, status)];
    }
  }

  /** Recover from an observed effect; always end with an observed minute. */
  method RecoverFromEffect(b: TrialBackend, undisturbed: bool) returns (status: RunStatus, ghost stops: seq<Stop>)
    requires UNLOCK_CALLBACKS <= b.callbacks && b.tracking
    modifies b`calls, b`changed, b`log
    ensures old(b.log) <= b.log && Honest(b)
    ensures OnlyRestores(Attempts(old(b.log)), Attempts(b.log), 200)
    ensures status != BaselineRejected && status != WriteEffectUnverified
    ensures Stops(stops, old(b.log), b.log, CanRecord in b.callbacks)
    ensures if status != RestoreFailed then StableMinuteSince(Run(b.log), |old(b.log)|) else Troubled(b.log, |old(b.log)|)
    ensures status == RestoreFailed ==> |stops| == 2 && EndsStopped(stops, b.log)
    ensures status == ControlFailedSystemVerified ==> |stops| <= 1
    ensures status == Succeeded <==> undisturbed && stops == [] && !b.changed
    ensures status == Succeeded ==>
              Deviations(b.log) == Deviations(old(b.log)) && OnlyClears(Attempts(old(b.log)), Attempts(b.log), 3)
  {
    hide Attempts, LatestRead, Deviations, Run, SystemFans, StableMinuteSince, Restoring, Clearing, Troubled, Counted,
      Stops, EndsStopped;
    var verified, clean, restored;
    verified, stops, clean, restored := RecoverAndWatch(b);
    if !verified {
      return RestoreFailed, stops;
    }
    return if undisturbed && clean && !b.changed then Succeeded else ControlFailedSystemVerified, stops;
  }

  /** The first attempt after before clears Ftst, and was accepted if so stated. */
  predicate Released(before: seq<Attempt>, after: seq<Attempt>, accepted: bool) {
    && |after| > |before| && after[|before|].event.WriteFtst? && after[|before|].event.value == 0
    && (accepted ==> after[|before|].event.ok)
  }

  /** No effect was seen: clear Ftst anyway, whatever the first write answered. */
  method ReleaseUnseen(b: TrialBackend) returns (status: RunStatus, ghost stops: seq<Stop>)
    requires UNLOCK_CALLBACKS <= b.callbacks
    requires LatestRead(b.log).Some? && IsSystem(LatestRead(b.log).value)
    modifies b`calls, b`changed, b`log
    ensures old(b.log) <= b.log && Honest(b)
    ensures OnlyRestores(Attempts(old(b.log)), Attempts(b.log), 200)
    ensures status in {RestoreFailed, WriteEffectUnverified}
    ensures Stops(stops, old(b.log), b.log, CanRecord in b.callbacks)
    ensures if status != RestoreFailed then StableMinuteSince(Run(b.log), |old(b.log)|) else Troubled(b.log, |old(b.log)|)
    ensures Released(Attempts(old(b.log)), Attempts(b.log), status == WriteEffectUnverified)
    ensures |Attempts(b.log)| > |Attempts(old(b.log))|
    ensures status == WriteEffectUnverified ==> |stops| <= 1
    ensures status == RestoreFailed ==>
              || (|stops| == 2 && EndsStopped(stops, b.log))
              || Attempts(b.log)[|Attempts(old(b.log))|].event == WriteFtst(0, false)
  {
    hide Attempts, LatestRead, Deviations, Run, StableMinuteSince, Troubled, Counted, Stops, WindowEnded, EndsStopped;
    ghost var recorded := CanRecord in b.callbacks;
    var releaseOk := b.AttemptFtst(0);
    ghost var mid := Attempts(b.log);
    assert OnlyRestores(Attempts(old(b.log)), mid, 1);
    hide Restoring;
    ghost var log := b.log;
    if !releaseOk {
      TroubledNow(b.log, |old(b.log)|);
    }
    var stable;
    ghost var ended;
    stable, ended := ObserveAfterFtst(b);
    NoStops(old(b.log), log, recorded);
    stops := [];
    if stable {
      NoStops(old(b.log), b.log, recorded);
      StableSinceEarlier(Run(b.log), |old(b.log)|);
    } else {
      TroubledLater(b.log, b.log, |log|, |old(b.log)|);
      ghost var watched := b.log;
      FirstStop(old(b.log), recorded, WindowStop(log, watched, ended), watched);
      stops := [WindowStop(log, watched, ended)];
      assert EndsStopped(stops, watched);
      stable, stops := RestoreAgain(b, old(b.log), log, stops);
      TroubledLater(watched, b.log, |old(b.log)|, |old(b.log)|);
    }
    RestoresCompose(Attempts(old(b.log)), mid, Attempts(b.log), 1, 65);
    if !releaseOk {
      TroubledLater(log, b.log, |old(b.log)|, |old(b.log)|);
    }
    return if stable && releaseOk then WriteEffectUnverified else RestoreFailed, stops;
  }

  // ---------------------------------------------------------------------------
  // trial_rehearse_ftst_minimum_recovery
  // ---------------------------------------------------------------------------

  predicate AtMinimum(s: Snapshot, minimum: Rpms) {
    forall fan | 0 <= fan < 2 ::
      s.target[fan].Finite? && minimum[fan].Finite? && -1.0 <= s.target[fan].value - minimum[fan].value <= 1.0
  }

  /** The state the rehearsal waits for: Ftst set, both fans released at their minimum targets. */
  predicate MinimumState(s: Snapshot, minimum: Rpms) {
    s.ftst == 1 && BothReleased(s) && AtMinimum(s, minimum) && TemperaturesSafe(s)
  }

  predicate SawMinimum(log: seq<Event>, from: nat, minimum: Rpms) {
    exists i | from <= i < |log| :: log[i].Read? && log[i].result.Some? && MinimumState(log[i].result.value, minimum)
  }

  lemma {:induction false} MinimumSeen(log: seq<Event>, from: nat, minimum: Rpms, at: nat)
    requires from <= at < |log| && log[at].Read? && log[at].result.Some? && MinimumState(log[at].result.value, minimum)
    ensures SawMinimum(log, from, minimum)
  {
  }

  /** A read in time and at safe temperatures that settles the matter: it shows the fans
      released, or anything but an untouched machine with Ftst clear or set.
   */
  predicate Settles(s: Snapshot) {
    (s.ftst == 1 && BothReleased(s)) || (s.ftst != 0 && s.ftst != 1) || !SystemFans(s)
  }

  /** The clock value is not within five seconds of the start. */
  predicate OutOfTime(now: Double, started: real) {
    var elapsed := Subtract(now, Finite(started));
    !elapsed.Finite? || elapsed.value < 0.0 || elapsed.value > 5.0
  }

  /** Why watching for the minimum state ended: a stop, a lost read, a failed wait, or a
      clock value after a read out of time, too hot or cold, that settles the matter, at
      five seconds, or the eleventh.
   */
  predicate WatchEnded(before: seq<Event>, after: seq<Event>, started: real) {
    && before < after
    && var e := after[|after| - 1];
       || e == StopAsked(true) || e == Read(true, None) || e == Wait(500, false)
       || (e.Clock? && LatestRead(after).Some?
           && (OutOfTime(e.time, started) || !TemperaturesSafe(LatestRead(after).value) || Settles(LatestRead(after).value)
               || Subtract(e.time, Finite(started)).value >= 5.0
               || Counted(after).made == Counted(before).made + 11))
  }

  /** No read since position from but perhaps the latest showed Ftst set. */
  predicate NoneSet(log: seq<Event>, from: nat, before: nat) {
    forall i | from <= i < before <= |log| :: log[i].Read? && log[i].result.Some? ==> log[i].result.value.ftst != 1
  }

  /** The latest read came out of time, or too hot or cold. */
  predicate Spoiled(log: seq<Event>, started: real) {
    && |log| > 0 && log[|log| - 1].Clock? && LatestRead(log).Some?
    && (OutOfTime(log[|log| - 1].time, started) || !TemperaturesSafe(LatestRead(log).value))
  }

  /** One read in time and at safe temperatures, if nobody asks to stop. */
  method LookOnce(b: TrialBackend, half: nat, started: real)
    returns (current: Option<Snapshot>, elapsed: Double, ghost at: nat)
    modifies b`calls, b`log
    ensures old(b.log) < b.log && Attempts(b.log) == Attempts(old(b.log)) && at == |old(b.log)| + 1
    ensures Counted(b.log).made <= Counted(old(b.log)).made + 1
    ensures forall i | |old(b.log)| <= i < |b.log| && i != at :: !b.log[i].Read?
    ensures current.Some? ==>
              && at < |b.log| <= at + 3 && b.log[at] == Read(true, current) && LatestRead(b.log) == current
              && b.log[|b.log| - 1].Clock? && elapsed == Subtract(b.log[|b.log| - 1].time, Finite(started))
              && elapsed.Finite? && 0.0 <= elapsed.value <= 5.0 && TemperaturesSafe(current.value)
              && Counted(b.log).made == Counted(old(b.log)).made + 1
    ensures current.None? ==>
              || (b.log[|b.log| - 1] == StopAsked(true) && |b.log| == at)
              || (b.log[|b.log| - 1] == Read(true, None) && |b.log| == at + 1)
              || (Spoiled(b.log, started) && |b.log| <= at + 3)
  {
    hide Attempts, LatestRead, Deviations, Run, TemperaturesSafe, Counted;
    current, elapsed, at := None, NaN, |b.log| + 1;
    var stop := b.ShouldStop();
    if stop {
      return;
    }
    var result := b.ReadObservation(true);
    if result.None? {
      return;
    }
    b.RecordObservation(half, result.value);
    var now := b.MonotonicSeconds();
    elapsed := Subtract(now, Finite(started));
    if !elapsed.Finite? || elapsed.value < 0.0 || elapsed.value > 5.0 {
      return;
    }
    if !TemperaturesSafe(result.value) {
      return;
    }
    current := result;
  }

  /** At most five seconds of reads, until the minimum-target state appears. */
  method WatchMinimum(b: TrialBackend, minimum: Rpms, started: real)
    returns (sawFtst: bool, sawMinimum: bool, ghost at: nat)
    modifies b`calls, b`log
    ensures old(b.log) <= b.log && Attempts(b.log) == Attempts(old(b.log))
    ensures WatchEnded(old(b.log), b.log, started)
    ensures sawMinimum ==> sawFtst
    ensures sawFtst ==>
              |old(b.log)| <= at < |b.log| && b.log[at].Read? && b.log[at].result.Some? && b.log[at].result.value.ftst == 1
    ensures sawMinimum <==> sawFtst && at + 3 >= |b.log| && MinimumState(b.log[at].result.value, minimum)
    ensures !sawFtst ==>
              || NoneSet(b.log, |old(b.log)|, |b.log|)
              || (|b.log| >= 3 && NoneSet(b.log, |old(b.log)|, |b.log| - 3) && Spoiled(b.log, started))
  {
    hide Attempts, LatestRead, Deviations, Run, SystemFans, TemperaturesSafe, Counted, AtMinimum;
    sawFtst, sawMinimum, at := false, false, 0;
    ghost var t := Counted(b.log);
    for half := 0 to 11
      invariant old(b.log) <= b.log && Attempts(b.log) == Attempts(old(b.log)) && !sawMinimum
      invariant half <= 10 && Counted(b.log).made == t.made + half
      invariant sawFtst ==>
                  && |old(b.log)| <= at && at + 2 <= |b.log|
                  && b.log[at].Read? && b.log[at].result.Some? && b.log[at].result.value.ftst == 1
                  && !BothReleased(b.log[at].result.value)
      invariant !sawFtst ==> NoneSet(b.log, |old(b.log)|, |b.log|)
    {
      ghost var turn, here := b.log, 0;
      var result, elapsed;
      result, elapsed, here := LookOnce(b, half, started);
      if result.None? {
        return;
      }
      var current := result.value;
      if current.ftst == 1 {
        sawFtst, at := true, here;
        if BothReleased(current) {
          sawMinimum := AtMinimum(current, minimum);
          return;
        }
        if !SystemFans(current) {
          return;
        }
      } else if current.ftst != 0 || !SystemFans(current) {
        return;
      }
      if elapsed.value >= 5.0 || half == 10 {
        return;
      }
      var waited := b.WaitMilliseconds(500);
      if !waited {
        return;
      }
    }
  }

  predicate MinimumUnusable(minimum: Rpms) {
    exists fan | 0 <= fan < 2 :: !minimum[fan].Finite? || minimum[fan].value <= 0.0
  }

  /** What a rehearsal did after admission. */
  datatype Rehearsal = Rehearsal(
    admitted: seq<Event>, started: real, writeOk: bool, sawFtst: bool, sawMinimum: bool, at: nat,
    watched: seq<Event>, stops: seq<Stop>)

  /** The trace of a rehearsal shows this. */
  ghost predicate Rehearsed(c: Rehearsal, minimum: Rpms, before: seq<Event>, after: seq<Event>, recorded: bool) {
    && Admitted(before, c.admitted, c.started)
    && c.admitted + [WriteFtst(1, c.writeOk)] <= c.watched <= after && Stops(c.stops, c.watched, after, recorded)
    && WatchEnded(c.admitted + [WriteFtst(1, c.writeOk)], c.watched, c.started)
    && (c.sawFtst ==>
          && |c.admitted| < c.at < |c.watched| && c.watched[c.at].Read? && c.watched[c.at].result.Some?
          && c.watched[c.at].result.value.ftst == 1)
    && (c.sawMinimum <==>
          c.sawFtst && c.at + 3 >= |c.watched| && MinimumState(c.watched[c.at].result.value, minimum))
    && (!c.sawFtst ==>
          || NoneSet(c.watched, |c.admitted| + 1, |c.watched|)
          || (|c.watched| >= 3 && NoneSet(c.watched, |c.admitted| + 1, |c.watched| - 3) && Spoiled(c.watched, c.started)))
  }

  /** How a rehearsal must end: it succeeds exactly if the write was accepted, the minimum
      state was seen and no procedure was given up; the effect is unverified only if the
      write was rejected or Ftst was not seen set; restoring fails only with a procedure
      given up at the end of the trace, not the first one.
   */
  predicate RehearsedSo(c: Rehearsal, status: RunStatus, after: seq<Event>) {
    && (status.Succeeded? <==> c.writeOk && c.sawMinimum && c.stops == [])
    && (status.WriteEffectUnverified? ==> !(c.writeOk && c.sawFtst) && |c.stops| <= 1)
    && (status.ControlFailedSystemVerified? ==>
          |c.stops| <= 1 && (c.stops == [] ==> c.writeOk && c.sawFtst && !c.sawMinimum))
    && (status.RestoreFailed? ==> |c.stops| == 2 && EndsStopped(c.stops, after))
  }

  method RehearseFtstMinimumRecovery(b: TrialBackend, minimum: Rpms)
    returns (status: RunStatus, ghost rehearsal: Rehearsal)
    modifies b`calls, b`changed, b`log
    ensures !(UNLOCK_CALLBACKS <= b.callbacks) ==> status == RestoreFailed && b.log == old(b.log)
    ensures UNLOCK_CALLBACKS <= b.callbacks ==> old(b.log) <= b.log && FailClosed(status, old(b.log), b.log)
    ensures UNLOCK_CALLBACKS <= b.callbacks ==> (status == BaselineRejected <==> Attempts(b.log) == Attempts(old(b.log)))
    ensures status == BaselineRejected ==>
              if MinimumUnusable(minimum) then b.log == old(b.log) else Refused(old(b.log), b.log)
    ensures UNLOCK_CALLBACKS <= b.callbacks && status != BaselineRejected ==>
              && !MinimumUnusable(minimum)
              && Rehearsed(rehearsal, minimum, old(b.log), b.log, CanRecord in b.callbacks)
              && RehearsedSo(rehearsal, status, b.log)
    ensures SetThenRestored(Attempts(old(b.log)), Attempts(b.log))
    ensures status == Succeeded ==>
              && SawMinimum(b.log, |old(b.log)|, minimum)
              && |Attempts(b.log)| > |Attempts(old(b.log))|
              && Attempts(b.log)[|Attempts(old(b.log))|].event == WriteFtst(1, true)
  {
    hide Attempts, LatestRead, Deviations, Run, SystemFans, TemperaturesSafe, StableMinuteSince, OnlyRestores,
      MinimumState, SawMinimum, Troubled, Refused, Counted, Admitted, Stops, WatchEnded, NoneSet, Spoiled, EndsStopped;
    ghost var before := Attempts(b.log);
    rehearsal := Rehearsal([], 0.0, false, false, false, 0, [], []);
    if !(UNLOCK_CALLBACKS <= b.callbacks) {
      return RestoreFailed, rehearsal;
    }
    if MinimumUnusable(minimum) {
      return BaselineRejected, rehearsal;
    }
    var started := AdmitBaseline(b);
    if started.None? {
      return BaselineRejected, rehearsal;
    }
    ghost var admitted := b.log;
    var writeOk := b.AttemptFtst(1);
    ghost var afterSet := Attempts(b.log);
    var sawFtst, sawMinimum, at := WatchMinimum(b, minimum, started.value);
    ghost var from, stops := |b.log|, [];
    rehearsal := Rehearsal(admitted, started.value, writeOk, sawFtst, sawMinimum, at, b.log, []);
    status, stops := RecoverRehearsal(b, writeOk && sawFtst, sawMinimum);
    rehearsal := rehearsal.(stops := stops);
    SetComposes(before, afterSet, Attempts(b.log), false);
    if status != RestoreFailed {
      StableSinceEarlier(Run(b.log), |old(b.log)|);
    } else {
      TroubledLater(b.log, b.log, from, |old(b.log)|);
    }
    if status == Succeeded {
      MinimumSeen(b.log, |old(b.log)|, minimum, at);
    }
  }

  method RecoverRehearsal(b: TrialBackend, effectSeen: bool, minimumSeen: bool)
    returns (status: RunStatus, ghost stops: seq<Stop>)
    requires UNLOCK_CALLBACKS <= b.callbacks
    modifies b`calls, b`changed, b`log
    ensures old(b.log) <= b.log
    ensures OnlyRestores(Attempts(old(b.log)), Attempts(b.log), 200)
    ensures Stops(stops, old(b.log), b.log, CanRecord in b.callbacks)
    ensures status != BaselineRejected
    ensures if status != RestoreFailed then StableMinuteSince(Run(b.log), |old(b.log)|) else Troubled(b.log, |old(b.log)|)
    ensures status == Succeeded <==> effectSeen && minimumSeen && stops == []
    ensures status == WriteEffectUnverified ==> !effectSeen && |stops| <= 1
    ensures status == ControlFailedSystemVerified ==> |stops| <= 1 && (stops == [] ==> effectSeen && !minimumSeen)
    ensures status == RestoreFailed ==> |stops| == 2 && EndsStopped(stops, b.log)
  {
    hide Attempts, LatestRead, Deviations, Run, SystemFans, StableMinuteSince, Restoring, Clearing, Troubled, Counted,
      Stops, EndsStopped;
    var verified, clean, restored;
    verified, stops, clean, restored := RecoverAndWatch(b);
    if !verified {
      return RestoreFailed, stops;
    }
    if !restored {
      return ControlFailedSystemVerified, stops;
    }
    if !effectSeen {
      return WriteEffectUnverified, stops;
    }
    return if minimumSeen && clean then Succeeded else ControlFailedSystemVerified, stops;
  }

  // ---------------------------------------------------------------------------
  // trial_execute_direct
  // ---------------------------------------------------------------------------

  const DIRECT_CALLBACKS := {CanWriteMode, CanWriteTarget, CanRead, CanWait, CanTellTime, CanStop}

  /** Both fans in manual mode at their planned targets, Ftst clear, temperatures safe. */
  predicate ManualStateMatches(s: Snapshot, plan: Rpms) {
    && s.ftst == 0 && TemperaturesSafe(s)
    && forall fan | 0 <= fan < 2 ::
         && s.mode[fan] == 1 && s.target[fan].Finite? && plan[fan].Finite?
         && -1.0 <= s.target[fan].value - plan[fan].value <= 1.0
  }

  predicate ActualReachedTarget(baseline: Double, actual: Double, target: Double) {
    && baseline.Finite? && actual.Finite? && target.Finite? && actual.value > baseline.value
    && var tolerance := if target.value * 0.15 > 250.0 then target.value * 0.15 else 250.0;
       -tolerance <= actual.value - target.value <= tolerance
  }

  predicate ReachedPlan(s: Snapshot, baseline: Rpms, plan: Rpms) {
    forall fan | 0 <= fan < 2 :: ActualReachedTarget(baseline[fan], s.actual[fan], plan[fan])
  }

  /** The writes that take manual control, in order and all accepted. */
  function TakeoverEvents(plan: Rpms): seq<Event> {
    [WriteMode(0, 1, true), WriteTarget(0, plan[0], true), WriteMode(1, 1, true), WriteTarget(1, plan[1], true)]
  }

  /** The takeover got as far as its first k writes; only the last of them may have been rejected. */
  predicate Takeover(before: seq<Attempt>, after: seq<Attempt>, plan: Rpms, k: nat, accepted: bool) {
    && k <= 4 && before <= after && |after| == |before| + k
    && (forall i | 0 <= i < k - 1 :: after[|before| + i].event == TakeoverEvents(plan)[i])
    && (k > 0 ==>
          var e, wanted := after[|after| - 1].event, TakeoverEvents(plan)[k - 1];
          e == wanted || (!accepted && e == Rejected(wanted)))
  }

  function Rejected(e: Event): Event {
    match e
    case WriteMode(fan, mode, _) => WriteMode(fan, mode, false)
    case WriteTarget(fan, rpm, _) => WriteTarget(fan, rpm, false)
    case WriteFtst(value, _) => WriteFtst(value, false)
    case _ => e
  }

  /** Ftst was not written. */
  predicate NoFtst(before: seq<Attempt>, after: seq<Attempt>) {
    && before <= after
    && forall i | |before| <= i < |after| :: !after[i].event.WriteFtst?
  }

  lemma {:induction false} FansReleasedNoFtst(before: seq<Attempt>, after: seq<Attempt>)
    requires FansReleased(before, after)
    ensures NoFtst(before, after)
  {
  }

  lemma {:induction false} TakeoverNoFtst(before: seq<Attempt>, mid: seq<Attempt>, after: seq<Attempt>, plan: Rpms,
                                        k: nat)
    requires Takeover(before, mid, plan, k, false) && NoFtst(mid, after)
    ensures NoFtst(before, after)
  {
    forall i | |before| <= i < |after|
      ensures !after[i].event.WriteFtst?
    {
      if i < |mid| {
        var j := i - |before|;
        assert after[i] == mid[|before| + j];
        assert !TakeoverEvents(plan)[j].WriteFtst?;
      }
    }
  }

  /** A takeover, then only restoring writes to the fans. */
  ghost predicate TakenThenRestored(before: seq<Attempt>, after: seq<Attempt>, plan: Rpms, complete: bool) {
    exists mid, k: nat :: Takeover(before, mid, plan, k, complete) && OnlyRestores(mid, after, 80) && (complete ==> k == 4)
  }

  /** How the takeover of one fan went: stopped before it, rejected, or written in time or not. */
  datatype Taking = StopFirst | ModeRefused | TargetRefused(began: Double) | Taken(began: Double, ended: Double)

  /** The takeover of one fan went well: its target was accepted within a quarter of a second. */
  predicate InTime(t: Taking) {
    t.Taken? && !Above(Subtract(t.ended, t.began), 0.250)
  }

  /** Everything the takeover of one fan leaves in the trace; after a stop nothing is written. */
  function FanTaken(fan: nat, rpm: Double, t: Taking): seq<Event> {
    match t
    case StopFirst => [StopAsked(true)]
    case ModeRefused => [StopAsked(false)] + [WriteMode(fan, 1, false)]
    case TargetRefused(began) => [StopAsked(false)] + [WriteMode(fan, 1, true)] + [Clock(began)]
      + [WriteTarget(fan, rpm, false)]
    case Taken(began, ended) =>
      [StopAsked(false)] + [WriteMode(fan, 1, true)] + [Clock(began)] + [WriteTarget(fan, rpm, true)] + [Clock(ended)]
  }

  /** The takeover of both fans, the second only if the first went well. */
  function TakeoverTrace(plan: Rpms, t0: Taking, t1: Taking): seq<Event> {
    FanTaken(0, plan[0], t0) + if InTime(t0) then FanTaken(1, plan[1], t1) else []
  }

  /** How many writes it attempts. */
  function Writes(t: Taking): nat {
    match t
    case StopFirst => 0
    case ModeRefused => 1
    case _ => 2
  }

  method TakeFan(b: TrialBackend, fan: nat, rpm: Double) returns (ok: bool, ghost t: Taking)
    requires fan < 2
    modifies b`calls, b`log
    ensures b.log == old(b.log) + FanTaken(fan, rpm, t) && ok == InTime(t)
    ensures Attempts(old(b.log)) <= Attempts(b.log) && |Attempts(b.log)| == |Attempts(old(b.log))| + Writes(t)
    ensures Writes(t) > 0 ==> Attempts(b.log)[|Attempts(old(b.log))|].event == WriteMode(fan, 1, !t.ModeRefused?)
    ensures Writes(t) > 1 ==> Attempts(b.log)[|Attempts(old(b.log))| + 1].event == WriteTarget(fan, rpm, t.Taken?)
  {
    hide Attempts, LatestRead, Deviations, Run, Counted;
    var stop := b.ShouldStop();
    if stop {
      return false, StopFirst;
    }
    var accepted := b.AttemptMode(fan, 1);
    if !accepted {
      return false, ModeRefused;
    }
    var windowStarted := b.MonotonicSeconds();
    accepted := b.AttemptTarget(fan, rpm);
    if !accepted {
      return false, TargetRefused(windowStarted);
    }
    var now := b.MonotonicSeconds();
    return !Above(Subtract(now, windowStarted), 0.250), Taken(windowStarted, now);
  }

  /** Set mode 1 and the planned target of each fan, stopping at the first thing out of order. */
  method TakeOver(b: TrialBackend, plan: Rpms) returns (ok: bool, ghost k: nat, ghost t0: Taking, ghost t1: Taking)
    modifies b`calls, b`log
    ensures b.log == old(b.log) + TakeoverTrace(plan, t0, t1) && ok == (InTime(t0) && InTime(t1))
    ensures Takeover(Attempts(old(b.log)), Attempts(b.log), plan, k, ok) && (ok ==> k == 4)
  {
    hide Attempts, LatestRead, Deviations, Run, Counted, FanTaken;
    k, t0, t1 := 0, StopFirst, StopFirst;
    ghost var mid := b.log;
    var fan := 0;
    ok := true;
    while fan < 2 && ok
      invariant 0 <= fan <= 2
      invariant fan == 0 ==> b.log == old(b.log) && k == 0 && ok
      invariant fan == 1 ==> b.log == old(b.log) + FanTaken(0, plan[0], t0) && ok == InTime(t0)
      invariant fan == 2 ==> b.log == old(b.log) + TakeoverTrace(plan, t0, t1) && ok == (InTime(t0) && InTime(t1))
      invariant Takeover(Attempts(old(b.log)), Attempts(b.log), plan, k, ok)
      invariant ok ==> k == 2 * fan
    {
      ghost var here, taking := Attempts(b.log), StopFirst;
      ok, taking := TakeFan(b, fan, plan[fan]);
      TakeoverGrows(Attempts(old(b.log)), here, Attempts(b.log), plan, fan, taking, ok);
      if fan == 0 {
        t0, k := taking, Writes(taking);
      } else {
        t1, k := taking, 2 + Writes(taking);
      }
      fan := fan + 1;
    }
  }

  lemma {:induction false} TakeoverGrows(before: seq<Attempt>, mid: seq<Attempt>, after: seq<Attempt>, plan: Rpms,
                                        fan: nat,
                                         t: Taking, ok: bool)
    requires fan < 2 && Takeover(before, mid, plan, 2 * fan, true) && mid <= after && |after| == |mid| + Writes(t)
    requires Writes(t) > 0 ==> after[|mid|].event == WriteMode(fan, 1, !t.ModeRefused?)
    requires Writes(t) > 1 ==> after[|mid| + 1].event == WriteTarget(fan, plan[fan], t.Taken?)
    requires ok ==> t.Taken?
    ensures Takeover(before, after, plan, 2 * fan + Writes(t), ok)
  {
    var k := 2 * fan + Writes(t);
    forall i | 0 <= i < k - 1
      ensures after[|before| + i].event == TakeoverEvents(plan)[i]
    {
      if i < 2 * fan {
        assert after[|before| + i] == mid[|before| + i];
        assert i == 2 * fan - 1 ==> mid[|mid| - 1] == mid[|before| + i];
      }
    }
  }

  /** Positions of six reads of the manual state, the last of which reached the plan. */
  predicate HeldManually(log: seq<Event>, from: nat, held: seq<nat>, baseline: Rpms, plan: Rpms) {
    && |held| == OBSERVE_SECONDS + 1
    && ManualReads(log, from, held, plan)
    && ReachedPlan(log[held[|held| - 1]].result.value, baseline, plan)
  }

  predicate ManualReads(log: seq<Event>, from: nat, held: seq<nat>, plan: Rpms) {
    && (forall k | 0 < k < |held| :: held[k - 1] < held[k])
    && (forall k | 0 <= k < |held| ::
          && from <= held[k] < |log| && log[held[k]].Read? && log[held[k]].result.Some?
          && ManualStateMatches(log[held[k]].result.value, plan))
  }

  lemma {:induction false} ManualReadsKept(log: seq<Event>, longer: seq<Event>, from: nat, held: seq<nat>, plan: Rpms)
    requires log <= longer && ManualReads(log, from, held, plan)
    ensures ManualReads(longer, from, held, plan)
  {
  }

  lemma {:induction false} ManualReadsGrow(log: seq<Event>, longer: seq<Event>, from: nat, held: seq<nat>, plan: Rpms,
                                        at: nat)
    requires log <= longer && ManualReads(log, from, held, plan) && from <= at
    requires |log| <= at < |longer| && longer[at].Read? && longer[at].result.Some?
    requires ManualStateMatches(longer[at].result.value, plan)
    ensures ManualReads(longer, from, held + [at], plan)
  {
    ManualReadsKept(log, longer, from, held, plan);
  }

  /** Why manual control was not held: a stop, a failed wait, fifteen seconds, or a read lost
      or not of the planned state.
   */
  predicate HoldEnded(before: seq<Event>, after: seq<Event>, plan: Rpms, started: Double) {
    && before < after
    && var e := after[|after| - 1];
       || e == StopAsked(true) || e == Wait(1000, false) || (e.Clock? && AtLeast(Subtract(e.time, started), 15.0))
       || (e.Read? && (e.result.None? || !ManualStateMatches(e.result.value, plan)))
  }

  /** One more second in manual mode: no stop, within fifteen seconds, still as planned. */
  method HoldSecond(b: TrialBackend, second: nat, plan: Rpms, started: Double)
    returns (observed: Option<Snapshot>, ghost at: nat)
    modifies b`calls, b`log
    ensures old(b.log) <= b.log && Attempts(b.log) == Attempts(old(b.log))
    ensures observed.Some? ==>
              && |old(b.log)| <= at < |b.log| && b.log[at] == Read(true, observed) && ManualStateMatches(observed.value, plan)
              && Counted(b.log).waited == Counted(old(b.log)).waited + 1000
    ensures observed.None? ==> HoldEnded(old(b.log), b.log, plan, started)
  {
    hide Attempts, LatestRead, Deviations, Run, ManualStateMatches, Counted;
    at := 0;
    var stop := b.ShouldStop();
    if stop {
      return None, at;
    }
    var now := b.MonotonicSeconds();
    if AtLeast(Subtract(now, started), 15.0) {
      return None, at;
    }
    var waited := b.WaitMilliseconds(1000);
    if !waited {
      return None, at;
    }
    stop := b.ShouldStop();
    if stop {
      return None, at;
    }
    at := |b.log|;
    var observation := b.ReadObservation(true);
    if observation.None? || !ManualStateMatches(observation.value, plan) {
      return None, at;
    }
    now := b.MonotonicSeconds();
    if AtLeast(Subtract(now, started), 15.0) {
      return None, at;
    }
    b.RecordObservation(second, observation.value);
    return observation, at;
  }

  /** Watch manual control for five seconds. */
  method HoldManual(b: TrialBackend, plan: Rpms, baseline: Rpms, started: Double)
    returns (seen: bool, ok: bool, ghost held: seq<nat>)
    modifies b`calls, b`log
    ensures old(b.log) <= b.log && Attempts(b.log) == Attempts(old(b.log))
    ensures ok ==> seen && HeldManually(b.log, |old(b.log)|, held, baseline, plan)
    ensures seen ==> |held| > 0 && ManualReads(b.log, |old(b.log)|, held, plan)
    ensures !seen ==> |b.log| == |old(b.log)| + 1
    ensures !ok ==> NotHeld(old(b.log), b.log, held, baseline, plan, started)
    ensures ok ==> Counted(b.log).waited == Counted(old(b.log)).waited + 1000 * OBSERVE_SECONDS
  {
    hide Attempts, LatestRead, Deviations, Run, ManualStateMatches, ManualReads, ReachedPlan, Counted;
    seen, ok, held := false, false, [];
    ghost var at, t := |b.log|, Counted(b.log);
    NoManualReads(b.log, |old(b.log)|, plan);
    var observation := b.ReadObservation(true);
    if observation.None? || !ManualStateMatches(observation.value, plan) {
      return;
    }
    seen := true;
    ManualReadsGrow(old(b.log), b.log, |old(b.log)|, [], plan, at);
    held := [at];
    ghost var log := b.log;
    var now := b.MonotonicSeconds();
    ManualReadsKept(log, b.log, |old(b.log)|, held, plan);
    if AtLeast(Subtract(now, started), 15.0) {
      return;
    }
    for second := 1 to OBSERVE_SECONDS + 1
      invariant old(b.log) < b.log && Attempts(b.log) == Attempts(old(b.log))
      invariant |held| == second && ManualReads(b.log, |old(b.log)|, held, plan)
      invariant Counted(b.log).waited == t.waited + 1000 * (second - 1)
      invariant second > OBSERVE_SECONDS ==>
                  && ok == HeldManually(b.log, |old(b.log)|, held, baseline, plan)
                  && (!ok ==> NotHeld(old(b.log), b.log, held, baseline, plan, started))
      invariant second <= OBSERVE_SECONDS ==> !ok
    {
      log := b.log;
      var next;
      next, at := HoldSecond(b, second, plan, started);
      ManualReadsKept(log, b.log, |old(b.log)|, held, plan);
      if next.None? {
        return;
      }
      ManualReadsGrow(log, b.log, |old(b.log)|, held, plan, at);
      held := held + [at];
      if second == OBSERVE_SECONDS {
        ok := ReachedPlan(next.value, baseline, plan);
      }
    }
  }

  /** It ended early, or the last of six reads did not reach the plan. */
  predicate NotHeld(before: seq<Event>, after: seq<Event>, held: seq<nat>, baseline: Rpms, plan: Rpms,
                    started: Double) {
    || HoldEnded(before, after, plan, started)
    || (|held| == OBSERVE_SECONDS + 1 && held[|held| - 1] < |after| && after[held[|held| - 1]].Read?
        && after[held[|held| - 1]].result.Some? && !ReachedPlan(after[held[|held| - 1]].result.value, baseline, plan))
  }

  lemma {:induction false} NoManualReads(log: seq<Event>, from: nat, plan: Rpms)
    ensures ManualReads(log, from, [], plan)
  {
  }

  /** What a direct trial did: the takeover of each fan, what was held, and the procedures given up. */
  datatype Direct = Direct(
    started: Double, t0: Taking, t1: Taking, taken: seq<Event>, seen: bool, held: seq<nat>, kept: bool,
    watched: seq<Event>, stops: seq<Stop>)

  /** The trace of a direct trial shows this. */
  ghost predicate Directed(c: Direct, plan: Rpms, baseline: Rpms, before: seq<Event>, after: seq<Event>,
                           recorded: bool) {
    && c.taken == before + [Clock(c.started)] + TakeoverTrace(plan, c.t0, c.t1)
    && c.taken <= c.watched <= after && Stops(c.stops, c.watched, after, recorded)
    && if InTime(c.t0) && InTime(c.t1) then
         && (c.seen ==> |c.held| > 0 && ManualReads(c.watched, |c.taken|, c.held, plan))
         && (c.kept ==> c.seen && HeldManually(c.watched, |c.taken|, c.held, baseline, plan))
         && (!c.kept ==> NotHeld(c.taken, c.watched, c.held, baseline, plan, c.started))
         && (!c.seen ==> |c.watched| == |c.taken| + 1)
       else !c.seen && !c.kept && c.watched == c.taken
  }

  /** How a direct trial must end: it succeeds exactly if manual control was taken and held and
      no more than one minute was spoiled; its effect is unverified exactly if manual control
      was never seen; restoring fails only with a procedure given up at the end of the trace.
   */
  predicate DirectedSo(c: Direct, status: RunStatus, after: seq<Event>) {
    if EndsStopped(c.stops, after) then status.RestoreFailed?
    else
      && |c.stops| <= 1
      && status == if !c.seen then WriteEffectUnverified else if c.kept then Succeeded else ControlFailedSystemVerified
  }

  method ExecuteDirect(b: TrialBackend, plan: Rpms, baseline: Rpms)
    returns (status: RunStatus, ghost held: seq<nat>, ghost direct: Direct)
    modifies b`calls, b`changed, b`log
    ensures !(DIRECT_CALLBACKS <= b.callbacks) ==> status == RestoreFailed && b.log == old(b.log)
    ensures DIRECT_CALLBACKS <= b.callbacks ==>
              old(b.log) <= b.log && FailClosed(status, old(b.log), b.log) && status != BaselineRejected
    ensures DIRECT_CALLBACKS <= b.callbacks ==>
              && Directed(direct, plan, baseline, old(b.log), b.log, CanRecord in b.callbacks)
              && DirectedSo(direct, status, b.log)
    ensures TakenThenRestored(Attempts(old(b.log)), Attempts(b.log), plan, status == Succeeded)
    ensures NoFtst(Attempts(old(b.log)), Attempts(b.log))
    ensures status == Succeeded ==> HeldManually(b.log, |old(b.log)|, held, baseline, plan)
    ensures status in {Succeeded, ControlFailedSystemVerified} ==>
              |held| > 0 && ManualReads(b.log, |old(b.log)|, held, plan)
  {
    hide Attempts, LatestRead, Deviations, Run, ManualStateMatches, ManualReads, ReachedPlan, Takeover, OnlyRestores,
      NoFtst, StableMinuteSince, Troubled, Counted, Stops, TakeoverTrace, NotHeld, EndsStopped;
    ghost var before := Attempts(b.log);
    held := [];
    direct := Direct(NaN, StopFirst, StopFirst, [], false, [], false, [], []);
    if !(DIRECT_CALLBACKS <= b.callbacks) {
      NothingTaken(before, plan);
      NothingWritten(before);
      return RestoreFailed, held, direct;
    }
    var started := b.MonotonicSeconds();
    var controlOk;
    ghost var k, t0, t1;
    controlOk, k, t0, t1 := TakeOver(b, plan);
    ghost var taken, from := Attempts(b.log), |b.log|;
    direct := Direct(started, t0, t1, b.log, false, [], false, [], []);
    var seen := false;
    if controlOk {
      seen, controlOk, held := HoldManual(b, plan, baseline, started);
    } else {
      TakeoverFailed(before, taken, plan, k);
    }
    ghost var log := b.log;
    direct := direct.(seen := seen, held := held, kept := controlOk, watched := log);
    var stable;
    ghost var stops;
    stable, stops := RestoreDirect(b);
    direct := direct.(stops := stops);
    if stable {
      StableSinceEarlier(Run(b.log), |old(b.log)|);
    } else {
      TroubledLater(b.log, b.log, |log|, |old(b.log)|);
    }
    if seen {
      ManualReadsEarlier(log, b.log, |old(b.log)|, from, held, plan);
    }
    if k == 4 {
      TakeoverFailed(before, taken, plan, k);
    }
    TakeoverNoFtst(before, taken, Attempts(b.log), plan, k);
    if !stable {
      return RestoreFailed, held, direct;
    }
    if !seen {
      return WriteEffectUnverified, held, direct;
    }
    return if controlOk then Succeeded else ControlFailedSystemVerified, held, direct;
  }

  lemma {:induction false} NothingWritten(before: seq<Attempt>)
    ensures NoFtst(before, before)
  {
  }

  lemma {:induction false} NothingTaken(before: seq<Attempt>, plan: Rpms)
    ensures TakenThenRestored(before, before, plan, false)
  {
    assert Takeover(before, before, plan, 0, false) && OnlyRestores(before, before, 80);
  }

  /** A takeover that went well also meets the weaker description. */
  lemma {:induction false} TakeoverFailed(before: seq<Attempt>, after: seq<Attempt>, plan: Rpms, k: nat)
    requires Takeover(before, after, plan, k, true) || Takeover(before, after, plan, k, false)
    ensures Takeover(before, after, plan, k, false)
  {
  }

  lemma {:induction false} ManualReadsEarlier(log: seq<Event>, longer: seq<Event>, earlier: nat, from: nat,
                                        held: seq<nat>, plan: Rpms)
    requires log <= longer && earlier <= from && ManualReads(log, from, held, plan)
    ensures ManualReads(longer, earlier, held, plan)
    ensures |held| > 0 ==> longer[held[|held| - 1]] == log[held[|held| - 1]]
  {
  }

  /** Restore the fans and observe a minute, twice if the first minute is disturbed. */
  method RestoreDirect(b: TrialBackend) returns (stable: bool, ghost stops: seq<Stop>)
    requires DIRECT_CALLBACKS <= b.callbacks
    modifies b`calls, b`changed, b`log
    ensures old(b.log) <= b.log && OnlyRestores(Attempts(old(b.log)), Attempts(b.log), 80)
    ensures NoFtst(Attempts(old(b.log)), Attempts(b.log))
    ensures Stops(stops, old(b.log), b.log, CanRecord in b.callbacks) && stable == !EndsStopped(stops, b.log)
    ensures if stable then |stops| <= 1 else |stops| == 2 || (|stops| == 1 && stops[0].SystemStop?)
    ensures if stable then StableMinuteSince(Run(b.log), |old(b.log)|) else Troubled(b.log, |old(b.log)|)
  {
    hide Attempts, LatestRead, Deviations, Run, StableMinuteSince, FansReleased, Restoring, Troubled, IsSystem, Counted,
      Stops, SystemStopped, SystemReached, WindowEnded;
    ghost var before, recorded := Attempts(b.log), CanRecord in b.callbacks;
    NoStops(b.log, b.log, recorded);
    var restored;
    ghost var found;
    restored, found := RestoreSystem(b);
    ghost var mid, log := Attempts(b.log), b.log;
    FansRestored(before, mid);
    if !restored {
      FirstStop(old(b.log), recorded, SystemStop(old(b.log), log), log);
      stops := [SystemStop(old(b.log), log)];
      TroubledRead(b.log, |old(b.log)|, |b.log| - 1);
      return false, stops;
    }
    NoStops(old(b.log), log, recorded);
    ghost var status;
    stable, status := ObserveAfterFtst(b);
    ghost var watched := b.log;
    stops := [];
    if stable {
      NoStops(old(b.log), b.log, recorded);
      StableSinceEarlier(Run(b.log), |old(b.log)|);
      RestoresCompose(before, mid, Attempts(b.log), 40, 40);
      return;
    }
    TroubledLater(b.log, b.log, |log|, |old(b.log)|);
    FirstStop(old(b.log), recorded, WindowStop(log, watched, status), watched);
    stops := [WindowStop(log, watched, status)];
    stable, stops := RestoreDirectAgain(b, old(b.log), stops);
    TroubledLater(watched, b.log, |old(b.log)|, |old(b.log)|);
    RestoresCompose(before, mid, Attempts(b.log), 40, 40);
  }

  lemma {:induction false} FansRestored(before: seq<Attempt>, after: seq<Attempt>)
    requires after == before || FansReleased(before, after)
    ensures OnlyRestores(before, after, 40) && NoFtst(before, after)
  {
    hide FansReleased;
    if after != before {
      FansReleasedRestores(before, after);
      FansReleasedNoFtst(before, after);
    }
  }

  /** The second try. */
  method RestoreDirectAgain(b: TrialBackend, ghost before: seq<Event>, ghost given: seq<Stop>)
    returns (stable: bool, ghost stops: seq<Stop>)
    requires DIRECT_CALLBACKS <= b.callbacks && |given| == 1 && given[0].after == b.log && before < b.log
    requires Stops(given, before, b.log, CanRecord in b.callbacks)
    modifies b`calls, b`changed, b`log
    ensures old(b.log) < b.log && OnlyRestores(Attempts(old(b.log)), Attempts(b.log), 40)
    ensures NoFtst(Attempts(old(b.log)), Attempts(b.log))
    ensures Stops(stops, before, b.log, CanRecord in b.callbacks) && stable == !EndsStopped(stops, b.log)
    ensures if stable then stops == given else |stops| == 2
    ensures stable ==> StableMinuteSince(Run(b.log), |before|)
  {
    hide Attempts, LatestRead, Deviations, Run, StableMinuteSince, FansReleased, Restoring, Troubled, IsSystem, Counted,
      Stops, SystemStopped, SystemReached, WindowEnded;
    ghost var here, recorded := b.log, CanRecord in b.callbacks;
    stops := given;
    var restored;
    ghost var found;
    restored, found := RestoreSystem(b);
    FansRestored(Attempts(here), Attempts(b.log));
    ghost var log := b.log;
    if !restored {
      OneMoreStop(given, before, here, recorded, SystemStop(here, log), log);
      stops := given + [SystemStop(here, log)];
      return false, stops;
    }
    StopsLater(given, before, here, recorded, before, log);
    ghost var status;
    stable, status := ObserveAfterFtst(b);
    if stable {
      StopsLater(given, before, here, recorded, before, b.log);
      StableSinceEarlier(Run(b.log), |before|);
    } else {
      OneMoreStop(given, before, log, recorded, WindowStop(log, b.log, status), b.log);
      stops := given + [WindowStop(log, b.log, status)];
    }
  }
}
