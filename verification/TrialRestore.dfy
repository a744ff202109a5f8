/** The observation window and the two restore procedures of the write trial. */
module TrialRestore {
  import opened SmcBaseline
  import opened MinuteRule
  import opened TrialDevice

  const RESTORE_RETRIES := 10
  const RESTORE_RETRY_DELAY_MS := 50
  const RESTORE_VERIFY_SECONDS := 5
  const FTST_RELEASE_RETRIES := 3
  const FTST_RELEASE_WAIT_SECONDS := 10
  const FTST_POST_CLEAR_FALLBACK_SECONDS := 10
  const FTST_BASELINE_WAIT_SECONDS := 90
  const FTST_BASELINE_STABLE_SECONDS: u32 := 60

  // ---------------------------------------------------------------------------
  // Predicates on observations
  // ---------------------------------------------------------------------------

  predicate NoManualMode(s: Snapshot) {
    forall fan | 0 <= fan < 2 :: s.mode[fan] != 1
  }

  /** Each fan is released or system-owned and has a usable target. */
  predicate ModesReleased(s: Snapshot) {
    forall fan | 0 <= fan < 2 ::
      (s.mode[fan] == 0 || s.mode[fan] == 3) && s.target[fan].Finite? && s.target[fan].value >= 0.0
  }

  predicate BothReleased(s: Snapshot) {
    s.mode[0] == 0 && s.mode[1] == 0
  }

  predicate ReadTimingValid(started: Double, finished: Double) {
    && started.Finite? && started.value >= 0.0 && finished.Finite?
    && finished.value >= started.value && finished.value - started.value <= READ_MAX
  }

  predicate SampleTimingValid(previous: real, started: Double, finished: Double) {
    && ReadTimingValid(started, finished) && started.value >= previous
    && finished.value - previous >= GAP_MIN && finished.value - previous <= GAP_MAX
  }

  // ---------------------------------------------------------------------------
  // What happened between two traces
  // ---------------------------------------------------------------------------

  /** A write that can only return a fan to the system; Ftst is cleared only if
      the latest successful read showed no fan in manual mode.
   */
  predicate Restoring(a: Attempt) {
    match a.event
    case WriteMode(_, mode, _) => mode == 0
    case WriteTarget(_, rpm, _) => rpm == Finite(0.0)
    case WriteFtst(value, _) => value == 0 && a.seen.Some? && NoManualMode(a.seen.value)
    case _ => false
  }

  predicate Clearing(a: Attempt) {
    a.event.WriteFtst? && a.event.value == 0
  }

  /** From before to after at most limit writes were attempted, and all of them restore. */
  predicate OnlyRestores(before: seq<Attempt>, after: seq<Attempt>, limit: nat) {
    && before <= after && |after| <= |before| + limit
    && forall i | |before| <= i < |after| :: Restoring(after[i])
  }

  /** From before to after at most limit writes were attempted, and all of them clear Ftst. */
  predicate OnlyClears(before: seq<Attempt>, after: seq<Attempt>, limit: nat) {
    && before <= after && |after| <= |before| + limit
    && forall i | |before| <= i < |after| :: Clearing(after[i])
  }

  /** If the caller tracks fan state and no change was noted, then every successful
      read showed both fans in system mode without targets.
   */
  twostate predicate AllNoted(b: TrialBackend)
    reads b
  {
    Honest(b) && (b.tracking && !b.changed ==> Deviations(b.log) == old(Deviations(b.log)))
  }

  /** A change once noted stays noted, and one newly noted is in the trace. */
  twostate predicate Honest(b: TrialBackend)
    reads b
  {
    && Deviations(b.log) >= old(Deviations(b.log)) && (old(b.changed) ==> b.changed)
    && (b.changed && !old(b.changed) ==> Deviations(b.log) > old(Deviations(b.log)))
  }

  // ---------------------------------------------------------------------------
  // What can go wrong
  // ---------------------------------------------------------------------------

  predicate BadRead(e: Event) {
    e.Read? && (e.result.None? || !IsSystem(e.result.value))
  }

  /** The trace ends in an unusable clock value, or in one that shows that the read
      before it took too long or did not follow the latest sample since position from
      in time.
   */
  predicate Mistimed(log: seq<Event>, from: nat) {
    && |log| > 0 && log[|log| - 1].Clock?
    && var finished := log[|log| - 1].time;
       || !finished.Finite? || finished.value < 0.0
       || (|log| >= 3 && log[|log| - 3].Clock? && log[|log| - 2].Read?
           && var started, run := log[|log| - 3].time, Run(log[..|log| - 3]);
              || !ReadTimingValid(started, finished)
              || (|run| > 0 && run[|run| - 1].at >= from
                  && !SampleTimingValid(run[|run| - 1].finished, started, finished)))
  }

  /** The last count + 1 samples, all since position from, came faster than one a second. */
  predicate Rushed(log: seq<Event>, from: nat, count: nat) {
    var run := Run(log);
    && |run| > count && run[|run| - 1 - count].at >= from
    && run[|run| - 1].finished - run[|run| - 1 - count].finished < count as real
  }

  predicate TroubleEnd(log: seq<Event>, from: nat) {
    && |log| > 0
    && var e := log[|log| - 1];
       || BadRead(e) || (e.Wait? && !e.ok) || e == StopAsked(true) || (IsWrite(e) && !e.ok)
       || Mistimed(log, from) || Rushed(log, from, FTST_BASELINE_STABLE_SECONDS)
  }

  /** Since position from, a read was lost or showed something other than system mode,
      a wait or a write failed, a stop was requested, or the clock was out of step.
   */
  ghost predicate Troubled(log: seq<Event>, from: nat) {
    exists n: nat | from < n <= |log| :: TroubleEnd(log[..n], from)
  }

  lemma {:induction false} TroubledNow(log: seq<Event>, from: nat)
    requires TroubleEnd(log, from) && from < |log|
    ensures Troubled(log, from)
  {
    assert log[..|log|] == log;
  }

  lemma {:induction false} TroubledLater(log: seq<Event>, longer: seq<Event>, from: nat, earlier: nat)
    requires Troubled(log, from) && log <= longer && earlier <= from
    ensures Troubled(longer, earlier)
  {
    var n: nat :| from < n <= |log| && TroubleEnd(log[..n], from);
    assert longer[..n] == log[..n];
    assert TroubleEnd(longer[..n], earlier);
  }

  /** A bad read anywhere is trouble. */
  lemma {:induction false} TroubledRead(log: seq<Event>, from: nat, at: nat)
    requires from <= at < |log| && BadRead(log[at])
    ensures Troubled(log, from)
  {
    assert TroubleEnd(log[..at + 1], from);
  }

  // ---------------------------------------------------------------------------
  // Growing a run of samples
  // ---------------------------------------------------------------------------

  /** The last n samples of the run are unbroken and come after position from. */
  predicate Holds(run: seq<Sample>, n: nat, from: nat, first: real, previous: real) {
    n > 0 ==>
      && |run| >= n && Unbroken(run[|run| - n..]) && run[|run| - n].at >= from
      && run[|run| - n].finished == first && run[|run| - 1].finished == previous
  }

  lemma {:induction false} HoldsMore(run: seq<Sample>, n: nat, from: nat, first: real, previous: real, s: Sample)
    requires (n > 0 ==> Holds(run, n, from, first, previous)) && ReadTimely(s) && s.at >= from
    requires n > 0 ==> previous <= s.started && GAP_MIN <= s.finished - previous <= GAP_MAX
    ensures Holds(run + [s], n + 1, from, if n == 0 then s.finished else first, s.finished)
  {
    var longer := run + [s];
    var suffix := longer[|longer| - n - 1..];
    if n > 0 {
      var before := run[|run| - n..];
      assert suffix == before + [s];
      assert before[|before| - 1] == run[|run| - 1];
    } else {
      assert suffix == [s];
    }
  }

  lemma {:induction false} HoldsLong(run: seq<Sample>, n: nat, from: nat, first: real, previous: real, seconds: real)
    requires Holds(run, n, from, first, previous) && n > 0 && previous - first >= seconds
    ensures |run| >= n && run[|run| - n].at >= from && Lasts(run[|run| - n..], n, seconds)
  {
  }

  lemma {:induction false} RunIsOrdered(log: seq<Event>)
    ensures forall k | 0 < k < |Run(log)| :: Run(log)[k - 1].at < Run(log)[k].at
  {
    RunIsConsecutive(log);
  }

  /** A long enough run is a stable minute. */
  lemma {:induction false} LongIsStable(run: seq<Sample>, n: nat, from: nat)
    requires n >= 61 && |run| >= n && run[|run| - n].at >= from && Lasts(run[|run| - n..], n, MINUTE)
    ensures StableMinuteSince(run, from)
  {
    var i := |run| - n;
    assert Lasts(run[i..], 61, MINUTE);
  }

  // ---------------------------------------------------------------------------
  // The observation window
  // ---------------------------------------------------------------------------

  datatype BaselineStatus = BaselineStable | BaselineChanged | BaselineReadFailed | BaselineWaitFailed
                          | BaselineInterrupted | BaselineTimingFailed | BaselineInvalid

  /** A window of a minute that began after before ended like this. */
  ghost predicate WindowEnded(status: BaselineStatus, before: seq<Event>, after: seq<Event>) {
    && before <= after && Attempts(after) == Attempts(before) && !status.BaselineInvalid?
    && Evidence(status, after, |before|, FTST_BASELINE_STABLE_SECONDS)
    && (status.BaselineStable? ==> StableMinuteSince(Run(after), |before|))
  }

  const OBSERVER_CALLBACKS := {CanRead, CanWait, CanTellTime, CanStop}

  /** What the end of the trace of a window, begun at position from, shows for each
      outcome other than stable.
   */
  predicate Evidence(status: BaselineStatus, log: seq<Event>, from: nat, lastSecond: nat) {
    match status
    case BaselineChanged => LatestRead(log).Some? && !IsSystem(LatestRead(log).value)
    case BaselineReadFailed => |log| > 0 && log[|log| - 1].Read? && log[|log| - 1].result.None?
    case BaselineWaitFailed => |log| > 1 && log[|log| - 2] == Wait(1000, false) && log[|log| - 1] == StopAsked(false)
    case BaselineInterrupted => |log| > 0 && log[|log| - 1] == StopAsked(true)
    case BaselineTimingFailed => Mistimed(log, from) || Rushed(log, from, lastSecond)
    case _ => true
  }

  /** A system read between two finite clock values adds one sample to the run. */
  lemma {:induction false} TimedReadEnds(log: seq<Event>, t0: Double, s: Snapshot, t1: Double)
    requires t0.Finite? && t1.Finite? && IsSystem(s)
    ensures var log1 := log + [Clock(t0)];
            Run(log1 + [Read(false, Some(s))] + [Clock(t1)]) == Run(log1) + [Sample(|log1|, t0.value, t1.value, s)]
  {
    hide Run;
    var log1 := log + [Clock(t0)];
    var log2 := log1 + [Read(false, Some(s))];
    assert log2[|log2| - 2] == Clock(t0) && log2[|log2| - 1] == Read(false, Some(s));
    Appended(log1, Read(false, Some(s)));
    Appended(log2, Clock(t1));
  }

  lemma {:induction false} TimedReadRuns(log: seq<Event>, t0: Double, s: Snapshot, t1: Double)
    requires Settled(log) && t0.Finite? && t1.Finite? && IsSystem(s)
    ensures Run(log + [Clock(t0)] + [Read(false, Some(s))] + [Clock(t1)])
            == Run(log) + [Sample(|log| + 1, t0.value, t1.value, s)]
  {
    hide Run;
    Appended(log, Clock(t0));
    TimedReadEnds(log, t0, s, t1);
  }

  /** The previous sample is the latest one of the run, and was taken since position from. */
  predicate Latest(run: seq<Sample>, previous: Option<real>, from: nat) {
    previous.Some? ==> |run| > 0 && run[|run| - 1].finished == previous.value && run[|run| - 1].at >= from
  }

  lemma {:induction false} ReadMistimed(log: seq<Event>, previous: Option<real>, started: Double,
                                        result: Option<Snapshot>, finished: Double, from: nat)
    requires Settled(log) && Latest(Run(log), previous, from)
    requires !(if previous.None? then ReadTimingValid(started, finished)
             else SampleTimingValid(previous.value, started, finished))
    ensures Mistimed(log + [Clock(started)] + [Read(false, result)] + [Clock(finished)], from)
  {
    hide Run;
    var longer := log + [Clock(started)] + [Read(false, result)] + [Clock(finished)];
    assert longer[..|longer| - 3] == log;
  }

  /** A read and the clock values around it. */
  function TimedRead(started: real, observation: Snapshot, finished: real): seq<Event> {
    [Clock(Finite(started)), Read(false, Some(observation)), Clock(Finite(finished))]
  }

  /** Everything one good second of a window leaves in the trace: the questions whether
      to stop before the read, after it and after its record were all answered no.
   */
  function GoodSecond(second: u32, s: Sample, recorded: bool): seq<Event> {
    [StopAsked(false)] + TimedRead(s.started, s.snapshot, s.finished) + [StopAsked(false)]
    + (if recorded then [Record(second, s.snapshot)] else []) + [StopAsked(false)]
  }

  /** One read between two clock values, checked against the previous sample if there is one. */
  method TakeSample(b: TrialBackend, previous: Option<real>, ghost from: nat)
    returns (failure: Option<BaselineStatus>, observation: Snapshot, ghost started: real, finished: real)
    requires Settled(b.log) && Latest(Run(b.log), previous, from) && from <= |b.log|
    modifies b`calls, b`changed, b`log
    ensures old(b.log) <= b.log && Attempts(b.log) == Attempts(old(b.log)) && AllNoted(b)
    ensures failure.Some? ==>
              && failure.value in {BaselineReadFailed, BaselineTimingFailed}
              && (forall n: nat :: Evidence(failure.value, b.log, from, n))
              && Troubled(b.log, from) && Counted(b.log).clocks <= Counted(old(b.log)).clocks + 2
    ensures failure.None? ==>
              b.log == old(b.log) + TimedRead(started, observation, finished)
              && Counted(b.log).clocks == Counted(old(b.log)).clocks + 2
    ensures Counted(old(b.log)).clocks <= Counted(b.log).clocks
    ensures failure.None? ==>
              && Settled(b.log) && LatestRead(b.log) == Some(observation)
              && 0.0 <= started <= finished <= started + READ_MAX
              && (previous.Some? ==> previous.value <= started && GAP_MIN <= finished - previous.value <= GAP_MAX)
              && (IsSystem(observation) ==>
                    Run(b.log) == Run(old(b.log)) + [Sample(|old(b.log)| + 1, started, finished, observation)])
  {
    hide Advance, EndsInTimedRead, Run, Attempts, Deviations, LatestRead, SystemFans, IsSystem, Counted;
    failure, started, finished := None, 0.0, 0.0;
    observation := Snapshot(0, [0, 0], [NaN, NaN], [NaN, NaN], [NaN, NaN, NaN]);
    var readStarted := b.MonotonicSeconds();
    if !readStarted.Finite? || readStarted.value < 0.0 {
      failure := Some(BaselineTimingFailed);
      assert Mistimed(b.log, from);
      TroubledNow(b.log, from);
      return;
    }
    var result := b.ReadObservation(false);
    if result.None? {
      failure := Some(BaselineReadFailed);
      TroubledRead(b.log, from, |b.log| - 1);
      return;
    }
    observation := result.value;
    b.NoteFanState(observation);
    var sampled := b.MonotonicSeconds();
    if !(if previous.None? then ReadTimingValid(readStarted, sampled)
         else SampleTimingValid(previous.value, readStarted, sampled)) {
      failure := Some(BaselineTimingFailed);
      ReadMistimed(old(b.log), previous, readStarted, result, sampled, from);
      TroubledNow(b.log, from);
      return;
    }
    started, finished := readStarted.value, sampled.value;
    if IsSystem(observation) {
      TimedReadRuns(old(b.log), readStarted, observation, sampled);
    }
  }

  lemma {:induction false} StopIsEvidence(log: seq<Event>)
    requires |log| > 0 && log[|log| - 1] == StopAsked(true)
    ensures forall from: nat, n: nat :: Evidence(BaselineInterrupted, log, from, n)
  {
  }

  lemma {:induction false} ChangedIsEvidence(log: seq<Event>)
    requires LatestRead(log).Some? && !IsSystem(LatestRead(log).value)
    ensures forall from: nat, n: nat :: Evidence(BaselineChanged, log, from, n)
  {
  }

  /** A stop request that was just answered with yes. */
  lemma {:induction false} StopIsTrouble(log: seq<Event>, from: nat)
    requires from < |log| && log[|log| - 1] == StopAsked(true)
    ensures Troubled(log, from)
  {
    TroubledNow(log, from);
  }

  lemma {:induction false} TimedReadAt(before: seq<Event>, log: seq<Event>, started: real, observation: Snapshot,
                                       finished: real)
    requires log == before + TimedRead(started, observation, finished)
    ensures |log| == |before| + 3 && log[|before| + 1] == Read(false, Some(observation))
  {
  }

  lemma {:induction false} GoodSecondMade(before: seq<Event>, read: seq<Event>, asked: seq<Event>, log: seq<Event>,
                                          second: u32, s: Sample, recorded: bool)
    requires read == before + [StopAsked(false)] + TimedRead(s.started, s.snapshot, s.finished)
    requires asked == read + [StopAsked(false)]
    requires log == asked + (if recorded then [Record(second, s.snapshot)] else []) + [StopAsked(false)]
    ensures log == before + GoodSecond(second, s, recorded)
  {
  }

  /** One second of a window: a sample, its record, and the questions asked around it. */
  method ObserveSecond(b: TrialBackend, second: u32, previous: Option<real>, ghost from: nat)
    returns (failure: Option<BaselineStatus>, counted: bool, ghost earlier: seq<Sample>, ghost sample: Sample, sampled: real)
    requires from <= |b.log| && (previous.Some? ==> Settled(b.log) && Latest(Run(b.log), previous, from))
    modifies b`calls, b`changed, b`log
    ensures old(b.log) <= b.log && Attempts(b.log) == Attempts(old(b.log)) && AllNoted(b)
    ensures failure.Some? ==> Troubled(b.log, from)
    ensures failure.Some? ==>
              && !failure.value.BaselineStable? && !failure.value.BaselineInvalid?
              && forall n: nat :: Evidence(failure.value, b.log, from, n)
    ensures var clocks := Counted(b.log).clocks - Counted(old(b.log)).clocks;
            0 <= clocks <= 2 && (counted ==> clocks == 2)
    ensures failure.None? ==> b.log == old(b.log) + GoodSecond(second, sample, CanRecord in b.callbacks)
    ensures failure.None? ==>
              && counted && Settled(b.log) && ReadTimely(sample) && sample.at >= |old(b.log)|
              && sampled == sample.finished && |b.log| > |old(b.log)| && b.log[|b.log| - 1] == StopAsked(false)
              && Run(b.log) == earlier + [sample]
              && (previous.Some? ==>
                    && previous.value <= sample.started && GAP_MIN <= sampled - previous.value <= GAP_MAX
                    && earlier == Run(old(b.log)))
  {
    hide Advance, EndsInTimedRead, Run, Attempts, Deviations, LatestRead, SystemFans, IsSystem, Troubled, Latest,
      TroubleEnd, Evidence, TimedRead, GoodSecond, Counted;
    failure, counted, sampled := None, false, 0.0;
    earlier, sample := [], Sample(0, 0.0, 0.0, Snapshot(0, [0, 0], [NaN, NaN], [NaN, NaN], [NaN, NaN, NaN]));
    var stop := b.ShouldStop();
    if stop {
      failure := Some(BaselineInterrupted);
      StopIsEvidence(b.log);
      StopIsTrouble(b.log, from);
      return;
    }
    earlier := Run(b.log);
    ghost var here := |b.log|;
    NoneIsLatest(earlier, from);
    var observation: Snapshot;
    ghost var started: real;
    failure, observation, started, sampled := TakeSample(b, previous, from);
    if failure.Some? {
      return;
    }
    counted := true;
    ghost var read := b.log;
    TimedReadAt(old(b.log) + [StopAsked(false)], b.log, started, observation, sampled);
    stop := b.ShouldStop();
    if stop {
      failure := Some(BaselineInterrupted);
      StopIsEvidence(b.log);
      StopIsTrouble(b.log, from);
      return;
    }
    ghost var asked := b.log;
    b.RecordObservation(second, observation);
    if !IsSystem(observation) {
      failure := Some(BaselineChanged);
      ChangedIsEvidence(b.log);
      TroubledRead(b.log, from, here + 1);
      return;
    }
    stop := b.ShouldStop();
    if stop {
      failure := Some(BaselineInterrupted);
      StopIsEvidence(b.log);
      StopIsTrouble(b.log, from);
      return;
    }
    sample := Sample(here + 1, started, sampled, observation);
    GoodSecondMade(old(b.log), read, asked, b.log, second, sample, CanRecord in b.callbacks);
  }

  lemma {:induction false} NoneIsLatest(run: seq<Sample>, from: nat)
    ensures Latest(run, None, from)
  {
  }

  lemma {:induction false} HoldsLatest(run: seq<Sample>, n: nat, from: nat, first: real, previous: real)
    requires n > 0 && Holds(run, n, from, first, previous)
    requires forall k | 0 < k < |run| :: run[k - 1].at < run[k].at
    ensures Latest(run, Some(previous), from)
  {
    LaterInRun(run, |run| - n, |run| - 1);
  }

  lemma {:induction false} LaterInRun(run: seq<Sample>, i: nat, j: nat)
    requires i <= j < |run| && forall k | 0 < k < |run| :: run[k - 1].at < run[k].at
    ensures run[i].at <= run[j].at
  {
    if i < j {
      LaterInRun(run, i, j - 1);
    }
  }

  lemma {:induction false} ShortIsEvidence(log: seq<Event>, n: nat, from: nat, first: real, previous: real)
    requires n > 0 && Holds(Run(log), n + 1, from, first, previous) && previous - first < n as real && from < |log|
    ensures Evidence(BaselineTimingFailed, log, from, n) && (n == FTST_BASELINE_STABLE_SECONDS ==> Troubled(log, from))
  {
    hide Run;
    var run := Run(log);
    assert run[|run| - 1].finished - run[|run| - (n + 1)].finished < n as real;
    assert Rushed(log, from, n);
    if n == FTST_BASELINE_STABLE_SECONDS {
      TroubledNow(log, from);
    }
  }

  lemma {:induction false} WaitIsEvidence(waiting: seq<Event>, log: seq<Event>, stop: bool)
    requires |waiting| > 0 && waiting[|waiting| - 1] == Wait(1000, false) && log == waiting + [StopAsked(stop)]
    ensures stop ==> forall from: nat, n: nat :: Evidence(BaselineInterrupted, log, from, n)
    ensures !stop ==> forall from: nat, n: nat :: Evidence(BaselineWaitFailed, log, from, n)
    ensures forall from: nat | from < |waiting| :: Troubled(log, from)
  {
    forall from: nat | from < |waiting|
      ensures Troubled(log, from)
    {
      TroubledNow(waiting, from);
      TroubledLater(waiting, log, from, from);
    }
  }

  lemma {:induction false} OtherIsEvidence(log: seq<Event>, from: nat, n: nat)
    ensures Evidence(BaselineInvalid, log, from, n) && Evidence(BaselineStable, log, from, n)
  {
  }

  /** Watch for lastSecond + 1 samples, stopping at the first thing out of order. The
      seconds and samples reported are those of the trace.
   */
  method ObserveBaselineWindow(b: TrialBackend, lastSecond: u32)
    returns (status: BaselineStatus, second: u32, samples: u32)
    modifies b`calls, b`changed, b`log
    ensures old(b.log) <= b.log && Attempts(b.log) == Attempts(old(b.log)) && AllNoted(b)
    ensures status == BaselineInvalid <==> !(OBSERVER_CALLBACKS <= b.callbacks)
    ensures Evidence(status, b.log, |old(b.log)|, lastSecond)
    ensures status != BaselineStable && status != BaselineInvalid && lastSecond == FTST_BASELINE_STABLE_SECONDS ==>
              Troubled(b.log, |old(b.log)|)
    ensures var clocks := Counted(b.log).clocks - Counted(old(b.log)).clocks;
            2 * second <= clocks <= 2 * second + 2 && (samples > second ==> clocks == 2 * second + 2)
    ensures status == BaselineStable ==>
              && second == lastSecond && samples == Increment(lastSecond)
              && var n, run := lastSecond + 1, Run(b.log);
                 |run| >= n && run[|run| - n].at >= |old(b.log)| && Lasts(run[|run| - n..], n, lastSecond as real)
    ensures status != BaselineStable ==> samples in {second, Increment(second)} && second <= lastSecond
  {
    hide Advance, Run, Attempts, Deviations, LatestRead, Holds, Lasts, ReadTimely, IsSystem, Evidence, Settled,
      Troubled, Latest, Counted;
    status, second, samples := BaselineInvalid, 0, 0;
    if !(OBSERVER_CALLBACKS <= b.callbacks) {
      OtherIsEvidence(b.log, |b.log|, lastSecond);
      return;
    }
    var windowStarted, previousSample := 0.0, 0.0;
    while true
      invariant old(b.log) <= b.log && Attempts(b.log) == Attempts(old(b.log)) && AllNoted(b)
      invariant samples == second <= lastSecond && Counted(b.log).clocks == Counted(old(b.log)).clocks + 2 * second
      invariant second > 0 ==> Settled(b.log) && Holds(Run(b.log), second, |old(b.log)|, windowStarted, previousSample)
      decreases lastSecond - second
    {
      if second > 0 {
        RunIsOrdered(b.log);
        HoldsLatest(Run(b.log), second, |old(b.log)|, windowStarted, previousSample);
      }
      var failure, counted, earlier, sample, sampled :=
        ObserveSecond(b, second, if second == 0 then None else Some(previousSample), |old(b.log)|);
      if counted {
        samples := Increment(samples);
      }
      if failure.Some? {
        status := failure.value;
        return;
      }
      HoldsMore(earlier, second, |old(b.log)|, windowStarted, previousSample, sample);
      if second == 0 {
        windowStarted := sampled;
      }
      previousSample := sampled;
      if second == lastSecond {
        if sampled - windowStarted >= lastSecond as real {
          HoldsLong(Run(b.log), lastSecond + 1, |old(b.log)|, windowStarted, sampled, lastSecond as real);
          status := BaselineStable;
          OtherIsEvidence(b.log, |old(b.log)|, lastSecond);
        } else {
          status := BaselineTimingFailed;
          ShortIsEvidence(b.log, lastSecond, |old(b.log)|, windowStarted, sampled);
        }
        return;
      }
      var waited := b.WaitMilliseconds(1000);
      if !waited {
        ghost var waiting := b.log;
        var stop := b.ShouldStop();
        status := if stop then BaselineInterrupted else BaselineWaitFailed;
        WaitIsEvidence(waiting, b.log, stop);
        return;
      }
      second := second + 1;
    }
  }
}
