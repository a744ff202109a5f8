/** The hardware backend of the write trial: an adversarial device, and the trace
    every call on it leaves behind.
 */
module TrialDevice {
  import opened SmcBaseline

  datatype Event =
    | Read(temperatures: bool, result: Option<Snapshot>)
    | WriteMode(fan: nat, mode: Byte, ok: bool)
    | WriteTarget(fan: nat, rpm: Double, ok: bool)
    | WriteFtst(value: Byte, ok: bool)
    | Wait(milliseconds: nat, ok: bool)
    | Clock(time: Double)
    | StopAsked(stop: bool)
    | Record(second: nat, snapshot: Snapshot)

  datatype Callback = CanWriteMode | CanWriteTarget | CanWriteFtst | CanRead | CanWait | CanTellTime | CanStop | CanRecord

  predicate IsWrite(e: Event) {
    e.WriteMode? || e.WriteTarget? || e.WriteFtst?
  }

  // ---------------------------------------------------------------------------
  // What a trace says
  // ---------------------------------------------------------------------------

  /** The latest successful read. */
  function LatestRead(log: seq<Event>): Option<Snapshot> {
    if log == [] then None
    else
      var e := log[|log| - 1];
      if e.Read? && e.result.Some? then e.result else LatestRead(log[..|log| - 1])
  }

  /** A write attempt, with the latest successful read at the time it was made. */
  datatype Attempt = Attempt(event: Event, seen: Option<Snapshot>)

  function Attempts(log: seq<Event>): seq<Attempt> {
    if log == [] then []
    else
      var before, e := log[..|log| - 1], log[|log| - 1];
      Attempts(before) + if IsWrite(e) then [Attempt(e, LatestRead(before))] else []
  }

  predicate Deviates(e: Event) {
    e.Read? && e.result.Some? && !SystemFans(e.result.value)
  }

  /** How many successful reads showed a fan outside system mode or with a target. */
  function Deviations(log: seq<Event>): nat {
    if log == [] then 0
    else Deviations(log[..|log| - 1]) + if Deviates(log[|log| - 1]) then 1 else 0
  }

  /** How many reads, failed reads and clock readings a trace holds, and how many
      milliseconds of waiting were asked for.
   */
  datatype Tally = Tally(made: nat, lost: nat, clocks: nat, waited: nat)

  function Counted(log: seq<Event>): Tally {
    if log == [] then Tally(0, 0, 0, 0)
    else
      var t, e := Counted(log[..|log| - 1]), log[|log| - 1];
      match e
      case Read(_, result) => t.(made := t.made + 1, lost := t.lost + if result.None? then 1 else 0)
      case Clock(_) => t.(clocks := t.clocks + 1)
      case Wait(milliseconds, _) => t.(waited := t.waited + milliseconds)
      case _ => t
  }

  /** A successful system read at a position of the trace, and the clock values just before and just after it. */
  datatype Sample = Sample(at: nat, started: real, finished: real, snapshot: Snapshot)

  /** The trace ends in a finite clock value and a successful system read. */
  predicate EndsInTimedRead(log: seq<Event>) {
    && |log| >= 2
    && log[|log| - 2].Clock? && log[|log| - 2].time.Finite?
    && var e := log[|log| - 1];
       e.Read? && e.result.Some? && IsSystem(e.result.value)
  }

  /** The current run of samples: a write, a failed read, a read of anything but
      system mode and a read without its two clock values all end it.
   */
  function Advance(run: seq<Sample>, log: seq<Event>, e: Event): seq<Sample> {
    if IsWrite(e) then []
    else if e.Read? then if EndsInTimedRead(log + [e]) then run else []
    else if |log| > 0 && log[|log| - 1].Read? then
      if EndsInTimedRead(log) && e.Clock? && e.time.Finite? then
        run + [Sample(|log| - 1, log[|log| - 2].time.value, e.time.value, log[|log| - 1].result.value)]
      else []
    else run
  }

  function Run(log: seq<Event>): seq<Sample> {
    if log == [] then []
    else Advance(Run(log[..|log| - 1]), log[..|log| - 1], log[|log| - 1])
  }

  const READ_MAX: real := 5.0
  const GAP_MIN: real := 0.9
  const GAP_MAX: real := 5.0
  const MINUTE: real := 60.0

  predicate ReadTimely(s: Sample) {
    0.0 <= s.started <= s.finished <= s.started + READ_MAX
  }

  /** Sample b can follow sample a: it began after a finished and ended 0.9 to 5 seconds later. */
  predicate Follows(a: Sample, b: Sample) {
    a.finished <= b.started && GAP_MIN <= b.finished - a.finished <= GAP_MAX
  }

  predicate Unbroken(run: seq<Sample>) {
    && (forall k | 0 <= k < |run| :: ReadTimely(run[k]))
    && (forall k | 0 < k < |run| :: Follows(run[k - 1], run[k]))
  }

  /** At least count samples without a gap, spanning at least as many seconds as given. */
  predicate Lasts(run: seq<Sample>, count: nat, seconds: real) {
    |run| >= count > 0 && Unbroken(run) && run[|run| - 1].finished - run[0].finished >= seconds
  }

  /** The current run ends with a stable minute whose reads all come at or after position from. */
  predicate StableMinuteSince(run: seq<Sample>, from: nat) {
    exists i | 0 <= i < |run| :: run[i].at >= from && Lasts(run[i..], 61, MINUTE)
  }

  // ---------------------------------------------------------------------------
  // The backend
  // ---------------------------------------------------------------------------

  /** Everything the device, the clock and the operator may answer to one call. */
  datatype Answer = Answer(ok: bool, snapshot: Snapshot, time: Double, stop: bool)

  // ---------------------------------------------------------------------------
  // The run is what it claims to be
  // ---------------------------------------------------------------------------

  /** Sample s is a successful system read in the trace, directly between its two clock values. */
  predicate InTrace(log: seq<Event>, s: Sample) {
    && 0 < s.at && s.at + 1 < |log|
    && log[s.at - 1] == Clock(Finite(s.started)) && log[s.at + 1] == Clock(Finite(s.finished))
    && log[s.at].Read? && log[s.at].result == Some(s.snapshot) && IsSystem(s.snapshot)
  }

  predicate Sampled(run: seq<Sample>, p: nat) {
    exists k | 0 <= k < |run| :: run[k].at == p
  }

  /** The samples stand in the trace in order; from the first one on there is no
      write, and every read is one of the samples, except perhaps a system read that
      ends the trace and still lacks its second clock value.
   */
  predicate Consecutive(log: seq<Event>, run: seq<Sample>) {
    && (forall k | 0 <= k < |run| :: InTrace(log, run[k]))
    && (forall k | 0 < k < |run| :: run[k - 1].at < run[k].at)
    && (|run| > 0 ==>
          forall p | run[0].at <= p < |log| ::
            && !IsWrite(log[p])
            && (log[p].Read? ==> Sampled(run, p) || (p == |log| - 1 && EndsInTimedRead(log))))
  }

  /** For every trace, the run computed from it is consecutive. */
  lemma {:induction false} RunIsConsecutive(log: seq<Event>)
    ensures Consecutive(log, Run(log))
  {
    if log != [] {
      var before, e := log[..|log| - 1], log[|log| - 1];
      RunIsConsecutive(before);
      assert log == before + [e];
      ConsecutiveStep(before, Run(before), e);
    }
  }

  lemma {:induction false} ConsecutiveStep(log: seq<Event>, run: seq<Sample>, e: Event)
    requires Consecutive(log, run)
    ensures Consecutive(log + [e], Advance(run, log, e))
  {
    var longer, run' := log + [e], Advance(run, log, e);
    if run' != [] {
      forall k | 0 <= k < |run'|
        ensures InTrace(longer, run'[k])
      {
        assert k < |run| ==> InTrace(log, run[k]) && run'[k] == run[k];
      }
      forall p | run'[0].at <= p < |longer|
        ensures !IsWrite(longer[p])
        ensures longer[p].Read? ==> Sampled(run', p) || (p == |longer| - 1 && EndsInTimedRead(longer))
      {
        if p < |log| && Sampled(run, p) {
          var k :| 0 <= k < |run| && run[k].at == p;
          assert run'[k].at == p;
        } else if p == |log| - 1 && longer[p].Read? && |run'| > |run| {
          assert run'[|run|].at == p;
        }
      }
    }
  }

  /** A stable minute in the words of the trace: at least 61 system reads, each between
      two clock values and in time, the last one at least a minute after the first,
      with no write and no other completed read from the first one on.
   */
  lemma {:induction false} StableMinuteMeans(log: seq<Event>, from: nat)
    requires StableMinuteSince(Run(log), from)
    ensures exists window: seq<Sample> :: Consecutive(log, window) && Lasts(window, 61, MINUTE) && window[0].at >= from
  {
    var run := Run(log);
    RunIsConsecutive(log);
    var i :| 0 <= i < |run| && run[i].at >= from && Lasts(run[i..], 61, MINUTE);
    var window := run[i..];
    SuffixIsConsecutive(log, run, i);
    assert Consecutive(log, window) && window[0].at >= from;
  }

  lemma {:induction false} AtIncreases(log: seq<Event>, run: seq<Sample>, i: nat, j: nat)
    requires Consecutive(log, run) && i <= j < |run|
    ensures run[i].at <= run[j].at
  {
    if i < j {
      AtIncreases(log, run, i, j - 1);
    }
  }

  lemma {:induction false} SuffixIsConsecutive(log: seq<Event>, run: seq<Sample>, i: nat)
    requires Consecutive(log, run) && i < |run|
    ensures Consecutive(log, run[i..])
  {
    var suffix := run[i..];
    AtIncreases(log, run, 0, i);
    forall p | suffix[0].at <= p < |log| && Sampled(run, p)
      ensures Sampled(suffix, p)
    {
      var k :| 0 <= k < |run| && run[k].at == p;
      if k < i {
        AtIncreases(log, run, k, i - 1);
      }
      assert suffix[k - i].at == p;
    }
  }

  /** The trace does not end in a read, so its next event neither makes nor breaks a sample. */
  predicate Settled(log: seq<Event>) {
    |log| > 0 ==> !log[|log| - 1].Read?
  }

  /** What one more event does to everything the trace says. */
  lemma {:induction false} Appended(log: seq<Event>, e: Event)
    ensures Attempts(log + [e]) == Attempts(log) + if IsWrite(e) then [Attempt(e, LatestRead(log))] else []
    ensures LatestRead(log + [e]) == if e.Read? && e.result.Some? then e.result else LatestRead(log)
    ensures Deviations(log + [e]) == Deviations(log) + if Deviates(e) then 1 else 0
    ensures Run(log + [e]) == Advance(Run(log), log, e)
    ensures Counted(log + [e]) ==
            match e
            case Read(_, result) =>
              Counted(log).(made := Counted(log).made + 1, lost := Counted(log).lost + if result.None? then 1 else 0)
            case Clock(_) => Counted(log).(clocks := Counted(log).clocks + 1)
            case Wait(milliseconds, _) => Counted(log).(waited := Counted(log).waited + milliseconds)
            case _ => Counted(log)
    ensures !e.Read? ==> Settled(log + [e])
    ensures Settled(log) && !IsWrite(e) && !e.Read? ==> Run(log + [e]) == Run(log)
  {
    var longer := log + [e];
    assert longer[..|longer| - 1] == log;
  }

  lemma {:induction false} AttemptsGrow(log: seq<Event>, longer: seq<Event>)
    requires log <= longer
    ensures Attempts(log) <= Attempts(longer)
  {
    if |longer| > |log| {
      AttemptsGrow(log, longer[..|longer| - 1]);
      assert longer == longer[..|longer| - 1] + [longer[|longer| - 1]];
      hide Attempts;
      Appended(longer[..|longer| - 1], longer[|longer| - 1]);
    } else {
      assert log == longer;
    }
  }

  /** The callbacks handed to the drivers. The script is an arbitrary function, so
      reads may fail and state may change late, spontaneously or despite a
      rejected write.
   */
  class TrialBackend {
    const callbacks: set<Callback>
    const script: nat -> Answer
    var calls: nat
    var tracking: bool   // the caller asked for fan-state changes to be noted
    var changed: bool    // a noted observation showed such a change
    ghost var log: seq<Event>

    constructor (callbacks: set<Callback>, script: nat -> Answer)
      ensures log == [] && this.callbacks == callbacks && this.script == script && !tracking && !changed
    {
      this.callbacks := callbacks;
      this.script := script;
      calls, tracking, changed, log := 0, false, false, [];
    }

    method ReadObservation(temperatures: bool) returns (result: Option<Snapshot>)
      modifies `calls, `log
      ensures log == old(log) + [Read(temperatures, result)]
      ensures Attempts(log) == Attempts(old(log))
      ensures LatestRead(log) == if result.Some? then result else LatestRead(old(log))
      ensures Deviations(log) == Deviations(old(log)) + if result.Some? && !SystemFans(result.value) then 1 else 0
      ensures var t := Counted(old(log));
              Counted(log) == t.(made := t.made + 1, lost := t.lost + if result.None? then 1 else 0)
    {
      var answer := script(calls);
      calls := calls + 1;
      result := if answer.ok then Some(answer.snapshot) else None;
      Appended(log, Read(temperatures, result));
      log := log + [Read(temperatures, result)];
    }

    method MonotonicSeconds() returns (time: Double)
      modifies `calls, `log
      ensures log == old(log) + [Clock(time)] && Settled(log)
      ensures Counted(log) == Counted(old(log)).(clocks := Counted(old(log)).clocks + 1)
      ensures Settled(old(log)) ==> Run(log) == Run(old(log))
      ensures Attempts(log) == Attempts(old(log)) && LatestRead(log) == LatestRead(old(log))
      ensures Deviations(log) == Deviations(old(log))
    {
      time := script(calls).time;
      calls := calls + 1;
      Appended(log, Clock(time));
      log := log + [Clock(time)];
    }

    method ShouldStop() returns (stop: bool)
      modifies `calls, `log
      ensures log == old(log) + [StopAsked(stop)] && Settled(log)
      ensures Counted(log) == Counted(old(log))
      ensures Settled(old(log)) ==> Run(log) == Run(old(log))
      ensures Attempts(log) == Attempts(old(log)) && LatestRead(log) == LatestRead(old(log))
      ensures Deviations(log) == Deviations(old(log))
    {
      stop := script(calls).stop;
      calls := calls + 1;
      Appended(log, StopAsked(stop));
      log := log + [StopAsked(stop)];
    }

    method WaitMilliseconds(milliseconds: nat) returns (ok: bool)
      modifies `calls, `log
      ensures log == old(log) + [Wait(milliseconds, ok)] && Settled(log)
      ensures Counted(log) == Counted(old(log)).(waited := Counted(old(log)).waited + milliseconds)
      ensures Settled(old(log)) ==> Run(log) == Run(old(log))
      ensures Attempts(log) == Attempts(old(log)) && LatestRead(log) == LatestRead(old(log))
      ensures Deviations(log) == Deviations(old(log))
    {
      ok := script(calls).ok;
      calls := calls + 1;
      Appended(log, Wait(milliseconds, ok));
      log := log + [Wait(milliseconds, ok)];
    }

    /** The record callback is optional everywhere. */
    method RecordObservation(second: nat, snapshot: Snapshot)
      modifies `log
      ensures log == old(log) + if CanRecord in callbacks then [Record(second, snapshot)] else []
      ensures Counted(log) == Counted(old(log))
      ensures Settled(old(log)) ==> Settled(log) && Run(log) == Run(old(log))
      ensures Attempts(log) == Attempts(old(log)) && LatestRead(log) == LatestRead(old(log))
      ensures Deviations(log) == Deviations(old(log))
    {
      if CanRecord in callbacks {
        Appended(log, Record(second, snapshot));
        log := log + [Record(second, snapshot)];
      }
    }

    method AttemptMode(fan: nat, mode: Byte) returns (ok: bool)
      modifies `calls, `log
      ensures log == old(log) + [WriteMode(fan, mode, ok)] && Settled(log)
      ensures Counted(log) == Counted(old(log))
      ensures Attempts(log) == Attempts(old(log)) + [Attempt(WriteMode(fan, mode, ok), LatestRead(old(log)))]
      ensures LatestRead(log) == LatestRead(old(log)) && Deviations(log) == Deviations(old(log))
    {
      ok := script(calls).ok;
      calls := calls + 1;
      Appended(log, WriteMode(fan, mode, ok));
      log := log + [WriteMode(fan, mode, ok)];
    }

    method AttemptTarget(fan: nat, rpm: Double) returns (ok: bool)
      modifies `calls, `log
      ensures log == old(log) + [WriteTarget(fan, rpm, ok)] && Settled(log)
      ensures Counted(log) == Counted(old(log))
      ensures Attempts(log) == Attempts(old(log)) + [Attempt(WriteTarget(fan, rpm, ok), LatestRead(old(log)))]
      ensures LatestRead(log) == LatestRead(old(log)) && Deviations(log) == Deviations(old(log))
    {
      ok := script(calls).ok;
      calls := calls + 1;
      Appended(log, WriteTarget(fan, rpm, ok));
      log := log + [WriteTarget(fan, rpm, ok)];
    }

    method AttemptFtst(value: Byte) returns (ok: bool)
      modifies `calls, `log
      ensures log == old(log) + [WriteFtst(value, ok)] && Settled(log)
      ensures Counted(log) == Counted(old(log))
      ensures Attempts(log) == Attempts(old(log)) + [Attempt(WriteFtst(value, ok), LatestRead(old(log)))]
      ensures LatestRead(log) == LatestRead(old(log)) && Deviations(log) == Deviations(old(log))
    {
      ok := script(calls).ok;
      calls := calls + 1;
      Appended(log, WriteFtst(value, ok));
      log := log + [WriteFtst(value, ok)];
    }

    /** Remember that an observation showed a fan outside system mode or with a target. */
    method NoteFanState(snapshot: Snapshot)
      modifies `changed
      ensures changed == (old(changed) || (tracking && !SystemFans(snapshot)))
    {
      if tracking && !SystemFans(snapshot) {
        changed := true;
      }
    }
  }
}
