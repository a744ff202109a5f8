/** Reading an observer's records from its pipe, however they are chunked, and
    deciding whether they amount to a complete minute.
 */
module ObserverPipe {
  import opened SmcBaseline
  import opened MinuteRule
  import opened LeaseSpec
  import opened ControlLeaseReducer
  import opened OwnerProtocol
  import opened SupervisorKernel
  import opened WorkerLifetime

  // ---------------------------------------------------------------------------
  // What the records so far mean
  // ---------------------------------------------------------------------------

  function Finish(d: Delivery): u64 {
    d.observation.finished
  }

  function LastFinish(window: seq<Delivery>): u64
    requires |window| > 0
  {
    window[|window| - 1].observation.finished
  }

  /** A system read that can be the next record of a window. */
  predicate Continues(window: seq<Delivery>, d: Delivery) {
    && d.observation.result == Ok && IsSystem(d.observation.snapshot)
    && if window == [] then d.observation.finished > 0
       else LastFinish(window) <= d.observation.started && InTime(LastFinish(window), d.observation.finished)
  }

  /** Every record so far was prompt and continued the ones before it. */
  predicate Unbroken(window: seq<Delivery>, launched: u64) {
    forall k | 0 <= k < |window| :: Prompt(window[k], launched) && Continues(window[..k], window[k])
  }

  predicate Minute(window: seq<Delivery>) {
    |window| >= REQUIRED_SAMPLES && LastFinish(window) - Finish(window[0]) >= BASELINE_NS
  }

  /** The lease has counted exactly these records, and is stable exactly if they make a minute. */
  predicate Tracks(l: Lease, window: seq<Delivery>, recovering: bool) {
    && |window| > 0 && l.samples == |window|
    && l.observationStarted == Finish(window[0]) && l.lastSample == LastFinish(window) >= l.observationStarted
    && (if Minute(window) then l.state.Stable? && l.recoveryVerified == recovering
                               && !l.writePending && l.owner == 0 && l.expiresAt == 0
        else l.state == if recovering then VerifyingRecovery else Observing)
  }

  /** Before the first record: any lease, or for a recovery one that requires it. */
  predicate Opening(l: Lease, recovering: bool) {
    recovering ==> l.state.RecoveryRequired?
  }

  /** A record is accepted exactly if it is prompt and continues the window; the lease then counts it. */
  method AcceptObservation(lease: ControlLease, observation: Observation, launched: u64, received: u64,
                           samples: nat, recovering: bool, ghost window: seq<Delivery>)
    returns (accepted: bool)
    requires samples == |window| < REQUIRED_SAMPLES
    requires if window == [] then Opening(lease.Value(), recovering) else Tracks(lease.Value(), window, recovering)
    modifies lease
    ensures accepted <==>
              Prompt(Delivery(observation, received), launched) && Continues(window, Delivery(observation, received))
    ensures accepted ==> Tracks(lease.Value(), window + [Delivery(observation, received)], recovering)
  {
    if observation.started < launched || observation.finished < observation.started
       || Minus(observation.finished, observation.started) > MAX_READ_NS
       || received < observation.finished || Minus(received, observation.finished) > MAX_DELIVERY_NS
       || (samples > 0 && observation.started < lease.lastSample) {
      return false;
    }
    var reading := Reading(observation.result, Some(observation.snapshot), observation.finished);
    if samples == 0 {
      if recovering {
        lease.RecoveryStarted(reading);
      } else {
        lease.Start(Clear, reading);
      }
    } else {
      lease.Sample(reading);
    }
    return lease.state == (if recovering then VerifyingRecovery else Observing)
           || (lease.state == Stable && lease.recoveryVerified == recovering);
  }

  // ---------------------------------------------------------------------------
  // The byte stream
  // ---------------------------------------------------------------------------

  const RECORD_SIZE := 88
  const RECORD_LIMIT := RECORD_SIZE * (REQUIRED_SAMPLES + 1)

  /** The records of the window are laid out one after another in the stream. */
  predicate Parses(layout: seq<Byte> -> Observation, stream: seq<Byte>, window: seq<Delivery>) {
    && |stream| >= RECORD_SIZE * |window|
    && (forall i | 0 <= i < |window| ::
          window[i].observation == layout(stream[RECORD_SIZE * i..RECORD_SIZE * i + RECORD_SIZE]))
  }

  lemma {:induction false} ParsesMore(layout: seq<Byte> -> Observation, stream: seq<Byte>, chunk: seq<Byte>,
                                      window: seq<Delivery>)
    requires Parses(layout, stream, window)
    ensures Parses(layout, stream + chunk, window)
  {
    forall i | 0 <= i < |window|
      ensures window[i].observation == layout((stream + chunk)[RECORD_SIZE * i..RECORD_SIZE * i + RECORD_SIZE])
    {
      assert (stream + chunk)[RECORD_SIZE * i..RECORD_SIZE * i + RECORD_SIZE]
             == stream[RECORD_SIZE * i..RECORD_SIZE * i + RECORD_SIZE];
    }
  }

  lemma {:induction false} ParsesNext(layout: seq<Byte> -> Observation, stream: seq<Byte>, window: seq<Delivery>,
                                      d: Delivery)
    requires Parses(layout, stream, window) && |stream| == RECORD_SIZE * |window| + RECORD_SIZE
    requires d.observation == layout(stream[RECORD_SIZE * |window|..])
    ensures Parses(layout, stream, window + [d])
  {
    assert stream[RECORD_SIZE * |window|..] == stream[RECORD_SIZE * |window|..RECORD_SIZE * |window| + RECORD_SIZE];
  }

  lemma {:induction false} UnbrokenNext(window: seq<Delivery>, d: Delivery, launched: u64)
    requires Unbroken(window, launched) && Prompt(d, launched) && Continues(window, d)
    ensures Unbroken(window + [d], launched)
  {
    var longer := window + [d];
    forall k | 0 <= k < |longer|
      ensures Prompt(longer[k], launched) && Continues(longer[..k], longer[k])
    {
      assert longer[..k] == window[..k];
      assert window[..|window|] == window;
    }
  }

  lemma {:induction false} UnbrokenAt(window: seq<Delivery>, launched: u64, k: nat)
    requires Unbroken(window, launched) && k < |window|
    ensures Prompt(window[k], launched) && window[k].observation.result == Ok
    ensures IsSystem(window[k].observation.snapshot)
    ensures k > 0 ==> window[k - 1].observation.finished <= window[k].observation.started
    ensures k > 0 ==>
              SAMPLE_MIN_NS <= window[k].observation.finished - window[k - 1].observation.finished <= SAMPLE_MAX_NS
  {
    hide IsSystem, Prompt;
    assert Continues(window[..k], window[k]);
    assert k > 0 ==> window[..k][k - 1] == window[k - 1];
  }

  /** 61 records that make a minute are a complete window. */
  lemma {:induction false} WindowCompletes(window: seq<Delivery>, launched: u64)
    requires Unbroken(window, launched) && |window| == REQUIRED_SAMPLES && Minute(window)
    ensures CompleteWindow(window, launched)
  {
    hide IsSystem, Prompt, Unbroken;
    forall k | 0 <= k < |window|
      ensures Prompt(window[k], launched)
      ensures window[k].observation.result == Ok && IsSystem(window[k].observation.snapshot)
      ensures k > 0 ==> window[k - 1].observation.finished <= window[k].observation.started
      ensures k > 0 ==> SAMPLE_MIN_NS <= FinishTimes(window)[k] - FinishTimes(window)[k - 1] <= SAMPLE_MAX_NS
    {
      UnbrokenAt(window, launched, k);
    }
  }

  /** The last record had been received by then. */
  predicate ReceivedBy(window: seq<Delivery>, time: nat) {
    |window| > 0 ==> window[|window| - 1].received <= time
  }

  /** The records were received one after another. */
  predicate ArrivedInOrder(window: seq<Delivery>) {
    forall k | 0 < k < |window| :: window[k - 1].received <= window[k].received
  }

  /** A record received now keeps the order. */
  lemma {:induction false} ReceivedNext(window: seq<Delivery>, longer: seq<Delivery>, at: nat, now: nat, since: nat)
    requires ReceivedBy(window, at) && ArrivedInOrder(window) && ReceivedSince(window, since) && at <= now
    requires since <= now
    requires window <= longer && |longer| == |window| + 1 && longer[|window|].received >= now
    ensures ArrivedInOrder(longer) && ReceivedSince(longer, since)
  {
    forall k | 0 <= k < |longer|
      ensures since <= longer[k].received && (k > 0 ==> longer[k - 1].received <= longer[k].received)
    {
      assert k < |window| ==> longer[k] == window[k];
      assert k > 0 ==> longer[k - 1] == window[k - 1];
    }
  }

  /** The records received so far: what was read, how it parses, and what the lease counted. */
  predicate Received(layout: seq<Byte> -> Observation, stream: seq<Byte>, lease: Lease, before: Lease,
                     window: seq<Delivery>, launched: u64, recovering: bool)
  {
    && |window| <= REQUIRED_SAMPLES && Parses(layout, stream, window) && Unbroken(window, launched)
    && if window == [] then lease == before else Tracks(lease, window, recovering)
  }

  /** When the latest record had been read, or the launch if there is none. */
  function LatestTime(window: seq<Delivery>, launched: u64): nat {
    if window == [] then launched else window[|window| - 1].observation.finished
  }

  lemma {:induction false} LatestGrows(window: seq<Delivery>, d: Delivery, launched: u64)
    requires Prompt(d, launched) && Continues(window, d)
    ensures LatestTime(window, launched) <= LatestTime(window + [d], launched)
  {
  }

  /** The stream holds the records of the window and at most one more. */
  predicate Streamed(layout: seq<Byte> -> Observation, stream: seq<Byte>, window: seq<Delivery>) {
    Parses(layout, stream, window) && |stream| <= RECORD_SIZE * |window| + RECORD_SIZE
  }

  /** The whole record after those of the window cannot be accepted: it is one too many,
      or received at this time it was not prompt or did not continue the window.
   */
  predicate Refuses(layout: seq<Byte> -> Observation, stream: seq<Byte>, window: seq<Delivery>, launched: u64,
                    received: u64)
  {
    && |stream| == RECORD_SIZE * |window| + RECORD_SIZE
    && (|window| >= REQUIRED_SAMPLES
        || var d := Delivery(layout(stream[RECORD_SIZE * |window|..]), received);
           !Prompt(d, launched) || !Continues(window, d))
  }

  /** A whole record is in the buffer: accept it as the next of the window, or not. */
  method ConsumeRecord(k: Kernel, buffer: array<Byte>, lease: ControlLease, launched: u64, samples: nat,
                       recovering: bool,
                       ghost before: Lease, ghost window: seq<Delivery>)
    returns (accepted: bool, observation: Observation, ghost longer: seq<Delivery>, ghost received: u64)
    requires Received(k.layout, k.stream, lease.Value(), before, window, launched, recovering)
    requires Opening(before, recovering)
    requires samples == |window| && buffer.Length == RECORD_SIZE
    requires |k.stream| == RECORD_SIZE * samples + RECORD_SIZE && buffer[..] == k.stream[RECORD_SIZE * samples..]
    modifies lease, k`calls, k`time, k`errors
    ensures old(k.time) <= k.time <= old(k.time) + k.step
    ensures !accepted ==> longer == window
    ensures !accepted ==>
              || k.errors > old(k.errors)
              || (received <= k.time && Refuses(k.layout, k.stream, window, launched, received))
    ensures accepted ==>
              && |longer| == samples + 1 && Received(k.layout, k.stream, lease.Value(), before, longer, launched, recovering)
              && longer[samples].observation == observation && ReceivedBy(longer, k.time)
              && window <= longer && longer[samples].received >= old(k.time)
              && LatestTime(window, launched) <= LatestTime(longer, launched)
    ensures old(k.errors) <= k.errors && k.stream == old(k.stream)
  {
    observation := k.layout(buffer[..]);
    longer, received := window, 0;
    if samples >= REQUIRED_SAMPLES {
      return false, observation, window, 0;
    }
    var now := k.Now();
    received := now;
    accepted := AcceptObservation(lease, observation, launched, now, samples, recovering, window);
    if accepted {
      ghost var d := Delivery(observation, now);
      ParsesNext(k.layout, k.stream, window, d);
      UnbrokenNext(window, d, launched);
      LatestGrows(window, d, launched);
      longer := window + [d];
    }
  }

  /** The trace has not changed, or it grew by reaping the child, with this outcome. */
  predicate ReapedSo(acts: seq<Act>, pc: Pc, acts': seq<Act>, pc': Pc, reaped: bool, clean: bool) {
    && !pc.child.NoChild?
    && if reaped then
         ReapedOnce(acts, acts') && pc' == After(pc, acts'[|acts|]) && clean == (acts'[|acts|].status == Exited(0))
       else acts' == acts && pc' == pc && !clean
  }

  datatype Polled = Data | Ended | Nothing | Wrong

  /** The buffer holds the bytes of the stream after the complete records. */
  ghost predicate Buffered(k: Kernel, buffer: array<Byte>, samples: nat, filled: nat)
    reads k`stream, buffer
  {
    && filled < buffer.Length == RECORD_SIZE
    && |k.stream| == RECORD_SIZE * samples + filled && buffer[..filled] == k.stream[RECORD_SIZE * samples..]
  }

  /** A call failed, or the record that was just completed cannot be accepted. */
  ghost predicate GoneWrong(k: Kernel, errors: nat, window: seq<Delivery>, launched: u64, received: u64)
    reads k`errors, k`stream, k`time
  {
    && Streamed(k.layout, k.stream, window)
    && (k.errors > errors || (received <= k.time && Refuses(k.layout, k.stream, window, launched, received)))
  }

  /** Read what the pipe has, at most to the end of the current record. */
  method PollPipe(k: Kernel, buffer: array<Byte>, lease: ControlLease, launched: u64, filled: nat, samples: nat,
                  recovering: bool, ghost before: Lease, ghost window: seq<Delivery>)
    returns (polled: Polled, filled': nat, accepted: Option<Observation>, ghost window': seq<Delivery>,
             ghost received: u64)
    requires Received(k.layout, k.stream, lease.Value(), before, window, launched, recovering)
    requires Opening(before, recovering)
    requires Buffered(k, buffer, samples, filled) && samples == |window|
    modifies buffer, lease, k`calls, k`time, k`errors, k`stream, k`ended
    ensures old(k.time) <= k.time <= old(k.time) + 2 * k.step
    ensures k.ended == (old(k.ended) || polled.Ended?)
    ensures !polled.Wrong? ==>
              && Received(k.layout, k.stream, lease.Value(), before, window', launched, recovering)
              && Buffered(k, buffer, |window'|, filled')
    ensures !polled.Wrong? && !polled.Data? ==> filled' == filled && accepted.None?
    ensures if polled.Data? then |k.stream| > |old(k.stream)| else polled.Wrong? || k.stream == old(k.stream)
    ensures accepted.None? ==> window' == window
    ensures LatestTime(window, launched) <= LatestTime(window', launched)
    ensures accepted.Some? ==> |window'| == samples + 1 && window'[samples].observation == accepted.value
    ensures accepted.Some? ==>
              ReceivedBy(window', k.time) && window <= window' && window'[samples].received >= old(k.time)
    ensures !polled.Wrong? ==> |k.stream| <= RECORD_LIMIT
    ensures old(k.errors) <= k.errors
    ensures polled.Wrong? ==> window' == window && GoneWrong(k, old(k.errors), window, launched, received)
  {
    hide Tracks, Continues, Unbroken, Prompt, Refuses, LatestTime;
    filled', accepted, window', received := filled, None, window, 0;
    var outcome := k.ReadPipe(buffer, filled);
    ParsesMore(k.layout, old(k.stream), k.stream[|old(k.stream)|..], window);
    assert k.stream == old(k.stream) + k.stream[|old(k.stream)|..];
    match outcome
    case Interrupted => polled := Nothing;
    case Broken => polled := Wrong;
    case Moved(count) =>
      if count == 0 {
        polled := Ended;
      } else {
        filled' := filled + count;
        assert buffer[..filled'] == k.stream[RECORD_SIZE * samples..] by {
          assert buffer[..filled'] == buffer[..filled] + buffer[filled..filled'];
        }
        polled := Data;
        if filled' == RECORD_SIZE {
          assert buffer[..] == buffer[..filled'];
          var ok, observation, longer, at := ConsumeRecord(k, buffer, lease, launched, samples, recovering, before, window);
          received := at;
          if ok {
            filled', accepted, window' := 0, Some(observation), longer;
          } else {
            polled := Wrong;
          }
        }
      }
  }

  /** Everything the loop has gathered: the records, the bytes after them, the latest
      snapshot, and the deadline for the next record.
   */
  datatype Gathered = Gathered(filled: nat, samples: nat, latest: Option<Snapshot>, progressDeadline: u64)

  ghost predicate Agrees(k: Kernel, buffer: array<Byte>, lease: Lease, before: Lease, window: seq<Delivery>,
                         launched: u64,
                         recovering: bool, g: Gathered, at: nat, since: nat)
    reads k`stream, buffer
  {
    && Received(k.layout, k.stream, lease, before, window, launched, recovering)
    && Buffered(k, buffer, g.samples, g.filled) && g.samples == |window| && ReceivedBy(window, at)
    && ReceivedSince(window, since) && ArrivedInOrder(window)
    && g.progressDeadline == ProgressDeadline(window, launched)
    && g.latest == if g.samples == 0 then None else Some(window[g.samples - 1].observation.snapshot)
  }

  /** Poll the pipe and note a completed record. */
  method Receive(k: Kernel, buffer: array<Byte>, lease: ControlLease, launched: u64, recovering: bool, g: Gathered,
                 ghost before: Lease, ghost window: seq<Delivery>, ghost at: nat, ghost since: nat)
    returns (polled: Polled, g': Gathered, ghost window': seq<Delivery>, ghost at': nat, ghost received: u64)
    requires Agrees(k, buffer, lease.Value(), before, window, launched, recovering, g, at, since)
    requires Opening(before, recovering)
    requires at <= k.time && since <= k.time
    modifies buffer, lease, k`calls, k`time, k`errors, k`stream, k`ended
    ensures old(k.time) <= k.time <= old(k.time) + 2 * k.step
    ensures k.ended == (old(k.ended) || polled.Ended?)
    ensures !polled.Wrong? ==>
              && Agrees(k, buffer, lease.Value(), before, window', launched, recovering, g', at', since) && at' <= k.time
              && |k.stream| <= RECORD_LIMIT
    ensures if polled.Data? then |k.stream| > |old(k.stream)| else polled.Wrong? || k.stream == old(k.stream)
    ensures old(k.errors) <= k.errors
    ensures polled.Wrong? ==> window' == window && GoneWrong(k, old(k.errors), window, launched, received)
    ensures LatestTime(window, launched) <= LatestTime(window', launched)
  {
    hide GoneWrong, LatestTime, Received, Buffered, Opening, ArrivedInOrder, ReceivedSince;
    g', at' := g, at;
    ghost var now := k.time;
    var filled, accepted;
    polled, filled, accepted, window', received := PollPipe(k, buffer, lease, launched, g.filled, g.samples,
      recovering, before, window);
    g' := g'.(filled := filled);
    if accepted.Some? {
      g' := Gathered(filled, g.samples + 1, Some(accepted.value.snapshot), Plus(accepted.value.finished, PROGRESS_NS));
      at' := k.time;
      ReceivedNext(window, window', at, now, since);
    }
  }

  /** Collect the observer if it has ended; it is counted once. */
  method PollChild(k: Kernel, child: int, report: Report, reaped: bool, clean: bool, ghost acts: seq<Act>, ghost pc: Pc)
    returns (lost: bool, reaped': bool, clean': bool)
    requires k.Valid() && ReapedSo(acts, pc, k.acts, k.pc, reaped, clean) && !pc.child.NoChild? && pc.child.pid == child
    modifies report`reaped, k`calls, k`time, k`errors, k`acts, k`pc, k`collected
    ensures k.Valid() && old(k.time) <= k.time <= old(k.time) + k.step
    ensures ReapedSo(acts, pc, k.acts, k.pc, reaped', clean') && (reaped ==> reaped') && (lost ==> !reaped')
    ensures report.reaped == old(report.reaped) + if reaped' && !reaped then 1 else 0
    ensures k.collected == old(k.collected) + if reaped' && !reaped then 1 else 0
    ensures old(k.errors) <= k.errors && (lost ==> k.errors > old(k.errors))
  {
    hide Kernel.Valid;
    lost, reaped', clean' := false, reaped, clean;
    if !reaped {
      var waited := k.WaitPid(child);
      lost := waited.NotOurs?;
      if waited.Reaped? {
        report.reaped := report.reaped + 1;
        reaped', clean' := true, Classify(waited.status) == Clean;
      }
    }
  }

  /** An ended stream whose lease is not stable, or with bytes left over, is no minute. */
  lemma {:induction false} NoMinute(k: Kernel, buffer: array<Byte>, lease: Lease, before: Lease, window: seq<Delivery>,
                                    launched: u64, recovering: bool, g: Gathered, at: nat, since: nat)
    requires Agrees(k, buffer, lease, before, window, launched, recovering, g, at, since)
    requires g.filled != 0 || g.samples != REQUIRED_SAMPLES || !lease.state.Stable? || lease.recoveryVerified != recovering
    ensures !ReadsAMinute(k.stream, window)
  {
    hide Unbroken, Parses;
  }

  lemma {:induction false} ProgressKnown(k: Kernel, buffer: array<Byte>, lease: Lease, before: Lease,
                                        window: seq<Delivery>,
                                         launched: u64, recovering: bool, g: Gathered, at: nat, since: nat)
    requires Agrees(k, buffer, lease, before, window, launched, recovering, g, at, since)
    ensures g.progressDeadline == ProgressDeadline(window, launched)
  {
  }

  lemma {:induction false} StillRunning(acts: seq<Act>, pc: Pc)
    requires !pc.child.NoChild?
    ensures ReapedSo(acts, pc, acts, pc, false, false)
  {
  }

  lemma {:induction false} NothingReceived(k: Kernel, buffer: array<Byte>, before: Lease, launched: u64,
                                        recovering: bool, at: nat, since: nat)
    requires k.stream == [] && buffer.Length == RECORD_SIZE
    ensures Agrees(k, buffer, before, before, [], launched, recovering,
              Gathered(0, 0, None, Plus(launched, PROGRESS_NS)), at, since)
    ensures launched == 0 ==> Plus(launched, PROGRESS_NS) == PROGRESS_NS
  {
  }

  /** With all the records and no bytes left over, a stable lease means a minute. */
  lemma {:induction false} Completed(k: Kernel, buffer: array<Byte>, lease: Lease, before: Lease, window: seq<Delivery>,
                                     launched: u64, recovering: bool, g: Gathered, at: nat, since: nat)
    requires Agrees(k, buffer, lease, before, window, launched, recovering, g, at, since) && at <= k.time
    requires g.filled == 0 && g.samples == REQUIRED_SAMPLES && lease.state.Stable?
    ensures |k.stream| == RECORD_SIZE * REQUIRED_SAMPLES && Parses(k.layout, k.stream, window)
    ensures |window| == REQUIRED_SAMPLES && Unbroken(window, launched) && Minute(window)
    ensures Tracks(lease, window, recovering) && ReceivedBy(window, k.time) && ReceivedSince(window, since)
    ensures ArrivedInOrder(window)
    ensures g.latest == Some(window[REQUIRED_SAMPLES - 1].observation.snapshot)
  {
    hide Unbroken, Parses;
  }

  /** How ReadObserver ends, if it has; a lost observer is one that could not be waited for. */
  datatype Ending = Undecided | Complete | Incomplete | Lost

  /** Exactly 61 records and no bytes left over, and a minute from the first to the last. */
  predicate ReadsAMinute(stream: seq<Byte>, window: seq<Delivery>) {
    |stream| == RECORD_SIZE * REQUIRED_SAMPLES && |window| == REQUIRED_SAMPLES && Minute(window)
  }

  /** How far an observation had come when it was given up. */
  datatype ObserverEnd = ObserverEnd(
    time: nat, deadline: u64, launched: u64, stream: seq<Byte>, window: seq<Delivery>, received: u64,
    ended: bool, reaped: bool, clean: bool)

  /** The latest record, or the launch if there is none, lies seven seconds back. */
  predicate Stalled(window: seq<Delivery>, launched: u64, time: nat) {
    var latest := if window == [] then launched else window[|window| - 1].observation.finished;
    latest + 7_000_000_000 > U64_MAX || time >= latest + 7_000_000_000
  }

  /** Why an observation is given up: a call failed, its deadline has passed, nothing came
      for seven seconds, a whole record could not be accepted, or the stream and the
      observer have ended without a clean exit or without a minute.
   */
  predicate Fault(failed: bool, layout: seq<Byte> -> Observation, e: ObserverEnd) {
    && Streamed(layout, e.stream, e.window)
    && (|| failed || e.time >= e.deadline || Stalled(e.window, e.launched, e.time)
        || (e.received <= e.time && Refuses(layout, e.stream, e.window, e.launched, e.received))
        || (e.ended && e.reaped && (!e.clean || !ReadsAMinute(e.stream, e.window))))
  }

  lemma {:induction false} FaultFound(failed: bool, layout: seq<Byte> -> Observation, e: ObserverEnd)
    requires Streamed(layout, e.stream, e.window)
    requires failed || e.time >= e.deadline || Stalled(e.window, e.launched, e.time)
             || (e.ended && e.reaped && (!e.clean || !ReadsAMinute(e.stream, e.window)))
    ensures Fault(failed, layout, e)
  {
    hide Streamed, Stalled, Refuses, ReadsAMinute;
  }

  lemma {:induction false} WrongIsFault(k: Kernel, errors: nat, failed: bool, e: ObserverEnd)
    requires GoneWrong(k, errors, e.window, e.launched, e.received) && e.stream == k.stream && e.time == k.time
    requires k.errors > errors ==> failed
    ensures Fault(failed, k.layout, e)
  {
    hide Streamed, Stalled, Refuses, ReadsAMinute;
  }

  lemma {:induction false} FaultStays(failed: bool, layout: seq<Byte> -> Observation, e: ObserverEnd, failed': bool)
    requires Fault(failed, layout, e) && (failed ==> failed')
    ensures Fault(failed', layout, e)
  {
    hide Streamed, Stalled, Refuses, ReadsAMinute;
  }

  lemma {:induction false} FaultStreamed(failed: bool, layout: seq<Byte> -> Observation, e: ObserverEnd)
    requires Fault(failed, layout, e)
    ensures Streamed(layout, e.stream, e.window)
  {
    hide Streamed;
  }

  /** A clock at the progress deadline shows that the observation has stalled. */
  lemma {:induction false} DeadlineIsStall(window: seq<Delivery>, launched: u64, time: nat)
    requires time >= ProgressDeadline(window, launched)
    ensures Stalled(window, launched, time)
  {
  }

  /** Before the progress deadline it has not. */
  lemma {:induction false} NotStalled(window: seq<Delivery>, launched: u64, time: nat)
    requires time < ProgressDeadline(window, launched)
    ensures time < LatestTime(window, launched) + 7_000_000_000
  {
  }

  lemma {:induction false} AgreesStreamed(k: Kernel, buffer: array<Byte>, lease: Lease, before: Lease,
                                          window: seq<Delivery>, launched: u64, recovering: bool, g: Gathered, at: nat,
                                          since: nat)
    requires Agrees(k, buffer, lease, before, window, launched, recovering, g, at, since)
    ensures Streamed(k.layout, k.stream, window)
  {
    hide Parses, Unbroken;
  }

  function ProgressDeadline(window: seq<Delivery>, launched: u64): u64 {
    Plus(if window == [] then launched else LastFinish(window), PROGRESS_NS)
  }

  /** What Complete stands for. */
  ghost predicate MinuteRead(k: Kernel, lease: Lease, window: seq<Delivery>, launched: u64, recovering: bool,
                             latest: Option<Snapshot>, since: nat)
    reads k`stream, k`time
  {
    && |k.stream| == RECORD_SIZE * REQUIRED_SAMPLES && Parses(k.layout, k.stream, window)
    && Unbroken(window, launched) && |window| == REQUIRED_SAMPLES && Minute(window)
    && ReceivedBy(window, k.time) && ReceivedSince(window, since) && ArrivedInOrder(window)
    && Tracks(lease, window, recovering)
    && latest == Some(window[REQUIRED_SAMPLES - 1].observation.snapshot)
  }

  /** What ReadObserver accepts from an observer it began to read at this time. */
  predicate Acceptable(window: seq<Delivery>, launched: u64, since: nat) {
    && Unbroken(window, launched) && |window| == REQUIRED_SAMPLES && Minute(window)
    && ReceivedSince(window, since) && ArrivedInOrder(window) && (launched == 0 ==> since < PROGRESS_NS)
  }

  lemma {:induction false} MinuteAccepted(k: Kernel, lease: Lease, window: seq<Delivery>, launched: u64,
                                          recovering: bool, latest: Option<Snapshot>, since: nat)
    requires MinuteRead(k, lease, window, launched, recovering, latest, since)
    requires (launched == 0 ==> since < PROGRESS_NS)
    ensures Acceptable(window, launched, since)
  {
  }

  /** After a turn without data: collect the observer, and decide or pause. */
  method SettleOrPause(k: Kernel, child: int, buffer: array<Byte>, lease: ControlLease, launched: u64, report: Report,
                       recovering: bool,
                       g: Gathered, eof: bool, reaped: bool, clean: bool, ghost before: Lease,
                         ghost window: seq<Delivery>, ghost at: nat,
                       ghost since: nat, ghost acts: seq<Act>, ghost pc: Pc)
    returns (ending: Ending, reaped': bool, clean': bool)
    requires k.Valid() && ReapedSo(acts, pc, k.acts, k.pc, reaped, clean) && !pc.child.NoChild? && pc.child.pid == child
    requires Agrees(k, buffer, lease.Value(), before, window, launched, recovering, g, at, since) && at <= k.time
    modifies report`reaped, k`calls, k`time, k`errors, k`acts, k`pc, k`collected
    ensures k.Valid() && ReapedSo(acts, pc, k.acts, k.pc, reaped', clean')
    ensures report.reaped - old(report.reaped) == k.collected - old(k.collected) == if reaped' && !reaped then 1 else 0
    ensures reaped ==> reaped'
    ensures ending.Lost? ==> !reaped'
    ensures ending.Complete? ==>
              reaped' && clean' && MinuteRead(k, lease.Value(), window, launched, recovering, g.latest, since)
    ensures if ending.Undecided? then old(k.time) < k.time <= old(k.time) + 1 + PAUSE_NS + 2 * k.step
            else old(k.time) <= k.time <= old(k.time) + k.step
    ensures old(k.errors) <= k.errors && (ending.Lost? ==> k.errors > old(k.errors))
    ensures ending.Incomplete? ==> eof && reaped' && (!clean' || !ReadsAMinute(k.stream, window))
  {
    hide Kernel.Valid, Agrees, ReapedSo, Tracks, Unbroken, Parses, Minute, ReceivedBy, ReceivedSince, ArrivedInOrder,
      ReadsAMinute;
    var lost;
    lost, reaped', clean' := PollChild(k, child, report, reaped, clean, acts, pc);
    if lost {
      ending := Lost;
    } else if reaped' && eof {
      ending := Incomplete;
      if clean' && g.filled == 0 && g.samples == REQUIRED_SAMPLES && lease.state == Stable
        && lease.recoveryVerified == recovering {
        Completed(k, buffer, lease.Value(), before, window, launched, recovering, g, at, since);
        ending := Complete;
      } else if clean' {
        NoMinute(k, buffer, lease.Value(), before, window, launched, recovering, g, at, since);
      }
    } else {
      ending := Undecided;
      k.Pause(PAUSE_NS);
    }
  }

  datatype Turn = Again | Quiet | GivenUp

  /** Check the deadlines and poll the pipe. */
  method PollOnce(k: Kernel, buffer: array<Byte>, lease: ControlLease, launched: u64, deadline: u64, recovering: bool,
                  g: Gathered, eof: bool, ghost before: Lease, ghost window: seq<Delivery>, ghost at: nat,
                  ghost since: nat, ghost reaped: bool, ghost clean: bool, ghost failed: bool)
    returns (turn: Turn, g': Gathered, eof': bool, ghost window': seq<Delivery>, ghost at': nat, ghost received: u64)
    requires Agrees(k, buffer, lease.Value(), before, window, launched, recovering, g, at, since)
    requires Opening(before, recovering) && eof == k.ended
    requires at <= k.time && since <= k.time && |k.stream| <= RECORD_LIMIT
    modifies buffer, lease, k`calls, k`time, k`errors, k`stream, k`ended
    ensures old(k.time) <= k.time <= old(k.time) + 4 * k.step && old(k.errors) <= k.errors
    ensures eof' == k.ended
    ensures turn.GivenUp? ==>
              Fault(failed || k.errors > old(k.errors), k.layout,
                    ObserverEnd(k.time, deadline, launched, k.stream, window', received, k.ended, reaped, clean))
    ensures !turn.GivenUp? ==>
              && Agrees(k, buffer, lease.Value(), before, window', launched, recovering, g', at', since) && at' <= k.time
              && |k.stream| <= RECORD_LIMIT && old(k.time) < deadline && old(k.time) < ProgressDeadline(window, launched)
    ensures turn.Again? ==> |k.stream| > |old(k.stream)|
    ensures turn.Quiet? ==> k.stream == old(k.stream)
    ensures LatestTime(window, launched) <= LatestTime(window', launched) && (turn.GivenUp? ==> window' == window)
  {
    hide LatestTime, Agrees, Opening, Fault, ProgressDeadline, ReadsAMinute, Streamed, Stalled, GoneWrong;
    g', eof', window', at', received := g, eof, window, at, 0;
    AgreesStreamed(k, buffer, lease.Value(), before, window, launched, recovering, g, at, since);
    k.Callback();
    var now := k.Now();
    ProgressKnown(k, buffer, lease.Value(), before, window, launched, recovering, g, at, since);
    turn := Quiet;
    if now == 0 || now >= deadline || now >= g.progressDeadline {
      turn := GivenUp;
      if now >= g.progressDeadline {
        DeadlineIsStall(window, launched, k.time);
      }
      FaultFound(failed || k.errors > old(k.errors), k.layout,
                 ObserverEnd(k.time, deadline, launched, k.stream, window', received, k.ended, reaped, clean));
    } else if !eof {
      var polled;
      ghost var errors := k.errors;
      polled, g', window', at', received := Receive(k, buffer, lease, launched, recovering, g, before, window, at, since);
      turn := if polled.Wrong? then GivenUp else if polled.Data? then Again else Quiet;
      eof' := polled.Ended?;
      if polled.Wrong? {
        WrongIsFault(k, errors, failed || k.errors > old(k.errors),
                     ObserverEnd(k.time, deadline, launched, k.stream, window', received, k.ended, reaped, clean));
      }
    }
  }

  /** Poll the pipe, and settle or pause unless there was data. A turn that is not given up
      began before the deadline and less than seven seconds after the latest record.
   */
  method ReadTurn(k: Kernel, child: int, buffer: array<Byte>, lease: ControlLease, launched: u64, deadline: u64,
                  report: Report, recovering: bool, g: Gathered, eof: bool, reaped: bool, clean: bool,
                  ghost before: Lease, ghost window: seq<Delivery>, ghost at: nat, ghost since: nat, ghost failed: bool,
                  ghost acts: seq<Act>, ghost pc: Pc)
    returns (ending: Ending, g': Gathered, eof': bool, reaped': bool, clean': bool, ghost window': seq<Delivery>,
             ghost at': nat, ghost received: u64)
    requires k.Valid() && ReapedSo(acts, pc, k.acts, k.pc, reaped, clean) && !pc.child.NoChild? && pc.child.pid == child
    requires Agrees(k, buffer, lease.Value(), before, window, launched, recovering, g, at, since)
    requires Opening(before, recovering) && eof == k.ended
    requires at <= k.time && since <= k.time && |k.stream| <= RECORD_LIMIT
    modifies buffer, lease, report`reaped, k`calls, k`time, k`errors, k`acts, k`pc, k`collected, k`stream, k`ended
    ensures k.Valid() && ReapedSo(acts, pc, k.acts, k.pc, reaped', clean')
    ensures report.reaped - old(report.reaped) == k.collected - old(k.collected) == if reaped' && !reaped then 1 else 0
    ensures reaped ==> reaped'
    ensures ending.Lost? ==> !reaped' && k.errors > old(k.errors)
    ensures old(k.errors) <= k.errors && Streamed(k.layout, k.stream, window')
    ensures ending.Undecided? ==>
              && Agrees(k, buffer, lease.Value(), before, window', launched, recovering, g', at', since) && at' <= k.time
              && |k.stream| <= RECORD_LIMIT && eof' == k.ended
              && (|k.stream| > |old(k.stream)| || (k.stream == old(k.stream) && k.time > old(k.time)))
    ensures ending.Complete? ==>
              reaped' && clean' && MinuteRead(k, lease.Value(), window', launched, recovering, g'.latest, since)
    ensures ending.Incomplete? ==>
              Fault(failed || k.errors > old(k.errors), k.layout,
                    ObserverEnd(k.time, deadline, launched, k.stream, window', received, k.ended, reaped', clean'))
    ensures old(k.time) <= k.time
    ensures k.time <= old(k.time) + if ending.Undecided? then 1 + PAUSE_NS + 6 * k.step else 5 * k.step
    ensures LatestTime(window, launched) <= LatestTime(window', launched)
    ensures ending.Incomplete? || (old(k.time) < deadline && old(k.time) < ProgressDeadline(window, launched))
  {
    hide Kernel.Valid, Agrees, ReapedSo, MinuteRead, Opening, Fault, ReadsAMinute, ProgressDeadline, LatestTime,
      Streamed, Stalled;
    var turn;
    ending, reaped', clean' := Undecided, reaped, clean;
    turn, g', eof', window', at', received := PollOnce(k, buffer, lease, launched, deadline, recovering, g, eof,
      before, window, at,
                                                       since, reaped, clean, failed);
    if turn.GivenUp? {
      ending := Incomplete;
      FaultStreamed(failed || k.errors > old(k.errors), k.layout,
                    ObserverEnd(k.time, deadline, launched, k.stream, window', received, k.ended, reaped, clean));
      return;
    }
    AgreesStreamed(k, buffer, lease.Value(), before, window', launched, recovering, g', at', since);
    if turn.Quiet? {
      ending, reaped', clean' := SettleOrPause(k, child, buffer, lease, launched, report, recovering, g', eof', reaped, clean,
                                               before, window', at', since, acts, pc);
      if ending.Incomplete? {
        FaultFound(failed || k.errors > old(k.errors), k.layout,
                   ObserverEnd(k.time, deadline, launched, k.stream, window', received, k.ended, reaped', clean'));
      }
    }
  }

  /** Read until the stream and the process have both ended, a deadline has passed or
      something is wrong. Complete means a minute of prompt records, exactly as many
      bytes, and a clean exit. A silent observer is not waited for longer than seven
      seconds after its latest record.
   */
  method ReadObserver(k: Kernel, child: int, lease: ControlLease, launched: u64, deadline: u64, report: Report,
                      recovering: bool)
    returns (ending: Ending, reaped: bool, clean: bool, latest: Option<Snapshot>, ghost window: seq<Delivery>,
             ghost received: u64)
    requires k.Valid() && !k.pc.child.NoChild? && k.pc.child.pid == child && k.stream == [] && !k.ended
    requires Opening(lease.Value(), recovering)
    modifies lease, report`reaped, k`calls, k`time, k`errors, k`acts, k`pc, k`collected, k`stream, k`ended
    ensures k.Valid() && ReapedSo(old(k.acts), old(k.pc), k.acts, k.pc, reaped, clean)
    ensures report.reaped == old(report.reaped) + if reaped then 1 else 0
    ensures k.collected == old(k.collected) + if reaped then 1 else 0
    ensures !ending.Undecided? && (ending.Lost? ==> !reaped)
    ensures ending.Complete? ==>
              reaped && clean && MinuteRead(k, lease.Value(), window, launched, recovering, latest, old(k.time))
    ensures ending.Complete? ==> Acceptable(window, launched, old(k.time))
    ensures old(k.time) <= k.time <= Max(old(k.time), deadline) + 1 + PAUSE_NS + 11 * k.step
    ensures k.time <= Max(old(k.time), LatestTime(window, launched) + 7_000_000_000) + 1 + PAUSE_NS + 11 * k.step
    ensures old(k.errors) <= k.errors && Streamed(k.layout, k.stream, window)
    ensures ending.Incomplete? ==>
              Fault(k.errors > old(k.errors), k.layout,
                    ObserverEnd(k.time, deadline, launched, k.stream, window, received, k.ended, reaped, clean))
    ensures ending.Lost? ==> k.errors > old(k.errors)
  {
    hide Kernel.Valid, Agrees, ReapedSo, MinuteRead, Opening, Plus, Fault, ReadsAMinute, ProgressDeadline, LatestTime,
      Streamed, Stalled;
    var buffer := new Byte[RECORD_SIZE];
    var g, eof := Gathered(0, 0, None, Plus(launched, PROGRESS_NS)), false;
    ending, reaped, clean, window, received := Undecided, false, false, [], 0;
    StillRunning(k.acts, k.pc);
    ghost var before: Lease, at: nat, since: nat := lease.Value(), k.time, k.time;
    NothingReceived(k, buffer, before, launched, recovering, at, since);
    AgreesStreamed(k, buffer, before, before, window, launched, recovering, g, at, since);
    while ending.Undecided?
      invariant k.Valid() && ReapedSo(old(k.acts), old(k.pc), k.acts, k.pc, reaped, clean)
      invariant report.reaped - old(report.reaped) == k.collected - old(k.collected) == if reaped then 1 else 0
      invariant ending.Undecided? ==>
                  && Agrees(k, buffer, lease.Value(), before, window, launched, recovering, g, at, since) && 0 <= at <= k.time
                  && |k.stream| <= RECORD_LIMIT && eof == k.ended
                  && (launched == 0 && since >= PROGRESS_NS ==> g.progressDeadline == PROGRESS_NS)
      invariant old(k.errors) <= k.errors && (ending.Lost? ==> !reaped && k.errors > old(k.errors))
      invariant Streamed(k.layout, k.stream, window)
      invariant ending.Incomplete? ==>
                  Fault(k.errors > old(k.errors), k.layout,
                        ObserverEnd(k.time, deadline, launched, k.stream, window, received, k.ended, reaped, clean))
      invariant ending.Complete? ==>
                  reaped && clean && MinuteRead(k, lease.Value(), window, launched, recovering, g.latest, since)
      invariant ending.Complete? && launched == 0 ==> since < PROGRESS_NS
      invariant since <= k.time <= Max(since, deadline) + 1 + PAUSE_NS + (if ending.Undecided? then 6 else 11) * k.step
      invariant k.time <= Max(since, LatestTime(window, launched) + 7_000_000_000) + 1 + PAUSE_NS
                            + (if ending.Undecided? then 6 else 11) * k.step
      decreases ending.Undecided?, RECORD_LIMIT - |k.stream|, deadline - k.time
    {
      ghost var now := k.time;
      ProgressKnown(k, buffer, lease.Value(), before, window, launched, recovering, g, at, since);
      if now < ProgressDeadline(window, launched) {
        NotStalled(window, launched, now);
      }
      ending, g, eof, reaped, clean, window, at, received :=
        ReadTurn(k, child, buffer, lease, launched, deadline, report, recovering, g, eof, reaped, clean, before, window, at,
                 since, k.errors > old(k.errors), old(k.acts), old(k.pc));
      if ending.Undecided? {
        ProgressKnown(k, buffer, lease.Value(), before, window, launched, recovering, g, at, since);
      }
    }
    latest := g.latest;
    if ending.Complete? {
      MinuteAccepted(k, lease.Value(), window, launched, recovering, latest, since);
    }
  }

  // ---------------------------------------------------------------------------
  // When the launch time is unknown
  // ---------------------------------------------------------------------------

  lemma {:induction false} AcceptableIsReceivable(window: seq<Delivery>, launched: u64, since: nat)
    requires Acceptable(window, launched, since)
    ensures Receivable(window, launched, since)
  {
    hide Unbroken, IsSystem, CompleteWindow, Minute;
    WindowCompletes(window, launched);
    FirstFinish(window, launched);
  }

  lemma {:induction false} FirstFinish(window: seq<Delivery>, launched: u64)
    requires Unbroken(window, launched) && |window| > 0
    ensures Finish(window[0]) > 0 && Prompt(window[0], launched)
  {
    assert Continues(window[..0], window[0]);
  }

  /** Such a window, and what its reads really were: those of an observer begun since. */
  predicate Witnessed(window: seq<Delivery>, launched: u64, since: nat, made: seq<Read>) {
    Acceptable(window, launched, since) && ReadAs(window, made) && Genuine(made, since)
  }

  /** When read number k of an observer begun at this time ends, and begins. */
  function Tick(time: nat, k: nat): nat {
    (if time == 0 then 1 else time) + k * SECOND
  }

  /** Reads once a second of an observer whose clock fails at the first start. */
  function Dazed(time: nat): (made: seq<Read>)
    requires time <= MAX_READ_NS
    ensures |made| == REQUIRED_SAMPLES && forall k | 0 <= k < |made| :: made[k].ended <= U64_MAX
  {
    seq(REQUIRED_SAMPLES, k requires 0 <= k < REQUIRED_SAMPLES =>
      Read(Observation(if k == 0 then 0 else Tick(time, k), Tick(time, k), Ok, COOL), Tick(time, k), Tick(time, k)))
  }

  /** Delivered at once. */
  function AtOnce(made: seq<Read>): (window: seq<Delivery>)
    requires forall k | 0 <= k < |made| :: made[k].ended <= U64_MAX
    ensures |window| == |made|
  {
    seq(|made|, k requires 0 <= k < |made| => Delivery(made[k].observation, made[k].ended))
  }

  lemma {:induction false} DazedIsUnbroken(time: nat)
    requires time <= MAX_READ_NS
    ensures Unbroken(AtOnce(Dazed(time)), 0)
  {
    hide IsSystem;
    var window := AtOnce(Dazed(time));
    CoolSnapshot();
    forall k | 0 <= k < |window|
      ensures Prompt(window[k], 0) && Continues(window[..k], window[k])
    {
      assert k > 0 ==> window[..k][k - 1] == window[k - 1];
    }
  }

  lemma {:induction false} DazedIsWitnessed(time: nat)
    requires time <= MAX_READ_NS
    ensures var made := Dazed(time);
            && Witnessed(AtOnce(made), 0, time, made)
            && AtOnce(made)[0].observation.started == 0 < made[0].began
  {
    hide Unbroken;
    DazedIsUnbroken(time);
  }

  /** Every read of a window that can be accepted after the recovery worker was reaped
      really began after that, and all records but the first say when. The first may not
      say so, exactly if the clock failed at the launch and the reaping came at most five
      seconds after the clock's zero.
   */
  lemma {:induction false} ReadsFollowReap(reaped: nat, launched: u64)
    requires launched == 0 || launched >= reaped
    ensures forall window: seq<Delivery>, since: nat, made: seq<Read> | Witnessed(window, launched, since, made)
              && since >= reaped ::
              ReadsAfter(window, made, launched, reaped)
    ensures (exists window: seq<Delivery>, since: nat, made: seq<Read> ::
               && Witnessed(window, launched, since, made) && since >= reaped
               && window[0].observation.started != made[0].began)
            <==> (launched == 0 && reaped <= MAX_READ_NS)
  {
    hide Unbroken, Minute, ArrivedInOrder, Dazed, AtOnce, Genuine, CompleteWindow;
    forall window: seq<Delivery>, since: nat, made: seq<Read> | Witnessed(window, launched, since, made) && since >= reaped
      ensures ReadsAfter(window, made, launched, reaped)
    {
      AcceptableIsReceivable(window, launched, since);
      GenuineFollows(window, launched, since, made, reaped);
    }
    if launched == 0 && reaped <= MAX_READ_NS {
      DazedIsWitnessed(reaped);
      assert Witnessed(AtOnce(Dazed(reaped)), launched, reaped, Dazed(reaped));
    }
  }
}
