/** Running an operation, recovering from it and proving the recovery by a complete
    minute of observations; each as a worker process of its own.
 */
module WorkerSupervisor {
  import opened SmcBaseline
  import opened MinuteRule
  import opened LeaseSpec
  import opened ControlLeaseReducer
  import opened OwnerProtocol
  import opened SupervisorKernel
  import opened ControlIntentJournal
  import opened SupervisorOwnership
  import opened WorkerLifetime
  import opened ObserverPipe

  /** Which of the backend's callbacks are given. */
  datatype Backend = Backend(operate: bool, recover: bool, read: bool, observerStarted: bool)

  /** Children forked and not reaped since the counts given: one if stopping it failed, else none. */
  predicate Balanced(spawned: nat, collected: nat, spawned': nat, collected': nat, lost: bool) {
    spawned' - spawned == collected' - collected + if lost then 1 else 0
  }

  // ---------------------------------------------------------------------------
  // Observing
  // ---------------------------------------------------------------------------

  lemma {:induction false} NoneLost(spawned: nat, collected: nat)
    ensures Balanced(spawned, collected, spawned, collected, false)
  {
  }

  /** A complete window that the lease has counted; latest is its last snapshot. */
  predicate WindowHeld(l: Lease, window: seq<Delivery>, launched: u64, recovering: bool, latest: Option<Snapshot>) {
    && CompleteWindow(window, launched) && Minute(window) && Tracks(l, window, recovering)
    && latest == Some(window[REQUIRED_SAMPLES - 1].observation.snapshot)
  }

  /** An observation was launched at time since, no earlier than this, and the clock read
      as launched then, or could not be read.
   */
  predicate LaunchedSince(launched: u64, since: nat, from: nat) {
    from <= since && (launched == 0 || launched == since)
  }

  lemma {:induction false} ReceivableSince(window: seq<Delivery>, launched: u64, began: nat, since: nat)
    requires Acceptable(window, launched, began) && since <= began
    ensures Receivable(window, launched, since)
  {
    hide Unbroken, CompleteWindow, Minute, ArrivedInOrder;
    assert ReceivedSince(window, since);
    AcceptableIsReceivable(window, launched, since);
  }

  /** True means a complete minute of records, exactly as many bytes, and an observer
      that exited cleanly and was reaped; an observer that is neither reaped here nor
      there makes the result StopFailed.
   */
  method SuperviseObserver(k: Kernel, child: int, lease: ControlLease, launched: u64, deadline: u64, reap: u64,
                           report: Report, recovering: bool, ghost since: nat)
    returns (ok: bool, latest: Option<Snapshot>, ghost window: seq<Delivery>, ghost end: ObserverEnd)
    requires k.Valid() && !k.pc.child.NoChild? && since <= k.time
    requires k.pc.child.pid == child && k.pc.child.kind.Observe? && k.pc.phase == Launched(recovering, launched, since)
    requires k.stream == [] && !k.ended && Opening(lease.Value(), recovering) && !report.result.StopFailed?
    modifies lease, report`reaped, report`result, k`calls, k`time, k`errors, k`acts, k`pc, k`collected, k`stream,
      k`ended,
      k`kills
    ensures k.Valid() && !k.pc.phase.Outside? && !k.pc.phase.Recovered?
    ensures report.result == old(report.result) || report.result.StopFailed?
    ensures report.result.StopFailed? <==> k.collected == old(k.collected)
    ensures !report.result.StopFailed? ==> k.collected == old(k.collected) + 1 && k.pc.child.NoChild?
    ensures report.reaped - old(report.reaped) == k.collected - old(k.collected)
    ensures ok ==> k.pc == Pc(Observed(recovering, launched, since), NoChild) && !report.result.StopFailed?
    ensures ok ==>
              && |k.stream| == RECORD_SIZE * REQUIRED_SAMPLES && Parses(k.layout, k.stream, window)
              && WindowHeld(lease.Value(), window, launched, recovering, latest) && ReceivedBy(window, k.time)
              && Receivable(window, launched, since)
    ensures old(k.acts) <= k.acts && old(k.errors) <= k.errors
    ensures !ok ==>
              && Fault(k.errors > old(k.errors), k.layout, end)
              && end.launched == launched && end.deadline == deadline && end.time <= k.time
              && end.stream == k.stream && end.ended == k.ended
              && (end.reaped ==>
                    && |k.acts| == |old(k.acts)| + 1 && k.acts[|old(k.acts)|].Reap?
                    && end.clean == (k.acts[|old(k.acts)|].status == Exited(0)))
    ensures old(k.time) <= k.time <= Max(old(k.time), deadline) + reap + 2 * (1 + PAUSE_NS) + 17 * k.step
  {
    hide Kernel.Valid, CompleteWindow, Unbroken, Parses, ReceivedBy, Tracks, Minute, Fault, Acceptable, Receivable,
      LatestTime;
    var ending, reaped, clean;
    ghost var received;
    ending, reaped, clean, latest, window, received :=
      ReadObserver(k, child, lease, launched, deadline, report, recovering);
    end := ObserverEnd(k.time, deadline, launched, k.stream, window, received, k.ended, reaped, clean);
    ghost var failed := k.errors > old(k.errors);
    ok := ending.Complete?;
    if ok {
      WindowCompletes(window, launched);
      ReceivableSince(window, launched, old(k.time), since);
    } else if ending.Lost? {
      FaultFound(true, k.layout, end);
      report.result := StopFailed;
    } else if !reaped {
      var stopped := StopAndReap(k, child, reap, report);
      if !stopped {
        report.result := StopFailed;
      }
    }
    if !ok {
      FaultStays(failed, k.layout, end, k.errors > old(k.errors));
    }
  }

  /** The lease holds the times of exactly this window, and no recovery proof. */
  predicate Witnesses(l: Lease, window: seq<Delivery>) {
    && l.state.Stable? && l.samples == REQUIRED_SAMPLES == |window|
    && l.observationStarted == Finish(window[0]) && l.lastSample == LastFinish(window)
    && l.lastSample - l.observationStarted >= BASELINE_NS && !l.recoveryVerified
  }

  /** Here a worker of this kind was forked, recorded and granted. */
  predicate Started(acts: seq<Act>, at: nat, kind: Kind) {
    && at + 3 < |acts| && acts[at].Fork? && acts[at].kind == kind
    && acts[at + 1..at + 4] == [Act.RenameRecord(acts[at].pid), Act.SyncDirectory, Act.Grant]
  }

  lemma {:induction false} StartedSo(before: seq<Act>, kind: Kind, child: int, acts: seq<Act>)
    requires child > 0 && Gated(before + [Act.Fork(kind, child)], acts, child, true)
    ensures Started(acts, |before|, kind)
  {
    assert acts[|before| + 1..] == [Act.RenameRecord(child), Act.SyncDirectory, Act.Grant];
  }

  lemma {:induction false} StartedStays(acts: seq<Act>, at: nat, kind: Kind, acts': seq<Act>)
    requires Started(acts, at, kind) && acts <= acts'
    ensures Started(acts', at, kind)
  {
    assert acts'[at + 1..at + 4] == acts[at + 1..at + 4];
  }

  /** The pipe, the launch time and the deadline of an observation. */
  method LaunchObservation(k: Kernel, limits: Limits, recovering: bool)
    returns (launched: u64, deadline: Option<u64>, ghost since: nat)
    requires k.Valid() && k.pc.child.NoChild?
    requires (if recovering then k.pc.phase.Recovered? && k.pc.phase.at <= k.time else k.pc.phase == Ready(false))
    modifies k`calls, k`time, k`errors, k`stream, k`ended, k`acts, k`pc
    ensures k.Valid() && old(k.acts) <= k.acts && !k.pc.phase.Outside? && k.pc.child.NoChild?
    ensures deadline.Some? ==> k.pc.phase == Launched(recovering, launched, since) && k.stream == [] && !k.ended
    ensures deadline.Some? ==> k.acts == old(k.acts) + [Act.Launch(launched, since)]
    ensures deadline.Some? ==> old(k.time) + limits.observation <= deadline.value <= k.time + limits.observation
    ensures deadline.None? ==>
              k.errors > old(k.errors) || limits.observation == 0 || k.time + limits.observation > U64_MAX
    ensures deadline.Some? ==> LaunchedSince(launched, since, old(k.time)) && since <= k.time
    ensures old(k.time) <= k.time <= old(k.time) + 4 * k.step
    ensures old(k.errors) <= k.errors && (deadline.Some? && launched == 0 ==> k.errors > old(k.errors))
  {
    hide Kernel.Valid;
    launched, deadline, since := 0, None, k.time;
    var piped := k.MakePipe();
    if !piped {
      return;
    }
    var nonBlocking := k.Try();
    if !nonBlocking {
      return;
    }
    launched := k.Now();
    since := k.time;
    k.Launch(launched);
    deadline := DeadlineFor(k, limits.observation);
  }

  /** Launch an observation and fork its observer; no child means that a call failed. */
  method StartObserver(k: Kernel, backend: Backend, limits: Limits, report: Report, recovering: bool)
    returns (child: int, launched: u64, deadline: u64, ghost since: nat)
    requires k.Valid() && k.pc.child.NoChild?
    requires if recovering then k.pc.phase.Recovered? && k.pc.phase.at <= k.time else k.pc.phase == Ready(false)
    modifies k`calls, k`time, k`patience, k`errors, k`stream, k`ended, k`next, k`nextSynced, k`acts, k`pc, k`refused,
      k`spawned,
      k`operations, report`observerPid
    ensures k.operations == old(k.operations)
    ensures k.Valid() && old(k.acts) <= k.acts && !k.pc.phase.Outside?
    ensures child <= 0 ==> k.pc.child.NoChild? && k.spawned == old(k.spawned)
    ensures child > 0 ==>
              && !k.pc.child.NoChild? && k.pc.child.pid == child && k.pc.child.kind.Observe?
              && k.pc.phase == Launched(recovering, launched, since) && k.stream == [] && !k.ended
              && k.spawned == old(k.spawned) + 1
              && |k.acts| > |old(k.acts)| && k.acts[|old(k.acts)|] == Act.Launch(launched, since)
              && LaunchedSince(launched, since, old(k.time)) && since <= k.time
              && old(k.time) + limits.observation <= deadline <= k.time + limits.observation
    ensures child <= 0 ==> k.errors > old(k.errors) || limits.observation == 0 || k.time + limits.observation > U64_MAX
    ensures old(k.time) <= k.time <= old(k.time) + 55 * k.step + (old(k.patience) - k.patience)
    ensures k.patience <= old(k.patience)
    ensures old(k.errors) <= k.errors && (child > 0 && launched == 0 ==> k.errors > old(k.errors))
    ensures child > 0 ==> k.errors > old(k.errors) || Started(k.acts, |old(k.acts)| + 1, Observe)
  {
    hide Kernel.Valid, Gated;
    var planned;
    launched, planned, since := LaunchObservation(k, limits, recovering);
    if planned.None? {
      return 0, launched, 0, since;
    }
    deadline := planned.value;
    ghost var launch := k.acts;
    var connected;
    child, connected := SpawnWorker(k, Observe);
    report.observerPid := child;
    if connected {
      StartedSo(launch, Observe, child, k.acts);
    }
    if connected && backend.observerStarted {
      k.Callback();
    }
  }

  lemma {:induction false} VerifyLeads(pc: Pc, recovering: bool, launched: u64, since: nat, window: seq<Delivery>)
    requires pc == Pc(Observed(recovering, launched, since), NoChild) && Receivable(window, launched, since)
    ensures Allowed(pc, Act.Verify(window))
    ensures After(pc, Act.Verify(window)) ==
            Pc(if recovering then Verified(launched, since) else Phase.BaselineReady, NoChild)
  {
    hide Receivable;
  }

  /** What the kernel shows at some time. */
  datatype Scene = Scene(
    layout: seq<Byte> -> Observation, stream: seq<Byte>, ended: bool, view: MarkerView, acts: seq<Act>, time: nat)

  ghost function SceneOf(k: Kernel): Scene
    reads k`stream, k`ended, k`view, k`acts, k`time
  {
    Scene(k.layout, k.stream, k.ended, k.view, k.acts, k.time)
  }

  /** The scene later, when no further observation was made. */
  ghost predicate Later(s: Scene, s': Scene) {
    && s'.layout == s.layout && s'.stream == s.stream && s'.ended == s.ended
    && s.acts <= s'.acts && s.time <= s'.time
  }

  lemma {:induction false} LaterSo(s: Scene, s': Scene)
    requires s'.layout == s.layout && s'.stream == s.stream && s'.ended == s.ended
    requires s.acts <= s'.acts && s.time <= s'.time
    ensures Later(s, s')
  {
  }

  /** How an observation was given up; where it was launched and its observer was reaped. */
  datatype ObservationEnd = ObservationEnd(observer: ObserverEnd, launch: nat, reap: nat)

  /** Why an observation fails: a call failed, the clock had no room for its deadline, or
      the observer was given up or ended without a minute.
   */
  predicate ObserverFailed(failed: bool, end: Option<ObservationEnd>, since: nat, from: nat, limits: Limits, s: Scene) {
    || failed || limits.observation == 0 || s.time + limits.observation > U64_MAX
    || (end.Some? && ObserverFaulty(failed, end.value, since, from, limits, s))
  }

  /** The observation was launched and is what the pipe and the trace show. */
  predicate ObserverFaulty(failed: bool, end: ObservationEnd, since: nat, from: nat, limits: Limits, s: Scene) {
    var e := end.observer;
    && Fault(failed, s.layout, e)
    && since + limits.observation <= e.deadline && e.time <= s.time && e.stream == s.stream && e.ended == s.ended
    && from <= end.launch < |s.acts| && s.acts[end.launch].Launch? && s.acts[end.launch].launch == e.launched
    && (failed || Started(s.acts, end.launch + 1, Observe))
    && (e.reaped ==>
          && end.launch < end.reap < |s.acts| && s.acts[end.reap].Reap?
          && e.clean == (s.acts[end.reap].status == Exited(0)))
  }

  lemma {:induction false} FaultyLater(failed: bool, end: ObservationEnd, since: nat, from: nat, limits: Limits,
                                       s: Scene,
                                       failed': bool, since': nat, from': nat, s': Scene)
    requires ObserverFaulty(failed, end, since, from, limits, s) && Later(s, s')
    requires (failed ==> failed') && since' <= since && from' <= from
    ensures ObserverFaulty(failed', end, since', from', limits, s')
  {
    hide Fault, Started;
    FaultStays(failed, s.layout, end.observer, failed');
    if Started(s.acts, end.launch + 1, Observe) {
      StartedStays(s.acts, end.launch + 1, Observe, s'.acts);
    }
  }

  lemma {:induction false} StillFailed(failed: bool, end: Option<ObservationEnd>, since: nat, from: nat, limits: Limits,
                                       s: Scene, failed': bool, since': nat, from': nat, s': Scene)
    requires ObserverFailed(failed, end, since, from, limits, s) && Later(s, s')
    requires (failed ==> failed') && since' <= since && from' <= from
    ensures ObserverFailed(failed', end, since', from', limits, s')
  {
    hide ObserverFaulty;
    if end.Some? && ObserverFaulty(failed, end.value, since, from, limits, s) {
      FaultyLater(failed, end.value, since, from, limits, s, failed', since', from', s');
    }
  }

  lemma {:induction false} FailedEarly(failed: bool, since: nat, from: nat, limits: Limits, s: Scene)
    requires failed || limits.observation == 0 || s.time + limits.observation > U64_MAX
    ensures ObserverFailed(failed, None, since, from, limits, s)
  {
  }

  /** The observer was given up or ended without a minute, as it was supervised. */
  lemma {:induction false} GivenUp(before: bool, failed: bool, e: ObserverEnd, acts: seq<Act>, launch: seq<Act>,
                                   since: nat, limits: Limits, s: Scene)
    returns (end: Option<ObservationEnd>)
    requires Fault(before, s.layout, e) && (before ==> failed)
    requires since + limits.observation <= e.deadline && e.time <= s.time && e.stream == s.stream && e.ended == s.ended
    requires |acts| < |launch| && launch <= s.acts && launch[|acts|].Launch? && launch[|acts|].launch == e.launched
    requires failed || Started(launch, |acts| + 1, Observe)
    requires e.reaped ==>
               |s.acts| == |launch| + 1 && s.acts[|launch|].Reap? && e.clean == (s.acts[|launch|].status == Exited(0))
    ensures ObserverFailed(failed, end, since, |acts|, limits, s)
  {
    hide Fault, Started;
    end := Some(ObservationEnd(e, |acts|, |launch|));
    FaultStays(before, s.layout, e, failed);
    if Started(launch, |acts| + 1, Observe) {
      StartedStays(launch, |acts| + 1, Observe, s.acts);
    }
  }

  /** Fork an observer and supervise it. Success is a complete window, launched during
      this call, that the supervisor can have received.
   */
  method ObserveOwned(k: Kernel, lease: ControlLease, backend: Backend, limits: Limits, report: Report,
                      recovering: bool)
    returns (ok: bool, latest: Option<Snapshot>, ghost window: seq<Delivery>, ghost launched: u64, ghost since: nat,
             ghost end: Option<ObservationEnd>)
    requires k.Valid() && k.pc.child.NoChild?
    requires (if recovering then k.pc.phase.Recovered? && k.pc.phase.at <= k.time else k.pc.phase == Ready(false))
    requires Opening(lease.Value(), recovering) && !report.result.StopFailed?
    modifies k`calls, k`time, k`patience, k`errors, k`stream, k`ended, k`next, k`nextSynced, k`acts, k`pc, k`refused,
      k`spawned,
      k`operations, k`collected, k`kills, k`windows, lease, report`observerPid, report`reaped, report`result
    ensures k.operations == old(k.operations) && k.windows == old(k.windows) + if ok then 1 else 0
    ensures k.Valid() && old(k.acts) <= k.acts && !k.pc.phase.Outside?
    ensures report.result == old(report.result) || report.result.StopFailed?
    ensures Balanced(old(k.spawned), old(k.collected), k.spawned, k.collected, report.result.StopFailed?)
    ensures report.reaped - old(report.reaped) == k.collected - old(k.collected)
    ensures !report.result.StopFailed? ==> k.pc.child.NoChild?
    ensures ok ==>
              && !report.result.StopFailed?
              && k.pc == Pc(if recovering then Verified(launched, since) else Phase.BaselineReady, NoChild)
    ensures ok ==>
              && WindowHeld(lease.Value(), window, launched, recovering, latest) && ReceivedBy(window, k.time)
              && LaunchedSince(launched, since, old(k.time)) && Receivable(window, launched, since)
              && |k.acts| > |old(k.acts)| + 1 && k.acts[|old(k.acts)|] == Act.Launch(launched, since)
              && k.acts[|k.acts| - 1] == Act.Verify(window)
    ensures old(k.time) <= k.time
    ensures k.time <= old(k.time) + limits.observation + limits.reap + 2 * (1 + PAUSE_NS) + 72 * k.step
              + (old(k.patience) - k.patience)
    ensures k.patience <= old(k.patience)
    ensures old(k.errors) <= k.errors && (ok && launched == 0 ==> k.errors > old(k.errors))
    ensures !ok ==> ObserverFailed(k.errors > old(k.errors), end, old(k.time), |old(k.acts)|, limits, SceneOf(k))
  {
    hide Kernel.Valid, WindowHeld, Receivable, Parses, ReceivedBy, Opening, LaunchedSince, Fault, Allowed, After,
      Started,
      ObserverFailed, ObserverFaulty;
    ok, latest, window, end := false, None, [], None;
    var child, launchTime, deadline;
    child, launchTime, deadline, since := StartObserver(k, backend, limits, report, recovering);
    launched := launchTime;
    if child <= 0 {
      FailedEarly(k.errors > old(k.errors), old(k.time), |old(k.acts)|, limits, SceneOf(k));
      return;
    }
    ghost var observer: ObserverEnd;
    ghost var errors, launch := k.errors, k.acts;
    ok, latest, window, observer :=
      SuperviseObserver(k, child, lease, launchTime, deadline, limits.reap, report, recovering, since);
    if ok {
      VerifyLeads(k.pc, recovering, launched, since, window);
      k.Verify(window);
    } else {
      end := GivenUp(k.errors > errors, k.errors > old(k.errors), observer, old(k.acts), launch, old(k.time), limits,
                     SceneOf(k));
    }
  }

  // ---------------------------------------------------------------------------
  // Recovering
  // ---------------------------------------------------------------------------

  /** Where in a trace a worker was forked and where it was reaped. */
  datatype Span = Span(forked: nat, reaped: nat)

  /** That worker was of this kind, and nothing else was forked or reaped meanwhile. */
  predicate WorkerSpan(acts: seq<Act>, s: Span, kind: Kind) {
    && s.forked < s.reaped < |acts|
    && acts[s.forked].Fork? && acts[s.forked].kind == kind && acts[s.reaped].Reap?
    && (forall i | s.forked < i < s.reaped :: !acts[i].Fork? && !acts[i].Reap?)
  }

  lemma {:induction false} SpanEnds(before: seq<Act>, kind: Kind, child: int, granted: bool, gated: seq<Act>,
                                    acts: seq<Act>)
    requires child > 0 && Gated(before + [Act.Fork(kind, child)], gated, child, granted) && ReapedOnce(gated, acts)
    ensures WorkerSpan(acts, Span(|before|, |acts| - 1), kind)
  {
    var forked := before + [Act.Fork(kind, child)];
    assert acts[..|gated|] == gated && forked <= gated;
    assert acts[|before|] == forked[|before|];
    forall i | |before| < i < |acts| - 1
      ensures !acts[i].Fork? && !acts[i].Reap?
    {
      assert acts[i] == gated[i];
      assert gated[i] == [Act.RenameRecord(child), Act.SyncDirectory, Act.Grant][i - |before| - 1];
    }
  }

  lemma {:induction false} SpanForked(acts: seq<Act>, s: Span, kind: Kind)
    requires WorkerSpan(acts, s, kind)
    ensures s.reaped < |acts| && acts[s.reaped].Reap?
  {
  }

  /** Where in a trace the workers of a recovery ran, the window that proved it and the
      lease that held the proof.
   */
  datatype Recovery = Recovery(
    operation: Option<Span>, worker: Span, launched: nat, verified: nat,
    window: seq<Delivery>, launchTime: u64, since: nat, held: Lease)

  const NOTHING := Recovery(None, Span(0, 0), 0, 0, [], 0, 0, ZERO)

  /** A recovery worker was forked, exited cleanly and was reaped. */
  predicate RecoveryRan(acts: seq<Act>, from: nat, r: Recovery) {
    from <= r.worker.forked && WorkerSpan(acts, r.worker, Recover) && acts[r.worker.reaped].status == Exited(0)
  }

  /** After the recovery worker's success an observation was launched, and a complete
      window of it was received and verified.
   */
  predicate ProvenIn(acts: seq<Act>, from: nat, r: Recovery) {
    && RecoveryRan(acts, from, r)
    && r.worker.reaped < r.launched < r.verified < |acts|
    && acts[r.launched] == Act.Launch(r.launchTime, r.since)
    && LaunchedSince(r.launchTime, r.since, acts[r.worker.reaped].time)
    && acts[r.verified] == Act.Verify(r.window) && Receivable(r.window, r.launchTime, r.since)
  }

  /** After that the marker was removed. */
  predicate RemovedIn(acts: seq<Act>, from: nat, r: Recovery) {
    ProvenIn(acts, from, r) && r.verified + 1 < |acts| && acts[r.verified + 1].UnlinkMarker?
  }

  /** And its removal was made durable. */
  predicate RecoveredIn(acts: seq<Act>, from: nat, r: Recovery) {
    RemovedIn(acts, from, r) && r.verified + 2 < |acts| && acts[r.verified + 2].SyncDirectory?
  }

  /** The evidence stays when the trace goes on. */
  lemma {:induction false} EvidenceStays(acts: seq<Act>, from: nat, r: Recovery, acts': seq<Act>, from': nat)
    requires from' <= from && acts <= acts'
    ensures ProvenIn(acts, from, r) ==> ProvenIn(acts', from', r)
    ensures RemovedIn(acts, from, r) ==> RemovedIn(acts', from', r)
    ensures RecoveredIn(acts, from, r) ==> RecoveredIn(acts', from', r)
  {
    hide Receivable, LaunchedSince;
  }

  /** The operation's worker was reaped before the recovery worker was forked, and so
      no later than that one was.
   */
  predicate OperationFirst(acts: seq<Act>, from: nat, r: Recovery) {
    r.operation.Some? ==>
      var s := r.operation.value;
      && from <= s.forked && WorkerSpan(acts, s, Operate) && s.reaped < r.worker.forked
      && r.worker.reaped < |acts| && acts[r.worker.reaped].Reap? && acts[s.reaped].time <= acts[r.worker.reaped].time
  }

  /** The trace since then ends like this. */
  predicate EndsIn(acts: seq<Act>, from: nat, tail: seq<Act>) {
    |acts| >= from + |tail| && acts[|acts| - |tail|..] == tail
  }

  /** What became of the marker in a failed call: it was left alone, except that the trace
      ends with its removal exactly if the directory sync that followed was refused. Then
      the observation counts as failed, although its proof was there and was consumed.
   */
  predicate MarkerLeft(result: SupervisorResult, lease: Lease, before: seq<Act>, acts: seq<Act>, refused: Option<Act>,
                       tail: seq<Act>, from: nat, r: Recovery)
  {
    && (Removals(acts) > Removals(before) <==> EndsIn(acts, |before|, tail) && refused == Some(Act.SyncDirectory))
    && (Removals(acts) > Removals(before) ==>
          && Removals(acts) == Removals(before) + 1 && result.ObservationFailed?
          && RemovedIn(acts, from, r) && ProofAvailable(r.held) && lease == Sleep(TakeProof(r.held)))
  }

  /** The same, as it is found from what the calls did. */
  lemma {:induction false} LeftSo(result: SupervisorResult, lease: Lease, before: seq<Act>, acts: seq<Act>,
                                  refused: Option<Act>, tail: seq<Act>, from: nat, r: Recovery)
    requires before <= acts && tail != [] && tail[0].UnlinkMarker?
    requires Removals(acts) != Removals(before) ==>
               && EndsIn(acts, |before|, tail) && refused == Some(Act.SyncDirectory)
               && Removals(acts) == Removals(before) + 1 && result.ObservationFailed?
               && RemovedIn(acts, from, r) && ProofAvailable(r.held) && lease == Sleep(TakeProof(r.held))
    ensures MarkerLeft(result, lease, before, acts, refused, tail, from, r)
  {
    hide RemovedIn, ProofAvailable, Sleep, TakeProof;
    assert acts[..|before|] == before;
    if EndsIn(acts, |before|, tail) {
      assert acts[|acts| - |tail|] == acts[|acts| - |tail|..][0];
      RemovalCounted(acts, |before|, |acts| - |tail|);
    }
  }

  lemma {:induction false} LeftFrom(result: SupervisorResult, lease: Lease, before: seq<Act>, middle: seq<Act>,
                                    acts: seq<Act>, refused: Option<Act>, from: nat, r: Recovery, from': nat)
    requires before <= middle <= acts && Removals(before) == Removals(middle) && from' <= from
    requires MarkerLeft(result, lease, middle, acts, refused, [Act.UnlinkMarker], from, r)
    ensures MarkerLeft(result, lease, before, acts, refused, [Act.UnlinkMarker], from', r)
  {
    hide RemovedIn, ProofAvailable, Sleep, TakeProof;
    assert acts[..|middle|] == middle;
    RemovalsGrow(acts, |middle|);
    EvidenceStays(acts, from, r, acts, from');
    LeftSo(result, lease, before, acts, refused, [Act.UnlinkMarker], from', r);
  }

  /** Closing the lock after it changes nothing. */
  lemma {:induction false} LeftClosed(result: SupervisorResult, lease: Lease, before: seq<Act>, middle: seq<Act>,
                                      acts: seq<Act>, refused: Option<Act>, from: nat, r: Recovery, from': nat)
    requires before <= middle <= acts && Removals(before) == Removals(middle) && from' <= from
    requires MarkerLeft(result, lease, middle, acts, refused, [Act.UnlinkMarker], from, r)
    ensures MarkerLeft(result, lease, before, acts + [Act.CloseLock], refused, [Act.UnlinkMarker, Act.CloseLock], from', r)
  {
    hide RemovedIn, ProofAvailable, Sleep, TakeProof;
    var closed := acts + [Act.CloseLock];
    ActAppended(acts, Act.CloseLock);
    assert acts[..|middle|] == middle;
    RemovalsGrow(acts, |middle|);
    EvidenceStays(acts, from, r, closed, from');
    if EndsIn(acts, |middle|, [Act.UnlinkMarker]) {
      assert acts[|acts| - 1] == acts[|acts| - 1..][0];
      assert closed[|closed| - 2..] == [Act.UnlinkMarker, Act.CloseLock];
    }
    LeftSo(result, lease, before, closed, refused, [Act.UnlinkMarker, Act.CloseLock], from', r);
  }

  /** A lease that can be neither claimed nor used to prove a recovery. */
  predicate Unusable(l: Lease) {
    l.state.RecoveryRequired? || l.state.ReadFailed?
  }

  lemma {:induction false} UnusableAsleep(l: Lease)
    ensures Unusable(Sleep(l)) && !ProofAvailable(Sleep(l))
  {
  }

  /** This recovery worker did not end with zero. */
  predicate EndedBadly(acts: seq<Act>, s: Span) {
    WorkerSpan(acts, s, Recover) && acts[s.reaped].status != Exited(0)
  }

  /** Start a worker that acts and wait for it. No child means that a call failed; a child
      is started if none failed, and is reaped unless it could not be stopped.
   */
  method RunWorker(k: Kernel, kind: Kind, deadline: u64, reap: u64, cancellable: bool, report: Report)
    returns (child: int, stopped: bool, exit: WorkerExit)
    requires k.Valid() && k.pc.child.NoChild? && !kind.Observe? && MayFork(k.pc.phase, kind)
    modifies k`calls, k`time, k`patience, k`errors, k`next, k`nextSynced, k`acts, k`pc, k`refused, k`spawned,
      k`operations, k`collected, k`kills, k`raised, report`reaped
    ensures k.Valid() && old(k.acts) <= k.acts && !k.pc.phase.Outside?
    ensures k.patience <= old(k.patience) && old(k.errors) <= k.errors && old(k.kills) <= k.kills
    ensures child <= 0 ==>
              && stopped && exit.NotStarted? && k.errors > old(k.errors) && k.pc == old(k.pc)
              && k.spawned == old(k.spawned) && k.time <= old(k.time) + 50 * k.step + (old(k.patience) - k.patience)
    ensures child > 0 ==> k.spawned == old(k.spawned) + 1
    ensures child > 0 ==> k.errors > old(k.errors) || Started(k.acts, |old(k.acts)|, kind)
    ensures k.operations == old(k.operations) + if child > 0 && kind.Operate? then 1 else 0
    ensures k.collected == old(k.collected) + if child > 0 && stopped then 1 else 0
    ensures report.reaped - old(report.reaped) == k.collected - old(k.collected)
    ensures child > 0 && stopped ==>
              && |k.acts| > |old(k.acts)| + 1 && WorkerSpan(k.acts, Span(|old(k.acts)|, |k.acts| - 1), kind)
              && k.acts[|k.acts| - 1].Reap? && old(k.time) <= k.acts[|k.acts| - 1].time <= k.time
              && k.pc == Pc(AfterAction(kind, k.acts[|k.acts| - 1]), NoChild)
              && (exit.TimedOut? ==> k.errors > old(k.errors) || k.acts[|k.acts| - 1].time >= deadline)
    ensures exit.Clean? || exit.Unclean? || exit.Crashed? ==>
              && child > 0 && stopped && Tells(exit, k.acts[|k.acts| - 1].status)
              && k.acts[|k.acts| - 1].time < deadline + k.step
    ensures k.raised == old(k.raised) + if exit.Cancelled? then 1 else 0
    ensures exit.Cancelled? ==> cancellable
    ensures exit.NotStarted? ==> k.errors > old(k.errors)
    ensures exit.TimedOut? ==> k.errors > old(k.errors) || k.time >= deadline
    ensures k.kills > old(k.kills) ==> exit.TimedOut? || exit.Cancelled?
    ensures !stopped ==>
              k.errors > old(k.errors) || reap == 0 || k.time + reap > U64_MAX
              || k.time >= (if cancellable then old(k.time) else Max(old(k.time), deadline)) + reap
    ensures old(k.time) <= k.time
    ensures k.time <= Max(old(k.time) + 50 * k.step + (old(k.patience) - k.patience), deadline)
                      + reap + 2 * (1 + PAUSE_NS) + 10 * k.step
    ensures cancellable && child > 0 ==>
              Heeded(k.flag, k.time, old(k.time) + 50 * k.step + (old(k.patience) - k.patience),
                     reap + 2 * (1 + PAUSE_NS) + 10 * k.step)
  {
    hide Kernel.Valid, Gated, WorkerSpan, Started, Heeded;
    var connected;
    stopped, exit := true, NotStarted;
    child, connected := SpawnWorker(k, kind);
    if child <= 0 {
      return;
    }
    ghost var gated, time := k.acts, k.time;
    if connected {
      StartedSo(old(k.acts), kind, child, gated);
    }
    stopped, exit := WaitPhase(k, child, deadline, reap, cancellable, report);
    if cancellable {
      HeededLater(k.flag, k.time, time, reap + 2 * (1 + PAUSE_NS) + 10 * k.step, k.time,
                  old(k.time) + 50 * k.step + (old(k.patience) - k.patience));
    }
    if connected {
      StartedStays(gated, |old(k.acts)|, kind, k.acts);
    }
    if stopped {
      SpanEnds(old(k.acts), kind, child, connected, gated, k.acts);
    }
  }

  /** Where the reaping of an operation or a recovery worker leads. */
  function AfterAction(kind: Kind, act: Act): Phase
    requires act.Reap?
  {
    if kind.Operate? then Operated
    else if act.status == Exited(0) then Phase.Recovered(act.time)
    else Failed
  }

  /** The recovery worker ran, exited cleanly in time and was reaped. */
  method RunRecovery(k: Kernel, limits: Limits, report: Report) returns (clean: bool)
    requires k.Valid() && k.pc.child.NoChild? && MayFork(k.pc.phase, Recover)
    modifies k`calls, k`time, k`patience, k`errors, k`next, k`nextSynced, k`acts, k`pc, k`refused, k`spawned,
      k`operations, k`collected, k`kills, k`raised, report`recoveryPid, report`reaped, report`result
    ensures k.operations == old(k.operations) && k.raised == old(k.raised)
    ensures k.Valid() && old(k.acts) <= k.acts && !k.pc.phase.Outside?
    ensures report.result.RecoveryFailed? || report.result.StopFailed?
    ensures Balanced(old(k.spawned), old(k.collected), k.spawned, k.collected, report.result.StopFailed?)
    ensures report.reaped - old(report.reaped) == k.collected - old(k.collected)
    ensures !report.result.StopFailed? ==> k.pc.child.NoChild?
    ensures clean ==>
              && report.result.RecoveryFailed? && k.pc.phase.Recovered? && old(k.time) <= k.pc.phase.at <= k.time
              && |k.acts| > |old(k.acts)| + 1
              && WorkerSpan(k.acts, Span(|old(k.acts)|, |k.acts| - 1), Recover)
              && k.acts[|k.acts| - 1] == Act.Reap(Exited(0), k.pc.phase.at)
    ensures old(k.time) <= k.time
    ensures k.time <= old(k.time) + limits.recovery + limits.reap + 2 * (1 + PAUSE_NS) + 62 * k.step
              + (old(k.patience) - k.patience)
    ensures k.patience <= old(k.patience)
    ensures old(k.errors) <= k.errors
    ensures !clean ==>
              || k.errors > old(k.errors) || limits.recovery == 0 || k.time + limits.recovery > U64_MAX
              || (Started(k.acts, |old(k.acts)|, Recover)
                  && (k.time >= old(k.time) + limits.recovery
                      || (k.kills == old(k.kills) && report.result.RecoveryFailed?
                          && EndedBadly(k.acts, Span(|old(k.acts)|, |k.acts| - 1)))))
  {
    hide Kernel.Valid, WorkerSpan, Started;
    report.result := RecoveryFailed;
    var deadline := DeadlineFor(k, limits.recovery);
    if deadline.None? {
      return false;
    }
    var child, stopped, exit := RunWorker(k, Recover, deadline.value, limits.reap, false, report);
    report.recoveryPid := child;
    if child <= 0 {
      return false;
    }
    if !stopped {
      report.result := StopFailed;
      return false;
    }
    return exit.Clean?;
  }

  lemma {:induction false} ProofHeld(l: Lease, window: seq<Delivery>, launched: u64, latest: Option<Snapshot>)
    requires WindowHeld(l, window, launched, true, latest)
    ensures ProofAvailable(l)
  {
  }

  /** A consumed proof leaves the times of its window, and cannot be consumed again. */
  lemma {:induction false} ProofConsumed(l: Lease, window: seq<Delivery>, launched: u64, latest: Option<Snapshot>)
    requires WindowHeld(l, window, launched, true, latest)
    ensures Witnesses(TakeProof(l), window) && !ProofAvailable(TakeProof(l))
  {
  }

  /** A first minute proves no recovery. */
  lemma {:induction false} BaselineWitnessed(l: Lease, window: seq<Delivery>, launched: u64, latest: Option<Snapshot>)
    requires WindowHeld(l, window, launched, false, latest)
    ensures Witnesses(l, window) && !ProofAvailable(l)
    ensures latest == Some(window[REQUIRED_SAMPLES - 1].observation.snapshot)
  {
  }

  /** The recovery was proved, and its proof is in the lease. */
  predicate Proven(acts: seq<Act>, time: nat, lease: Lease, r: Recovery) {
    && ProvenIn(acts, r.worker.forked, r) && r.verified == |acts| - 1 && ReceivedBy(r.window, time)
    && r.held == lease && ProofAvailable(lease) && Witnesses(TakeProof(lease), r.window)
    && !ProofAvailable(TakeProof(lease)) && r.operation.None?
  }

  /** What a recovery that succeeded leaves behind. */
  predicate Succeeded(acts: seq<Act>, time: nat, lease: Lease, from: nat, since: nat, r: Recovery) {
    && RecoveredIn(acts, from, r) && Witnesses(lease, r.window) && !ProofAvailable(lease)
    && ReceivedBy(r.window, time) && acts[r.worker.reaped].time >= since
  }

  lemma {:induction false} ProofFound(before: seq<Act>, acts: seq<Act>, time: nat, lease: Lease, r: Recovery,
                                      latest: Option<Snapshot>)
    requires before <= acts && WorkerSpan(before, r.worker, Recover) && before[r.worker.reaped].status == Exited(0)
    requires r.worker.reaped < |before| == r.launched < r.verified == |acts| - 1
    requires acts[r.launched] == Act.Launch(r.launchTime, r.since)
    requires LaunchedSince(r.launchTime, r.since, before[r.worker.reaped].time)
    requires acts[r.verified] == Act.Verify(r.window) && Receivable(r.window, r.launchTime, r.since)
    requires r.held == lease && WindowHeld(lease, r.window, r.launchTime, true, latest) && ReceivedBy(r.window, time)
    requires r.operation.None?
    ensures Proven(acts, time, lease, r)
  {
    hide Receivable, LaunchedSince, WindowHeld, ReceivedBy, ProofAvailable, Witnesses, TakeProof;
    ProofHeld(lease, r.window, r.launchTime, latest);
    ProofConsumed(lease, r.window, r.launchTime, latest);
  }

  /** What remains of a recovery that was proved, if its proof was consumed. */
  lemma {:induction false} ProofUsed(acts: seq<Act>, time: nat, time': nat, r: Recovery, since: nat, acts': seq<Act>)
    requires Proven(acts, time, r.held, r) && time <= time' && acts[r.worker.reaped].time >= since
    ensures acts' == acts + [Act.UnlinkMarker] ==> RemovedIn(acts', r.worker.forked, r)
    ensures acts' == acts + [Act.UnlinkMarker, Act.SyncDirectory] ==>
              Succeeded(acts', time', TakeProof(r.held), r.worker.forked, since, r)
  {
    hide Receivable, LaunchedSince, ProofAvailable, Witnesses, TakeProof;
  }

  /** However a recovery ended, with the operation before it if one was run. Recovered has
      its evidence in the trace, the operation's worker before the recovery's; any other
      result leaves a lease that is of no use and the marker alone, unless the sync after
      its removal was refused.
   */
  predicate Concluded(result: SupervisorResult, lease: Lease, operationPid: int, before: seq<Act>, since: nat,
                      acts: seq<Act>, time: nat, refused: Option<Act>, tail: seq<Act>, r: Recovery)
  {
    if result == SupervisorResult.Recovered then
      && Removals(acts) == Removals(before) + 1 && Succeeded(acts, time, lease, |before|, since, r)
      && OperationFirst(acts, |before|, r) && (r.operation.Some? <==> operationPid > 0)
    else
      && Unusable(lease) && MarkerLeft(result, lease, before, acts, refused, tail, |before|, r)
      && (result.ObservationFailed? ==> RecoveryRan(acts, |before|, r))
  }

  /** A call that never came to remove the marker. */
  lemma {:induction false} MarkerKept(result: SupervisorResult, lease: Lease, operationPid: int, before: seq<Act>,
                                      since: nat, acts: seq<Act>, time: nat, refused: Option<Act>, r: Recovery)
    requires before <= acts && Removals(acts) == Removals(before) && result != SupervisorResult.Recovered
    requires Unusable(lease) && !result.ObservationFailed?
    ensures Concluded(result, lease, operationPid, before, since, acts, time, refused, [Act.UnlinkMarker], r)
  {
    LeftSo(result, lease, before, acts, refused, [Act.UnlinkMarker], |before|, r);
  }

  /** The same recovery, seen from before the operation that it followed. */
  lemma {:induction false} AfterOperation(result: SupervisorResult, lease: Lease, operationPid: int, before: seq<Act>,
                                          since: nat, operated: seq<Act>, began: nat, acts: seq<Act>, time: nat,
                                          refused: Option<Act>, r: Recovery, span: Option<Span>)
    requires before <= operated <= acts && Removals(before) == Removals(operated) && since <= began
    requires span.Some? ==>
               && |before| <= span.value.forked && WorkerSpan(operated, span.value, Operate)
               && operated[span.value.reaped].time <= began
    requires span.Some? <==> operationPid > 0
    requires Concluded(result, lease, 0, operated, began, acts, time, refused, [Act.UnlinkMarker], r)
    ensures Concluded(result, lease, operationPid, before, since, acts, time, refused, [Act.UnlinkMarker],
                      r.(operation := span))
  {
    hide Receivable, LaunchedSince, Witnesses, ProofAvailable, ReceivedBy, Unusable, MarkerLeft;
    if result != SupervisorResult.Recovered {
      LeftFrom(result, lease, before, operated, acts, refused, |operated|, r, |before|);
      SameLeft(result, lease, before, acts, refused, [Act.UnlinkMarker], |before|, r, span);
    }
  }

  lemma {:induction false} SameLeft(result: SupervisorResult, lease: Lease, before: seq<Act>, acts: seq<Act>,
                                    refused: Option<Act>, tail: seq<Act>, from: nat, r: Recovery, span: Option<Span>)
    requires MarkerLeft(result, lease, before, acts, refused, tail, from, r)
    ensures MarkerLeft(result, lease, before, acts, refused, tail, from, r.(operation := span))
  {
    hide Receivable, LaunchedSince, ProofAvailable, Sleep, TakeProof;
  }

  /** The same conclusion, seen from before the lock was taken to after it was closed. */
  lemma {:induction false} ConclusionClosed(result: SupervisorResult, lease: Lease, operationPid: int, before: seq<Act>,
                                            since: nat, start: seq<Act>, began: nat, acts: seq<Act>, time: nat,
                                            refused: Option<Act>, r: Recovery, time': nat)
    requires before <= start <= acts && Removals(before) == Removals(start) && since <= began && time <= time'
    requires Concluded(result, lease, operationPid, start, began, acts, time, refused, [Act.UnlinkMarker], r)
    ensures Concluded(result, lease, operationPid, before, since, acts + [Act.CloseLock], time', refused,
                      [Act.UnlinkMarker, Act.CloseLock], r)
  {
    hide Receivable, LaunchedSince, Witnesses, ProofAvailable, Unusable, MarkerLeft;
    if result == SupervisorResult.Recovered {
      ActAppended(acts, Act.CloseLock);
    } else {
      LeftClosed(result, lease, before, start, acts, refused, |start|, r, |before|);
    }
  }

  /** Observe after the recovery; true means that it is proved. */
  method ObserveRecovery(k: Kernel, lease: ControlLease, backend: Backend, limits: Limits, report: Report,
                         ghost worker: Span)
    returns (ok: bool, ghost recovery: Recovery, ghost end: Option<ObservationEnd>)
    requires k.Valid() && k.pc.child.NoChild? && k.pc.phase.Recovered? && k.pc.phase.at <= k.time
    requires WorkerSpan(k.acts, worker, Recover) && worker.reaped == |k.acts| - 1
    requires k.acts[worker.reaped] == Act.Reap(Exited(0), k.pc.phase.at)
    requires lease.state.RecoveryRequired? && report.result.ObservationFailed?
    modifies k`calls, k`time, k`patience, k`errors, k`stream, k`ended, k`next, k`nextSynced, k`acts, k`pc, k`refused,
      k`spawned,
      k`operations, k`collected, k`kills, k`windows, lease, report`observerPid, report`reaped, report`result
    ensures k.operations == old(k.operations) && k.windows == old(k.windows) + if ok then 1 else 0
    ensures k.Valid() && old(k.acts) <= k.acts && !k.pc.phase.Outside?
    ensures report.result.ObservationFailed? || report.result.StopFailed?
    ensures Balanced(old(k.spawned), old(k.collected), k.spawned, k.collected, report.result.StopFailed?)
    ensures report.reaped - old(report.reaped) == k.collected - old(k.collected)
    ensures recovery.worker == worker
    ensures ok ==>
              && report.result.ObservationFailed? && k.pc.phase.Verified? && k.pc.child.NoChild?
              && Proven(k.acts, k.time, lease.Value(), recovery) && recovery.operation.None?
              && |old(k.acts)| <= recovery.verified < |k.acts| && k.acts[recovery.verified].Verify?
    ensures old(k.time) <= k.time
    ensures k.time <= old(k.time) + limits.observation + limits.reap + 2 * (1 + PAUSE_NS) + 73 * k.step
              + (old(k.patience) - k.patience)
    ensures k.patience <= old(k.patience)
    ensures old(k.errors) <= k.errors && (ok && recovery.launchTime == 0 ==> k.errors > old(k.errors))
    ensures !ok ==> ObserverFailed(k.errors > old(k.errors), end, old(k.time), |old(k.acts)|, limits, SceneOf(k))
  {
    hide Kernel.Valid, ObserverFailed, Proven, WindowHeld, Receivable, ReceivedBy, WorkerSpan;
    var latest;
    ghost var window, launched, since;
    ok, latest, window, launched, since, end := ObserveOwned(k, lease, backend, limits, report, true);
    recovery := Recovery(None, worker, |old(k.acts)|, if |k.acts| > 0 then |k.acts| - 1 else 0, window, launched, since,
                         lease.Value());
    ghost var time, failed, observed := k.time, k.errors > old(k.errors), SceneOf(k);
    k.Callback();
    if ok {
      ProofFound(old(k.acts), k.acts, time, lease.Value(), recovery, latest);
      ProvenLater(k.acts, time, lease.Value(), recovery, k.time);
    } else {
      StillFailed(failed, end, old(k.time), |old(k.acts)|, limits, observed, failed, old(k.time), |old(k.acts)|,
                  SceneOf(k));
    }
  }

  lemma {:induction false} ProvenLater(acts: seq<Act>, time: nat, lease: Lease, r: Recovery, time': nat)
    requires Proven(acts, time, lease, r) && time <= time'
    ensures Proven(acts, time', lease, r) && r.operation.None?
  {
    hide ProvenIn, Witnesses, ProofAvailable, TakeProof;
  }

  /** With the proof, remove the marker; without it or if that fails, leave a lease that
      is of no use.
   */
  method SettleRecovery(k: Kernel, lease: ControlLease, report: Report, proved: bool, ghost recovery: Recovery,
                        ghost before: seq<Act>, ghost time: nat, ghost since: nat)
    requires k.Valid() && !k.pc.phase.Outside? && (report.result.ObservationFailed? || report.result.StopFailed?)
    requires proved ==>
               && report.result.ObservationFailed? && k.pc.phase.Verified? && k.pc.child.NoChild? && time <= k.time
               && Proven(k.acts, time, lease.Value(), recovery) && k.acts[recovery.worker.reaped].time >= since
    requires before <= k.acts && Removals(before) == Removals(k.acts)
    modifies lease, k`calls, k`time, k`patience, k`errors, k`view, k`acts, k`pc, k`refused, k`removals, report`result
    ensures k.Valid() && old(k.acts) <= k.acts && !k.pc.phase.Outside?
    ensures report.result == old(report.result) || (proved && report.result == SupervisorResult.Recovered)
    ensures report.result == SupervisorResult.Recovered ==>
              && k.removals == old(k.removals) + 1
              && Succeeded(k.acts, k.time, lease.Value(), recovery.worker.forked, since, recovery)
    ensures report.result != SupervisorResult.Recovered ==>
              && Unusable(lease.Value())
              && MarkerLeft(report.result, lease.Value(), before, k.acts, k.refused, [Act.UnlinkMarker],
                            recovery.worker.forked, recovery)
    ensures old(k.time) <= k.time <= old(k.time) + 57 * k.step + (old(k.patience) - k.patience)
    ensures k.patience <= old(k.patience)
    ensures old(k.errors) <= k.errors
    ensures proved && report.result != SupervisorResult.Recovered ==>
              k.errors > old(k.errors) || k.view == Absent || SeenOther(k.view)
  {
    hide Kernel.Valid, ProofAvailable, TakeProof, Sleep, Unusable, MarkerLeft, RemovedIn, Succeeded, Proven;
    k.CountsRemovals();
    var cleared := false;
    if proved {
      ProvenHolds(k.acts, time, lease.Value(), recovery);
      cleared := ClearVerified(k, lease);
      ProofUsed(old(k.acts), time, k.time, recovery, since, k.acts);
    }
    if cleared {
      report.result := SupervisorResult.Recovered;
    } else {
      UnusableAsleep(lease.Value());
      lease.Sleep();
      k.CountsRemovals();
      LeftSo(report.result, lease.Value(), before, k.acts, k.refused, [Act.UnlinkMarker], recovery.worker.forked, recovery);
    }
  }

  /** Observe after recovery and, with a complete window, consume the proof and remove
      the marker; otherwise leave a lease that is of no use.
   */
  method ProveRecovery(k: Kernel, lease: ControlLease, backend: Backend, limits: Limits, report: Report,
                       ghost worker: Span)
    returns (ghost recovery: Recovery, ghost end: Option<ObservationEnd>)
    requires k.Valid() && k.pc.child.NoChild? && k.pc.phase.Recovered? && k.pc.phase.at <= k.time
    requires WorkerSpan(k.acts, worker, Recover) && worker.reaped == |k.acts| - 1
    requires k.acts[worker.reaped] == Act.Reap(Exited(0), k.pc.phase.at)
    requires lease.state.RecoveryRequired? && report.result.ObservationFailed?
    modifies k, lease, report`observerPid, report`reaped, report`result
    ensures k.operations == old(k.operations) && k.raised == old(k.raised)
    ensures k.Valid() && old(k.acts) <= k.acts && !k.pc.phase.Outside?
    ensures report.result == SupervisorResult.Recovered || report.result.ObservationFailed? || report.result.StopFailed?
    ensures Balanced(old(k.spawned), old(k.collected), k.spawned, k.collected, report.result.StopFailed?)
    ensures report.reaped - old(report.reaped) == k.collected - old(k.collected)
    ensures recovery.worker == worker
    ensures report.result == SupervisorResult.Recovered ==>
              && k.windows == old(k.windows) + 1 && k.removals == old(k.removals) + 1 && recovery.operation.None?
              && Succeeded(k.acts, k.time, lease.Value(), worker.forked, old(k.acts[worker.reaped].time), recovery)
    ensures report.result != SupervisorResult.Recovered ==>
              && Unusable(lease.Value())
              && MarkerLeft(report.result, lease.Value(), old(k.acts), k.acts, k.refused, [Act.UnlinkMarker], worker.forked,
                            recovery)
    ensures old(k.time) <= k.time
    ensures k.time <= old(k.time) + limits.observation + limits.reap + 2 * (1 + PAUSE_NS) + 130 * k.step
              + (old(k.patience) - k.patience)
    ensures k.patience <= old(k.patience)
    ensures old(k.errors) <= k.errors
    ensures report.result == SupervisorResult.Recovered && recovery.launchTime == 0 ==> k.errors > old(k.errors)
    ensures report.result != SupervisorResult.Recovered ==>
              if k.windows > old(k.windows) then
                && (k.errors > old(k.errors) || k.view == Absent || SeenOther(k.view))
                && |old(k.acts)| <= recovery.verified < |k.acts| && k.acts[recovery.verified].Verify?
                && report.result.ObservationFailed?
              else ObserverFailed(k.errors > old(k.errors), end, old(k.time), |old(k.acts)|, limits, SceneOf(k))
  {
    hide Kernel.Valid, ObserverFailed, Unusable, MarkerLeft, Succeeded, WorkerSpan, Proven, Balanced, Later, Removals;
    k.CountsRemovals();
    var proved;
    proved, recovery, end := ObserveRecovery(k, lease, backend, limits, report, worker);
    ghost var failed, observed := k.errors > old(k.errors), SceneOf(k);
    k.CountsRemovals();
    assert proved ==> k.acts[recovery.worker.reaped] == old(k.acts[worker.reaped]);
    SettleRecovery(k, lease, report, proved, recovery, old(k.acts), k.time, old(k.acts[worker.reaped].time));
    if !proved {
      assert Later(observed, SceneOf(k)) by { LaterSo(observed, SceneOf(k)); }
      StillFailed(failed, end, old(k.time), |old(k.acts)|, limits, observed, k.errors > old(k.errors), old(k.time),
                  |old(k.acts)|, SceneOf(k));
    }
  }

  lemma {:induction false} ProvenHolds(acts: seq<Act>, time: nat, lease: Lease, r: Recovery)
    requires Proven(acts, time, lease, r)
    ensures r.held == lease && ProofAvailable(lease) && r.operation.None? && r.worker.reaped < |acts|
    ensures acts[r.worker.reaped].Reap?
  {
  }

  /** Why a run under ownership failed. */
  datatype Cause =
    | NoCause
    | CallFailed
    | ClockFull                        // a deadline would lie beyond the end of the clock
    | MarkerPresent                    // when it was to be created
    | MarkerChanged(verified: nat)     // when it was to be removed, after this verification
    | LeaseSpent(asked: u64)           // when control was to be marked in it
    | Uncollected(forked: nat, stopped: nat)  // a stopped operation worker was not gone in time
    | RecoveryLate(forked: nat, began: nat)
    | RecoveryUnclean(worker: Span)
    | ObservationFault(end: ObservationEnd)

  /** The cause is there: a call failed, or without that the clock, the marker, the lease, a
      worker or the observer was not as a recovery needs it.
   */
  predicate Explained(cause: Cause, failed: bool, limits: Limits, lease: Lease, from: nat, since: nat, s: Scene) {
    match cause
    case NoCause => false
    case CallFailed => failed
    case ClockFull => s.time + 90 * SECOND > U64_MAX
    case MarkerPresent => s.view == SEEN_PENDING || SeenOther(s.view)
    case MarkerChanged(verified) =>
      from <= verified < |s.acts| && s.acts[verified].Verify? && (s.view == Absent || SeenOther(s.view))
    case LeaseSpent(asked) => lease.writePending || (since <= asked <= s.time && !Unexpired(lease, asked))
    case Uncollected(forked, stopped) =>
      from <= forked && Started(s.acts, forked, Operate) && since <= stopped && s.time >= stopped + limits.reap
    case RecoveryLate(forked, began) =>
      from <= forked && Started(s.acts, forked, Recover) && since <= began && s.time >= began + limits.recovery
    case RecoveryUnclean(worker) =>
      from <= worker.forked && Started(s.acts, worker.forked, Recover) && EndedBadly(s.acts, worker)
    case ObservationFault(end) => ObserverFaulty(false, end, since, from, limits, s)
  }

  /** The results that each cause can have. */
  predicate CauseFits(result: SupervisorResult, cause: Cause) {
    match result
    case Blocked => cause.CallFailed? || cause.MarkerPresent? || cause.LeaseSpent?
    case RecoveryFailed => cause.CallFailed? || cause.ClockFull? || cause.RecoveryLate? || cause.RecoveryUnclean?
    case ObservationFailed => cause.CallFailed? || cause.ClockFull? || cause.MarkerChanged? || cause.ObservationFault?
    case StopFailed =>
      cause.CallFailed? || cause.ClockFull? || cause.Uncollected? || cause.RecoveryLate? || cause.ObservationFault?
    case _ => false
  }

  lemma {:induction false} ExplainedFrom(cause: Cause, failed: bool, limits: Limits, lease: Lease, from: nat,
                                        since: nat,
                                         s: Scene, failed': bool, lease': Lease, from': nat, since': nat, s': Scene)
    requires Explained(cause, failed, limits, lease, from, since, s) && Later(s, s') && s'.view == s.view
    requires (failed ==> failed') && from' <= from && since' <= since
    requires cause.LeaseSpent? ==> lease == lease'
    ensures Explained(cause, failed', limits, lease', from', since', s')
  {
    hide ObserverFaulty, Started;
    match cause
    case ObservationFault(end) => FaultyLater(false, end, since, from, limits, s, false, since', from', s');
    case Uncollected(forked, _) => StartedStays(s.acts, forked, Operate, s'.acts);
    case RecoveryLate(forked, _) => StartedStays(s.acts, forked, Recover, s'.acts);
    case RecoveryUnclean(worker) => StartedStays(s.acts, worker.forked, Recover, s'.acts);
    case _ =>
  }

  /** Why the recovery worker did not succeed. */
  lemma {:induction false} RecoveryCause(result: SupervisorResult, failed: bool, limits: Limits, from: nat,
                                        since: nat, s: Scene)
    returns (cause: Cause)
    requires since <= s.time && LimitsValid(limits)
    requires || failed || limits.recovery == 0 || s.time + limits.recovery > U64_MAX
             || (Started(s.acts, from, Recover)
                 && (s.time >= since + limits.recovery
                     || (result.RecoveryFailed? && |s.acts| > 0 && EndedBadly(s.acts, Span(from, |s.acts| - 1)))))
    requires result.RecoveryFailed? || result.StopFailed?
    ensures Explained(cause, failed, limits, ZERO, from, since, s) && CauseFits(result, cause) && !cause.LeaseSpent?
  {
    hide EndedBadly, Started;
    cause := if failed then CallFailed
             else if s.time + limits.recovery > U64_MAX then ClockFull
             else if s.time >= since + limits.recovery then RecoveryLate(from, since)
             else RecoveryUnclean(Span(from, |s.acts| - 1));
  }

  /** Why it was not proved. */
  lemma {:induction false} ProofCause(result: SupervisorResult, failed: bool, before: bool, verified: Option<nat>,
                                      end: Option<ObservationEnd>,
                                      limits: Limits, from: nat, since: nat, middle: nat, began: nat, s: Scene)
    returns (cause: Cause)
    requires since <= began <= s.time && LimitsValid(limits) && (before ==> failed) && from <= middle
    requires !failed ==>
              if verified.Some? then
                && middle <= verified.value < |s.acts| && s.acts[verified.value].Verify?
                && (s.view == Absent || SeenOther(s.view)) && result.ObservationFailed?
              else ObserverFailed(failed, end, began, middle, limits, s)
    requires result.ObservationFailed? || result.StopFailed?
    ensures Explained(cause, failed, limits, ZERO, from, since, s) && CauseFits(result, cause) && !cause.LeaseSpent?
  {
    hide ObserverFaulty;
    cause := if failed then CallFailed
             else if verified.Some? then MarkerChanged(verified.value)
             else if s.time + limits.observation > U64_MAX then ClockFull
             else ObservationFault(end.value);
    if cause.ObservationFault? {
      FaultyLater(failed, end.value, began, middle, limits, s, false, since, from, s);
    }
  }

  /** Recovered means that all of a recovery happened, in order, and that its proof was
      consumed; otherwise the lease is of no use, and there is a cause.
   */
  method RecoverOwned(k: Kernel, lease: ControlLease, backend: Backend, limits: Limits, report: Report)
    returns (ghost recovery: Recovery, ghost cause: Cause)
    requires k.Valid() && k.pc.child.NoChild? && MayFork(k.pc.phase, Recover)
    requires lease.state.RecoveryRequired? && LimitsValid(limits)
    modifies k, lease, report`recoveryPid, report`observerPid, report`reaped, report`result
    ensures k.operations == old(k.operations) && k.raised == old(k.raised)
    ensures k.Valid() && old(k.acts) <= k.acts && !k.pc.phase.Outside?
    ensures report.result != Blocked && report.result != SupervisorResult.BaselineReady
    ensures Balanced(old(k.spawned), old(k.collected), k.spawned, k.collected, report.result.StopFailed?)
    ensures report.reaped - old(report.reaped) == k.collected - old(k.collected)
    ensures report.result == SupervisorResult.Recovered ==> k.windows == old(k.windows) + 1
    ensures Concluded(report.result, lease.Value(), 0, old(k.acts), old(k.time), k.acts, k.time, k.refused,
                      [Act.UnlinkMarker], recovery)
    ensures old(k.time) <= k.time
    ensures k.time <= old(k.time) + limits.recovery + limits.observation + 2 * limits.reap + 4 * (1 + PAUSE_NS) + 192 * k.step
                      + (old(k.patience) - k.patience)
    ensures k.patience <= old(k.patience) && old(k.errors) <= k.errors
    ensures report.result == SupervisorResult.Recovered && recovery.launchTime == 0 ==> k.errors > old(k.errors)
    ensures report.result != SupervisorResult.Recovered ==>
              && Explained(cause, k.errors > old(k.errors), limits, ZERO, |old(k.acts)|, old(k.time), SceneOf(k))
              && CauseFits(report.result, cause) && !cause.LeaseSpent?
    ensures report.result.RecoveryFailed? ==> report.observerPid == old(report.observerPid)
  {
    hide Kernel.Valid, MayFork, Succeeded, MarkerLeft, Unusable, WorkerSpan, Concluded, ObserverFailed, Explained,
      LimitsValid;
    recovery, cause := NOTHING, NoCause;
    LimitsBound(limits);
    k.CountsRemovals();
    var clean := RunRecovery(k, limits, report);
    k.CountsRemovals();
    if !clean {
      assert Unusable(lease.Value()) by { UnusableIf(lease.Value()); }
      cause := RecoveryCause(report.result, k.errors > old(k.errors), limits, |old(k.acts)|, old(k.time), SceneOf(k));
      MarkerKept(report.result, lease.Value(), 0, old(k.acts), old(k.time), k.acts, k.time, k.refused, recovery);
      return;
    }
    report.result := ObservationFailed;
    ghost var reaped, worker := k.acts, Span(|old(k.acts)|, |k.acts| - 1);
    ghost var began, failed, windows, end := k.time, k.errors > old(k.errors), k.windows, None;
    recovery, end := ProveRecovery(k, lease, backend, limits, report, worker);
    if report.result != SupervisorResult.Recovered {
      cause := ProofCause(report.result, k.errors > old(k.errors), failed,
                          if k.windows > windows then Some(recovery.verified) else None, end,
                          limits, |old(k.acts)|, old(k.time), |reaped|, began, SceneOf(k));
    }
    RanBefore(reaped, k.acts, recovery);
    k.CountsRemovals();
    ProofConcluded(report.result, lease.Value(), old(k.acts), old(k.time), reaped, k.acts, k.time, k.refused, recovery);
  }

  lemma {:induction false} UnusableIf(l: Lease)
    requires l.state.RecoveryRequired? || l.state.ReadFailed?
    ensures Unusable(l)
  {
  }

  lemma {:induction false} RanBefore(before: seq<Act>, acts: seq<Act>, r: Recovery)
    requires before <= acts && WorkerSpan(before, r.worker, Recover) && before[r.worker.reaped].status == Exited(0)
    ensures RecoveryRan(acts, r.worker.forked, r)
  {
  }

  lemma {:induction false} ProofConcluded(result: SupervisorResult, lease: Lease, before: seq<Act>, since: nat,
                                          reaped: seq<Act>, acts: seq<Act>, time: nat, refused: Option<Act>, r: Recovery)
    requires before <= reaped <= acts && Removals(before) == Removals(reaped)
    requires r.worker.forked == |before| && r.worker.reaped < |reaped| && reaped[r.worker.reaped].Reap?
    requires reaped[r.worker.reaped].time >= since
    requires result == SupervisorResult.Recovered ==>
               && Removals(acts) == Removals(before) + 1 && r.operation.None?
               && Succeeded(acts, time, lease, |before|, reaped[r.worker.reaped].time, r)
    requires result != SupervisorResult.Recovered ==>
               && Unusable(lease) && MarkerLeft(result, lease, reaped, acts, refused, [Act.UnlinkMarker], |before|, r)
    requires RecoveryRan(acts, |before|, r)
    ensures Concluded(result, lease, 0, before, since, acts, time, refused, [Act.UnlinkMarker], r)
  {
    hide RecoveredIn, Witnesses, ProofAvailable, ReceivedBy, Unusable, MarkerLeft;
    if result != SupervisorResult.Recovered {
      LeftFrom(result, lease, before, reaped, acts, refused, |before|, r, |before|);
    }
  }

  // ---------------------------------------------------------------------------
  // Running an operation
  // ---------------------------------------------------------------------------

  /** The marker is durable and the lease knows it, or the lease requires recovery. */
  method MarkIntent(k: Kernel, lease: ControlLease, owner: u64, ghost limits: Limits)
    returns (marked: bool, ghost cause: Cause)
    requires k.Valid() && k.pc == Pc(Ready(false), NoChild) && HeldBy(lease.Value(), owner)
    modifies lease, k`calls, k`time, k`patience, k`errors, k`view, k`acts, k`pc, k`refused
    ensures k.Valid() && old(k.acts) <= k.acts && k.pc.child.NoChild? && !k.pc.phase.Outside?
    ensures marked ==> k.pc.phase.Marked? && HeldBy(lease.Value(), owner) && lease.writePending
    ensures marked ==> lease.expiresAt == old(lease.expiresAt)
    ensures !marked ==> lease.state.RecoveryRequired?
    ensures !marked ==>
              && Explained(cause, k.errors > old(k.errors), limits, old(lease.Value()), |old(k.acts)|, old(k.time), SceneOf(k))
              && CauseFits(Blocked, cause)
    ensures old(k.time) <= k.time <= old(k.time) + 111 * k.step + (old(k.patience) - k.patience)
    ensures k.patience <= old(k.patience) && old(k.errors) <= k.errors
  {
    hide Kernel.Valid;
    marked := MarkPending(k, lease);
    cause := MarkerPresent;
    if marked {
      var now := k.Now();
      cause := LeaseSpent(now);
      marked := lease.MarkWritePending(owner, now, Pending);
    } else if lease.writePending {
      cause := LeaseSpent(0);
    }
    if !marked {
      lease.OwnerLost(owner);
    }
    if k.errors > old(k.errors) {
      cause := CallFailed;
    }
  }

  /** What an operation was given. */
  datatype Allowance = Allowance(limits: Limits, expires: u64, cancellable: bool, flag: nat -> bool, step: nat)

  /** The longest that stopping a worker takes. */
  function Stopping(a: Allowance): nat {
    a.limits.reap + 2 * (1 + PAUSE_NS) + 10 * a.step
  }

  /** How the operation went, as it is reported. Without a failed call its worker was
      started, unless the clock had no room for a deadline. It timed out no sooner than at
      its limit or when the lease expired, was cancelled exactly if the flag was seen up,
      and otherwise ended as its status says before the lease had expired. It was gone soon
      after the lease had expired, or after the flag went up for good.
   */
  ghost predicate OperationTold(exit: WorkerExit, pid: int, span: Option<Span>, a: Allowance, acts: seq<Act>, from: nat,
                                failed: bool, raised: bool, since: nat, began: nat, now: nat)
  {
    && (pid <= 0 ==> exit.NotStarted? && span.None? && (failed || now + a.limits.operation > U64_MAX))
    && (pid > 0 ==> failed || StartedSince(acts, from, Operate))
    && (pid > 0 && exit.NotStarted? ==> failed)
    && (raised <==> exit.Cancelled?) && (raised ==> a.cancellable)
    && (exit.Clean? || exit.Unclean? || exit.Crashed? ==>
          && span.Some? && span.value.reaped < |acts| && acts[span.value.reaped].Reap?
          && Tells(exit, acts[span.value.reaped].status) && acts[span.value.reaped].time < a.expires + a.step)
    && (span.Some? ==>
          && from <= span.value.forked && WorkerSpan(acts, span.value, Operate)
          && GoneBy(acts[span.value.reaped].time, exit, a, failed, since, began))
  }

  /** The operation's worker was gone neither too soon nor too late. */
  ghost predicate GoneBy(time: nat, exit: WorkerExit, a: Allowance, failed: bool, since: nat, began: nat) {
    && (exit.TimedOut? ==> failed || time >= since + a.limits.operation || time >= a.expires)
    && time <= Max(began, a.expires) + Stopping(a)
    && (a.cancellable ==> Heeded(a.flag, time, began, Stopping(a)))
  }

  ghost predicate StartedSince(acts: seq<Act>, from: nat, kind: Kind) {
    exists at: nat :: from <= at && Started(acts, at, kind)
  }

  lemma {:induction false} ToldLater(exit: WorkerExit, pid: int, span: Option<Span>, a: Allowance, acts: seq<Act>,
                                     from: nat, failed: bool, raised: bool, since: nat, began: nat, now: nat,
                                     acts': seq<Act>, from': nat, failed': bool, since': nat, began': nat, now': nat)
    requires OperationTold(exit, pid, span, a, acts, from, failed, raised, since, began, now)
    requires acts <= acts' && from' <= from && (failed ==> failed') && since' <= since && began <= began' && now <= now'
    ensures OperationTold(exit, pid, span, a, acts', from', failed', raised, since', began', now')
  {
    hide Started, Heeded;
    if span.Some? && a.cancellable {
      HeededLater(a.flag, acts[span.value.reaped].time, began, Stopping(a), acts[span.value.reaped].time, began');
    }
    if StartedSince(acts, from, Operate) {
      var at: nat :| from <= at && Started(acts, at, Operate);
      StartedStays(acts, at, Operate, acts');
    }
  }

  lemma {:induction false} GoneSo(time: nat, exit: WorkerExit, a: Allowance, failed: bool, since: nat, began: nat,
                                  time': nat, began': nat)
    requires time <= time' && began' <= began
    requires exit.TimedOut? ==> failed || time >= since + a.limits.operation || time >= a.expires
    requires time' <= Max(began', a.expires) + Stopping(a)
    requires a.cancellable ==> Heeded(a.flag, time', began', Stopping(a))
    ensures GoneBy(time, exit, a, failed, since, began)
  {
    hide Heeded;
    if a.cancellable {
      HeededLater(a.flag, time', began', Stopping(a), time, began);
    }
  }

  /** The same, as it is found when the worker was waited for. */
  lemma {:induction false} ToldSo(exit: WorkerExit, pid: int, stopped: bool, a: Allowance, before: seq<Act>,
                                  acts: seq<Act>,
                                  failed: bool, raised: bool, since: nat, began: nat, now: nat)
    returns (span: Option<Span>)
    requires pid <= 0 ==> exit.NotStarted? && stopped && (failed || now + a.limits.operation > U64_MAX)
    requires pid > 0 ==> failed || Started(acts, |before|, Operate)
    requires pid > 0 && exit.NotStarted? ==> failed
    requires (raised <==> exit.Cancelled?) && (raised ==> a.cancellable)
    requires pid > 0 && stopped ==>
               && |acts| > 0 && acts[|acts| - 1].Reap? && WorkerSpan(acts, Span(|before|, |acts| - 1), Operate)
               && GoneBy(acts[|acts| - 1].time, exit, a, failed, since, began)
    requires exit.Clean? || exit.Unclean? || exit.Crashed? ==>
               && pid > 0 && stopped && Tells(exit, acts[|acts| - 1].status)
               && acts[|acts| - 1].time < a.expires + a.step
    ensures OperationTold(exit, pid, span, a, acts, |before|, failed, raised, since, began, now)
    ensures if pid > 0 && stopped then span == Some(Span(|before|, |acts| - 1)) else span.None?
  {
    hide GoneBy, WorkerSpan, Started;
    span := if pid > 0 && stopped then Some(Span(|before|, |acts| - 1)) else None;
  }

  /** Run the operation worker until its deadline, or until the lease expires. */
  method OperateUntil(k: Kernel, limits: Limits, cancellable: bool, expires: u64, planned: u64, report: Report,
                      ghost since: nat)
    returns (stopped: bool, ghost span: Option<Span>)
    requires k.Valid() && k.pc == Pc(Marked, NoChild) && report.result.Blocked?
    requires planned == k.time + limits.operation && since <= k.time
    modifies k`calls, k`time, k`patience, k`errors, k`next, k`nextSynced, k`acts, k`pc, k`refused, k`spawned,
      k`operations, k`collected, k`kills, k`raised, report`operation, report`operationPid, report`reaped, report`result
    ensures k.patience <= old(k.patience) && old(k.errors) <= k.errors
    ensures k.operations == old(k.operations) + if report.operationPid > 0 then 1 else 0
    ensures k.Valid() && old(k.acts) <= k.acts && !k.pc.phase.Outside?
    ensures report.result == if stopped then Blocked else StopFailed
    ensures stopped ==> k.pc.child.NoChild? && (k.pc.phase.Marked? || k.pc.phase.Operated?)
    ensures if report.operationPid > 0 && stopped then span == Some(Span(|old(k.acts)|, |k.acts| - 1)) else span.None?
    ensures span.Some? ==> 0 < |k.acts| && k.acts[|k.acts| - 1].Reap? && k.acts[|k.acts| - 1].time <= k.time
    ensures k.spawned - old(k.spawned) == k.collected - old(k.collected) + if stopped then 0 else 1
    ensures report.reaped - old(report.reaped) == k.collected - old(k.collected)
    ensures OperationTold(report.operation, report.operationPid, span, Allowance(limits, expires, cancellable, k.flag, k.step),
                          k.acts, |old(k.acts)|, k.errors > old(k.errors), k.raised > old(k.raised), since,
                          old(k.time) + 50 * k.step + (old(k.patience) - k.patience), k.time)
    ensures report.operationPid <= 0 ==> k.errors > old(k.errors)
    ensures report.operation.TimedOut? ==>
              k.errors > old(k.errors) || k.time >= old(k.time) + limits.operation || k.time >= expires
    ensures k.time <= Max(old(k.time) + 50 * k.step + (old(k.patience) - k.patience),
                          if planned <= expires then planned else expires)
                      + limits.reap + 2 * (1 + PAUSE_NS) + 10 * k.step
    ensures old(k.time) <= k.time && old(k.raised) <= k.raised
    ensures !stopped ==>
              && report.operationPid > 0
              && (k.errors > old(k.errors)
                  || (Started(k.acts, |old(k.acts)|, Operate)
                      && (limits.reap == 0 || k.time + limits.reap > U64_MAX || k.time >= old(k.time) + limits.reap)))
  {
    hide Kernel.Valid, WorkerSpan, Started, Heeded, OperationTold, GoneBy, Tells;
    ghost var a := Allowance(limits, expires, cancellable, k.flag, k.step);
    var deadline := if planned > expires then expires else planned;
    var child, gone, exit := RunWorker(k, Operate, deadline, limits.reap, cancellable, report);
    report.operationPid, stopped, report.operation := child, gone, exit;
    if !stopped {
      report.result := StopFailed;
    } else if child > 0 {
      GoneSo(k.acts[|k.acts| - 1].time, exit, a, k.errors > old(k.errors), since,
             old(k.time) + 50 * k.step + (old(k.patience) - k.patience), k.time,
             old(k.time) + 50 * k.step + (old(k.patience) - k.patience));
    }
    span := ToldSo(exit, child, stopped, a, old(k.acts), k.acts, k.errors > old(k.errors), k.raised > old(k.raised), since,
                   old(k.time) + 50 * k.step + (old(k.patience) - k.patience), k.time);
  }

  lemma {:induction false} ToldNone(a: Allowance, acts: seq<Act>, from: nat, failed: bool, since: nat, began: nat,
                                    now: nat)
    requires failed || now + a.limits.operation > U64_MAX
    ensures OperationTold(NotStarted, 0, None, a, acts, from, failed, false, since, began, now)
  {
  }

  /** Run the operation worker and reap it. It need not be possible to start it; it must
      be possible to stop it. No exit after the lease has expired counts as one, and the
      worker is gone soon after.
   */
  method RunOperation(k: Kernel, limits: Limits, cancellable: bool, expires: u64, report: Report)
    returns (stopped: bool, ghost span: Option<Span>)
    requires k.Valid() && k.pc == Pc(Marked, NoChild) && report.result.Blocked? && report.operationPid == 0
    requires report.operation == NotStarted && limits.operation > 0
    modifies k`calls, k`time, k`patience, k`errors, k`next, k`nextSynced, k`acts, k`pc, k`refused, k`spawned,
      k`operations, k`collected, k`kills, k`raised, report`operation, report`operationPid, report`reaped, report`result
    ensures k.patience <= old(k.patience) && old(k.errors) <= k.errors
    ensures k.operations == old(k.operations) + if report.operationPid > 0 then 1 else 0
    ensures k.Valid() && old(k.acts) <= k.acts && !k.pc.phase.Outside?
    ensures report.result == if stopped then Blocked else StopFailed
    ensures stopped ==> k.pc.child.NoChild? && (k.pc.phase.Marked? || k.pc.phase.Operated?)
    ensures if report.operationPid > 0 && stopped then span == Some(Span(|old(k.acts)|, |k.acts| - 1)) else span.None?
    ensures span.Some? ==> 0 < |k.acts| && k.acts[|k.acts| - 1].Reap? && k.acts[|k.acts| - 1].time <= k.time
    ensures Balanced(old(k.spawned), old(k.collected), k.spawned, k.collected, !stopped)
    ensures report.reaped - old(report.reaped) == k.collected - old(k.collected)
    ensures OperationTold(report.operation, report.operationPid, span, Allowance(limits, expires, cancellable, k.flag, k.step),
                          k.acts, |old(k.acts)|, k.errors > old(k.errors), k.raised > old(k.raised), old(k.time),
                          old(k.time) + 51 * k.step + (old(k.patience) - k.patience), k.time)
    ensures report.operationPid <= 0 ==> k.errors > old(k.errors) || k.time + limits.operation > U64_MAX
    ensures report.operation.TimedOut? ==>
              k.errors > old(k.errors) || k.time >= old(k.time) + limits.operation || k.time >= expires
    ensures k.time <= Max(old(k.time) + 51 * k.step + (old(k.patience) - k.patience), expires)
                      + limits.reap + 2 * (1 + PAUSE_NS) + 10 * k.step
    ensures old(k.time) <= k.time && old(k.raised) <= k.raised
    ensures k.time <= old(k.time) + limits.operation + limits.reap + 2 * (1 + PAUSE_NS) + 61 * k.step
              + (old(k.patience) - k.patience)
    ensures !stopped ==>
              && report.operationPid > 0
              && (k.errors > old(k.errors)
                  || (Started(k.acts, |old(k.acts)|, Operate)
                      && (limits.reap == 0 || k.time + limits.reap > U64_MAX || k.time >= old(k.time) + limits.reap)))
  {
    hide Kernel.Valid, WorkerSpan, Started, OperationTold;
    ghost var a := Allowance(limits, expires, cancellable, k.flag, k.step);
    var planned := DeadlineFor(k, limits.operation);
    if planned.None? {
      ToldNone(a, k.acts, |old(k.acts)|, k.errors > old(k.errors), old(k.time), old(k.time) + 51 * k.step, k.time);
      return true, None;
    }
    ghost var time, errors := k.time, k.errors;
    stopped, span := OperateUntil(k, limits, cancellable, expires, planned.value, report, old(k.time));
    ToldLater(report.operation, report.operationPid, span, a, k.acts, |old(k.acts)|, k.errors > errors,
              k.raised > old(k.raised), old(k.time), time + 50 * k.step + (old(k.patience) - k.patience), k.time, k.acts,
              |old(k.acts)|, k.errors > old(k.errors), old(k.time),
              old(k.time) + 51 * k.step + (old(k.patience) - k.patience), k.time);
  }

  /** Mark the intent and run the operation; whatever came of it, the lease then requires
      recovery. False means that there is nothing to recover from, or no way to.
   */
  method MarkAndOperate(k: Kernel, lease: ControlLease, limits: Limits, cancellable: bool, report: Report)
    returns (stopped: bool, ghost span: Option<Span>, ghost cause: Cause)
    requires k.Valid() && k.pc == Pc(Ready(false), NoChild) && lease.state.Held? && lease.owner != 0
    requires report.result.Blocked? && report.operationPid == 0 && report.operation == NotStarted
    requires LimitsValid(limits)
    modifies lease, k`calls, k`time, k`patience, k`errors, k`view, k`next, k`nextSynced, k`acts, k`pc, k`refused,
      k`spawned, k`operations, k`collected, k`kills, k`raised,
      report`operation, report`operationPid, report`reaped, report`result
    ensures k.patience <= old(k.patience) && old(k.errors) <= k.errors
    ensures lease.state.RecoveryRequired?
    ensures k.operations == old(k.operations) + if report.operationPid > 0 then 1 else 0
    ensures k.Valid() && old(k.acts) <= k.acts && !k.pc.phase.Outside?
    ensures report.result.Blocked? || report.result.StopFailed?
    ensures stopped ==> report.result.Blocked? && k.pc.child.NoChild? && MayFork(k.pc.phase, Recover)
    ensures Balanced(old(k.spawned), old(k.collected), k.spawned, k.collected, report.result.StopFailed?)
    ensures report.reaped - old(report.reaped) == k.collected - old(k.collected)
    ensures stopped ==> (span.Some? <==> report.operationPid > 0)
    ensures span.Some? ==>
              && stopped && |old(k.acts)| <= span.value.forked && WorkerSpan(k.acts, span.value, Operate)
              && k.acts[span.value.reaped].time <= k.time
    ensures stopped || report.result.StopFailed? ==>
              OperationTold(report.operation, report.operationPid, span,
                            Allowance(limits, old(lease.expiresAt), cancellable, k.flag, k.step), k.acts, |old(k.acts)|,
                            k.errors > old(k.errors), k.raised > old(k.raised), old(k.time),
                            old(k.time) + 162 * k.step + (old(k.patience) - k.patience), k.time)
    ensures !stopped && report.result.Blocked? ==>
              report.operationPid == 0 && report.operation.NotStarted? && k.spawned == old(k.spawned)
    ensures old(k.time) <= k.time && old(k.raised) <= k.raised
    ensures k.time <= old(k.time) + limits.operation + limits.reap + 2 * (1 + PAUSE_NS) + 173 * k.step
                      + (old(k.patience) - k.patience)
    ensures !stopped ==>
              && Explained(cause, k.errors > old(k.errors), limits, old(lease.Value()), |old(k.acts)|, old(k.time), SceneOf(k))
              && CauseFits(report.result, cause)
  {
    hide Kernel.Valid, Explained, LimitsValid, OperationTold, WorkerSpan, Started, CauseFits;
    LimitsBound(limits);
    span, stopped := None, false;
    var owner := lease.owner;
    var marked;
    marked, cause := MarkIntent(k, lease, owner, limits);
    if marked {
      ghost var time, patience, errors, marking := k.time, k.patience, k.errors, k.acts;
      stopped, span := RunOperation(k, limits, cancellable, lease.expiresAt, report);
      ToldLater(report.operation, report.operationPid, span,
                Allowance(limits, lease.expiresAt, cancellable, k.flag, k.step), k.acts, |marking|, k.errors > errors,
                k.raised > old(k.raised), time, time + 51 * k.step + (patience - k.patience), k.time, k.acts, |old(k.acts)|,
                k.errors > old(k.errors), old(k.time), old(k.time) + 162 * k.step + (old(k.patience) - k.patience), k.time);
      SpanTold(report.operation, report.operationPid, span,
               Allowance(limits, lease.expiresAt, cancellable, k.flag, k.step), k.acts, |marking|, k.errors > errors,
               k.raised > old(k.raised), time, time + 51 * k.step + (patience - k.patience), k.time);
      lease.OwnerLost(owner);
      if !stopped {
        cause := StopCause(k.errors > old(k.errors), limits, old(lease.Value()), |old(k.acts)|, old(k.time), |marking|, time,
                           SceneOf(k));
      }
    }
  }

  lemma {:induction false} SpanTold(exit: WorkerExit, pid: int, span: Option<Span>, a: Allowance, acts: seq<Act>,
                                    from: nat, failed: bool, raised: bool, since: nat, began: nat, now: nat)
    requires OperationTold(exit, pid, span, a, acts, from, failed, raised, since, began, now)
    ensures span.Some? ==> from <= span.value.forked && WorkerSpan(acts, span.value, Operate)
    ensures pid <= 0 ==> failed || now + a.limits.operation > U64_MAX
  {
    hide WorkerSpan;
  }

  /** Mark, operate, recover, observe and clear, under ownership. */
  method RunOwned(k: Kernel, lease: ControlLease, backend: Backend, limits: Limits, cancellable: bool, report: Report)
    returns (ghost recovery: Recovery, ghost cause: Cause)
    requires k.Valid() && k.pc == Pc(Ready(false), NoChild) && lease.state.Held? && lease.owner != 0
    requires report.result.Blocked? && report.reaped == 0 && report.operationPid == 0 && report.operation == NotStarted
    requires LimitsValid(limits)
    modifies k, lease, report
    ensures k.patience <= old(k.patience) && old(k.errors) <= k.errors
    ensures k.operations == old(k.operations) + if report.operationPid > 0 then 1 else 0
    ensures k.Valid() && old(k.acts) <= k.acts && !k.pc.phase.Outside?
    ensures Balanced(old(k.spawned), old(k.collected), k.spawned, k.collected, report.result.StopFailed?)
    ensures report.reaped == k.collected - old(k.collected)
    ensures report.result != SupervisorResult.BaselineReady
    ensures report.result == SupervisorResult.Recovered ==> k.windows == old(k.windows) + 1
    ensures Concluded(report.result, lease.Value(), report.operationPid, old(k.acts), old(k.time), k.acts, k.time, k.refused,
                      [Act.UnlinkMarker], recovery)
    ensures !report.result.Blocked? ==>
              OperationTold(report.operation, report.operationPid, recovery.operation,
                            Allowance(limits, old(lease.expiresAt), cancellable, k.flag, k.step), k.acts, |old(k.acts)|,
                            k.errors > old(k.errors), k.raised > old(k.raised), old(k.time),
                            old(k.time) + 163 * k.step + (old(k.patience) - k.patience), k.time)
    ensures report.result.Blocked? ==>
              report.operationPid == 0 && report.operation.NotStarted? && k.spawned == old(k.spawned)
    ensures old(k.time) <= k.time && old(k.raised) <= k.raised
    ensures k.time <= old(k.time) + limits.operation + limits.recovery + limits.observation + 3 * limits.reap
                      + 6 * (1 + PAUSE_NS) + 366 * k.step + (old(k.patience) - k.patience)
    ensures report.result == SupervisorResult.Recovered && recovery.launchTime == 0 ==> k.errors > old(k.errors)
    ensures report.result != SupervisorResult.Recovered ==>
              && Explained(cause, k.errors > old(k.errors), limits, old(lease.Value()), |old(k.acts)|, old(k.time), SceneOf(k))
              && CauseFits(report.result, cause)
  {
    hide Kernel.Valid, Concluded, Unusable, WorkerSpan, Explained, LimitsValid, MayFork, OperationTold, CauseFits,
      Removals, Allowed;
    recovery := NOTHING;
    k.CountsRemovals();
    k.Callback();
    ghost var entered, patience := k.time, k.patience;
    ghost var span;
    var stopped;
    stopped, span, cause := MarkAndOperate(k, lease, limits, cancellable, report);
    k.CountsRemovals();
    ghost var operated, began, errors, s, left := k.acts, k.time, k.errors, SceneOf(k), k.patience;
    ghost var a := Allowance(limits, old(lease.expiresAt), cancellable, k.flag, k.step);
    if !stopped {
      UnusableIf(lease.Value());
      MarkerKept(report.result, lease.Value(), report.operationPid, old(k.acts), old(k.time), k.acts, k.time, k.refused,
                 recovery);
      ExplainedFrom(cause, k.errors > old(k.errors), limits, old(lease.Value()), |old(k.acts)|, entered, s,
                    k.errors > old(k.errors), old(lease.Value()), |old(k.acts)|, old(k.time), s);
      if report.result.StopFailed? {
        ToldLater(report.operation, report.operationPid, span, a, k.acts, |old(k.acts)|, k.errors > old(k.errors),
                  k.raised > old(k.raised), entered, entered + 162 * k.step + (patience - k.patience), k.time, k.acts,
                    |old(k.acts)|,
                  k.errors > old(k.errors), old(k.time), old(k.time) + 163 * k.step + (old(k.patience) - k.patience), k.time);
      }
      return;
    }
    recovery, cause := RecoverOwned(k, lease, backend, limits, report);
    AfterOperation(report.result, lease.Value(), report.operationPid, old(k.acts), old(k.time), operated, began,
                   k.acts, k.time, k.refused, recovery, span);
    recovery := recovery.(operation := span);
    ToldLater(report.operation, report.operationPid, span, a, operated, |old(k.acts)|, errors > old(k.errors),
              k.raised > old(k.raised), entered, entered + 162 * k.step + (patience - left), began, k.acts, |old(k.acts)|,
              k.errors > old(k.errors), old(k.time), old(k.time) + 163 * k.step + (old(k.patience) - k.patience), k.time);
    if report.result != SupervisorResult.Recovered {
      ExplainedFrom(cause, k.errors > errors, limits, ZERO, |operated|, began, SceneOf(k),
                    k.errors > old(k.errors), old(lease.Value()), |old(k.acts)|, old(k.time), SceneOf(k));
    }
  }

  /** Why the operation worker could not be stopped. */
  lemma {:induction false} StopCause(failed: bool, limits: Limits, lease: Lease, from: nat, since: nat,
                                     forked: nat, time: nat, s: Scene)
    returns (cause: Cause)
    requires since <= time <= s.time && LimitsValid(limits) && from <= forked
    requires failed
             || (Started(s.acts, forked, Operate)
                 && (limits.reap == 0 || s.time + limits.reap > U64_MAX || s.time >= time + limits.reap))
    ensures Explained(cause, failed, limits, lease, from, since, s) && CauseFits(StopFailed, cause)
  {
    hide Started;
    cause := if failed then CallFailed
             else if s.time + limits.reap > U64_MAX then ClockFull
             else Uncollected(forked, time);
  }

  // ---------------------------------------------------------------------------
  // Entry points
  // ---------------------------------------------------------------------------

  method CanSupervise(k: Kernel, backend: Backend, limits: Limits) returns (able: bool)
    modifies k`calls, k`time, k`errors
    ensures able ==> LimitsValid(limits) && backend.recover && backend.read
    ensures k.errors >= old(k.errors)
    ensures LimitsValid(limits) && backend.recover && backend.read && k.errors == old(k.errors) ==> able
    ensures old(k.time) <= k.time <= old(k.time) + k.step
  {
    if !LimitsValid(limits) || !backend.recover || !backend.read {
      return false;
    }
    able := k.Try();
  }

  lemma {:induction false} LimitsBound(limits: Limits)
    requires LimitsValid(limits)
    ensures 0 < limits.operation <= 15 * SECOND && limits.recovery <= 90 * SECOND
    ensures limits.observation <= 90 * SECOND && limits.reap <= 5 * SECOND
  {
  }

  /** When an operation may be run at all: a lease held and fresh at that time. */
  predicate Admissible(l: Lease, now: u64) {
    && l.state.Held? && l.owner != 0
    && l.lastSample <= now < l.expiresAt && now - l.lastSample <= CLAIM_MAX_AGE_NS
  }

  lemma {:induction false} AdmissibleHeld(l: Lease, now: u64)
    requires Admissible(l, now)
    ensures l.state.Held? && l.owner != 0
  {
  }

  /** The limits are valid and the callbacks that are needed are given. */
  predicate Able(backend: Backend, limits: Limits, operating: bool) {
    LimitsValid(limits) && backend.recover && backend.read && (operating ==> backend.operate)
  }

  /** Admitted exactly if no call failed, nobody cancels, all that is needed is given, the
      lease is admissible and there is no marker.
   */
  method RunAdmitted(k: Kernel, lease: ControlLease, backend: Backend, limits: Limits, cancellable: bool)
    returns (admitted: bool, ghost asked: u64, ghost raised: bool)
    requires k.Valid()
    modifies k`calls, k`time, k`patience, k`errors, k`view, k`raised
    ensures k.Valid() && old(k.raised) <= k.raised
    ensures admitted ==>
              && LimitsValid(limits) && backend.recover && backend.read && backend.operate && k.view == Absent
              && Admissible(lease.Value(), asked) && k.raised == old(k.raised)
    ensures if asked == 0 then k.errors > old(k.errors) else old(k.time) <= asked <= k.time
    ensures (raised <==> k.raised > old(k.raised)) && (raised ==> cancellable)
    ensures admitted && cancellable ==> exists t: nat :: old(k.time) <= t <= k.time && !k.flag(t)
    ensures old(k.errors) <= k.errors
    ensures !admitted ==>
              || k.errors > old(k.errors) || !LimitsValid(limits) || !backend.recover || !backend.read || !backend.operate
              || raised || !Admissible(lease.Value(), asked) || MarkerUnfit(k.view, false)
    ensures old(k.time) <= k.time <= old(k.time) + 58 * k.step + (old(k.patience) - k.patience)
    ensures k.patience <= old(k.patience)
  {
    hide Kernel.Valid;
    k.Callback();
    var now := k.Now();
    var cancelled := false;
    var able := CanSupervise(k, backend, limits);
    if !able || !backend.operate {
      return false, now, cancelled;
    }
    if cancellable {
      cancelled := k.Flag();
      assert cancelled == k.flag(k.time);
    }
    if cancelled {
      return false, now, cancelled;
    }
    if lease.state != Held || lease.owner == 0 || now < lease.lastSample || now >= lease.expiresAt
       || Minus(now, lease.lastSample) > CLAIM_MAX_AGE_NS {
      return false, now, cancelled;
    }
    var intent := ControlIntentRead(k);
    return intent.Clear?, now, cancelled;
  }

  /** An admitted call with ownership; or nothing is held. */
  method RunAcquired(k: Kernel, lease: ControlLease, backend: Backend, limits: Limits, cancellable: bool)
    returns (owned: bool, ghost asked: u64, ghost raised: bool)
    requires k.Valid() && k.pc == START
    modifies k`calls, k`time, k`patience, k`errors, k`view, k`record, k`probe, k`next, k`nextSynced,
      k`acts, k`pc, k`refused, k`raised
    ensures k.Valid() && old(k.acts) <= k.acts
    ensures owned ==>
              && k.pc == Pc(Ready(false), NoChild) && k.acts == old(k.acts) + Acquisition(false) && LimitsValid(limits)
              && Admissible(lease.Value(), asked) && k.raised == old(k.raised)
    ensures if asked == 0 then k.errors > old(k.errors) else old(k.time) <= asked <= k.time
    ensures (raised <==> k.raised > old(k.raised)) && (raised ==> cancellable)
    ensures owned && cancellable ==> exists t: nat :: old(k.time) <= t <= k.time && !k.flag(t)
    ensures !owned ==>
              || k.errors > old(k.errors) || !Able(backend, limits, true) || raised || !Admissible(lease.Value(), asked)
              || NotFree(k.view, k.record, k.probe, false)
    ensures old(k.errors) <= k.errors
    ensures !owned ==> k.pc == START
    ensures old(k.time) <= k.time <= old(k.time) + 168 * k.step + (old(k.patience) - k.patience)
    ensures k.patience <= old(k.patience)
  {
    hide Kernel.Valid, Acquisition;
    var admitted;
    admitted, asked, raised := RunAdmitted(k, lease, backend, limits, cancellable);
    owned := false;
    if admitted {
      owned := Acquire(k, false);
    }
  }

  /** Run under the lock and close it; seen from when the run began, before the lock. */
  method RunLocked(k: Kernel, lease: ControlLease, backend: Backend, limits: Limits, cancellable: bool, report: Report,
                   ghost before: seq<Act>, ghost since: nat, ghost errors: nat, ghost patience: nat)
    returns (ghost recovery: Recovery, ghost cause: Cause)
    requires k.Valid() && k.pc == Pc(Ready(false), NoChild) && lease.state.Held? && lease.owner != 0
    requires report.result.Blocked? && report.reaped == 0 && report.operationPid == 0 && report.operation == NotStarted
    requires LimitsValid(limits)
    requires before <= k.acts && Removals(before) == Removals(k.acts) && errors <= k.errors && k.patience <= patience
    requires since <= k.time <= since + 168 * k.step + (patience - k.patience)
    modifies k, lease, report
    ensures k.patience <= old(k.patience) && old(k.errors) <= k.errors && old(k.raised) <= k.raised
    ensures k.Valid() && k.pc == START && old(k.acts) <= k.acts
    ensures Concluded(report.result, lease.Value(), report.operationPid, before, since, k.acts, k.time,
                      k.refused, [Act.UnlinkMarker, Act.CloseLock], recovery)
    ensures report.result != SupervisorResult.Recovered ==>
              && Explained(cause, k.errors > errors, limits, old(lease.Value()), |before|, since, SceneOf(k))
              && CauseFits(report.result, cause)
    ensures !report.result.Blocked? ==>
              OperationTold(report.operation, report.operationPid, recovery.operation,
                            Allowance(limits, old(lease.expiresAt), cancellable, k.flag, k.step), k.acts, |before|,
                            k.errors > errors, k.raised > old(k.raised), since,
                            since + 331 * k.step + (patience - k.patience), k.time)
    ensures !report.result.Blocked? && report.operationPid <= 0 ==>
              k.errors > errors || k.time + limits.operation > U64_MAX
    ensures report.result.Blocked? ==>
              report.operationPid == 0 && report.operation.NotStarted? && k.spawned == old(k.spawned)
    ensures k.operations == old(k.operations) + if report.operationPid > 0 then 1 else 0
    ensures Balanced(old(k.spawned), old(k.collected), k.spawned, k.collected, report.result.StopFailed?)
    ensures report.reaped == k.collected - old(k.collected)
    ensures report.result != SupervisorResult.BaselineReady
    ensures report.result == SupervisorResult.Recovered ==> k.windows == old(k.windows) + 1
    ensures old(k.time) <= k.time
    ensures k.time <= old(k.time) + limits.operation + limits.recovery + limits.observation + 3 * limits.reap
                      + 6 * (1 + PAUSE_NS) + 367 * k.step + (old(k.patience) - k.patience)
    ensures report.result == SupervisorResult.Recovered && recovery.launchTime == 0 ==> k.errors > old(k.errors)
  {
    hide Kernel.Valid, Concluded, LimitsValid, Explained, OperationTold, CauseFits, Balanced;
    ghost var start, began, failed, left, raised := k.acts, k.time, k.errors, k.patience, k.raised;
    recovery, cause := RunOwned(k, lease, backend, limits, cancellable, report);
    ghost var ended, time, s := k.acts, k.time, SceneOf(k);
    k.CloseLock();
    if report.result != SupervisorResult.Recovered {
      ExplainedFrom(cause, k.errors > failed, limits, old(lease.Value()), |start|, began, s,
                    k.errors > errors, old(lease.Value()), |before|, since, SceneOf(k));
    }
    if !report.result.Blocked? {
      ToldLater(report.operation, report.operationPid, recovery.operation,
                Allowance(limits, old(lease.expiresAt), cancellable, k.flag, k.step), ended, |start|, k.errors > failed,
                k.raised > raised, began, began + 163 * k.step + (left - k.patience), time, k.acts, |before|,
                k.errors > errors, since, since + 331 * k.step + (patience - k.patience), k.time);
      SpanTold(report.operation, report.operationPid, recovery.operation,
               Allowance(limits, old(lease.expiresAt), cancellable, k.flag, k.step), k.acts, |before|, k.errors > errors,
               k.raised > raised, since, since + 331 * k.step + (patience - k.patience), k.time);
    }
    ConclusionClosed(report.result, lease.Value(), report.operationPid, before, since, start, began, ended, time,
                     k.refused, recovery, k.time);
  }

  /** Mark, operate, recover, observe and clear. However it ends, every child forked was
      reaped exactly once, except that StopFailed means exactly one was not, and it ends
      in bounded time. Recovered means that the whole recovery is in the trace, after the
      operation; any other result under ownership leaves a lease that is of no use and the
      marker alone, unless the directory sync after its removal was refused.
   */
  method WorkerSupervisorRun(k: Kernel, lease: ControlLease, backend: Backend, limits: Limits, cancellable: bool)
    returns (report: Report, ghost recovery: Recovery, ghost owned: bool, ghost cause: Cause, ghost asked: u64,
             ghost raised: bool)
    requires k.Valid() && k.pc == START
    modifies k, lease
    ensures k.patience <= old(k.patience) && old(k.errors) <= k.errors
    ensures fresh(report) && k.Valid() && k.pc == START && old(k.acts) <= k.acts
    ensures !owned ==> report.result.Blocked? && lease.Value() == old(lease.Value()) && k.removals == old(k.removals)
    ensures owned ==>
              && Admissible(old(lease.Value()), asked) && old(k.acts) + Acquisition(false) <= k.acts
              && Concluded(report.result, lease.Value(), report.operationPid, old(k.acts), old(k.time), k.acts, k.time,
                           k.refused, [Act.UnlinkMarker, Act.CloseLock], recovery)
    ensures !owned ==>
              || k.errors > old(k.errors) || !Able(backend, limits, true) || raised || !Admissible(lease.Value(), asked)
              || NotFree(k.view, k.record, k.probe, false)
    ensures if asked == 0 then k.errors > old(k.errors) else old(k.time) <= asked <= k.time
    ensures (raised ==> cancellable) && (!owned ==> (raised <==> k.raised > old(k.raised)))
    ensures owned && cancellable ==> exists t: nat :: old(k.time) <= t <= k.time && !k.flag(t)
    ensures owned && report.result != SupervisorResult.Recovered ==>
              && Explained(cause, k.errors > old(k.errors), limits, old(lease.Value()), |old(k.acts)|, old(k.time), SceneOf(k))
              && CauseFits(report.result, cause)
    ensures !report.result.Blocked? ==>
              OperationTold(report.operation, report.operationPid, recovery.operation,
                            Allowance(limits, old(lease.expiresAt), cancellable, k.flag, k.step), k.acts, |old(k.acts)|,
                            k.errors > old(k.errors), k.raised > old(k.raised), old(k.time),
                            old(k.time) + 331 * k.step + (old(k.patience) - k.patience), k.time)
    ensures !report.result.Blocked? && report.operationPid <= 0 ==>
              k.errors > old(k.errors) || k.time + limits.operation > U64_MAX
    ensures report.result.Blocked? ==>
              report.operationPid == 0 && report.operation.NotStarted? && k.spawned == old(k.spawned)
    ensures k.operations == old(k.operations) + if report.operationPid > 0 then 1 else 0
    ensures Balanced(old(k.spawned), old(k.collected), k.spawned, k.collected, report.result.StopFailed?)
    ensures report.reaped == k.collected - old(k.collected)
    ensures report.result != SupervisorResult.BaselineReady
    ensures report.result == SupervisorResult.Recovered ==> k.windows == old(k.windows) + 1
    ensures old(k.time) <= k.time
    ensures k.time <= old(k.time) + 15 * SECOND + 90 * SECOND + 90 * SECOND + 3 * (5 * SECOND)
                      + 6 * (1 + PAUSE_NS) + 540 * k.step + (old(k.patience) - k.patience)
    ensures report.result == SupervisorResult.Recovered && recovery.launchTime == 0 ==> k.errors > old(k.errors)
  {
    hide Kernel.Valid, Concluded, Acquisition, LimitsValid, Explained, Admissible, NotFree, OperationTold, CauseFits,
      Balanced, Able, Allowed, After, Later, SceneOf;
    report := new Report();
    recovery, owned, cause := NOTHING, false, NoCause;
    NoneLost(k.spawned, k.collected);
    k.CountsRemovals();
    var acquired;
    acquired, asked, raised := RunAcquired(k, lease, backend, limits, cancellable);
    if !acquired {
      return;
    }
    owned := true;
    LimitsBound(limits);
    AdmissibleHeld(lease.Value(), asked);
    k.CountsRemovals();
    recovery, cause :=
      RunLocked(k, lease, backend, limits, cancellable, report, old(k.acts), old(k.time), old(k.errors), old(k.patience));
  }

  /** Pending control, a lease that requires recovery, and ownership; or nothing is held. */
  method ResumeAdmitted(k: Kernel, lease: ControlLease, backend: Backend, limits: Limits) returns (owned: bool)
    requires k.Valid() && k.pc == START
    modifies lease, k`calls, k`time, k`patience, k`errors, k`view, k`record, k`probe, k`next, k`nextSynced,
      k`acts, k`pc, k`refused
    ensures k.Valid() && old(k.acts) <= k.acts
    ensures lease.state.RecoveryRequired? || (k.acts == old(k.acts) && lease.Value() == old(lease.Value()))
    ensures owned ==>
              && k.pc == Pc(Ready(true), NoChild) && k.acts == old(k.acts) + Acquisition(true)
              && lease.state.RecoveryRequired? && LimitsValid(limits)
    ensures !owned ==>
              k.errors > old(k.errors) || !Able(backend, limits, false) || NotFree(k.view, k.record, k.probe, true)
    ensures old(k.errors) <= k.errors
    ensures !owned ==> k.pc == START
    ensures old(k.time) <= k.time <= old(k.time) + 168 * k.step + (old(k.patience) - k.patience)
    ensures k.patience <= old(k.patience)
  {
    hide Kernel.Valid, Acquisition;
    k.Callback();
    var able := CanSupervise(k, backend, limits);
    if !able {
      return false;
    }
    var intent := ControlIntentRead(k);
    if !intent.Pending? {
      return false;
    }
    var now := k.Now();
    lease.Start(Pending, Reading(KeyReadFailed, None, now));
    owned := Acquire(k, true);
  }

  lemma {:induction false} OutcomeClosed(result: SupervisorResult, lease: Lease, before: seq<Act>, since: nat,
                                         start: seq<Act>, began: nat, acts: seq<Act>, time: nat, refused: Option<Act>,
                                         r: Recovery, time': nat, cause: Cause, failed: bool, limits: Limits,
                                         failed': bool, s: Scene, s': Scene)
    requires before <= start <= acts && Removals(before) == Removals(start) && since <= began && time <= time'
    requires Later(s, s') && s.view == s'.view
    requires Concluded(result, lease, 0, start, began, acts, time, refused, [Act.UnlinkMarker], r)
    requires (failed ==> failed')
    requires result != SupervisorResult.Recovered ==>
               Explained(cause, failed, limits, ZERO, |start|, began, s) && !cause.LeaseSpent?
    ensures Concluded(result, lease, 0, before, since, acts + [Act.CloseLock], time', refused,
                      [Act.UnlinkMarker, Act.CloseLock], r)
    ensures result != SupervisorResult.Recovered ==>
              Explained(cause, failed', limits, ZERO, |before|, since, s')
  {
    hide Concluded, Explained;
    if result != SupervisorResult.Recovered {
      ExplainedFrom(cause, failed, limits, ZERO, |start|, began, s, failed', ZERO, |before|, since, s');
    }
    ConclusionClosed(result, lease, 0, before, since, start, began, acts, time, refused, r, time');
  }

  /** Recover under the lock and close it; seen from when the call began, before the lock. */
  method ResumeLocked(k: Kernel, lease: ControlLease, backend: Backend, limits: Limits, report: Report,
                      ghost before: seq<Act>, ghost since: nat, ghost errors: nat)
    returns (ghost recovery: Recovery, ghost cause: Cause)
    requires k.Valid() && k.pc == Pc(Ready(true), NoChild) && lease.state.RecoveryRequired? && LimitsValid(limits)
    requires report.result.Blocked? && report.reaped == 0
    requires before <= k.acts && Removals(before) == Removals(k.acts) && since <= k.time && errors <= k.errors
    modifies k, lease, report`recoveryPid, report`observerPid, report`reaped, report`result
    ensures k.Valid() && k.pc == START && old(k.acts) <= k.acts
    ensures Concluded(report.result, lease.Value(), 0, before, since, k.acts, k.time, k.refused,
                      [Act.UnlinkMarker, Act.CloseLock], recovery)
    ensures report.result != SupervisorResult.Recovered ==>
              && Explained(cause, k.errors > errors, limits, ZERO, |before|, since, SceneOf(k))
              && CauseFits(report.result, cause)
    ensures report.result != Blocked && report.result != SupervisorResult.BaselineReady
    ensures k.operations == old(k.operations)
    ensures Balanced(old(k.spawned), old(k.collected), k.spawned, k.collected, report.result.StopFailed?)
    ensures report.reaped == k.collected - old(k.collected)
    ensures report.result == SupervisorResult.Recovered ==> k.windows == old(k.windows) + 1
    ensures old(k.time) <= k.time && k.patience <= old(k.patience) && old(k.errors) <= k.errors
    ensures k.time <= old(k.time) + limits.recovery + limits.observation + 2 * limits.reap + 4 * (1 + PAUSE_NS) + 193 * k.step
                      + (old(k.patience) - k.patience)
    ensures report.result == SupervisorResult.Recovered && recovery.launchTime == 0 ==> k.errors > old(k.errors)
  {
    hide Kernel.Valid, Concluded, LimitsValid, Explained, Balanced, Allowed, CauseFits;
    ghost var start, began, failed := k.acts, k.time, k.errors;
    recovery, cause := RecoverOwned(k, lease, backend, limits, report);
    ghost var ended, time, s := k.acts, k.time, SceneOf(k);
    k.CloseLock();
    OutcomeClosed(report.result, lease.Value(), before, since, start, began, ended, time, k.refused, recovery, k.time, cause,
                  k.errors > failed, limits, k.errors > errors, s, SceneOf(k));
  }

  /** Recovery only: no operation is forked, and the lease is reset before anything else. */
  method WorkerSupervisorResume(k: Kernel, lease: ControlLease, backend: Backend, limits: Limits)
    returns (report: Report, ghost recovery: Recovery, ghost owned: bool, ghost cause: Cause)
    requires k.Valid() && k.pc == START
    modifies k, lease
    ensures fresh(report) && k.Valid() && k.pc == START && old(k.acts) <= k.acts
    ensures !owned ==>
              && report.result.Blocked? && k.removals == old(k.removals)
              && (lease.state.RecoveryRequired? || (k.acts == old(k.acts) && lease.Value() == old(lease.Value())))
    ensures owned ==>
              && old(k.acts) + Acquisition(true) <= k.acts
              && Concluded(report.result, lease.Value(), 0, old(k.acts), old(k.time), k.acts, k.time, k.refused,
                           [Act.UnlinkMarker, Act.CloseLock], recovery)
    ensures !owned ==>
              k.errors > old(k.errors) || !Able(backend, limits, false) || NotFree(k.view, k.record, k.probe, true)
    ensures owned && report.result != SupervisorResult.Recovered ==>
              && Explained(cause, k.errors > old(k.errors), limits, ZERO, |old(k.acts)|, old(k.time), SceneOf(k))
              && CauseFits(report.result, cause) && !report.result.Blocked?
    ensures k.operations == old(k.operations)
    ensures Balanced(old(k.spawned), old(k.collected), k.spawned, k.collected, report.result.StopFailed?)
    ensures report.reaped == k.collected - old(k.collected)
    ensures report.operationPid == 0 && report.operation == NotStarted
    ensures report.result != SupervisorResult.BaselineReady
    ensures report.result == SupervisorResult.Recovered ==> k.windows == old(k.windows) + 1
    ensures old(k.time) <= k.time
    ensures k.time <= old(k.time) + 90 * SECOND + 90 * SECOND + 2 * (5 * SECOND)
                      + 4 * (1 + PAUSE_NS) + 365 * k.step + (old(k.patience) - k.patience)
    ensures k.patience <= old(k.patience) && old(k.errors) <= k.errors
    ensures report.result == SupervisorResult.Recovered && recovery.launchTime == 0 ==> k.errors > old(k.errors)
  {
    hide Kernel.Valid, Concluded, Acquisition, LimitsValid, Explained, NotFree, Able, Balanced, Allowed, After,
      CauseFits;
    report := new Report();
    recovery, cause := NOTHING, NoCause;
    NoneLost(k.spawned, k.collected);
    k.CountsRemovals();
    var acquired := ResumeAdmitted(k, lease, backend, limits);
    owned := acquired;
    if !acquired {
      return;
    }
    LimitsBound(limits);
    k.CountsRemovals();
    recovery, cause := ResumeLocked(k, lease, backend, limits, report, old(k.acts), old(k.time), old(k.errors));
  }

  /** No pending control, and ownership; or nothing is held. */
  method BaselineAdmitted(k: Kernel, backend: Backend, limits: Limits) returns (owned: bool)
    requires k.Valid() && k.pc == START
    modifies k`calls, k`time, k`patience, k`errors, k`view, k`record, k`probe, k`next, k`nextSynced,
      k`acts, k`pc, k`refused
    ensures k.Valid() && old(k.acts) <= k.acts
    ensures owned ==>
              && k.pc == Pc(Ready(false), NoChild) && k.acts == old(k.acts) + Acquisition(false) && LimitsValid(limits)
    ensures !owned ==>
              k.errors > old(k.errors) || !Able(backend, limits, false) || NotFree(k.view, k.record, k.probe, false)
    ensures old(k.errors) <= k.errors
    ensures !owned ==> k.pc == START
    ensures old(k.time) <= k.time <= old(k.time) + 167 * k.step + (old(k.patience) - k.patience)
    ensures k.patience <= old(k.patience)
  {
    hide Kernel.Valid, Acquisition;
    k.Callback();
    var able := CanSupervise(k, backend, limits);
    if !able {
      return false;
    }
    var intent := ControlIntentRead(k);
    if !intent.Clear? {
      return false;
    }
    owned := Acquire(k, false);
  }

  /** Observe under ownership; a failed observation leaves a lease that is of no use. */
  method BaselineOwned(k: Kernel, lease: ControlLease, backend: Backend, limits: Limits, report: Report)
    returns (latest: Option<Snapshot>, ghost window: seq<Delivery>, ghost launched: u64, ghost since: nat,
             ghost end: Option<ObservationEnd>)
    requires k.Valid() && k.pc == Pc(Ready(false), NoChild) && report.reaped == 0
    modifies k`calls, k`time, k`patience, k`errors, k`stream, k`ended, k`next, k`nextSynced, k`acts, k`pc, k`refused,
      k`spawned,
      k`operations, k`collected, k`kills, k`windows, lease, report`observerPid, report`reaped, report`result
    ensures k.operations == old(k.operations)
    ensures k.windows == old(k.windows) + if report.result.BaselineReady? then 1 else 0
    ensures k.Valid() && old(k.acts) <= k.acts && !k.pc.phase.Outside?
    ensures report.result.ObservationFailed? || report.result.StopFailed? || report.result.BaselineReady?
    ensures Balanced(old(k.spawned), old(k.collected), k.spawned, k.collected, report.result.StopFailed?)
    ensures report.reaped == k.collected - old(k.collected)
    ensures report.result != SupervisorResult.BaselineReady ==>
              && Unusable(lease.Value())
              && ObserverFailed(k.errors > old(k.errors), end, old(k.time), |old(k.acts)|, limits, SceneOf(k))
    ensures old(k.errors) <= k.errors
    ensures report.result == SupervisorResult.BaselineReady && launched == 0 ==> k.errors > old(k.errors)
    ensures report.result == SupervisorResult.BaselineReady ==>
              && Receivable(window, launched, since) && LaunchedSince(launched, since, old(k.time))
              && |k.acts| > |old(k.acts)| && k.acts[|k.acts| - 1] == Act.Verify(window)
              && Witnesses(lease.Value(), window) && !ProofAvailable(lease.Value()) && ReceivedBy(window, k.time)
              && latest == Some(window[REQUIRED_SAMPLES - 1].observation.snapshot)
    ensures old(k.time) <= k.time
    ensures k.time <= old(k.time) + limits.observation + limits.reap + 2 * (1 + PAUSE_NS) + 72 * k.step
              + (old(k.patience) - k.patience)
    ensures k.patience <= old(k.patience)
  {
    hide Kernel.Valid, Receivable, LaunchedSince, ProofAvailable, Sleep, WindowHeld, Witnesses, Unusable, ReceivedBy,
      ObserverFailed;
    lease.Clear();
    report.result := ObservationFailed;
    var ok;
    ok, latest, window, launched, since, end := ObserveOwned(k, lease, backend, limits, report, false);
    if ok {
      report.result := SupervisorResult.BaselineReady;
      BaselineWitnessed(lease.Value(), window, launched, latest);
    } else {
      UnusableAsleep(lease.Value());
      lease.Sleep();
    }
  }

  /** A fresh complete minute before any control; nothing is marked, no recovery is proved
      by it, and any other result under ownership leaves a lease that is of no use.
   */
  method WorkerSupervisorObserveBaseline(k: Kernel, lease: ControlLease, backend: Backend, limits: Limits)
    returns (report: Report, latest: Option<Snapshot>, ghost window: seq<Delivery>, ghost launched: u64, ghost since: nat,
             ghost owned: bool, ghost end: Option<ObservationEnd>)
    requires k.Valid() && k.pc == START
    modifies k, lease
    ensures fresh(report) && k.Valid() && k.pc == START && old(k.acts) <= k.acts
    ensures !owned ==> report.result.Blocked? && lease.Value() == old(lease.Value())
    ensures owned ==> old(k.acts) + Acquisition(false) <= k.acts && !report.result.Blocked?
    ensures k.operations == old(k.operations) && k.removals == old(k.removals)
    ensures k.windows == old(k.windows) + if report.result.BaselineReady? then 1 else 0
    ensures report.result.Blocked? || report.result.ObservationFailed? || report.result.StopFailed?
              || report.result.BaselineReady?
    ensures Balanced(old(k.spawned), old(k.collected), k.spawned, k.collected, report.result.StopFailed?)
    ensures report.reaped == k.collected - old(k.collected)
    ensures !owned ==>
              k.errors > old(k.errors) || !Able(backend, limits, false) || NotFree(k.view, k.record, k.probe, false)
    ensures owned && report.result != SupervisorResult.BaselineReady ==>
              && Unusable(lease.Value())
              && ObserverFailed(k.errors > old(k.errors), end, old(k.time), |old(k.acts)|, limits, SceneOf(k))
    ensures report.result == SupervisorResult.BaselineReady ==>
              && owned && Receivable(window, launched, since) && LaunchedSince(launched, since, old(k.time))
              && |k.acts| >= |old(k.acts)| + 2 && k.acts[|k.acts| - 2] == Act.Verify(window)
              && Witnesses(lease.Value(), window) && !ProofAvailable(lease.Value()) && ReceivedBy(window, k.time)
              && latest == Some(window[REQUIRED_SAMPLES - 1].observation.snapshot)
    ensures old(k.time) <= k.time
    ensures k.time <= old(k.time) + 90 * SECOND + 5 * SECOND + 2 * (1 + PAUSE_NS) + 240 * k.step
              + (old(k.patience) - k.patience)
    ensures k.patience <= old(k.patience) && old(k.errors) <= k.errors
    ensures report.result == SupervisorResult.BaselineReady && launched == 0 ==> k.errors > old(k.errors)
  {
    hide Kernel.Valid, ProofAvailable, Receivable, Witnesses, LimitsValid, Unusable, Acquisition, ObserverFailed,
      NotFree, Able, Balanced, Allowed, After;
    report := new Report();
    NoneLost(k.spawned, k.collected);
    latest, window, launched, since, end := None, [], 0, 0, None;
    var acquired := BaselineAdmitted(k, backend, limits);
    owned := acquired;
    if !acquired {
      return;
    }
    LimitsBound(limits);
    ghost var start, began, errors := k.acts, k.time, k.errors;
    latest, window, launched, since, end := BaselineOwned(k, lease, backend, limits, report);
    ghost var s := SceneOf(k);
    k.CloseLock();
    if report.result != SupervisorResult.BaselineReady {
      StillFailed(k.errors > errors, end, began, |start|, limits, s, k.errors > old(k.errors), old(k.time), |old(k.acts)|,
                  SceneOf(k));
    }
  }
}
