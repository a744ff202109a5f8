/** The runner: resume a pending recovery, or observe, claim, run and recover; and
    report which of them is verified.
 */
module SupervisorProbe {
  import opened SmcBaseline
  import opened MinuteRule
  import opened LeaseSpec
  import opened ControlLeaseReducer
  import opened OwnerProtocol
  import opened SupervisorKernel
  import opened ControlIntentJournal
  import opened SupervisorOwnership
  import opened WorkerLifetime
  import opened ObserverPipe
  import opened WorkerSupervisor

  datatype RunnerState = Verified | NotRun | StillPending

  datatype Runner = Runner(
    state: RunnerState, resumed: bool,
    admissionSamples: nat, admissionDuration: u64,
    operationPid: int, reaped: nat,
    recoverySamples: nat, recoveryDuration: u64)

  const BACKEND := Backend(true, true, true, true)
  const LIMITS := Limits(5 * SECOND, 5 * SECOND, 75 * SECOND, 2 * SECOND)

  function WindowNs(l: Lease): u64 {
    if l.lastSample >= l.observationStarted then l.lastSample - l.observationStarted else 0
  }

  /** Every read of the first window had finished before any read of the second began. */
  predicate DisjointInTime(first: seq<Delivery>, second: seq<Delivery>) {
    forall i, j | 0 <= i < |first| && 0 <= j < |second| ::
      first[i].observation.finished <= second[j].observation.started
  }

  /** The finish times of a complete window increase up to the last. */
  lemma {:induction false} FinishBeforeLast(window: seq<Delivery>, launched: u64, i: nat)
    requires CompleteWindow(window, launched) && i < |window|
    ensures window[i].observation.finished <= LastFinish(window)
    decreases |window| - i
  {
    if i + 1 < |window| {
      var times := FinishTimes(window);
      assert SAMPLE_MIN_NS <= times[i + 1] - times[i];
      FinishBeforeLast(window, launched, i + 1);
    }
  }

  lemma {:induction false} LastFinishReceived(window: seq<Delivery>, launched: u64, time: nat)
    requires CompleteWindow(window, launched) && ReceivedBy(window, time)
    ensures LastFinish(window) <= time && time >= BASELINE_NS
  {
    assert Prompt(window[|window| - 1], launched);
    var times := FinishTimes(window);
    assert times[|times| - 1] - times[0] >= BASELINE_NS;
  }

  /** A window launched after another was received lies after it. */
  lemma {:induction false} LaterWindow(first: seq<Delivery>, launched: u64, second: seq<Delivery>, relaunched: u64,
                                       time: nat)
    requires CompleteWindow(first, launched) && ReceivedBy(first, time)
    requires CompleteWindow(second, relaunched) && relaunched >= time
    ensures DisjointInTime(first, second)
  {
    hide CompleteWindow, ReceivedBy;
    LastFinishReceived(first, launched, time);
    forall i, j | 0 <= i < |first| && 0 <= j < |second|
      ensures first[i].observation.finished <= second[j].observation.started
    {
      FinishBeforeLast(first, launched, i);
      ReadAfterLaunch(second, relaunched, j);
    }
  }

  lemma {:induction false} ReadAfterLaunch(window: seq<Delivery>, launched: u64, j: nat)
    requires CompleteWindow(window, launched) && j < |window|
    ensures launched <= window[j].observation.started
  {
    assert Prompt(window[j], launched);
  }

  /** The samples of a window and the time from its first to its last, at least a minute. */
  predicate MinuteReported(samples: nat, duration: u64, window: seq<Delivery>) {
    && samples == |window| == REQUIRED_SAMPLES
    && duration == LastFinish(window) - Finish(window[0]) && duration >= BASELINE_NS
  }

  lemma {:induction false} WitnessReported(l: Lease, window: seq<Delivery>)
    requires Witnesses(l, window)
    ensures MinuteReported(l.samples, WindowNs(l), window)
  {
  }

  /** Why there is no verified recovery. */
  datatype Refusal =
    | Accepted
    | Untried
    | NotOwned(pending: bool)
    | Unobserved(end: Option<ObservationEnd>)
    | Unclaimed(at: u64)                    // the lease was not claimed at this time
    | Outdated(claimed: u64, asked: u64)    // the claim was too old when the run asked for it
    | RunFailed(cause: Cause, held: Lease)  // with the claimed lease
    | ResumeFailed(cause: Cause)

  /** What a runner is asked to do. */
  datatype Request = Request(crash: bool, resumeOnly: bool, runner: u64)

  /** What was last seen of the record and its process, with the scene. */
  datatype Sight = Sight(scene: Scene, record: RecordView, probe: Probe)

  ghost function SightOf(k: Kernel): Sight
    reads k`stream, k`ended, k`view, k`acts, k`time, k`record, k`probe
  {
    Sight(SceneOf(k), k.record, k.probe)
  }

  /** The reason is there to be seen. */
  ghost predicate Refused(why: Refusal, failed: bool, request: Request, first: seq<Delivery>, from: nat, since: nat,
                          s: Sight) {
    match why
    case Accepted => false
    case Untried =>
      || failed || SeenOther(s.scene.view)
      || (s.scene.view == SEEN_PENDING && request.crash) || (s.scene.view == Absent && request.resumeOnly)
    case NotOwned(pending) => failed || NotFree(s.scene.view, s.record, s.probe, pending)
    case Unobserved(end) => ObserverFailed(failed, end, since, from, LIMITS, s.scene)
    case Unclaimed(at) =>
      failed || MarkerUnfit(s.scene.view, false) || ClaimRefused(request.runner, first, at, since, s.scene.time)
    case Outdated(claimed, asked) =>
      failed || (since <= claimed && asked <= s.scene.time && asked > claimed + CLAIM_MAX_AGE_NS)
    case RunFailed(cause, held) =>
      && Explained(cause, failed, LIMITS, held, from, since, s.scene)
      && held.state.Held? && !held.writePending && since <= held.lastSample <= s.scene.time
      && held.expiresAt == held.lastSample + TTL_NS
    case ResumeFailed(cause) => Explained(cause, failed, LIMITS, ZERO, from, since, s.scene)
  }

  /** The lease cannot be claimed at this time with the latest snapshot of the first minute. */
  predicate ClaimRefused(runner: u64, first: seq<Delivery>, at: u64, since: nat, time: nat) {
    || runner == 0 || at > U64_MAX - TTL_NS
    || (since <= at <= time && |first| == REQUIRED_SAMPLES
        && (at > LastFinish(first) + CLAIM_MAX_AGE_NS
            || !CoolEnough(first[REQUIRED_SAMPLES - 1].observation.snapshot)))
  }

  lemma {:induction false} UnclaimedBecause(l: Lease, first: seq<Delivery>, launched: u64, runner: u64, intent: Intent,
                                            now: u64, began: nat, since: nat, time: nat)
    requires CompleteWindow(first, launched) && Witnesses(l, first) && ReceivedBy(first, since)
    requires began <= since <= now <= time && intent.Clear?
    requires !ClaimGranted(l, runner, true, intent, Reading(Ok, Some(first[REQUIRED_SAMPLES - 1].observation.snapshot), now))
    ensures ClaimRefused(runner, first, now, began, time)
  {
    hide NonOverlapping, Unbroken;
    LastFinishReceived(first, launched, since);
    assert IsSystem(first[REQUIRED_SAMPLES - 1].observation.snapshot);
  }

  /** Claim the lease with the latest snapshot of the first minute. */
  method ClaimFirst(k: Kernel, lease: ControlLease, request: Request, latest: Option<Snapshot>,
                    ghost first: seq<Delivery>,
                    ghost launched: u64, ghost since: nat)
    returns (claimed: bool, ghost why: Refusal)
    requires CompleteWindow(first, launched) && |first| == REQUIRED_SAMPLES && ReceivedBy(first, k.time)
    requires since <= k.time
    requires Witnesses(lease.Value(), first) && latest == Some(first[REQUIRED_SAMPLES - 1].observation.snapshot)
    modifies lease, k`calls, k`time, k`patience, k`errors, k`view
    ensures old(k.time) <= k.time && old(k.errors) <= k.errors
    ensures claimed ==> JustClaimed(lease.Value(), request.runner, since, k.time)
    ensures !claimed ==>
              && why.Unclaimed?
              && (k.errors > old(k.errors) || MarkerUnfit(k.view, false)
                  || ClaimRefused(request.runner, first, why.at, since, k.time))
  {
    hide CompleteWindow, Witnesses, ClaimGranted, ClaimRefused, ReceivedBy, JustClaimed;
    var now := k.Now();
    var intent := ControlIntentRead(k);
    claimed := lease.Claim(request.runner, true, intent, Reading(Ok, latest, now));
    why := Unclaimed(now);
    if claimed {
      ClaimHolds(old(lease.Value()), request.runner, intent, Reading(Ok, latest, now), since, k.time);
    } else if k.errors == old(k.errors) && intent.Clear? {
      UnclaimedBecause(old(lease.Value()), first, launched, request.runner, intent, now, since, old(k.time), k.time);
    }
  }

  /** Observe a first minute and claim the lease with its latest snapshot. */
  method Admit(k: Kernel, lease: ControlLease, request: Request)
    returns (claimed: bool, admission: Report, ghost first: seq<Delivery>, ghost launched: u64,
             samples: nat, duration: u64, ghost why: Refusal)
    requires k.Valid() && k.pc == START
    modifies k, lease
    ensures fresh(admission) && k.Valid() && k.pc == START && old(k.acts) <= k.acts
    ensures k.operations == old(k.operations) && k.removals == old(k.removals)
    ensures k.windows == old(k.windows) + if admission.result.BaselineReady? then 1 else 0
    ensures Balanced(old(k.spawned), old(k.collected), k.spawned, k.collected, admission.result.StopFailed?)
    ensures admission.reaped == k.collected - old(k.collected)
    ensures old(k.time) <= k.time && old(k.errors) <= k.errors
    ensures claimed ==>
              && admission.result.BaselineReady? && JustClaimed(lease.Value(), request.runner, old(k.time), k.time)
              && CompleteWindow(first, launched) && ReceivedBy(first, k.time)
              && MinuteReported(samples, duration, first)
    ensures !claimed ==>
              Refused(why, k.errors > old(k.errors), request, first, |old(k.acts)|, old(k.time), SightOf(k))
    ensures !claimed ==> why == NotOwned(false) || why.Unobserved? || why.Unclaimed?
  {
    hide Kernel.Valid, CompleteWindow, Witnesses, MinuteReported, ProofAvailable, ClaimGranted, Acquisition,
      ClaimRefused,
      ObserverFailed, NotFree, Explained, Receivable, Unusable, Balanced, JustClaimed,
      Able;
    var latest;
    ghost var since, owned, end;
    admission, latest, first, launched, since, owned, end := WorkerSupervisorObserveBaseline(k, lease, BACKEND, LIMITS);
    samples, duration := lease.samples, WindowNs(lease.Value());
    claimed := false;
    why := if owned then Unobserved(end) else NotOwned(false);
    LimitsFit();
    if admission.result.BaselineReady? {
      WitnessReported(lease.Value(), first);
      ReceivableComplete(first, launched, since);
      claimed, why := ClaimFirst(k, lease, request, latest, first, launched, old(k.time));
    }
  }

  lemma {:induction false} LimitsFit()
    ensures Able(BACKEND, LIMITS, true) && Able(BACKEND, LIMITS, false)
  {
  }

  lemma {:induction false} ReceivableComplete(window: seq<Delivery>, launched: u64, since: nat)
    requires Receivable(window, launched, since)
    ensures CompleteWindow(window, launched) && |window| == REQUIRED_SAMPLES
  {
  }

  /** The lease was claimed by this runner, between these times. */
  predicate JustClaimed(l: Lease, runner: u64, since: nat, time: nat) {
    && l.state.Held? && l.owner == runner != 0 && !l.writePending
    && since <= l.lastSample <= time && l.expiresAt == l.lastSample + TTL_NS
  }

  lemma {:induction false} ClaimHolds(l: Lease, owner: u64, intent: Intent, r: Reading, since: nat, time: nat)
    requires ClaimGranted(l, owner, true, intent, r) && (r.now == 0 || since <= r.now <= time)
    ensures JustClaimed(Claim(l, owner, true, intent, r), owner, since, time)
  {
    hide CoolEnough, IsSystem;
  }

  /** Whatever observer forked after the launch wrote these records, its reads really began
      after this time, and all but perhaps the first say so.
   */
  ghost predicate ReadsAfterAny(r: Recovery, time: nat) {
    forall made | ReadAs(r.window, made) && Genuine(made, r.since) :: ReadsAfter(r.window, made, r.launchTime, time)
  }

  /** A recovery after everything else: it succeeded, after the operation if one was run,
      and every read of its window began after the recovery worker was reaped.
   */
  ghost predicate RecoveredLast(acts: seq<Act>, time: nat, lease: Lease, from: nat, operationPid: int, r: Recovery) {
    && Succeeded(acts, time, lease, from, 0, r) && OperationFirst(acts, from, r)
    && (r.operation.Some? <==> operationPid > 0)
    && ReadsAfterAny(r, acts[r.worker.reaped].time)
  }

  /** The second of two windows was launched after the first was received, and lies after it. */
  predicate WindowsApart(first: seq<Delivery>, launched: u64, r: Recovery) {
    CompleteWindow(first, launched) && DisjointInTime(first, r.window) && r.launchTime > 0
  }

  lemma {:induction false} Apart(acts: seq<Act>, time: nat, lease: Lease, from: nat, since: nat, r: Recovery,
                                 first: seq<Delivery>, launched: u64)
    requires Succeeded(acts, time, lease, from, since, r) && CompleteWindow(first, launched) && ReceivedBy(first, since)
    ensures WindowsApart(first, launched, r)
  {
    hide CompleteWindow, ReceivedBy, Witnesses, ProofAvailable;
    LastFinishReceived(first, launched, since);
    LaterWindow(first, launched, r.window, r.launchTime, since);
  }

  /** Observe, claim and run. If the recovery succeeds, its window lies after the first;
      if not, there is a reason.
   */
  method AdmitAndRun(k: Kernel, lease: ControlLease, request: Request)
    returns (admission: Report, report: Report, samples: nat, duration: u64,
             ghost first: seq<Delivery>, ghost launched: u64, ghost recovery: Recovery, ghost why: Refusal)
    requires k.Valid() && k.pc == START
    modifies k, lease
    ensures fresh(admission) && fresh(report) && k.Valid() && k.pc == START && old(k.acts) <= k.acts
    ensures k.operations == old(k.operations) + if report.operationPid > 0 then 1 else 0
    ensures admission.reaped + report.reaped == k.collected - old(k.collected)
    ensures old(k.time) <= k.time && old(k.errors) <= k.errors
    ensures report.result == SupervisorResult.Recovered ==>
              && k.windows == old(k.windows) + 2 && k.removals == old(k.removals) + 1
              && RecoveredLast(k.acts, k.time, lease.Value(), |old(k.acts)|, report.operationPid, recovery)
              && WindowsApart(first, launched, recovery) && MinuteReported(samples, duration, first)
              && (report.operationPid > 0 || k.errors > old(k.errors) || k.time + LIMITS.operation > U64_MAX)
    ensures report.result != SupervisorResult.Recovered ==>
              Refused(why, k.errors > old(k.errors), request, first, |old(k.acts)|, old(k.time), SightOf(k))
    ensures report.result != SupervisorResult.Recovered ==>
              why == NotOwned(false) || why.Unobserved? || why.Unclaimed? || why.Outdated? || why.RunFailed?
  {
    hide Kernel.Valid, CompleteWindow, MinuteReported, ReceivedBy, RecoveredLast, WindowsApart, Acquisition, Concluded,
      Refused, JustClaimed, OperationTold, Explained, CauseFits, NotFree, Admissible, Balanced, Able;
    report := new Report();
    recovery := NOTHING;
    var claimed;
    claimed, admission, first, launched, samples, duration, why := Admit(k, lease, request);
    if claimed {
      ghost var time, start, errors, held, patience := k.time, k.acts, k.errors, lease.Value(), k.patience;
      k.CountsRemovals();
      LimitsFit();
      ghost var owned, cause, asked, raised;
      report, recovery, owned, cause, asked, raised := WorkerSupervisorRun(k, lease, BACKEND, LIMITS, false);
      k.CountsRemovals();
      if report.result == SupervisorResult.Recovered {
        why := Accepted;
        RanLast(report.operationPid, lease.Value(), start, time, k.acts, k.time, k.refused, recovery, |old(k.acts)|);
        Apart(k.acts, k.time, lease.Value(), |start|, time, recovery, first, launched);
      } else {
        why := RunRefused(owned, cause, held, asked, k.errors > errors, k.errors > old(k.errors), request, first,
          |start|, time,
                          |old(k.acts)|, old(k.time), SightOf(k));
      }
    }
  }

  /** Why a run with the lease just claimed did not succeed. */
  lemma {:induction false} RunRefused(owned: bool, cause: Cause, held: Lease, asked: u64, ran: bool, failed: bool,
                                      request: Request, first: seq<Delivery>, start: nat, time: nat, from: nat, since: nat,
                                      s: Sight)
    returns (why: Refusal)
    requires from <= start && since <= time <= s.scene.time && (ran ==> failed)
    requires JustClaimed(held, request.runner, since, time)
    requires if asked == 0 then ran else time <= asked <= s.scene.time
    requires if owned then Explained(cause, ran, LIMITS, held, start, time, s.scene)
             else ran || !Admissible(held, asked) || NotFree(s.scene.view, s.record, s.probe, false)
    ensures Refused(why, failed, request, first, from, since, s)
    ensures why == NotOwned(false) || why.Outdated? || why.RunFailed?
  {
    hide NotFree, Explained;
    if owned {
      why := RunFailed(cause, held);
      ExplainedFrom(cause, ran, LIMITS, held, start, time, s.scene, failed, held, from, since, s.scene);
    } else if Admissible(held, asked) || failed {
      why := NotOwned(false);
    } else {
      why := Outdated(held.lastSample, asked);
    }
  }

  lemma {:induction false} RanLast(operationPid: int, lease: Lease, start: seq<Act>, began: nat, acts: seq<Act>,
                                   time: nat,
                                   refused: Option<Act>, r: Recovery, from: nat)
    requires start <= acts && from <= |start|
    requires Concluded(SupervisorResult.Recovered, lease, operationPid, start, began, acts, time, refused,
                       [Act.UnlinkMarker, Act.CloseLock], r)
    ensures Removals(acts) == Removals(start) + 1 && Succeeded(acts, time, lease, |start|, began, r)
    ensures RecoveredLast(acts, time, lease, from, operationPid, r)
  {
    hide CompleteWindow, Witnesses, ProofAvailable, ReceivedBy, ReadAs, Genuine, ReadsAfter;
    var reaped := acts[r.worker.reaped].time;
    forall made | ReadAs(r.window, made) && Genuine(made, r.since)
      ensures ReadsAfter(r.window, made, r.launchTime, reaped)
    {
      GenuineFollows(r.window, r.launchTime, r.since, made, reaped);
    }
  }

  /** Resume what is pending, or admit and run, or do nothing. */
  method Attempt(k: Kernel, lease: ControlLease, request: Request)
    returns (resumed: bool, report: Report, reaped: nat, samples: nat, duration: u64,
             ghost first: seq<Delivery>, ghost launched: u64, ghost recovery: Recovery, ghost why: Refusal)
    requires k.Valid() && k.pc == START
    modifies k, lease
    ensures fresh(report) && k.Valid() && k.pc == START && old(k.acts) <= k.acts
    ensures reaped == k.collected - old(k.collected)
    ensures k.operations == old(k.operations) + if report.operationPid > 0 then 1 else 0
    ensures old(k.time) <= k.time && old(k.errors) <= k.errors
    ensures report.result == SupervisorResult.Recovered ==>
              && k.removals == old(k.removals) + 1
              && RecoveredLast(k.acts, k.time, lease.Value(), |old(k.acts)|, report.operationPid, recovery)
    ensures report.result == SupervisorResult.Recovered && resumed ==>
              k.windows == old(k.windows) + 1 && report.operationPid == 0 && samples == 0
    ensures report.result == SupervisorResult.Recovered && !resumed ==>
              && k.windows == old(k.windows) + 2
              && WindowsApart(first, launched, recovery) && MinuteReported(samples, duration, first)
              && (report.operationPid > 0 || k.errors > old(k.errors) || k.time + LIMITS.operation > U64_MAX)
    ensures report.result != SupervisorResult.Recovered ==>
              && Refused(why, k.errors > old(k.errors), request, first, |old(k.acts)|, old(k.time), SightOf(k))
              && ReasonFits(why, resumed, request)
  {
    hide Kernel.Valid, MinuteReported, RecoveredLast, WindowsApart, Acquisition, Concluded, NotFree, Explained,
      CauseFits,
      Balanced, ObserverFailed, ClaimRefused;
    report := new Report();
    reaped, samples, duration := 0, 0, 0;
    first, launched, recovery, why := [], 0, NOTHING, Untried;
    var intent := ControlIntentRead(k);
    resumed := intent.Pending?;
    if resumed && !request.crash {
      LimitsFit();
      ghost var start, began, errors, owned, cause := k.acts, k.time, k.errors, false, NoCause;
      k.CountsRemovals();
      report, recovery, owned, cause := WorkerSupervisorResume(k, lease, BACKEND, LIMITS);
      k.CountsRemovals();
      reaped := report.reaped;
      why := if owned then ResumeFailed(cause) else NotOwned(true);
      if report.result == SupervisorResult.Recovered {
        RanLast(0, lease.Value(), start, began, k.acts, k.time, k.refused, recovery, |old(k.acts)|);
      } else if owned {
        ExplainedFrom(cause, k.errors > errors, LIMITS, ZERO, |start|, began, SceneOf(k), k.errors > old(k.errors), ZERO,
                      |old(k.acts)|, old(k.time), SceneOf(k));
      }
    } else if intent.Clear? && !request.resumeOnly {
      var admission;
      ghost var start, began, errors := k.acts, k.time, k.errors;
      admission, report, samples, duration, first, launched, recovery, why := AdmitAndRun(k, lease, request);
      reaped := admission.reaped + report.reaped;
      if report.result != SupervisorResult.Recovered {
        RefusedEarlier(why, k.errors > errors, request, first, |start|, began, SightOf(k), k.errors > old(k.errors),
                       |old(k.acts)|, old(k.time));
      }
    }
  }

  /** Nothing is tried, something is resumed, or something is run. */
  predicate ReasonFits(why: Refusal, resumed: bool, request: Request) {
    match why
    case Accepted => false
    case Untried => true
    case NotOwned(pending) => pending == resumed && !(if resumed then request.crash else request.resumeOnly)
    case ResumeFailed(_) => resumed && !request.crash
    case _ => !resumed && !request.resumeOnly
  }

  lemma {:induction false} RefusedEarlier(why: Refusal, failed: bool, request: Request, first: seq<Delivery>, from: nat,
                                          since: nat, s: Sight, failed': bool, from': nat, since': nat)
    requires Refused(why, failed, request, first, from, since, s)
    requires (failed ==> failed') && from' <= from && since' <= since
    ensures Refused(why, failed', request, first, from', since', s)
  {
    hide Explained, ObserverFailed, NotFree;
    match why
    case Unobserved(end) => StillFailed(failed, end, since, from, LIMITS, s.scene, failed', since', from', s.scene);
    case RunFailed(cause, held) =>
      ExplainedFrom(cause, failed, LIMITS, held, from, since, s.scene, failed', held, from', since', s.scene);
    case ResumeFailed(cause) =>
      ExplainedFrom(cause, failed, LIMITS, ZERO, from, since, s.scene, failed', ZERO, from', since', s.scene);
    case _ =>
  }

  /** The runner's main. Verified means that the marker is gone and that a recovery
      succeeded, after the operation if one was run. After a resume that is exactly one
      complete window and no operation; otherwise exactly two, disjoint in time, the
      second begun after every worker before it was reaped. The samples and durations
      reported are those of complete windows. Without a recovery there is a reason, which
      was in sight when the attempt ended.
   */
  method Probe(k: Kernel, request: Request)
    returns (r: Runner, ghost lease: Lease, ghost first: seq<Delivery>, ghost launched: u64, ghost recovery: Recovery,
             ghost why: Refusal, ghost tried: Sight)
    requires k.Valid() && k.pc == START
    modifies k
    ensures k.Valid() && k.pc == START && old(k.acts) <= k.acts
    ensures r.reaped == k.collected - old(k.collected)
    ensures k.operations == old(k.operations) + if r.operationPid > 0 then 1 else 0
    ensures r.state.Verified? ==>
              && k.view == Absent && k.removals == old(k.removals) + 1
              && RecoveredLast(k.acts, k.time, lease, |old(k.acts)|, r.operationPid, recovery)
              && MinuteReported(r.recoverySamples, r.recoveryDuration, recovery.window)
    ensures r.state.Verified? && r.resumed ==>
              k.windows == old(k.windows) + 1 && r.operationPid == 0 && r.admissionSamples == 0
    ensures r.state.Verified? && !r.resumed ==>
              && k.windows == old(k.windows) + 2
              && WindowsApart(first, launched, recovery) && MinuteReported(r.admissionSamples, r.admissionDuration, first)
              && (r.operationPid > 0 || k.errors > old(k.errors) || k.time + LIMITS.operation > U64_MAX)
    ensures r.state.NotRun? ==> k.view == Absent
    ensures r.state.StillPending? ==> k.errors > old(k.errors) || MarkerUnfit(k.view, false)
    ensures r.recoverySamples == 0 ==>
              && Refused(why, k.errors > old(k.errors), request, first, |old(k.acts)|, old(k.time), tried)
              && ReasonFits(why, r.resumed, request) && Later(tried.scene, SceneOf(k))
    ensures r.state.NotRun? ==> r.recoverySamples == 0
  {
    hide Kernel.Valid, MinuteReported, RecoveredLast, WindowsApart, Refused, ReasonFits;
    var memory := new ControlLease();
    var resumed, report, reaped, samples, duration;
    resumed, report, reaped, samples, duration, first, launched, recovery, why := Attempt(k, memory, request);
    lease := memory.Value();
    tried := SightOf(k);
    var recovered := report.result == SupervisorResult.Recovered;
    if recovered {
      LastReported(k.acts, k.time, lease, |old(k.acts)|, report.operationPid, recovery);
    }
    ghost var time, errors := k.time, k.errors;
    var left := ControlIntentRead(k);
    k.Callback();
    if recovered {
      StaysLast(k.acts, time, k.time, lease, |old(k.acts)|, report.operationPid, recovery);
    } else {
      RefusedEarlier(why, errors > old(k.errors), request, first, |old(k.acts)|, old(k.time), tried,
                     k.errors > old(k.errors), |old(k.acts)|, old(k.time));
    }
    r := Runner(
      if recovered && left.Clear? then RunnerState.Verified else if left.Clear? then NotRun else StillPending, resumed,
      samples, duration, report.operationPid, reaped,
      if recovered then memory.samples else 0, if recovered then WindowNs(memory.Value()) else 0);
    if recovered {
      SamplesReported(lease.samples, WindowNs(lease), recovery.window);
    }
  }

  lemma {:induction false} SamplesReported(samples: nat, duration: u64, window: seq<Delivery>)
    requires MinuteReported(samples, duration, window)
    ensures samples > 0
  {
  }

  lemma {:induction false} LastReported(acts: seq<Act>, time: nat, lease: Lease, from: nat, operationPid: int,
                                        r: Recovery)
    requires RecoveredLast(acts, time, lease, from, operationPid, r)
    ensures MinuteReported(lease.samples, WindowNs(lease), r.window)
  {
    WitnessReported(lease, r.window);
  }

  lemma {:induction false} StaysLast(acts: seq<Act>, time: nat, time': nat, lease: Lease, from: nat, operationPid: int,
                                     r: Recovery)
    requires RecoveredLast(acts, time, lease, from, operationPid, r) && time <= time'
    ensures RecoveredLast(acts, time', lease, from, operationPid, r)
  {
    hide CompleteWindow, Witnesses, ProofAvailable, OperationFirst, ReadsAfterAny;
  }
}
