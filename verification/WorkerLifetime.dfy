/** One worker at a time: forking it behind its durable record, waiting for it until
    its deadline, and making sure it is gone.
 */
module WorkerLifetime {
  import opened SmcBaseline
  import opened MinuteRule
  import opened LeaseSpec
  import opened OwnerProtocol
  import opened WorkerRecordText
  import opened SupervisorKernel
  import opened SupervisorOwnership

  datatype WorkerExit = NotStarted | Clean | Unclean | Crashed | TimedOut | Cancelled

  datatype SupervisorResult = Blocked | Recovered | RecoveryFailed | ObservationFailed | StopFailed | BaselineReady

  class Report {
    var result: SupervisorResult
    var operation: WorkerExit
    var operationPid: int
    var recoveryPid: int
    var observerPid: int
    var reaped: nat

    constructor ()
      ensures result == Blocked && operation == NotStarted && reaped == 0
      ensures operationPid == 0 && recoveryPid == 0 && observerPid == 0
    {
      result, operation, operationPid, recoveryPid, observerPid, reaped := Blocked, NotStarted, 0, 0, 0, 0;
    }
  }

  datatype Limits = Limits(operation: u64, recovery: u64, observation: u64, reap: u64)

  predicate LimitsValid(limits: Limits) {
    && 0 < limits.operation <= TTL_NS
    && 0 < limits.recovery <= 90 * SECOND
    && BASELINE_NS <= limits.observation <= 90 * SECOND
    && 0 < limits.reap <= 5 * SECOND
  }

  /** The exit says how the process ended. */
  predicate Tells(exit: WorkerExit, status: Status) {
    && (exit.Clean? <==> status == Exited(0)) && (exit.Crashed? <==> status.Signaled?)
    && (exit.Unclean? <==> status.Exited? && status.code != 0)
  }

  function Classify(status: Status): (exit: WorkerExit)
    ensures Tells(exit, status)
  {
    match status
    case Signaled => Crashed
    case Exited(code) => if code == 0 then Clean else Unclean
  }

  /** The trace grew by one reaping, and nothing else. */
  predicate ReapedOnce(before: seq<Act>, after: seq<Act>) {
    |after| == |before| + 1 && before <= after && after[|before|].Reap?
  }

  /** A deadline lies the whole duration after the current time, or there is none. */
  method DeadlineFor(k: Kernel, duration: u64) returns (deadline: Option<u64>)
    modifies k`calls, k`time, k`errors
    ensures old(k.time) <= k.time <= old(k.time) + k.step
    ensures deadline.Some? ==> deadline.value == k.time + duration && duration > 0
    ensures old(k.errors) <= k.errors
    ensures deadline.None? ==> k.errors > old(k.errors) || duration == 0 || k.time + duration > U64_MAX
  {
    var now := k.Now();
    if now == 0 || duration == 0 || now > U64_MAX - duration {
      return None;
    }
    return Some(now + duration);
  }

  // ---------------------------------------------------------------------------
  // Stopping
  // ---------------------------------------------------------------------------

  /** Kill the child, unless it has already ended, and collect it. True exactly if this
      process reaped it, which is counted once; without a kill it was reaped at once.
   */
  method StopAndReap(k: Kernel, child: int, reap: u64, report: Report) returns (ok: bool)
    requires k.Valid() && !k.pc.child.NoChild? && k.pc.child.pid == child
    modifies report`reaped, k`calls, k`time, k`errors, k`acts, k`pc, k`collected, k`kills
    ensures k.Valid()
    ensures ok ==> ReapedOnce(old(k.acts), k.acts) && report.reaped == old(report.reaped) + 1
    ensures ok ==> k.pc == After(old(k.pc), k.acts[|old(k.acts)|]) && k.collected == old(k.collected) + 1
    ensures !ok ==> k.acts == old(k.acts) && k.pc == old(k.pc) && report.reaped == old(report.reaped)
    ensures !ok ==> k.collected == old(k.collected)
    ensures old(k.time) <= k.time <= old(k.time) + reap + 1 + PAUSE_NS + 6 * k.step
    ensures old(k.kills) <= k.kills <= old(k.kills) + 1
    ensures ok && k.kills == old(k.kills) ==> k.time <= old(k.time) + 2 * k.step
    ensures old(k.errors) <= k.errors
    ensures !ok ==>
              || k.errors > old(k.errors) || child <= 0 || reap == 0 || k.time + reap > U64_MAX
              || (k.kills > old(k.kills) && k.time >= old(k.time) + reap)
    ensures ok ==> old(k.time) <= k.acts[|old(k.acts)|].time <= k.time
  {
    hide Kernel.Valid;
    if child <= 0 {
      return false;
    }
    var deadline := DeadlineFor(k, reap);
    if deadline.None? {
      return false;
    }
    var waited := k.WaitPid(child);
    if waited.Reaped? {
      report.reaped := report.reaped + 1;
      return true;
    }
    if waited.NotOurs? {
      return false;
    }
    var signal := k.Kill(child);
    if signal.Denied? {
      return false;
    }
    while true
      invariant k.Valid() && k.acts == old(k.acts) && k.pc == old(k.pc) && report.reaped == old(report.reaped)
      invariant k.collected == old(k.collected) && k.kills == old(k.kills) + 1 && old(k.errors) <= k.errors
      invariant old(k.time) <= k.time <= old(k.time) + reap + 1 + PAUSE_NS + 3 * k.step
      decreases deadline.value - k.time
    {
      waited := k.WaitPid(child);
      if waited.Reaped? {
        report.reaped := report.reaped + 1;
        return true;
      }
      if waited.NotOurs? {
        return false;
      }
      var now := k.Now();
      if now == 0 || now >= deadline.value {
        return false;
      }
      k.Pause(PAUSE_NS);
    }
  }

  function Max(a: int, b: int): int {
    if a >= b then a else b
  }

  /** The flag is up from then on. */
  ghost predicate UpFrom(flag: nat -> bool, since: nat) {
    forall t: nat | since <= t :: flag(t)
  }

  /** Once the flag stays up, no more than this passes. */
  ghost predicate Heeded(flag: nat -> bool, time: nat, began: nat, slack: nat) {
    forall up: nat | UpFrom(flag, up) :: time <= Max(began, up) + slack
  }

  lemma {:induction false} HeededLater(flag: nat -> bool, time: nat, began: nat, slack: nat, time': nat, began': nat)
    requires Heeded(flag, time, began, slack) && time' <= time && began <= began'
    ensures Heeded(flag, time', began', slack)
  {
    hide UpFrom;
  }

  /** Wait for the child until its deadline, then stop it. An exit first seen at the
      deadline or later is never a success: it is a timeout or a cancellation. Once the
      flag stays up, the wait is soon over.
   */
  method WaitPhase(k: Kernel, child: int, deadline: u64, reap: u64, cancellable: bool, report: Report)
    returns (stopped: bool, exit: WorkerExit)
    requires k.Valid() && !k.pc.child.NoChild? && k.pc.child.pid == child
    modifies report`reaped, k`calls, k`time, k`errors, k`acts, k`pc, k`collected, k`kills, k`raised
    ensures k.Valid()
    ensures stopped ==> ReapedOnce(old(k.acts), k.acts) && report.reaped == old(report.reaped) + 1
    ensures stopped ==> k.pc == After(old(k.pc), k.acts[|old(k.acts)|]) && k.collected == old(k.collected) + 1
    ensures !stopped ==> k.acts == old(k.acts) && k.pc == old(k.pc) && report.reaped == old(report.reaped)
    ensures !stopped ==> k.collected == old(k.collected)
    ensures exit.Clean? || exit.Unclean? || exit.Crashed? ==>
              && stopped && Tells(exit, k.acts[|old(k.acts)|].status)
              && k.acts[|old(k.acts)|].time < deadline + k.step && k.acts[|old(k.acts)|].time <= k.time
    ensures exit.NotStarted? ==> !stopped
    ensures k.raised == old(k.raised) + if exit.Cancelled? then 1 else 0
    ensures exit.Cancelled? ==> cancellable
    ensures cancellable ==> Heeded(k.flag, k.time, old(k.time), reap + 2 * (1 + PAUSE_NS) + 10 * k.step)
    ensures old(k.kills) <= k.kills && (k.kills > old(k.kills) ==> exit.TimedOut? || exit.Cancelled?)
    ensures old(k.time) <= k.time <= Max(old(k.time), deadline) + reap + 2 * (1 + PAUSE_NS) + 10 * k.step
    ensures old(k.errors) <= k.errors
    ensures exit.TimedOut? ==> k.errors > old(k.errors) || k.time >= deadline
    ensures exit.TimedOut? && stopped ==> k.errors > old(k.errors) || k.acts[|old(k.acts)|].time >= deadline
    ensures exit.NotStarted? ==> k.errors > old(k.errors)
    ensures stopped ==> old(k.time) <= k.acts[|old(k.acts)|].time <= k.time
    ensures !stopped ==>
              k.errors > old(k.errors) || child <= 0 || reap == 0 || k.time + reap > U64_MAX
              || (k.kills > old(k.kills) && k.time >= (if cancellable then old(k.time) else Max(old(k.time), deadline)) + reap)
  {
    hide Kernel.Valid;
    while true
      invariant k.Valid() && k.acts == old(k.acts) && k.pc == old(k.pc) && report.reaped == old(report.reaped)
      invariant k.collected == old(k.collected) && k.kills == old(k.kills) && old(k.errors) <= k.errors
      invariant k.raised == old(k.raised)
      invariant old(k.time) <= k.time <= Max(old(k.time), deadline) + 1 + PAUSE_NS + 2 * k.step
      invariant cancellable ==> Heeded(k.flag, k.time, old(k.time), 1 + PAUSE_NS + 2 * k.step)
      decreases deadline - k.time
    {
      k.Callback();
      var now := k.Now();
      var raised := false;
      if cancellable {
        raised := k.Flag();
      }
      if now == 0 || now >= deadline || raised {
        if cancellable && !raised {
          raised := k.Flag();
        }
        exit := if raised then Cancelled else TimedOut;
        stopped := StopAndReap(k, child, reap, report);
        return;
      }
      var waited := k.WaitPid(child);
      if waited.Reaped? {
        report.reaped := report.reaped + 1;
        return true, Classify(waited.status);
      }
      if waited.NotOurs? {
        return false, NotStarted;
      }
      k.Pause(PAUSE_NS);
    }
  }

  // ---------------------------------------------------------------------------
  // Starting
  // ---------------------------------------------------------------------------

  /** What recording and granting a forked worker leaves in the trace: as far as the
      calls succeeded and in this order, its record, the record's durability, its grant.
   */
  predicate Gated(before: seq<Act>, after: seq<Act>, child: int, granted: bool) {
    && child >= 0
    && (granted <==> after == before + [Act.RenameRecord(child), Act.SyncDirectory] + [Act.Grant])
    && (granted
        || after == before
        || after == before + [Act.RenameRecord(child)]
        || after == before + [Act.RenameRecord(child), Act.SyncDirectory])
  }

  /** The child is granted execution only after its record has become durable. */
  method GateWorker(k: Kernel, child: int) returns (granted: bool)
    requires k.Valid() && k.pc.child.Forked? && k.pc.child.pid == child && 0 < child <= INT_MAX
    modifies k`calls, k`time, k`patience, k`errors, k`next, k`nextSynced, k`acts, k`pc, k`refused
    ensures k.Valid() && old(k.acts) <= k.acts && Gated(old(k.acts), k.acts, child, granted)
    ensures k.pc.phase == old(k.pc.phase) && !k.pc.child.NoChild?
    ensures k.pc.child.pid == child && k.pc.child.kind == old(k.pc.child.kind) && k.pc.child.Granted? == granted
    ensures old(k.time) <= k.time <= old(k.time) + 42 * k.step + (old(k.patience) - k.patience)
    ensures k.patience <= old(k.patience)
    ensures old(k.errors) <= k.errors && (k.errors == old(k.errors) ==> granted)
  {
    hide Kernel.Valid;
    var recorded := OwnershipRecord(k, child);
    k.Callback();
    granted := false;
    if recorded {
      granted := k.Perform(Act.Grant);
    }
  }

  /** No child exists, or it is blocked or granted exactly as the trace says. */
  method SpawnWorker(k: Kernel, kind: Kind) returns (child: int, connected: bool)
    requires k.Valid() && k.pc.child.NoChild? && MayFork(k.pc.phase, kind)
    modifies k`calls, k`time, k`patience, k`errors, k`next, k`nextSynced, k`acts, k`pc, k`refused, k`spawned,
      k`operations
    ensures k.Valid() && old(k.acts) <= k.acts
    ensures child <= 0 ==> k.acts == old(k.acts) && k.pc == old(k.pc) && k.spawned == old(k.spawned) && !connected
    ensures child > 0 ==>
              Gated(old(k.acts) + [Act.Fork(kind, child)], k.acts, child, connected) && k.spawned == old(k.spawned) + 1
    ensures k.operations == old(k.operations) + if child > 0 && kind.Operate? then 1 else 0
    ensures child > 0 ==> !k.pc.child.NoChild? && k.pc.child.pid == child && k.pc.child.kind == kind
    ensures child > 0 ==> k.pc.child.Granted? == connected
    ensures child > 0 ==>
              k.pc.phase == match kind { case Operate => Operated case Recover => Recovering case Observe => old(k.pc).phase }
    ensures old(k.time) <= k.time <= old(k.time) + 50 * k.step + (old(k.patience) - k.patience)
    ensures k.patience <= old(k.patience)
    ensures old(k.errors) <= k.errors && (k.errors == old(k.errors) ==> child > 0 && connected)
  {
    hide Kernel.Valid, Gated;
    k.Callback();
    var paired := k.Try();
    if !paired {
      return -1, false;
    }
    var guarded := k.Try();
    if !guarded {
      return -1, false;
    }
    child := k.Fork(kind);
    if child < 0 {
      return child, false;
    }
    connected := GateWorker(k, child);
  }
}
