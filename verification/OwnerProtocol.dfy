/** What one supervisor process may do, as an automaton over the actions that other
    processes and later restarts can notice. The supervisor's code is proved to take
    no other action; the world of many owners is built from exactly these actions.
 */
module OwnerProtocol {
  import opened SmcBaseline
  import opened MinuteRule

  const MARKER: string := "Ventilator control pending: Mac15,7 macOS 27.0 v1\n"

  // ---------------------------------------------------------------------------
  // Observations
  // ---------------------------------------------------------------------------

  const MAX_READ_NS: u64 := 5_000_000_000
  const MAX_DELIVERY_NS: u64 := 2_000_000_000
  const PROGRESS_NS: u64 := MAX_READ_NS + MAX_DELIVERY_NS

  /** One record the observing worker writes to its pipe. */
  datatype Observation = Observation(started: u64, finished: u64, result: ReadResult, snapshot: Snapshot)

  /** A record and the time at which the supervisor had read all of it. */
  datatype Delivery = Delivery(observation: Observation, received: u64)

  /** A read begun after launch, at most five seconds long, delivered within two seconds. */
  predicate Prompt(d: Delivery, launched: u64) {
    && launched <= d.observation.started <= d.observation.finished
    && d.observation.finished - d.observation.started <= MAX_READ_NS
    && d.observation.finished <= d.received && d.received - d.observation.finished <= MAX_DELIVERY_NS
  }

  function FinishTimes(window: seq<Delivery>): (times: seq<int>)
    ensures |times| == |window|
  {
    seq(|window|, k requires 0 <= k < |window| => window[k].observation.finished)
  }

  /** Every read in the window was successful and showed system mode. */
  predicate AllSystem(window: seq<Delivery>) {
    forall k | 0 <= k < |window| ::
      window[k].observation.result == Ok && IsSystem(window[k].observation.snapshot)
  }

  /** No read began before the previous one had finished. */
  predicate NonOverlapping(window: seq<Delivery>) {
    forall k | 0 < k < |window| :: window[k - 1].observation.finished <= window[k].observation.started
  }

  /** Exactly 61 prompt, non-overlapping system reads making up a full minute. */
  predicate CompleteWindow(window: seq<Delivery>, launched: u64) {
    && |window| == REQUIRED_SAMPLES && AllSystem(window) && NonOverlapping(window)
    && (forall k | 0 <= k < |window| :: Prompt(window[k], launched))
    && FullMinute(FinishTimes(window))
  }

  /** Every record was received at this time or later. */
  predicate ReceivedSince(window: seq<Delivery>, since: nat) {
    forall k | 0 <= k < |window| :: since <= window[k].received
  }

  /** A read as it was: its record, and the times at which it really began and ended. */
  datatype Read = Read(observation: Observation, began: nat, ended: nat)

  /** Each clock field of the record is the time itself, or zero if the clock failed. */
  predicate Truthful(r: Read) {
    && r.began <= r.ended
    && (r.observation.started == 0 || r.observation.started == r.began)
    && (r.observation.finished == 0 || r.observation.finished == r.ended)
  }

  /** Reads of one process, one after another, none begun before this time. */
  predicate Genuine(made: seq<Read>, since: nat) {
    forall k | 0 <= k < |made| ::
      && Truthful(made[k]) && since <= made[k].began
      && (k > 0 ==> made[k - 1].ended <= made[k].began)
  }

  /** The last read had ended by then. */
  predicate EndedBy(made: seq<Read>, time: nat) {
    made != [] ==> made[|made| - 1].ended <= time
  }

  lemma {:induction false} GenuineGrows(made: seq<Read>, since: nat, r: Read)
    requires Genuine(made, since) && EndedBy(made, r.began) && Truthful(r) && since <= r.began
    ensures Genuine(made + [r], since)
  {
    var longer := made + [r];
    forall k | 0 <= k < |longer|
      ensures Truthful(longer[k]) && since <= longer[k].began && (k > 0 ==> longer[k - 1].ended <= longer[k].began)
    {
      assert k < |made| ==> longer[k] == made[k];
    }
  }

  /** The records of the window are those of the first reads. */
  predicate ReadAs(window: seq<Delivery>, made: seq<Read>) {
    |window| <= |made| && forall k | 0 <= k < |window| :: window[k].observation == made[k].observation
  }

  /** Every read really began after this time; and every record says when it began, except
      that the first may not know, if the clock failed at the launch too and this time was
      at most five seconds after the clock's zero.
   */
  predicate ReadsAfter(window: seq<Delivery>, made: seq<Read>, launched: u64, time: nat) {
    && |window| <= |made|
    && (forall k | 0 <= k < |window| :: made[k].began >= time)
    && (forall k | 0 < k < |window| :: window[k].observation.started == made[k].began)
    && (|window| > 0 && window[0].observation.started != made[0].began ==>
          window[0].observation.started == 0 && launched == 0 && time <= MAX_READ_NS)
  }

  /** A complete window that a supervisor can accept from an observer launched at time
      since, if the clock read as launched then: its first finish time is not zero, its
      records arrive after the launch, and a clock that could not be read counts as
      zero, which leaves seven seconds from its start for the first record.
   */
  predicate Receivable(window: seq<Delivery>, launched: u64, since: nat) {
    && CompleteWindow(window, launched) && window[0].observation.finished > 0
    && ReceivedSince(window, since) && (launched == 0 ==> since < PROGRESS_NS)
  }

  /** The reads of an observer forked after the launch follow all that went before it. */
  lemma {:induction false} GenuineFollows(window: seq<Delivery>, launched: u64, since: nat, made: seq<Read>, time: nat)
    requires Receivable(window, launched, since) && ReadAs(window, made) && Genuine(made, since) && time <= since
    ensures ReadsAfter(window, made, launched, time)
  {
    hide IsSystem;
    forall k | 0 < k < |window|
      ensures window[k].observation.started == made[k].began
    {
      FinishPositive(window, launched, k - 1);
      assert Truthful(made[k]);
    }
    assert Truthful(made[0]) && Prompt(window[0], launched);
  }

  lemma {:induction false} FinishPositive(window: seq<Delivery>, launched: u64, k: nat)
    requires CompleteWindow(window, launched) && window[0].observation.finished > 0 && k < |window|
    ensures window[k].observation.finished > 0
    decreases k
  {
    if k > 0 {
      var times := FinishTimes(window);
      FinishPositive(window, launched, k - 1);
      assert SAMPLE_MIN_NS <= times[k] - times[k - 1];
    }
  }

  // ---------------------------------------------------------------------------
  // The automaton
  // ---------------------------------------------------------------------------

  datatype Kind = Operate | Recover | Observe

  /** How a process ended, as waitpid reports it. */
  datatype Status = Exited(code: int) | Signaled

  predicate Success(s: Status) {
    s == Exited(0)
  }

  datatype Phase =
    | Outside                            // holds no lock
    | Opened(pending: bool)              // acquiring, in the order of the checks
    | Locked(pending: bool)
    | MarkerSeen(pending: bool)
    | WorkerAbsent(pending: bool)
    | Named(pending: bool)
    | Zeroed(pending: bool)              // a record of zero was renamed into place
    | Ready(pending: bool)               // and made durable: the lock is owned
    | Marking(written: string, synced: bool)
    | Marked                             // the marker is complete and durable
    | Operated                           // an operation worker was forked
    | Recovering                         // a recovery worker was forked
    | Recovered(at: nat)                 // it exited with zero and was reaped
    | Launched(recovering: bool, launched: u64, since: nat)  // an observation was launched at time since
    | Observed(recovering: bool, launched: u64, since: nat)  // the observer exited with zero and was reaped
    | Verified(launched: u64, since: nat)  // with a complete window, after recovery
    | BaselineReady                      // with a complete window, before any control
    | Unlinked                           // the marker was removed
    | Cleaning                           // the record was removed
    | Unlocked                           // the lock name was removed
    | Failed

  datatype Child =
    | NoChild
    | Forked(pid: nat, kind: Kind)       // blocked until it is granted execution
    | Renamed(pid: nat, kind: Kind)      // its record is in place
    | Recorded(pid: nat, kind: Kind)     // and durable
    | Granted(pid: nat, kind: Kind)

  datatype Pc = Pc(phase: Phase, child: Child)

  const START := Pc(Outside, NoChild)

  datatype Act =
    | OpenLock(expectPending: bool)
    | TakeLock
    | SeeMarker                          // the marker is as expected
    | SeeNoWorker                        // no recorded worker remains
    | CheckName                          // the lock name still denotes the locked file
    | RenameRecord(record: nat)
    | SyncDirectory
    | CreateMarker
    | WriteMarker(chunk: string)
    | SyncMarker
    | Fork(kind: Kind, pid: nat)
    | Grant
    | Reap(status: Status, time: nat)
    | Launch(launch: u64, time: nat)     // the clock reading, zero if it failed, and the time
    | Verify(window: seq<Delivery>)
    | UnlinkMarker
    | UnlinkRecord
    | UnlinkLock
    | CloseLock

  predicate MayFork(phase: Phase, kind: Kind) {
    match kind
    case Operate => phase.Marked?
    case Recover => phase.Marked? || phase.Operated? || phase == Ready(true)
    case Observe => phase.Launched?
  }

  predicate Allowed(pc: Pc, act: Act) {
    match act
    case OpenLock(_) => pc == START
    case TakeLock => pc.phase.Opened?
    case SeeMarker => pc.phase.Locked?
    case SeeNoWorker => pc.phase.MarkerSeen?
    case CheckName => pc.phase.WorkerAbsent?
    case RenameRecord(pid) =>
      if pc.child.NoChild? then pc.phase.Named? && pid == 0 else pc.child.Forked? && pid == pc.child.pid
    case SyncDirectory =>
      || pc.child.Renamed? || pc.phase.Zeroed? || pc.phase.Marking? || pc.phase.Unlinked?
      || pc.phase == Ready(false) || pc.phase.Cleaning? || pc.phase.Unlocked?
    case CreateMarker => pc == Pc(Ready(false), NoChild)
    case WriteMarker(_) => pc.phase.Marking?
    case SyncMarker => pc.phase.Marking?
    case Fork(kind, pid) => pc.child.NoChild? && pid > 0 && MayFork(pc.phase, kind)
    case Grant => pc.child.Recorded?
    case Reap(_, _) => !pc.child.NoChild?
    case Launch(launch, time) =>
      && pc.child.NoChild? && (launch == 0 || launch == time)
      && (pc.phase == Ready(false) || (pc.phase.Recovered? && pc.phase.at <= time))
    case Verify(window) => pc.phase.Observed? && pc.child.NoChild? && Receivable(window, pc.phase.launched, pc.phase.since)
    case UnlinkMarker => pc.phase.Verified? && pc.child.NoChild?
    case UnlinkRecord => pc == Pc(Ready(false), NoChild)
    case UnlinkLock => pc.child.NoChild? && (pc.phase == Ready(false) || pc.phase.Cleaning?)
    case CloseLock => !pc.phase.Outside?
  }

  function AfterReap(pc: Pc, status: Status, time: nat): Phase
    requires !pc.child.NoChild?
  {
    match pc.child.kind
    case Operate => pc.phase
    case Recover => if Success(status) then Recovered(time) else Failed
    case Observe =>
      if Success(status) && pc.phase.Launched? then Observed(pc.phase.recovering, pc.phase.launched, pc.phase.since)
      else Failed
  }

  function After(pc: Pc, act: Act): Pc
    requires Allowed(pc, act)
  {
    match act
    case OpenLock(pending) => Pc(Opened(pending), NoChild)
    case TakeLock => pc.(phase := Locked(pc.phase.pending))
    case SeeMarker => pc.(phase := MarkerSeen(pc.phase.pending))
    case SeeNoWorker => pc.(phase := WorkerAbsent(pc.phase.pending))
    case CheckName => pc.(phase := Named(pc.phase.pending))
    case RenameRecord(pid) =>
      if pc.child.Forked? then pc.(child := Renamed(pid, pc.child.kind)) else pc.(phase := Zeroed(pc.phase.pending))
    case SyncDirectory =>
      if pc.child.Renamed? then pc.(child := Recorded(pc.child.pid, pc.child.kind))
      else if pc.phase.Zeroed? then pc.(phase := Ready(pc.phase.pending))
      else if pc.phase == Marking(MARKER, true) then pc.(phase := Marked)
      else pc
    case CreateMarker => pc.(phase := Marking("", false))
    case WriteMarker(chunk) => pc.(phase := Marking(pc.phase.written + chunk, false))
    case SyncMarker => pc.(phase := Marking(pc.phase.written, true))
    case Fork(kind, pid) =>
      Pc(match kind { case Operate => Operated case Recover => Recovering case Observe => pc.phase }, Forked(pid, kind))
    case Grant => pc.(child := Granted(pc.child.pid, pc.child.kind))
    case Reap(status, time) => Pc(AfterReap(pc, status, time), NoChild)
    case Launch(launch, time) => pc.(phase := Launched(pc.phase.Recovered?, launch, time))
    case Verify(window) =>
      pc.(phase := if pc.phase.recovering then Verified(pc.phase.launched, pc.phase.since) else BaselineReady)
    case UnlinkMarker => pc.(phase := Unlinked)
    case UnlinkRecord => pc.(phase := Cleaning)
    case UnlinkLock => pc.(phase := Unlocked)
    case CloseLock => START
  }

  // ---------------------------------------------------------------------------
  // Runs of the automaton
  // ---------------------------------------------------------------------------

  /** Where a sequence of actions leads, if the automaton allows it. */
  function Position(acts: seq<Act>): Option<Pc> {
    if acts == [] then Some(START)
    else
      var before, act := Position(acts[..|acts| - 1]), acts[|acts| - 1];
      if before.Some? && Allowed(before.value, act) then Some(After(before.value, act)) else None
  }

  /** How many processes were forked. */
  function Spawned(acts: seq<Act>): nat {
    if acts == [] then 0 else Spawned(acts[..|acts| - 1]) + if acts[|acts| - 1].Fork? then 1 else 0
  }

  /** How many were reaped. */
  function Collected(acts: seq<Act>): nat {
    if acts == [] then 0 else Collected(acts[..|acts| - 1]) + if acts[|acts| - 1].Reap? then 1 else 0
  }

  /** How many of the forked processes were operation workers. */
  function Operations(acts: seq<Act>): nat {
    if acts == [] then 0
    else Operations(acts[..|acts| - 1]) + if acts[|acts| - 1].Fork? && acts[|acts| - 1].kind.Operate? then 1 else 0
  }

  /** How many complete windows were verified. */
  function Windows(acts: seq<Act>): nat {
    if acts == [] then 0 else Windows(acts[..|acts| - 1]) + if acts[|acts| - 1].Verify? then 1 else 0
  }

  /** How often the marker was removed. */
  function Removals(acts: seq<Act>): nat {
    if acts == [] then 0 else Removals(acts[..|acts| - 1]) + if acts[|acts| - 1].UnlinkMarker? then 1 else 0
  }

  /** A removal since the trace was this long is counted. */
  lemma {:induction false} RemovalCounted(acts: seq<Act>, from: nat, i: nat)
    requires from <= i < |acts| && acts[i].UnlinkMarker?
    ensures Removals(acts) > Removals(acts[..from])
    decreases |acts|
  {
    var before := acts[..|acts| - 1];
    if i < |before| {
      RemovalCounted(before, from, i);
      assert before[..from] == acts[..from];
    } else {
      RemovalsGrow(before, from);
      assert before[..from] == acts[..from];
    }
  }

  lemma {:induction false} RemovalsGrow(acts: seq<Act>, from: nat)
    requires from <= |acts|
    ensures Removals(acts) >= Removals(acts[..from])
    decreases |acts|
  {
    if from < |acts| {
      var before := acts[..|acts| - 1];
      RemovalsGrow(before, from);
      assert before[..from] == acts[..from];
    } else {
      assert acts[..from] == acts;
    }
  }

  lemma {:induction false} ActAppended(acts: seq<Act>, act: Act)
    ensures Spawned(acts + [act]) == Spawned(acts) + if act.Fork? then 1 else 0
    ensures Collected(acts + [act]) == Collected(acts) + if act.Reap? then 1 else 0
    ensures Operations(acts + [act]) == Operations(acts) + if act.Fork? && act.kind.Operate? then 1 else 0
    ensures Windows(acts + [act]) == Windows(acts) + if act.Verify? then 1 else 0
    ensures Removals(acts + [act]) == Removals(acts) + if act.UnlinkMarker? then 1 else 0
    ensures Position(acts).Some? && Allowed(Position(acts).value, act) ==>
              Position(acts + [act]) == Some(After(Position(acts).value, act))
  {
    var longer := acts + [act];
    assert longer[..|longer| - 1] == acts;
  }
}
