/** Many supervisor processes, their workers and the private directory they share.
    Processes may be killed between any two steps, workers may outlive their owner,
    and the machine may restart with any directory state since the last sync.
 */
module World {
  import opened SmcBaseline
  import opened MinuteRule
  import opened OwnerProtocol

  datatype WorkerRecord = NoRecord | RecordOf(pid: nat) | BadRecord

  /** The files that matter: the marker's contents and whether they are durable,
      the worker record, and the file the lock name denotes.
   */
  datatype Disk = Disk(marker: Option<string>, markerSynced: bool, record: WorkerRecord, lock: Option<nat>)

  /** When a read that is under way began, and what its clock said then. */
  datatype Begun = Begun(began: nat, started: u64)

  /** A forked process. It holds the lock file it inherited until it exits; an
      exited one remains in the process table until it is reaped. An observer has
      made some reads, and may be in the middle of one.
   */
  datatype Worker = Worker(
    owner: nat, lock: nat, kind: Kind, granted: bool, exit: Option<Status>, reading: Option<Begun>, made: seq<Read>)

  /** A supervisor process: its automaton, the lock file it opened, the events of its
      latest recovery, and what its latest observer wrote to the pipe.
   */
  datatype Owner = Owner(pc: Pc, lock: nat, recoverAt: nat, reapAt: nat, windowAt: nat, made: seq<Read>)

  datatype Event =
    | GrantedTo(pid: nat, kind: Kind)
    | ReapedOk(pid: nat, kind: Kind, time: nat)
    | WindowSeen(window: seq<Delivery>, launched: u64, since: nat, made: seq<Read>)
    | MarkerUnlinked

  /** disks holds every directory state since the last sync; the last one is visible. */
  datatype World = World(
    disks: seq<Disk>,
    nextLock: nat,
    owners: map<nat, Owner>,
    workers: map<nat, Worker>,
    history: seq<Event>,
    now: nat)

  predicate Live(w: World, p: nat) {
    p in w.workers && w.workers[p].exit.None?
  }

  function Visible(w: World): Disk
    requires |w.disks| > 0
  {
    w.disks[|w.disks| - 1]
  }

  /** The owner's descriptor holds the exclusive lock on its lock file. */
  predicate HoldsLock(pc: Pc) {
    !pc.phase.Outside? && !pc.phase.Opened?
  }

  /** No descriptor but possibly o's own, in no process, holds a lock on this file. */
  predicate LockFree(w: World, o: nat, lock: nat) {
    && (forall o' | o' in w.owners && o' != o && HoldsLock(w.owners[o'].pc) :: w.owners[o'].lock != lock)
    && (forall p | p in w.workers && Live(w, p) :: w.workers[p].lock != lock)
  }

  /** What old_worker_absent can be satisfied by. */
  predicate WorkerGone(w: World, d: Disk, pending: bool) {
    match d.record
    case NoRecord => !pending
    case RecordOf(pid) => pid == 0 || pid !in w.workers
    case BadRecord => false
  }

  /** The pipe delivers the records in order, each after it was written. */
  predicate Delivered(window: seq<Delivery>, made: seq<Read>, now: nat) {
    ReadAs(window, made) && forall k | 0 <= k < |window| :: made[k].ended <= window[k].received <= now
  }

  // ---------------------------------------------------------------------------
  // Steps of an owner
  // ---------------------------------------------------------------------------

  /** When the kernel can let owner o perform an action its automaton allows. */
  predicate Enabled(w: World, o: nat, act: Act)
    requires |w.disks| > 0
  {
    o in w.owners && Allowed(w.owners[o].pc, act) &&
    var pc, d, lock := w.owners[o].pc, Visible(w), w.owners[o].lock;
    match act
    case TakeLock => LockFree(w, o, lock)
    case SeeMarker => d.marker == if pc.phase.pending then Some(MARKER) else None
    case SeeNoWorker => WorkerGone(w, d, pc.phase.pending)
    case CheckName => d.lock == Some(lock)
    case CreateMarker => d.marker.None?
    case WriteMarker(_) => d.marker.Some?
    case SyncMarker => d.marker.Some?
    case Fork(_, pid) => pid !in w.workers
    case Reap(status, time) =>
      && pc.child.pid in w.workers && w.workers[pc.child.pid].owner == o
      && w.workers[pc.child.pid].exit == Some(status) && time == w.now
    case Launch(_, time) => time == w.now
    case Verify(window) => Delivered(window, w.owners[o].made, w.now)
    case UnlinkMarker => d.marker.Some?
    case _ => true
  }

  lemma {:induction false} ActEnabled(w: World, o: nat, act: Act)
    requires |w.disks| > 0 && Enabled(w, o, act)
    ensures o in w.owners && Allowed(w.owners[o].pc, act)
  {
  }

  /** The action's effect on the directory. */
  function DiskAfter(w: World, act: Act): seq<Disk>
    requires |w.disks| > 0
  {
    var d := Visible(w);
    match act
    case OpenLock(_) => if d.lock.None? then w.disks + [d.(lock := Some(w.nextLock))] else w.disks
    case RenameRecord(pid) => w.disks + [d.(record := RecordOf(pid))]
    case SyncDirectory => [d]
    case CreateMarker => w.disks + [d.(marker := Some(""), markerSynced := false)]
    case WriteMarker(chunk) => w.disks + [d.(marker := Some(d.marker.GetOr("") + chunk), markerSynced := false)]
    case SyncMarker => w.disks + [d.(markerSynced := true)]
    case UnlinkMarker => w.disks + [d.(marker := None, markerSynced := true)]
    case UnlinkRecord => w.disks + [d.(record := NoRecord)]
    case UnlinkLock => w.disks + [d.(lock := None)]
    case _ => w.disks
  }

  function WorkersAfter(w: World, o: nat, act: Act): map<nat, Worker>
    requires |w.disks| > 0 && Enabled(w, o, act)
  {
    var pc := w.owners[o].pc;
    match act
    case Fork(kind, pid) => w.workers[pid := Worker(o, w.owners[o].lock, kind, false, None, None, [])]
    case Grant =>
      if pc.child.pid in w.workers then w.workers[pc.child.pid := w.workers[pc.child.pid].(granted := true)]
      else w.workers
    case Reap(_, _) => w.workers - {pc.child.pid}
    case _ => w.workers
  }

  function HistoryAfter(w: World, o: nat, act: Act): seq<Event>
    requires |w.disks| > 0 && Enabled(w, o, act)
  {
    var pc := w.owners[o].pc;
    match act
    case Grant => w.history + [GrantedTo(pc.child.pid, pc.child.kind)]
    case Reap(status, time) => if Success(status) then w.history + [ReapedOk(pc.child.pid, pc.child.kind, time)] else w.history
    case Verify(window) => w.history + [WindowSeen(window, pc.phase.launched, pc.phase.since, w.owners[o].made)]
    case UnlinkMarker => w.history + [MarkerUnlinked]
    case _ => w.history
  }

  function OwnerAfter(w: World, o: nat, act: Act): Owner
    requires |w.disks| > 0 && Enabled(w, o, act)
  {
    var s := w.owners[o];
    var t := s.(pc := After(s.pc, act));
    match act
    case OpenLock(_) => t.(lock := Visible(w).lock.GetOr(w.nextLock))
    case Grant => if s.pc.child.kind.Recover? then t.(recoverAt := |w.history|) else t
    case Reap(_, _) =>
      if s.pc.child.kind.Recover? then t.(reapAt := |w.history|)
      else if s.pc.child.kind.Observe? && s.pc.child.pid in w.workers then t.(made := w.workers[s.pc.child.pid].made)
      else t
    case Verify(_) => t.(windowAt := |w.history|)
    case _ => t
  }

  function Perform(w: World, o: nat, act: Act): World
    requires |w.disks| > 0 && Enabled(w, o, act)
  {
    World(DiskAfter(w, act),
          if act.OpenLock? && Visible(w).lock.None? then w.nextLock + 1 else w.nextLock,
          w.owners[o := OwnerAfter(w, o, act)],
          WorkersAfter(w, o, act),
          HistoryAfter(w, o, act),
          w.now)
  }

  // ---------------------------------------------------------------------------
  // Steps of everything else
  // ---------------------------------------------------------------------------

  datatype Step =
    | Arrive(o: nat)                  // a new supervisor process
    | Act(o: nat, act: Act)
    | Crash(o: nat)                   // killed, or its lifetime check made it exit
    | Exit(pid: nat, status: Status)  // a worker ends; before its grant it cannot succeed
    | BeginRead(pid: nat, clock: u64) // an observer begins a read; its clock may fail
    | EndRead(pid: nat, clock: u64, result: ReadResult, snapshot: Snapshot)
    | Collect(pid: nat)               // init reaps an orphan
    | Pass(now: nat)                  // time passes
    | Restart(marker: nat, record: nat, lock: nat, content: string, now: nat)

  /** What a restart finds: each of the three names as it was at some time since the last
      sync, whatever became of the others, and any contents if they were not synced.
   */
  function Recovered(marker: Disk, record: Disk, lock: Disk, content: string): Disk {
    Disk(if marker.marker.Some? && !marker.markerSynced then Some(content) else marker.marker,
         true, record.record, lock.lock)
  }

  /** A reading of the clock, or zero if it failed. */
  predicate Clock(reading: u64, now: nat) {
    reading == 0 || reading == now
  }

  predicate CanStep(w: World, step: Step)
    requires |w.disks| > 0
  {
    match step
    case Arrive(o) => o !in w.owners
    case Act(o, act) => Enabled(w, o, act)
    case Crash(o) => o in w.owners
    case Exit(p, status) => Live(w, p) && (Success(status) ==> w.workers[p].granted)
    case BeginRead(p, clock) =>
      Live(w, p) && w.workers[p].granted && w.workers[p].kind.Observe? && w.workers[p].reading.None? && Clock(clock, w.now)
    case EndRead(p, clock, _, _) => Live(w, p) && w.workers[p].reading.Some? && Clock(clock, w.now)
    case Collect(p) => p in w.workers && !Live(w, p) && w.workers[p].owner !in w.owners
    case Pass(now) => w.now <= now
    case Restart(i, j, k, _, _) => i < |w.disks| && j < |w.disks| && k < |w.disks|
  }

  function Successor(w: World, step: Step): (w': World)
    requires |w.disks| > 0 && CanStep(w, step)
    ensures |w'.disks| > 0
  {
    match step
    case Arrive(o) => w.(owners := w.owners[o := Owner(START, 0, 0, 0, 0, [])])
    case Act(o, act) => Perform(w, o, act)
    case Crash(o) => w.(owners := w.owners - {o})
    case Exit(p, status) => w.(workers := w.workers[p := w.workers[p].(exit := Some(status))])
    case BeginRead(p, clock) => w.(workers := w.workers[p := w.workers[p].(reading := Some(Begun(w.now, clock)))])
    case EndRead(p, clock, result, snapshot) =>
      var b := w.workers[p].reading.value;
      var r := Read(Observation(b.started, clock, result, snapshot), b.began, w.now);
      w.(workers := w.workers[p := w.workers[p].(reading := None, made := w.workers[p].made + [r])])
    case Collect(p) => w.(workers := w.workers - {p})
    case Pass(now) => w.(now := now)
    case Restart(i, j, k, content, now) =>
      World([Recovered(w.disks[i], w.disks[j], w.disks[k], content)], w.nextLock, map[], map[], w.history, now)
  }

  /** Nobody runs, nothing is pending, and nothing has happened; the record and
      the lock name may be left over from anything.
   */
  predicate Initial(w: World) {
    && |w.disks| == 1 && w.disks[0].marker.None? && (w.disks[0].lock.Some? ==> w.disks[0].lock.value < w.nextLock)
    && w.owners == map[] && w.workers == map[] && w.history == []
  }

  /** The world after a run of steps, each possible when it is taken. */
  predicate Runs(w: World, steps: seq<Step>)
    requires |w.disks| > 0
    decreases steps
  {
    steps == [] || (CanStep(w, steps[0]) && Runs(Successor(w, steps[0]), steps[1..]))
  }

  function EndOf(w: World, steps: seq<Step>): (w': World)
    requires |w.disks| > 0 && Runs(w, steps)
    ensures |w'.disks| > 0
    decreases steps
  {
    if steps == [] then w else EndOf(Successor(w, steps[0]), steps[1..])
  }
}
