/** The operating system as one supervisor process meets it. Its answers are an
    arbitrary function of the call's number: calls may fail, be interrupted, deliver
    bytes in any chunks and let any bounded time pass. What the process does that
    others can notice is appended to a ghost trace; every such call demands that the
    supervisor's protocol allows it.
 */
module SupervisorKernel {
  import opened SmcBaseline
  import opened MinuteRule
  import opened OwnerProtocol
  import opened WorkerRecordText

  const PAUSE_NS := 10_000_000

  /** How a read or a write of some bytes ended; a read of none is the end of the file. */
  datatype Transfer = Moved(count: nat) | Interrupted | Broken

  datatype Found = Missing | Refused | Present

  datatype Waited = Running | Reaped(status: Status) | WaitInterrupted | NotOurs

  datatype Signal = Sent | NoProcess | Denied

  /** What this process has learned of the marker since it last opened it. */
  datatype MarkerView = NotLooked | Absent | Found | Inexact | Contents(text: string, ended: bool)

  /** The whole marker was read. */
  const SEEN_PENDING := Contents(MARKER, false)

  /** Something other than the marker was there: no private file of its length, or its
      whole contents were read and differ.
   */
  predicate SeenOther(view: MarkerView) {
    view.Inexact? || (view.Contents? && view.text != MARKER && (view.ended || |view.text| >= |MARKER|))
  }

  /** What it has learned of the worker record. */
  datatype RecordView = RecordNotRead | NoRecordFile | RecordFound | RecordUnusable | RecordHolds(text: string)

  /** What it has learned of the process that the record names. */
  datatype Probe = NotProbed | Gone(pid: Pid) | MayLive(pid: Pid)

  /** The reading shows that no recorded worker remains. */
  ghost predicate AbsenceShown(view: RecordView, probe: Probe, pending: bool) {
    match view
    case NoRecordFile => !pending
    case RecordHolds(text) => Names(text, 0) || (probe.Gone? && Names(text, probe.pid))
    case _ => false
  }

  /** The reading shows that a recorded worker may remain. */
  ghost predicate PresenceShown(view: RecordView, probe: Probe, pending: bool) {
    match view
    case NoRecordFile => pending
    case RecordUnusable => true
    case RecordHolds(text) =>
      || (forall pid: Pid :: !Names(text, pid))
      || (probe.MayLive? && probe.pid != 0 && Names(text, probe.pid))
    case _ => false
  }

  datatype Answer = Answer(
    elapsed: nat, ok: bool, interrupted: bool, count: nat, text: string, bytes: seq<Byte>,
    pid: Pid, status: Status)

  class Kernel {
    const script: nat -> Answer
    const layout: seq<Byte> -> Observation  // how a record's bytes are laid out in memory
    const flag: nat -> bool     // the cancel flag at each time
    const step: nat             // no call takes longer; a pause, no longer than this beyond its duration
    var calls: nat
    var patience: nat           // time that interrupted transfers may still take, each at least one
    var time: nat               // of the monotonic clock
    ghost var errors: nat       // failed calls
    ghost var acts: seq<Act>
    ghost var pc: Pc
    ghost var spawned: nat          // children forked
    ghost var collected: nat        // and reaped
    ghost var operations: nat       // children that were operation workers
    ghost var windows: nat          // complete windows verified
    ghost var removals: nat         // removals of the marker
    ghost var refused: Option<Act>  // the latest of its actions that the system refused
    ghost var kills: nat            // times the child was killed, or found to have ended when it was to be
    ghost var view: MarkerView
    ghost var record: RecordView
    ghost var probe: Probe
    ghost var next: Option<string>  // contents of the record being composed
    ghost var nextSynced: bool
    ghost var stream: seq<Byte>     // everything read from the observer's pipe
    ghost var ended: bool           // its end was read
    ghost var raised: nat           // times the cancel flag was seen raised

    /** The trace is one the protocol allows, and this is where it has led. */
    ghost predicate Valid()
      reads `acts, `pc, `spawned, `collected, `operations, `windows, `removals
    {
      && Position(acts) == Some(pc)
      && spawned == Spawned(acts) && collected == Collected(acts)
      && operations == Operations(acts) && windows == Windows(acts) && removals == Removals(acts)
    }

    constructor (script: nat -> Answer, layout: seq<Byte> -> Observation, flag: nat -> bool, step: nat, patience: nat,
                 time: nat)
      ensures Valid() && acts == [] && pc == START && this.script == script && this.layout == layout
      ensures this.flag == flag && this.step == step && this.time == time
    {
      this.layout, this.flag := layout, flag;
      this.script, this.step, this.patience, this.time := script, step, patience, time;
      calls, errors, acts, pc, spawned, collected, operations, windows := 0, 0, [], START, 0, 0, 0, 0;
      removals, refused, kills := 0, None, 0;
      view, record, probe, next, nextSynced := NotLooked, RecordNotRead, NotProbed, None, false;
      stream, ended, raised := [], false, 0;
    }

    /** The answer to the next call, which takes some time. */
    method Ask() returns (answer: Answer)
      modifies `calls, `time
      ensures old(time) <= time <= old(time) + step
    {
      answer := script(calls);
      calls := calls + 1;
      time := time + if answer.elapsed <= step then answer.elapsed else step;
    }

    ghost method Record(act: Act)
      requires Valid() && Allowed(pc, act) && !act.Fork? && !act.Reap? && !act.Verify? && !act.UnlinkMarker?
      modifies `acts, `pc
      ensures Valid() && acts == old(acts) + [act] && pc == After(old(pc), act)
    {
      ActAppended(acts, act);
      acts, pc := acts + [act], After(pc, act);
    }

    ghost method RecordFork(kind: Kind, child: nat)
      requires Valid() && Allowed(pc, Act.Fork(kind, child))
      modifies `acts, `pc, `spawned, `operations
      ensures Valid() && acts == old(acts) + [Act.Fork(kind, child)] && pc == After(old(pc), Act.Fork(kind, child))
      ensures spawned == old(spawned) + 1 && operations == old(operations) + if kind.Operate? then 1 else 0
    {
      ActAppended(acts, Act.Fork(kind, child));
      operations := operations + if kind.Operate? then 1 else 0;
      acts, pc, spawned := acts + [Act.Fork(kind, child)], After(pc, Act.Fork(kind, child)), spawned + 1;
    }

    ghost method RecordReap(status: Status)
      requires Valid() && Allowed(pc, Act.Reap(status, time))
      modifies `acts, `pc, `collected
      ensures Valid() && acts == old(acts) + [Act.Reap(status, time)] && pc == After(old(pc), Act.Reap(status, time))
      ensures collected == old(collected) + 1
    {
      ActAppended(acts, Act.Reap(status, time));
      acts, pc, collected := acts + [Act.Reap(status, time)], After(pc, Act.Reap(status, time)), collected + 1;
    }

    // -------------------------------------------------------------------------
    // Time
    // -------------------------------------------------------------------------

    /** The monotonic clock; zero if it cannot be read. */
    method Now() returns (now: u64)
      modifies `calls, `time, `errors
      ensures old(time) <= time <= old(time) + step
      ensures now == 0 || now == time
      ensures errors == old(errors) + if now == 0 then 1 else 0
    {
      var answer := Ask();
      now := if answer.ok && time <= U64_MAX then time else 0;
      if now == 0 {
        errors := errors + 1;
      }
    }

    /** A pause may end early, but the clock advances. */
    method Pause(duration: nat)
      modifies `calls, `time
      ensures old(time) < time <= old(time) + 1 + duration + step
    {
      var answer := script(calls);
      calls := calls + 1;
      time := time + 1 + if answer.elapsed <= duration + step then answer.elapsed else duration + step;
    }

    /** A callback of the owner in this process. It may end the process instead,
        which is a crash between two steps.
     */
    method Callback()
      modifies `calls, `time
      ensures old(time) <= time <= old(time) + step
    {
      var _ := Ask();
    }

    /** Any call of which only success or failure matters. */
    method Try() returns (ok: bool)
      modifies `calls, `time, `errors
      ensures old(time) <= time <= old(time) + step
      ensures errors == old(errors) + if ok then 0 else 1
    {
      var answer := Ask();
      ok := answer.ok;
      if !ok {
        errors := errors + 1;
      }
    }

    /** Actions that are one call of the system, which may fail. */
    static predicate Plain(act: Act) {
      act.OpenLock? || act.CheckName? || act.SyncDirectory? || act.CreateMarker? || act.SyncMarker?
      || act.UnlinkRecord? || act.UnlinkLock? || act.Grant?
    }

    method Perform(act: Act) returns (ok: bool)
      requires Valid() && Plain(act) && Allowed(pc, act)
      modifies `calls, `time, `errors, `acts, `pc, `refused
      ensures Valid() && old(time) <= time <= old(time) + step
      ensures acts == old(acts) + if ok then [act] else []
      ensures pc == if ok then After(old(pc), act) else old(pc)
      ensures refused == if ok then old(refused) else Some(act)
      ensures errors == old(errors) + if ok then 0 else 1
    {
      ok := Try();
      if ok {
        Record(act);
      } else {
        refused := Some(act);
      }
    }

    method RemoveMarker() returns (ok: bool)
      requires Valid() && Allowed(pc, Act.UnlinkMarker)
      modifies `calls, `time, `errors, `acts, `pc, `removals
      ensures Valid() && old(time) <= time <= old(time) + step
      ensures acts == old(acts) + if ok then [Act.UnlinkMarker] else []
      ensures pc == if ok then After(old(pc), Act.UnlinkMarker) else old(pc)
      ensures removals == old(removals) + if ok then 1 else 0
      ensures errors == old(errors) + if ok then 0 else 1
    {
      ok := Try();
      if ok {
        ActAppended(acts, Act.UnlinkMarker);
        acts, pc, removals := acts + [Act.UnlinkMarker], After(pc, Act.UnlinkMarker), removals + 1;
      }
    }

    /** Removals are counted by what is in the trace. */
    lemma {:induction false} CountsRemovals()
      requires Valid()
      ensures removals == Removals(acts)
    {
    }

    /** A flag another thread or a signal handler may set. */
    method Flag() returns (up: bool)
      modifies `raised
      ensures up == flag(time) && raised == old(raised) + if up then 1 else 0
    {
      up := flag(time);
      raised := raised + if up then 1 else 0;
    }

    /** A transfer of at most max bytes. */
    method Transfer(max: nat) returns (outcome: Transfer, answer: Answer)
      modifies `calls, `time, `patience, `errors
      ensures old(time) <= time <= old(time) + step
      ensures outcome.Moved? ==> outcome.count <= max
      ensures outcome.Interrupted? ==> patience + (time - old(time)) < old(patience)
      ensures !outcome.Interrupted? ==> patience == old(patience)
      ensures errors == old(errors) + if outcome.Broken? then 1 else 0
    {
      var before := time;
      answer := Ask();
      if answer.interrupted && patience > time - before {
        patience := patience - (time - before) - 1;
        outcome := Interrupted;
      } else if answer.ok {
        outcome := Moved(if answer.count <= max then answer.count else max);
      } else {
        errors := errors + 1;
        outcome := Broken;
      }
    }

    // -------------------------------------------------------------------------
    // The marker
    // -------------------------------------------------------------------------

    method OpenMarker() returns (found: Found)
      modifies `calls, `time, `errors, `view
      ensures old(time) <= time <= old(time) + step
      ensures errors == old(errors) + if found.Refused? then 1 else 0
      ensures view == match found case Missing => Absent case Refused => NotLooked case Present => MarkerView.Found
    {
      var answer := Ask();
      found := if answer.ok then Present else if answer.interrupted then Missing else Refused;
      if found.Refused? {
        errors := errors + 1;
      }
      view := match found case Missing => Absent case Refused => NotLooked case Present => MarkerView.Found;
    }

    /** A private regular file of the marker's length. */
    method MarkerExact() returns (exact: bool)
      requires view.Found?
      modifies `calls, `time, `view
      ensures old(time) <= time <= old(time) + step
      ensures view == if exact then Contents("", false) else Inexact
    {
      var answer := Ask();
      exact := answer.ok;
      view := if exact then Contents("", false) else Inexact;
    }

    method ReadMarker(max: nat) returns (outcome: Transfer, chunk: string)
      requires view.Contents? && max > 0
      modifies `calls, `time, `patience, `errors, `view
      ensures old(time) <= time <= old(time) + step
      ensures outcome.Moved? ==> outcome.count <= max && |chunk| == outcome.count
      ensures view == if outcome.Moved? then Contents(old(view).text + chunk, old(view).ended || chunk == "") else old(view)
      ensures outcome.Interrupted? ==> patience + (time - old(time)) < old(patience)
      ensures !outcome.Interrupted? ==> patience == old(patience)
      ensures errors == old(errors) + if outcome.Broken? then 1 else 0
    {
      var answer;
      outcome, answer := Transfer(max);
      chunk := "";
      if outcome.Moved? {
        if |answer.text| < outcome.count {
          outcome := Moved(|answer.text|);
        }
        chunk := answer.text[..outcome.count];
        view := Contents(view.text + chunk, view.ended || chunk == "");
      }
    }

    method WriteMarker(text: string) returns (outcome: Transfer)
      requires Valid() && pc.phase.Marking?
      modifies `calls, `time, `patience, `errors, `acts, `pc
      ensures Valid() && old(time) <= time <= old(time) + step
      ensures outcome.Moved? ==> outcome.count <= |text|
      ensures acts == old(acts) + if outcome.Moved? then [Act.WriteMarker(text[..outcome.count])] else []
      ensures pc == if outcome.Moved? then After(old(pc), Act.WriteMarker(text[..outcome.count])) else old(pc)
      ensures outcome.Interrupted? ==> patience + (time - old(time)) < old(patience)
      ensures !outcome.Interrupted? ==> patience == old(patience)
      ensures errors == old(errors) + if outcome.Broken? || outcome == Moved(0) then 1 else 0
    {
      var answer;
      outcome, answer := Transfer(|text|);
      if outcome.Moved? {
        Record(Act.WriteMarker(text[..outcome.count]));
      }
      if outcome == Moved(0) {
        errors := errors + 1;
      }
    }

    // -------------------------------------------------------------------------
    // The owner lock
    // -------------------------------------------------------------------------

    /** What was seen before the lock was taken counts no longer. */
    method TakeLock() returns (ok: bool)
      requires Valid() && Allowed(pc, Act.TakeLock)
      modifies `calls, `time, `errors, `acts, `pc, `refused, `view, `record, `probe
      ensures Valid() && old(time) <= time <= old(time) + step
      ensures acts == old(acts) + if ok then [Act.TakeLock] else []
      ensures pc == if ok then After(old(pc), Act.TakeLock) else old(pc)
      ensures refused == if ok then old(refused) else Some(Act.TakeLock)
      ensures errors == old(errors) + if ok then 0 else 1
      ensures view == NotLooked && record == RecordNotRead && probe == NotProbed
    {
      ok := Try();
      view, record, probe := NotLooked, RecordNotRead, NotProbed;
      if ok {
        Record(Act.TakeLock);
      } else {
        refused := Some(Act.TakeLock);
      }
    }

    /** The marker was read as expected. */
    ghost method SeeMarker()
      requires Valid() && pc.phase.Locked?
      requires view == if pc.phase.pending then SEEN_PENDING else Absent
      modifies `acts, `pc
      ensures Valid() && acts == old(acts) + [Act.SeeMarker] && pc == After(old(pc), Act.SeeMarker)
    {
      Record(Act.SeeMarker);
    }

    method OpenRecord() returns (found: Found)
      modifies `calls, `time, `record, `probe
      ensures old(time) <= time <= old(time) + step && probe == NotProbed
      ensures record == match found case Missing => NoRecordFile case Refused => RecordUnusable case Present => RecordFound
    {
      var answer := Ask();
      found := if answer.ok then Present else if answer.interrupted then Missing else Refused;
      probe := NotProbed;
      record := match found case Missing => NoRecordFile case Refused => RecordUnusable case Present => RecordFound;
    }

    /** The text of a private record that was read whole. */
    method ReadRecord() returns (text: Option<string>)
      requires record.RecordFound?
      modifies `calls, `time, `record
      ensures old(time) <= time <= old(time) + step
      ensures record == if text.Some? then RecordHolds(text.value) else RecordUnusable
    {
      var answer := Ask();
      text := if answer.ok && answer.text != "" then Some(answer.text) else None;
      record := if text.Some? then RecordHolds(text.value) else RecordUnusable;
    }

    /** No process of this identifier exists. */
    method ProcessGone(pid: Pid) returns (absent: bool)
      modifies `calls, `time, `probe
      ensures old(time) <= time <= old(time) + step
      ensures probe == if absent then Gone(pid) else MayLive(pid)
    {
      var answer := Ask();
      absent := answer.ok;
      probe := if absent then Gone(pid) else MayLive(pid);
    }

    ghost method SeeNoWorker()
      requires Valid() && pc.phase.MarkerSeen? && AbsenceShown(record, probe, pc.phase.pending)
      modifies `acts, `pc
      ensures Valid() && acts == old(acts) + [Act.SeeNoWorker] && pc == After(old(pc), Act.SeeNoWorker)
    {
      Record(Act.SeeNoWorker);
    }

    method CloseLock()
      requires Valid() && !pc.phase.Outside?
      modifies `calls, `time, `acts, `pc
      ensures Valid() && old(time) <= time <= old(time) + step
      ensures acts == old(acts) + [Act.CloseLock] && pc == START
    {
      var _ := Ask();
      Record(Act.CloseLock);
    }

    // -------------------------------------------------------------------------
    // The worker record
    // -------------------------------------------------------------------------

    /** Open or create the file the next record is composed in. */
    method OpenNext() returns (ok: bool)
      modifies `calls, `time, `errors, `next, `nextSynced
      ensures old(time) <= time <= old(time) + step && next == None && !nextSynced
      ensures errors == old(errors) + if ok then 0 else 1
    {
      var answer := Ask();
      ok := answer.ok;
      next, nextSynced := None, false;
      if !ok {
        errors := errors + 1;
      }
    }

    method TruncateNext() returns (ok: bool)
      modifies `calls, `time, `errors, `next
      ensures old(time) <= time <= old(time) + step && (ok ==> next == Some(""))
      ensures errors == old(errors) + if ok then 0 else 1
    {
      var answer := Ask();
      ok := answer.ok;
      next := if ok then Some("") else None;
      if !ok {
        errors := errors + 1;
      }
    }

    method WriteNext(text: string) returns (outcome: Transfer)
      requires next.Some?
      modifies `calls, `time, `patience, `errors, `next, `nextSynced
      ensures old(time) <= time <= old(time) + step
      ensures outcome.Moved? ==> outcome.count <= |text|
      ensures next == if outcome.Moved? then Some(old(next).value + text[..outcome.count]) else old(next)
      ensures outcome.Interrupted? ==> patience + (time - old(time)) < old(patience)
      ensures !outcome.Interrupted? ==> patience == old(patience)
      ensures errors == old(errors) + if outcome.Broken? || outcome == Moved(0) then 1 else 0
    {
      var answer;
      outcome, answer := Transfer(|text|);
      nextSynced := false;
      if outcome.Moved? {
        next := Some(next.value + text[..outcome.count]);
      }
      if outcome == Moved(0) {
        errors := errors + 1;
      }
    }

    method SyncNext() returns (ok: bool)
      modifies `calls, `time, `errors, `nextSynced
      ensures old(time) <= time <= old(time) + step && (ok ==> nextSynced)
      ensures errors == old(errors) + if ok then 0 else 1
    {
      var answer := Ask();
      ok := answer.ok;
      if ok {
        nextSynced := true;
      } else {
        errors := errors + 1;
      }
    }

    /** Only a complete and synced text may become the record. */
    method RenameRecord(pid: Pid) returns (ok: bool)
      requires Valid() && Allowed(pc, Act.RenameRecord(pid))
      requires next == Some(RecordText(pid)) && nextSynced
      modifies `calls, `time, `errors, `acts, `pc
      ensures Valid() && old(time) <= time <= old(time) + step
      ensures acts == old(acts) + if ok then [Act.RenameRecord(pid)] else []
      ensures pc == if ok then After(old(pc), Act.RenameRecord(pid)) else old(pc)
      ensures errors == old(errors) + if ok then 0 else 1
    {
      var answer := Ask();
      ok := answer.ok;
      if ok {
        Record(Act.RenameRecord(pid));
      } else {
        errors := errors + 1;
      }
    }

    // -------------------------------------------------------------------------
    // Processes
    // -------------------------------------------------------------------------

    /** In the parent: the child, or a negative number. */
    method Fork(kind: Kind) returns (child: int)
      requires Valid() && pc.child.NoChild? && MayFork(pc.phase, kind)
      modifies `calls, `time, `errors, `acts, `pc, `spawned, `operations
      ensures Valid() && old(time) <= time <= old(time) + step
      ensures child == -1 || 0 < child <= INT_MAX
      ensures acts == old(acts) + if child > 0 then [Act.Fork(kind, child)] else []
      ensures spawned == old(spawned) + if child > 0 then 1 else 0
      ensures operations == old(operations) + if child > 0 && kind.Operate? then 1 else 0
      ensures pc == if child > 0 then After(old(pc), Act.Fork(kind, child)) else old(pc)
      ensures errors == old(errors) + if child > 0 then 0 else 1
    {
      var answer := Ask();
      child := if answer.ok && answer.pid > 0 then answer.pid else -1;
      if child > 0 {
        RecordFork(kind, child);
      } else {
        errors := errors + 1;
      }
    }

    /** waitpid without waiting. */
    method WaitPid(child: int) returns (waited: Waited)
      requires Valid() && !pc.child.NoChild? && pc.child.pid == child
      modifies `calls, `time, `errors, `acts, `pc, `collected
      ensures Valid() && old(time) <= time <= old(time) + step
      ensures acts == old(acts) + if waited.Reaped? then [Act.Reap(waited.status, time)] else []
      ensures errors == old(errors) + if waited.NotOurs? then 1 else 0
      ensures collected == old(collected) + if waited.Reaped? then 1 else 0
      ensures pc == if waited.Reaped? then After(old(pc), Act.Reap(waited.status, time)) else old(pc)
    {
      var answer := Ask();
      waited :=
        if answer.ok then Reaped(answer.status)
        else if answer.interrupted then WaitInterrupted
        else if answer.count == 0 then Running
        else NotOurs;
      if waited.Reaped? {
        RecordReap(waited.status);
      }
      if waited.NotOurs? {
        errors := errors + 1;
      }
    }

    /** Only the process's own child, and only while it is unreaped, is ever signalled. */
    method Kill(child: int) returns (signal: Signal)
      requires Valid() && !pc.child.NoChild? && pc.child.pid == child
      modifies `calls, `time, `errors, `kills
      ensures old(time) <= time <= old(time) + step
      ensures errors == old(errors) + if signal.Denied? then 1 else 0
      ensures kills == old(kills) + if signal.Denied? then 0 else 1
    {
      var answer := Ask();
      signal := if answer.ok then Sent else if answer.interrupted then NoProcess else Denied;
      if signal.Denied? {
        errors := errors + 1;
      } else {
        kills := kills + 1;
      }
    }

    // -------------------------------------------------------------------------
    // The observation
    // -------------------------------------------------------------------------

    /** The launch time is a clock reading just taken, or zero. */
    ghost method Launch(launched: u64)
      requires Valid() && Allowed(pc, Act.Launch(launched, time))
      modifies `acts, `pc
      ensures Valid() && acts == old(acts) + [Act.Launch(launched, time)]
      ensures pc == After(old(pc), Act.Launch(launched, time))
    {
      Record(Act.Launch(launched, time));
    }

    method MakePipe() returns (ok: bool)
      modifies `calls, `time, `errors, `stream, `ended
      ensures old(time) <= time <= old(time) + step && stream == [] && !ended
      ensures errors == old(errors) + if ok then 0 else 1
    {
      ok := Try();
      stream, ended := [], false;
    }

    /** A non-blocking read from the observer's pipe into the buffer, from position filled on. */
    method ReadPipe(buffer: array<Byte>, filled: nat) returns (outcome: Transfer)
      requires filled < buffer.Length
      modifies buffer, `calls, `time, `errors, `stream, `ended
      ensures old(time) <= time <= old(time) + step
      ensures errors == old(errors) + if outcome.Broken? then 1 else 0
      ensures ended == (old(ended) || outcome == Moved(0))
      ensures outcome.Moved? ==> filled + outcome.count <= buffer.Length
      ensures buffer[..filled] == old(buffer[..filled])
      ensures stream == old(stream) + if outcome.Moved? then buffer[filled..filled + outcome.count] else []
    {
      var answer := Ask();
      if answer.interrupted {
        outcome := Interrupted;
        return;
      }
      if !answer.ok {
        errors := errors + 1;
        outcome := Broken;
        return;
      }
      var count := if |answer.bytes| <= buffer.Length - filled then |answer.bytes| else buffer.Length - filled;
      forall i | 0 <= i < count {
        buffer[filled + i] := answer.bytes[i];
      }
      outcome := Moved(count);
      ended := ended || count == 0;
      stream := stream + buffer[filled..filled + count];
    }

    ghost method Verify(window: seq<Delivery>)
      requires Valid() && Allowed(pc, Act.Verify(window))
      modifies `acts, `pc, `windows
      ensures Valid() && acts == old(acts) + [Act.Verify(window)] && pc == After(old(pc), Act.Verify(window))
      ensures windows == old(windows) + 1
    {
      ActAppended(acts, Act.Verify(window));
      acts, pc, windows := acts + [Act.Verify(window)], After(pc, Act.Verify(window)), windows + 1;
    }
  }
}
