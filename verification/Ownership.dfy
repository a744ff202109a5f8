/** Exclusive ownership of the private directory: the inherited lock, the durable
    worker record, and removing both.
 */
module SupervisorOwnership {
  import opened SmcBaseline
  import opened MinuteRule
  import opened LeaseSpec
  import opened OwnerProtocol
  import opened WorkerRecordText
  import opened SupervisorKernel
  import opened ControlIntentJournal

  /** True exactly if the record was read without an error and shows that no worker remains. */
  method OldWorkerAbsent(k: Kernel, pending: bool) returns (absent: bool)
    modifies k`calls, k`time, k`errors, k`record, k`probe
    ensures absent ==> AbsenceShown(k.record, k.probe, pending)
    ensures !absent ==> k.errors > old(k.errors) || PresenceShown(k.record, k.probe, pending)
    ensures old(k.time) <= k.time <= old(k.time) + 4 * k.step
    ensures old(k.errors) <= k.errors
  {
    var found := k.OpenRecord();
    if !found.Present? {
      return found.Missing? && !pending;
    }
    var text := k.ReadRecord();
    var closed := k.Try();
    if !closed || text.None? {
      return false;
    }
    hide ParseRecord, Names;
    var recorded := ParseRecord(text.value);
    if recorded.None? {
      forall pid: Pid
        ensures !Names(text.value, pid)
      {
        ParsesExactly(text.value, pid);
      }
      return false;
    }
    ParsesExactly(text.value, recorded.value);
    if recorded.value == 0 {
      return true;
    }
    absent := k.ProcessGone(recorded.value);
  }

  // ---------------------------------------------------------------------------
  // The worker record
  // ---------------------------------------------------------------------------

  /** Write the whole text to the opened file, or fail. */
  method WriteText(k: Kernel, text: string) returns (saved: bool)
    requires k.next == Some("") && |text| <= 32
    modifies k`calls, k`time, k`patience, k`errors, k`next, k`nextSynced
    ensures saved ==> k.next == Some(text)
    ensures old(k.time) <= k.time <= old(k.time) + 33 * k.step + (old(k.patience) - k.patience)
    ensures k.patience <= old(k.patience)
    ensures old(k.errors) <= k.errors && (k.errors == old(k.errors) ==> saved)
  {
    hide Steps;
    var written: nat := 0;
    saved := true;
    NoSteps(k.step);
    while saved && written < |text|
      invariant 0 <= written <= |text| && (saved ==> k.next == Some(text[..written]))
      invariant k.patience <= old(k.patience) && old(k.errors) <= k.errors && (saved || k.errors > old(k.errors))
      invariant old(k.time) <= k.time
      invariant k.time <= old(k.time) + Steps(if saved then written else 33, k.step) + (old(k.patience) - k.patience)
      decreases saved, k.patience, |text| - written
    {
      var outcome := k.WriteNext(text[written..]);
      if outcome.Moved? && outcome.count > 0 {
        MoreSteps(k.step, written, outcome.count);
        assert text[..written] + text[written..][..outcome.count] == text[..written + outcome.count];
        written := written + outcome.count;
      } else if outcome.Interrupted? {
        continue;
      } else {
        MoreSteps(k.step, written, 33 - written);
        saved := false;
      }
    }
    if saved {
      assert text[..written] == text;
      if written < 33 {
        MoreSteps(k.step, written, 33 - written);
      }
    }
    CountSteps(33, k.step);
  }

  lemma {:induction false} SyncAfterRename(pc: Pc, child: Pid)
    requires Allowed(pc, Act.RenameRecord(child))
    ensures Allowed(After(pc, Act.RenameRecord(child)), Act.SyncDirectory)
  {
  }

  /** Compose the next record in its own file and make its contents durable. */
  method ComposeRecord(k: Kernel, text: string) returns (saved: bool)
    requires |text| <= 32
    modifies k`calls, k`time, k`patience, k`errors, k`next, k`nextSynced
    ensures saved ==> k.next == Some(text) && k.nextSynced
    ensures old(k.errors) <= k.errors && (k.errors == old(k.errors) ==> saved)
    ensures old(k.time) <= k.time <= old(k.time) + 37 * k.step + (old(k.patience) - k.patience)
    ensures k.patience <= old(k.patience)
  {
    var present := k.OpenNext();
    if !present {
      return false;
    }
    saved := k.TruncateNext();
    if saved {
      saved := WriteText(k, text);
    }
    if saved {
      saved := k.SyncNext();
    }
    var closed := k.Try();
    saved := saved && closed;
  }

  /** The record names the child durably, or the call fails; whatever happens, the
      record is never a partial one.
   */
  method OwnershipRecord(k: Kernel, child: int) returns (recorded: bool)
    requires k.Valid() && child <= INT_MAX && (child >= 0 ==> Allowed(k.pc, Act.RenameRecord(child)))
    modifies k`calls, k`time, k`patience, k`errors, k`next, k`nextSynced, k`acts, k`pc, k`refused
    ensures k.Valid()
    ensures recorded ==> child >= 0 && k.acts == old(k.acts) + [Act.RenameRecord(child), Act.SyncDirectory]
    ensures recorded ==> k.pc == After(After(old(k.pc), Act.RenameRecord(child)), Act.SyncDirectory)
    ensures !recorded && k.acts != old(k.acts) ==> child >= 0 && k.acts == old(k.acts) + [Act.RenameRecord(child)]
    ensures !recorded ==> k.pc == if k.acts == old(k.acts) then old(k.pc) else After(old(k.pc), Act.RenameRecord(child))
    ensures old(k.time) <= k.time <= old(k.time) + 40 * k.step + (old(k.patience) - k.patience)
    ensures k.patience <= old(k.patience)
    ensures old(k.errors) <= k.errors && (k.errors == old(k.errors) && child >= 0 ==> recorded)
  {
    hide Kernel.Valid, RecordText, After, Allowed;
    var isPrivate := k.Try();
    if !isPrivate || child < 0 {
      return false;
    }
    RecordFitsBuffer(child);
    var saved := ComposeRecord(k, RecordText(child));
    if !saved {
      return false;
    }
    SyncAfterRename(k.pc, child);
    var renamed := k.RenameRecord(child);
    if !renamed {
      return false;
    }
    recorded := k.Perform(Act.SyncDirectory);
  }

  // ---------------------------------------------------------------------------
  // Acquiring
  // ---------------------------------------------------------------------------

  /** The only order in which ownership is acquired. */
  function Acquisition(pending: bool): seq<Act> {
    [Act.OpenLock(pending), Act.TakeLock, Act.SeeMarker, Act.SeeNoWorker, Act.CheckName, Act.RenameRecord(0),
      Act.SyncDirectory]
  }

  /** The marker is as expected and no recorded worker remains. */
  ghost predicate FreeToOwn(view: MarkerView, record: RecordView, probe: Probe, pending: bool) {
    view == (if pending then SEEN_PENDING else Absent) && AbsenceShown(record, probe, pending)
  }

  /** The marker was seen and is not as expected, or a recorded worker may remain. */
  ghost predicate NotFree(view: MarkerView, record: RecordView, probe: Probe, pending: bool) {
    MarkerUnfit(view, pending) || PresenceShown(record, probe, pending)
  }

  /** The marker was seen and is not as expected. */
  predicate MarkerUnfit(view: MarkerView, pending: bool) {
    SeenOther(view) || view == if pending then Absent else SEEN_PENDING
  }

  /** Read the marker under the lock. */
  method CheckMarker(k: Kernel, pending: bool) returns (fit: bool)
    requires k.Valid() && k.pc == Pc(Phase.Locked(pending), NoChild)
    modifies k`calls, k`time, k`patience, k`errors, k`view, k`acts, k`pc
    ensures k.Valid()
    ensures fit ==> k.pc == Pc(MarkerSeen(pending), NoChild) && k.acts == old(k.acts) + [Act.SeeMarker]
    ensures !fit ==> k.pc == old(k.pc) && k.acts == old(k.acts)
    ensures old(k.time) <= k.time <= old(k.time) + 55 * k.step + (old(k.patience) - k.patience)
    ensures k.patience <= old(k.patience)
    ensures old(k.errors) <= k.errors
    ensures !fit ==> k.errors > old(k.errors) || MarkerUnfit(k.view, pending)
    ensures fit ==> k.view == if pending then SEEN_PENDING else Absent
  {
    hide Kernel.Valid;
    var intent := ControlIntentRead(k);
    fit := intent == if pending then Pending else Clear;
    if fit {
      k.SeeMarker();
    }
  }

  /** Check the worker record under the lock. */
  method CheckWorker(k: Kernel, pending: bool) returns (fit: bool)
    requires k.Valid() && k.pc == Pc(MarkerSeen(pending), NoChild)
    modifies k`calls, k`time, k`errors, k`record, k`probe, k`acts, k`pc
    ensures k.Valid()
    ensures fit ==> k.pc == Pc(WorkerAbsent(pending), NoChild) && k.acts == old(k.acts) + [Act.SeeNoWorker]
    ensures !fit ==> k.pc == old(k.pc) && k.acts == old(k.acts)
    ensures old(k.time) <= k.time <= old(k.time) + 4 * k.step
    ensures old(k.errors) <= k.errors
    ensures (!fit ==> k.errors > old(k.errors) || PresenceShown(k.record, k.probe, pending))
    ensures fit ==> AbsenceShown(k.record, k.probe, pending)
  {
    hide Kernel.Valid, AbsenceShown, PresenceShown;
    fit := OldWorkerAbsent(k, pending);
    if fit {
      k.SeeNoWorker();
    }
  }

  /** The steps of an acquisition up to the check of the worker record. */
  method CheckState(k: Kernel, pending: bool) returns (fit: bool)
    requires k.Valid() && k.pc == Pc(Phase.Opened(pending), NoChild)
    modifies k`calls, k`time, k`patience, k`errors, k`view, k`record, k`probe, k`acts, k`pc, k`refused
    ensures k.Valid() && k.pc.child.NoChild? && !k.pc.phase.Outside? && old(k.acts) <= k.acts
    ensures fit ==> k.pc.phase == WorkerAbsent(pending)
                    && k.acts == old(k.acts) + [Act.TakeLock, Act.SeeMarker, Act.SeeNoWorker]
    ensures old(k.time) <= k.time <= old(k.time) + 61 * k.step + (old(k.patience) - k.patience)
    ensures k.patience <= old(k.patience)
    ensures old(k.errors) <= k.errors
    ensures !fit ==> k.errors > old(k.errors) || NotFree(k.view, k.record, k.probe, pending)
    ensures fit ==> FreeToOwn(k.view, k.record, k.probe, pending)
  {
    hide Kernel.Valid, AbsenceShown, PresenceShown;
    var isPrivate := k.Try();
    if !isPrivate {
      return false;
    }
    var locked := k.TakeLock();
    if !locked {
      return false;
    }
    fit := CheckMarker(k, pending);
    if fit {
      fit := CheckWorker(k, pending);
    }
  }

  /** Check that the lock name still denotes the locked file, then record that no worker
      of this owner exists yet.
   */
  method TakeName(k: Kernel, pending: bool) returns (owned: bool)
    requires k.Valid() && k.pc == Pc(WorkerAbsent(pending), NoChild)
    modifies k`calls, k`time, k`patience, k`errors, k`next, k`nextSynced, k`acts, k`pc, k`refused
    ensures k.Valid() && old(k.acts) <= k.acts && k.pc.child.NoChild? && !k.pc.phase.Outside?
    ensures owned ==>
              k.pc.phase == Ready(pending) && k.acts == old(k.acts) + [Act.CheckName, Act.RenameRecord(0), Act.SyncDirectory]
    ensures old(k.errors) <= k.errors && (k.errors == old(k.errors) ==> owned)
    ensures old(k.time) <= k.time <= old(k.time) + 41 * k.step + (old(k.patience) - k.patience)
    ensures k.patience <= old(k.patience)
  {
    hide Kernel.Valid;
    var named := k.Perform(Act.CheckName);
    if !named {
      return false;
    }
    owned := OwnershipRecord(k, 0);
  }

  /** Success means the lock is held on the named file, the marker and the record were
      checked under it, and a record of zero is durable; failure holds nothing. It fails
      only if a call failed, the marker is not as expected, or a worker may remain.
   */
  method Acquire(k: Kernel, pending: bool) returns (owned: bool)
    requires k.Valid() && k.pc == START
    modifies k`calls, k`time, k`patience, k`errors, k`view, k`record, k`probe, k`next, k`nextSynced,
      k`acts, k`pc, k`refused
    ensures k.Valid() && old(k.acts) <= k.acts
    ensures owned ==> k.pc == Pc(Ready(pending), NoChild) && k.acts == old(k.acts) + Acquisition(pending)
    ensures !owned ==> k.pc == START
    ensures old(k.errors) <= k.errors
    ensures !owned ==> k.errors > old(k.errors) || NotFree(k.view, k.record, k.probe, pending)
    ensures owned ==> FreeToOwn(k.view, k.record, k.probe, pending)
    ensures old(k.time) <= k.time <= old(k.time) + 110 * k.step + (old(k.patience) - k.patience)
    ensures k.patience <= old(k.patience)
  {
    hide Kernel.Valid, FreeToOwn, NotFree;
    var isPrivate := k.Try();
    if !isPrivate {
      return false;
    }
    var present := k.Perform(Act.OpenLock(pending));
    if !present {
      return false;
    }
    owned := CheckState(k, pending);
    if owned {
      owned := TakeName(k, pending);
    }
    if !owned {
      k.CloseLock();
    }
  }

  // ---------------------------------------------------------------------------
  // Cleaning up
  // ---------------------------------------------------------------------------

  datatype StateFile = NextRecord | WorkerRecord | OwnerLock | Executable | Staging

  const FILES := [NextRecord, WorkerRecord, OwnerLock, Executable, Staging]

  /** unlinkat; a file that does not exist counts as removed. */
  method Unlink(k: Kernel, file: StateFile) returns (ok: bool)
    requires k.Valid()
    requires file.WorkerRecord? ==> Allowed(k.pc, Act.UnlinkRecord)
    requires file.OwnerLock? ==> Allowed(k.pc, Act.UnlinkLock)
    modifies k`calls, k`time, k`errors, k`acts, k`pc, k`refused
    ensures k.Valid() && old(k.time) <= k.time
    ensures k.acts == old(k.acts) + if ok then Removal(file) else []
    ensures k.pc == if ok && Removal(file) != [] then After(old(k.pc), Removal(file)[0]) else old(k.pc)
    ensures k.errors == old(k.errors) + if ok then 0 else 1
  {
    hide Kernel.Valid;
    match file
    case WorkerRecord => ok := k.Perform(Act.UnlinkRecord);
    case OwnerLock => ok := k.Perform(Act.UnlinkLock);
    case _ => ok := k.Try();
  }

  /** What others can notice of removing a file. */
  function Removal(file: StateFile): seq<Act> {
    match file
    case WorkerRecord => [Act.UnlinkRecord]
    case OwnerLock => [Act.UnlinkLock]
    case _ => []
  }

  /** The unlinking loop. Whatever fails, the record is removed before the lock name. */
  method RemoveFiles(k: Kernel) returns (removed: bool, ghost record: bool, ghost name: bool)
    requires k.Valid() && k.pc == Pc(Ready(false), NoChild)
    modifies k`calls, k`time, k`errors, k`acts, k`pc, k`refused
    ensures k.Valid() && old(k.acts) <= k.acts && k.pc.child.NoChild?
    ensures k.pc.phase == Ready(false) || k.pc.phase.Cleaning? || k.pc.phase.Unlocked?
    ensures k.acts == old(k.acts) + (if record then [Act.UnlinkRecord] else []) + (if name then [Act.UnlinkLock] else [])
    ensures removed ==> record && name
    ensures old(k.errors) <= k.errors && (k.errors == old(k.errors) ==> removed)
  {
    hide Kernel.Valid;
    removed, record, name := true, false, false;
    for index := 0 to |FILES|
      invariant k.Valid() && old(k.acts) <= k.acts && k.pc.child.NoChild?
      invariant k.pc.phase == Ready(false) || (index > 1 && k.pc.phase.Cleaning?) || (index > 2 && k.pc.phase.Unlocked?)
      invariant old(k.errors) <= k.errors && (removed || k.errors > old(k.errors))
      invariant (record ==> index > 1) && (name ==> index > 2)
      invariant removed ==> (index > 1 ==> record) && (index > 2 ==> name)
      invariant k.acts == old(k.acts) + (if record then [Act.UnlinkRecord] else []) + (if name then [Act.UnlinkLock] else [])
    {
      var ok := Unlink(k, FILES[index]);
      if !ok {
        removed := false;
      }
      record := record || (ok && FILES[index].WorkerRecord?);
      name := name || (ok && FILES[index].OwnerLock?);
    }
  }

  /** The record is removed before the lock name, and both only under the lock with no
      marker and no worker; a cleanup that reports success has removed both durably.
   */
  method ProbeCleanup(k: Kernel) returns (removed: bool)
    requires k.Valid() && k.pc == START
    modifies k`calls, k`time, k`patience, k`errors, k`view, k`record, k`probe, k`next, k`nextSynced,
      k`acts, k`pc, k`refused
    ensures k.Valid() && old(k.acts) <= k.acts && k.pc == START
    ensures removed ==> k.acts == old(k.acts) + Acquisition(false)
                          + [Act.UnlinkRecord, Act.UnlinkLock, Act.SyncDirectory, Act.CloseLock]
    ensures old(k.errors) <= k.errors
    ensures !removed ==> k.errors > old(k.errors) || NotFree(k.view, k.record, k.probe, false)
  {
    hide Kernel.Valid, Acquisition, FreeToOwn, NotFree;
    var owned := Acquire(k, false);
    if !owned {
      return false;
    }
    ghost var record, name;
    removed, record, name := RemoveFiles(k);
    var synced := k.Perform(Act.SyncDirectory);
    removed := removed && synced;
    k.CloseLock();
  }
}
