/** What holds in every reachable world. */
module WorldSafety {
  import opened SmcBaseline
  import opened MinuteRule
  import opened OwnerProtocol
  import opened World

  // ---------------------------------------------------------------------------
  // The properties
  // ---------------------------------------------------------------------------

  /** The event lets an operation begin. */
  predicate OperationGrant(e: Event) {
    e.GrantedTo? && e.kind.Operate?
  }

  /** The event is a complete window of an observer launched at this time or later, and
      tells what its reads really were.
   */
  predicate WindowSince(e: Event, time: nat) {
    && e.WindowSeen? && Receivable(e.window, e.launched, e.since)
    && (e.launched == 0 || e.launched == e.since) && time <= e.since
    && ReadAs(e.window, e.made) && Genuine(e.made, e.since)
  }

  /** Events r, x, v and u are a recovery worker's grant, its success, a complete
      window of system reads from an observer launched no earlier than that, and the
      removal of the marker.
   */
  predicate RecoveryAt(h: seq<Event>, r: nat, x: nat, v: nat, u: nat) {
    && r < x < v < u < |h|
    && h[r].GrantedTo? && h[r].kind.Recover?
    && h[x].ReapedOk? && h[x].kind.Recover? && h[x].pid == h[r].pid
    && WindowSince(h[v], h[x].time)
    && h[u].MarkerUnlinked?
  }

  /** Between events i and j lies a whole recovery. */
  ghost predicate RecoveredBetween(h: seq<Event>, i: nat, j: nat) {
    exists r: nat, x: nat, v: nat, u: nat :: i < r && u < j && RecoveryAt(h, r, x, v, u)
  }

  /** Every operation granted before event j was followed by a whole recovery before j. */
  ghost predicate SettledBefore(h: seq<Event>, j: nat)
    requires j <= |h|
  {
    forall i: nat | i < j && OperationGrant(h[i]) :: RecoveredBetween(h, i, j)
  }

  ghost predicate Settled(h: seq<Event>) {
    SettledBefore(h, |h|)
  }

  /** Each operation was granted only after every earlier one had been recovered from. */
  ghost predicate OperationsSeparated(h: seq<Event>) {
    forall j: nat | j < |h| && OperationGrant(h[j]) :: SettledBefore(h, j)
  }

  predicate WellFormed(r: WorkerRecord) {
    r.RecordOf?
  }

  /** The marker is complete and would survive a restart. */
  predicate MarkerDurable(d: Disk) {
    d.marker == Some(MARKER) && d.markerSynced
  }

  // ---------------------------------------------------------------------------
  // The invariant
  // ---------------------------------------------------------------------------

  /** The owner holds the lock on the file the lock name denotes. At most one owner rules. */
  predicate Rules(w: World, o: nat)
    requires |w.disks| > 0
  {
    o in w.owners && HoldsLock(w.owners[o].pc) && Visible(w).lock == Some(w.owners[o].lock)
  }

  /** From the check of the lock name until the lock name is removed, the owner rules. */
  predicate MustRule(phase: Phase) {
    !(phase.Outside? || phase.Opened? || phase.Locked? || phase.MarkerSeen? || phase.WorkerAbsent?
      || phase.Unlocked? || phase.Failed?)
  }

  /** A child belongs to the phase that forked it. */
  predicate ChildAllowed(pc: Pc) {
    pc.child.NoChild? ||
    match pc.child.kind
    case Operate => pc.phase.Operated?
    case Recover => pc.phase.Recovering?
    case Observe => pc.phase.Launched?
  }

  /** What the marker is while an owner in this phase rules. */
  predicate MarkerFits(phase: Phase, d: Disk) {
    match phase
    case MarkerSeen(pending) => d.marker == if pending then Some(MARKER) else None
    case WorkerAbsent(pending) => d.marker == if pending then Some(MARKER) else None
    case Named(pending) => d.marker == if pending then Some(MARKER) else None
    case Zeroed(pending) => d.marker == if pending then Some(MARKER) else None
    case Ready(pending) => d.marker == if pending then Some(MARKER) else None
    case Marking(written, synced) => d.marker == Some(written) && (synced ==> d.markerSynced)
    case Marked => MarkerDurable(d)
    case Operated => MarkerDurable(d)
    case Recovering => d.marker == Some(MARKER)
    case Recovered(_) => d.marker == Some(MARKER)
    case Launched(recovering, _, _) => d.marker == if recovering then Some(MARKER) else None
    case Observed(recovering, _, _) => d.marker == if recovering then Some(MARKER) else None
    case Verified(_, _) => d.marker == Some(MARKER)
    case BaselineReady => d.marker.None?
    case Unlinked => d.marker.None?
    case Cleaning => d.marker.None?
    case _ => true
  }

  /** What the record is while an owner in this state rules. */
  predicate RecordFits(pc: Pc, d: Disk) {
    && (pc.phase.Zeroed? ==> d.record == RecordOf(0))
    && (MustRule(pc.phase) && !pc.phase.Named? && !pc.phase.Zeroed? && !pc.phase.Cleaning? ==> WellFormed(d.record))
    && (pc.child.Renamed? || pc.child.Recorded? || pc.child.Granted? ==> d.record == RecordOf(pc.child.pid))
  }

  /** The recorded child is in the process table, and knows whether it was granted execution. */
  predicate ChildFits(w: World, o: nat)
    requires o in w.owners
  {
    var s := w.owners[o];
    !s.pc.child.NoChild? ==>
      && s.pc.child.pid > 0 && s.pc.child.pid in w.workers
      && var p := w.workers[s.pc.child.pid];
         p.owner == o && p.lock == s.lock && p.kind == s.pc.child.kind && (p.granted <==> s.pc.child.Granted?)
  }

  /** No operation was granted after event r. */
  predicate QuietSince(h: seq<Event>, r: nat) {
    forall i | r <= i < |h| :: !OperationGrant(h[i])
  }

  predicate RecoverGranted(h: seq<Event>, s: Owner) {
    && s.recoverAt < |h| && h[s.recoverAt].GrantedTo? && h[s.recoverAt].kind.Recover?
    && QuietSince(h, s.recoverAt)
  }

  predicate RecoverReaped(h: seq<Event>, s: Owner) {
    && RecoverGranted(h, s) && s.recoverAt < s.reapAt < |h|
    && h[s.reapAt].ReapedOk? && h[s.reapAt].kind.Recover? && h[s.reapAt].pid == h[s.recoverAt].pid
  }

  predicate WindowVerified(h: seq<Event>, s: Owner) {
    && RecoverReaped(h, s) && s.reapAt < s.windowAt < |h|
    && WindowSince(h[s.windowAt], h[s.reapAt].time)
  }

  /** How far the ruling owner's recovery has come, according to the history. */
  ghost predicate HistoryFits(h: seq<Event>, now: nat, s: Owner) {
    match s.pc.phase
    case MarkerSeen(pending) => !pending ==> Settled(h)
    case WorkerAbsent(pending) => !pending ==> Settled(h)
    case Named(pending) => !pending ==> Settled(h)
    case Zeroed(pending) => !pending ==> Settled(h)
    case Ready(pending) => !pending ==> Settled(h)
    case Marking(_, _) => Settled(h)
    case Marked => Settled(h)
    case Operated => s.pc.child.NoChild? || s.pc.child.Granted? || Settled(h)
    case Recovering => s.pc.child.Granted? ==> RecoverGranted(h, s) && h[s.recoverAt].pid == s.pc.child.pid
    case Recovered(at) => RecoverReaped(h, s) && h[s.reapAt].time == at <= now
    case Launched(recovering, launched, since) =>
      recovering ==> RecoverReaped(h, s) && (launched == 0 || launched == since) && since >= h[s.reapAt].time
    case Observed(recovering, launched, since) =>
      recovering ==> RecoverReaped(h, s) && (launched == 0 || launched == since) && since >= h[s.reapAt].time
    case Verified(_, _) => WindowVerified(h, s)
    case _ => true
  }

  ghost predicate RulerOk(w: World, o: nat)
    requires |w.disks| > 0 && o in w.owners
  {
    var s, d := w.owners[o], Visible(w);
    && MarkerFits(s.pc.phase, d) && RecordFits(s.pc, d)
    && HistoryFits(w.history, w.now, s)
    && (s.pc.phase.Marked? || s.pc.phase.Operated? ==> forall i | 0 <= i < |w.disks| :: MarkerDurable(w.disks[i]))
    && (s.pc.phase.Ready? ==>
          forall i | 0 <= i < |w.disks| :: w.disks[i].marker == d.marker && WellFormed(w.disks[i].record))
    && (s.pc.child.Recorded? ==> forall i | 0 <= i < |w.disks| :: w.disks[i].record == RecordOf(s.pc.child.pid))
  }

  /** Lock files are numbered from zero; two owners never hold the lock on one file. */
  predicate LocksOk(w: World)
    requires |w.disks| > 0
  {
    && (forall i | 0 <= i < |w.disks| :: w.disks[i].lock.Some? ==> w.disks[i].lock.value < w.nextLock)
    && (forall o | o in w.owners && !w.owners[o].pc.phase.Outside? :: w.owners[o].lock < w.nextLock)
    && (forall o, o' | o in w.owners && o' in w.owners && o != o' && HoldsLock(w.owners[o].pc) && HoldsLock(w.owners[o'].pc) ::
          w.owners[o].lock != w.owners[o'].lock)
  }

  ghost predicate OwnersOk(w: World)
    requires |w.disks| > 0
  {
    forall o | o in w.owners :: OwnerOk(w, o)
  }

  ghost predicate OwnerOk(w: World, o: nat)
    requires |w.disks| > 0 && o in w.owners
  {
    && ChildAllowed(w.owners[o].pc) && ChildFits(w, o)
    && (MustRule(w.owners[o].pc.phase) ==> Rules(w, o))
    && (Rules(w, o) ==> RulerOk(w, o))
  }

  /** Every live worker holds the lock on the named lock file, there is at most one,
      and an owner holding that lock has it as its child.
   */
  predicate WorkersOk(w: World)
    requires |w.disks| > 0
  {
    && (forall p | p in w.workers && Live(w, p) :: Visible(w).lock == Some(w.workers[p].lock))
    && (forall p, q | p in w.workers && q in w.workers && Live(w, p) && Live(w, q) :: p == q)
    && (forall o, p | o in w.owners && p in w.workers && Rules(w, o) && Live(w, p) ::
          !w.owners[o].pc.child.NoChild? && w.owners[o].pc.child.pid == p)
  }

  /** The owner has found no recorded worker in the process table. */
  predicate PastCheck(phase: Phase) {
    !(phase.Outside? || phase.Opened? || phase.Locked? || phase.MarkerSeen?)
  }

  /** A granted worker is the recorded one, whatever a restart finds, until it has left
      the process table; and a ruler past its check has no other than its own child there.
   */
  predicate GrantsOk(w: World)
    requires |w.disks| > 0
  {
    && (forall p, i | p in w.workers && 0 <= i < |w.disks| && w.workers[p].granted ::
          w.disks[i].record == RecordOf(p))
    && (forall o, p | o in w.owners && p in w.workers && Rules(w, o) && PastCheck(w.owners[o].pc.phase)
                      && w.workers[p].granted ::
          !w.owners[o].pc.child.NoChild? && w.owners[o].pc.child.pid == p)
    && (forall p | p in w.workers :: p > 0)
    && (forall p | p in w.workers && w.workers[p].exit == Some(Exited(0)) :: w.workers[p].granted)
  }

  /** A marker that a restart may find is accompanied by a well-formed record, whichever
      record it finds; while an operation is not recovered from, every state of the
      directory holds the complete marker.
   */
  ghost predicate DisksOk(w: World) {
    && (forall i, j | 0 <= i < |w.disks| && 0 <= j < |w.disks| :: w.disks[i].marker.Some? ==> WellFormed(w.disks[j].record))
    && (!Settled(w.history) ==> forall i | 0 <= i < |w.disks| :: MarkerDurable(w.disks[i]))
  }

  /** All of the observer's reads, also the one under way, are genuine. */
  predicate WorkerReads(p: Worker, since: nat, now: nat) {
    && Genuine(p.made, since) && EndedBy(p.made, now)
    && (p.reading.Some? ==>
          var b := p.reading.value;
          since <= b.began <= now && EndedBy(p.made, b.began) && (b.started == 0 || b.started == b.began))
  }

  /** Reads of an owner's observer are genuine, and follow the launch. */
  predicate ReadsFit(w: World, o: nat)
    requires o in w.owners
  {
    var s := w.owners[o];
    && (s.pc.phase.Launched? ==>
          && s.pc.phase.since <= w.now
          && (!s.pc.child.NoChild? && s.pc.child.pid in w.workers ==>
                WorkerReads(w.workers[s.pc.child.pid], s.pc.phase.since, w.now)))
    && (s.pc.phase.Observed? ==> Genuine(s.made, s.pc.phase.since))
  }

  predicate ReadsOk(w: World) {
    forall o | o in w.owners :: ReadsFit(w, o)
  }

  ghost predicate Invariant(w: World) {
    && |w.disks| > 0 && LocksOk(w) && OwnersOk(w) && WorkersOk(w) && GrantsOk(w) && DisksOk(w)
    && OperationsSeparated(w.history) && ReadsOk(w)
  }

  // ---------------------------------------------------------------------------
  // Steps that are not an owner's
  // ---------------------------------------------------------------------------

  lemma {:induction false} GrantsStep(w: World, step: Step)
    requires Invariant(w) && CanStep(w, step) && !step.Act?
    ensures GrantsOk(Successor(w, step))
  {
    hide ReadsOk, OwnersOk, WorkersOk, DisksOk, OperationsSeparated, LocksOk;
  }

  /** What a ruler's state has to fit does not involve the other processes. */
  lemma {:induction false} SameRuler(w: World, w': World, o: nat)
    requires |w.disks| > 0 && w'.disks == w.disks && w'.history == w.history && w.now <= w'.now
    requires o in w.owners && o in w'.owners && w'.owners[o] == w.owners[o]
    ensures RulerOk(w, o) ==> RulerOk(w', o)
  {
  }

  lemma {:induction false} ArriveKeeps(w: World, o: nat)
    requires Invariant(w) && CanStep(w, Arrive(o))
    ensures Invariant(Successor(w, Arrive(o)))
  {
    hide RulerOk, SettledBefore, OperationsSeparated, ChildAllowed, MustRule, MarkerDurable, GrantsOk;
    GrantsStep(w, Arrive(o));
    var w' := Successor(w, Arrive(o));
    forall o' | o' in w'.owners && o' != o
      ensures OwnerOk(w', o')
    {
      assert OwnerOk(w, o');
      SameRuler(w, w', o');
    }
    assert OwnerOk(w', o) by { NewcomerOk(w', o); }
  }

  lemma {:induction false} NewcomerOk(w: World, o: nat)
    requires |w.disks| > 0 && o in w.owners && w.owners[o].pc == START
    ensures OwnerOk(w, o)
  {
    hide RulerOk;
  }

  lemma {:induction false} CrashKeeps(w: World, o: nat)
    requires Invariant(w) && CanStep(w, Crash(o))
    ensures Invariant(Successor(w, Crash(o)))
  {
    hide MarkerFits, RecordFits, HistoryFits, SettledBefore, MarkerDurable, OperationsSeparated, ChildAllowed,
      MustRule, WellFormed, GrantsOk;
    GrantsStep(w, Crash(o));
  }

  lemma {:induction false} ExitKeeps(w: World, p: nat, status: Status)
    requires Invariant(w) && CanStep(w, Exit(p, status))
    ensures Invariant(Successor(w, Exit(p, status)))
  {
    hide MarkerFits, RecordFits, HistoryFits, SettledBefore, MarkerDurable, OperationsSeparated, ChildAllowed,
      MustRule, WellFormed, GrantsOk;
    GrantsStep(w, Exit(p, status));
  }

  lemma {:induction false} CollectKeeps(w: World, p: nat)
    requires Invariant(w) && CanStep(w, Collect(p))
    ensures Invariant(Successor(w, Collect(p)))
  {
    hide MarkerFits, RecordFits, HistoryFits, SettledBefore, MarkerDurable, OperationsSeparated, ChildAllowed,
      MustRule, WellFormed, GrantsOk;
    GrantsStep(w, Collect(p));
  }

  lemma {:induction false} PassKeepsOthers(w: World, now: nat)
    requires Invariant(w) && CanStep(w, Pass(now))
    ensures var w' := Successor(w, Pass(now)); ReadsOk(w') && LocksOk(w') && WorkersOk(w') && DisksOk(w')
  {
    hide OwnersOk, SettledBefore, OperationsSeparated, GrantsOk, Genuine;
    var w' := Successor(w, Pass(now));
    forall o | o in w'.owners
      ensures ReadsFit(w', o)
    {
      assert ReadsFit(w, o);
    }
  }

  lemma {:induction false} PassKeeps(w: World, now: nat)
    requires Invariant(w) && CanStep(w, Pass(now))
    ensures Invariant(Successor(w, Pass(now)))
  {
    hide RulerOk, SettledBefore, OperationsSeparated, GrantsOk, ReadsOk, LocksOk, WorkersOk, DisksOk;
    GrantsStep(w, Pass(now));
    PassKeepsOthers(w, now);
    var w' := Successor(w, Pass(now));
    forall o | o in w'.owners
      ensures OwnerOk(w', o)
    {
      assert OwnerOk(w, o);
      SameRuler(w, w', o);
    }
  }

  lemma {:induction false} RestartKeeps(w: World, step: Step)
    requires Invariant(w) && CanStep(w, step) && step.Restart?
    ensures Invariant(Successor(w, step))
  {
    hide GrantsOk, OwnersOk, WorkersOk, OperationsSeparated, SettledBefore;
    var w' := Successor(w, step);
    NobodyLeft(w');
  }

  lemma {:induction false} NobodyLeft(w: World)
    requires |w.disks| > 0 && w.owners == map[] && w.workers == map[]
    ensures OwnersOk(w) && WorkersOk(w) && GrantsOk(w) && ReadsOk(w)
  {
  }

  // ---------------------------------------------------------------------------
  // Reads
  // ---------------------------------------------------------------------------

  lemma {:induction false} EndReadFits(p: Worker, since: nat, now: nat, r: Read)
    requires WorkerReads(p, since, now) && p.reading.Some? && r.began == p.reading.value.began && r.ended == now
    requires r.observation.started == p.reading.value.started && Clock(r.observation.finished, now)
    ensures WorkerReads(p.(reading := None, made := p.made + [r]), since, now)
  {
    GenuineGrows(p.made, since, r);
  }

  /** A step of an observer, which only reads. */
  lemma {:induction false} ReadKeepsReads(w: World, step: Step)
    requires |w.disks| > 0 && ReadsOk(w) && CanStep(w, step) && (step.BeginRead? || step.EndRead?)
    ensures ReadsOk(Successor(w, step))
  {
    hide Genuine;
    var w' := Successor(w, step);
    forall o | o in w'.owners
      ensures ReadsFit(w', o)
    {
      assert ReadsFit(w, o);
      var s := w.owners[o];
      if step.EndRead? && s.pc.phase.Launched? && !s.pc.child.NoChild? && s.pc.child.pid == step.pid {
        EndReadFits(w.workers[step.pid], s.pc.phase.since, w.now, w'.workers[step.pid].made[|w.workers[step.pid].made|]);
      }
    }
  }

  lemma {:induction false} ReadKeepsOwners(w: World, step: Step)
    requires |w.disks| > 0 && OwnersOk(w) && CanStep(w, step) && (step.BeginRead? || step.EndRead?)
    ensures OwnersOk(Successor(w, step))
  {
    hide MarkerFits, RecordFits, HistoryFits, MarkerDurable, ChildAllowed, MustRule, WellFormed;
  }

  lemma {:induction false} ReadKeeps(w: World, step: Step)
    requires Invariant(w) && CanStep(w, step) && (step.BeginRead? || step.EndRead?)
    ensures Invariant(Successor(w, step))
  {
    hide SettledBefore, MarkerDurable, OperationsSeparated, OwnersOk, MustRule, WellFormed, GrantsOk, ReadsOk;
    GrantsStep(w, step);
    ReadKeepsReads(w, step);
    ReadKeepsOwners(w, step);
  }

  // ---------------------------------------------------------------------------
  // Growing the history
  // ---------------------------------------------------------------------------

  lemma {:induction false} RecoveredStays(h: seq<Event>, e: Event, i: nat, j: nat)
    requires RecoveredBetween(h, i, j)
    ensures RecoveredBetween(h + [e], i, j)
  {
    var r: nat, x: nat, v: nat, u: nat :| i < r && u < j && RecoveryAt(h, r, x, v, u);
    assert RecoveryAt(h + [e], r, x, v, u);
  }

  lemma {:induction false} SettledStays(h: seq<Event>, e: Event, j: nat)
    requires j <= |h| && SettledBefore(h, j)
    ensures SettledBefore(h + [e], j)
  {
    forall i: nat | i < j && OperationGrant((h + [e])[i])
      ensures RecoveredBetween(h + [e], i, j)
    {
      assert OperationGrant(h[i]);
      RecoveredStays(h, e, i, j);
    }
  }

  lemma {:induction false} SettledGrows(h: seq<Event>, e: Event)
    requires !OperationGrant(e)
    ensures Settled(h) ==> Settled(h + [e])
  {
    if Settled(h) {
      SettledStays(h, e, |h|);
      var longer := h + [e];
      forall i: nat | i < |longer| && OperationGrant(longer[i])
        ensures RecoveredBetween(longer, i, |longer|)
      {
        var r: nat, x: nat, v: nat, u: nat :| i < r && u < |h| && RecoveryAt(longer, r, x, v, u);
      }
    }
  }

  lemma {:induction false} SeparatedGrows(h: seq<Event>, e: Event)
    requires OperationsSeparated(h) && (OperationGrant(e) ==> Settled(h))
    ensures OperationsSeparated(h + [e])
  {
    var longer := h + [e];
    forall j: nat | j < |longer| && OperationGrant(longer[j])
      ensures SettledBefore(longer, j)
    {
      if j < |h| {
        assert OperationGrant(h[j]);
      }
      SettledStays(h, e, j);
    }
  }

  /** Removing the marker after a verified window settles every operation so far. */
  lemma {:induction false} UnlinkSettles(h: seq<Event>, s: Owner)
    requires WindowVerified(h, s)
    ensures Settled(h + [MarkerUnlinked])
  {
    var longer := h + [MarkerUnlinked];
    assert RecoveryAt(longer, s.recoverAt, s.reapAt, s.windowAt, |h|);
    forall i: nat | i < |longer| && OperationGrant(longer[i])
      ensures RecoveredBetween(longer, i, |longer|)
    {
      assert i < s.recoverAt;
    }
  }

  // ---------------------------------------------------------------------------
  // Steps of an owner
  // ---------------------------------------------------------------------------

  /** The actions that change the directory or the history are the ruler's. */
  predicate RulersAct(act: Act) {
    !(act.OpenLock? || act.TakeLock? || act.SeeMarker? || act.SeeNoWorker? || act.CheckName? || act.CloseLock?)
  }

  lemma {:induction false} LocksKeepTaking(w: World, o: nat, act: Act)
    requires Invariant(w) && Enabled(w, o, act) && (act.OpenLock? || act.TakeLock?)
    ensures LocksOk(Perform(w, o, act))
  {
    hide RulerOk, ChildFits, WorkersOk, GrantsOk, DisksOk, OperationsSeparated, WorkerGone, Receivable, ReadsOk,
      Delivered, WindowSince;
    assert OwnerOk(w, o);
  }

  lemma {:induction false} LocksKeep(w: World, o: nat, act: Act)
    requires Invariant(w) && Enabled(w, o, act)
    ensures LocksOk(Perform(w, o, act))
  {
    hide RulerOk, ChildFits, WorkersOk, GrantsOk, DisksOk, OperationsSeparated, WorkerGone, LockFree, Receivable,
      ReadsOk, Delivered, WindowSince;
    if act.OpenLock? || act.TakeLock? {
      LocksKeepTaking(w, o, act);
    }
  }

  /** Actions that leave the directory and the workers alone. */
  lemma {:induction false} WorkersKeepQuiet(w: World, o: nat, act: Act)
    requires Invariant(w) && Enabled(w, o, act) && (!RulersAct(act) || act.Launch? || act.Verify?)
    ensures WorkersOk(Perform(w, o, act))
  {
    hide GrantsOk, DisksOk, OperationsSeparated, WorkerGone, HistoryFits, MarkerFits, MarkerDurable, WellFormed,
      Receivable, ReadsOk, Delivered, WindowSince;
    assert OwnerOk(w, o);
  }

  lemma {:induction false} WorkersKeepSync(w: World, o: nat, act: Act)
    requires Invariant(w) && Enabled(w, o, act) && act.SyncDirectory?
    ensures WorkersOk(Perform(w, o, act))
  {
    hide GrantsOk, DisksOk, OperationsSeparated, WorkerGone, RulerOk, ChildFits, WellFormed, MustRule, LocksOk,
      Receivable, ReadsOk, Delivered, WindowSince;
    assert OwnerOk(w, o);
  }

  /** Actions on the marker. */
  lemma {:induction false} WorkersKeepMarker(w: World, o: nat, act: Act)
    requires Invariant(w) && Enabled(w, o, act)
    requires act.CreateMarker? || act.WriteMarker? || act.SyncMarker? || act.UnlinkMarker?
    ensures WorkersOk(Perform(w, o, act))
  {
    hide GrantsOk, DisksOk, OperationsSeparated, WorkerGone, RulerOk, ChildFits, WellFormed, MustRule, LocksOk,
      Receivable, ReadsOk, Delivered, WindowSince;
    assert OwnerOk(w, o);
  }

  /** The only live worker under a ruler is its child. */
  lemma {:induction false} RulersChild(w: World, o: nat, p: nat)
    requires Invariant(w) && Rules(w, o) && p in w.workers && Live(w, p)
    ensures w.owners[o].pc.child != NoChild && w.owners[o].pc.child.pid == p
    ensures w.workers[p].granted <==> w.owners[o].pc.child.Granted?
  {
    hide GrantsOk, DisksOk, OperationsSeparated, RulerOk, MustRule, LocksOk, Receivable, ReadsOk, Delivered,
      WindowSince;
    assert OwnerOk(w, o);
  }

  /** Actions on the record and the lock name. */
  lemma {:induction false} WorkersKeepFiles(w: World, o: nat, act: Act)
    requires Invariant(w) && Enabled(w, o, act)
    requires act.RenameRecord? || act.UnlinkRecord? || act.UnlinkLock?
    ensures WorkersOk(Perform(w, o, act))
  {
    hide GrantsOk, DisksOk, OperationsSeparated, WorkerGone, RulerOk, ChildFits, WellFormed, LocksOk, Receivable,
      ReadsOk, Delivered, WindowSince;
    assert OwnerOk(w, o);
    forall p | p in w.workers && Live(w, p)
      ensures !w.workers[p].granted && act.RenameRecord?
    {
      RulersChild(w, o, p);
    }
  }

  lemma {:induction false} WorkersKeepFork(w: World, o: nat, act: Act)
    requires Invariant(w) && Enabled(w, o, act) && act.Fork?
    ensures WorkersOk(Perform(w, o, act))
  {
    hide GrantsOk, DisksOk, OperationsSeparated, WorkerGone, RulerOk, WellFormed, Receivable, ReadsOk, Delivered,
      WindowSince;
    assert OwnerOk(w, o);
  }

  lemma {:induction false} WorkersKeepGrant(w: World, o: nat, act: Act)
    requires Invariant(w) && Enabled(w, o, act) && act.Grant?
    ensures WorkersOk(Perform(w, o, act))
  {
    hide GrantsOk, DisksOk, OperationsSeparated, WorkerGone, HistoryFits, MarkerFits, MarkerDurable, WellFormed,
      Receivable, ReadsOk, Delivered, WindowSince;
    assert OwnerOk(w, o);
  }

  lemma {:induction false} WorkersKeepReap(w: World, o: nat, act: Act)
    requires Invariant(w) && Enabled(w, o, act) && act.Reap?
    ensures WorkersOk(Perform(w, o, act))
  {
    hide GrantsOk, DisksOk, OperationsSeparated, WorkerGone, RulerOk, WellFormed, Receivable, ReadsOk, Delivered,
      WindowSince;
    assert OwnerOk(w, o);
  }

  /** Taking and giving up the lock. */
  lemma {:induction false} GrantsKeepTaking(w: World, o: nat, act: Act)
    requires Invariant(w) && Enabled(w, o, act) && (act.OpenLock? || act.TakeLock? || act.CloseLock? || act.SeeMarker?)
    ensures GrantsOk(Perform(w, o, act))
  {
    hide DisksOk, OperationsSeparated, WorkersOk, HistoryFits, MarkerFits, MarkerDurable, WellFormed, WorkerGone,
      Receivable, ReadsOk, Delivered, WindowSince;
    assert OwnerOk(w, o);
  }

  /** The check that no recorded worker remains. */
  lemma {:induction false} GrantsKeepCheck(w: World, o: nat, act: Act)
    requires Invariant(w) && Enabled(w, o, act) && (act.SeeNoWorker? || act.CheckName?)
    ensures GrantsOk(Perform(w, o, act))
  {
    hide DisksOk, OperationsSeparated, WorkersOk, HistoryFits, MarkerFits, MarkerDurable, WellFormed, LocksOk,
      Receivable, ReadsOk, Delivered, WindowSince;
    assert OwnerOk(w, o);
  }

  /** Actions on the marker, and those without an effect. */
  lemma {:induction false} GrantsKeepMarker(w: World, o: nat, act: Act)
    requires Invariant(w) && Enabled(w, o, act)
    requires (act.CreateMarker? || act.WriteMarker? || act.SyncMarker? || act.UnlinkMarker? || act.Launch? || act.Verify?)
    ensures GrantsOk(Perform(w, o, act))
  {
    hide DisksOk, OperationsSeparated, WorkersOk, HistoryFits, MarkerFits, MarkerDurable, WellFormed, LocksOk,
      WorkerGone, ChildFits, Receivable, ReadsOk, Delivered, WindowSince;
    assert OwnerOk(w, o);
  }

  lemma {:induction false} GrantsKeepSync(w: World, o: nat, act: Act)
    requires Invariant(w) && Enabled(w, o, act) && (act.SyncDirectory?)
    ensures GrantsOk(Perform(w, o, act))
  {
    hide DisksOk, OperationsSeparated, WorkersOk, HistoryFits, MarkerFits, MarkerDurable, WellFormed, LocksOk,
      WorkerGone, ChildFits, Receivable, ReadsOk, Delivered, WindowSince;
    assert OwnerOk(w, o);
  }

  /** Actions on the record and the lock name. */
  lemma {:induction false} GrantsKeepFiles(w: World, o: nat, act: Act)
    requires Invariant(w) && Enabled(w, o, act) && (act.RenameRecord? || act.UnlinkRecord? || act.UnlinkLock?)
    ensures GrantsOk(Perform(w, o, act))
  {
    hide DisksOk, OperationsSeparated, WorkersOk, HistoryFits, MarkerFits, MarkerDurable, WellFormed, LocksOk,
      WorkerGone, Receivable, ReadsOk, Delivered, WindowSince;
    assert OwnerOk(w, o);
  }

  lemma {:induction false} GrantsKeepFork(w: World, o: nat, act: Act)
    requires Invariant(w) && Enabled(w, o, act) && (act.Fork?)
    ensures GrantsOk(Perform(w, o, act))
  {
    hide DisksOk, OperationsSeparated, WorkersOk, HistoryFits, MarkerFits, MarkerDurable, WellFormed, LocksOk,
      WorkerGone, Receivable, ReadsOk, Delivered, WindowSince;
    assert OwnerOk(w, o);
  }

  lemma {:induction false} GrantsKeepGrant(w: World, o: nat, act: Act)
    requires Invariant(w) && Enabled(w, o, act) && (act.Grant?)
    ensures GrantsOk(Perform(w, o, act))
  {
    hide DisksOk, OperationsSeparated, WorkersOk, HistoryFits, MarkerFits, MarkerDurable, WellFormed, WorkerGone,
      Receivable, ReadsOk, Delivered, WindowSince;
    assert OwnerOk(w, o);
  }

  lemma {:induction false} GrantsKeepReap(w: World, o: nat, act: Act)
    requires Invariant(w) && Enabled(w, o, act) && (act.Reap?)
    ensures GrantsOk(Perform(w, o, act))
  {
    hide DisksOk, OperationsSeparated, WorkersOk, HistoryFits, MarkerFits, MarkerDurable, WellFormed, LocksOk,
      WorkerGone, Receivable, ReadsOk, Delivered, WindowSince;
    assert OwnerOk(w, o);
  }

  lemma {:induction false} GrantsKeep(w: World, o: nat, act: Act)
    requires Invariant(w) && Enabled(w, o, act)
    ensures GrantsOk(Perform(w, o, act))
  {
    hide Perform, Enabled, LocksOk, OwnersOk, WorkersOk, GrantsOk, DisksOk, OperationsSeparated;
    if act.OpenLock? || act.TakeLock? || act.CloseLock? || act.SeeMarker? {
      GrantsKeepTaking(w, o, act);
    } else if act.SeeNoWorker? || act.CheckName? {
      GrantsKeepCheck(w, o, act);
    } else if act.SyncDirectory? {
      GrantsKeepSync(w, o, act);
    } else if act.RenameRecord? || act.UnlinkRecord? || act.UnlinkLock? {
      GrantsKeepFiles(w, o, act);
    } else if act.Fork? {
      GrantsKeepFork(w, o, act);
    } else if act.Grant? {
      GrantsKeepGrant(w, o, act);
    } else if act.Reap? {
      GrantsKeepReap(w, o, act);
    } else {
      GrantsKeepMarker(w, o, act);
    }
  }

  lemma {:induction false} DisksKeep(w: World, o: nat, act: Act)
    requires Invariant(w) && Enabled(w, o, act)
    ensures DisksOk(Perform(w, o, act))
  {
    hide OperationsSeparated, WorkerGone, WorkersOk, GrantsOk, SettledBefore, WindowVerified, Receivable, ReadsOk,
      Delivered, WindowSince;
    assert OwnerOk(w, o);
    var s, h := w.owners[o], w.history;
    if act.UnlinkMarker? {
      UnlinkSettles(h, s);
    } else if act.Grant? {
      if !s.pc.child.kind.Operate? {
        SettledGrows(h, GrantedTo(s.pc.child.pid, s.pc.child.kind));
      }
    } else if act.Reap? && Success(act.status) {
      SettledGrows(h, ReapedOk(s.pc.child.pid, s.pc.child.kind, act.time));
    } else if act.Verify? {
      SettledGrows(h, WindowSeen(act.window, s.pc.phase.launched, s.pc.phase.since, s.made));
    }
  }

  lemma {:induction false} SeparatedKeep(w: World, o: nat, act: Act)
    requires Invariant(w) && Enabled(w, o, act)
    ensures OperationsSeparated(Perform(w, o, act).history)
  {
    hide OperationsSeparated, WorkerGone, WorkersOk, GrantsOk, DisksOk, SettledBefore, WindowVerified, Receivable,
      ReadsOk, Delivered, WindowSince;
    assert OwnerOk(w, o);
    var s, h := w.owners[o], w.history;
    if act.UnlinkMarker? {
      SeparatedGrows(h, MarkerUnlinked);
    } else if act.Grant? {
      SeparatedGrows(h, GrantedTo(s.pc.child.pid, s.pc.child.kind));
    } else if act.Reap? && Success(act.status) {
      SeparatedGrows(h, ReapedOk(s.pc.child.pid, s.pc.child.kind, act.time));
    } else if act.Verify? {
      SeparatedGrows(h, WindowSeen(act.window, s.pc.phase.launched, s.pc.phase.since, s.made));
    }
  }

  /** The other owners neither rule nor gain or lose a child. */
  lemma {:induction false} OthersKeep(w: World, o: nat, act: Act, o': nat)
    requires Invariant(w) && Enabled(w, o, act) && o' in w.owners && o' != o
    ensures OwnerOk(Perform(w, o, act), o')
  {
    hide DisksOk, OperationsSeparated, WorkerGone, MarkerFits, RecordFits, HistoryFits, MarkerDurable, WorkersOk,
      GrantsOk, Settled, Success, Receivable, ReadsOk, Delivered, WindowSince;
    assert OwnerOk(w, o) && OwnerOk(w, o');
  }

  lemma {:induction false} SelfKeepsQuiet(w: World, o: nat, act: Act)
    requires Invariant(w) && Enabled(w, o, act) && (!RulersAct(act) || act.Launch?)
    ensures OwnerOk(Perform(w, o, act), o)
  {
    hide OperationsSeparated, WorkerGone, WorkersOk, GrantsOk, SettledBefore, Receivable, ReadsOk, Delivered,
      WindowSince;
    assert OwnerOk(w, o);
  }

  lemma {:induction false} SelfKeepsSync(w: World, o: nat, act: Act)
    requires Invariant(w) && Enabled(w, o, act) && act.SyncDirectory?
    ensures OwnerOk(Perform(w, o, act), o)
  {
    hide OperationsSeparated, WorkerGone, WorkersOk, GrantsOk, SettledBefore, Receivable, ReadsOk, Delivered,
      WindowSince;
    assert OwnerOk(w, o);
  }

  lemma {:induction false} SelfKeepsRecord(w: World, o: nat, act: Act)
    requires Invariant(w) && Enabled(w, o, act) && act.RenameRecord?
    ensures OwnerOk(Perform(w, o, act), o)
  {
    hide OperationsSeparated, WorkerGone, WorkersOk, GrantsOk, SettledBefore, DisksOk, LocksOk, Receivable,
      ReadsOk, Delivered, WindowSince;
    assert OwnerOk(w, o);
  }

  lemma {:induction false} SelfKeepsFiles(w: World, o: nat, act: Act)
    requires Invariant(w) && Enabled(w, o, act) && (act.UnlinkRecord? || act.UnlinkLock?)
    ensures OwnerOk(Perform(w, o, act), o)
  {
    hide OperationsSeparated, WorkerGone, WorkersOk, GrantsOk, SettledBefore, DisksOk, LocksOk, ChildFits,
      Receivable, ReadsOk, Delivered, WindowSince;
    assert OwnerOk(w, o);
    Childless(Perform(w, o, act), o);
  }

  lemma {:induction false} Childless(w: World, o: nat)
    requires o in w.owners && w.owners[o].pc.child.NoChild?
    ensures ChildFits(w, o) && ChildAllowed(w.owners[o].pc)
  {
  }

  lemma {:induction false} SelfKeepsMarker(w: World, o: nat, act: Act)
    requires Invariant(w) && Enabled(w, o, act) && (act.CreateMarker? || act.WriteMarker? || act.SyncMarker?)
    ensures OwnerOk(Perform(w, o, act), o)
  {
    hide OperationsSeparated, WorkerGone, WorkersOk, GrantsOk, SettledBefore, DisksOk, LocksOk, ChildFits,
      MarkerDurable, WellFormed, Receivable, ReadsOk, Delivered, WindowSince;
    assert OwnerOk(w, o);
    assert w.owners[o].pc.child.NoChild?;
    Childless(Perform(w, o, act), o);
  }

  lemma {:induction false} SelfKeepsUnlink(w: World, o: nat, act: Act)
    requires Invariant(w) && Enabled(w, o, act) && act.UnlinkMarker?
    ensures OwnerOk(Perform(w, o, act), o)
  {
    hide OperationsSeparated, WorkerGone, WorkersOk, GrantsOk, SettledBefore, DisksOk, LocksOk, ChildFits,
      MarkerDurable, WellFormed, Receivable, ReadsOk, Delivered, WindowSince;
    assert OwnerOk(w, o);
    Childless(Perform(w, o, act), o);
  }

  lemma {:induction false} SelfKeepsFork(w: World, o: nat, act: Act)
    requires Invariant(w) && Enabled(w, o, act) && act.Fork?
    ensures OwnerOk(Perform(w, o, act), o)
  {
    hide OperationsSeparated, WorkerGone, WorkersOk, GrantsOk, SettledBefore, Receivable, ReadsOk, Delivered,
      WindowSince;
    assert OwnerOk(w, o);
  }

  lemma {:induction false} SelfKeepsGrant(w: World, o: nat, act: Act)
    requires Invariant(w) && Enabled(w, o, act) && act.Grant?
    ensures OwnerOk(Perform(w, o, act), o)
  {
    hide OperationsSeparated, WorkerGone, WorkersOk, GrantsOk, SettledBefore, DisksOk, LocksOk, Receivable,
      ReadsOk, Delivered, WindowSince;
    assert OwnerOk(w, o);
  }

  lemma {:induction false} SelfKeepsReap(w: World, o: nat, act: Act)
    requires Invariant(w) && Enabled(w, o, act) && act.Reap?
    ensures OwnerOk(Perform(w, o, act), o)
  {
    hide OperationsSeparated, WorkerGone, SettledBefore, DisksOk, LocksOk, Receivable, ReadsOk, Delivered,
      WindowSince;
    assert OwnerOk(w, o);
  }

  lemma {:induction false} SelfKeepsVerify(w: World, o: nat, act: Act)
    requires Invariant(w) && Enabled(w, o, act) && act.Verify?
    ensures OwnerOk(Perform(w, o, act), o)
  {
    hide OperationsSeparated, WorkerGone, Receivable, WorkersOk, GrantsOk, SettledBefore, DisksOk, LocksOk;
    assert OwnerOk(w, o);
  }

  lemma {:induction false} OwnersKeep(w: World, o: nat, act: Act)
    requires Invariant(w) && Enabled(w, o, act)
    ensures OwnersOk(Perform(w, o, act))
  {
    hide OwnerOk, Perform, Enabled, LocksOk, WorkersOk, GrantsOk, DisksOk, OperationsSeparated;
    if !RulersAct(act) || act.Launch? {
      SelfKeepsQuiet(w, o, act);
    } else if act.SyncDirectory? {
      SelfKeepsSync(w, o, act);
    } else if act.RenameRecord? {
      SelfKeepsRecord(w, o, act);
    } else if act.UnlinkRecord? || act.UnlinkLock? {
      SelfKeepsFiles(w, o, act);
    } else if act.UnlinkMarker? {
      SelfKeepsUnlink(w, o, act);
    } else if act.Fork? {
      SelfKeepsFork(w, o, act);
    } else if act.Grant? {
      SelfKeepsGrant(w, o, act);
    } else if act.Reap? {
      SelfKeepsReap(w, o, act);
    } else if act.Verify? {
      SelfKeepsVerify(w, o, act);
    } else {
      SelfKeepsMarker(w, o, act);
    }
    var w' := Perform(w, o, act);
    SameOwners(w, o, act);
    forall o' | o' in w'.owners
      ensures OwnerOk(w', o')
    {
      if o' != o {
        OthersKeep(w, o, act, o');
      }
    }
  }

  lemma {:induction false} SameOwners(w: World, o: nat, act: Act)
    requires |w.disks| > 0 && Enabled(w, o, act)
    ensures Perform(w, o, act).owners.Keys == w.owners.Keys && |Perform(w, o, act).disks| > 0
  {
  }

  /** An owner's action leaves the observers of the others alone. */
  lemma {:induction false} OthersReads(w: World, o: nat, act: Act, o': nat)
    requires |w.disks| > 0 && OwnersOk(w) && Enabled(w, o, act) && o' in w.owners && o' != o && ReadsFit(w, o')
    ensures ReadsFit(Perform(w, o, act), o')
  {
    hide RulerOk, WorkerReads, Genuine, MustRule, WorkerGone, LockFree, Receivable, DiskAfter, HistoryAfter;
    assert OwnerOk(w, o) && OwnerOk(w, o');
  }

  lemma {:induction false} OwnReads(w: World, o: nat, act: Act)
    requires |w.disks| > 0 && OwnersOk(w) && Enabled(w, o, act) && ReadsFit(w, o)
    ensures ReadsFit(Perform(w, o, act), o)
  {
    hide RulerOk, MustRule, WorkerGone, LockFree, Receivable, DiskAfter, HistoryAfter, Genuine, Delivered;
    assert OwnerOk(w, o);
    NothingRead(w.owners[o].pc.phase, w.now);
  }

  lemma {:induction false} NothingRead(phase: Phase, now: nat)
    ensures phase.Launched? ==> Genuine([], phase.since)
  {
  }

  lemma {:induction false} ReadsKeep(w: World, o: nat, act: Act)
    requires Invariant(w) && Enabled(w, o, act)
    ensures ReadsOk(Perform(w, o, act))
  {
    hide Perform, Enabled, LocksOk, OwnersOk, WorkersOk, GrantsOk, DisksOk, OperationsSeparated, ReadsFit;
    SameOwners(w, o, act);
    ActEnabled(w, o, act);
    assert ReadsFit(w, o);
    OwnReads(w, o, act);
    forall o' | o' in w.owners && o' != o
      ensures ReadsFit(Perform(w, o, act), o')
    {
      OthersReads(w, o, act, o');
    }
  }

  lemma {:induction false} ActKeeps(w: World, o: nat, act: Act)
    requires Invariant(w) && Enabled(w, o, act)
    ensures Invariant(Perform(w, o, act))
  {
    hide Perform, Enabled, LocksOk, OwnersOk, WorkersOk, GrantsOk, DisksOk, OperationsSeparated, ReadsOk;
    SameOwners(w, o, act);
    ReadsKeep(w, o, act);
    LocksKeep(w, o, act);
    OwnersKeep(w, o, act);
    if act.Fork? {
      WorkersKeepFork(w, o, act);
    } else if act.Grant? {
      WorkersKeepGrant(w, o, act);
    } else if act.Reap? {
      WorkersKeepReap(w, o, act);
    } else if !RulersAct(act) || act.Launch? || act.Verify? {
      WorkersKeepQuiet(w, o, act);
    } else if act.RenameRecord? || act.UnlinkRecord? || act.UnlinkLock? {
      WorkersKeepFiles(w, o, act);
    } else if act.SyncDirectory? {
      WorkersKeepSync(w, o, act);
    } else {
      WorkersKeepMarker(w, o, act);
    }
    GrantsKeep(w, o, act);
    DisksKeep(w, o, act);
    SeparatedKeep(w, o, act);
  }

  /** Every step of anybody, at any time, keeps the invariant. */
  lemma {:induction false} StepKeeps(w: World, step: Step)
    requires Invariant(w) && CanStep(w, step)
    ensures Invariant(Successor(w, step))
  {
    match step
    case Arrive(o) => ArriveKeeps(w, o);
    case Act(o, act) => hide Invariant, Perform; ActKeeps(w, o, act);
    case Crash(o) => CrashKeeps(w, o);
    case Exit(p, status) => ExitKeeps(w, p, status);
    case Collect(p) => CollectKeeps(w, p);
    case Pass(now) => PassKeeps(w, now);
    case BeginRead(_, _) => ReadKeeps(w, step);
    case EndRead(_, _, _, _) => ReadKeeps(w, step);
    case Restart(_, _, _, _, _) => RestartKeeps(w, step);
  }

  lemma {:induction false} RunsKeep(w: World, steps: seq<Step>)
    requires Invariant(w) && Runs(w, steps)
    ensures Invariant(EndOf(w, steps))
    decreases steps
  {
    hide LocksOk, OwnersOk, WorkersOk, GrantsOk, DisksOk, OperationsSeparated, Successor, CanStep;
    if steps != [] {
      StepKeeps(w, steps[0]);
      RunsKeep(Successor(w, steps[0]), steps[1..]);
    }
  }

  lemma {:induction false} InitialHolds(w: World)
    requires Initial(w)
    ensures Invariant(w)
  {
  }

  // ---------------------------------------------------------------------------
  // Main results, for every run from an idle directory
  // ---------------------------------------------------------------------------

  lemma {:induction false} Reachable(w: World, steps: seq<Step>)
    requires Initial(w) && Runs(w, steps)
    ensures Invariant(EndOf(w, steps))
  {
    InitialHolds(w);
    RunsKeep(w, steps);
  }

  /** Between any two operations that were granted lie, in this order, the grant of a
      recovery worker, its success, a complete minute of system reads, every one of them
      begun and received after that success, and the removal of the marker. The records
      say when the reads began, except perhaps the first, and it only if the clock failed
      at the launch and the success came at most five seconds after the clock's zero.
   */
  lemma {:induction false} RecoveryBetweenOperations(w: World, steps: seq<Step>, i: nat, j: nat)
    requires Initial(w) && Runs(w, steps)
    requires var h := EndOf(w, steps).history;
             i < j < |h| && OperationGrant(h[i]) && OperationGrant(h[j])
    ensures var h := EndOf(w, steps).history;
            exists r: nat, x: nat, v: nat, u: nat ::
              && i < r && u < j && RecoveryAt(h, r, x, v, u)
              && CompleteWindow(h[v].window, h[v].launched) && ReceivedSince(h[v].window, h[x].time)
              && ReadAs(h[v].window, h[v].made) && ReadsAfter(h[v].window, h[v].made, h[v].launched, h[x].time)
  {
    hide LocksOk, OwnersOk, WorkersOk, DisksOk, Runs, EndOf, WindowSince, ReadAs, ReadsAfter;
    Reachable(w, steps);
    var h := EndOf(w, steps).history;
    assert SettledBefore(h, j) && RecoveredBetween(h, i, j);
    var r: nat, x: nat, v: nat, u: nat :| i < r && u < j && RecoveryAt(h, r, x, v, u);
    WindowFollows(h[v], h[x].time);
  }

  lemma {:induction false} WindowFollows(e: Event, reaped: nat)
    requires WindowSince(e, reaped)
    ensures CompleteWindow(e.window, e.launched) && ReceivedSince(e.window, reaped)
    ensures ReadAs(e.window, e.made) && ReadsAfter(e.window, e.made, e.launched, reaped)
  {
    hide ReadAs, Genuine, CompleteWindow;
    GenuineFollows(e.window, e.launched, e.since, e.made, reaped);
  }

  /** From the grant of an operation until a whole recovery has followed it, the
      complete marker is in place, and no restart can lose it.
   */
  lemma {:induction false} MarkerOutlivesOperation(w: World, steps: seq<Step>, i: nat, d: nat)
    requires Initial(w) && Runs(w, steps)
    requires var w' := EndOf(w, steps);
             && i < |w'.history| && OperationGrant(w'.history[i])
             && !RecoveredBetween(w'.history, i, |w'.history|) && d < |w'.disks|
    ensures MarkerDurable(EndOf(w, steps).disks[d])
  {
    hide LocksOk, OwnersOk, WorkersOk, GrantsOk, OperationsSeparated, Runs, EndOf;
    Reachable(w, steps);
  }

  /** No two processes hold the lock on the file that the lock name denotes. */
  lemma {:induction false} OneRuler(w: World, steps: seq<Step>, o: nat, o': nat)
    requires Initial(w) && Runs(w, steps)
    requires Rules(EndOf(w, steps), o) && Rules(EndOf(w, steps), o')
    ensures o == o'
  {
    hide OwnersOk, DisksOk, WorkersOk, GrantsOk, OperationsSeparated, Runs, EndOf;
    Reachable(w, steps);
  }

  /** At most one worker that was granted execution is alive, whoever forked it and
      whether its owner is alive or not; while it lives no other process can get past
      the check of the lock name.
   */
  lemma {:induction false} OneGrantedWorker(w: World, steps: seq<Step>, p: nat)
    requires Initial(w) && Runs(w, steps)
    requires p in EndOf(w, steps).workers && Live(EndOf(w, steps), p)
    ensures var w' := EndOf(w, steps);
            && (forall q | q in w'.workers && Live(w', q) :: q == p)
            && (forall o | o in w'.owners && MustRule(w'.owners[o].pc.phase) ::
                  w'.owners[o].pc.child != NoChild && w'.owners[o].pc.child.pid == p)
            && (forall o | o in w'.owners && w'.owners[o].lock == w'.workers[p].lock :: !Enabled(w', o, TakeLock))
  {
    hide DisksOk, OperationsSeparated, Runs, EndOf, RulerOk, ChildFits;
    Reachable(w, steps);
    var w' := EndOf(w, steps);
    forall o | o in w'.owners && MustRule(w'.owners[o].pc.phase)
      ensures w'.owners[o].pc.child != NoChild && w'.owners[o].pc.child.pid == p
    {
      assert OwnerOk(w', o) && Rules(w', o);
    }
  }

  /** Whatever a restart finds: a marker is never without a well-formed record, and a
      granted worker is the recorded one for as long as it is in the process table, even
      when it has ended and was not collected.
   */
  lemma {:induction false} RecordNamesWorker(w: World, steps: seq<Step>, d: nat)
    requires Initial(w) && Runs(w, steps) && d < |EndOf(w, steps).disks|
    ensures var w' := EndOf(w, steps);
            && (forall i | 0 <= i < |w'.disks| :: w'.disks[i].marker.Some? ==> WellFormed(w'.disks[d].record))
            && (forall p | p in w'.workers && w'.workers[p].granted :: w'.disks[d].record == RecordOf(p))
  {
    hide LocksOk, OwnersOk, OperationsSeparated, Runs, EndOf;
    Reachable(w, steps);
  }

  /** An owner past the check of the lock name shares the process table with no granted
      worker but its own child, neither running nor ended and uncollected.
   */
  lemma {:induction false} OwnerActsAlone(w: World, steps: seq<Step>, o: nat, p: nat)
    requires Initial(w) && Runs(w, steps)
    requires var w' := EndOf(w, steps);
             && o in w'.owners && MustRule(w'.owners[o].pc.phase)
             && p in w'.workers && w'.workers[p].granted
    ensures var child := EndOf(w, steps).owners[o].pc.child;
            child.Granted? && child.pid == p
  {
    hide LocksOk, DisksOk, WorkersOk, OperationsSeparated, Runs, EndOf, RulerOk;
    Reachable(w, steps);
    assert OwnerOk(EndOf(w, steps), o);
  }
}
