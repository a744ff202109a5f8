/** Runs that exist: the guarantees of WorldSafety are about worlds in which operations
    do run, any number of them, and a recovery can end with the marker removed but its
    removal not made durable.
 */
module WorldWitness {
  import opened SmcBaseline
  import opened MinuteRule
  import opened OwnerProtocol
  import opened World
  import opened WorldSafety
  import opened ProtocolTraces

  /** The directory as a run leaves it: a lock name, a record of a process that is gone. */
  const CLEAR := Disk(None, true, RecordOf(5), Some(0))
  const PENDING := Disk(Some(MARKER), true, RecordOf(5), Some(0))

  /** Nothing runs. */
  function Idle(h: seq<Event>): World {
    World([CLEAR], 1, map[], map[], h, SECOND)
  }

  /** Process 1 runs, without a child. */
  function At(d: Disk, phase: Phase, s: Owner, h: seq<Event>, now: nat): World {
    World([d], 1, map[1 := s.(pc := Pc(phase, NoChild))], map[], h, now)
  }

  const NEWCOMER := Owner(START, 0, 0, 0, 0, [])

  predicate Reaches(steps: seq<Step>, w: World) {
    Runs(Idle([]), steps) && EndOf(Idle([]), steps) == w
  }

  lemma {:induction false} Extend(w: World, steps: seq<Step>, step: Step)
    requires |w.disks| > 0 && Runs(w, steps) && CanStep(EndOf(w, steps), step)
    ensures Runs(w, steps + [step]) && EndOf(w, steps + [step]) == Successor(EndOf(w, steps), step)
    decreases |steps|
  {
    hide CanStep, Successor;
    var longer := steps + [step];
    if steps != [] {
      assert longer[1..] == steps[1..] + [step];
      Extend(Successor(w, steps[0]), steps[1..], step);
    } else {
      assert longer[1..] == [];
    }
  }

  /** The machine was not restarted. */
  predicate NoRestart(steps: seq<Step>) {
    forall k | 0 <= k < |steps| :: !steps[k].Restart?
  }

  /** One run continues another without a restart. */
  predicate Continues(steps: seq<Step>, longer: seq<Step>) {
    NoRestart(steps) ==> NoRestart(longer)
  }

  lemma {:induction false} Next(steps: seq<Step>, w: World, step: Step, w': World)
    returns (longer: seq<Step>)
    requires Reaches(steps, w) && |w.disks| > 0 && CanStep(w, step) && Successor(w, step) == w'
    ensures longer == steps + [step] && Reaches(longer, w')
    ensures (NoRestart(steps) && !step.Restart? ==> NoRestart(longer))
  {
    hide CanStep, Successor;
    Extend(Idle([]), steps, step);
    longer := steps + [step];
  }

  lemma {:induction false} Nothing()
    ensures Reaches([], Idle([])) && NoRestart([])
  {
  }

  // ---------------------------------------------------------------------------
  // The stages of a run
  // ---------------------------------------------------------------------------

  lemma {:induction false} Acquires(steps: seq<Step>, s: Owner, h: seq<Event>, now: nat) returns (longer: seq<Step>)
    requires Reaches(steps, At(CLEAR, Outside, s, h, now)) && s.lock == 0
    ensures Reaches(longer, At(CLEAR.(record := RecordOf(0)), Ready(false), s, h, now)) && Continues(steps, longer)
  {
    hide Reaches, NoRestart;
    longer := Next(steps, At(CLEAR, Outside, s, h, now), Act(1, OpenLock(false)), At(CLEAR, Opened(false), s, h, now));
    longer := Next(longer, At(CLEAR, Opened(false), s, h, now), Act(1, TakeLock), At(CLEAR, Locked(false), s, h, now));
    longer := Next(longer, At(CLEAR, Locked(false), s, h, now), Act(1, SeeMarker), At(CLEAR, MarkerSeen(false), s, h, now));
    longer := Next(longer, At(CLEAR, MarkerSeen(false), s, h, now), Act(1, SeeNoWorker),
                   At(CLEAR, WorkerAbsent(false), s, h, now));
    longer := Next(longer, At(CLEAR, WorkerAbsent(false), s, h, now), Act(1, CheckName), At(CLEAR, Named(false), s, h, now));
    longer := Zeroes(longer, s, h, now);
  }

  lemma {:induction false} Zeroes(steps: seq<Step>, s: Owner, h: seq<Event>, now: nat) returns (longer: seq<Step>)
    requires Reaches(steps, At(CLEAR, Named(false), s, h, now)) && s.lock == 0
    ensures Reaches(longer, At(CLEAR.(record := RecordOf(0)), Ready(false), s, h, now)) && Continues(steps, longer)
  {
    hide Reaches, NoRestart;
    var d := CLEAR.(record := RecordOf(0));
    var zeroed := At(d, Zeroed(false), s, h, now).(disks := [CLEAR, d]);
    longer := Next(steps, At(CLEAR, Named(false), s, h, now), Act(1, RenameRecord(0)), zeroed);
    longer := Next(longer, zeroed, Act(1, SyncDirectory), At(d, Ready(false), s, h, now));
  }

  lemma {:induction false} Marks(steps: seq<Step>, s: Owner, h: seq<Event>, now: nat) returns (longer: seq<Step>)
    requires Reaches(steps, At(CLEAR.(record := RecordOf(0)), Ready(false), s, h, now))
    ensures Reaches(longer, At(PENDING.(record := RecordOf(0)), Marked, s, h, now)) && Continues(steps, longer)
  {
    hide Reaches, NoRestart;
    var d0 := CLEAR.(record := RecordOf(0));
    var d1 := d0.(marker := Some(""), markerSynced := false);
    var d2 := d0.(marker := Some(MARKER), markerSynced := false);
    var d3 := PENDING.(record := RecordOf(0));
    assert "" + MARKER == MARKER;
    var w0 := At(d0, Ready(false), s, h, now);
    var w1 := At(d0, Marking("", false), s, h, now).(disks := [d0, d1]);
    var w2 := At(d0, Marking(MARKER, false), s, h, now).(disks := [d0, d1, d2]);
    var w3 := At(d0, Marking(MARKER, true), s, h, now).(disks := [d0, d1, d2, d3]);
    longer := Next(steps, w0, Act(1, CreateMarker), w1);
    longer := Next(longer, w1, Act(1, WriteMarker(MARKER)), w2);
    longer := Next(longer, w2, Act(1, SyncMarker), w3);
    longer := Next(longer, w3, Act(1, SyncDirectory), At(d3, Marked, s, h, now));
  }

  /** Process 1 has a child, and so much of the directory is not yet synced. */
  function With(disks: seq<Disk>, phase: Phase, child: Child, s: Owner, h: seq<Event>, now: nat, worker: Worker): World {
    World(disks, 1, map[1 := s.(pc := Pc(phase, child))], map[5 := worker], h, now)
  }

  /** A worker that has not ended, and an observer with these reads. */
  function Blocked(kind: Kind): Worker {
    Worker(1, 0, kind, false, None, None, [])
  }

  function Running(kind: Kind, made: seq<Read>): Worker {
    Worker(1, 0, kind, true, None, None, made)
  }

  /** Fork, record and grant a worker of any kind. */
  lemma {:induction false} Spawns(steps: seq<Step>, d: Disk, phase: Phase, phase': Phase, kind: Kind, s: Owner,
                                  h: seq<Event>, now: nat) returns (longer: seq<Step>, granted: Owner)
    requires Reaches(steps, At(d, phase, s, h, now)) && s.lock == 0 && MayFork(phase, kind)
    requires phase' == match kind { case Operate => Operated case Recover => Recovering case Observe => phase }
    ensures granted == s.(recoverAt := if kind.Recover? then |h| else s.recoverAt)
    ensures Reaches(longer, With([d.(record := RecordOf(5))], phase', Granted(5, kind), granted, h + [GrantedTo(5, kind)], now,
                                 Running(kind, [])))
    ensures Continues(steps, longer)
  {
    hide Reaches, MayFork, With, NoRestart;
    longer := Forks(steps, d, phase, phase', kind, s, h, now);
    longer := Renames(longer, d, phase', kind, s, h, now);
    longer, granted := Grants(longer, d.(record := RecordOf(5)), phase', kind, s, h, now);
  }

  lemma {:induction false} Forks(steps: seq<Step>, d: Disk, phase: Phase, phase': Phase, kind: Kind, s: Owner,
                                 h: seq<Event>, now: nat) returns (longer: seq<Step>)
    requires Reaches(steps, At(d, phase, s, h, now)) && s.lock == 0 && MayFork(phase, kind)
    requires phase' == match kind { case Operate => Operated case Recover => Recovering case Observe => phase }
    ensures Reaches(longer, With([d], phase', Forked(5, kind), s, h, now, Blocked(kind))) && Continues(steps, longer)
  {
    hide Reaches, MayFork, NoRestart;
    longer := Next(steps, At(d, phase, s, h, now), Act(1, Fork(kind, 5)),
                   With([d], phase', Forked(5, kind), s, h, now, Blocked(kind)));
  }

  lemma {:induction false} Renames(steps: seq<Step>, d: Disk, phase: Phase, kind: Kind, s: Owner, h: seq<Event>,
                                   now: nat)
    returns (longer: seq<Step>)
    requires Reaches(steps, With([d], phase, Forked(5, kind), s, h, now, Blocked(kind)))
    ensures Reaches(longer, With([d.(record := RecordOf(5))], phase, Recorded(5, kind), s, h, now, Blocked(kind)))
    ensures Continues(steps, longer)
  {
    hide Reaches, NoRestart;
    var d' := d.(record := RecordOf(5));
    var w := With([d, d'], phase, Renamed(5, kind), s, h, now, Blocked(kind));
    longer := Next(steps, With([d], phase, Forked(5, kind), s, h, now, Blocked(kind)), Act(1, RenameRecord(5)), w);
    longer := Next(longer, w, Act(1, SyncDirectory), With([d'], phase, Recorded(5, kind), s, h, now, Blocked(kind)));
  }

  lemma {:induction false} Grants(steps: seq<Step>, d: Disk, phase: Phase, kind: Kind, s: Owner, h: seq<Event>,
                                  now: nat)
    returns (longer: seq<Step>, granted: Owner)
    requires Reaches(steps, With([d], phase, Recorded(5, kind), s, h, now, Blocked(kind)))
    ensures granted == s.(recoverAt := if kind.Recover? then |h| else s.recoverAt)
    ensures Reaches(longer, With([d], phase, Granted(5, kind), granted, h + [GrantedTo(5, kind)], now, Running(kind, [])))
    ensures Continues(steps, longer)
  {
    hide Reaches, NoRestart;
    granted := s.(recoverAt := if kind.Recover? then |h| else s.recoverAt);
    longer := Next(steps, With([d], phase, Recorded(5, kind), s, h, now, Blocked(kind)), Act(1, Grant),
                   With([d], phase, Granted(5, kind), granted, h + [GrantedTo(5, kind)], now, Running(kind, [])));
  }

  /** The owner once it has reaped its worker. */
  function Reaper(s: Owner, kind: Kind, h: seq<Event>, made: seq<Read>): Owner {
    match kind
    case Operate => s
    case Recover => s.(reapAt := |h|)
    case Observe => s.(made := made)
  }

  /** The worker exits successfully and is reaped. */
  lemma {:induction false} Ends(steps: seq<Step>, d: Disk, phase: Phase, phase': Phase, kind: Kind, s: Owner,
                                h: seq<Event>, now: nat, made: seq<Read>) returns (longer: seq<Step>)
    requires Reaches(steps, With([d], phase, Granted(5, kind), s, h, now, Running(kind, made)))
    requires phase' == AfterReap(Pc(phase, Granted(5, kind)), Exited(0), now)
    ensures Reaches(longer, At(d, phase', Reaper(s, kind, h, made), h + [ReapedOk(5, kind, now)], now))
    ensures Continues(steps, longer)
  {
    hide Reaches, AfterReap, NoRestart;
    var w := With([d], phase, Granted(5, kind), s, h, now, Running(kind, made).(exit := Some(Exited(0))));
    longer := Next(steps, With([d], phase, Granted(5, kind), s, h, now, Running(kind, made)), Exit(5, Exited(0)), w);
    longer := Next(longer, w, Act(1, Reap(Exited(0), now)),
                   At(d, phase', Reaper(s, kind, h, made), h + [ReapedOk(5, kind, now)], now));
  }

  // ---------------------------------------------------------------------------
  // A minute of reads
  // ---------------------------------------------------------------------------

  /** When an observer launched at this time makes its last read. */
  function Done(time: nat): nat {
    time + BASELINE_NS
  }

  /** Reads once a second. */
  function Punctual(time: nat, n: nat): (made: seq<Read>)
    requires 0 < time && n <= REQUIRED_SAMPLES && Done(time) <= U64_MAX
    ensures |made| == n
  {
    seq(n, k requires 0 <= k < n =>
      Read(Observation(time + k * SECOND, time + k * SECOND, Ok, COOL), time + k * SECOND, time + k * SECOND))
  }

  /** Delivered at once. */
  function Window(time: nat): (window: seq<Delivery>)
    requires 0 < time && Done(time) <= U64_MAX
    ensures |window| == REQUIRED_SAMPLES
  {
    seq(REQUIRED_SAMPLES, k requires 0 <= k < REQUIRED_SAMPLES =>
      Delivery(Observation(time + k * SECOND, time + k * SECOND, Ok, COOL), time + k * SECOND))
  }

  lemma {:induction false} WindowReceivable(time: nat)
    requires 0 < time && Done(time) <= U64_MAX
    ensures Receivable(Window(time), time, time)
    ensures Delivered(Window(time), Punctual(time, REQUIRED_SAMPLES), Done(time))
  {
    CoolSnapshot();
    hide IsSystem;
  }

  /** When read number n ends; before the first, the launch. */
  function EndedAt(time: nat, n: nat): nat {
    if n == 0 then time else time + (n - 1) * SECOND
  }

  /** An observer in the middle of its minute. */
  function Observing(s: Owner, h: seq<Event>, time: nat, n: nat): World
    requires 0 < time && n <= REQUIRED_SAMPLES && Done(time) <= U64_MAX
  {
    With([PENDING], Launched(true, time, time), Granted(5, Observe), s, h, EndedAt(time, n),
      Running(Observe, Punctual(time, n)))
  }

  lemma {:induction false} ReadsOnce(steps: seq<Step>, s: Owner, h: seq<Event>, time: nat, n: nat)
    returns (longer: seq<Step>)
    requires 0 < time && n < REQUIRED_SAMPLES && Done(time) <= U64_MAX
    requires Reaches(steps, Observing(s, h, time, n))
    ensures Reaches(longer, Observing(s, h, time, n + 1)) && Continues(steps, longer)
  {
    hide Reaches, NoRestart;
    var now: nat := time + n * SECOND;
    var w := Observing(s, h, time, n);
    var later := w.(now := now);
    var reading := later.(workers := map[5 := w.workers[5].(reading := Some(Begun(now, now)))]);
    longer := Next(steps, w, Pass(now), later);
    longer := Next(longer, later, BeginRead(5, now), reading);
    assert Punctual(time, n + 1) == Punctual(time, n) + [Read(Observation(now, now, Ok, COOL), now, now)];
    longer := Next(longer, reading, EndRead(5, now, Ok, COOL), Observing(s, h, time, n + 1));
  }

  lemma {:induction false} ReadsOn(steps: seq<Step>, s: Owner, h: seq<Event>, time: nat, n: nat)
    returns (longer: seq<Step>)
    requires 0 < time && n <= REQUIRED_SAMPLES && Done(time) <= U64_MAX
    requires Reaches(steps, Observing(s, h, time, n))
    ensures Reaches(longer, Observing(s, h, time, REQUIRED_SAMPLES)) && Continues(steps, longer)
    decreases REQUIRED_SAMPLES - n
  {
    hide Reaches, NoRestart, Observing;
    longer := steps;
    if n < REQUIRED_SAMPLES {
      longer := ReadsOnce(steps, s, h, time, n);
      longer := ReadsOn(longer, s, h, time, n + 1);
    }
  }

  // ---------------------------------------------------------------------------
  // A whole run
  // ---------------------------------------------------------------------------

  /** What a run with an operation adds to the history, up to its verified window. */
  function Proof(time: nat): (events: seq<Event>)
    requires 0 < time && Done(time) <= U64_MAX
    ensures |events| == 7
  {
    [GrantedTo(5, Operate), ReapedOk(5, Operate, time), GrantedTo(5, Recover), ReapedOk(5, Recover, time),
     GrantedTo(5, Observe), ReapedOk(5, Observe, Done(time)),
     WindowSeen(Window(time), time, time, Punctual(time, REQUIRED_SAMPLES))]
  }

  /** Process 1 after its recovery was granted and reaped, and when it was proved. */
  function Recoverer(s: Owner, h: seq<Event>): Owner {
    s.(recoverAt := |h| + 2, reapAt := |h| + 3)
  }

  function Prover(s: Owner, h: seq<Event>, time: nat): Owner
    requires 0 < time && Done(time) <= U64_MAX
  {
    Recoverer(s, h).(made := Punctual(time, REQUIRED_SAMPLES), windowAt := |h| + 6)
  }

  lemma {:induction false} Operates(steps: seq<Step>, s: Owner, h: seq<Event>, time: nat) returns (longer: seq<Step>)
    requires Reaches(steps, At(CLEAR, Outside, s, h, time)) && s.lock == 0 && 0 < time && Done(time) <= U64_MAX
    ensures Reaches(longer, At(PENDING, Operated, s, h + Proof(time)[..2], time)) && Continues(steps, longer)
  {
    hide Reaches, Punctual, Window, NoRestart;
    var s';
    longer := Acquires(steps, s, h, time);
    longer := Marks(longer, s, h, time);
    longer, s' := Spawns(longer, PENDING.(record := RecordOf(0)), Marked, Operated, Operate, s, h, time);
    longer := Ends(longer, PENDING, Operated, Operated, Operate, s', h + [GrantedTo(5, Operate)], time, []);
    assert h + [GrantedTo(5, Operate)] + [ReapedOk(5, Operate, time)] == h + Proof(time)[..2];
  }

  lemma {:induction false} Recovers(steps: seq<Step>, s: Owner, h: seq<Event>, time: nat) returns (longer: seq<Step>)
    requires 0 < time && Done(time) <= U64_MAX && s.lock == 0
    requires Reaches(steps, At(PENDING, Operated, s, h + Proof(time)[..2], time))
    ensures Reaches(longer, At(PENDING, Phase.Recovered(time), Recoverer(s, h), h + Proof(time)[..4], time))
    ensures Continues(steps, longer)
  {
    hide Reaches, Punctual, Window, NoRestart;
    var now := h + Proof(time)[..2];
    var s';
    longer, s' := Spawns(steps, PENDING, Operated, Recovering, Recover, s, now, time);
    longer := Ends(longer, PENDING, Recovering, Phase.Recovered(time), Recover, s', now + [GrantedTo(5, Recover)], time, []);
    assert now + [GrantedTo(5, Recover)] + [ReapedOk(5, Recover, time)] == h + Proof(time)[..4];
  }

  lemma {:induction false} Observes(steps: seq<Step>, s: Owner, h: seq<Event>, time: nat) returns (longer: seq<Step>)
    requires 0 < time && Done(time) <= U64_MAX && s.lock == 0
    requires Reaches(steps, At(PENDING, Phase.Recovered(time), Recoverer(s, h), h + Proof(time)[..4], time))
    ensures Reaches(longer, At(PENDING, Observed(true, time, time),
                               Recoverer(s, h).(made := Punctual(time, REQUIRED_SAMPLES)), h + Proof(time)[..6], Done(time)))
    ensures Continues(steps, longer)
  {
    hide Reaches, Window, NoRestart;
    var now := h + Proof(time)[..4];
    var launched := Launched(true, time, time);
    longer := Launches(steps, Recoverer(s, h), now, time);
    var s';
    longer, s' := Spawns(longer, PENDING, launched, launched, Observe, Recoverer(s, h), now, time);
    assert Punctual(time, 0) == [];
    longer := ReadsOn(longer, s', now + [GrantedTo(5, Observe)], time, 0);
    longer := Ends(longer, PENDING, launched, Observed(true, time, time), Observe, s', now + [GrantedTo(5, Observe)],
                   Done(time), Punctual(time, REQUIRED_SAMPLES));
    assert now + [GrantedTo(5, Observe)] + [ReapedOk(5, Observe, Done(time))] == h + Proof(time)[..6];
  }

  lemma {:induction false} Launches(steps: seq<Step>, s: Owner, h: seq<Event>, time: nat) returns (longer: seq<Step>)
    requires 0 < time <= U64_MAX && Reaches(steps, At(PENDING, Phase.Recovered(time), s, h, time))
    ensures Reaches(longer, At(PENDING, Launched(true, time, time), s, h, time)) && Continues(steps, longer)
  {
    hide Reaches, NoRestart;
    longer := Next(steps, At(PENDING, Phase.Recovered(time), s, h, time), Act(1, Launch(time, time)),
                   At(PENDING, Launched(true, time, time), s, h, time));
  }

  lemma {:induction false} Proves(steps: seq<Step>, s: Owner, h: seq<Event>, time: nat) returns (longer: seq<Step>)
    requires 0 < time && Done(time) <= U64_MAX
    requires Reaches(steps, At(PENDING, Observed(true, time, time),
                               Recoverer(s, h).(made := Punctual(time, REQUIRED_SAMPLES)), h + Proof(time)[..6], Done(time)))
    ensures Reaches(longer, At(PENDING, Verified(time, time), Prover(s, h, time), h + Proof(time), Done(time)))
    ensures Continues(steps, longer)
  {
    hide Reaches, Punctual, Window, Receivable, Delivered, NoRestart;
    WindowReceivable(time);
    assert h + Proof(time)[..6] + [Proof(time)[6]] == h + Proof(time);
    longer := Next(steps, At(PENDING, Observed(true, time, time),
                             Recoverer(s, h).(made := Punctual(time, REQUIRED_SAMPLES)), h + Proof(time)[..6], Done(time)),
                   Act(1, Verify(Window(time))),
                   At(PENDING, Verified(time, time), Prover(s, h, time), h + Proof(time), Done(time)));
  }

  /** The marker is unlinked. */
  function Removed(phase: Phase, s: Owner, h: seq<Event>, time: nat): World
    requires 0 < time && Done(time) <= U64_MAX
  {
    At(CLEAR, phase, Prover(s, h, time), h + Proof(time) + [MarkerUnlinked], Done(time)).(disks := [PENDING, CLEAR])
  }

  lemma {:induction false} Removes(steps: seq<Step>, s: Owner, h: seq<Event>, time: nat) returns (longer: seq<Step>)
    requires Reaches(steps, At(CLEAR, Outside, s, h, time)) && s.lock == 0 && 0 < time && Done(time) <= U64_MAX
    ensures Reaches(longer, Removed(Unlinked, s, h, time)) && Continues(steps, longer)
    ensures |longer| > 0 && longer[|longer| - 1] == Act(1, UnlinkMarker)
  {
    hide Reaches, Punctual, Proof, NoRestart;
    longer := Operates(steps, s, h, time);
    longer := Recovers(longer, s, h, time);
    longer := Observes(longer, s, h, time);
    longer := Proves(longer, s, h, time);
    longer := Unlinks(longer, s, h, time);
  }

  lemma {:induction false} Unlinks(steps: seq<Step>, s: Owner, h: seq<Event>, time: nat) returns (longer: seq<Step>)
    requires 0 < time && Done(time) <= U64_MAX
    requires Reaches(steps, At(PENDING, Verified(time, time), Prover(s, h, time), h + Proof(time), Done(time)))
    ensures Reaches(longer, Removed(Unlinked, s, h, time)) && longer == steps + [Act(1, UnlinkMarker)]
    ensures Continues(steps, longer)
  {
    hide Reaches, Punctual, Proof, NoRestart;
    longer := Next(steps, At(PENDING, Verified(time, time), Prover(s, h, time), h + Proof(time), Done(time)),
                   Act(1, UnlinkMarker), Removed(Unlinked, s, h, time));
  }

  /** A run makes the removal durable and closes the lock. */
  lemma {:induction false} Finishes(steps: seq<Step>, s: Owner, h: seq<Event>, time: nat) returns (longer: seq<Step>)
    requires 0 < time && Done(time) <= U64_MAX && Reaches(steps, Removed(Unlinked, s, h, time))
    ensures Reaches(longer, At(CLEAR, Outside, Prover(s, h, time), h + (Proof(time) + [MarkerUnlinked]), Done(time)))
    ensures Continues(steps, longer)
  {
    hide Reaches, Punctual, Proof, NoRestart;
    var h' := h + (Proof(time) + [MarkerUnlinked]);
    assert h' == h + Proof(time) + [MarkerUnlinked];
    var w := At(CLEAR, Unlinked, Prover(s, h, time), h', Done(time));
    longer := Next(steps, Removed(Unlinked, s, h, time), Act(1, SyncDirectory), w);
    longer := Next(longer, w, Act(1, CloseLock), At(CLEAR, Outside, Prover(s, h, time), h', Done(time)));
  }

  lemma {:induction false} Arrives(steps: seq<Step>, h: seq<Event>) returns (longer: seq<Step>)
    requires Reaches(steps, Idle(h))
    ensures Reaches(longer, At(CLEAR, Outside, NEWCOMER, h, SECOND)) && Continues(steps, longer)
  {
    hide Reaches, NoRestart;
    longer := Next(steps, Idle(h), Arrive(1), At(CLEAR, Outside, NEWCOMER, h, SECOND));
  }

  // ---------------------------------------------------------------------------
  // Any number of operations
  // ---------------------------------------------------------------------------

  /** How many operations were granted. */
  function OperationsIn(h: seq<Event>): nat {
    if h == [] then 0 else OperationsIn(h[..|h| - 1]) + if OperationGrant(h[|h| - 1]) then 1 else 0
  }

  lemma {:induction false} OperationsAdd(h: seq<Event>, more: seq<Event>)
    ensures OperationsIn(h + more) == OperationsIn(h) + OperationsIn(more)
    decreases |more|
  {
    if more == [] {
      assert h + more == h;
    } else {
      var shorter := more[..|more| - 1];
      assert (h + more)[..|h + more| - 1] == h + shorter;
      OperationsAdd(h, shorter);
    }
  }

  lemma {:induction false} OneOperation(time: nat)
    requires 0 < time && Done(time) <= U64_MAX
    ensures OperationsIn(Proof(time) + [MarkerUnlinked]) == 1
  {
    var h := Proof(time) + [MarkerUnlinked];
    assert forall k | 1 <= k < 8 :: !OperationGrant(h[k]);
    NoMore(h, 8);
  }

  lemma {:induction false} NoMore(h: seq<Event>, n: nat)
    requires 1 <= n <= |h| && OperationGrant(h[0]) && forall k | 1 <= k < n :: !OperationGrant(h[k])
    ensures OperationsIn(h[..n]) == 1
    ensures n == |h| ==> OperationsIn(h) == 1
  {
    assert h[..n][..n - 1] == h[..n - 1];
    if n > 1 {
      NoMore(h, n - 1);
    } else {
      assert h[..1][..0] == [];
    }
    assert n == |h| ==> h[..n] == h;
  }

  /** When the machine has been up for the launches of n runs. */
  function UpFor(n: nat): nat {
    SECOND + n * BASELINE_NS
  }

  /** As many operations as the clock has room for can be run one after another by one
      process, without a restart, each recovered from.
   */
  lemma {:induction false} OperationsInOneBoot(n: nat) returns (steps: seq<Step>, s: Owner, h: seq<Event>)
    requires UpFor(n) <= U64_MAX
    ensures NoRestart(steps) && Reaches(steps, At(CLEAR, Outside, s, h, UpFor(n))) && s.lock == 0
    ensures OperationsIn(h) == n
  {
    hide Removed, Proof, Punctual, Reaches, NoRestart;
    if n == 0 {
      Nothing();
      steps := Arrives([], []);
      s, h := NEWCOMER, [];
    } else {
      var before, s', h' := OperationsInOneBoot(n - 1);
      var time := UpFor(n - 1);
      steps := Removes(before, s', h', time);
      steps := Finishes(steps, s', h', time);
      s, h := Prover(s', h', time), h' + (Proof(time) + [MarkerUnlinked]);
      OneOperation(time);
      OperationsAdd(h', Proof(time) + [MarkerUnlinked]);
    }
  }

  /** Any number of operations can be run one after another, each recovered from. */
  lemma {:induction false} AnyNumberOfOperations(n: nat) returns (steps: seq<Step>, h: seq<Event>)
    ensures Initial(Idle([])) && Reaches(steps, Idle(h)) && OperationsIn(h) == n
  {
    hide Removed, Proof, Punctual, Reaches;
    if n == 0 {
      Nothing();
      steps, h := [], [];
    } else {
      var before, h' := AnyNumberOfOperations(n - 1);
      steps := Arrives(before, h');
      steps := Removes(steps, NEWCOMER, h', SECOND);
      steps := Finishes(steps, NEWCOMER, h', SECOND);
      h := h' + (Proof(SECOND) + [MarkerUnlinked]);
      steps := Restarts(steps, Prover(NEWCOMER, h', SECOND), h, Done(SECOND));
      OneOperation(SECOND);
      OperationsAdd(h', Proof(SECOND) + [MarkerUnlinked]);
    }
  }

  lemma {:induction false} Restarts(steps: seq<Step>, s: Owner, h: seq<Event>, now: nat) returns (longer: seq<Step>)
    requires Reaches(steps, At(CLEAR, Outside, s, h, now))
    ensures Reaches(longer, Idle(h))
  {
    hide Reaches, NoRestart;
    longer := Next(steps, At(CLEAR, Outside, s, h, now), Restart(0, 0, 0, "", SECOND), Idle(h));
  }

  // ---------------------------------------------------------------------------
  // A failure that does not retain the marker
  // ---------------------------------------------------------------------------

  lemma {:induction false} OwnActsExtend(steps: seq<Step>, act: Act, sofar: seq<Act>)
    ensures OwnActs(steps + [Act(1, act)], 1, sofar) == OwnActs(steps, 1, sofar) + [act]
    decreases |steps|
  {
    var longer := steps + [Act(1, act)];
    if steps == [] {
      assert longer[1..] == [];
    } else {
      assert longer[1..] == steps[1..] + [Act(1, act)];
      var next := match steps[0]
        case Arrive(p) => if p == 1 then [] else sofar
        case Act(p, a) => if p == 1 then sofar + [a] else sofar
        case _ => sofar;
      OwnActsExtend(steps[1..], act, next);
    }
  }

  /** The sync after the removal is refused, and the call fails: its trace is lawful and
      ends with the removal and the release of the lock, and the marker is gone. Only a
      restart may bring it back, since the directory was not synced.
   */
  lemma {:induction false} FailureWithoutMarker() returns (steps: seq<Step>, w: World)
    ensures Reaches(steps, w) && Lawful(OwnActs(steps, 1, []))
    ensures var acts := OwnActs(steps, 1, []);
            |acts| >= 2 && acts[|acts| - 2..] == [Act.UnlinkMarker, Act.CloseLock]
    ensures |w.disks| == 2 && Visible(w).marker.None? && MarkerDurable(w.disks[0])
    ensures CanStep(w, Restart(0, 0, 0, "", 0)) && CanStep(w, Restart(1, 0, 0, "", 0))
  {
    hide Punctual, Proof, OwnActs, Runs, EndOf, NoRestart;
    Nothing();
    steps := Arrives([], []);
    steps := Removes(steps, NEWCOMER, [], SECOND);
    var before := steps[..|steps| - 1];
    OwnActsExtend(before, Act.UnlinkMarker, []);
    assert steps == before + [Act(1, Act.UnlinkMarker)];
    OwnActsExtend(steps, Act.CloseLock, []);
    w := Removed(Outside, NEWCOMER, [], SECOND);
    steps := Next(steps, Removed(Unlinked, NEWCOMER, [], SECOND), Act(1, CloseLock), w);
    OwnersFollowProtocol(Idle([]), steps, 1, []);
  }

  // ---------------------------------------------------------------------------
  // A worker that outlives its owner
  // ---------------------------------------------------------------------------

  /** Process 2 in this phase with lock file 0 open, beside what remains of the workers;
      process 1 has crashed after an operation was granted.
   */
  function Orphaned(phase: Phase, workers: map<nat, Worker>): World {
    World([PENDING], 1, map[2 := Owner(Pc(phase, NoChild), 0, 0, 0, 0, [])], workers, [GrantedTo(5, Operate)], SECOND)
  }

  const SURVIVOR := Running(Operate, [])
  const ENDED := SURVIVOR.(exit := Some(Signaled))

  lemma {:induction false} OwnerCrashes() returns (steps: seq<Step>)
    ensures Reaches(steps, Orphaned(Outside, map[5 := SURVIVOR]))
  {
    hide Reaches, NoRestart;
    Nothing();
    var d := PENDING.(record := RecordOf(0));
    var s;
    steps := Arrives([], []);
    steps := Acquires(steps, NEWCOMER, [], SECOND);
    steps := Marks(steps, NEWCOMER, [], SECOND);
    steps, s := Spawns(steps, d, Marked, Operated, Operate, NEWCOMER, [], SECOND);
    var alone := World([PENDING], 1, map[], map[5 := SURVIVOR], [GrantedTo(5, Operate)], SECOND);
    steps := Next(steps, With([PENDING], Operated, Granted(5, Operate), s, [] + [GrantedTo(5, Operate)], SECOND, SURVIVOR),
                  Crash(1), alone);
    steps := Next(steps, alone, Arrive(2), Orphaned(Outside, map[5 := SURVIVOR]));
  }

  /** An operation's worker outlives its crashed owner. Another process can open the lock
      file but not lock it while the worker lives, and cannot find the recorded worker gone
      while it has ended and was not collected; after that it can.
   */
  lemma {:induction false} SurvivorBlocks() returns (living: seq<Step>, ended: seq<Step>, gone: seq<Step>)
    ensures Reaches(living, Orphaned(Opened(true), map[5 := SURVIVOR]))
    ensures var w := Orphaned(Opened(true), map[5 := SURVIVOR]);
            && Live(w, 5) && w.workers[5].granted && w.workers[5].owner !in w.owners
            && Allowed(w.owners[2].pc, TakeLock) && !Enabled(w, 2, TakeLock)
    ensures Reaches(ended, Orphaned(MarkerSeen(true), map[5 := ENDED]))
    ensures var w := Orphaned(MarkerSeen(true), map[5 := ENDED]);
            Allowed(w.owners[2].pc, SeeNoWorker) && !Enabled(w, 2, SeeNoWorker)
    ensures Reaches(gone, Orphaned(WorkerAbsent(true), map[]))
  {
    hide Reaches, NoRestart;
    living := OwnerCrashes();
    living := Next(living, Orphaned(Outside, map[5 := SURVIVOR]), Act(2, OpenLock(true)),
                   Orphaned(Opened(true), map[5 := SURVIVOR]));
    ended := Next(living, Orphaned(Opened(true), map[5 := SURVIVOR]), Exit(5, Signaled),
                  Orphaned(Opened(true), map[5 := ENDED]));
    ended := Next(ended, Orphaned(Opened(true), map[5 := ENDED]), Act(2, TakeLock), Orphaned(Locked(true), map[5 := ENDED]));
    ended := Next(ended, Orphaned(Locked(true), map[5 := ENDED]), Act(2, SeeMarker),
                  Orphaned(MarkerSeen(true), map[5 := ENDED]));
    gone := Next(ended, Orphaned(MarkerSeen(true), map[5 := ENDED]), Collect(5), Orphaned(MarkerSeen(true), map[]));
    gone := Next(gone, Orphaned(MarkerSeen(true), map[]), Act(2, SeeNoWorker), Orphaned(WorkerAbsent(true), map[]));
  }

  /** Worker p does not end by itself and the machine is not restarted. */
  predicate GoesOn(steps: seq<Step>, p: nat) {
    forall k | 0 <= k < |steps| :: !steps[k].Restart? && !(steps[k].Exit? && steps[k].pid == p)
  }

  lemma {:induction false} StepSpares(w: World, step: Step, p: nat)
    requires |w.disks| > 0 && CanStep(w, step) && Live(w, p)
    requires !step.Restart? && !(step.Exit? && step.pid == p)
    ensures Live(Successor(w, step), p)
    ensures Successor(w, step).workers[p].lock == w.workers[p].lock
    ensures w.workers[p].granted ==> Successor(w, step).workers[p].granted
  {
  }

  /** Whoever crashes, a worker lives until it exits, and holds its lock file. */
  lemma {:induction false} WorkerLivesOn(w: World, steps: seq<Step>, p: nat)
    requires |w.disks| > 0 && Runs(w, steps) && Live(w, p) && GoesOn(steps, p)
    ensures var w' := EndOf(w, steps);
            && Live(w', p) && w'.workers[p].lock == w.workers[p].lock
            && (w.workers[p].granted ==> w'.workers[p].granted)
            && forall o | o in w'.owners && w'.owners[o].lock == w.workers[p].lock :: !Enabled(w', o, TakeLock)
    decreases |steps|
  {
    hide CanStep, Successor;
    if steps != [] {
      StepSpares(w, steps[0], p);
      WorkerLivesOn(Successor(w, steps[0]), steps[1..], p);
    }
  }
}
