/** What every trace of one supervisor process has in common, whatever it calls and
    whatever the system answers; and that the world's owners leave exactly such traces.
 */
module ProtocolTraces {
  import opened SmcBaseline
  import opened MinuteRule
  import opened OwnerProtocol
  import opened World

  /** A trace the protocol allows. */
  predicate Lawful(acts: seq<Act>) {
    Position(acts).Some?
  }

  /** Where the trace has led before action n. */
  function PcAt(acts: seq<Act>, n: nat): Pc
    requires Lawful(acts) && n <= |acts|
    ensures Position(acts[..n]) == Some(PcAt(acts, n))
  {
    PrefixLawful(acts, n);
    Position(acts[..n]).value
  }

  lemma {:induction false} PrefixLawful(acts: seq<Act>, n: nat)
    requires Lawful(acts) && n <= |acts|
    ensures Lawful(acts[..n])
    decreases |acts|
  {
    if n < |acts| {
      var before := acts[..|acts| - 1];
      PrefixLawful(before, n);
      assert before[..n] == acts[..n];
    } else {
      assert acts[..n] == acts;
    }
  }

  /** Every action was allowed, and led where the automaton says. */
  lemma {:induction false} ActLawful(acts: seq<Act>, n: nat)
    requires Lawful(acts) && n < |acts|
    ensures Allowed(PcAt(acts, n), acts[n]) && PcAt(acts, n + 1) == After(PcAt(acts, n), acts[n])
  {
    var longer := acts[..n + 1];
    PrefixLawful(acts, n + 1);
    assert longer[..|longer| - 1] == acts[..n] && longer[|longer| - 1] == acts[n];
  }

  // ---------------------------------------------------------------------------
  // One worker at a time
  // ---------------------------------------------------------------------------

  /** The child forked at i is neither reaped nor given up before j. */
  predicate Unreaped(acts: seq<Act>, i: nat, j: nat)
    requires j <= |acts|
  {
    forall x | i < x < j :: !acts[x].Reap? && !acts[x].CloseLock?
  }

  lemma {:induction false} ChildStays(acts: seq<Act>, i: nat, j: nat)
    requires Lawful(acts) && i < j <= |acts| && acts[i].Fork? && Unreaped(acts, i, j)
    ensures !PcAt(acts, j).child.NoChild? && PcAt(acts, j).child.pid == acts[i].pid
    ensures PcAt(acts, j).child.kind == acts[i].kind
    decreases j
  {
    hide Lawful;
    ActLawful(acts, j - 1);
    if j > i + 1 {
      ChildStays(acts, i, j - 1);
    }
  }

  /** While ownership lasts, no worker is forked before the one before it was reaped. */
  lemma {:induction false} PhasesDoNotOverlap(acts: seq<Act>, i: nat, j: nat)
    requires Lawful(acts) && i < j < |acts| && acts[i].Fork? && acts[j].Fork?
    ensures exists x | i < x < j :: acts[x].Reap? || acts[x].CloseLock?
  {
    hide Lawful;
    if Unreaped(acts, i, j) {
      ChildStays(acts, i, j);
      ActLawful(acts, j);
    }
  }

  /** How many children are being supervised. */
  function Supervised(pc: Pc): nat {
    if pc.child.NoChild? then 0 else 1
  }

  /** Every worker is reaped at most once; the ones that are not were given up, or one is being supervised. */
  lemma {:induction false} ReapedAtMostOnce(acts: seq<Act>)
    requires Lawful(acts)
    ensures Collected(acts) + Supervised(PcAt(acts, |acts|)) <= Spawned(acts)
    decreases |acts|
  {
    assert acts[..|acts|] == acts;
    if acts != [] {
      var before := acts[..|acts| - 1];
      PrefixLawful(acts, |acts| - 1);
      ReapedAtMostOnce(before);
      assert before[..|before|] == before;
    }
  }

  // ---------------------------------------------------------------------------
  // Grants
  // ---------------------------------------------------------------------------

  /** Since event f, and apart from event r, nothing was forked, recorded or reaped before n. */
  predicate Undisturbed(acts: seq<Act>, f: nat, r: int, n: nat)
    requires n <= |acts|
  {
    forall x | f < x < n && x != r :: !acts[x].Fork? && !acts[x].RenameRecord? && !acts[x].Reap?
  }

  predicate ForkedAt(acts: seq<Act>, pid: nat, f: nat, n: nat)
    requires n <= |acts|
  {
    f < n && acts[f].Fork? && acts[f].pid == pid && Undisturbed(acts, f, -1, n)
  }

  predicate RenamedAt(acts: seq<Act>, pid: nat, f: nat, r: nat, n: nat)
    requires n <= |acts|
  {
    && f < r < n && acts[f].Fork? && acts[f].pid == pid && acts[r] == RenameRecord(pid)
    && Undisturbed(acts, f, r, n)
  }

  /** Events f, r and s are a child's fork, its record and the record's durability. */
  predicate RecordedAt(acts: seq<Act>, pid: nat, f: nat, r: nat, s: nat, n: nat)
    requires n <= |acts|
  {
    RenamedAt(acts, pid, f, r, n) && r < s < n && acts[s] == SyncDirectory
  }

  /** How far the current child has come, in the words of the trace. */
  ghost predicate ChildTraced(acts: seq<Act>, n: nat, child: Child)
    requires n <= |acts|
  {
    match child
    case NoChild => true
    case Forked(pid, _) => exists f: nat :: ForkedAt(acts, pid, f, n)
    case Renamed(pid, _) => exists f: nat, r: nat :: RenamedAt(acts, pid, f, r, n)
    case Recorded(pid, _) => exists f: nat, r: nat, s: nat :: RecordedAt(acts, pid, f, r, s, n)
    case Granted(pid, _) => exists f: nat, r: nat, s: nat :: RecordedAt(acts, pid, f, r, s, n)
  }

  lemma {:induction false} ChildIsTraced(acts: seq<Act>, n: nat)
    requires Lawful(acts) && n <= |acts|
    ensures ChildTraced(acts, n, PcAt(acts, n).child)
  {
    hide Lawful;
    if n == 0 {
      NothingDone();
      assert acts[..0] == [];
    } else {
      ChildIsTraced(acts, n - 1);
      ActLawful(acts, n - 1);
      TraceStep(acts, n - 1, PcAt(acts, n - 1));
    }
  }

  lemma {:induction false} TraceStep(acts: seq<Act>, n: nat, pc: Pc)
    requires n < |acts| && ChildTraced(acts, n, pc.child) && Allowed(pc, acts[n])
    ensures ChildTraced(acts, n + 1, After(pc, acts[n]).child)
  {
    var child', pid := After(pc, acts[n]).child, if pc.child.NoChild? then 0 else pc.child.pid;
    if acts[n].Fork? {
      assert ForkedAt(acts, acts[n].pid, n, n + 1);
    } else if child'.Forked? {
      var f: nat :| ForkedAt(acts, pid, f, n);
      assert ForkedAt(acts, pid, f, n + 1);
    } else if pc.child.Forked? && child'.Renamed? {
      var f: nat :| ForkedAt(acts, pid, f, n);
      assert RenamedAt(acts, pid, f, n, n + 1);
    } else if child'.Renamed? {
      var f: nat, r: nat :| RenamedAt(acts, pid, f, r, n);
      assert RenamedAt(acts, pid, f, r, n + 1);
    } else if pc.child.Renamed? && child'.Recorded? {
      var f: nat, r: nat :| RenamedAt(acts, pid, f, r, n);
      assert RecordedAt(acts, pid, f, r, n, n + 1);
    } else if !child'.NoChild? {
      var f: nat, r: nat, s: nat :| RecordedAt(acts, pid, f, r, s, n);
      assert RecordedAt(acts, pid, f, r, s, n + 1);
    }
  }

  lemma {:induction false} NothingDone()
    ensures Position([]) == Some(START)
  {
  }

  /** A worker is granted execution only after a record of exactly its identifier was
      renamed into place and made durable.
   */
  lemma {:induction false} GrantFollowsRecord(acts: seq<Act>, g: nat)
    requires Lawful(acts) && g < |acts| && acts[g].Grant?
    ensures PcAt(acts, g).child.Recorded?
    ensures exists f: nat, r: nat, s: nat :: RecordedAt(acts, PcAt(acts, g).child.pid, f, r, s, g)
  {
    ChildIsTraced(acts, g);
    ActLawful(acts, g);
  }

  // ---------------------------------------------------------------------------
  // The world's owners
  // ---------------------------------------------------------------------------

  /** What process o has done since it arrived, continuing a trace so far. */
  function OwnActs(steps: seq<Step>, o: nat, sofar: seq<Act>): seq<Act>
    decreases |steps|
  {
    if steps == [] then sofar
    else
      var next := match steps[0]
        case Arrive(p) => if p == o then [] else sofar
        case Act(p, act) => if p == o then sofar + [act] else sofar
        case _ => sofar;
      OwnActs(steps[1..], o, next)
  }

  /** Along every run, each living process has left a trace the protocol allows, which
      led exactly where the process is.
   */
  lemma {:induction false} OwnersFollowProtocol(w: World, steps: seq<Step>, o: nat, sofar: seq<Act>)
    requires |w.disks| > 0 && Runs(w, steps)
    requires o in w.owners ==> Position(sofar) == Some(w.owners[o].pc)
    ensures o in EndOf(w, steps).owners ==> Position(OwnActs(steps, o, sofar)) == Some(EndOf(w, steps).owners[o].pc)
    decreases |steps|
  {
    hide DiskAfter, WorkersAfter, HistoryAfter, Enabled, Position;
    if steps != [] {
      var step := steps[0];
      var w' := Successor(w, step);
      if step.Act? && step.o == o {
        ActEnabled(w, o, step.act);
        ActAppended(sofar, step.act);
        OwnersFollowProtocol(w', steps[1..], o, sofar + [step.act]);
      } else if step == Arrive(o) {
        NothingDone();
        OwnersFollowProtocol(w', steps[1..], o, []);
      } else {
        OwnersFollowProtocol(w', steps[1..], o, sofar);
      }
    }
  }
}
