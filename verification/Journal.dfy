/** The durable marker that control is pending. */
module ControlIntentJournal {
  import opened SmcBaseline
  import opened MinuteRule
  import opened LeaseSpec
  import opened ControlLeaseReducer
  import opened OwnerProtocol
  import opened SupervisorKernel

  /** The time a number of calls may take. */
  function Steps(count: nat, step: nat): nat {
    count * step
  }

  lemma {:induction false} MoreSteps(step: nat, done: nat, count: nat)
    requires count > 0
    ensures Steps(done, step) + step <= Steps(done + count, step)
  {
    assert (done + count) * step == done * step + count * step;
    assert count * step >= step;
  }

  lemma {:induction false} NoSteps(step: nat)
    ensures Steps(0, step) == 0
  {
  }

  lemma {:induction false} CountSteps(count: nat, step: nat)
    ensures Steps(count, step) == count * step
  {
  }

  /** The reading loop: the text read so far, up to the marker's length. */
  method ReadContents(k: Kernel) returns (contents: string)
    requires k.view == Contents("", false)
    modifies k`calls, k`time, k`patience, k`errors, k`view
    ensures k.view.Contents? && k.view.text == contents && |contents| <= |MARKER|
    ensures |contents| == |MARKER| ==> !k.view.ended
    ensures k.errors == old(k.errors) && |contents| < |MARKER| ==> k.view.ended
    ensures old(k.time) <= k.time <= old(k.time) + 51 * k.step + (old(k.patience) - k.patience)
    ensures k.patience <= old(k.patience) && old(k.errors) <= k.errors
    ensures k.errors > old(k.errors) ==> |contents| < |MARKER|
  {
    hide Steps;
    contents := "";
    NoSteps(k.step);
    CountSteps(51, k.step);
    MoreSteps(k.step, |MARKER|, 51 - |MARKER|);
    while |contents| < |MARKER|
      invariant |contents| <= |MARKER| && k.view == Contents(contents, false)
      invariant k.patience <= old(k.patience) && old(k.errors) == k.errors
      invariant old(k.time) <= k.time <= old(k.time) + Steps(|contents|, k.step) + (old(k.patience) - k.patience)
      decreases k.patience, |MARKER| - |contents|
    {
      var outcome, chunk := k.ReadMarker(|MARKER| - |contents|);
      if outcome.Moved? && outcome.count > 0 {
        MoreSteps(k.step, |contents|, outcome.count);
        contents := contents + chunk;
      } else if !outcome.Interrupted? {
        MoreSteps(k.step, |contents|, 51 - |contents|);
        return;
      }
    }
  }

  /** Pending exactly if the marker could be read and is the private file that was
      written; clear exactly if there is none.
   */
  method ControlIntentRead(k: Kernel) returns (intent: Intent)
    modifies k`calls, k`time, k`patience, k`errors, k`view
    ensures old(k.errors) <= k.errors
    ensures intent.Clear? <==> k.errors == old(k.errors) && k.view == Absent
    ensures intent.Pending? <==> k.errors == old(k.errors) && k.view == SEEN_PENDING
    ensures intent.Unknown? <==> k.errors > old(k.errors) || SeenOther(k.view)
    ensures old(k.time) <= k.time <= old(k.time) + 55 * k.step + (old(k.patience) - k.patience)
    ensures k.patience <= old(k.patience)
  {
    var isPrivate := k.Try();
    if !isPrivate {
      return Unknown;
    }
    var found := k.OpenMarker();
    if !found.Present? {
      return if found.Missing? then Clear else Unknown;
    }
    intent := Unknown;
    var exact := k.MarkerExact();
    if exact {
      var contents := ReadContents(k);
      if |contents| == |MARKER| && contents == MARKER {
        intent := Pending;
      }
    }
    var closed := k.Try();
    if !closed {
      return Unknown;
    }
  }

  // ---------------------------------------------------------------------------
  // Marking
  // ---------------------------------------------------------------------------

  /** Only steps towards a complete, durable marker. */
  predicate OnlyMarks(before: seq<Act>, after: seq<Act>) {
    && before <= after
    && (forall i | |before| <= i < |after| ::
          after[i].CreateMarker? || after[i].WriteMarker? || after[i].SyncMarker? || after[i].SyncDirectory?)
  }

  /** The writing loop: how much of the text was written. */
  method WriteContents(k: Kernel, text: string) returns (written: nat)
    requires |text| <= 50 && k.Valid() && k.pc == Pc(Marking("", false), NoChild)
    modifies k`calls, k`time, k`patience, k`errors, k`acts, k`pc
    ensures k.Valid() && written <= |text| && k.pc == Pc(Marking(text[..written], false), NoChild)
    ensures OnlyMarks(old(k.acts), k.acts)
    ensures old(k.time) <= k.time <= old(k.time) + 51 * k.step + (old(k.patience) - k.patience)
    ensures k.patience <= old(k.patience)
    ensures old(k.errors) <= k.errors && (k.errors == old(k.errors) ==> written == |text|)
  {
    hide Kernel.Valid, Steps;
    written := 0;
    NoSteps(k.step);
    CountSteps(51, k.step);
    MoreSteps(k.step, |text|, 51 - |text|);
    assert text[..0] == "";
    while written < |text|
      invariant k.Valid() && written <= |text| && k.pc == Pc(Marking(text[..written], false), NoChild)
      invariant OnlyMarks(old(k.acts), k.acts)
      invariant k.patience <= old(k.patience) && k.errors == old(k.errors)
      invariant old(k.time) <= k.time <= old(k.time) + Steps(written, k.step) + (old(k.patience) - k.patience)
      decreases k.patience, |text| - written
    {
      var outcome := k.WriteMarker(text[written..]);
      if outcome.Moved? && outcome.count > 0 {
        MoreSteps(k.step, written, outcome.count);
        assert text[..written] + text[written..][..outcome.count] == text[..written + outcome.count];
        written := written + outcome.count;
      } else if outcome.Interrupted? {
        continue;
      } else {
        MoreSteps(k.step, written, 51 - written);
        assert outcome.Moved? ==> text[..written] + text[written..][..0] == text[..written];
        return;
      }
    }
  }

  /** Write the marker that was just created, and make it and its name durable. */
  method WriteMarkerFile(k: Kernel) returns (durable: bool)
    requires k.Valid() && k.pc == Pc(Marking("", false), NoChild)
    modifies k`calls, k`time, k`patience, k`errors, k`acts, k`pc, k`refused
    ensures k.Valid() && k.pc.child.NoChild? && (k.pc.phase.Marking? || k.pc.phase.Marked?)
    ensures durable ==> k.pc.phase.Marked?
    ensures OnlyMarks(old(k.acts), k.acts)
    ensures old(k.time) <= k.time <= old(k.time) + 54 * k.step + (old(k.patience) - k.patience)
    ensures k.patience <= old(k.patience)
    ensures old(k.errors) <= k.errors && (k.errors == old(k.errors) ==> durable)
  {
    hide Kernel.Valid;
    var written := WriteContents(k, MARKER);
    durable := written == |MARKER|;
    if durable {
      assert MARKER[..written] == MARKER;
      durable := k.Perform(Act.SyncMarker);
    }
    var closed := k.Try();
    durable := durable && closed;
    var synced := k.Perform(Act.SyncDirectory);
    durable := durable && synced;
  }

  /** The marker becomes complete and durable, or the call fails; it never removes
      what it has written.
   */
  method MarkPending(k: Kernel, lease: ControlLease) returns (durable: bool)
    requires k.Valid() && k.pc == Pc(Ready(false), NoChild)
    modifies lease, k`calls, k`time, k`patience, k`errors, k`view, k`acts, k`pc, k`refused
    ensures k.Valid() && k.pc.child.NoChild? && !k.pc.phase.Outside? && !k.pc.phase.Recovered?
    ensures lease.Value() == Prepare(old(lease.Value()))
    ensures durable ==> PrepareGranted(old(lease.Value())) && k.pc.phase.Marked?
    ensures OnlyMarks(old(k.acts), k.acts)
    ensures old(k.time) <= k.time <= old(k.time) + 110 * k.step + (old(k.patience) - k.patience)
    ensures k.patience <= old(k.patience)
    ensures old(k.errors) <= k.errors
    ensures !durable ==>
              || k.errors > old(k.errors) || !PrepareGranted(old(lease.Value()))
              || k.view == SEEN_PENDING || SeenOther(k.view)
  {
    hide Kernel.Valid;
    var prepared := lease.PreparePersistentIntent();
    if !prepared {
      return false;
    }
    var intent := ControlIntentRead(k);
    if !intent.Clear? {
      return false;
    }
    var created := k.Perform(Act.CreateMarker);
    if !created {
      return false;
    }
    durable := WriteMarkerFile(k);
  }

  // ---------------------------------------------------------------------------
  // Clearing
  // ---------------------------------------------------------------------------

  /** The marker is removed only by consuming a recovery proof; success means that it
      was removed durably. A failure leaves the marker alone, unless the directory sync
      after its removal was refused: then it is gone, and the proof with it.
   */
  method ClearVerified(k: Kernel, lease: ControlLease) returns (cleared: bool)
    requires k.Valid() && k.pc.phase.Verified? && k.pc.child.NoChild?
    modifies lease, k`calls, k`time, k`patience, k`errors, k`view, k`acts, k`pc, k`refused, k`removals
    ensures k.Valid() && k.pc.child.NoChild? && (k.pc.phase.Verified? || k.pc.phase.Unlinked?)
    ensures cleared ==>
              k.removals == old(k.removals) + 1 && k.acts == old(k.acts) + [Act.UnlinkMarker, Act.SyncDirectory]
    ensures !cleared && k.removals == old(k.removals) ==> k.acts == old(k.acts)
    ensures !cleared && k.removals != old(k.removals) ==>
              && k.removals == old(k.removals) + 1 && k.acts == old(k.acts) + [Act.UnlinkMarker]
              && k.refused == Some(Act.SyncDirectory) && k.errors > old(k.errors)
    ensures k.removals != old(k.removals) ==> ProofAvailable(old(lease.Value()))
    ensures k.removals != old(k.removals) ==> lease.Value() == TakeProof(old(lease.Value()))
    ensures lease.Value() == old(lease.Value()) || lease.Value() == TakeProof(old(lease.Value()))
    ensures old(k.time) <= k.time <= old(k.time) + 57 * k.step + (old(k.patience) - k.patience)
    ensures k.patience <= old(k.patience)
    ensures old(k.errors) <= k.errors
    ensures !cleared ==>
              || k.errors > old(k.errors) || !ProofAvailable(old(lease.Value())) || k.view == Absent || SeenOther(k.view)
  {
    hide Kernel.Valid;
    var intent := ControlIntentRead(k);
    if !intent.Pending? {
      return false;
    }
    var taken := lease.TakeRecoveryProof();
    if !taken {
      return false;
    }
    var unlinked := k.RemoveMarker();
    if !unlinked {
      return false;
    }
    cleared := k.Perform(Act.SyncDirectory);
  }
}
