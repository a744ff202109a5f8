# Fail-closed fan control

Two fail-closed protocols share one idea: nobody claims that the fans are back under
the system's control without a fresh, gap-free minute of observations.

* **The crash-safe supervisor** (`prototype/helper-ipc`). A timed lease
  (`LeaseSpec`, `ControlLease`, `LeaseHistory`, `LeaseStates`), a durable marker that control is
  pending (`Journal`), exclusive ownership with a durable worker record (`Ownership`,
  `WorkerRecord`), and a supervisor that runs operation, recovery and observation as
  separate processes (`WorkerLifetime`, `ObserverPipe`, `WorkerSupervisor`,
  `WorkerProcess`, `SupervisorProbe`).
* **The hardware trial** (`prototype/smc-write-trial/trial_actions.c`). Bounded
  procedures drive a device that may fail, change late, on its own or despite a
  rejected write (`TrialDevice`, `TrialRestore`, `TrialUnlock`, `TrialActions`).

`BaselineWatch` is a third implementation of the same minute rule; it, the lease and
the trial's window are proved to agree.

## How the supervisor is put together

`OwnerProtocol` is an automaton over the actions of one supervisor process that
others, or a later restart, can notice: locks, forks, grants, reapings, renames,
syncs and unlinks. `Kernel` is the operating system as that process meets it. Its
answers are an arbitrary function of the call number; each call that others can
notice demands that the automaton allows it and appends it to a trace. So verifying
the supervisor's methods proves that they never leave the automaton, whatever the
system answers.

`World` composes any number of such automata with their workers, the lock files and
the private directory. A step is an owner's action, a kill of an owner, the begin or end
of an observer's read, the end of a worker, the collection of an orphan, the passing of
time, or a restart that finds marker, record and lock name each as it was at some time
since the last sync. `WorldSafety` proves an invariant of every step
and the results about all runs; `ProtocolTraces` connects the two views.

Reads of the SMC, the clock, the process table and file contents are answers of the
kernel, the device or the worker. Every class takes its answers as a parameter; the
cancellation flag is an arbitrary function of time.

## Results

Each result is about all runs, all histories or all answers of the system or device.

1. *Between two operations lies a whole recovery* (`WorldSafety.RecoveryBetweenOperations`),
   the marker outlives the operation until then (`MarkerOutlivesOperation`), and one
   worker at most is granted execution (`OneGrantedWorker`, `RecordNamesWorker`,
   `OwnerActsAlone`). They rest on `WorldSafety.Reachable`, that is on
   `WorldSafety.StepKeeps`; `WorldWitness.AnyNumberOfOperations` and
   `OperationsInOneBoot` show that such runs exist, `SurvivorBlocks` that a worker can
   outlive its owner and keeps the next owner out.
2. *The code stays within the automaton of those worlds.* Each method from `Ownership` to
   `SupervisorProbe` meets the kernel's demands; `ProtocolTraces` says what every such
   trace has in common (`PhasesDoNotOverlap`, `GrantFollowsRecord`).
3. *What the entry points mean* (`WorkerSupervisor.WorkerSupervisorRun`, `WorkerSupervisorResume`,
   `WorkerSupervisorObserveBaseline`, `SupervisorProbe.Probe`): evidence for success, a
   named cause for failure, an operation that was started and given its time, what is
   left of lease and marker, balanced children and bounded time. They rest on `ObserverPipe.ReadObserver`, `WorkerLifetime.WaitPhase`,
   `ControlIntentJournal.ClearVerified` and `SupervisorOwnership.Acquire`.
4. *What the lease's answers mean over every history of calls* (`LeaseHistory.ProofSound`,
   `ProofsDisjoint`, `PendingFallsOnlyByRecovery`, `AuthorityChain`, `ClaimedMinute`), all from
   `LeaseHistory.InvariantHolds`; and exactly when it is in each of its states and grants
   each call (`LeaseStates.HeldExactly`, `GrantedExactly`, `ClaimedExactly`, `ProvenExactly`).
5. *Three implementations of one minute rule agree* (`BaselineWatchReducer.MinuteAgreement`,
   `MinuteAgreement.TrialMinuteAccepted`).
6. *The hardware trial fails closed for every device* (`TrialActions.CheckFtst`,
   `RehearseFtstMinimumRecovery`, `ExecuteDirect`, `TrialUnlock.RestoreUnlock`), on
   `TrialDevice.RunIsConsecutive` and `TrialRestore.ObserveBaselineWindow`; and it does
   restore unless it is kept from it (`TrialUnlock.ClearsUnlessObstructed`).

## Where the code and its comments differ

* `WorkerSupervisor.h` says that failure retains the pending marker. If the unlink
  succeeds and only the directory sync after it fails, the call reports a failed
  observation with the marker gone (`ControlIntentJournal.c`, line 75);
  `WorldWitness.FailureWithoutMarker` is such a run. This is the only exception: every
  other failure of `WorkerSupervisorRun` and `WorkerSupervisorResume` leaves the marker
  alone, and the exception consumes a proof.
* The launch time of an observation is not checked for a failed clock, unlike the
  deadline read just after it, so a first record whose own clock failed as well is not
  refused. Every read still begins after the recovery worker was reaped, since the
  observer is forked later; the record alone does not show it. `ObserverPipe.ReadsFollowReap`
  says exactly when: only for the first record, and only if the reaping came at most
  five seconds after the clock's zero.
* A lease that was only zeroed is in the observing state and counts samples from time
  zero. Offered samples without a start it can be claimed after less than a minute of
  readings (`LeaseHistory.UnstartedLeaseIsClaimedEarly`). `LeaseHistory.ClaimedMinute` says
  exactly when a claim follows a full minute, by the observation start that the caller
  can read. The supervisor's first record starts the lease.

## Model

| member | source | states |
|---|---|---|
| WorldSafety.RecoveryBetweenOperations | prototype/helper-ipc/WorkerSupervisor.c:316-410 | In every run of any number of supervisor processes, with kills, surviving workers and restarts at any step: between the grants of two operation workers lie, in this order, a recovery worker's grant, its clean exit, a complete minute of system reads, every one of them really begun and received after that exit, and the removal of the marker. Every record but the first says when its read began, and the first does too unless the clock failed at the launch and the exit came at most five seconds after the clock's zero. |
| ObserverPipe.ReadsFollowReap | prototype/helper-ipc/WorkerSupervisor.c:174-296 | For every window that can be accepted and every observer forked after the launch that can have written it: each read really began after the recovery worker was reaped, and each record but the first says when. A first record that does not say so exists if and only if the launch time is zero and the reaping came at most five seconds after the clock's zero. |
| WorldSafety.MarkerOutlivesOperation | prototype/helper-ipc/ControlIntentJournal.c:50-77 | From the grant of an operation until a whole recovery has followed it, the complete marker is in every directory state that a restart could find. |
| WorldSafety.OneGrantedWorker | prototype/helper-ipc/SupervisorOwnership.c:79-98 | A live worker is the only one, over all owners past and present; an owner past the name check has it as its child, and no process can lock the file it holds. |
| WorldSafety.RecordNamesWorker | prototype/helper-ipc/SupervisorOwnership.c:54-98 | Whichever of the updates since the last sync a restart finds, a marker (complete or not) comes with a well-formed record, and a granted worker is the recorded one until it has left the process table. |
| WorldSafety.OwnerActsAlone | prototype/helper-ipc/SupervisorOwnership.c:32-52 | An owner past the name check shares the process table with no granted worker but its own child, running or uncollected; this is what the check of the old record adds to the lock. |
| WorldSafety.StepKeeps | prototype/helper-ipc/WorkerSupervisor.c:112-148 | Every step of an owner, a worker, init, the clock or a restart keeps the invariant from which the four results above follow, including cleanup racing with acquisition. |
| WorldSafety.Reachable | prototype/helper-ipc/WorkerSupervisor.c:298-410 | The invariant holds in every world reachable from an idle directory, whatever record or lock name is left in it. |
| WorldSafety.UnlinkSettles | prototype/helper-ipc/ControlIntentJournal.c:72-77 | Removing the marker after a verified window completes a recovery that lies after every operation granted so far. |
| WorldSafety.OneRuler | prototype/helper-ipc/SupervisorOwnership.c:79-98 | In every reachable world, two processes that hold the lock on the named lock file are the same process. |
| ProtocolTraces.OwnersFollowProtocol | prototype/helper-ipc/WorkerSupervisor.c:298-410 | Along every run of the world each living process has left a trace the supervisor's protocol allows, leading exactly where the process is; the code below is proved to leave only such traces. |
| ProtocolTraces.PhasesDoNotOverlap | prototype/helper-ipc/WorkerSupervisor.c:348-377 | In every trace of one process, two forks have a reaping (or the end of ownership) between them: no phase starts before the one before it was reaped. |
| ProtocolTraces.ReapedAtMostOnce | prototype/helper-ipc/WorkerSupervisor.c:62-110 | Children reaped, plus the one being supervised, never exceed children forked. |
| ProtocolTraces.GrantFollowsRecord | prototype/helper-ipc/WorkerSupervisor.c:139-148 | A worker is granted execution only after a record of exactly its PID was renamed into place and made durable, with no other fork, record or reaping in between. |
| WorldWitness.AnyNumberOfOperations | prototype/helper-ipc/WorkerSupervisor.c:348-395 | For every n there is a run of the world in which n operations are granted one after another, each marked, run, recovered from, observed for a minute and cleared: the results above are not about an empty set of runs. |
| WorldWitness.OperationsInOneBoot | prototype/helper-ipc/WorkerSupervisor.c:348-395 | The same by one process without a restart, for every n that the clock has room for. |
| WorldWitness.FailureWithoutMarker | prototype/helper-ipc/ControlIntentJournal.c:72-77 | A run in which the directory sync after the removal is refused: its trace is lawful and ends with the removal and the release of the lock, the marker is gone, and a restart may find either directory state. |
| WorldWitness.SurvivorBlocks | prototype/helper-ipc/SupervisorOwnership.c:79-98 | A run in which an owner dies and its granted worker goes on: another process can reach the lock, which it may ask for and cannot have; while the worker is dead but uncollected it cannot pass the check of the old record; and only then it can. |
| WorldWitness.WorkerLivesOn | prototype/helper-ipc/SupervisorOwnership.c:79-109 | Whoever crashes in whatever run: until it exits or the machine restarts, a live worker keeps running with its grant, and no process can take the lock file it holds. |
| ControlLeaseReducer.ControlLease.Start | prototype/helper-ipc/ControlLease.c:24-42 | A clear journal and a valid system reading open an observation; a pending or unknown journal, a failed read or another mode do not. |
| ControlLeaseReducer.ControlLease.Sample | prototype/helper-ipc/ControlLease.c:44-69 | A timely system sample is counted and completes the minute, granting a proof only to a recovery; everything else ends the observation as the code does. |
| ControlLeaseReducer.ControlLease.Claim | prototype/helper-ipc/ControlLease.c:71-98 | Granted exactly for a stable lease, a clear journal, a fresh time and a cool system reading; refusals leave the state the code leaves. |
| ControlLeaseReducer.ControlLease.MarkWritePending | prototype/helper-ipc/ControlLease.c:100-111 | Granted exactly to the owner of an unexpired lease with a pending journal; otherwise the owner loses the lease. |
| ControlLeaseReducer.ControlLease.PreparePersistentIntent | prototype/helper-ipc/ControlLease.c:113-118 | Granted exactly while held without a pending write; the proof flag is dropped. |
| ControlLeaseReducer.ControlLease.Renew | prototype/helper-ipc/ControlLease.c:120-137 | Granted exactly to the owner in time with a cool reading that is system before the mark and not system after it; otherwise recovery is required (LeaseStates.GrantedExactly and HeldExactly say so without the branches). |
| ControlLeaseReducer.ControlLease.OwnerLost | prototype/helper-ipc/ControlLease.c:139-142 | Only the holder's loss has an effect, and it requires recovery. |
| ControlLeaseReducer.ControlLease.Tick | prototype/helper-ipc/ControlLease.c:144-147 | An expired held lease requires recovery, which LeaseHistory.AuthorityChain and LeaseStates.HeldExactly need. |
| ControlLeaseReducer.ControlLease.Sleep | prototype/helper-ipc/ControlLease.c:149-157 | Every state but a failed read requires recovery. |
| ControlLeaseReducer.ControlLease.RecoveryStarted | prototype/helper-ipc/ControlLease.c:159-172 | A system reading after recovery became required opens a new observation; a failed read ends it. |
| ControlLeaseReducer.ControlLease.TakeRecoveryProof | prototype/helper-ipc/ControlLease.c:174-185 | True exactly if a proof is available, and then the proof is gone. |
| LeaseHistory.InvariantHolds | prototype/helper-ipc/ControlLease.c:24-185 | In every history of calls with arbitrary arguments, started or not, cleared at any point, what each lease state says about the past is true. |
| LeaseHistory.ProofSound | prototype/helper-ipc/ControlLease.c:174-185 | An accepted proof implies a full gap-free minute of at least 61 system readings since the latest recovery began, unused by any earlier proof. |
| LeaseHistory.ProofsDisjoint | prototype/helper-ipc/ControlLease.c:159-185 | Two accepted proofs rest on windows that share no reading. |
| LeaseHistory.PendingFallsOnlyByRecovery | prototype/helper-ipc/ControlLease.c:24-69 | A pending write is forgotten only by the sample that completes a recovery window, by a start with a clear journal, or by zeroing the lease. |
| LeaseHistory.AuthorityChain | prototype/helper-ipc/ControlLease.c:71-147 | In every history, every accepted renewal or mark is by the owner of the latest claim, within 15 s of the previous link; the claim came at most 2 s after a full minute (after what a lease that was zeroed and never started counts as one, if its observation start is zero); every link carried a cool reading, system before the mark and not system after it; and nothing in between challenged the owner: every renewal and mark offered under its number was accepted, no other call ended authority, no tick came at or after the expiry of the latest link, the owner was not lost and nobody slept. |
| LeaseHistory.ClaimedMinute | prototype/helper-ipc/ControlLease.c:24-98 | Behind every accepted claim, in every history, one sample made the lease stable, at most 2 s before. It completed a full minute of system readings since a start if and only if the lease's observation start is not zero; if it is zero, the samples offered since the lease was zeroed are a full minute if and only if the first of them came a minute before the last. |
| LeaseHistory.UnstartedLeaseIsClaimedEarly | prototype/helper-ipc/ControlLease.c:44-98 | A concrete history in which a zeroed lease, sampled without a start, is claimed after less than a minute of readings. |
| LeaseHistory.OwnerOnlyWhileHeld | prototype/helper-ipc/ControlLease.c:17-22 | Owner and expiry are nonzero exactly in the held state, which expires 15 s after its last sample. |
| LeaseHistory.NothingWraps | prototype/helper-ipc/ControlLease.c:44-98 | No reachable subtraction or addition wraps; a watching lease holds at most 67 samples, and one with 61 spans less than a minute. |
| LeaseHistory.HeldOnlyByClaim | prototype/helper-ipc/ControlLease.c:71-98 | Once ended, authority returns only through a new accepted claim. |
| LeaseHistory.OpenWindowIsWatched | prototype/helper-ipc/ControlLease.c:44-69 | An open window that is not full keeps the lease watching, whatever else is called. |
| LeaseHistory.WindowEarnsProof | prototype/helper-ipc/ControlLease.c:44-69 | The sample that first completes a window makes the lease stable, and earns a proof exactly if recovery opened the window. |
| LeaseStates.HeldExactly | prototype/helper-ipc/ControlLease.c:71-157 | The lease is held exactly if some accepted claim has not been challenged since, and then owner, expiry 15 s after the last link and pending flag are those of that claim and what followed. |
| LeaseStates.GrantedExactly | prototype/helper-ipc/ControlLease.c:100-137 | A renewal, mark or prepared intent is accepted exactly if a claim still has its authority and the call is one that authority allows: the owner's, before the expiry, with the right reading and journal. |
| LeaseStates.WatchingExactly | prototype/helper-ipc/ControlLease.c:24-172 | The lease watches exactly if a start, a recovery or the zeroing opened an observation that every later call went on with, and the minute is not over; it verifies a recovery exactly if a recovery opened it. |
| LeaseStates.StableExactly | prototype/helper-ipc/ControlLease.c:44-98 | The lease is stable exactly if a minute was completed and nothing has ended its rest since. |
| LeaseStates.ClaimedExactly | prototype/helper-ipc/ControlLease.c:71-98 | A claim is accepted exactly if the lease rests on a completed minute at most 2 s old, the journal is clear, and the reading is cool system mode. |
| LeaseStates.ProvenExactly | prototype/helper-ipc/ControlLease.c:174-185 | A proof is accepted exactly if a recovery's minute was completed and nothing since has consumed or discarded it. |
| LeaseStates.PreparedIsUnproven | prototype/helper-ipc/ControlLease.c:113-118 | After a prepared intent a proof is available only if a minute was completed afterwards. |
| LeaseStates.PendingExactly | prototype/helper-ipc/ControlLease.c:24-111 | A write is pending exactly if a mark was accepted, or a start found the journal not clear, and no full minute of recovery, clear start or zeroing came since. |
| LeaseStates.ReadFailedExactly | prototype/helper-ipc/ControlLease.c:24-172 | A read has failed exactly if some start, sample or recovery failed to read and none since then began anew. |
| LeaseStates.RecoveryRequiredExactly | prototype/helper-ipc/ControlLease.c:24-172 | Recovery is required exactly if some call demanded it and none since then opened an observation or ended it: a refused call of the owner, its loss, an expiry, a sleep, a late or missing reading and the others, each by the call itself. |
| MinuteRule.SpanBounds | prototype/helper-ipc/ControlLease.c:44-69 | n samples 0.9 to 5 s apart span 0.9(n-1) to 5(n-1) seconds. |
| BaselineWatchReducer.BaselineWatch.BeginWatch | prototype/helper-ipc/BaselineWatch.c:5-26 | The new watch is the one the rule prescribes for the first reading. |
| BaselineWatchReducer.BaselineWatch.NextSample | prototype/helper-ipc/BaselineWatch.c:28-54 | Each further reading moves the watch as the rule prescribes, with the result it reports. |
| BaselineWatchReducer.WatchNeverWraps | prototype/helper-ipc/BaselineWatch.c:5-54 | In every history of begins and samples, a running watch has as many samples as seconds, a start no later than its last sample and a last second below 60; no subtraction and no counter wraps. |
| BaselineWatchReducer.WatchTells | prototype/helper-ipc/BaselineWatch.c:5-54 | After every history of begins and samples, status, counters, latest snapshot, read result and timing flag are told by the calls since the last begin: which of them went on with the minute, and why the next did not (no read or the wrong second, the wrong pace, another mode). |
| BaselineWatchReducer.PrefixesAgree | prototype/helper-ipc/BaselineWatch.c:28-54 | On fewer than 61 readings watch and lease are in corresponding states with equal counters, and both still watch exactly on a good prefix. |
| BaselineWatchReducer.MinuteAgreement | prototype/helper-ipc/BaselineWatch.c:28-54 | On 61 readings the watch is stable if and only if the lease is, and if and only if the readings are a system minute; they differ exactly when the last one comes too early. |
| MinuteAgreement.TrialMinuteAccepted | prototype/smc-write-trial/trial_actions.c:49-118 | A stable minute of the write trial, its times cut to whole nanoseconds and the first one positive, is accepted by both the watch and the lease. |
| WorkerRecordText.RecordRoundTrip | prototype/helper-ipc/SupervisorOwnership.c:32-58 | The record written for a PID is read back as that PID, white-space rules of sscanf included. |
| WorkerRecordText.ParsesExactly | prototype/helper-ipc/SupervisorOwnership.c:32-45 | A text is read as a record of a PID if and only if, with what white space sscanf skips, it is the three words of the record, an optional sign, zeros and the decimal digits of that PID, and nothing more; so a damaged record is never read as one. |
| WorkerRecordText.RecordFitsBuffer | prototype/helper-ipc/SupervisorOwnership.c:54-58 | The record is never empty and never too long for its buffer. |
| ControlIntentJournal.ControlIntentRead | prototype/helper-ipc/ControlIntentJournal.c:23-48 | Clear if and only if no call failed and there is no file; pending if and only if no call failed and a private file with exactly the marker's text was read to its end; unknown if and only if a call failed or something else was found. |
| ControlIntentJournal.ReadContents | prototype/helper-ipc/ControlIntentJournal.c:32-40 | The loop collects what the file holds, in any chunks and with any interruptions. |
| ControlIntentJournal.WriteContents | prototype/helper-ipc/ControlIntentJournal.c:56-63 | The loop writes a prefix of the marker, all of it if no call fails. |
| ControlIntentJournal.WriteMarkerFile | prototype/helper-ipc/ControlIntentJournal.c:56-69 | True only if the marker is complete and both file and name are durable; true if no call fails. |
| ControlIntentJournal.MarkPending | prototype/helper-ipc/ControlIntentJournal.c:50-70 | True means the lease was prepared and marker and name are durable; false means a failed call, a lease that may not be marked, or a marker seen that is not clear. What was written is never removed. |
| ControlIntentJournal.ClearVerified | prototype/helper-ipc/ControlIntentJournal.c:72-77 | True means that an available proof was consumed and the marker removed durably. False means that the marker was left alone, or that it was removed, the proof was consumed and the directory sync was refused; nothing else is possible. |
| SupervisorOwnership.OldWorkerAbsent | prototype/helper-ipc/SupervisorOwnership.c:32-52 | Absent means: no record and no marker, or a record whose text names (WorkerRecordText.ParsesExactly) zero or a PID that no process has. Not absent means a failed call, or a record that is missing while the marker is there, is no private file, names nothing, or names a PID that may live. |
| SupervisorOwnership.WriteText | prototype/helper-ipc/SupervisorOwnership.c:67-72 | The loop writes the whole text or fails. |
| SupervisorOwnership.ComposeRecord | prototype/helper-ipc/SupervisorOwnership.c:59-75 | The next record is complete and durable in its own file before it is used. |
| SupervisorOwnership.OwnershipRecord | prototype/helper-ipc/SupervisorOwnership.c:54-77 | The record is replaced whole by a rename and then made durable; a failure leaves the old or the new one. |
| SupervisorOwnership.TakeName | prototype/helper-ipc/SupervisorOwnership.c:89-97 | The lock name is rechecked before a record of zero is made durable. |
| SupervisorOwnership.Acquire | prototype/helper-ipc/SupervisorOwnership.c:79-98 | Success is exactly one order of steps, with the marker as expected and the old worker shown absent; failure holds nothing, and happens only if a call failed, or a marker or record that was looked at is not as it must be. |
| SupervisorOwnership.RemoveFiles | prototype/helper-ipc/SupervisorProbeStorage.c:33-40 | Whatever fails, the trace grows by the removal of the record, of the lock name, of both in this order, or of neither; success means both. |
| SupervisorOwnership.ProbeCleanup | prototype/helper-ipc/SupervisorProbeStorage.c:28-42 | State is removed only under ownership; success means record and lock name are gone durably; with no failed call, no marker and no worker it succeeds. |
| SupervisorKernel.Kernel.Perform | prototype/helper-ipc/WorkerSupervisor.c:112-148 | A system call that others can notice is made only where the protocol allows it; failure leaves no trace. |
| WorkerLifetime.DeadlineFor | prototype/helper-ipc/WorkerSupervisor.c:33-38 | A deadline lies the whole duration after the clock reading; none if the clock failed, the duration is zero or the sum would wrap. |
| WorkerLifetime.StopAndReap | prototype/helper-ipc/WorkerSupervisor.c:62-87 | True exactly if this process reaped the child, counted once, after killing it unless it was reaped at once; bounded by the reap limit. |
| WorkerLifetime.WaitPhase | prototype/helper-ipc/WorkerSupervisor.c:89-110 | An exit is classified only if it was collected by the call after a clock reading below the deadline; timing out, cancelling and losing the child each have their cause, a time-out means the deadline passed, nobody is killed otherwise, and a cancellation that was asked for and stays asked for is heeded; bounded by deadline and reap limit. |
| WorkerLifetime.GateWorker | prototype/helper-ipc/WorkerSupervisor.c:139-147 | Record, durability and grant happen in this order and no further than the calls succeed. |
| WorkerLifetime.SpawnWorker | prototype/helper-ipc/WorkerSupervisor.c:112-148 | No child and no trace, or one child that is granted exactly if everything before succeeded. |
| WorkerProcess.EnterChild | prototype/helper-ipc/SupervisorOwnership.c:111-123 | The worker goes on only after reading its grant, however often the read is interrupted, and with a clock reading below the deadline after it. |
| WorkerProcess.RunAction | prototype/helper-ipc/WorkerSupervisor.c:150-155 | Exit status zero means granted, in time and done; one means granted, in time and failed; the gate's status means no grant, a failed call or a clock at or past the deadline. |
| WorkerProcess.SendRecord | prototype/helper-ipc/WorkerSupervisor.c:163-167 | A record is written whole or not at all. |
| WorkerProcess.ObserveChild | prototype/helper-ipc/WorkerSupervisor.c:157-172 | Exit status zero means 61 successful reads with 60 pauses between them, all written to the pipe; one means a failed read as the last record, or a failed call; the gate's status as for RunAction, with nothing read. However it ends and whatever its clock says, no read began before the process did or before the previous read had ended, and each clock field is the time itself or zero. |
| WorkerProcess.ParsedIsMade | prototype/helper-ipc/WorkerSupervisor.c:157-226 | The records the supervisor parses from the stream are the observations the observer made, in order and unaltered. |
| WorkerProcess.AcceptedReadsFollow | prototype/helper-ipc/WorkerSupervisor.c:157-226 | From the observer's bytes to the supervisor's window: if the supervisor accepts what an observer forked after the launch wrote, every read really began after everything before the launch. |
| ObserverPipe.AcceptObservation | prototype/helper-ipc/WorkerSupervisor.c:174-194 | Accepted exactly if the record is prompt, shows system mode and follows the records before it in time; the lease then counts exactly these records. |
| ObserverPipe.ConsumeRecord | prototype/helper-ipc/WorkerSupervisor.c:217-225 | A whole buffer becomes the next record of the window, or nothing does. |
| ObserverPipe.PollPipe | prototype/helper-ipc/WorkerSupervisor.c:212-230 | Bytes, records and buffer stay in step for every chunking, EAGAIN and EINTR. |
| ObserverPipe.Receive | prototype/helper-ipc/WorkerSupervisor.c:212-230 | Latest snapshot, sample count and progress deadline, which each record moves on, stay in step with the records; what is refused has its fault. |
| ObserverPipe.PollOnce | prototype/helper-ipc/WorkerSupervisor.c:209-230 | A turn goes on only before both deadlines, and gives up only for a stated fault. |
| ObserverPipe.ReadTurn | prototype/helper-ipc/WorkerSupervisor.c:209-248 | One turn of the loop: undecided only with new bytes or after a pause, complete only with a minute, and given up only for a fault. |
| ObserverPipe.SettleOrPause | prototype/helper-ipc/WorkerSupervisor.c:231-248 | With stream and process ended, complete means a minute with no bytes left over and a clean exit; incomplete means one of them is missing. |
| ObserverPipe.ReadObserver | prototype/helper-ipc/WorkerSupervisor.c:196-254 | The loop ends within its deadline and within seven seconds of the last record; complete means exactly 61*88 bytes, 61 records in order of arrival after the call that make a minute, a stable lease with 61 samples and a clean exit; incomplete means a failed call, the deadline, seven seconds without a record since the launch or the finish of the latest one, a whole record that is refused, too many bytes, or an observer that ended without a clean minute. |
| ObserverPipe.WindowCompletes | prototype/helper-ipc/WorkerSupervisor.c:174-194 | 61 accepted records that make a minute are a complete window: prompt, non-overlapping, all system. |
| WorkerSupervisor.SuperviseObserver | prototype/helper-ipc/WorkerSupervisor.c:196-254 | True implies the complete window, its stream and lease, and a reaped observer; false has its fault; StopFailed exactly if the observer stays unreaped. |
| WorkerSupervisor.LaunchObservation | prototype/helper-ipc/WorkerSupervisor.c:267-281 | The launch time is the clock reading at the launch, or zero if the clock failed; the deadline lies the whole limit after it. |
| WorkerSupervisor.StartObserver | prototype/helper-ipc/WorkerSupervisor.c:267-289 | The observer is forked only after launch and deadline are set. |
| WorkerSupervisor.ObserveOwned | prototype/helper-ipc/WorkerSupervisor.c:263-296 | True implies a complete window launched and received during this call, with its last snapshot; false names the failed call or the observer's fault. |
| WorkerSupervisor.RunWorker | prototype/helper-ipc/WorkerSupervisor.c:112-148 | A worker of a given kind is forked, gated by record and grant, and waited for: without a failed call it is started; what is reported of its exit is what was collected and when; stopped exactly if it was reaped. |
| WorkerSupervisor.RunRecovery | prototype/helper-ipc/WorkerSupervisor.c:316-334 | True implies the recovery worker was forked, exited with zero in time and was reaped, with no other fork or reaping between. False has its cause: a failed call, a limit that is zero or wraps, or a worker that was started and used up its time or ended badly without being killed. |
| WorkerSupervisor.OperateUntil | prototype/helper-ipc/WorkerSupervisor.c:360-374 | The same once the deadline is chosen: the earlier of the operation's limit and the lease's expiry. |
| WorkerSupervisor.ProveRecovery | prototype/helper-ipc/WorkerSupervisor.c:336-346 | Recovered implies window, consumed proof and durable removal, in order. Otherwise the lease requires recovery or its read failed, and the marker was removed if and only if the trace ends there with the sync refused; then the result is ObservationFailed and the proof was consumed. |
| WorkerSupervisor.SettleRecovery | prototype/helper-ipc/WorkerSupervisor.c:339-345 | The same for the parent's last step; with a proof, the marker in place and no failed call, it succeeds. |
| WorkerSupervisor.RecoverOwned | prototype/helper-ipc/WorkerSupervisor.c:316-346 | Recovered means the whole recovery; any other result leaves a lease of no use and the marker as for ProveRecovery, and names its cause. |
| WorkerSupervisor.ProofConsumed | prototype/helper-ipc/ControlIntentJournal.c:72-77 | A consumed proof leaves the times of its window and cannot be consumed again. |
| WorkerSupervisor.MarkIntent | prototype/helper-ipc/WorkerSupervisor.c:353-359 | Marker durable and lease marked, or recovery required. |
| WorkerSupervisor.RunOperation | prototype/helper-ipc/WorkerSupervisor.c:360-374 | If no operation worker was forked, a call failed or the limit wraps the clock. Otherwise it is forked and reaped with no other fork or reaping between, gone within the reap limit of the lease's expiry; it timed out only if a call failed or its own limit or the expiry had passed, was cancelled only if that was allowed and asked for, and a lasting request was heeded. |
| WorkerSupervisor.MarkAndOperate | prototype/helper-ipc/WorkerSupervisor.c:348-376 | Whatever came of the marking and the operation, the lease then requires recovery; unless the intent was not marked, the operation is told as for RunOperation; if there is nothing to recover from or the worker was not collected, the cause is named. |
| WorkerSupervisor.RunOwned | prototype/helper-ipc/WorkerSupervisor.c:348-377 | Recovered has its evidence in the trace, the operation's worker reaped before the recovery's was forked, and the operation told as for RunOperation; any other result leaves a lease of no use, the marker as for ProveRecovery, and names its cause. |
| WorkerSupervisor.RunAdmitted | prototype/helper-ipc/WorkerSupervisor.c:383-389 | Admitted exactly if the lease is held and fresh, there is no marker, nobody cancels and nothing failed. |
| WorkerSupervisor.RunLocked | prototype/helper-ipc/WorkerSupervisor.c:390-394 | Under ownership, from the marking to the release of the lock: as for RunOwned, with every child accounted for and the lock released. |
| WorkerSupervisor.RunAcquired | prototype/helper-ipc/WorkerSupervisor.c:379-391 | Nothing is held only if a call failed, the arguments or the lease do not admit a run, somebody cancelled, there is a marker or an old worker may remain. |
| WorkerSupervisor.WorkerSupervisorRun | prototype/helper-ipc/WorkerSupervisor.c:379-395 | Without ownership: Blocked, for a named reason, lease and marker untouched. With it: every child reaped once, StopFailed exactly if one was left; unless the result is Blocked, an operation worker was forked if no call failed and its limit does not wrap the clock, started, recorded and granted in this order, timed out only past its limit or the lease's expiry, and cancelled only if allowed and asked for; Recovered has the whole recovery after the operation in the trace and leaves no proof; any other result names its cause and leaves a lease that can be neither claimed nor consumed, and the marker was removed if and only if the trace ends with its removal and the release of the lock and the sync between was refused, the result then being ObservationFailed with the proof consumed. Returns within 15 + 90 + 90 s, three reap limits, six pauses, 540 calls and the time the kernel's patience allows to interrupted ones. |
| WorkerSupervisor.ResumeAdmitted | prototype/helper-ipc/WorkerSupervisor.c:401-406 | The lease requires recovery before anything is acquired. |
| WorkerSupervisor.ResumeLocked | prototype/helper-ipc/WorkerSupervisor.c:407-409 | Under ownership, from the recovery to the release of the lock: as for RecoverOwned, with every child accounted for. |
| WorkerSupervisor.WorkerSupervisorResume | prototype/helper-ipc/WorkerSupervisor.c:397-410 | As for a run, with no operation and no trust in the old lease, which requires recovery before anything is acquired; within 90 + 90 s and two reap limits. |
| WorkerSupervisor.BaselineAdmitted | prototype/helper-ipc/WorkerSupervisor.c:302-306 | Nothing is touched before ownership without a marker. |
| WorkerSupervisor.BaselineOwned | prototype/helper-ipc/WorkerSupervisor.c:307-313 | A failed observation leaves a lease that requires recovery or whose read failed, and names its cause. |
| WorkerSupervisor.WorkerSupervisorObserveBaseline | prototype/helper-ipc/WorkerSupervisor.c:298-314 | BaselineReady implies a complete window received during the call, a lease with its times, the last snapshot and no recovery proof; any other result under ownership leaves a lease that can be neither claimed nor consumed; the marker is never touched. |
| SupervisorProbe.Admit | prototype/helper-ipc/supervisor-probe.c:100-111 | A claim implies a complete first window and exact admission numbers; without one the refusal is named, down to the reading that was too hot or too late. |
| SupervisorProbe.ClaimFirst | prototype/helper-ipc/supervisor-probe.c:103-111 | The lease is claimed for the runner at the time of the claim, or a call failed, the marker is not absent, or the window's last reading does not allow the claim. |
| SupervisorProbe.LaterWindow | prototype/helper-ipc/supervisor-probe.c:100-113 | A window launched after another was received lies wholly after it. |
| SupervisorProbe.AdmitAndRun | prototype/helper-ipc/supervisor-probe.c:100-113 | A recovered run implies two complete windows, disjoint in time, the operation's worker reaped before the recovery's was forked, and such a worker unless a call failed or the clock is at its end; any other result has its refusal. |
| SupervisorProbe.Attempt | prototype/helper-ipc/supervisor-probe.c:94-113 | After a resume one window and no operation, otherwise two windows and an operation; a failure has a refusal that fits the way it was tried. |
| SupervisorProbe.Probe | prototype/helper-ipc/supervisor-probe.c:82-131 | Reported as verified: the marker is gone, removed once by a recovery; whatever observer forked after the launch wrote its window, every read really began after the recovery worker was reaped; and the operation's worker, if there was one, was reaped before that worker was forked. Not resumed: two complete windows, disjoint in time; resumed: exactly one window and no operation; 61 samples in both, with their exact duration of at least 60 s. Not run means no marker; still pending means one was seen or a call failed; without a recovery the refusal is named. |
| TrialDevice.RunIsConsecutive | prototype/smc-write-trial/trial_actions.c:49-118 | In every trace the current run of samples stands in order with no write and no other completed read in between. |
| TrialDevice.StableMinuteMeans | prototype/smc-write-trial/trial_actions.c:184-328 | A stable minute in the words of the trace: at least 61 timely system reads spanning at least 60 s, with no write from the first one on. |
| TrialRestore.TakeSample | prototype/smc-write-trial/trial_actions.c:75-93 | A sample is timely and extends the run, or its failure is visible in the trace. |
| TrialRestore.ObserveSecond | prototype/smc-write-trial/trial_actions.c:69-106 | A good second leaves exactly its questions, clock values, read and record in the trace and adds one sample; any other ends for a visible cause. |
| TrialRestore.ObserveBaselineWindow | prototype/smc-write-trial/trial_actions.c:59-118 | Stable implies lastSecond + 1 consecutive timely system reads lasting lastSecond seconds; every other status has its evidence in the part of the trace it left; nothing is written. |
| TrialUnlock.RetryMode | prototype/smc-write-trial/trial_actions.c:19-27 | At most ten attempts, all rejected but possibly the last; failure used all ten. |
| TrialUnlock.RetryTarget | prototype/smc-write-trial/trial_actions.c:29-37 | At most ten attempts, all rejected but possibly the last; failure used all ten. |
| TrialUnlock.ReleaseFan | prototype/smc-write-trial/trial_actions.c:166-169 | Mode 0, then target 0, whatever the first answers. |
| TrialUnlock.RestoreSystem | prototype/smc-write-trial/trial_actions.c:154-180 | An SMC already in system mode is left alone, otherwise both fans are released; the result is what the last read shows. |
| TrialUnlock.FirstRead | prototype/smc-write-trial/trial_actions.c:190-202 | The first successful of at most three reads. |
| TrialUnlock.FirstState | prototype/smc-write-trial/trial_actions.c:190-216 | Decided at once exactly if no read succeeds or the system mode first seen stays stable for its watch; otherwise what the restoration starts from, and whether it came by a late change. |
| TrialUnlock.ReleaseManualModes | prototype/smc-write-trial/trial_actions.c:228-230 | Mode 0 for each manual fan in turn, the second only after the first was accepted; fails exactly if one fan rejects it ten times. |
| TrialUnlock.ZeroTargets | prototype/smc-write-trial/trial_actions.c:242-262 | At most one zero per fan, each only while the latest read shows Ftst set, both fans in mode 0 and a target; without a target nothing happens; success holds exactly if the reads between and after show Ftst still set and both fans released. |
| TrialUnlock.ZeroFan | prototype/smc-write-trial/trial_actions.c:244-252 | One read, and a zero exactly if it shows Ftst held, both fans released and a target for this fan. |
| TrialUnlock.ZeroBoth | prototype/smc-write-trial/trial_actions.c:244-262 | Both fans in turn, and a last read if Ftst was still held: exactly these reads and writes. |
| TrialUnlock.ClearFtst | prototype/smc-write-trial/trial_actions.c:264-283 | At most three clears, each with no fan in manual mode at the latest read. Cleared means the last of them is followed by a read with Ftst 0; not cleared means a lost read or wait, or three clears each followed by its full wait with Ftst still 1. |
| TrialUnlock.WatchRelease | prototype/smc-write-trial/trial_actions.c:267-281 | Cleared means the latest read shows Ftst clear and fans released; still set means every read of the whole wait showed Ftst 1; anything else is a lost read or wait. |
| TrialUnlock.ReleaseFtst | prototype/smc-write-trial/trial_actions.c:241-328 | With Ftst set and fans released: zeros, clears, minute, in this order and each only after the one before. |
| TrialUnlock.SettleSecond | prototype/smc-write-trial/trial_actions.c:292-304 | One timed read with exactly its events in the trace; a system read extends the run, another one empties it, and a failure is a lost read or a mistimed one. |
| TrialUnlock.CountSecond | prototype/smc-write-trial/trial_actions.c:291-312 | The counters of samples and start are those of the run of system reads so far. |
| TrialUnlock.AwaitStableMinute | prototype/smc-write-trial/trial_actions.c:285-328 | True implies a stable minute since this call, also after the one-shot fallback, which is taken exactly if the eleventh second shows both fans in mode 0; false means a lost or mistimed second, or 90 of them without a minute; at most 40 restoring writes. |
| TrialUnlock.FallBackIf | prototype/smc-write-trial/trial_actions.c:313-323 | At the eleventh second, and only if its read shows both fans in mode 0, system mode is looked for and otherwise restored once more; then the count begins anew. |
| TrialUnlock.FallBack | prototype/smc-write-trial/trial_actions.c:315-323 | The fallback only restores. |
| TrialUnlock.RestoreUnlock | prototype/smc-write-trial/trial_actions.c:184-328 | For every device the trace is one of the courses the procedure has, step by step (first read, watch, mode writes, zeros, clears, minute), and true exactly if that course ends in its stable minute; at most 65 write attempts, all restoring, every Ftst clear with no fan in manual mode at the latest read. |
| TrialUnlock.ClearsUnlessObstructed | prototype/smc-write-trial/trial_actions.c:203-328 | If the first state that was seen has Ftst set: either a clear of Ftst is attempted and the call returns true after a stable minute, or the trace shows the obstacle: a lost read, a read with Ftst outside {0, 1} or fans not released, ten rejected mode writes to a manual fan, a failed wait, three clears without effect, a mistimed second, or 90 seconds without a minute. |
| TrialUnlock.RestoreOpenState | prototype/smc-write-trial/trial_actions.c:217-221 | True exactly if the fans were brought back, the watch was stable and the state had not changed late. |
| TrialUnlock.RestoreLockedState | prototype/smc-write-trial/trial_actions.c:222-328 | The trace is the course from the mode writes to the minute, true exactly if it ends in the minute; undisturbed means only clears were written. |
| TrialActions.ObserveAfterFtst | prototype/smc-write-trial/trial_actions.c:364-375 | Stable implies a stable minute, otherwise the trace shows the disturbance. |
| TrialActions.AdmitBaseline | prototype/smc-write-trial/trial_actions.c:390-398 | Admission implies a safe system read and a usable clock; refusal has its reason; nothing is written. |
| TrialActions.WatchEffect | prototype/smc-write-trial/trial_actions.c:399-419 | An effect is the first read that is not system mode. |
| TrialActions.CheckFtst | prototype/smc-write-trial/trial_actions.c:377-458 | Rejected exactly if nothing was written, with a reason that is visible; otherwise the trace is the accepted or rejected Ftst=1, the watch for an effect and the recovery, and the status is what these showed: succeeded if and only if the effect was Ftst alone, accepted and safe, and the recovery and the minute after it needed no second try. Every outcome but a failed restore ends in a stable minute; success implies one Ftst=1, at most three clears and no fan-key write, with every successful read of the whole run showing both fans in system mode without targets. |
| TrialActions.CheckTracked | prototype/smc-write-trial/trial_actions.c:390-458 | The same, for a backend that tracks fan state. |
| TrialActions.EffectUndisturbed | prototype/smc-write-trial/trial_actions.c:422-426 | True implies the effect was Ftst alone, accepted and safe. |
| TrialActions.RecoverFromEffect | prototype/smc-write-trial/trial_actions.c:421-442 | Succeeded exactly if nothing disturbed the effect and recovery and watch went well at the first try; restore failed exactly if the second try failed too; every other outcome ends in a stable minute. |
| TrialActions.RecoverAndWatch | prototype/smc-write-trial/trial_actions.c:427-439 | Recovery and a minute's watch, with one more recovery if either fails: clean exactly if nothing stopped, verified with at most one stop, unverified exactly with two. |
| TrialActions.RestoreAgain | prototype/smc-write-trial/trial_actions.c:434-437 | The second try after a failed one: verified by a stable minute, or stopped twice. |
| TrialActions.ReleaseUnseen | prototype/smc-write-trial/trial_actions.c:444-457 | Without an effect the first thing written is a clear of Ftst, and then a minute is observed. |
| TrialActions.WatchMinimum | prototype/smc-write-trial/trial_actions.c:484-516 | What was seen is in the trace. |
| TrialActions.LookOnce | prototype/smc-write-trial/trial_actions.c:490-497 | One question, one read and one clock value; nothing is seen only if a stop was asked for, the read failed, or the time or the temperature does not allow to go on. |
| TrialActions.RehearseFtstMinimumRecovery | prototype/smc-write-trial/trial_actions.c:460-532 | Rejected exactly if nothing was written; otherwise the trace is that of a rehearsal and the status what it showed; success implies the minimum-target state was seen after an accepted Ftst=1; fail closed as above. |
| TrialActions.RecoverRehearsal | prototype/smc-write-trial/trial_actions.c:518-531 | Every outcome but a failed restore ends in a stable minute. |
| TrialActions.TakeOver | prototype/smc-write-trial/trial_actions.c:564-579 | The takeover leaves exactly its questions, clock values and writes, fan by fan, in order: after a stop that was asked for, a rejected write or a late target nothing more is written, and success means none of these happened and all four writes were accepted. |
| TrialActions.TakeFan | prototype/smc-write-trial/trial_actions.c:567-579 | The same for one fan: stop question, mode 1, a clock value, target, and a clock value at most a quarter of a second later. |
| TrialActions.HoldSecond | prototype/smc-write-trial/trial_actions.c:592-605 | A held second is a read of the planned manual state. |
| TrialActions.HoldManual | prototype/smc-write-trial/trial_actions.c:582-614 | Success implies six reads of the planned state, the last with both fans at speed. |
| TrialActions.ExecuteDirect | prototype/smc-write-trial/trial_actions.c:553-628 | Never writes Ftst; the trace is takeover, hold and restoration, with the status what these showed; at most 80 restoring writes; every outcome but a failed restore ends in a stable minute; success implies the plan was held and reached. |
| TrialActions.RestoreDirect | prototype/smc-write-trial/trial_actions.c:616-622 | True implies a stable minute, false a visible disturbance. |
| TrialActions.RestoreDirectAgain | prototype/smc-write-trial/trial_actions.c:618-621 | The second try after a failed one: a stable minute, or stopped twice. |

## Left out

- WorkerSupervisor.WorkerSupervisorRun: the time bound is stated for a kernel whose calls each end within a fixed time and whose interrupted transfers take a bounded time in all, because the code's loops promise no more.
- PIDs of foreign processes: a reused PID blocks an acquisition in the code and is not part of the world, where the process table holds the workers only.
- The stopped-worker monitor and the threads inside a worker: a worker may exit at any step, and may not for any length of time.
- File permissions, links, owners and the checks of them: one answer says whether a file or directory is private.
- After a restart the file system is assumed to show, for each of the three names, one of the states it had since the last sync of the directory, and arbitrary contents only for a marker whose contents were not synced.
- Reading the marker or the record takes several calls in the code and is one step in the world; only the owner of the named lock changes either file.
- The launch lock of the runner and the removal of its executable and staging files: each is one call without an effect on the protocol.
- Closing descriptors that only frees them, the daemon's report pipe, and the callbacks' own effects.
- Layout of a record in memory: an arbitrary function of its 88 bytes; that the worker's layout is inverse to it is a premise of WorkerProcess.ParsedIsMade.
- Rounding of doubles: finite values are real numbers, with infinities and NaN.
- NULL structure arguments: callbacks may be missing, structures are given.
- The observer of the trial always has a record callback, as the trial's own wrapper does; metrics_available and the plan's computation are not modelled.
- The clock fails instead of wrapping after 2^64 nanoseconds.
- The IOKit transport, key encodings, command lines, XPC and user interfaces are not part of this model.
