/** The worker's side: it is blocked until it is granted execution, and an observer
    writes what it reads to the pipe. What the supervisor parses from the stream is
    what the observer saw, however the bytes were chunked on the way.
 */
module WorkerProcess {
  import opened SmcBaseline
  import opened MinuteRule
  import opened LeaseSpec
  import opened OwnerProtocol
  import opened SupervisorKernel
  import opened ObserverPipe

  datatype WorkerAnswer = WorkerAnswer(elapsed: nat, ok: bool, interrupted: bool, count: nat, byte: Byte,
    result: ReadResult, snapshot: Snapshot)

  const GRANT: Byte := 71

  /** What a worker process can do; all answers are arbitrary. */
  class Worker {
    const script: nat -> WorkerAnswer
    const encode: Observation -> seq<Byte>
    var calls: nat
    var patience: nat
    var time: nat
    ghost var granted: bool
    ghost var denied: bool      // the connection ended or said something else
    ghost var failures: nat     // failed calls, other than of the clock
    ghost var pauses: nat
    ghost var made: seq<Read>   // reads made, and when they really were
    ghost var sent: seq<Byte>   // bytes written to the pipe

    constructor (script: nat -> WorkerAnswer, encode: Observation -> seq<Byte>, patience: nat, time: nat)
      ensures !granted && !denied && made == [] && sent == [] && this.encode == encode
    {
      this.script, this.encode, this.patience, this.time := script, encode, patience, time;
      calls, granted, denied, failures, pauses, made, sent := 0, false, false, 0, 0, [], [];
    }

    method Ask() returns (answer: WorkerAnswer)
      modifies `calls, `time
      ensures old(time) <= time
    {
      answer := script(calls);
      calls := calls + 1;
      time := time + answer.elapsed;
    }

    method Now() returns (now: u64)
      modifies `calls, `time
      ensures old(time) <= time && (now == 0 || now == time)
    {
      var answer := Ask();
      now := if answer.ok && time <= U64_MAX then time else 0;
    }

    /** Read one byte from the connection to the supervisor. */
    method ReadConnection() returns (outcome: Transfer, byte: Byte)
      modifies `calls, `time, `patience, `granted, `denied, `failures
      ensures denied == (old(denied) || (outcome.Moved? && (outcome.count == 0 || byte != GRANT)))
      ensures failures == old(failures) + if outcome.Broken? then 1 else 0
      ensures outcome.Interrupted? ==> patience < old(patience)
      ensures outcome.Moved? ==> outcome.count <= 1
      ensures old(time) <= time
      ensures granted == (old(granted) || (outcome == Moved(1) && byte == GRANT))
    {
      var answer := Ask();
      byte := answer.byte;
      if answer.interrupted && patience > 0 {
        patience := patience - 1;
        outcome := Interrupted;
      } else if answer.ok {
        outcome := Moved(if answer.count == 0 then 0 else 1);
      } else {
        failures := failures + 1;
        outcome := Broken;
      }
      denied := denied || (outcome.Moved? && (outcome.count == 0 || byte != GRANT));
      granted := granted || (outcome == Moved(1) && byte == GRANT);
    }

    method CreateWatcher() returns (ok: bool)
      modifies `calls, `time, `failures
      ensures old(time) <= time && failures == old(failures) + if ok then 0 else 1
    {
      var answer := Ask();
      ok := answer.ok;
      failures := failures + if ok then 0 else 1;
    }

    /** One timed read of the SMC. Either reading of the clock may fail. */
    method Observe() returns (observation: Observation)
      modifies `calls, `time, `made
      ensures |made| == |old(made)| + 1 && old(made) == made[..|old(made)|]
      ensures var r := made[|old(made)|];
              r.observation == observation && Truthful(r) && old(time) <= r.began && r.ended <= time
    {
      var started := Now();
      ghost var began := time;
      var answer := Ask();
      var finished := Now();
      observation := Observation(started, finished, answer.result, answer.snapshot);
      made := made + [Read(observation, began, time)];
    }

    /** A record is written whole or not at all. */
    method WriteRecord(observation: Observation) returns (outcome: Transfer)
      modifies `calls, `time, `patience, `sent, `failures
      ensures old(time) <= time && failures == old(failures) + if outcome.Broken? then 1 else 0
      ensures outcome.Interrupted? ==> patience < old(patience)
      ensures outcome.Moved? ==> outcome.count == |encode(observation)|
      ensures sent == old(sent) + if outcome.Moved? then encode(observation) else []
    {
      var answer := Ask();
      if answer.interrupted && patience > 0 {
        patience := patience - 1;
        outcome := Interrupted;
      } else if answer.ok {
        sent := sent + encode(observation);
        outcome := Moved(|encode(observation)|);
      } else {
        failures := failures + 1;
        outcome := Broken;
      }
    }

    method Pause()
      modifies `calls, `time, `pauses
      ensures old(time) <= time && pauses == old(pauses) + 1
    {
      var _ := Ask();
      pauses := pauses + 1;
    }
  }

  // ---------------------------------------------------------------------------
  // The gate
  // ---------------------------------------------------------------------------

  /** Why a worker did not pass the gate: a call failed, it was not granted execution, or
      its deadline had passed.
   */
  predicate ShutOut(failed: bool, denied: bool, granted: bool, at: u64, since: nat, time: nat, deadline: u64) {
    failed || denied || (granted && at >= deadline && (at == 0 || since <= at <= time))
  }

  /** Wait for the grant. Anything else, or a passed deadline, ends the process: it goes
      on exactly with the grant and a clock reading, after it, below the deadline, if no
      call failed.
   */
  method EnterChild(w: Worker, deadline: u64) returns (entered: bool, ghost at: u64)
    requires !w.granted && !w.denied
    modifies w`calls, w`time, w`patience, w`granted, w`denied, w`failures
    ensures old(w.time) <= w.time && old(w.failures) <= w.failures
    ensures entered ==> w.failures == old(w.failures)
    ensures entered ==> w.granted && at < deadline && (at == 0 || old(w.time) <= at <= w.time)
    ensures !entered ==> ShutOut(w.failures > old(w.failures), w.denied, w.granted, at, old(w.time), w.time, deadline)
  {
    at := 0;
    var outcome, byte := w.ReadConnection();
    while outcome.Interrupted?
      invariant w.granted <==> outcome == Moved(1) && byte == GRANT
      invariant w.denied <==> outcome.Moved? && (outcome.count == 0 || byte != GRANT)
      invariant w.failures == old(w.failures) + if outcome.Broken? then 1 else 0
      invariant outcome.Moved? ==> outcome.count <= 1
      invariant old(w.time) <= w.time
      decreases outcome.Interrupted?, w.patience
    {
      outcome, byte := w.ReadConnection();
    }
    if outcome != Moved(1) || byte != GRANT {
      return false, at;
    }
    var now := w.Now();
    at := now;
    if now >= deadline {
      return false, at;
    }
    entered := w.CreateWatcher();
  }

  const EXIT_GATE := 126

  /** An action worker that passes the gate succeeds exactly if its action does. */
  method RunAction(w: Worker, deadline: u64, action: bool) returns (code: int, ghost at: u64)
    requires !w.granted && !w.denied
    modifies w`calls, w`time, w`patience, w`granted, w`denied, w`failures
    ensures code == 0 || code == 1 || code == EXIT_GATE
    ensures code == 0 ==> w.granted && action && at < deadline
    ensures code == 1 ==> w.granted && !action && at < deadline
    ensures code == EXIT_GATE ==>
              ShutOut(w.failures > old(w.failures), w.denied, w.granted, at, old(w.time), w.time, deadline)
  {
    var entered;
    entered, at := EnterChild(w, deadline);
    if !entered {
      return EXIT_GATE, at;
    }
    return if action then 0 else 1, at;
  }

  // ---------------------------------------------------------------------------
  // The observer
  // ---------------------------------------------------------------------------

  /** The bytes of the records of several reads, one after another. */
  function Stream(encode: Observation -> seq<Byte>, made: seq<Read>): seq<Byte> {
    if made == [] then [] else Stream(encode, made[..|made| - 1]) + encode(made[|made| - 1].observation)
  }

  /** Write one record, however often the write is interrupted. */
  method SendRecord(w: Worker, observation: Observation) returns (ok: bool)
    modifies w`calls, w`time, w`patience, w`sent, w`failures
    ensures old(w.time) <= w.time && w.failures == old(w.failures) + if ok then 0 else 1
    ensures w.sent == old(w.sent) + if ok then w.encode(observation) else []
  {
    var outcome := w.WriteRecord(observation);
    while outcome.Interrupted?
      invariant old(w.time) <= w.time
      invariant w.sent == old(w.sent) + if outcome.Moved? then w.encode(observation) else []
      invariant w.failures == old(w.failures) + if outcome.Broken? then 1 else 0
      decreases outcome.Interrupted?, w.patience
    {
      outcome := w.WriteRecord(observation);
    }
    return outcome.Moved?;
  }

  lemma {:induction false} StreamGrows(encode: Observation -> seq<Byte>, made: seq<Read>, r: Read)
    ensures Stream(encode, made + [r]) == Stream(encode, made) + encode(r.observation)
  {
    assert (made + [r])[..|made|] == made;
  }

  lemma {:induction false} NothingMade(encode: Observation -> seq<Byte>, since: nat)
    ensures Stream(encode, []) == [] && Genuine([], since)
  {
  }

  /** Success means 61 successful reads, all of them written whole. Whatever its clock
      says, no read began before the process did, or before the previous one had ended.
   */
  method ObserveChild(w: Worker, deadline: u64) returns (code: int, ghost at: u64)
    requires !w.granted && !w.denied && w.made == [] && w.sent == []
    modifies w
    ensures code == 0 ==>
              && w.granted && |w.made| == REQUIRED_SAMPLES && w.sent == Stream(w.encode, w.made)
              && w.pauses == old(w.pauses) + REQUIRED_SAMPLES - 1
              && forall i | 0 <= i < |w.made| :: w.made[i].observation.result == Ok
    ensures Genuine(w.made, old(w.time)) && EndedBy(w.made, w.time)
    ensures code == 1 ==>
              && w.granted && w.made != []
              && (w.failures == old(w.failures) ==>
                    w.made[|w.made| - 1].observation.result != Ok && w.sent == Stream(w.encode, w.made))
              && (w.sent == Stream(w.encode, w.made) || w.sent == Stream(w.encode, w.made[..|w.made| - 1]))
    ensures code == EXIT_GATE ==>
              && w.made == [] && w.sent == []
              && ShutOut(w.failures > old(w.failures), w.denied, w.granted, at, old(w.time), w.time, deadline)
    ensures code == 0 || code == 1 || code == EXIT_GATE
  {
    hide Genuine, Stream, Truthful;
    NothingMade(w.encode, w.time);
    var entered;
    entered, at := EnterChild(w, deadline);
    if !entered {
      return EXIT_GATE, at;
    }
    ghost var failures := w.failures;
    for index := 0 to REQUIRED_SAMPLES
      invariant w.granted && |w.made| == index && w.sent == Stream(w.encode, w.made) && w.failures == failures
      invariant w.pauses == old(w.pauses) + if index < REQUIRED_SAMPLES then index else index - 1
      invariant old(w.time) <= w.time && Genuine(w.made, old(w.time)) && EndedBy(w.made, w.time)
      invariant forall i | 0 <= i < |w.made| :: w.made[i].observation.result == Ok
    {
      ghost var before := w.made;
      var observation := w.Observe();
      assert w.made == before + [w.made[index]];
      GenuineGrows(before, old(w.time), w.made[index]);
      StreamGrows(w.encode, before, w.made[index]);
      assert w.made[..|w.made| - 1] == before;
      var sent := SendRecord(w, observation);
      if !sent || observation.result != Ok {
        return 1, at;
      }
      if index + 1 < REQUIRED_SAMPLES {
        w.Pause();
      }
    }
    return 0, at;
  }

  // ---------------------------------------------------------------------------
  // From the observer to the supervisor
  // ---------------------------------------------------------------------------

  /** The supervisor's layout reads back what the observer's writes. */
  ghost predicate SameLayout(encode: Observation -> seq<Byte>, layout: seq<Byte> -> Observation) {
    forall o: Observation :: |encode(o)| == RECORD_SIZE && layout(encode(o)) == o
  }

  lemma {:induction false} StreamAt(encode: Observation -> seq<Byte>, layout: seq<Byte> -> Observation,
                                    made: seq<Read>, i: nat)
    requires SameLayout(encode, layout) && i < |made|
    ensures |Stream(encode, made)| == RECORD_SIZE * |made|
    ensures Stream(encode, made)[RECORD_SIZE * i..RECORD_SIZE * i + RECORD_SIZE] == encode(made[i].observation)
  {
    var before, last := made[..|made| - 1], made[|made| - 1];
    if before != [] {
      StreamAt(encode, layout, before, if i < |before| then i else 0);
    }
    if i < |before| {
      assert Stream(encode, made)[RECORD_SIZE * i..RECORD_SIZE * i + RECORD_SIZE]
          == Stream(encode, before)[RECORD_SIZE * i..RECORD_SIZE * i + RECORD_SIZE];
    }
  }

  /** Whatever was read from the pipe so far, the records parsed from it are the first
      observations made, in order and unaltered.
   */
  lemma {:induction false} ParsedIsMade(encode: Observation -> seq<Byte>, layout: seq<Byte> -> Observation,
                                        made: seq<Read>, stream: seq<Byte>, window: seq<Delivery>)
    requires SameLayout(encode, layout) && stream <= Stream(encode, made) && Parses(layout, stream, window)
    ensures ReadAs(window, made)
  {
    if made != [] {
      StreamAt(encode, layout, made, 0);
    }
    forall i | 0 <= i < |window|
      ensures window[i].observation == made[i].observation
    {
      StreamAt(encode, layout, made, i);
      assert stream[RECORD_SIZE * i..RECORD_SIZE * i + RECORD_SIZE]
          == Stream(encode, made)[RECORD_SIZE * i..RECORD_SIZE * i + RECORD_SIZE];
    }
  }

  /** From process to process: if the supervisor accepts what an observer forked after
      the launch wrote, every read of the window really began after all that went before
      the launch.
   */
  lemma {:induction false} AcceptedReadsFollow(encode: Observation -> seq<Byte>, layout: seq<Byte> -> Observation,
                                               made: seq<Read>, stream: seq<Byte>, window: seq<Delivery>,
                                               launched: u64, since: nat, forked: nat, time: nat)
    requires SameLayout(encode, layout) && stream <= Stream(encode, made) && Parses(layout, stream, window)
    requires Genuine(made, forked) && Acceptable(window, launched, since) && time <= since <= forked
    ensures ReadsAfter(window, made, launched, time)
  {
    hide SameLayout, Stream, Parses, Acceptable, ReadsAfter, Truthful;
    ParsedIsMade(encode, layout, made, stream, window);
    assert Genuine(made, since);
    AcceptableIsReceivable(window, launched, since);
    GenuineFollows(window, launched, since, made, time);
  }
}
