/** The read-only watcher, a third implementation of the minute rule, and the
    theorem that it and the control lease judge every stream of reads alike.
 */
module BaselineWatchReducer {
  import opened SmcBaseline
  import opened MinuteRule
  import opened LeaseSpec

  datatype WatchStatus = Idle | Running | WatchStable | Changed | WatchReadFailed

  const LAST_SECOND: u32 := 60

  datatype Watch = Watch(
    status: WatchStatus,
    samples: u32,
    lastSecond: u32,
    lastRead: ReadResult,
    latest: Option<Snapshot>,
    started: u64,
    last: u64,
    timingFailed: bool)

  function Begin(r: Reading): Watch {
    var w := Watch(Idle, 0, 0, r.result, None, 0, 0, false);
    if !ValidRead(r) then w.(status := WatchReadFailed)
    else if r.now == 0 then w.(status := WatchReadFailed, timingFailed := true)
    else
      w.(status := if IsSystem(r.snapshot.value) then Running else Changed, samples := 1,
         latest := r.snapshot, started := r.now, last := r.now)
  }

  function Next(w: Watch, second: u32, r: Reading): Watch {
    if w.status != Running then w
    else if second != Increment(w.lastSecond) || second > LAST_SECOND || !ValidRead(r) then
      w.(status := WatchReadFailed, lastRead := if r.result == Ok then UnexpectedFormat else r.result)
    else if !InTime(w.last, r.now) || (second == LAST_SECOND && Minus(r.now, w.started) < BASELINE_NS) then
      w.(status := WatchReadFailed, timingFailed := true)
    else
      w.(latest := r.snapshot, samples := Increment(w.samples), lastSecond := second, last := r.now,
         status := if !IsSystem(r.snapshot.value) then Changed
                   else if second == LAST_SECOND then WatchStable else Running)
  }

  class BaselineWatch {
    var status: WatchStatus
    var samples: u32
    var lastSecond: u32
    var lastRead: ReadResult
    var latest: Option<Snapshot>
    var started: u64
    var last: u64
    var timingFailed: bool

    function Value(): Watch
      reads this
    {
      Watch(status, samples, lastSecond, lastRead, latest, started, last, timingFailed)
    }

    method BeginWatch(r: Reading)
      modifies this
      ensures Value() == Begin(r)
    {
      status, samples, lastSecond, latest := Idle, 0, 0, None;
      started, last, timingFailed := 0, 0, false;
      lastRead := r.result;
      if !ValidRead(r) {
        status := WatchReadFailed;
        return;
      }
      if r.now == 0 {
        status := WatchReadFailed;
        timingFailed := true;
        return;
      }
      samples := 1;
      latest := r.snapshot;
      started := r.now;
      last := r.now;
      status := if IsSystem(r.snapshot.value) then Running else Changed;
    }

    method NextSample(second: u32, r: Reading)
      modifies this
      ensures Value() == Next(old(Value()), second, r)
    {
      if status != Running {
        return;
      }
      if second != Increment(lastSecond) || second > LAST_SECOND || !ValidRead(r) {
        status := WatchReadFailed;
        lastRead := if r.result == Ok then UnexpectedFormat else r.result;
        return;
      }
      if r.now <= last || Minus(r.now, last) < SAMPLE_MIN_NS || Minus(r.now, last) > SAMPLE_MAX_NS
         || (second == LAST_SECOND && Minus(r.now, started) < BASELINE_NS) {
        status := WatchReadFailed;
        timingFailed := true;
        return;
      }
      latest := r.snapshot;
      samples := Increment(samples);
      lastSecond := second;
      last := r.now;
      if !IsSystem(r.snapshot.value) {
        status := Changed;
      } else if second == LAST_SECOND {
        status := WatchStable;
      }
    }
  }

  // ---------------------------------------------------------------------------
  // Arithmetic
  // ---------------------------------------------------------------------------

  datatype WatchCall = CallBegin(reading: Reading) | CallNext(second: u32, reading: Reading)

  /** A zeroed watch after the first n calls, with any arguments. */
  function WatchAt(cs: seq<WatchCall>, n: nat): Watch
    requires n <= |cs|
  {
    if n == 0 then Watch(Idle, 0, 0, Ok, None, 0, 0, false)
    else
      match cs[n - 1]
      case CallBegin(r) => Begin(r)
      case CallNext(second, r) => Next(WatchAt(cs, n - 1), second, r)
  }

  /** While a watch runs, its counters agree, it is within its minute, and neither the
      counters nor the differences of the next sample can wrap.
   */
  lemma {:induction false} WatchNeverWraps(cs: seq<WatchCall>, n: nat)
    requires n <= |cs| && WatchAt(cs, n).status == Running
    ensures var w := WatchAt(cs, n);
            && w.started <= w.last && w.lastSecond < LAST_SECOND && w.samples == w.lastSecond + 1
            && w.lastSecond * SAMPLE_MIN_NS <= w.last - w.started <= w.lastSecond * SAMPLE_MAX_NS
            && Increment(w.lastSecond) == w.lastSecond + 1 && Increment(w.samples) == w.samples + 1
            && forall now: u64 | InTime(w.last, now) ::
                 Minus(now, w.last) == now - w.last && Minus(now, w.started) == now - w.started
  {
    if n > 0 && cs[n - 1].CallNext? {
      WatchNeverWraps(cs, n - 1);
    }
  }

  // ---------------------------------------------------------------------------
  // What a watch tells
  // ---------------------------------------------------------------------------

  /** Call b is the latest begin among the first n calls. */
  predicate BeganLast(cs: seq<WatchCall>, b: nat, n: nat)
    requires n <= |cs|
  {
    b < n && cs[b].CallBegin? && forall i | b < i < n :: cs[i].CallNext?
  }

  /** Call i brings a read for the right second of the minute begun at call b. */
  predicate BringsRead(cs: seq<WatchCall>, b: nat, i: nat)
    requires b <= i < |cs|
  {
    ValidRead(cs[i].reading) && (i > b ==> cs[i].CallNext? && cs[i].second == i - b <= 60)
  }

  /** The time of call i is one to count: 0.9 to 5 s after the call before it, the last one a minute after the first. */
  predicate InPace(cs: seq<WatchCall>, b: nat, i: nat)
    requires b <= i < |cs|
  {
    if i == b then cs[b].reading.now > 0
    else
      && 900_000_000 <= cs[i].reading.now - cs[i - 1].reading.now <= 5 * SECOND
      && (i - b == 60 ==> cs[i].reading.now - cs[b].reading.now >= 60 * SECOND)
  }

  predicate GoesOn(cs: seq<WatchCall>, b: nat, i: nat)
    requires b <= i < |cs|
  {
    BringsRead(cs, b, i) && InPace(cs, b, i) && IsSystem(cs[i].reading.snapshot.value)
  }

  /** Of the first n calls, those from the begin at b up to e went on with the minute, and no more. */
  predicate WentOnUntil(cs: seq<WatchCall>, b: nat, e: nat, n: nat)
    requires n <= |cs|
  {
    b <= e <= n && (forall i | b <= i < e :: GoesOn(cs, b, i)) && (e < n ==> !GoesOn(cs, b, e))
  }

  /** All that a watch shows, told by the calls: which of them went on, and why the next did not. */
  predicate Tells(w: Watch, cs: seq<WatchCall>, b: nat, e: nat, n: nat)
    requires b <= e <= n <= |cs| && b < n
  {
    if e == n || e == b + 61 then
      && e > b && w.status == (if e == b + 61 then WatchStable else Running)
      && w.samples == e - b && w.latest == cs[e - 1].reading.snapshot && w.lastRead == Ok && !w.timingFailed
      && w.started == cs[b].reading.now && w.last == cs[e - 1].reading.now && w.lastSecond == e - 1 - b
    else
      var read, paced := BringsRead(cs, b, e), InPace(cs, b, e);
      && w.status == (if read && paced then Changed else WatchReadFailed)
      && w.timingFailed == (read && !paced)
      && w.samples == (if read && paced then e + 1 - b else e - b)
      && w.latest == (if read && paced then cs[e].reading.snapshot else if e > b then cs[e - 1].reading.snapshot else None)
      && w.lastRead == (if !read && e > b && cs[e].reading.result == Ok then UnexpectedFormat else cs[e].reading.result)
  }

  /** After every history of calls, a watch shows exactly how the minute begun last went on. */
  lemma {:induction false} WatchTells(cs: seq<WatchCall>, b: nat, n: nat) returns (e: nat)
    requires n <= |cs| && BeganLast(cs, b, n)
    ensures e <= b + REQUIRED_SAMPLES && WentOnUntil(cs, b, e, n) && Tells(WatchAt(cs, n), cs, b, e, n)
  {
    hide Tells, BringsRead, InPace, GoesOn;
    if n == b + 1 {
      e := if GoesOn(cs, b, b) then n else b;
      FirstTells(cs, b);
    } else {
      e := WatchTells(cs, b, n - 1);
      if e == n - 1 && e - b < REQUIRED_SAMPLES {
        NextTells(cs, b, e);
        e := if GoesOn(cs, b, e) then n else e;
      } else {
        EndedTells(WatchAt(cs, n - 1), cs, b, e, n - 1);
      }
    }
  }

  lemma {:induction false} FirstTells(cs: seq<WatchCall>, b: nat)
    requires b < |cs| && cs[b].CallBegin?
    ensures Tells(WatchAt(cs, b + 1), cs, b, if GoesOn(cs, b, b) then b + 1 else b, b + 1)
  {
  }

  /** A watch that has ended shows the same after any further call. */
  lemma {:induction false} EndedTells(w: Watch, cs: seq<WatchCall>, b: nat, e: nat, n: nat)
    requires b <= e <= n < |cs| && b < n && Tells(w, cs, b, e, n) && (e < n || e == b + REQUIRED_SAMPLES)
    ensures w.status != Running && Tells(w, cs, b, e, n + 1) && (e == n ==> !GoesOn(cs, b, e))
  {
  }

  lemma {:induction false} NextTells(cs: seq<WatchCall>, b: nat, n: nat)
    requires b < n < |cs| && n - b < REQUIRED_SAMPLES && cs[n].CallNext? && Tells(WatchAt(cs, n), cs, b, n, n)
    ensures Tells(WatchAt(cs, n + 1), cs, b, if GoesOn(cs, b, n) then n + 1 else n, n + 1)
  {
    WatchNeverWraps(cs, n);
    var w, w' := WatchAt(cs, n), WatchAt(cs, n + 1);
    assert w' == Next(w, cs[n].second, cs[n].reading);
    hide WatchAt;
  }

  lemma {:induction false} IdleUntilBegun(cs: seq<WatchCall>, n: nat)
    requires n <= |cs|
    ensures WatchAt(cs, n).status == Idle <==> forall i | 0 <= i < n :: cs[i].CallNext?
  {
    if n > 0 {
      IdleUntilBegun(cs, n - 1);
    }
  }

  // ---------------------------------------------------------------------------
  // Agreement of the minute rule
  // ---------------------------------------------------------------------------

  /** The watch after the first n reads of a stream, read k arriving at second k. */
  function WatchAfter(rs: seq<Reading>, n: nat): Watch
    requires 0 < n <= |rs| <= REQUIRED_SAMPLES
  {
    if n == 1 then Begin(rs[0]) else Next(WatchAfter(rs, n - 1), n - 1, rs[n - 1])
  }

  /** A lease started with a clear journal, after the first n reads of a stream. */
  function LeaseAfter(rs: seq<Reading>, n: nat): Lease
    requires 0 < n <= |rs|
  {
    if n == 1 then Start(Intent.Clear, rs[0]) else Sample(LeaseAfter(rs, n - 1), rs[n - 1])
  }

  function Times(rs: seq<Reading>): (times: seq<int>)
    ensures |times| == |rs|
  {
    seq(|rs|, k requires 0 <= k < |rs| => rs[k].now)
  }

  /** The rule itself: 61 system readings, 0.9 to 5 seconds apart, a minute in all. */
  predicate SystemMinute(rs: seq<Reading>) {
    && |rs| == REQUIRED_SAMPLES && rs[0].now > 0
    && (forall k | 0 <= k < |rs| :: SystemReading(rs[k]))
    && FullMinute(Times(rs))
  }

  /** The first n reads are in time and all of them show system mode. */
  predicate GoodPrefix(rs: seq<Reading>, n: nat)
    requires 0 < n <= |rs|
  {
    && rs[0].now > 0
    && (forall k | 0 <= k < n :: SystemReading(rs[k]))
    && (forall k | 0 < k < n :: SAMPLE_MIN_NS <= rs[k].now - rs[k - 1].now <= SAMPLE_MAX_NS)
  }

  /** The lease state that means the same as a watch status while a minute is incomplete. */
  function Counterpart(status: WatchStatus): State
    requires status == Running || status == Changed || status == WatchReadFailed
  {
    match status
    case Running => Observing
    case Changed => RecoveryRequired
    case WatchReadFailed => State.ReadFailed
  }

  /** On fewer than 61 reads the two states correspond one to one, and both are
      still watching exactly on a good prefix.
   */
  lemma {:induction false} PrefixesAgree(rs: seq<Reading>, n: nat)
    requires 0 < n < REQUIRED_SAMPLES && n <= |rs| <= REQUIRED_SAMPLES
    ensures var w, l := WatchAfter(rs, n), LeaseAfter(rs, n);
            && Corresponds(w, l)
            && (w.status == Running <==> GoodPrefix(rs, n))
            && (w.status == Running ==>
                  w.samples == n && w.lastSecond == n - 1 && w.started == rs[0].now && w.last == rs[n - 1].now)
  {
    if n > 1 {
      hide Next, Sample, Start, Begin, Corresponds;
      PrefixesAgree(rs, n - 1);
      StepAgrees(WatchAfter(rs, n - 1), LeaseAfter(rs, n - 1), n - 1, rs[n - 1]);
      PrefixStep(rs, n);
      hide GoodPrefix, SystemReading;
    }
  }

  lemma {:induction false} PrefixStep(rs: seq<Reading>, n: nat)
    requires 1 < n <= |rs|
    ensures GoodPrefix(rs, n) <==>
            && GoodPrefix(rs, n - 1) && SystemReading(rs[n - 1])
            && SAMPLE_MIN_NS <= rs[n - 1].now - rs[n - 2].now <= SAMPLE_MAX_NS
  {
    hide SystemReading;
  }

  /** The two reducers are in corresponding states, with the same counters while watching. */
  predicate Corresponds(w: Watch, l: Lease) {
    && w.status in {Running, Changed, WatchReadFailed} && l.state == Counterpart(w.status)
    && (w.status == Running ==>
          && w.samples == l.samples && w.started == l.observationStarted
          && w.last == l.lastSample && w.started <= w.last)
  }

  lemma {:induction false} StepAgrees(w: Watch, l: Lease, second: u32, r: Reading)
    requires Corresponds(w, l) && second < LAST_SECOND
    requires w.status == Running ==> w.lastSecond == second - 1 && w.samples == second
    ensures Corresponds(Next(w, second, r), Sample(l, r))
    ensures Next(w, second, r).status == Running <==>
            w.status == Running && SystemReading(r) && SAMPLE_MIN_NS <= r.now - w.last <= SAMPLE_MAX_NS
    ensures Next(w, second, r).status == Running ==>
              && Next(w, second, r).started == w.started && Next(w, second, r).last == r.now
              && Next(w, second, r).lastSecond == second && Next(w, second, r).samples == second + 1
  {
  }

  /** On a whole stream of 61 reads, the watch is stable exactly if the lease is,
      and exactly if the stream is a system minute. The states differ only when
      the last read comes too early and everything else was in order; then the watch
      has failed, while the lease reports the read or keeps observing.
   */
  lemma {:induction false} MinuteAgreement(rs: seq<Reading>)
    requires |rs| == REQUIRED_SAMPLES
    ensures var w, l := WatchAfter(rs, REQUIRED_SAMPLES), LeaseAfter(rs, REQUIRED_SAMPLES);
            && (w.status == WatchStable <==> SystemMinute(rs))
            && (l.state.Stable? <==> SystemMinute(rs))
            && if EndsEarly(rs) then
                 && w.status == WatchReadFailed && w.timingFailed
                 && l.state == (if SystemReading(rs[60]) then Observing else RecoveryRequired)
               else w.status == WatchStable || (w.status in {Changed, WatchReadFailed} && l.state == Counterpart(w.status))
  {
    PrefixesAgree(rs, REQUIRED_SAMPLES - 1);
    MinuteIsGoodPrefix(rs);
  }

  /** Sixty good reads and a last one in time, less than a minute after the first. */
  predicate EndsEarly(rs: seq<Reading>)
    requires |rs| == REQUIRED_SAMPLES
  {
    && GoodPrefix(rs, REQUIRED_SAMPLES - 1) && ValidRead(rs[60])
    && InTime(rs[59].now, rs[60].now) && rs[60].now - rs[0].now < BASELINE_NS
  }

  lemma {:induction false} MinuteIsGoodPrefix(rs: seq<Reading>)
    requires |rs| == REQUIRED_SAMPLES
    ensures SystemMinute(rs) <==> GoodPrefix(rs, REQUIRED_SAMPLES) && rs[60].now - rs[0].now >= BASELINE_NS
  {
    var times := Times(rs);
    assert SystemMinute(rs) ==> forall k | 0 < k < |rs| :: times[k] - times[k - 1] == rs[k].now - rs[k - 1].now;
    assert GoodPrefix(rs, REQUIRED_SAMPLES) ==> forall k | 0 < k < |rs| ::
      times[k] - times[k - 1] == rs[k].now - rs[k - 1].now;
  }
}
