/** The trial's own minute, measured in seconds of floating point, satisfies the
    minute rule of the lease and of the watch, measured in nanoseconds.
 */
module MinuteAgreement {
  import opened SmcBaseline
  import opened MinuteRule
  import LeaseSpec
  import BaselineWatchReducer
  import TrialDevice

  const NS_PER_SECOND: real := 1000000000.0

  /** The clock reading at this time: whole nanoseconds, the rest cut off. */
  predicate Reads(now: int, seconds: real) {
    now as real <= seconds * NS_PER_SECOND < (now + 1) as real
  }

  /** The same samples, read off a nanosecond clock. */
  predicate SameReadings(window: seq<TrialDevice.Sample>, rs: seq<LeaseSpec.Reading>) {
    && |window| == |rs|
    && forall k | 0 <= k < |rs| ::
         && rs[k].result == Ok && rs[k].snapshot == Some(window[k].snapshot)
         && Reads(rs[k].now, window[k].finished)
  }

  lemma {:induction false} GapInNanoseconds(a: int, b: int, x: real, y: real)
    requires Reads(a, x) && Reads(b, y)
    requires TrialDevice.GAP_MIN <= y - x <= TrialDevice.GAP_MAX
    ensures SAMPLE_MIN_NS <= b - a <= SAMPLE_MAX_NS
  {
    assert y * NS_PER_SECOND - x * NS_PER_SECOND == (y - x) * NS_PER_SECOND;
    assert ((b - a) - 1) as real < (y - x) * NS_PER_SECOND < ((b - a) + 1) as real;
  }

  lemma {:induction false} MinuteInNanoseconds(a: int, b: int, x: real, y: real)
    requires Reads(a, x) && Reads(b, y) && y - x >= TrialDevice.MINUTE
    ensures b - a >= BASELINE_NS
  {
    assert y * NS_PER_SECOND - x * NS_PER_SECOND == (y - x) * NS_PER_SECOND;
    assert ((b - a) - 1) as real < (y - x) * NS_PER_SECOND < ((b - a) + 1) as real;
  }

  /** A stable window of 61 samples found in any trace, at a positive time, is a system
      minute; fed with it, both the watch and a freshly started lease become stable.
   */
  lemma {:induction false} TrialMinuteAccepted(log: seq<TrialDevice.Event>, window: seq<TrialDevice.Sample>,
                                        rs: seq<LeaseSpec.Reading>)
    requires TrialDevice.Consecutive(log, window) && TrialDevice.Lasts(window, 61, TrialDevice.MINUTE)
    requires |window| == 61 && SameReadings(window, rs) && rs[0].now > 0
    ensures BaselineWatchReducer.SystemMinute(rs)
    ensures BaselineWatchReducer.WatchAfter(rs, 61).status == BaselineWatchReducer.WatchStable
    ensures BaselineWatchReducer.LeaseAfter(rs, 61).state == LeaseSpec.Stable
  {
    forall k | 0 <= k < |rs|
      ensures LeaseSpec.SystemReading(rs[k])
    {
      assert TrialDevice.InTrace(log, window[k]);
    }
    var times := BaselineWatchReducer.Times(rs);
    forall k | 0 < k < |times|
      ensures SAMPLE_MIN_NS <= times[k] - times[k - 1] <= SAMPLE_MAX_NS
    {
      assert TrialDevice.Follows(window[k - 1], window[k]);
      GapInNanoseconds(rs[k - 1].now, rs[k].now, window[k - 1].finished, window[k].finished);
    }
    MinuteInNanoseconds(rs[0].now, rs[60].now, window[0].finished, window[60].finished);
    BaselineWatchReducer.MinuteAgreement(rs);
  }
}
