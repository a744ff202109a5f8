/** The fixed, read-only SMC snapshot and the predicates every protocol shares:
    what counts as "system mode" and what counts as a usable temperature.
 */
module SmcBaseline {

  /** A C double, with rounding left out. */
  datatype Double = NaN | PosInf | NegInf | Finite(value: real)

  /** IEEE subtraction. */
  function Subtract(a: Double, b: Double): Double {
    match (a, b)
    case (Finite(x), Finite(y)) => Finite(x - y)
    case (NaN, _) => NaN
    case (_, NaN) => NaN
    case (PosInf, PosInf) => NaN
    case (NegInf, NegInf) => NaN
    case (PosInf, _) => PosInf
    case (NegInf, _) => NegInf
    case (Finite(_), PosInf) => NegInf
    case (Finite(_), NegInf) => PosInf
  }

  /** a < b; false if a is NaN. */
  predicate Below(a: Double, b: real) {
    a.NegInf? || (a.Finite? && a.value < b)
  }

  /** a > b; false if a is NaN. */
  predicate Above(a: Double, b: real) {
    a.PosInf? || (a.Finite? && a.value > b)
  }

  /** a >= b; false if a is NaN. */
  predicate AtLeast(a: Double, b: real) {
    a.PosInf? || (a.Finite? && a.value >= b)
  }

  datatype Option<+T> = None | Some(value: T) {
    function GetOr(default: T): T {
      if Some? then value else default
    }
  }

  type Byte = b: int | 0 <= b < 256
  type Modes = s: seq<Byte> | |s| == 2 witness [0, 0]
  type Rpms = s: seq<Double> | |s| == 2 witness [NaN, NaN]
  type Temperatures = s: seq<Double> | |s| == 3 witness [NaN, NaN, NaN]

  datatype Snapshot = Snapshot(ftst: Byte, mode: Modes, target: Rpms, actual: Rpms, temperature: Temperatures)

  datatype ReadResult = Ok | UnsupportedEnvironment | OpenFailed | KeyReadFailed | UnexpectedFormat

  const TEMPERATURE_LIMIT: real := 75.0

  /** isfinite(rpm) && fabs(rpm) <= 1.0 */
  predicate NearZero(rpm: Double) {
    rpm.Finite? && -1.0 <= rpm.value <= 1.0
  }

  /** Both fans belong to the system and neither has a target. */
  predicate SystemFans(s: Snapshot) {
    forall fan | 0 <= fan < 2 :: s.mode[fan] == 3 && NearZero(s.target[fan])
  }

  predicate IsSystem(s: Snapshot) {
    s.ftst == 0 && SystemFans(s)
  }

  predicate TemperatureValid(celsius: Double) {
    celsius.Finite? && 10.0 <= celsius.value <= 115.0
  }

  predicate CoolEnough(s: Snapshot) {
    forall sensor | 0 <= sensor < 3 ::
      TemperatureValid(s.temperature[sensor]) && s.temperature[sensor].value < TEMPERATURE_LIMIT
  }

  /** A cool machine that controls its own fans. */
  const COOL := Snapshot(0, [3, 3], [Finite(0.0), Finite(0.0)], [NaN, NaN], [Finite(20.0), Finite(20.0), Finite(20.0)])

  lemma {:induction false} CoolSnapshot()
    ensures IsSystem(COOL) && CoolEnough(COOL)
  {
  }
}

/** uint64_t and unsigned arithmetic as the C code performs it, and the rule that
    three components implement separately: a gap-free minute of samples.
 */
module MinuteRule {
  const U64_MAX: int := 0xFFFF_FFFF_FFFF_FFFF
  const U32_MAX: int := 0xFFFF_FFFF

  type u64 = x: int | 0 <= x <= U64_MAX
  type u32 = x: int | 0 <= x <= U32_MAX

  const SECOND: u64 := 1_000_000_000
  const REQUIRED_SAMPLES := 61
  const BASELINE_NS: u64 := 60_000_000_000
  const SAMPLE_MIN_NS: u64 := 900_000_000
  const SAMPLE_MAX_NS: u64 := 5_000_000_000

  /** Subtraction of two uint64_t values, wrapping below zero. */
  function Minus(a: u64, b: u64): u64 {
    if a >= b then a - b else a - b + U64_MAX + 1
  }

  /** Addition of two uint64_t values, wrapping above UINT64_MAX. */
  function Plus(a: u64, b: u64): u64 {
    if a + b <= U64_MAX then a + b else a + b - U64_MAX - 1
  }

  /** Increment of an unsigned counter. */
  function Increment(n: u32): u32 {
    if n == U32_MAX then 0 else n + 1
  }

  /** Adjacent samples finish 0.9 to 5 seconds apart. */
  predicate Spaced(times: seq<int>) {
    forall k | 0 < k < |times| :: SAMPLE_MIN_NS <= times[k] - times[k - 1] <= SAMPLE_MAX_NS
  }

  function Span(times: seq<int>): int
    requires |times| > 0
  {
    times[|times| - 1] - times[0]
  }

  /** At least 61 samples, no gap, at least a minute from first to last. */
  predicate FullMinute(times: seq<int>) {
    |times| >= REQUIRED_SAMPLES && Spaced(times) && Span(times) >= BASELINE_NS
  }

  /** A spaced run grows by 0.9 to 5 seconds a sample. */
  lemma {:induction false} SpanBounds(times: seq<int>)
    requires |times| > 0 && Spaced(times)
    ensures (|times| - 1) * SAMPLE_MIN_NS <= Span(times) <= (|times| - 1) * SAMPLE_MAX_NS
  {
    if |times| > 1 {
      var prefix := times[..|times| - 1];
      assert forall k | 0 < k < |prefix| :: prefix[k] - prefix[k - 1] == times[k] - times[k - 1];
      SpanBounds(prefix);
    }
  }
}
