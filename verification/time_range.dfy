/** Timestamps, durations and the resolution check of range queries, in nanoseconds. */
module TimeRange {
  import opened Wrappers

  const SECOND: int := 1_000_000_000
  const MAX_INT64: int := 0x7FFF_FFFF_FFFF_FFFF
  const MIN_INT64: int := -0x8000_0000_0000_0000
  const TWO_TO_63: real := 9223372036854775808.0  // float64(math.MaxInt64)
  const MAX_POINTS: int := 11000

  /** The seconds for which `time.Unix` does not wrap: it adds the offset of year 1 in int64. */
  type UnixSeconds = t: real | -9223372036854775808.0 <= t < 9223371974719179008.0 witness 0.0

  /** A time parameter by what `parseTime` reads in it: a number, else an RFC 3339 timestamp, else nothing. */
  datatype TimeText = DecimalTime(t: UnixSeconds) | Timestamp(ns: int) | UnreadableTime

  /** A duration parameter by what `parseDuration` reads in it. */
  datatype DurationText = DecimalDuration(d: real) | NamedDuration(ns: int) | UnreadableDuration

  /** Go's conversion of a float to an integer: toward zero. */
  function Truncate(r: real): int {
    if r >= 0.0 then r.Floor else -(-r).Floor
  }

  /** `math.Modf` and `time.Unix`: whole seconds, then the nanoseconds of the fraction, both with the sign of `t`. */
  function ParseTime(s: TimeText): Option<int> {
    match s
    case DecimalTime(t) =>
      var whole := Truncate(t);
      var fraction := t - whole as real;
      Some(whole * SECOND + Truncate(fraction * SECOND as real))
    case Timestamp(ns) => Some(ns)
    case UnreadableTime => None
  }

  function ParseDuration(s: DurationText): Option<int> {
    match s
    case DecimalDuration(d) =>
      var ts := d * SECOND as real;
      if ts > TWO_TO_63 || ts < -TWO_TO_63 then None else Some(Truncate(ts))
    case NamedDuration(ns) => Some(ns)
    case UnreadableDuration => None
  }

  lemma FloorIsUnique(r: real, n: int)
    requires n as real <= r < (n + 1) as real
    ensures r.Floor == n
  {
  }

  /** `n` is `r` without its fraction. */
  predicate IsWholePart(n: int, r: real) {
    if r >= 0.0 then n as real <= r < n as real + 1.0 else n as real - 1.0 < r <= n as real
  }

  /** Splitting off the seconds loses nothing: the two truncations together are one truncation of the nanoseconds. */
  lemma TimeIsTruncated(t: UnixSeconds)
    ensures ParseTime(DecimalTime(t)) == Some(Truncate(t * SECOND as real))
  {
    var r: real := t;
    var size := if r >= 0.0 then r else -r;
    var whole := size.Floor;
    var rest := (size - whole as real) * SECOND as real;
    assert rest == size * SECOND as real - (whole * SECOND) as real;
    FloorIsUnique(size * SECOND as real, whole * SECOND + rest.Floor);
    if t < 0.0 {
      assert (t - Truncate(t) as real) * SECOND as real == -rest;
    }
  }

  /** A number is read as seconds: the whole nanoseconds in it, toward zero. A timestamp is read as it is. */
  lemma ParseTimeIsExact(t: UnixSeconds, ns: int)
    ensures ParseTime(DecimalTime(t)).Some? && IsWholePart(ParseTime(DecimalTime(t)).value, t * 1_000_000_000.0)
    ensures ParseTime(Timestamp(ns)) == Some(ns) && ParseTime(UnreadableTime) == None
  {
    TimeIsTruncated(t);
  }

  /**
   * A number is read as seconds: the whole nanoseconds in it, toward zero, unless they
   * do not lie within 2^63 of zero. A duration with a unit is read as it is.
   */
  lemma ParseDurationIsExact(d: real, ns: int)
    ensures var r := ParseDuration(DecimalDuration(d));
            && (r.Some? <==> -9223372036854775808.0 <= d * 1_000_000_000.0 <= 9223372036854775808.0)
            && (r.Some? ==> IsWholePart(r.value, d * 1_000_000_000.0))
    ensures ParseDuration(NamedDuration(ns)) == Some(ns) && ParseDuration(UnreadableDuration) == None
  {
  }

  lemma WholePartOfWhole(n: int, m: int)
    requires IsWholePart(n, m as real)
    ensures n == m
  {
  }

  /** Whole seconds are read as their nanoseconds. */
  lemma WholeSeconds(n: int)
    ensures -9223372036854775808 <= n <= 9223371974719179007 ==>
              ParseTime(DecimalTime(n as real)) == Some(n * 1_000_000_000)
    ensures ParseDuration(DecimalDuration(n as real))
            == if -9_223_372_036 <= n <= 9_223_372_036 then Some(n * 1_000_000_000) else None
  {
    assert n as real * 1_000_000_000.0 == (n * 1_000_000_000) as real;
    ParseDurationIsExact(n as real, 0);
    if -9223372036854775808 <= n <= 9223371974719179007 {
      ParseTimeIsExact(n as real, 0);
      WholePartOfWhole(ParseTime(DecimalTime(n as real)).value, n * 1_000_000_000);
    }
    if -9_223_372_036 <= n <= 9_223_372_036 {
      WholePartOfWhole(ParseDuration(DecimalDuration(n as real)).value, n * 1_000_000_000);
    }
  }

  /** Later numbers are never read as earlier times, across zero too. */
  lemma ParseTimeIsMonotone(t: UnixSeconds, t': UnixSeconds)
    requires t <= t'
    ensures ParseTime(DecimalTime(t)).value <= ParseTime(DecimalTime(t')).value
  {
    TimeIsTruncated(t);
    TimeIsTruncated(t');
    assert t * SECOND as real <= t' * SECOND as real;
  }

  /** `time.Time.Sub` saturates. */
  function Sub(end: int, start: int): int {
    if end - start > MAX_INT64 then MAX_INT64
    else if end - start < MIN_INT64 then MIN_INT64
    else end - start
  }

  /** The checks of `hijackQueryRange` on the three parameters; the division is of non-negative numbers. */
  predicate IsAcceptedRange(start: int, end: int, step: int) {
    start <= end && step > 0 && Sub(end, start) / step <= MAX_POINTS
  }

  /** The three parameters of a range query, when they pass every check. */
  predicate HasAcceptedRange(start: TimeText, end: TimeText, step: DurationText) {
    && ParseTime(start).Some? && ParseTime(end).Some? && ParseDuration(step).Some?
    && IsAcceptedRange(ParseTime(start).value, ParseTime(end).value, ParseDuration(step).value)
  }

  /** A positive step, and an end no earlier than the start and less than 11,001 steps away, as far as the difference tells. */
  lemma AcceptedRanges(start: TimeText, end: TimeText, step: DurationText)
    ensures HasAcceptedRange(start, end, step)
            <==> match (ParseTime(start), ParseTime(end), ParseDuration(step))
                 case (Some(s), Some(e), Some(d)) =>
                   s <= e && d > 0 && (e - s < 11_001 * d || 0x7FFF_FFFF_FFFF_FFFF < 11_001 * d)
                 case _ => false
  {
    if ParseTime(start).Some? && ParseTime(end).Some? && ParseDuration(step).Some? {
      var s, e, d := ParseTime(start).value, ParseTime(end).value, ParseDuration(step).value;
      if s <= e && d > 0 {
        DivisionBound(Sub(e, s), d, 11_000);
      }
    }
  }

  /** The same in seconds, as a caller writes whole ones. */
  lemma AcceptedSeconds(start: int, end: int, step: int)
    requires -9223372036854775808 <= start <= 9223371974719179007
    requires -9223372036854775808 <= end <= 9223371974719179007
    ensures HasAcceptedRange(DecimalTime(start as real), DecimalTime(end as real), DecimalDuration(step as real))
            <==> start <= end && 0 < step <= 9_223_372_036
                 && (end - start < 11_001 * step || 0x7FFF_FFFF_FFFF_FFFF < 11_001 * step * 1_000_000_000)
  {
    WholeSeconds(start);
    WholeSeconds(end);
    WholeSeconds(step);
    AcceptedRanges(DecimalTime(start as real), DecimalTime(end as real), DecimalDuration(step as real));
  }

  /** The evaluation times of a range query. */
  function Points(start: int, end: int, step: int): (r: seq<int>)
    requires start <= end && step > 0
    ensures |r| == (end - start) / step + 1
  {
    DivisionBound(end - start, step, 0);
    seq((end - start) / step + 1, k => start + k * step)
  }

  lemma DivisionBound(d: int, step: int, k: int)
    requires d >= 0 && step > 0 && k >= 0
    ensures d / step <= k <==> d < (k + 1) * step
    ensures d / step >= 0
  {
    var q, r := d / step, d % step;
    assert d == q * step + r && 0 <= r < step;
    if q <= k {
      assert q * step <= k * step;
      assert (k + 1) * step == k * step + step;
    } else {
      assert q * step >= (k + 1) * step;
    }
  }

  /** The points are exactly the times start + k * step up to the end. */
  lemma PointsAreTheSteps(start: int, end: int, step: int, k: nat)
    requires start <= end && step > 0
    ensures k < |Points(start, end, step)| <==> start + k * step <= end
    ensures k < |Points(start, end, step)| ==> Points(start, end, step)[k] == start + k * step
  {
    if k > 0 {
      DivisionBound(end - start, step, k - 1);
    } else {
      DivisionBound(end - start, step, 0);
    }
  }

  /** The least span that a saturated difference lets through with too many points. */
  const SPAN_LIMIT: int := (MAX_POINTS + 1) * (MAX_INT64 / (MAX_POINTS + 1) + 1)

  ghost predicate IsBounded(start: int, end: int, step: int) {
    IsAcceptedRange(start, end, step) ==> |Points(start, end, step)| <= MAX_POINTS + 1
  }

  /** While the difference fits in int64 the check accepts exactly the requests with at most 11,001 points. */
  lemma AcceptedIffFewPoints(start: int, end: int, step: int)
    requires start <= end && step > 0
    requires end - start <= MAX_INT64
    ensures IsAcceptedRange(start, end, step) <==> |Points(start, end, step)| <= 11_001
  {
    PointsAreTheSteps(start, end, step, MAX_POINTS + 1);
    DivisionBound(end - start, step, MAX_POINTS);
  }

  /** Between two given times every accepted step keeps the bound if and only if the span is below the limit. */
  lemma ResolutionIsBoundedIffSpanIsShort(start: int, end: int)
    requires start <= end
    ensures (forall step :: IsBounded(start, end, step)) <==> end - start < SPAN_LIMIT
  {
    var least := MAX_INT64 / (MAX_POINTS + 1) + 1;
    if end - start < SPAN_LIMIT {
      forall step ensures IsBounded(start, end, step) {
        if IsAcceptedRange(start, end, step) {
          DivisionBound(Sub(end, start), step, MAX_POINTS);
          DivisionBound(end - start, step, MAX_POINTS);
          if end - start > MAX_INT64 {
            assert step >= least;
          }
        }
      }
    } else {
      DivisionBound(Sub(end, start), least, MAX_POINTS);
      DivisionBound(end - start, least, MAX_POINTS);
      assert !IsBounded(start, end, least);
    }
  }
}
