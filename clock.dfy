/** JavaScript `Date` time values: integer milliseconds since the epoch, or NaN
    for an invalid date. The process runs in one time zone with a fixed offset
    `tz`, the value `getTimezoneOffset()` returns (minutes, UTC minus local
    time); daylight-saving changes are not modelled. */
module Clock {
  import opened Wrappers

  // Milliseconds per second, minute, hour and day are written as literals
  // (1000, 60_000, 3_600_000, 86_400_000) so that products with them stay linear.

  /** The largest magnitude of a valid time value (TimeClip of ECMA-262). */
  const MaxTimeValue: int := 8_640_000_000_000_000

  /** A `Date`'s time value: `At(ms)` or NaN (`Invalid`). */
  datatype Instant = At(ms: int) | Invalid

  /** ECMA-262 TimeClip: a time value beyond 8.64e15 ms becomes NaN. */
  function TimeClip(t: int): (r: Instant)
    ensures r.At? <==> -MaxTimeValue <= t <= MaxTimeValue
    ensures r.At? ==> r.ms == t
  {
    if -MaxTimeValue <= t <= MaxTimeValue then At(t) else Invalid
  }

  /** The UTC instant at which the local calendar day holding `t` begins. */
  function LocalDayStart(t: int, tz: int): int {
    t - (t - tz * 60_000) % 86_400_000
  }

  /** The local day start is a local midnight, at most one day before the instant. */
  lemma LocalDayStartBounds(t: int, tz: int)
    ensures LocalDayStart(t, tz) <= t < LocalDayStart(t, tz) + 86_400_000
    ensures (LocalDayStart(t, tz) - tz * 60_000) % 86_400_000 == 0
  {
  }

  /** Starts of local days are exactly one day apart, whichever instant of the day is asked about. */
  lemma LocalDayStartOfDay(t: int, tz: int, u: int)
    requires LocalDayStart(t, tz) <= u < LocalDayStart(t, tz) + 86_400_000
    ensures LocalDayStart(u, tz) == LocalDayStart(t, tz)
  {
    LocalDayStartBounds(t, tz);
    LocalDayStartBounds(u, tz);
    var d := LocalDayStart(t, tz);
    var e := LocalDayStart(u, tz);
    var k := (d - tz * 60_000) / 86_400_000;
    var j := (e - tz * 60_000) / 86_400_000;
    assert d - tz * 60_000 == k * 86_400_000;
    assert e - tz * 60_000 == j * 86_400_000;
    assert e <= u < e + 86_400_000;
    assert (j - k) * 86_400_000 < 86_400_000 && (k - j) * 86_400_000 < 86_400_000;
  }

  /** The value `setHours(h, m, s, ms)` gives a date whose value is `t`: the
      same local day at the given wall-clock time. NaN stays NaN, and a NaN
      argument (`None`, as `parseInt` yields it) makes the date NaN. Hours or
      minutes out of range carry into neighbouring days. */
  function WithHours(t: Instant, h: Option<int>, m: Option<int>, s: int, ms: int, tz: int): Instant
  {
    if t.Invalid? || h.None? || m.None? then Invalid
    else TimeClip(LocalDayStart(t.ms, tz) + h.value * 3_600_000 + m.value * 60_000 + s * 1000 + ms)
  }

  /** `new Date(d.getTime() + delta)`. */
  function Plus(t: Instant, delta: int): Instant
  {
    match t
    case Invalid => Invalid
    case At(v) => TimeClip(v + delta)
  }

  /** A mutable JavaScript `Date` object. */
  class JsDate {
    var time: Instant

    /** `new Date(t)` for a time value `t`, which also copies another date. */
    constructor (t: Instant)
      ensures time == t
    {
      time := t;
    }

    /** `d.setHours(h, m, s, ms)` changes this object in place. */
    method SetHours(h: Option<int>, m: Option<int>, s: int, ms: int, tz: int)
      modifies this
      ensures time == WithHours(old(time), h, m, s, ms, tz)
    {
      time := WithHours(time, h, m, s, ms, tz);
    }
  }
}
