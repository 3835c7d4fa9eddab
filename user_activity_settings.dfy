/**
 * Inactivity settings (src/utils/UserActivitySettings.ts): the timeout
 * constant and a human-readable rendering of a duration in whole hours.
 */
module UserActivitySettings {
  import NumberFormat

  const MS_PER_HOUR := 60 * 60 * 1000

  /** 24 hours in milliseconds (the comments beside it in the source say 2 hours). */
  const INACTIVITY_TIMEOUT_MS := 24 * 60 * 60 * 1000

  /**
   * `Math.floor(ms / 3600000)`. With a positive divisor Dafny's Euclidean
   * division is the floor, also for negative `ms`.
   */
  function Hours(ms: int): (hours: int)
    ensures hours * MS_PER_HOUR <= ms < (hours + 1) * MS_PER_HOUR
  {
    ms / MS_PER_HOUR
  }

  function HourUnit(hours: int): (unit: string)
    ensures unit == "hour" <==> hours == 1
    ensures hours != 1 ==> unit == "hours"
  {
    if hours == 1 then "hour" else "hours"
  }

  /**
   * `getReadableDuration(ms)`: the whole hours as a decimal numeral, a space,
   * and "hour" for exactly one hour or "hours" otherwise.
   */
  function GetReadableDuration(ms: int): (text: string)
    ensures var unit := if Hours(ms) == 1 then "hour" else "hours";
            var n := |text| - |unit| - 1;
            0 < n && text[n..] == " " + unit && NumberFormat.Denotes(text[..n], Hours(ms))
  {
    var count := NumberFormat.IntToString(Hours(ms));
    var text := count + " " + HourUnit(Hours(ms));
    assert text[..|count|] == count;
    text
  }

  lemma InactivityTimeoutIs24Hours()
    ensures INACTIVITY_TIMEOUT_MS == 86_400_000
    ensures Hours(INACTIVITY_TIMEOUT_MS) == 24
  {
  }

  /** The timeout reads as "24 hours". */
  lemma ReadableTimeout()
    ensures GetReadableDuration(INACTIVITY_TIMEOUT_MS) == "24 hours"
  {
    assert Hours(INACTIVITY_TIMEOUT_MS) == 24;
    assert NumberFormat.NatToString(2) == "2";
    assert NumberFormat.NatToString(24) == NumberFormat.NatToString(2) + "4";
  }

  /** Every duration within one whole hour reads the same. */
  lemma SameHourSameText(h: int, ms: int)
    requires h * MS_PER_HOUR <= ms < (h + 1) * MS_PER_HOUR
    ensures Hours(ms) == h
    ensures GetReadableDuration(ms) == GetReadableDuration(h * MS_PER_HOUR)
  {
    assert Hours(h * MS_PER_HOUR) == h;
  }

  /** The hour count never decreases as the duration grows. */
  lemma HoursMonotone(a: int, b: int)
    requires a <= b
    ensures Hours(a) <= Hours(b)
  {
  }

  /**
   * The text determines the hour count: two durations read the same exactly
   * when they fall in the same whole hour.
   */
  lemma ReadableDurationDeterminesHours(a: int, b: int)
    ensures GetReadableDuration(a) == GetReadableDuration(b) <==> Hours(a) == Hours(b)
  {
    var x, y := NumberFormat.IntToString(Hours(a)), NumberFormat.IntToString(Hours(b));
    if GetReadableDuration(a) == GetReadableDuration(b) {
      NumberFormat.IntToStringHasNoSpace(Hours(a));
      NumberFormat.IntToStringHasNoSpace(Hours(b));
      PrefixBeforeSpace(x, HourUnit(Hours(a)), y, HourUnit(Hours(b)));
      NumberFormat.IntToStringInjective(Hours(a), Hours(b));
    }
  }

  /** Two space-free prefixes followed by a space are equal when the whole texts are. */
  lemma PrefixBeforeSpace(x: string, u: string, y: string, v: string)
    requires forall k :: 0 <= k < |x| ==> x[k] != ' '
    requires forall k :: 0 <= k < |y| ==> y[k] != ' '
    requires x + " " + u == y + " " + v
    ensures x == y
  {
    var s := x + " " + u;
    var n := if |x| < |y| then |x| else |y|;
    assert s[n] == ' ' ==> |x| == |y|;
    assert x == s[..|x|];
  }
}
