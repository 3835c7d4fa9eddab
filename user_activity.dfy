/**
 * Activity status of a user record (src/models/UserActivity.ts): a user is
 * 'Active' when the last activity lies strictly within the last hour.
 */
module UserActivity {
  import opened Wrappers

  const ACTIVE := "Active"
  const INACTIVE := "Inactive"

  /** The window used by `calculateStatus`: one hour, in milliseconds. */
  const ONE_HOUR_MS := 60 * 60 * 1000

  const ACTIVE_CLASSES := "bg-green-100 text-green-800"
  const INACTIVE_CLASSES := "bg-red-100 text-red-800"

  /**
   * `new Date(text)`: the epoch milliseconds the text denotes, or None for an
   * Invalid Date. The parser is the runtime's and is taken as a parameter.
   */
  type DateParser = string -> Option<int>

  /**
   * `calculateStatus(lastActive)` evaluated at wall-clock time `now`.
   * A null or empty timestamp is falsy and gives 'Inactive'; an Invalid Date
   * compares false against any date and gives 'Inactive' too.
   */
  function CalculateStatus(lastActive: Option<string>, parse: DateParser, now: int): (status: string)
    ensures status == ACTIVE || status == INACTIVE
    ensures status == ACTIVE <==>
              lastActive.Some? && lastActive.value != "" &&
              parse(lastActive.value).Some? && parse(lastActive.value).value > now - ONE_HOUR_MS
  {
    if lastActive.None? || lastActive.value == "" then INACTIVE
    else
      var lastActiveTime := parse(lastActive.value);
      var oneHourAgo := now - ONE_HOUR_MS;
      if lastActiveTime.Some? && lastActiveTime.value > oneHourAgo then ACTIVE else INACTIVE
  }

  /** `getStatusClasses(status)`: green badge for 'Active', red for any other string. */
  function GetStatusClasses(status: string): (classes: string)
    ensures classes == ACTIVE_CLASSES <==> status == ACTIVE
    ensures classes == INACTIVE_CLASSES <==> status != ACTIVE
  {
    if status == ACTIVE then ACTIVE_CLASSES else INACTIVE_CLASSES
  }

  /** Null and empty timestamps are 'Inactive' whatever the parser and the time. */
  lemma MissingTimestampIsInactive(parse: DateParser, now: int)
    ensures CalculateStatus(None, parse, now) == INACTIVE
    ensures CalculateStatus(Some(""), parse, now) == INACTIVE
  {
  }

  /** A text the runtime cannot parse is 'Inactive'. */
  lemma UnparseableIsInactive(text: string, parse: DateParser, now: int)
    requires parse(text).None?
    ensures CalculateStatus(Some(text), parse, now) == INACTIVE
  {
  }

  /**
   * The boundary is exclusive: a timestamp exactly one hour old is 'Inactive',
   * one millisecond younger is 'Active', and a timestamp in the future is 'Active'.
   */
  lemma OneHourBoundary(text: string, parse: DateParser, now: int)
    requires text != "" && parse(text).Some?
    ensures parse(text).value == now - ONE_HOUR_MS ==> CalculateStatus(Some(text), parse, now) == INACTIVE
    ensures parse(text).value == now - ONE_HOUR_MS + 1 ==> CalculateStatus(Some(text), parse, now) == ACTIVE
    ensures parse(text).value > now ==> CalculateStatus(Some(text), parse, now) == ACTIVE
  {
  }

  /** A status only improves as the last activity moves later. */
  lemma StatusMonotoneInLastActivity(t1: string, t2: string, parse: DateParser, now: int)
    requires t1 != "" && t2 != "" && parse(t1).Some? && parse(t2).Some?
    requires parse(t1).value <= parse(t2).value
    ensures CalculateStatus(Some(t1), parse, now) == ACTIVE ==> CalculateStatus(Some(t2), parse, now) == ACTIVE
  {
  }

  /**
   * The badge of a user row is green exactly when the timestamp is present,
   * parses, and lies within the last hour; otherwise it is red.
   */
  lemma BadgeOfComputedStatus(lastActive: Option<string>, parse: DateParser, now: int)
    ensures GetStatusClasses(CalculateStatus(lastActive, parse, now)) == ACTIVE_CLASSES <==>
              lastActive.Some? && lastActive.value != "" &&
              parse(lastActive.value).Some? && parse(lastActive.value).value > now - ONE_HOUR_MS
    ensures GetStatusClasses(CalculateStatus(lastActive, parse, now)) in {ACTIVE_CLASSES, INACTIVE_CLASSES}
  {
  }
}
