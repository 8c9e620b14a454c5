// The shared server-side helpers of the diary: day-grid constants, slot/time
// conversion, the minutes summary of a block count, the Korean duration text,
// week and month date ranges, the JSON response envelopes and the forgiving
// date parser.
module CoreUtils {
  import opened Wrappers
  import opened Strings

  const UnclassifiedTagName: string := "미분류"
  const UnclassifiedTagColor: string := "#808080"
  const SleepTagName: string := "수면"

  const SlotsPerHour: nat := 6
  const TotalSlotsPerDay: nat := 144
  const MinutesPerSlot: nat := 10
  const HoursPerDay: nat := 24

  // ---------------------------------------------------------------------
  // Slot <-> time.  Python's `//` and `%` floor; with the positive divisors
  // used here Dafny's Euclidean `/` and `%` agree with them on every integer.

  /** get_slot_from_time: the slot containing hour:minute (minute rounded down to ten). */
  function GetSlotFromTime(hour: int, minute: int): (r: int)
    ensures 0 <= minute < 60 ==> MinutesPerSlot * r <= 60 * hour + minute < MinutesPerSlot * r + MinutesPerSlot
  {
    var slotMinute := (minute / MinutesPerSlot) * MinutesPerSlot;
    hour * SlotsPerHour + slotMinute / MinutesPerSlot
  }

  /** get_time_from_slot: the (hour, minute) at which a slot starts. */
  function GetTimeFromSlot(slotIndex: int): (r: (int, int))
    ensures 60 * r.0 + r.1 == MinutesPerSlot * slotIndex
    ensures 0 <= r.1 < 60 && r.1 % MinutesPerSlot == 0
  {
    (slotIndex / SlotsPerHour, (slotIndex % SlotsPerHour) * MinutesPerSlot)
  }

  lemma SlotFromTimeFromSlot(i: int)
    ensures GetSlotFromTime(GetTimeFromSlot(i).0, GetTimeFromSlot(i).1) == i
  {
    var (h, m) := GetTimeFromSlot(i);
    assert (m / 10) * 10 / 10 == i % 6;
  }

  lemma TimeFromSlotFromTime(hour: int, minute: int)
    requires 0 <= minute < 60
    ensures GetTimeFromSlot(GetSlotFromTime(hour, minute)) == (hour, minute - minute % 10)
  {
    var q := minute / 10;
    assert (q * 10) / 10 == q;
    var s := hour * 6 + q;
    assert 0 <= q < 6;
    assert s / 6 == hour && s % 6 == q;
  }

  /** Every slot of the day starts within the day, on a ten-minute boundary. */
  lemma GetTimeFromSlotBounds(i: int)
    requires 0 <= i < TotalSlotsPerDay
    ensures 0 <= GetTimeFromSlot(i).0 < HoursPerDay
    ensures 0 <= GetTimeFromSlot(i).1 <= 50 && GetTimeFromSlot(i).1 % 10 == 0
  {
  }

  // ---------------------------------------------------------------------
  // calculate_time_statistics (integer fields)

  datatype TimeStatistics = TimeStatistics(totalMinutes: nat, hours: nat, remainingMinutes: nat)

  function CalculateTimeStatistics(blocksCount: nat): (r: TimeStatistics)
    ensures r.totalMinutes == blocksCount * MinutesPerSlot
    ensures r.hours * 60 + r.remainingMinutes == r.totalMinutes
    ensures r.remainingMinutes < 60 && r.remainingMinutes % 10 == 0
    ensures blocksCount <= TotalSlotsPerDay ==> r.hours <= HoursPerDay
  {
    var total := blocksCount * MinutesPerSlot;
    TimeStatistics(total, total / 60, total % 60)
  }

  // ---------------------------------------------------------------------
  // format_time_display

  /**
   * format_time_display: "<h>시간 <m>분", "<h>시간" or "<m>분", each part
   * only when positive, and "0분" when neither is.
   */
  function FormatTimeDisplay(hours: int, minutes: int): (r: string)
    ensures r == "0분" <==> hours <= 0 && minutes <= 0
    ensures hours > 0 && minutes > 0 ==> r == NatToString(hours) + "시간 " + NatToString(minutes) + "분"
    ensures hours > 0 && minutes <= 0 ==> r == NatToString(hours) + "시간"
    ensures hours <= 0 && minutes > 0 ==> r == NatToString(minutes) + "분"
  {
    if hours > 0 && minutes > 0 then
      assert |NatToString(hours) + "시간 " + NatToString(minutes) + "분"| > 2;
      NatToString(hours) + "시간 " + NatToString(minutes) + "분"
    else if hours > 0 then
      assert AllDigits(NatToString(hours));
      NatToString(hours) + "시간"
    else if minutes > 0 then
      NotZeroMinutes(minutes);
      NatToString(minutes) + "분"
    else "0분"
  }

  lemma NotZeroMinutes(minutes: nat)
    requires minutes > 0
    ensures NatToString(minutes) + "분" != "0분"
  {
    var s := NatToString(minutes);
    NatToStringLength(minutes);
    if minutes < 10 {
      assert (s + "분")[0] == DigitChar(minutes) != '0';
    } else {
      assert |s + "분"| != |"0분"|;
    }
  }

  /**
   * Reads the hours and minutes back from a duration text of the forms
   * "<h>시간 <m>분", "<h>시간" and "<m>분"; None for any other text. It is
   * the reference against which this formatter and its copies in the
   * scripts are proved.
   */
  function ReadDuration(t: string): Option<(nat, nat)> {
    var i := DigitRun(t, 0);
    assert AllDigits(t[..i]);
    var rest := t[i..];
    if i == 0 then None
    else if rest == "분" then Some((0, DigitsValue(t[..i])))
    else if rest == "시간" then Some((DigitsValue(t[..i]), 0))
    else if |rest| > 3 && rest[..3] == "시간 " then
      var tail := rest[3..];
      var j := DigitRun(tail, 0);
      assert AllDigits(tail[..j]);
      if j > 0 && tail[j..] == "분" then Some((DigitsValue(t[..i]), DigitsValue(tail[..j]))) else None
    else None
  }

  /** The reading of "<n><unit>" for a unit of one or two characters that is not "시간 …". */
  lemma ReadsNumberWithUnit(n: nat, unit: string)
    requires unit == "분" || unit == "시간"
    ensures ReadDuration(NatToString(n) + unit) == Some(if unit == "분" then (0, n) else (n, 0))
  {
    ReadsNumber(n, unit);
  }

  /** The reading of "<h>시간 <m>분". */
  lemma ReadsHoursAndMinutes(h: nat, m: nat)
    ensures ReadDuration(NatToString(h) + "시간 " + NatToString(m) + "분") == Some((h, m))
  {
    var tail := NatToString(m) + "분";
    var u := "시간 " + tail;
    assert NatToString(h) + "시간 " + NatToString(m) + "분" == NatToString(h) + u;
    ReadsNumber(h, u);
    ReadsNumber(m, "분");
    assert u[..3] == "시간 " && u[3..] == tail;
  }

  /**
   * The display text gives back the hours and minutes it shows: every
   * positive part, and zero for a part that is not positive.
   */
  lemma FormatTimeDisplayReadsBack(hours: int, minutes: int)
    ensures ReadDuration(FormatTimeDisplay(hours, minutes)) ==
            Some((if hours > 0 then hours else 0, if minutes > 0 then minutes else 0))
  {
    if hours > 0 && minutes > 0 {
      ReadsHoursAndMinutes(hours, minutes);
    } else if hours > 0 {
      ReadsNumberWithUnit(hours, "시간");
    } else if minutes > 0 {
      ReadsNumberWithUnit(minutes, "분");
    } else {
      assert NatToString(0) == "0";
      ReadsNumberWithUnit(0, "분");
    }
  }

  // ---------------------------------------------------------------------
  // Dates.  A date for week arithmetic is Python's proleptic ordinal
  // (`date.toordinal()`: day 1 is Monday 0001-01-01); a calendar date is a
  // (year, month, day) triple.

  /** `date.weekday()`: Monday is 0, Sunday is 6. */
  function Weekday(ordinal: int): (w: int)
    ensures 0 <= w < 7
  {
    (ordinal + 6) % 7
  }

  /** get_week_date_range: the Monday on or before the target, and the Sunday after it. */
  function GetWeekDateRange(target: int): (r: (int, int))
    ensures Weekday(r.0) == 0
    ensures 0 <= target - r.0 <= 6
    ensures r.1 == r.0 + 6
  {
    var start := target - Weekday(target);
    assert (start + 6) % 7 == 0 by {
      assert target + 6 == 7 * ((target + 6) / 7) + Weekday(target);
    }
    (start, start + 6)
  }

  /** The week start found above is the only Monday at most six days back. */
  lemma WeekStartUnique(target: int, s: int)
    requires Weekday(s) == 0 && 0 <= target - s <= 6
    ensures s == GetWeekDateRange(target).0
  {
    var s0 := GetWeekDateRange(target).0;
    assert (s + 6) % 7 == 0 && (s0 + 6) % 7 == 0;
    assert (s + 6) == 7 * ((s + 6) / 7);
    assert (s0 + 6) == 7 * ((s0 + 6) / 7);
    assert -6 <= s - s0 <= 6;
  }

  datatype Date = Date(year: int, month: int, day: int)

  /** The Gregorian leap-year rule used by `calendar.monthrange`. */
  predicate IsLeapYear(y: int) {
    y % 4 == 0 && (y % 100 != 0 || y % 400 == 0)
  }

  function DaysInMonth(year: int, month: int): (n: int)
    requires 1 <= month <= 12
    ensures 28 <= n <= 31
  {
    if month == 2 then (if IsLeapYear(year) then 29 else 28)
    else if month == 4 || month == 6 || month == 9 || month == 11 then 30
    else 31
  }

  predicate ValidDate(d: Date) {
    1 <= d.month <= 12 && 1 <= d.day <= DaysInMonth(d.year, d.month)
  }

  /** `date.toordinal()`: days since 0001-01-01, which is day 1. */
  function Ordinal(d: Date): int
    requires ValidDate(d)
  {
    var p := d.year - 1;
    p * 365 + p / 4 - p / 100 + p / 400 + DaysBeforeMonth(d.year, d.month) + d.day
  }

  function DaysBeforeMonth(year: int, month: int): int
    requires 1 <= month <= 12
  {
    if month == 1 then 0 else DaysBeforeMonth(year, month - 1) + DaysInMonth(year, month - 1)
  }

  /** The calendar day after `d`. */
  function NextDay(d: Date): (r: Date)
    requires ValidDate(d)
    ensures ValidDate(r)
  {
    if d.day < DaysInMonth(d.year, d.month) then d.(day := d.day + 1)
    else if d.month < 12 then Date(d.year, d.month + 1, 1)
    else Date(d.year + 1, 1, 1)
  }

  /** get_month_date_range: day one and the last day of the target's month. */
  function GetMonthDateRange(target: Date): (r: (Date, Date))
    requires ValidDate(target)
    ensures ValidDate(r.0) && ValidDate(r.1)
    ensures r.0 == target.(day := 1)
    ensures r.1.year == target.year && r.1.month == target.month
    ensures r.0.day <= target.day <= r.1.day
    ensures NextDay(r.1).day == 1 && NextDay(r.1).month != target.month
  {
    (target.(day := 1), target.(day := DaysInMonth(target.year, target.month)))
  }

  lemma FebruaryLength(y: int)
    ensures DaysInMonth(y, 2) == 29 <==> IsLeapYear(y)
    ensures DaysInMonth(1900, 2) == 28 && DaysInMonth(2000, 2) == 29 && DaysInMonth(2024, 2) == 29
  {
  }

  // ---------------------------------------------------------------------
  // JSON response envelopes

  /** The JSON values the views put into a response. */
  datatype Json =
    | JNull
    | JBool(b: bool)
    | JInt(i: int)
    | JStr(s: string)
    | JList(items: seq<Json>)
    | JObject(fields: seq<(string, Json)>)

  /** Python truthiness of a JSON-like value. */
  predicate Truthy(v: Json) {
    match v
    case JNull => false
    case JBool(b) => b
    case JInt(i) => i != 0
    case JStr(s) => s != ""
    case JList(items) => items != []
    case JObject(fields) => fields != []
  }

  /**
   * A response body `{"success", "message", ["data"], ["error"]}` and its
   * HTTP status; an absent key is None.
   */
  datatype JsonResponse = JsonResponse(status: int, success: bool, message: string,
                                       data: Option<Json>, error: Option<string>)

  const DefaultSuccessStatus: int := 200
  const DefaultErrorStatus: int := 400

  function SuccessResponse(message: string, data: Json, status: int): (r: JsonResponse)
    ensures r.success && r.message == message && r.status == status
    ensures r.data.Some? <==> Truthy(data)
    ensures r.data.Some? ==> r.data.value == data
    ensures r.error.None?
  {
    JsonResponse(status, true, message, if Truthy(data) then Some(data) else None, None)
  }

  /** Python truthiness of an optional error code: None and "" are falsy. */
  predicate CodeGiven(code: Option<string>) { code.Some? && code.value != "" }

  function ErrorResponse(message: string, errorCode: Option<string>, status: int): (r: JsonResponse)
    ensures !r.success && r.message == message && r.status == status
    ensures r.data.None?
    ensures r.error.Some? <==> CodeGiven(errorCode)
    ensures r.error.Some? ==> r.error == errorCode
  {
    JsonResponse(status, false, message, None, if CodeGiven(errorCode) then errorCode else None)
  }

  // ---------------------------------------------------------------------
  // safe_date_parse.  `parsed` is what strptime(date_str, "%Y-%m-%d") gives:
  // a date, or None when it raises ValueError/TypeError.

  function SafeDateParse(dateStr: Option<string>, default: Option<Date>, today: Date,
                         parsed: Option<Date>): (r: Date)
    ensures (dateStr.None? || dateStr.value == "" || parsed.None?) ==> r == default.GetOr(today)
    ensures dateStr.Some? && dateStr.value != "" && parsed.Some? ==> r == parsed.value
  {
    if dateStr.None? || dateStr.value == "" then default.GetOr(today)
    else if parsed.Some? then parsed.value
    else default.GetOr(today)
  }
}
