/**
 * The proleptic Gregorian calendar the way .NET's DateTime counts it:
 * a date-and-time value is a tick count (100 ns) since 0001-01-01 00:00:00,
 * comparisons compare ticks, 0001-01-01 is a Monday, and AddMonths clamps the
 * day to the length of the target month and fails outside years 1..9999.
 */
module Calendar {
  import opened Wrappers
  import opened Numbers

  const TicksPerSecond: int := 10_000_000
  const SecondsPerDay: int := 86_400
  const TicksPerDay: int := 864_000_000_000
  const MinYear: int := 1
  const MaxYear: int := 9999

  /** The fields of a DateTime; `fraction` is the sub-second part in ticks. */
  datatype Timestamp = Timestamp(year: int, month: int, day: int,
                                 hour: int, minute: int, second: int, fraction: int)
  {
    predicate Valid() {
      && MinYear <= year <= MaxYear
      && 1 <= month <= 12
      && 1 <= day <= DaysInMonth(year, month)
      && 0 <= hour < 24 && 0 <= minute < 60 && 0 <= second < 60
      && 0 <= fraction < TicksPerSecond
    }
  }

  /** A DateTime can only hold a real calendar date and time. */
  type DateTime = t: Timestamp | t.Valid() witness Timestamp(1, 1, 1, 0, 0, 0, 0)

  predicate IsLeapYear(y: int) {
    y % 4 == 0 && (y % 100 != 0 || y % 400 == 0)
  }

  function DaysInYear(y: int): int {
    if IsLeapYear(y) then 366 else 365
  }

  function DaysInMonth(y: int, m: int): int
    requires 1 <= m <= 12
  {
    if m == 2 then (if IsLeapYear(y) then 29 else 28)
    else if m == 4 || m == 6 || m == 9 || m == 11 then 30
    else 31
  }

  /** Days of year `y` before the first of month `m`; m == 13 gives the whole year. */
  function DaysBeforeMonth(y: int, m: int): int
    requires 1 <= m <= 13
  {
    var leap := if IsLeapYear(y) then 1 else 0;
    match m
    case 1 => 0
    case 2 => 31
    case 3 => 59 + leap
    case 4 => 90 + leap
    case 5 => 120 + leap
    case 6 => 151 + leap
    case 7 => 181 + leap
    case 8 => 212 + leap
    case 9 => 243 + leap
    case 10 => 273 + leap
    case 11 => 304 + leap
    case 12 => 334 + leap
    case _ => 365 + leap
  }

  /** Days from 0001-01-01 to January 1st of year `y`. */
  function DaysBeforeYear(y: int): int {
    var n := y - 1;
    365 * n + n / 4 - n / 100 + n / 400
  }

  function DayOfYear(d: DateTime): int {
    DaysBeforeMonth(d.year, d.month) + d.day - 1
  }

  /** Whole days since 0001-01-01. */
  function DayNumber(d: DateTime): int {
    DaysBeforeYear(d.year) + DayOfYear(d)
  }

  function TimeOfDayTicks(d: DateTime): int {
    (d.hour * 3600 + d.minute * 60 + d.second) * TicksPerSecond + d.fraction
  }

  /** DateTime.Ticks: the value .NET compares dates by. */
  function Ticks(d: DateTime): int {
    DayNumber(d) * TicksPerDay + TimeOfDayTicks(d)
  }

  /**
   * a <= b on DateTime. .NET compares Ticks; LessOrEqualIsTicksOrder shows
   * that the calendar-field order used here is the same order.
   */
  predicate LessOrEqual(a: DateTime, b: DateTime) {
    a == b || LexLess(a, b)
  }

  /** Lexicographic order on (year, month, day, hour, minute, second, fraction). */
  predicate LexLess(a: Timestamp, b: Timestamp) {
    || a.year < b.year
    || (a.year == b.year && a.month < b.month)
    || (a.year == b.year && a.month == b.month && a.day < b.day)
    || (a.year == b.year && a.month == b.month && a.day == b.day && a.hour < b.hour)
    || (a.year == b.year && a.month == b.month && a.day == b.day && a.hour == b.hour
        && a.minute < b.minute)
    || (a.year == b.year && a.month == b.month && a.day == b.day && a.hour == b.hour
        && a.minute == b.minute && a.second < b.second)
    || (a.year == b.year && a.month == b.month && a.day == b.day && a.hour == b.hour
        && a.minute == b.minute && a.second == b.second && a.fraction < b.fraction)
  }

  // ---------------------------------------------------------------------------
  // Day-count facts

  lemma DaysBeforeMonthStep(y: int, m: int)
    requires 1 <= m <= 12
    ensures DaysBeforeMonth(y, m + 1) == DaysBeforeMonth(y, m) + DaysInMonth(y, m)
  {
  }

  lemma {:induction false} DaysBeforeMonthMonotone(y: int, m1: int, m2: int)
    requires 1 <= m1 <= m2 <= 13
    ensures DaysBeforeMonth(y, m1) <= DaysBeforeMonth(y, m2)
    decreases m2 - m1
  {
    if m1 < m2 {
      DaysBeforeMonthStep(y, m1);
      DaysBeforeMonthMonotone(y, m1 + 1, m2);
    }
  }

  lemma DaysBeforeYearStep(y: int)
    ensures DaysBeforeYear(y + 1) == DaysBeforeYear(y) + DaysInYear(y)
  {
    var n := y - 1;
    Step4(n);
    Step100(n);
    Step400(n);
    MultiplesNest(y);
    var a, b, c := (if y % 4 == 0 then 1 else 0), (if y % 100 == 0 then 1 else 0), (if y % 400 == 0 then 1 else 0);
    assert DaysBeforeYear(y + 1) == DaysBeforeYear(y) + 365 + a - b + c;
    assert DaysInYear(y) == 365 + a - b + c;
  }

  /** A multiple of 400 is a multiple of 100, and a multiple of 100 a multiple of 4. */
  lemma MultiplesNest(y: int)
    ensures y % 400 == 0 ==> y % 100 == 0
    ensures y % 100 == 0 ==> y % 4 == 0
  {
    if y % 400 == 0 {
      var q := y / 400;
      assert y == 100 * (4 * q);
    }
    if y % 100 == 0 {
      var q := y / 100;
      assert y == 4 * (25 * q);
    }
  }

  // Counting multiples: moving from n to n + 1 adds one exactly when n + 1 is one.

  lemma Step4(n: int)
    ensures (n + 1) / 4 == n / 4 + (if (n + 1) % 4 == 0 then 1 else 0)
  {
    var q, r := n / 4, n % 4;
    assert n == 4 * q + r && 0 <= r < 4;
    if r == 3 {
      assert n + 1 == 4 * (q + 1);
    } else {
      assert n + 1 == 4 * q + (r + 1);
    }
  }

  lemma Step100(n: int)
    ensures (n + 1) / 100 == n / 100 + (if (n + 1) % 100 == 0 then 1 else 0)
  {
    var q, r := n / 100, n % 100;
    assert n == 100 * q + r && 0 <= r < 100;
    if r == 99 {
      assert n + 1 == 100 * (q + 1);
    } else {
      assert n + 1 == 100 * q + (r + 1);
    }
  }

  lemma Step400(n: int)
    ensures (n + 1) / 400 == n / 400 + (if (n + 1) % 400 == 0 then 1 else 0)
  {
    var q, r := n / 400, n % 400;
    assert n == 400 * q + r && 0 <= r < 400;
    if r == 399 {
      assert n + 1 == 400 * (q + 1);
    } else {
      assert n + 1 == 400 * q + (r + 1);
    }
  }

  lemma {:induction false} DaysBeforeYearOrder(y1: int, y2: int)
    requires y1 < y2
    ensures DaysBeforeYear(y1) + DaysInYear(y1) <= DaysBeforeYear(y2)
    decreases y2 - y1
  {
    DaysBeforeYearStep(y1);
    if y1 + 1 < y2 {
      DaysBeforeYearOrder(y1 + 1, y2);
    }
  }

  lemma DayOfYearBounds(d: DateTime)
    ensures 0 <= DayOfYear(d) < DaysInYear(d.year)
  {
    DaysBeforeMonthStep(d.year, d.month);
    DaysBeforeMonthMonotone(d.year, d.month + 1, 13);
  }

  /** Within one day the time-of-day ticks order lexicographically. */
  lemma TimeOfDayOrder(a: DateTime, b: DateTime)
    requires a.year == b.year && a.month == b.month && a.day == b.day
    requires LexLess(a, b)
    ensures TimeOfDayTicks(a) < TimeOfDayTicks(b)
  {
  }

  /** Comparing DateTime values by ticks is the lexicographic order on their fields. */
  lemma LexLessMeansEarlier(a: DateTime, b: DateTime)
    requires LexLess(a, b)
    ensures Ticks(a) < Ticks(b)
  {
    DayOfYearBounds(a);
    DayOfYearBounds(b);
    assert 0 <= TimeOfDayTicks(a) < TicksPerDay;
    assert 0 <= TimeOfDayTicks(b) < TicksPerDay;
    if a.year < b.year {
      DaysBeforeYearOrder(a.year, b.year);
      assert DayNumber(a) < DayNumber(b);
    } else if a.month < b.month {
      DaysBeforeMonthStep(a.year, a.month);
      DaysBeforeMonthMonotone(a.year, a.month + 1, b.month);
      assert DayNumber(a) < DayNumber(b);
    } else if a.day < b.day {
      assert DayNumber(a) < DayNumber(b);
    } else {
      TimeOfDayOrder(a, b);
    }
  }

  lemma TicksOrderIsLexicographic(a: DateTime, b: DateTime)
    ensures Ticks(a) < Ticks(b) <==> LexLess(a, b)
    ensures Ticks(a) == Ticks(b) <==> a == b
  {
    if LexLess(a, b) {
      LexLessMeansEarlier(a, b);
    } else if LexLess(b, a) {
      LexLessMeansEarlier(b, a);
    } else {
      assert a == b;
    }
  }

  lemma LessOrEqualIsTicksOrder(a: DateTime, b: DateTime)
    ensures LessOrEqual(a, b) <==> Ticks(a) <= Ticks(b)
  {
    TicksOrderIsLexicographic(a, b);
  }

  // ---------------------------------------------------------------------------
  // Day of week

  /** System.DayOfWeek, in the enum's own order (Sunday = 0). */
  datatype DayOfWeek = Sunday | Monday | Tuesday | Wednesday | Thursday | Friday | Saturday

  function DayOfWeekFromIndex(i: int): (w: DayOfWeek)
    requires 0 <= i < 7
    ensures DayOfWeekIndex(w) == i
  {
    match i
    case 0 => Sunday
    case 1 => Monday
    case 2 => Tuesday
    case 3 => Wednesday
    case 4 => Thursday
    case 5 => Friday
    case _ => Saturday
  }

  function DayOfWeekIndex(w: DayOfWeek): (i: int)
    ensures 0 <= i < 7
  {
    match w
    case Sunday => 0
    case Monday => 1
    case Tuesday => 2
    case Wednesday => 3
    case Thursday => 4
    case Friday => 5
    case Saturday => 6
  }

  /** DateTime.DayOfWeek: day 0 (0001-01-01) is a Monday. */
  function DayOfWeekOf(d: DateTime): DayOfWeek {
    DayOfWeekFromIndex((DayNumber(d) + 1) % 7)
  }

  /** DayOfWeek.ToString(). */
  function DayName(w: DayOfWeek): string {
    match w
    case Sunday => "Sunday"
    case Monday => "Monday"
    case Tuesday => "Tuesday"
    case Wednesday => "Wednesday"
    case Thursday => "Thursday"
    case Friday => "Friday"
    case Saturday => "Saturday"
  }

  lemma DayNameInjective(v: DayOfWeek, w: DayOfWeek)
    ensures DayName(v) == DayName(w) <==> v == w
  {
    if v != w {
      assert DayName(v)[0] != DayName(w)[0] || DayName(v)[1] != DayName(w)[1];
    }
  }

  // ---------------------------------------------------------------------------
  // Calendar arithmetic used by the month comparison

  /** new DateTime(year, month, 1): fails outside the representable range. */
  function FirstOfMonth(year: int, month: int): (r: Option<DateTime>)
    ensures r.Some? <==> MinYear <= year <= MaxYear && 1 <= month <= 12
    ensures r.Some? ==> r.value == Timestamp(year, month, 1, 0, 0, 0, 0)
  {
    if MinYear <= year <= MaxYear && 1 <= month <= 12
    then Some(Timestamp(year, month, 1, 0, 0, 0, 0))
    else None
  }

  /** DateTime.AddMonths: shift the month, clamp the day, keep the time of day. */
  function AddMonths(d: DateTime, months: int): Option<DateTime> {
    var total := d.year * 12 + (d.month - 1) + months;
    var y := total / 12;
    var m := total % 12 + 1;
    if y < MinYear || y > MaxYear then None
    else Some(d.(year := y, month := m, day := Min(d.day, DaysInMonth(y, m))))
  }

  /** Midnight at the start of a day. */
  function Midnight(year: int, month: int, day: int): Timestamp {
    Timestamp(year, month, day, 0, 0, 0, 0)
  }

  /** One month on from the first of a month is the first of the next month. */
  lemma NextMonthFromFirst(y: int, m: int)
    requires MinYear <= y <= MaxYear && 1 <= m <= 12
    ensures var next := AddMonths(Midnight(y, m, 1), 1);
            && (next.Some? <==> m < 12 || y < MaxYear)
            && (next.Some? ==> next.value == if m < 12 then Midnight(y, m + 1, 1) else Midnight(y + 1, 1, 1))
  {
    var total := y * 12 + (m - 1) + 1;
    if m < 12 {
      assert total / 12 == y && total % 12 == m;
    } else {
      assert total == (y + 1) * 12;
      assert total / 12 == y + 1 && total % 12 == 0;
    }
  }

  /** One month back from the first of a month is the first of the month before. */
  lemma PreviousMonthFromFirst(y: int, m: int)
    requires MinYear <= y <= MaxYear && 1 <= m <= 12
    ensures var prev := AddMonths(Midnight(y, m, 1), -1);
            && (prev.Some? <==> m > 1 || y > MinYear)
            && (prev.Some? ==> prev.value == if m > 1 then Midnight(y, m - 1, 1) else Midnight(y - 1, 12, 1))
  {
    var total := y * 12 + (m - 1) - 1;
    if m > 1 {
      assert total / 12 == y && total % 12 == m - 2;
    } else {
      assert total == (y - 1) * 12 + 11;
      assert total / 12 == y - 1 && total % 12 == 11;
    }
  }

  /**
   * The days from the first of (y, m) to its last day at midnight, both
   * included, hold exactly the instants of that month except those after
   * midnight on its last day.
   */
  lemma MonthWindowMembers(y: int, m: int, d: DateTime)
    requires MinYear <= y <= MaxYear && 1 <= m <= 12
    ensures var last := DaysInMonth(y, m);
            (LessOrEqual(Midnight(y, m, 1), d) && LessOrEqual(d, Midnight(y, m, last)))
            <==> && d.year == y && d.month == m
                 && (d.day < last || d == Midnight(y, m, last))
  {
  }

  /** DateTime.AddDays(-1), written on the calendar fields. */
  function PreviousDay(d: DateTime): Option<DateTime> {
    if d.day > 1 then Some(d.(day := d.day - 1))
    else if d.month > 1 then Some(d.(month := d.month - 1, day := DaysInMonth(d.year, d.month - 1)))
    else if d.year > MinYear then Some(d.(year := d.year - 1, month := 12, day := 31))
    else None
  }

  /** The day before the first of a month is the last day of the month before. */
  lemma DayBeforeFirst(y: int, m: int)
    requires MinYear <= y <= MaxYear && 1 <= m <= 12
    ensures var before := PreviousDay(Midnight(y, m, 1));
            && (before.Some? <==> m > 1 || y > MinYear)
            && (before.Some? ==>
                  before.value == if m > 1 then Midnight(y, m - 1, DaysInMonth(y, m - 1))
                                  else Midnight(y - 1, 12, DaysInMonth(y - 1, 12)))
  {
  }

  /** PreviousDay is exactly one day of ticks earlier, and fails only on 0001-01-01. */
  lemma PreviousDayIsOneDayEarlier(d: DateTime)
    ensures PreviousDay(d).None? <==> d.year == MinYear && d.month == 1 && d.day == 1
    ensures PreviousDay(d).Some? ==> DayNumber(PreviousDay(d).value) == DayNumber(d) - 1
    ensures PreviousDay(d).Some? ==> Ticks(PreviousDay(d).value) == Ticks(d) - TicksPerDay
  {
    if d.day == 1 && d.month > 1 {
      DaysBeforeMonthStep(d.year, d.month - 1);
    } else if d.day == 1 && d.month == 1 && d.year > MinYear {
      DaysBeforeYearStep(d.year - 1);
    }
  }

  /** The day before is the previous weekday. */
  lemma PreviousDayWeekday(d: DateTime)
    requires PreviousDay(d).Some?
    ensures DayOfWeekIndex(DayOfWeekOf(PreviousDay(d).value)) == (DayOfWeekIndex(DayOfWeekOf(d)) + 6) % 7
  {
    PreviousDayIsOneDayEarlier(d);
    WeekdayOfDayBefore(PreviousDay(d).value, d);
  }

  lemma WeekdayOfDayBefore(p: DateTime, d: DateTime)
    requires DayNumber(p) == DayNumber(d) - 1
    ensures DayOfWeekIndex(DayOfWeekOf(p)) == (DayOfWeekIndex(DayOfWeekOf(d)) + 6) % 7
  {
    WeekIndexStep(DayNumber(p) + 1);
  }

  lemma WeekIndexStep(k: int)
    ensures k % 7 == ((k + 1) % 7 + 6) % 7
  {
    var q, r := k / 7, k % 7;
    assert k == 7 * q + r;
    if r == 6 {
      assert k + 1 == 7 * (q + 1);
    } else {
      assert k + 1 == 7 * q + (r + 1);
    }
  }

  /** Day 0 is a Monday. */
  lemma DayZeroIsMonday(d: DateTime)
    requires DayNumber(d) == 0
    ensures DayOfWeekOf(d) == Monday
  {
  }

  /** 0001-01-01 is day 0, and so a Monday. */
  lemma FirstDayIsMonday()
    ensures DayOfWeekOf(Timestamp(1, 1, 1, 0, 0, 0, 0)) == Monday
  {
    DayZeroIsMonday(Timestamp(1, 1, 1, 0, 0, 0, 0));
  }

  /** Two later dates fall on the weekdays the Gregorian calendar gives them. */
  lemma KnownWeekdays()
    ensures DayOfWeekOf(Timestamp(2024, 1, 15, 0, 0, 0, 0)) == Monday
    ensures DayOfWeekOf(Timestamp(2010, 12, 1, 8, 26, 0, 0)) == Wednesday
  {
    assert DaysBeforeYear(2024) == 738885;
    assert DayNumber(Timestamp(2024, 1, 15, 0, 0, 0, 0)) == 738899;
    assert DaysBeforeYear(2010) == 733772;
    assert DayNumber(Timestamp(2010, 12, 1, 8, 26, 0, 0)) == 734106;
  }
}
