/**
 * Calendar arithmetic in the proleptic Gregorian calendar that ECMAScript `Date` uses
 * (section 21.4.1 of ECMA-262), with every day exactly 24 hours long and no time zone.
 * Months are numbered 1..12 here (ECMAScript numbers them 0..11).
 */
module Calendar {

  const MsPerDay: int := 86400000

  predicate IsLeapYear(y: int) {
    (y % 4 == 0 && y % 100 != 0) || y % 400 == 0
  }

  function DaysInYear(y: int): int {
    if IsLeapYear(y) then 366 else 365
  }

  function DaysInMonth(y: int, m: int): int
    requires 1 <= m <= 12
  {
    if m == 2 then (if IsLeapYear(y) then 29 else 28)
    else if m == 4 || m == 6 || m == 9 || m == 11 then 30
    else 31
  }

  /** Number of days in the months of year `y` that come before month `m`. */
  function DaysBeforeMonth(y: int, m: int): int
    requires 1 <= m <= 12
  {
    [0, 31, 59, 90, 120, 151, 181, 212, 243, 273, 304, 334][m - 1]
      + (if m > 2 && IsLeapYear(y) then 1 else 0)
  }

  datatype Date = Date(year: int, month: int, day: int)

  predicate ValidDate(d: Date) {
    1 <= d.month <= 12 && 1 <= d.day <= DaysInMonth(d.year, d.month)
  }

  /** The 1-based number of a date within its own year. */
  function DayOfYear(d: Date): (n: int)
    requires ValidDate(d)
    ensures 1 <= n <= DaysInYear(d.year) <= 366
  {
    DaysBeforeMonth(d.year, d.month) + d.day
  }

  /** The day numbers every year starts and ends on, and the ones around leap day. */
  lemma DayOfYearLandmarks(y: int)
    ensures DayOfYear(Date(y, 1, 1)) == 1
    ensures DayOfYear(Date(y, 12, 31)) == DaysInYear(y)
    ensures !IsLeapYear(y) ==> DayOfYear(Date(y, 12, 31)) == 365 && DayOfYear(Date(y, 2, 28)) == 59
    ensures IsLeapYear(y) ==> DayOfYear(Date(y, 12, 31)) == 366 && DayOfYear(Date(y, 2, 29)) == 60
  {
  }

  /** The month that day number `n` of year `y` falls in, searching down from month `m`. */
  function MonthOfDay(y: int, n: int, m: int): (r: int)
    requires 1 <= m <= 12 && 1 <= n <= DaysBeforeMonth(y, m) + DaysInMonth(y, m)
    ensures 1 <= r <= m
    ensures DaysBeforeMonth(y, r) < n <= DaysBeforeMonth(y, r) + DaysInMonth(y, r)
  {
    if m == 1 || DaysBeforeMonth(y, m) < n then m else MonthOfDay(y, n, m - 1)
  }

  /** The date whose day number in year `y` is `n`: the inverse of DayOfYear. */
  function DateOfDayOfYear(y: int, n: int): (d: Date)
    requires 1 <= n <= DaysInYear(y)
    ensures ValidDate(d) && d.year == y && DayOfYear(d) == n
  {
    var m := MonthOfDay(y, n, 12);
    Date(y, m, n - DaysBeforeMonth(y, m))
  }

  /** DayOfYear numbers the dates of a year one-to-one. */
  lemma DayOfYearInjective(d: Date, e: Date)
    requires ValidDate(d) && ValidDate(e) && d.year == e.year
    requires DayOfYear(d) == DayOfYear(e)
    ensures d == e
  {
  }

  /** Day numbers and dates of a year correspond both ways. */
  lemma DateOfDayOfYearRoundTrip(d: Date)
    requires ValidDate(d)
    ensures DateOfDayOfYear(d.year, DayOfYear(d)) == d
  {
    DayOfYearInjective(DateOfDayOfYear(d.year, DayOfYear(d)), d);
  }

  /**
   * The date one day later, normalised the way `setDate(getDate() + 1)` normalises an
   * overflowing day of the month.
   */
  function NextDay(d: Date): (r: Date)
    requires ValidDate(d)
    ensures ValidDate(r)
  {
    if d.day < DaysInMonth(d.year, d.month) then Date(d.year, d.month, d.day + 1)
    else if d.month < 12 then Date(d.year, d.month + 1, 1)
    else Date(d.year + 1, 1, 1)
  }

  /** The next day is the following day number of the same year, or January 1 of the next. */
  lemma NextDayOfYear(d: Date)
    requires ValidDate(d)
    ensures DayOfYear(d) < DaysInYear(d.year) ==>
      NextDay(d).year == d.year && DayOfYear(NextDay(d)) == DayOfYear(d) + 1
    ensures DayOfYear(d) == DaysInYear(d.year) ==> NextDay(d) == Date(d.year + 1, 1, 1)
  {
  }

  /** Number of days from 0001-01-01 to January 1 of year `y` (negative before year 1). */
  function DaysBeforeYear(y: int): int {
    var p := y - 1;
    365 * p + p / 4 - p / 100 + p / 400
  }

  lemma {:induction false} DaysBeforeYearStep(y: int)
    ensures DaysBeforeYear(y + 1) == DaysBeforeYear(y) + DaysInYear(y)
  {
    var p := y - 1;
    assert y / 4 == p / 4 + (if y % 4 == 0 then 1 else 0);
    assert y / 100 == p / 100 + (if y % 100 == 0 then 1 else 0);
    assert y / 400 == p / 400 + (if y % 400 == 0 then 1 else 0);
  }

  /** A serial day number: consecutive dates get consecutive numbers. */
  function AbsoluteDay(d: Date): int
    requires ValidDate(d)
  {
    DaysBeforeYear(d.year) + DayOfYear(d) - 1
  }

  lemma AbsoluteDayOfNextDay(d: Date)
    requires ValidDate(d)
    ensures AbsoluteDay(NextDay(d)) == AbsoluteDay(d) + 1
  {
    if d.month == 12 && d.day == 31 {
      DaysBeforeYearStep(d.year);
    }
  }

  datatype DateTime = DateTime(date: Date, hour: int, minute: int, second: int, millisecond: int)

  predicate ValidDateTime(t: DateTime) {
    ValidDate(t.date) && 0 <= t.hour < 24 && 0 <= t.minute < 60
    && 0 <= t.second < 60 && 0 <= t.millisecond < 1000
  }

  /** Milliseconds elapsed since the start of the day. */
  function MsOfDay(t: DateTime): (ms: int)
    requires ValidDateTime(t)
    ensures 0 <= ms < MsPerDay
  {
    ((t.hour * 60 + t.minute) * 60 + t.second) * 1000 + t.millisecond
  }

  /** Local midnight at the start of a date: `setHours(0, 0, 0, 0)`. */
  function StartOfDay(d: Date): DateTime {
    DateTime(d, 0, 0, 0, 0)
  }

  /**
   * The time value of a moment, as `getTime()` gives it up to a fixed offset that cancels in
   * every difference the model takes.
   */
  function TimeValue(t: DateTime): int
    requires ValidDateTime(t)
  {
    AbsoluteDay(t.date) * MsPerDay + MsOfDay(t)
  }

  /** Two moments are on the same calendar day exactly when their dates are equal. */
  predicate SameCalendarDay(a: DateTime, b: DateTime) {
    a.date.day == b.date.day && a.date.month == b.date.month && a.date.year == b.date.year
  }
}
