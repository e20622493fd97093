/** The month metadata the calendar example derives from the current local
    date: the weekday of the month's first day and the number of days in
    the month. Dates are proleptic Gregorian; a local date-time is its date
    plus a UTC offset supplied by the time zone, and the time of day, which
    both derived date-times share, cancels out. */
module CalendarMonth {
  import Calendar

  datatype Date = Date(year: nat, month: nat, day: nat)

  predicate IsLeapYear(y: int) {
    (y % 4 == 0 && y % 100 != 0) || y % 400 == 0
  }

  function MonthLength(y: int, m: nat): (days: nat)
    requires 1 <= m <= 12
    ensures 28 <= days <= 31
  {
    if m == 2 then (if IsLeapYear(y) then 29 else 28)
    else if m == 4 || m == 6 || m == 9 || m == 11 then 30
    else 31
  }

  predicate ValidDate(d: Date) {
    d.year >= 1 && 1 <= d.month <= 12 && 1 <= d.day <= MonthLength(d.year, d.month)
  }

  /** Days from January 1st to the first of month `m`. */
  function DaysBeforeMonth(y: int, m: nat): nat
    requires 1 <= m <= 12
  {
    if m == 1 then 0 else DaysBeforeMonth(y, m - 1) + MonthLength(y, m - 1)
  }

  /** December starts 334 days into a common year and 335 into a leap year. */
  lemma DaysBeforeDecember(y: int)
    ensures DaysBeforeMonth(y, 12) == if IsLeapYear(y) then 335 else 334
  {
    var leap := if IsLeapYear(y) then 1 else 0;
    assert DaysBeforeMonth(y, 2) == 31;
    assert DaysBeforeMonth(y, 3) == 59 + leap;
    assert DaysBeforeMonth(y, 4) == 90 + leap;
    assert DaysBeforeMonth(y, 5) == 120 + leap;
    assert DaysBeforeMonth(y, 6) == 151 + leap;
    assert DaysBeforeMonth(y, 7) == 181 + leap;
    assert DaysBeforeMonth(y, 8) == 212 + leap;
    assert DaysBeforeMonth(y, 9) == 243 + leap;
    assert DaysBeforeMonth(y, 10) == 273 + leap;
    assert DaysBeforeMonth(y, 11) == 304 + leap;
  }

  /** Days from 0001-01-01 to the start of year `y`. */
  function DaysBeforeYear(y: nat): int
    requires y >= 1
  {
    var past := y - 1;
    365 * past + past / 4 - past / 100 + past / 400
  }

  /** Days from 0001-01-01 to `d`. */
  function DayIndex(d: Date): int
    requires ValidDate(d)
  {
    DaysBeforeYear(d.year) + DaysBeforeMonth(d.year, d.month) + d.day - 1
  }

  /** A year has 365 days, 366 in a leap year. */
  lemma YearLength(y: nat)
    requires y >= 1
    ensures DaysBeforeYear(y + 1) - DaysBeforeYear(y) == if IsLeapYear(y) then 366 else 365
  {
    var p := y - 1;
    assert p / 4 + (if y % 4 == 0 then 1 else 0) == y / 4;
    assert p / 100 + (if y % 100 == 0 then 1 else 0) == y / 100;
    assert p / 400 + (if y % 400 == 0 then 1 else 0) == y / 400;
  }

  /** `num_days_from_sunday` of the weekday of `d` (0001-01-01 was a Monday). */
  function WeekdayFromSunday(d: Date): (w: nat)
    requires ValidDate(d)
    ensures w < 7
  {
    (DayIndex(d) + 1) % 7
  }

  /** The calendar date after `d`: the next day of the month, the first of
      the next month after a month's last day, January 1st after December
      31st. */
  function NextDate(d: Date): (n: Date)
    requires ValidDate(d)
    ensures ValidDate(n)
    ensures n.year == d.year || (n.year == d.year + 1 && d.month == 12 && d.day == 31 && n.month == 1 && n.day == 1)
  {
    if d.day < MonthLength(d.year, d.month) then Date(d.year, d.month, d.day + 1)
    else if d.month < 12 then Date(d.year, d.month + 1, 1)
    else Date(d.year + 1, 1, 1)
  }

  /** Consecutive dates have consecutive day indices, across month and year
      ends alike. */
  lemma NextDateIsNextDay(d: Date)
    requires ValidDate(d)
    ensures DayIndex(NextDate(d)) == DayIndex(d) + 1
  {
    if d.day == MonthLength(d.year, d.month) && d.month == 12 {
      YearLength(d.year);
      DaysBeforeDecember(d.year);
    }
  }

  /** The weekday moves on by one, Saturday (6) wrapping to Sunday (0),
      from every date to the next. With `FirstOfOctober2026IsThursday` as an
      anchor this fixes the weekday of every date. */
  lemma WeekdayAdvances(d: Date)
    requires ValidDate(d)
    ensures WeekdayFromSunday(NextDate(d)) == (WeekdayFromSunday(d) + 1) % 7
  {
    NextDateIsNextDay(d);
    WeekdayOfLaterDate(d, NextDate(d));
  }

  /** Dates `k` days apart are `k` weekdays apart, modulo 7. */
  lemma WeekdayOfLaterDate(d: Date, e: Date)
    requires ValidDate(d) && ValidDate(e)
    ensures WeekdayFromSunday(e) == (WeekdayFromSunday(d) + (DayIndex(e) - DayIndex(d))) % 7
  {
    ModShift(DayIndex(d) + 1, DayIndex(e) - DayIndex(d));
  }

  /** Adding `k` commutes with reducing modulo 7. */
  lemma ModShift(x: int, k: int)
    ensures (x + k) % 7 == (x % 7 + k) % 7
  {
    assert x + k == 7 * (x / 7) + (x % 7 + k);
  }

  /** `first_day`: the weekday of the first of the month. */
  function FirstDay(now: Date): (w: nat)
    requires ValidDate(now)
    ensures w < 7
    ensures w == (WeekdayFromSunday(now) - (now.day - 1)) % 7
  {
    var first := Date(now.year, now.month, 1);
    DayIndexInMonth(now, now.day);
    WeekdayOfLaterDate(first, now);
    ModShift(WeekdayFromSunday(first) + (now.day - 1), -(now.day - 1));
    WeekdayFromSunday(first)
  }

  /** `i64 as usize`: the value modulo 2^64. */
  function AsUsize(x: int): (r: Calendar.Usize)
    ensures (x - r) % 0x1_0000_0000_0000_0000 == 0
    ensures 0 <= x < 0x1_0000_0000_0000_0000 ==> r == x
    ensures -0x1_0000_0000_0000_0000 <= x < 0 ==> r == x + 0x1_0000_0000_0000_0000
  {
    x % 0x1_0000_0000_0000_0000
  }

  /** Rust's integer division, which truncates toward zero. */
  function TruncDiv(a: int, b: nat): (q: int)
    requires b >= 1
    ensures a >= 0 ==> 0 <= a - q * b < b
    ensures a < 0 ==> -(b as int) < a - q * b <= 0
  {
    if a >= 0 then a / b else -((-a) / b)
  }

  const SecondsPerDay: nat := 86400

  /** A UTC offset, in seconds, that a time zone can give. */
  predicate IsOffset(seconds: int) {
    -(SecondsPerDay as int) < seconds < SecondsPerDay
  }

  /** `days_in_month` as the example computes it: the first of the next
      month, or, in December where `with_month(13)` fails, `now` moved to
      January of the same year; minus the first of this month, as a
      duration between local date-times truncated to whole days, then cast
      to `usize`. `offsetAtFirst` and `offsetAtEnd` are the time zone's UTC
      offsets at the two date-times. */
  function DaysInMonthAsWritten(now: Date, offsetAtFirst: int, offsetAtEnd: int): (days: Calendar.Usize)
    requires ValidDate(now)
    requires IsOffset(offsetAtFirst) && IsOffset(offsetAtEnd)
    ensures now.month < 12 && offsetAtEnd == offsetAtFirst ==> days == MonthLength(now.year, now.month)
    ensures now.month < 12 && 0 < offsetAtEnd - offsetAtFirst < SecondsPerDay ==>
              days == MonthLength(now.year, now.month) - 1
    ensures now.month < 12 && -(SecondsPerDay as int) < offsetAtEnd - offsetAtFirst < 0 ==>
              days == MonthLength(now.year, now.month)
  {
    var first := Date(now.year, now.month, 1);
    var end := if now.month < 12 then Date(now.year, now.month + 1, 1) else Date(now.year, 1, now.day);
    var seconds := (DayIndex(end) - DayIndex(first)) * SecondsPerDay - (offsetAtEnd - offsetAtFirst);
    assert now.month < 12 ==> DayIndex(end) - DayIndex(first) == MonthLength(now.year, now.month);
    AsUsize(TruncDiv(seconds, SecondsPerDay))
  }

  /** In December the fallback date lies before the first of the month:
      the count is negative, wraps as a `usize`, and reads back negative
      through the cell closure's `as i32`, so no cell shows a day. */
  lemma DecemberShowsNoDay(now: Date, offsetAtFirst: int, offsetAtEnd: int, today: Calendar.Usize,
                           isCurrentMonth: bool, i: int)
    requires ValidDate(now) && now.month == 12
    requires IsOffset(offsetAtFirst) && IsOffset(offsetAtEnd)
    requires 0 <= i < 42
    ensures Calendar.AsI32(DaysInMonthAsWritten(now, offsetAtFirst, offsetAtEnd)) < 0
    ensures !Calendar.DayCellAt(i, FirstDay(now), DaysInMonthAsWritten(now, offsetAtFirst, offsetAtEnd),
                                today, isCurrentMonth).isValidDay
  {
    var first := Date(now.year, 12, 1);
    var end := Date(now.year, 1, now.day);
    var days := DayIndex(end) - DayIndex(first);
    DaysBeforeDecember(now.year);
    assert -335 <= days <= -304;
    var seconds := days * SecondsPerDay - (offsetAtEnd - offsetAtFirst);
    var q := TruncDiv(seconds, SecondsPerDay);
    assert -337 <= q < 0;
    var wrapped := AsUsize(q);
    assert wrapped == q + 0x1_0000_0000_0000_0000;
    assert wrapped % 0x1_0000_0000 == q + 0x1_0000_0000;
  }

  /** March 2026 in a time zone that moves from UTC+1 to UTC+2 on March
      29th: the two date-times are 31 days less one hour apart, so the
      month is counted as 30 days and the 31st is never shown. */
  lemma MarchShortByDaylightSaving(day: nat, today: Calendar.Usize, isCurrentMonth: bool, i: int)
    requires 1 <= day <= 31
    requires 0 <= i < 42
    ensures DaysInMonthAsWritten(Date(2026, 3, day), 3600, 7200) == 30
    ensures var cell := Calendar.DayCellAt(i, FirstDay(Date(2026, 3, day)),
                                           DaysInMonthAsWritten(Date(2026, 3, day), 3600, 7200),
                                           today, isCurrentMonth);
      !(cell.isValidDay && cell.dayNumber == 31)
  {
  }

  /** The number of days in the month of `now`, counted between calendar
      dates: December runs to January 1st of the next year, and time-zone
      offsets play no part. */
  function DaysInMonth(now: Date): (days: Calendar.Usize)
    requires ValidDate(now)
    ensures days == MonthLength(now.year, now.month)
    ensures 28 <= days <= 31
  {
    var first := Date(now.year, now.month, 1);
    if now.month < 12 then
      DayIndex(Date(now.year, now.month + 1, 1)) - DayIndex(first)
    else
      YearLength(now.year);
      DaysBeforeDecember(now.year);
      DayIndex(Date(now.year + 1, 1, 1)) - DayIndex(first)
  }

  /** With the month counted between dates, every day of the month is
      shown in exactly one of the 42 cells. */
  lemma MonthShowsEveryDay(now: Date, today: Calendar.Usize, isCurrentMonth: bool, day: int)
    requires ValidDate(now)
    requires 1 <= day <= MonthLength(now.year, now.month)
    ensures var index := day + FirstDay(now) - 1;
      && 0 <= index < 42
      && Calendar.DayCellAt(index, FirstDay(now), DaysInMonth(now), today, isCurrentMonth).isValidDay
      && Calendar.DayCellAt(index, FirstDay(now), DaysInMonth(now), today, isCurrentMonth).dayNumber == day
      && forall i :: 0 <= i < 42 && i != index ==>
           var cell := Calendar.DayCellAt(i, FirstDay(now), DaysInMonth(now), today, isCurrentMonth);
           !(cell.isValidDay && cell.dayNumber == day)
  {
  }

  /** Day `day` of a month lies `day - 1` days after the first. */
  lemma DayIndexInMonth(now: Date, day: nat)
    requires ValidDate(now)
    requires 1 <= day <= MonthLength(now.year, now.month)
    ensures DayIndex(Date(now.year, now.month, day)) == DayIndex(Date(now.year, now.month, 1)) + day - 1
  {
  }

  /** The day shown in row `r`, column `c` of the month view (cell
      `7 * r + c`, whose day number is `7 * r + c - FirstDay(now) + 1`)
      falls on weekday `c` counted from Sunday, so the columns line up
      with the weekday header. */
  lemma DayFallsInItsWeekdayColumn(now: Date, r: nat, c: nat, day: nat)
    requires ValidDate(now)
    requires r < 6 && c < 7
    requires day + FirstDay(now) == 7 * r + c + 1
    requires 1 <= day <= MonthLength(now.year, now.month)
    ensures WeekdayFromSunday(Date(now.year, now.month, day)) == c
  {
    var x := DayIndex(Date(now.year, now.month, 1)) + 1;
    DayIndexInMonth(now, day);
    ShiftedWeekday(x, r, c, day);
  }

  /** Counting `day - 1` days on from a day whose weekday is `x % 7` lands
      on weekday `c` when `day + x % 7 == 7 * r + c + 1`. */
  lemma ShiftedWeekday(x: int, r: nat, c: nat, day: int)
    requires c < 7
    requires day + x % 7 == 7 * r + c + 1
    ensures (x + day - 1) % 7 == c
  {
    assert x + day - 1 == 7 * (x / 7 + r) + c;
  }

  /** The weekday computation agrees with the calendar: October 1st 2026 is
      a Thursday. */
  lemma FirstOfOctober2026IsThursday()
    ensures FirstDay(Date(2026, 10, 18)) == 4
  {
  }
}
