/** Local calendar dates, standing in for the JavaScript `Date` fields the
    calendar code reads (`getFullYear`, `getMonth`, `getDate`, `getDay`) and
    for the `new Date(year, month, day)` constructor it calls.
    The calendar is the proleptic Gregorian one; time of day and time zones
    play no part. */
module Dates {

  /** A calendar date. `month` is 0-based (0 = January), as `getMonth` returns
      it; `day` is the day of the month, as `getDate` returns it. */
  datatype Date = Date(year: int, month: int, day: int)

  /** The Gregorian leap-year rule. */
  predicate IsLeapYear(y: int) {
    y % 4 == 0 && (y % 100 != 0 || y % 400 == 0)
  }

  /** Number of days in month `m` (0-based) of year `y`. */
  function DaysInMonth(y: int, m: int): (n: int)
    requires 0 <= m < 12
    ensures 28 <= n <= 31
  {
    if m == 1 then (if IsLeapYear(y) then 29 else 28)
    else if m == 3 || m == 5 || m == 8 || m == 10 then 30
    else 31
  }

  /** A date that exists: a month index 0..11 and a day inside that month.
      Every JavaScript `Date` the calendar code handles is one. */
  predicate Valid(d: Date) {
    0 <= d.month < 12 && 1 <= d.day <= DaysInMonth(d.year, d.month)
  }

  function DaysInYear(y: int): int {
    if IsLeapYear(y) then 366 else 365
  }

  /** Days from 1 January of year 1 to 1 January of year `y`
      (negative for earlier years). */
  function DaysBeforeYear(y: int): int {
    365 * (y - 1) + (y - 1) / 4 - (y - 1) / 100 + (y - 1) / 400
  }

  /** Days from 1 January of year `y` to day 1 of month `m`. */
  function DaysBeforeMonth(y: int, m: int): int
    requires 0 <= m < 12
  {
    var before := [0, 31, 59, 90, 120, 151, 181, 212, 243, 273, 304, 334];
    before[m] + (if m > 1 && IsLeapYear(y) then 1 else 0)
  }

  /** The day ordinal of a date: 0 for 1 January of year 1, one more for
      every following day. This is the reference against which the
      successor and the weekday are defined. */
  function DayNumber(d: Date): int
    requires Valid(d)
  {
    DaysBeforeYear(d.year) + DaysBeforeMonth(d.year, d.month) + d.day - 1
  }

  /** The weekday of 1 January of year `y` (0 = Sunday): 1 January of
      year 1, ordinal 0, was a Monday. */
  function YearStartWeekday(y: int): (w: int)
    ensures 0 <= w < 7
  {
    (DaysBeforeYear(y) + 1) % 7
  }

  /** The weekday of day 1 of month `m` of year `y`, counted one month length
      at a time from 1 January. */
  function MonthStartWeekday(y: int, m: int): (w: int)
    requires 0 <= m < 12
    ensures 0 <= w < 7
  {
    if m == 0 then YearStartWeekday(y)
    else (MonthStartWeekday(y, m - 1) + DaysInMonth(y, m - 1)) % 7
  }

  /** The weekday of a date as `getDay` returns it: 0 = Sunday .. 6 = Saturday,
      counted one day at a time from day 1 of its month. `WeekdayOrdinal`
      shows it agrees with the day ordinal. */
  function Weekday(d: Date): (w: int)
    requires Valid(d)
    ensures 0 <= w < 7
    decreases d.day
  {
    if d.day == 1 then MonthStartWeekday(d.year, d.month)
    else (Weekday(Date(d.year, d.month, d.day - 1)) + 1) % 7
  }

  lemma DivStep(a: int, k: int)
    requires k == 4 || k == 100 || k == 400
    ensures a / k - (a - 1) / k == if a % k == 0 then 1 else 0
  {
    var q, r := (a - 1) / k, (a - 1) % k;
    assert a == k * q + r + 1;
    if r + 1 < k {
      assert a / k == q && a % k == r + 1;
    } else {
      assert a == k * (q + 1);
      assert a / k == q + 1 && a % k == 0;
    }
  }

  /** One more year adds the length of that year. */
  lemma {:induction false} YearStep(y: int)
    ensures DaysBeforeYear(y + 1) == DaysBeforeYear(y) + DaysInYear(y)
  {
    DivStep(y, 4);
    DivStep(y, 100);
    DivStep(y, 400);
  }

  /** One more month adds the length of that month; the twelve months fill
      the year. */
  lemma MonthStep(y: int, m: int)
    requires 0 <= m < 12
    ensures m < 11 ==> DaysBeforeMonth(y, m + 1) == DaysBeforeMonth(y, m) + DaysInMonth(y, m)
    ensures m == 11 ==> DaysBeforeMonth(y, m) + DaysInMonth(y, m) == DaysInYear(y)
  {
  }

  /** The day after `d`: the next day of the month, or day 1 of the next
      month, or 1 January of the next year. */
  function NextDay(d: Date): (r: Date)
    requires Valid(d)
    ensures Valid(r)
  {
    if d.day < DaysInMonth(d.year, d.month) then
      Date(d.year, d.month, d.day + 1)
    else if d.month < 11 then
      Date(d.year, d.month + 1, 1)
    else
      Date(d.year + 1, 0, 1)
  }

  /** The day after a date has the next ordinal. */
  lemma NextDayOrdinal(d: Date)
    requires Valid(d)
    ensures DayNumber(NextDay(d)) == DayNumber(d) + 1
  {
    MonthStep(d.year, d.month);
    if d.day == DaysInMonth(d.year, d.month) && d.month == 11 {
      YearStep(d.year);
    }
  }

  /** Consecutive weekdays: the day after a Saturday is a Sunday. */
  lemma NextDayWeekday(d: Date)
    requires Valid(d)
    ensures Weekday(NextDay(d)) == (Weekday(d) + 1) % 7
  {
    var y, m := d.year, d.month;
    if d.day < DaysInMonth(y, m) {
      assert d == Date(y, m, d.day);
    } else {
      var len := DaysInMonth(y, m);
      var last := MonthStartWeekday(y, m) + len - 1;
      WeekdayInMonth(d);
      assert Weekday(d) == last % 7;
      ModAdd(last, 1);
      if m < 11 {
        assert NextDay(d) == Date(y, m + 1, 1);
      } else {
        assert NextDay(d) == Date(y + 1, 0, 1);
        YearEndWeekday(y);
      }
    }
  }

  /** 1 January follows 31 December of the year before. */
  lemma YearEndWeekday(y: int)
    ensures YearStartWeekday(y + 1) == (MonthStartWeekday(y, 11) + DaysInMonth(y, 11)) % 7
  {
    MonthStartInYear(y, 11);
    MonthStep(y, 11);
    ModAdd(YearStartWeekday(y) + DaysBeforeMonth(y, 11), DaysInMonth(y, 11));
    YearStartStep(y);
  }

  /** Within a month the weekday advances by one each day. */
  lemma {:induction false} WeekdayInMonth(d: Date)
    requires Valid(d)
    ensures Weekday(d) == (MonthStartWeekday(d.year, d.month) + d.day - 1) % 7
    decreases d.day
  {
    if d.day > 1 {
      var e := Date(d.year, d.month, d.day - 1);
      var before := MonthStartWeekday(d.year, d.month) + d.day - 2;
      WeekdayInMonth(e);
      assert Weekday(e) == before % 7;
      ModAdd(before, 1);
    }
  }

  /** Within a year the weekday of day 1 of a month advances by the days
      before that month. */
  lemma {:induction false} MonthStartInYear(y: int, m: int)
    requires 0 <= m < 12
    ensures MonthStartWeekday(y, m) == (YearStartWeekday(y) + DaysBeforeMonth(y, m)) % 7
  {
    if m > 0 {
      MonthStartInYear(y, m - 1);
      MonthStep(y, m - 1);
      ModAdd(YearStartWeekday(y) + DaysBeforeMonth(y, m - 1), DaysInMonth(y, m - 1));
    }
  }

  /** The weekday of 1 January advances by the length of the year before. */
  lemma YearStartStep(y: int)
    ensures YearStartWeekday(y + 1) == (YearStartWeekday(y) + DaysInYear(y)) % 7
  {
    YearStep(y);
    ModAdd(DaysBeforeYear(y) + 1, DaysInYear(y));
  }

  /** Adding to a weekday and reducing agrees with reducing once at the end. */
  lemma ModAdd(a: int, b: int)
    ensures (a % 7 + b) % 7 == (a + b) % 7
  {
    var q := a / 7;
    assert a + b == 7 * q + (a % 7 + b);
  }

  /** The remainder of a number written as a multiple of seven plus `r`. */
  lemma ModOf(n: int, q: int, r: int)
    requires n == 7 * q + r && 0 <= r < 7
    ensures n % 7 == r
  {
  }

  /** Day 1 of each month falls on the weekday of its ordinal plus one. */
  lemma {:induction false} MonthStartOrdinal(y: int, m: int)
    requires 0 <= m < 12
    ensures MonthStartWeekday(y, m) == (DaysBeforeYear(y) + DaysBeforeMonth(y, m) + 1) % 7
  {
    if m > 0 {
      MonthStartOrdinal(y, m - 1);
      MonthStep(y, m - 1);
      ModAdd(DaysBeforeYear(y) + DaysBeforeMonth(y, m - 1) + 1, DaysInMonth(y, m - 1));
    }
  }

  /** The day-by-day weekday is the day ordinal plus one (1 January of year 1
      being a Monday), reduced modulo 7. */
  lemma {:induction false} WeekdayOrdinal(d: Date)
    requires Valid(d)
    ensures Weekday(d) == (DayNumber(d) + 1) % 7
    decreases d.day
  {
    if d.day == 1 {
      MonthStartOrdinal(d.year, d.month);
    } else {
      var e := Date(d.year, d.month, d.day - 1);
      WeekdayOrdinal(e);
      ModAdd(DayNumber(e) + 1, 1);
    }
  }

  /** A date `k` days after another falls `k` weekdays later. */
  lemma WeekdayOffset(a: Date, b: Date, k: int)
    requires Valid(a) && Valid(b) && DayNumber(b) == DayNumber(a) + k
    ensures Weekday(b) == (Weekday(a) + k) % 7
  {
    WeekdayOrdinal(a);
    WeekdayOrdinal(b);
    ModAdd(DayNumber(a) + 1, k);
  }

  /** Every date of year `y` lies between the first days of years `y` and `y + 1`. */
  lemma YearBounds(d: Date)
    requires Valid(d)
    ensures DaysBeforeYear(d.year) <= DayNumber(d) < DaysBeforeYear(d.year + 1)
  {
    YearStep(d.year);
    if d.month < 11 {
      MonthStep(d.year, 11);
      MonthBefore(d.year, d.month, 11);
    } else {
      MonthStep(d.year, 11);
    }
  }

  lemma {:induction false} MonthBefore(y: int, m: int, m': int)
    requires 0 <= m < m' < 12
    ensures DaysBeforeMonth(y, m) + DaysInMonth(y, m) <= DaysBeforeMonth(y, m')
    decreases m' - m
  {
    MonthStep(y, m);
    if m + 1 < m' {
      MonthBefore(y, m + 1, m');
    }
  }

  lemma {:induction false} YearsIncrease(y: int, y': int)
    requires y < y'
    ensures DaysBeforeYear(y + 1) <= DaysBeforeYear(y')
    decreases y' - y
  {
    if y + 1 < y' {
      YearStep(y + 1);
      YearsIncrease(y + 1, y');
    }
  }

  /** The day ordinal names each date exactly once, so a date is determined
      by its ordinal. */
  lemma DayNumberInjective(a: Date, b: Date)
    requires Valid(a) && Valid(b)
    requires DayNumber(a) == DayNumber(b)
    ensures a == b
  {
    YearBounds(a);
    YearBounds(b);
    if a.year < b.year {
      YearsIncrease(a.year, b.year);
      assert false;
    } else if b.year < a.year {
      YearsIncrease(b.year, a.year);
      assert false;
    }
    if a.month < b.month {
      MonthBefore(a.year, a.month, b.month);
      assert false;
    } else if b.month < a.month {
      MonthBefore(a.year, b.month, a.month);
      assert false;
    }
  }

  /** The month carry of the `Date` constructor: month index `m`, which may
      lie a year outside 0..11, of year `y` names month `r.1` of year `r.0`. */
  function NormalizeMonth(y: int, m: int): (r: (int, int))
    requires -12 <= m < 24
    ensures 0 <= r.1 < 12
    ensures 12 * r.0 + r.1 == 12 * y + m
  {
    if m < 0 then (y - 1, m + 12)
    else if m < 12 then (y, m)
    else (y + 1, m - 12)
  }

  /** `new Date(y, m, day)` for a day of month 0 up to the length of the
      (normalised) month: day `day` counts from day 1 of that month, so
      day 0 is the last day of the month before. */
  function NewDate(y: int, m: int, day: int): (r: Date)
    requires -12 <= m < 24
    requires 0 <= day <= DaysInMonth(NormalizeMonth(y, m).0, NormalizeMonth(y, m).1)
    ensures Valid(r)
  {
    var (ny, nm) := NormalizeMonth(y, m);
    if day >= 1 then
      Date(ny, nm, day)
    else
      var (py, pm) := NormalizeMonth(ny, nm - 1);
      Date(py, pm, DaysInMonth(py, pm))
  }

  /** `new Date(y, m, day)` is the date `day - 1` days after day 1 of the
      normalised month: day 0 is the day before day 1. */
  lemma NewDateOrdinal(y: int, m: int, day: int)
    requires -12 <= m < 24
    requires 0 <= day <= DaysInMonth(NormalizeMonth(y, m).0, NormalizeMonth(y, m).1)
    ensures DayNumber(NewDate(y, m, day))
         == DayNumber(Date(NormalizeMonth(y, m).0, NormalizeMonth(y, m).1, 1)) + day - 1
  {
    if day == 0 {
      var last := NewDate(y, m, day);
      NextDayOrdinal(last);
      assert NextDay(last) == Date(NormalizeMonth(y, m).0, NormalizeMonth(y, m).1, 1);
    }
  }

  /** Month indices -1 and 12 roll over into the neighbouring year; indices
      0..11 stay as they are. */
  lemma NormalizeMonthCarry(y: int, m: int)
    requires -1 <= m <= 12
    ensures 0 <= m < 12 ==> NormalizeMonth(y, m) == (y, m)
    ensures m == -1 ==> NormalizeMonth(y, m) == (y - 1, 11)
    ensures m == 12 ==> NormalizeMonth(y, m) == (y + 1, 0)
  {
  }
}
