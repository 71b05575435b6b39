/** The `useCalendar` hook (src/useCalendar.ts): a piece of state holding the
    selected full date, the values derived from it (month, weekday, day of
    the month, year and the grid of `createCalendar`) and the three
    operations that replace it. */
module CalendarHook {
  import opened Dates
  import opened CalendarGrid

  /** Month names, indexed by `getMonth` (0 = January). */
  const MonthNames: seq<string> :=
    ["January", "February", "March", "April", "May", "June", "July",
     "August", "September", "October", "November", "December"]

  /** `month` of the hook's result: 0-based index, 1-based number, name. */
  datatype MonthInfo = MonthInfo(index: int, number: int, name: string)

  /** `day` of the hook's result: weekday index, day of the month, weekday
      name. */
  datatype DayInfo = DayInfo(index: int, number: int, name: string)

  /** The values the hook returns (its three callbacks are the methods of
      `Calendar`). */
  datatype CalendarView = CalendarView(
    date: Date,
    month: MonthInfo,
    day: DayInfo,
    year: int,
    items: seq<CalendarItem>)

  /** The month of `fullDate`, numbered from 1 and named. */
  function MonthOf(fullDate: Date): (m: MonthInfo)
    requires Valid(fullDate)
    ensures 0 <= m.index < 12 && m.number == m.index + 1 && 1 <= m.number <= 12
    ensures m.index == fullDate.month && m.name == MonthNames[m.index]
  {
    MonthInfo(fullDate.month, fullDate.month + 1, MonthNames[fullDate.month])
  }

  /** The weekday and day of the month of `fullDate`. */
  function DayOf(fullDate: Date): (r: DayInfo)
    requires Valid(fullDate)
    ensures r.index == Weekday(fullDate)
    ensures 0 <= r.index < 7 && r.name == DayNames[r.index]
    ensures r.number == fullDate.day && 1 <= r.number <= 31
  {
    var day := Weekday(fullDate);
    DayInfo(day, fullDate.day, DayNames[day])
  }

  /** Months counted from month 0 of year 0: consecutive months have
      consecutive indices, across year boundaries too. */
  function MonthIndex(d: Date): int {
    12 * d.year + d.month
  }

  /** Two dates with the same month index lie in the same month of the same
      year. */
  lemma MonthIndexDetermines(a: Date, b: Date)
    requires Valid(a) && Valid(b) && MonthIndex(a) == MonthIndex(b)
    ensures a.year == b.year && a.month == b.month
  {
  }

  /** `prevMonth`: day 1 of the month before, December of the year before
      when the month is January. */
  function PrevMonthStart(d: Date): (r: Date)
    requires Valid(d)
    ensures Valid(r) && r.day == 1
    ensures MonthIndex(r) == MonthIndex(d) - 1
  {
    var newMonth := if d.month - 1 < 0 then 11 else d.month - 1;
    var newYear := if newMonth == 11 then d.year - 1 else d.year;
    NormalizeMonthCarry(newYear, newMonth);
    NewDate(newYear, newMonth, 1)
  }

  /** `nextMonth`: day 1 of the month after, January of the year after when
      the month is December. */
  function NextMonthStart(d: Date): (r: Date)
    requires Valid(d)
    ensures Valid(r) && r.day == 1
    ensures MonthIndex(r) == MonthIndex(d) + 1
  {
    var newMonth := if d.month + 1 > 11 then 0 else d.month + 1;
    var newYear := if newMonth == 0 then d.year + 1 else d.year;
    NormalizeMonthCarry(newYear, newMonth);
    NewDate(newYear, newMonth, 1)
  }

  /** `prevMonth` lands on month `(m + 11) % 12`, a year back exactly when
      the month was January. */
  lemma PrevMonthFields(d: Date)
    requires Valid(d)
    ensures PrevMonthStart(d).month == (d.month + 11) % 12
    ensures PrevMonthStart(d).year == if d.month == 0 then d.year - 1 else d.year
  {
    var r := PrevMonthStart(d);
    if d.month == 0 {
      MonthIndexDetermines(r, Date(d.year - 1, 11, 1));
    } else {
      MonthIndexDetermines(r, Date(d.year, d.month - 1, 1));
    }
  }

  /** `nextMonth` lands on month `(m + 1) % 12`, a year on exactly when the
      month was December. */
  lemma NextMonthFields(d: Date)
    requires Valid(d)
    ensures NextMonthStart(d).month == (d.month + 1) % 12
    ensures NextMonthStart(d).year == if d.month == 11 then d.year + 1 else d.year
  {
    var r := NextMonthStart(d);
    if d.month == 11 {
      MonthIndexDetermines(r, Date(d.year + 1, 0, 1));
    } else {
      MonthIndexDetermines(r, Date(d.year, d.month + 1, 1));
    }
  }

  /** `nextMonth` then `prevMonth` comes back to day 1 of the month. */
  lemma NextThenPrev(d: Date)
    requires Valid(d)
    ensures PrevMonthStart(NextMonthStart(d)) == Date(d.year, d.month, 1)
  {
    MonthIndexDetermines(PrevMonthStart(NextMonthStart(d)), d);
  }

  /** `prevMonth` then `nextMonth` comes back to day 1 of the month. */
  lemma PrevThenNext(d: Date)
    requires Valid(d)
    ensures NextMonthStart(PrevMonthStart(d)) == Date(d.year, d.month, 1)
  {
    MonthIndexDetermines(NextMonthStart(PrevMonthStart(d)), d);
  }

  /** The date after `k` calls of `nextMonth`. */
  function NextMonths(d: Date, k: nat): (r: Date)
    requires Valid(d)
    ensures Valid(r)
  {
    if k == 0 then d else NextMonthStart(NextMonths(d, k - 1))
  }

  /** The date after `k` calls of `prevMonth`. */
  function PrevMonths(d: Date, k: nat): (r: Date)
    requires Valid(d)
    ensures Valid(r)
  {
    if k == 0 then d else PrevMonthStart(PrevMonths(d, k - 1))
  }

  /** `k` calls of `nextMonth` move `k` months forward, to day 1. */
  lemma {:induction false} NextMonthsIndex(d: Date, k: nat)
    requires Valid(d)
    ensures MonthIndex(NextMonths(d, k)) == MonthIndex(d) + k
    ensures k > 0 ==> NextMonths(d, k).day == 1
  {
    if k > 0 {
      NextMonthsIndex(d, k - 1);
    }
  }

  /** `k` calls of `prevMonth` move `k` months back, to day 1. */
  lemma {:induction false} PrevMonthsIndex(d: Date, k: nat)
    requires Valid(d)
    ensures MonthIndex(PrevMonths(d, k)) == MonthIndex(d) - k
    ensures k > 0 ==> PrevMonths(d, k).day == 1
  {
    if k > 0 {
      PrevMonthsIndex(d, k - 1);
    }
  }

  /** From 14 March 2020, ten calls of `nextMonth` reach January 2021. */
  lemma MarchNextMonths(d: Date)
    requires d.year == 2020 && d.month == 2 && d.day == 14
    ensures NextMonths(d, 10) == Date(2021, 0, 1)
    ensures MonthOf(NextMonths(d, 10)).number == 1
  {
    NextMonthsIndex(d, 10);
    MonthIndexDetermines(NextMonths(d, 10), Date(2021, 0, 1));
  }

  /** From 14 March 2020, three calls of `prevMonth` reach December 2019. */
  lemma MarchPrevMonths(d: Date)
    requires d.year == 2020 && d.month == 2 && d.day == 14
    ensures PrevMonths(d, 3) == Date(2019, 11, 1)
    ensures MonthOf(PrevMonths(d, 3)).number == 12
  {
    PrevMonthsIndex(d, 3);
    MonthIndexDetermines(PrevMonths(d, 3), Date(2019, 11, 1));
  }

  /** The day shown in the header is the name of the selected cell. */
  lemma DayNameOfSelectedCell(d: Date)
    requires Valid(d)
    ensures 0 <= FirstDay(d) + d.day - 1 < GridSize
    ensures Grid(d)[FirstDay(d) + d.day - 1].name == DayOf(d).name
  {
    SelectedCell(d);
    GridAt(d, FirstDay(d) + d.day - 1);
  }

  /** The hook's state: the selected full date. Every render derives the
      rest from it. */
  class Calendar {
    var fullDate: Date

    predicate Valid()
      reads this
    {
      Dates.Valid(fullDate)
    }

    /** `useCalendar(currentDate)`: the state starts at the given date. */
    constructor (currentDate: Date)
      requires Dates.Valid(currentDate)
      ensures Valid() && fullDate == currentDate
    {
      fullDate := currentDate;
    }

    /** `selectDate(dayDate)`: the state becomes the given date. */
    method SelectDate(dayDate: Date)
      requires Dates.Valid(dayDate)
      modifies this
      ensures Valid() && fullDate == dayDate
    {
      fullDate := dayDate;
    }

    /** `prevMonth()`: the state becomes day 1 of the month before. */
    method PrevMonth()
      requires Valid()
      modifies this
      ensures Valid() && fullDate == PrevMonthStart(old(fullDate))
    {
      fullDate := PrevMonthStart(fullDate);
    }

    /** `nextMonth()`: the state becomes day 1 of the month after. */
    method NextMonth()
      requires Valid()
      modifies this
      ensures Valid() && fullDate == NextMonthStart(old(fullDate))
    {
      fullDate := NextMonthStart(fullDate);
    }

    /** The values returned for the current state; the grid is
        `createCalendar(fullDate)`. */
    method View() returns (v: CalendarView)
      requires Valid()
      ensures v.date == fullDate && v.year == fullDate.year
      ensures v.month == MonthOf(fullDate) && v.day == DayOf(fullDate)
      ensures |v.items| == GridSize && v.items == Grid(fullDate)
    {
      var items := CreateCalendar(fullDate);
      v := CalendarView(fullDate, MonthOf(fullDate), DayOf(fullDate), fullDate.year, items);
    }
  }

  /** Rendering for 14 March 2020: year 2020, Saturday the 14th, March as
      month index 2 and number 3, 31 active cells. */
  method MarchView(d: Date) returns (v: CalendarView)
    requires d.year == 2020 && d.month == 2 && d.day == 14
    ensures v.year == 2020
    ensures v.day.index == 6 && v.day.number == 14 && v.day.name == "Saturday"
    ensures v.month.index == 2 && v.month.number == 3 && v.month.name == "March"
    ensures |ActiveItems(v.items)| == 31
    ensures v.items[0].date == 1 && v.items[0].active && !v.items[0].selected
    ensures v.items[0].name == "Sunday"
  {
    assert MonthNames[2] == "March";
    var calendar := new Calendar(d);
    v := calendar.View();
    March2020(d);
    March2020Saturday(d);
    assert v.day.index == 6;
    assert DayNames[6] == "Saturday";
    assert v.month.name == MonthNames[2];
  }

  /** `selectDate(new Date(2021, 5, 3))` after starting on 14 March 2020. */
  method SelectDateView() returns (v: CalendarView)
    ensures v.month.index == 5 && v.day.number == 3 && v.year == 2021
  {
    var calendar := new Calendar(Date(2020, 2, 14));
    calendar.SelectDate(Date(2021, 5, 3));
    v := calendar.View();
  }
}
