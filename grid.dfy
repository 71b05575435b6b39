/** The six-week month grid that `createCalendar` (src/createCalendar.ts)
    builds around a reference date: the days of the reference month, preceded
    by the tail of the month before and followed by the head of the month
    after, 42 cells in all. */
module CalendarGrid {
  import opened Dates

  /** Weekday names, indexed by `getDay` (0 = Sunday). */
  const DayNames: seq<string> :=
    ["Sunday", "Monday", "Tuesday", "Wednesday", "Thursday", "Friday", "Saturday"]

  /** Number of cells in a grid: six rows of seven days. */
  const GridSize := 42

  /** One cell of the grid. `date` is the day of the month printed on the
      cell, `active` says it belongs to the reference month, `selected` that
      it is the reference day, `name` is its weekday name. */
  datatype CalendarItem = CalendarItem(
    date: int,
    fullDate: Date,
    active: bool,
    selected: bool,
    name: string)

  /** A cell as each of the three loops builds it: the name is looked up from
      the weekday of the cell's date. */
  function MakeItem(date: int, fullDate: Date, active: bool, selected: bool): (r: CalendarItem)
    requires Valid(fullDate)
    ensures r.name == DayNames[Weekday(fullDate)]
  {
    CalendarItem(date, fullDate, active, selected, DayNames[Weekday(fullDate)])
  }

  /** The month before and the month after the reference month, as
      (year, month) pairs with the year carried. */
  function PrevMonthOf(d: Date): (r: (int, int))
    requires Valid(d)
    ensures r == if d.month == 0 then (d.year - 1, 11) else (d.year, d.month - 1)
  {
    NormalizeMonthCarry(d.year, d.month - 1);
    NormalizeMonth(d.year, d.month - 1)
  }

  function NextMonthOf(d: Date): (r: (int, int))
    requires Valid(d)
    ensures r == if d.month == 11 then (d.year + 1, 0) else (d.year, d.month + 1)
  {
    NormalizeMonthCarry(d.year, d.month + 1);
    NormalizeMonth(d.year, d.month + 1)
  }

  /** `firstDay`: the weekday of day 1 of the reference month, which is also
      the number of leading cells. */
  function FirstDay(d: Date): (f: int)
    requires Valid(d)
    ensures 0 <= f < 7
  {
    Weekday(NewDate(d.year, d.month, 1))
  }

  /** `length`: day 0 of the next month is the last day of this one, so its
      day of the month is this month's length. */
  function MonthLength(d: Date): (n: int)
    requires Valid(d)
    ensures n == DaysInMonth(d.year, d.month)
  {
    NormalizeMonthCarry(d.year, d.month + 1);
    NormalizeMonthCarry(NextMonthOf(d).0, NextMonthOf(d).1 - 1);
    NewDate(d.year, d.month + 1, 0).day
  }

  /** `lastMonthLength`: day 0 of this month is the last day of the month
      before. */
  function LastMonthLength(d: Date): (n: int)
    requires Valid(d)
    ensures n == DaysInMonth(PrevMonthOf(d).0, PrevMonthOf(d).1)
  {
    NormalizeMonthCarry(d.year, d.month);
    NewDate(d.year, d.month, 0).day
  }

  /** The cell for day `date` of the reference month (the first loop of
      `createCalendar`): active, selected when it is the reference day. */
  function ActiveItem(d: Date, date: int): (c: CalendarItem)
    requires Valid(d) && 1 <= date <= MonthLength(d)
    ensures c.active && c.date == date && c.fullDate == Date(d.year, d.month, date)
    ensures c.selected <==> date == d.day
  {
    NormalizeMonthCarry(d.year, d.month);
    MakeItem(date, NewDate(d.year, d.month, date), true, date == d.day)
  }

  /** The cell for day `date` of the previous month (the second loop). */
  function LeadingItem(d: Date, date: int): (c: CalendarItem)
    requires Valid(d) && 1 <= date <= LastMonthLength(d)
    ensures !c.active && !c.selected && c.date == date
    ensures c.fullDate == Date(PrevMonthOf(d).0, PrevMonthOf(d).1, date)
  {
    MakeItem(date, NewDate(d.year, d.month - 1, date), false, false)
  }

  /** The cell for day `date` of the next month (the third loop); every month
      has at least 28 days. */
  function TrailingItem(d: Date, date: int): (c: CalendarItem)
    requires Valid(d) && 1 <= date <= 28
    ensures !c.active && !c.selected && c.date == date
    ensures c.fullDate == Date(NextMonthOf(d).0, NextMonthOf(d).1, date)
  {
    MakeItem(date, NewDate(d.year, d.month + 1, date), false, false)
  }

  /** The cells for days 1 .. k of the reference month. */
  function ActiveRun(d: Date, k: nat): (run: seq<CalendarItem>)
    requires Valid(d) && k <= MonthLength(d)
    ensures |run| == k
  {
    if k == 0 then [] else ActiveRun(d, k - 1) + [ActiveItem(d, k)]
  }

  /** The cells for the last `i` days of the previous month, in calendar
      order. */
  function LeadingRun(d: Date, i: nat): (run: seq<CalendarItem>)
    requires Valid(d) && i <= LastMonthLength(d)
    ensures |run| == i
  {
    if i == 0 then [] else [LeadingItem(d, LastMonthLength(d) - i + 1)] + LeadingRun(d, i - 1)
  }

  /** The cells for days 1 .. k of the next month. */
  function TrailingRun(d: Date, k: nat): (run: seq<CalendarItem>)
    requires Valid(d) && k <= 28
    ensures |run| == k
  {
    if k == 0 then [] else TrailingRun(d, k - 1) + [TrailingItem(d, k)]
  }

  /** Number of trailing cells: whatever the leading cells and the month
      leave of the 42. */
  function TrailingCount(d: Date): (t: int)
    requires Valid(d)
    ensures 5 <= t <= 14
  {
    GridSize - FirstDay(d) - MonthLength(d)
  }

  /** The grid for reference date `d`: `firstDay` leading cells, the days of
      the month, then trailing cells up to 42. */
  function Grid(d: Date): (g: seq<CalendarItem>)
    requires Valid(d)
    ensures |g| == GridSize
  {
    LeadingRun(d, FirstDay(d)) + ActiveRun(d, MonthLength(d)) + TrailingRun(d, TrailingCount(d))
  }

  /** `createCalendar(d)`: the days of the month are pushed, the leading days
      of the previous month are unshifted in front of them (latest first), and
      days of the next month are pushed until the grid holds 42 cells. */
  method CreateCalendar(d: Date) returns (items: seq<CalendarItem>)
    requires Valid(d)
    ensures |items| == GridSize
    ensures items == Grid(d)
  {
    items := PushMonthDays(d);
    items := UnshiftLastMonthDays(d, items);
    items := PushNextMonthDays(d, items);
  }

  /** The first loop: days 1 .. `length` of the reference month, pushed in
      order, the one equal to `currentDate` selected. */
  method PushMonthDays(d: Date) returns (items: seq<CalendarItem>)
    requires Valid(d)
    ensures items == ActiveRun(d, MonthLength(d))
  {
    var length := MonthLength(d);
    items := [];
    var date := 1;
    while date <= length
      invariant 1 <= date <= length + 1
      invariant items == ActiveRun(d, date - 1)
    {
      var item := ActiveItem(d, date);
      items := items + [item];
      date := date + 1;
    }
  }

  /** The second loop: for i = 0 .. firstDay - 1, day `lastMonthLength - i`
      of the previous month is unshifted, so the last `firstDay` days of that
      month end up in front, in calendar order. */
  method UnshiftLastMonthDays(d: Date, items0: seq<CalendarItem>) returns (items: seq<CalendarItem>)
    requires Valid(d)
    ensures items == LeadingRun(d, FirstDay(d)) + items0
  {
    var firstDay := FirstDay(d);
    var lastMonthLength := LastMonthLength(d);
    items := items0;
    var i := 0;
    while i < firstDay
      invariant 0 <= i <= firstDay
      invariant items == LeadingRun(d, i) + items0
    {
      var item := LeadingItem(d, lastMonthLength - i);
      LeadingRunStep(d, i, items0);
      items := [item] + items;
      i := i + 1;
    }
  }

  /** The third loop: days 1, 2, ... of the next month are pushed while the
      grid holds fewer than 42 cells. */
  method PushNextMonthDays(d: Date, items0: seq<CalendarItem>) returns (items: seq<CalendarItem>)
    requires Valid(d) && |items0| == FirstDay(d) + MonthLength(d)
    ensures items == items0 + TrailingRun(d, TrailingCount(d))
  {
    items := items0;
    var nextMonthDay := 1;
    while |items| < GridSize
      invariant 1 <= nextMonthDay <= TrailingCount(d) + 1
      invariant items == items0 + TrailingRun(d, nextMonthDay - 1)
    {
      var item := TrailingItem(d, nextMonthDay);
      AppendAssoc(items0, TrailingRun(d, nextMonthDay - 1), item);
      nextMonthDay := nextMonthDay + 1;
      items := items + [item];
    }
    assert nextMonthDay - 1 == TrailingCount(d);
  }

  /** Unshifting the day before the leading run extends the run by one. */
  lemma LeadingRunStep(d: Date, i: nat, rest: seq<CalendarItem>)
    requires Valid(d) && i < LastMonthLength(d)
    ensures [LeadingItem(d, LastMonthLength(d) - i)] + (LeadingRun(d, i) + rest) == LeadingRun(d, i + 1) + rest
  {
  }

  lemma AppendAssoc<T>(a: seq<T>, b: seq<T>, x: T)
    ensures (a + b) + [x] == a + (b + [x])
  {
  }

  /* ---------- what each cell of the grid holds ---------- */

  lemma {:induction false} ActiveRunAt(d: Date, k: nat, j: int)
    requires Valid(d) && k <= MonthLength(d) && 0 <= j < k
    ensures ActiveRun(d, k)[j] == ActiveItem(d, j + 1)
    decreases k
  {
    if j < k - 1 {
      ActiveRunAt(d, k - 1, j);
    }
  }

  lemma {:induction false} LeadingRunAt(d: Date, i: nat, j: int)
    requires Valid(d) && i <= LastMonthLength(d) && 0 <= j < i
    ensures LeadingRun(d, i)[j] == LeadingItem(d, LastMonthLength(d) - i + 1 + j)
    decreases i
  {
    if j > 0 {
      LeadingRunAt(d, i - 1, j - 1);
    }
  }

  lemma {:induction false} TrailingRunAt(d: Date, k: nat, j: int)
    requires Valid(d) && k <= 28 && 0 <= j < k
    ensures TrailingRun(d, k)[j] == TrailingItem(d, j + 1)
    decreases k
  {
    if j < k - 1 {
      TrailingRunAt(d, k - 1, j);
    }
  }

  /** Cell `i` of the grid: one of the last `firstDay` days of the previous
      month, day `i - firstDay + 1` of the reference month, or day
      `i - firstDay - length + 1` of the next month. */
  lemma GridAt(d: Date, i: int)
    requires Valid(d) && 0 <= i < GridSize
    ensures i < FirstDay(d) ==>
      Grid(d)[i] == LeadingItem(d, LastMonthLength(d) - FirstDay(d) + 1 + i)
    ensures FirstDay(d) <= i < FirstDay(d) + MonthLength(d) ==>
      Grid(d)[i] == ActiveItem(d, i - FirstDay(d) + 1)
    ensures FirstDay(d) + MonthLength(d) <= i ==>
      Grid(d)[i] == TrailingItem(d, i - FirstDay(d) - MonthLength(d) + 1)
    ensures Valid(Grid(d)[i].fullDate) && Grid(d)[i].name == DayNames[Weekday(Grid(d)[i].fullDate)]
  {
    var f, n := FirstDay(d), MonthLength(d);
    if i < f {
      LeadingRunAt(d, f, i);
    } else if i < f + n {
      ActiveRunAt(d, n, i - f);
    } else {
      TrailingRunAt(d, TrailingCount(d), i - f - n);
    }
  }

  /** The leading cells: inactive, unselected, the last `firstDay` days of the
      previous month in calendar order. */
  lemma LeadingCells(d: Date, i: int)
    requires Valid(d) && 0 <= i < FirstDay(d)
    ensures !Grid(d)[i].active && !Grid(d)[i].selected
    ensures Grid(d)[i].date == LastMonthLength(d) - FirstDay(d) + 1 + i
    ensures Grid(d)[i].fullDate == Date(PrevMonthOf(d).0, PrevMonthOf(d).1, Grid(d)[i].date)
  {
    GridAt(d, i);
  }

  /** The cells of the reference month: active, numbered 1, 2, ... from cell
      `firstDay` on, and selected exactly on the reference day. */
  lemma MonthCells(d: Date, i: int)
    requires Valid(d) && FirstDay(d) <= i < FirstDay(d) + MonthLength(d)
    ensures Grid(d)[i].active
    ensures Grid(d)[i].date == i - FirstDay(d) + 1
    ensures Grid(d)[i].fullDate == Date(d.year, d.month, Grid(d)[i].date)
    ensures Grid(d)[i].selected <==> Grid(d)[i].date == d.day
  {
    GridAt(d, i);
    NormalizeMonthCarry(d.year, d.month);
  }

  /** The trailing cells: inactive, unselected, days 1, 2, ... of the next
      month. */
  lemma TrailingCells(d: Date, i: int)
    requires Valid(d) && FirstDay(d) + MonthLength(d) <= i < GridSize
    ensures !Grid(d)[i].active && !Grid(d)[i].selected
    ensures Grid(d)[i].date == i - FirstDay(d) - MonthLength(d) + 1
    ensures Grid(d)[i].fullDate == Date(NextMonthOf(d).0, NextMonthOf(d).1, Grid(d)[i].date)
  {
    GridAt(d, i);
  }

  /** A cell is active exactly when it lies in the run of the reference
      month's days. */
  lemma GridActive(d: Date, i: int)
    requires Valid(d) && 0 <= i < GridSize
    ensures Grid(d)[i].active <==> FirstDay(d) <= i < FirstDay(d) + DaysInMonth(d.year, d.month)
  {
    GridAt(d, i);
    if i < FirstDay(d) {
      LeadingCells(d, i);
    } else if i < FirstDay(d) + MonthLength(d) {
      MonthCells(d, i);
    } else {
      TrailingCells(d, i);
    }
  }

  /** Exactly one cell is selected: the reference day, which is active. */
  lemma SelectedCell(d: Date)
    requires Valid(d)
    ensures forall i | 0 <= i < GridSize :: Grid(d)[i].selected <==> i == FirstDay(d) + d.day - 1
    ensures var c := Grid(d)[FirstDay(d) + d.day - 1];
      c.active && c.date == d.day && c.fullDate == d
  {
    GridAt(d, 0);
    forall i | 0 <= i < GridSize
      ensures Grid(d)[i].selected <==> i == FirstDay(d) + d.day - 1
    {
      GridAt(d, i);
      if i < FirstDay(d) {
        LeadingCells(d, i);
      } else if i < FirstDay(d) + MonthLength(d) {
        MonthCells(d, i);
      } else {
        TrailingCells(d, i);
      }
    }
    MonthCells(d, FirstDay(d) + d.day - 1);
  }

  /* ---------- the active cells ---------- */

  /** The active cells in order: `items.filter(({ active }) => active)`. */
  function ActiveItems(items: seq<CalendarItem>): (r: seq<CalendarItem>)
    ensures |r| <= |items|
    ensures forall j | 0 <= j < |r| :: r[j].active
    ensures forall x :: x in r <==> x in items && x.active
  {
    if items == [] then []
    else (if items[0].active then [items[0]] else []) + ActiveItems(items[1..])
  }

  lemma {:induction false} ActiveItemsAppend(a: seq<CalendarItem>, b: seq<CalendarItem>)
    ensures ActiveItems(a + b) == ActiveItems(a) + ActiveItems(b)
    decreases |a|
  {
    if a != [] {
      assert (a + b)[1..] == a[1..] + b;
      ActiveItemsAppend(a[1..], b);
    } else {
      assert a + b == b;
    }
  }

  lemma {:induction false} LeadingRunInactive(d: Date, i: nat)
    requires Valid(d) && i <= LastMonthLength(d)
    ensures ActiveItems(LeadingRun(d, i)) == []
    decreases i
  {
    if i > 0 {
      var run := LeadingRun(d, i);
      assert run[1..] == LeadingRun(d, i - 1);
      LeadingRunInactive(d, i - 1);
    }
  }

  lemma {:induction false} ActiveRunActive(d: Date, k: nat)
    requires Valid(d) && k <= MonthLength(d)
    ensures ActiveItems(ActiveRun(d, k)) == ActiveRun(d, k)
    decreases k
  {
    if k > 0 {
      var last := ActiveItem(d, k);
      ActiveItemsAppend(ActiveRun(d, k - 1), [last]);
      ActiveRunActive(d, k - 1);
      assert ActiveItems([last]) == [last] by {
        assert [last][1..] == [];
      }
    }
  }

  lemma {:induction false} TrailingRunInactive(d: Date, k: nat)
    requires Valid(d) && k <= 28
    ensures ActiveItems(TrailingRun(d, k)) == []
    decreases k
  {
    if k > 0 {
      var last := TrailingItem(d, k);
      ActiveItemsAppend(TrailingRun(d, k - 1), [last]);
      TrailingRunInactive(d, k - 1);
      assert ActiveItems([last]) == [] by {
        assert [last][1..] == [];
      }
    }
  }

  /** Filtering the grid on `active` leaves exactly the days of the
      reference month, in order: as many as the month has days. */
  lemma GridActiveItems(d: Date)
    requires Valid(d)
    ensures ActiveItems(Grid(d)) == ActiveRun(d, MonthLength(d))
    ensures |ActiveItems(Grid(d))| == DaysInMonth(d.year, d.month)
  {
    LeadingRunInactive(d, FirstDay(d));
    ActiveRunActive(d, MonthLength(d));
    TrailingRunInactive(d, TrailingCount(d));
    ActiveItemsBetween(LeadingRun(d, FirstDay(d)), ActiveRun(d, MonthLength(d)), TrailingRun(d, TrailingCount(d)));
  }

  /** Filtering a middle part flanked by inactive parts filters the middle. */
  lemma ActiveItemsBetween(a: seq<CalendarItem>, b: seq<CalendarItem>, c: seq<CalendarItem>)
    requires ActiveItems(a) == [] && ActiveItems(c) == []
    ensures ActiveItems(a + b + c) == ActiveItems(b)
  {
    ActiveItemsAppend(a + b, c);
    ActiveItemsAppend(a, b);
    assert [] + ActiveItems(b) + [] == ActiveItems(b);
  }

  /* ---------- consecutive days and weekdays ---------- */

  /** The last day of the previous month is followed by day 1 of the
      reference month. */
  lemma PrevMonthEnd(d: Date)
    requires Valid(d)
    ensures NextDay(Date(PrevMonthOf(d).0, PrevMonthOf(d).1, LastMonthLength(d))) == Date(d.year, d.month, 1)
  {
    NormalizeMonthCarry(d.year, d.month - 1);
  }

  /** The last day of the reference month is followed by day 1 of the next
      month. */
  lemma MonthEnd(d: Date)
    requires Valid(d)
    ensures NextDay(Date(d.year, d.month, MonthLength(d))) == Date(NextMonthOf(d).0, NextMonthOf(d).1, 1)
  {
    NormalizeMonthCarry(d.year, d.month + 1);
  }

  /** Cell `i` holds the date `i - firstDay` days after day 1 of the
      reference month. */
  lemma GridOrdinal(d: Date, i: int)
    requires Valid(d) && 0 <= i < GridSize
    ensures Valid(Grid(d)[i].fullDate)
         && DayNumber(Grid(d)[i].fullDate) == DayNumber(Date(d.year, d.month, 1)) - FirstDay(d) + i
  {
    GridAt(d, i);
    var f, n := FirstDay(d), MonthLength(d);
    if i < f {
      LeadingCells(d, i);
      var last := Date(PrevMonthOf(d).0, PrevMonthOf(d).1, LastMonthLength(d));
      PrevMonthEnd(d);
      NextDayOrdinal(last);
    } else if i < f + n {
      MonthCells(d, i);
    } else {
      TrailingCells(d, i);
      MonthEnd(d);
      NextDayOrdinal(Date(d.year, d.month, n));
    }
  }

  /** The cells run over consecutive days, across the month boundaries and
      the year boundary. */
  lemma GridContiguous(d: Date, i: int)
    requires Valid(d) && 0 <= i < GridSize - 1
    ensures Valid(Grid(d)[i].fullDate)
         && Grid(d)[i + 1].fullDate == NextDay(Grid(d)[i].fullDate)
  {
    GridOrdinal(d, i);
    GridOrdinal(d, i + 1);
    var c := Grid(d)[i].fullDate;
    NextDayOrdinal(c);
    DayNumberInjective(Grid(d)[i + 1].fullDate, NextDay(c));
  }

  /** Cell `i` falls on weekday `i % 7`, so the first column is Sunday and
      each cell is named after its column. */
  lemma GridWeekday(d: Date, i: int)
    requires Valid(d) && 0 <= i < GridSize
    ensures Valid(Grid(d)[i].fullDate) && Weekday(Grid(d)[i].fullDate) == i % 7
    ensures Grid(d)[i].name == DayNames[i % 7]
  {
    GridAt(d, i);
    GridOrdinal(d, i);
    var first := Date(d.year, d.month, 1);
    NormalizeMonthCarry(d.year, d.month);
    var f := FirstDay(d);
    assert f == Weekday(first);
    WeekdayOffset(first, Grid(d)[i].fullDate, i - f);
  }

  /** A month that starts on a Sunday has no leading cells: the grid opens
      with its day 1, active, named Sunday. */
  lemma SundayFirst(d: Date)
    requires Valid(d) && FirstDay(d) == 0
    ensures Grid(d)[0].active && Grid(d)[0].date == 1
    ensures Grid(d)[0].fullDate == Date(d.year, d.month, 1)
    ensures Grid(d)[0].selected <==> d.day == 1
    ensures Grid(d)[0].name == "Sunday"
  {
    MonthCells(d, 0);
    GridWeekday(d, 0);
  }

  /** 1 March 2020 was a Sunday. */
  lemma March2020Starts(d: Date)
    requires d.year == 2020 && d.month == 2 && d.day == 1
    ensures Weekday(d) == 0
  {
    assert DayNumber(d) == 737484;
    ModOf(DayNumber(d) + 1, 105355, 0);
    WeekdayOrdinal(d);
  }

  /** 14 March 2020 was a Saturday. */
  lemma March2020Saturday(d: Date)
    requires d.year == 2020 && d.month == 2 && d.day == 14
    ensures Weekday(d) == 6
  {
    assert DayNumber(d) == 737497;
    ModOf(DayNumber(d) + 1, 105356, 6);
    WeekdayOrdinal(d);
  }

  /** 14 March 2020: March 2020 starts on a Sunday, so the grid opens with
      1 March, active and unselected, and 31 cells are active. */
  lemma March2020(d: Date)
    requires d.year == 2020 && d.month == 2 && d.day == 14
    ensures FirstDay(d) == 0
    ensures |ActiveItems(Grid(d))| == 31
    ensures Grid(d)[0].date == 1 && Grid(d)[0].fullDate == Date(2020, 2, 1)
    ensures Grid(d)[0].active && !Grid(d)[0].selected
    ensures Grid(d)[0].name == "Sunday"
  {
    March2020Starts(Date(d.year, d.month, 1));
    NormalizeMonthCarry(d.year, d.month);
    assert FirstDay(d) == 0;
    GridActiveItems(d);
    SundayFirst(d);
  }
}
