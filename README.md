# react-calendar-hook in Dafny

A model of the core of `react-calendar-hook`, a React hook that backs a month
calendar widget:

- `createCalendar(d)` lays out the 42-cell (six weeks of seven days) grid
  around a reference date. It pushes the days of the reference month, unshifts
  the last days of the previous month until day 1 falls in its weekday column,
  and pushes days of the next month until the grid is full. Each cell carries
  its day of the month, its full date, whether it belongs to the reference
  month (`active`), whether it is the reference day (`selected`) and its
  weekday name.
- `useCalendar(currentDate)` keeps the selected full date as state. From it
  the hook derives the month (index, number, name), the weekday and day of the
  month, the year and the grid. It offers `selectDate`, `prevMonth` and
  `nextMonth` to replace the state.

The project has three modules:

- `Dates` (`dates.dfy`) holds the part of JavaScript's `Date` the core relies
  on:
  - proleptic Gregorian calendar dates, with months numbered from 0 as
    `getMonth` does;
  - month lengths with leap years;
  - a day ordinal (`DayNumber`) and `NextDay`;
  - the weekday (`getDay`, 0 = Sunday): `YearStartWeekday` gives the weekday
    of 1 January; `MonthStartWeekday` steps from it by month lengths to day 1
    of each month; `Weekday` steps day by day from day 1 of the month. The
    result is proved equal to the ordinal plus one, modulo 7;
  - `NewDate(year, month, day)`: `new Date(year, month, day)`, with an
    out-of-range month carried into the year and day 0 meaning the last day of
    the month before.
- `CalendarGrid` (`grid.dfy`) models `createCalendar`. The datatype
  `CalendarItem` is the source's `CalendarItem` record
  (src/createCalendar.ts:3-9). The method
  `CreateCalendar` keeps the source's three loops. Each loop is a method proved
  equal to a run of cells (`ActiveRun`, `LeadingRun`, `TrailingRun`), so the
  result equals the functional description `Grid(d)`. The lemmas about `Grid`
  state what the layout promises.
- `CalendarHook` (`hook.dfy`) models `useCalendar`. The class `Calendar`
  holds the `fullDate` state. Its methods are the three callbacks. `View`
  returns the values that a render of the hook returns.

For the repository's test date, 14 March 2020, the grid has no leading
cells. 1 March 2020 is a Sunday, so `firstDay` is 0 and the second loop
unshifts nothing. Cell 0 is 1 March, active and unselected, which is what
test/index.test.ts:38-43 expects. The full date that test expects for cell 0,
`2020-02-29T23:00:00.000Z`, is local midnight of 1 March in the test's UTC+1
time zone, so it agrees with `firstDay == 0` (`CalendarGrid.March2020`,
`CalendarGrid.SundayFirst`).

## Model

| member | source | states |
|---|---|---|
| CalendarGrid.CreateCalendar | src/createCalendar.ts:11-68 | the returned list has exactly 42 cells and equals `Grid(d)`: the leading days of the previous month, then every day of the reference month, then days of the next month |
| CalendarGrid.PushMonthDays | src/createCalendar.ts:27-37 | the first loop yields the cells for days 1 .. length of the reference month, in order, active, selected exactly on the reference day |
| CalendarGrid.UnshiftLastMonthDays | src/createCalendar.ts:39-50 | unshifting days `lastMonthLength - i` for i below `firstDay` puts the last `firstDay` days of the previous month in front, in calendar order, and leaves the existing cells after them |
| CalendarGrid.PushNextMonthDays | src/createCalendar.ts:52-65 | the third loop appends days 1, 2, ... of the next month, exactly as many as make 42 cells |
| CalendarGrid.FirstDay | src/createCalendar.ts:19 | `firstDay` is a weekday index 0..6 |
| CalendarGrid.MonthLength | src/createCalendar.ts:21-22 | day 0 of the next month gives the number of days in the reference month (with the year carried past December) |
| CalendarGrid.LastMonthLength | src/createCalendar.ts:23 | day 0 of the reference month gives the number of days in the month before (with the year carried before January) |
| CalendarGrid.TrailingCount | src/createCalendar.ts:53-54 | the loop that fills up to 42 cells always adds between 5 and 14 days of the next month |
| CalendarGrid.Grid | src/createCalendar.ts:27-65 | the grid, as the leading run, the month's run and the trailing run, always has 42 cells |
| CalendarGrid.MakeItem | src/createCalendar.ts:35 | every cell's name is `dayNames[fullDate.getDay()]` for the cell's own full date |
| CalendarGrid.ActiveItem | src/createCalendar.ts:29-36 | a cell of the first loop is active, holds day `date` of the reference month and is selected exactly when `date` is the reference day |
| CalendarGrid.LeadingItem | src/createCalendar.ts:41-49 | a cell of the second loop is inactive and unselected and holds day `date` of the previous month, December of the year before when the reference month is January |
| CalendarGrid.TrailingItem | src/createCalendar.ts:55-64 | a cell of the third loop is inactive and unselected and holds day `date` of the next month, January of the year after when the reference month is December |
| CalendarGrid.PrevMonthOf | src/createCalendar.ts:16 | `prevMonth` (month - 1) names December of the year before when the month is January, and the month before otherwise |
| CalendarGrid.NextMonthOf | src/createCalendar.ts:17 | `nextMonth` (month + 1) names January of the year after when the month is December, and the month after otherwise |
| Dates.Weekday | src/createCalendar.ts:19 | `getDay()` is a weekday index 0..6; `Dates.WeekdayOrdinal` and `Dates.NextDayWeekday` give its value |
| Dates.WeekdayOffset | src/createCalendar.ts:19 | a date k days after another falls k weekdays later, modulo 7 |
| CalendarGrid.ActiveRun | src/createCalendar.ts:28-37 | the run of the first loop after k steps has k cells |
| CalendarGrid.LeadingRun | src/createCalendar.ts:40-50 | the run of the second loop after i steps has i cells |
| CalendarGrid.TrailingRun | src/createCalendar.ts:53-65 | the run of the third loop after k steps has k cells |
| CalendarGrid.LeadingRunStep | src/createCalendar.ts:41-49 | unshifting day `lastMonthLength - i` in front of the run of i leading cells gives the run of i + 1 |
| CalendarGrid.ActiveRunAt | src/createCalendar.ts:28-37 | the j-th cell pushed by the first loop is day j + 1 |
| CalendarGrid.LeadingRunAt | src/createCalendar.ts:40-50 | the j-th of i unshifted cells is day `lastMonthLength - i + 1 + j` of the previous month |
| CalendarGrid.TrailingRunAt | src/createCalendar.ts:53-65 | the j-th cell pushed by the third loop is day j + 1 of the next month |
| CalendarGrid.GridAt | src/createCalendar.ts:27-65 | cell i is a previous-month, reference-month or next-month cell according to where i falls relative to `firstDay` and `length`; every cell is named after the weekday of its full date |
| CalendarGrid.LeadingCells | src/createCalendar.ts:40-50 | the first `firstDay` cells are inactive, unselected and hold days `lastMonthLength - firstDay + 1 ..` of the previous month |
| CalendarGrid.MonthCells | src/createCalendar.ts:28-37 | the cells from `firstDay` on are active, numbered 1, 2, ..., hold the reference month's dates and are selected exactly when their day is the reference day |
| CalendarGrid.TrailingCells | src/createCalendar.ts:53-65 | the cells after the month are inactive, unselected and hold days 1, 2, ... of the next month |
| CalendarGrid.GridActive | src/createCalendar.ts:33 | a cell is active if and only if it lies in the block of the reference month's days |
| CalendarGrid.SelectedCell | src/createCalendar.ts:34 | exactly one cell is selected, the one at `firstDay + currentDate - 1`; it is active and holds the reference date itself |
| CalendarGrid.ActiveItems | test/index.test.ts:34 | filtering on `active` keeps exactly the active cells: a cell is in the result if and only if it is in the list and active; never more cells than there were |
| CalendarGrid.ActiveItemsAppend | test/index.test.ts:34 | filtering distributes over concatenation |
| CalendarGrid.LeadingRunInactive | src/createCalendar.ts:44-46 | no cell unshifted by the second loop is active |
| CalendarGrid.ActiveRunActive | src/createCalendar.ts:33 | every cell pushed by the first loop is active |
| CalendarGrid.TrailingRunInactive | src/createCalendar.ts:59-61 | no cell pushed by the third loop is active |
| CalendarGrid.GridActiveItems | src/createCalendar.ts:27-65 | the active cells of the grid are exactly the reference month's days in order, as many as the month has days |
| CalendarGrid.PrevMonthEnd | src/createCalendar.ts:21-23 | the day after the last day of the previous month is day 1 of the reference month |
| CalendarGrid.MonthEnd | src/createCalendar.ts:21-22 | the day after the reference month's last day is day 1 of the next month |
| CalendarGrid.GridOrdinal | src/createCalendar.ts:27-65 | cell i holds the date `i - firstDay` days after day 1 of the reference month |
| CalendarGrid.GridContiguous | src/createCalendar.ts:27-65 | each cell's date is the day after the previous cell's, across month and year boundaries |
| CalendarGrid.GridWeekday | src/createCalendar.ts:19 | cell i falls on weekday `i % 7` and is named `dayNames[i % 7]`: columns are weekdays, Sunday first |
| CalendarGrid.SundayFirst | src/createCalendar.ts:19 | when the month starts on a Sunday there is no leading cell: cell 0 is day 1, active, named Sunday, selected only when the reference day is 1 |
| CalendarGrid.March2020Starts | test/index.test.ts:37-43 | 1 March 2020 falls on weekday 0 (Sunday) |
| CalendarGrid.March2020Saturday | test/index.test.ts:22-24 | 14 March 2020 falls on weekday 6 (Saturday) |
| CalendarGrid.March2020 | test/index.test.ts:32-44 | for 14 March 2020 the grid has 31 active cells and cell 0 is 1 March 2020, active, unselected, named Sunday |
| Dates.DaysInMonth | src/createCalendar.ts:21-23 | every month has 28 to 31 days |
| Dates.NextDay | src/createCalendar.ts:28-30 | the day after a valid date is a valid date |
| Dates.NextDayOrdinal | src/createCalendar.ts:28-30 | the day after a date has the next ordinal |
| Dates.NextDayWeekday | src/createCalendar.ts:35 | the day after a date falls on the next weekday, Saturday wrapping to Sunday |
| Dates.WeekdayOrdinal | src/createCalendar.ts:35 | the weekday of a date is its ordinal plus one, modulo 7 |
| Dates.WeekdayInMonth | src/createCalendar.ts:19 | day k of a month falls k - 1 weekdays after day 1 |
| Dates.MonthStartOrdinal | src/createCalendar.ts:19 | day 1 of a month falls on the weekday of its ordinal plus one |
| Dates.MonthStartInYear | src/createCalendar.ts:19 | day 1 of a month falls on the weekday of 1 January plus the days before the month |
| Dates.YearStartStep | src/createCalendar.ts:19 | 1 January of the next year falls on the weekday of this 1 January plus the days in this year |
| Dates.YearEndWeekday | src/createCalendar.ts:19 | 1 January follows the last day of December of the year before |
| Dates.YearStep | src/createCalendar.ts:21-22 | the days before the next year are the days before this year plus this year's length |
| Dates.MonthStep | src/createCalendar.ts:21-23 | the days before the next month are the days before this month plus its length; December ends the year |
| Dates.YearBounds | src/createCalendar.ts:28-30 | the ordinal of a date lies within its year's range |
| Dates.DayNumberInjective | src/createCalendar.ts:28-30 | two valid dates with the same ordinal are the same date |
| Dates.NormalizeMonth | src/createCalendar.ts:16-17 | a month index out of 0..11 is carried into the year: the month is in 0..11 and 12 * year + month is unchanged |
| Dates.NormalizeMonthCarry | src/useCalendar.ts:34-42 | month -1 is December of the year before, month 12 is January of the year after, months 0..11 stay |
| Dates.NewDate | src/createCalendar.ts:41-42 | `new Date(year, month, day)` for day 0 .. month length is a valid date |
| Dates.NewDateOrdinal | src/createCalendar.ts:21-23 | `new Date(year, month, day)` lies `day - 1` days after day 1 of the carried month, so day 0 is the last day of the month before |
| CalendarHook.MonthOf | src/useCalendar.ts:49-53 | `month.index` is `getMonth()` in 0..11, `month.number` is index + 1, `month.name` is `monthNames[index]` |
| CalendarHook.DayOf | src/useCalendar.ts:54-58 | `day.index` is the weekday (`getDay()`) of the full date, in 0..6, named `dayNames[index]`; `day.number` is the day of the month |
| CalendarHook.PrevMonthStart | src/useCalendar.ts:33-37 | `prevMonth` moves to day 1 of the month before, one month back counting across years |
| CalendarHook.NextMonthStart | src/useCalendar.ts:39-43 | `nextMonth` moves to day 1 of the month after, one month on counting across years |
| CalendarHook.PrevMonthFields | src/useCalendar.ts:33-37 | `prevMonth` lands on month `(m + 11) % 12`, and the year drops by one exactly when the month was January |
| CalendarHook.NextMonthFields | src/useCalendar.ts:39-43 | `nextMonth` lands on month `(m + 1) % 12`, and the year rises by one exactly when the month was December |
| CalendarHook.MonthIndexDetermines | src/useCalendar.ts:33-43 | two dates with the same month count are in the same month of the same year |
| CalendarHook.NextThenPrev | src/useCalendar.ts:33-43 | `nextMonth` then `prevMonth` returns to day 1 of the starting month |
| CalendarHook.PrevThenNext | src/useCalendar.ts:33-43 | `prevMonth` then `nextMonth` returns to day 1 of the starting month |
| CalendarHook.NextMonths | src/useCalendar.ts:39-43 | repeated `nextMonth` always yields a valid date |
| CalendarHook.PrevMonths | src/useCalendar.ts:33-37 | repeated `prevMonth` always yields a valid date |
| CalendarHook.NextMonthsIndex | src/useCalendar.ts:39-43 | k calls of `nextMonth` move exactly k months on, to day 1 |
| CalendarHook.PrevMonthsIndex | src/useCalendar.ts:33-37 | k calls of `prevMonth` move exactly k months back, to day 1 |
| CalendarHook.MarchNextMonths | test/index.test.ts:150-189 | ten calls of `nextMonth` from 14 March 2020 reach 1 January 2021, month number 1 |
| CalendarHook.MarchPrevMonths | test/index.test.ts:112-130 | three calls of `prevMonth` from 14 March 2020 reach 1 December 2019, month number 12 |
| CalendarHook.DayNameOfSelectedCell | src/useCalendar.ts:45-58 | the weekday name the hook reports is the name on the selected cell of the grid |
| CalendarHook.Calendar.constructor | src/useCalendar.ts:24-25 | the state starts at the given date |
| CalendarHook.Calendar.SelectDate | src/useCalendar.ts:31 | `selectDate` makes the given date the state |
| CalendarHook.Calendar.PrevMonth | src/useCalendar.ts:33-37 | `prevMonth` sets the state to day 1 of the month before |
| CalendarHook.Calendar.NextMonth | src/useCalendar.ts:39-43 | `nextMonth` sets the state to day 1 of the month after |
| CalendarHook.Calendar.View | src/useCalendar.ts:26-64 | the returned date, year, month and day are derived from the state, and `items` is `createCalendar(fullDate)`: 42 cells equal to `Grid(fullDate)` |
| CalendarHook.MarchView | test/index.test.ts:17-44 | for 14 March 2020 the hook reports year 2020, day index 6 number 14 "Saturday", month index 2 number 3 "March", 31 active cells, and cell 0 day 1, active, unselected, "Sunday" |
| CalendarHook.SelectDateView | test/index.test.ts:75-92 | after `selectDate(new Date(2021, 5, 3))` the hook reports month index 5, day 3, year 2021 |

## Left out

- React itself is not modelled: `useState` and `useMemo` are the `fullDate` field of `Calendar` and recomputation in `View`. Re-rendering and memoisation identity are not modelled.
- The default argument `new Date()` (the clock) is left out. The constructor takes the start date as a parameter.
- Time of day, time zones and daylight saving are not modelled. A `Date` here is a calendar date (year, month from 0, day), and `getDay` is the proleptic Gregorian weekday.
- JavaScript maps years 0 to 99 passed to `new Date(year, month, day)` to 1900 + year. That quirk is not modelled: every year is taken literally.
- `src/consts.ts` is not part of this model. `DayNames` and `MonthNames` are the English tables that the project's tests expect.
- Dates.NewDate: models `new Date(year, month, day)` only for month indices -12 .. 23 and days 0 .. the month's length. Those are the only arguments the core passes. Other arguments, which JavaScript also normalises, are outside its precondition.
- CalendarGrid.TrailingItem: requires the next-month day to be at most 28. The loop never goes past 14 (`CalendarGrid.TrailingCount`).
- `selectDate` accepts any JavaScript `Date`. The model requires a valid calendar date, since an invalid `Date` object has no calendar meaning here.
- `CalendarItem.fullDate` is a fresh JavaScript `Date` object in the source. Object identity and mutability of those objects are not modelled; a cell holds the date value.
- `prevMonth` and `nextMonth` in the source read the `month` and `year` captured when the hook last rendered (src/useCalendar.ts:33-43). Two calls on the same returned object with no render in between therefore move one month only. `Calendar.PrevMonth` and `Calendar.NextMonth` read the current field, so two calls move two months; the model assumes a render between calls.
- `selectDate` stores the caller's `Date` object by reference (src/useCalendar.ts:31), so a caller that later mutates that object changes the hook's state. The model stores a date value; that aliasing is not modelled.
- JavaScript `Date` values are limited to 100,000,000 days either side of 1 January 1970, roughly years -271821 to 275760. Near those limits `new Date(year, nextMonth, date)` (src/createCalendar.ts:56) and `nextMonth` (src/useCalendar.ts:42) give an invalid date. The model's years are unbounded integers, so that range limit is not modelled.
