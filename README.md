# iced_grid, modelled in Dafny

iced_grid is a widget for the iced GUI library. It arranges any number of
child elements in a grid of equal-sized cells. A `Grid` holds a column
count, the items, horizontal and vertical spacing, padding and a width and
height policy. It is built with `Grid::new` (or `grid`, or `.grid(n)` on
an iterator) and refined with builder setters. Converting a `Grid` into an
`Element` yields a container. Each time the host offers that container a
new size, a responsive closure counts the items, works out the number of
rows and the size of one cell, and fills the rows. The cells are filled
row-major from a single iterator over the items. An empty placeholder of
the same size stands in wherever the items have run out.

The project models:

- `grid.dfy`, module `GridLayout` (src/grid.rs):
  - the configuration, as a datatype, with `New` and the builders as
    functions;
  - item counting, from an exact size hint or by a counting traversal;
  - the row count and the cell sizes;
  - placement, as a method with nested loops, proved equal to the
    specification function `Placement`;
  - one whole layout pass, as the method `From`, proved equal to the
    specification function `View`.

  Lemmas prove what the arrangement guarantees:
  - how many rows there are and what shape they have;
  - cells and gaps fill the content box exactly;
  - every item appears once and in source order;
  - placeholders appear only in the last row, and there are fewer of them
    than one row.
- `palette.dfy`, module `Palette` (examples/simple.rs): `bg_color`, the
  cell colour of the simple example. Lemmas state what each channel is and
  how the channels are packed.
- `calendar.dfy`, module `Calendar` (examples/calendar.rs): the closure
  that computes each of the 42 cells of the month view. It gives the day
  number, whether the day is shown, whether it is today, and the cell's
  text. Lemmas cover what the 42 cells show and what the seven-column grid
  makes of them.
- `calendar_month.dfy`, module `CalendarMonth` (examples/calendar.rs): how
  the example derives the first weekday and the length of the month from
  the current local date. It holds the two defects listed under Findings,
  with a corrected month length.

The resolved content size, the item source and the size hint are inputs.
`f32` values are modelled as `real`. `usize` counts are modelled as `nat`,
since `div_ceil` cannot overflow. The casts the calendar relies on
(`as i32`, `as usize`) are written out as wrap-around.

## Notes on the code

Three details of src/grid.rs that the model follows:

- Placement pulls from the iterator created before counting. The count
  itself traverses a second clone.
- The content size handed to the arrangement is the resolved size as it
  is. Padding is applied by the outer container, not subtracted by the
  arrangement.
- A zero column count is clamped to one. Negative counts cannot occur
  (`usize`).

## Model

| member | source | states |
|---|---|---|
| `GridLayout.New` | src/grid.rs:37-49 | the stored column count is the requested one, or 1 when 0 is requested; spacings 0, padding zero, width and height `Fill`, items kept |
| `GridLayout.WithHorizontalSpacing` | src/grid.rs:52-55 | sets the horizontal spacing and leaves every other field unchanged |
| `GridLayout.WithVerticalSpacing` | src/grid.rs:58-61 | sets the vertical spacing and leaves every other field unchanged |
| `GridLayout.WithSpacing` | src/grid.rs:64-67 | sets both spacings to the same value and leaves every other field unchanged |
| `GridLayout.WithPadding` | src/grid.rs:70-73 | sets the padding and leaves every other field unchanged |
| `GridLayout.WithWidth` | src/grid.rs:76-79 | sets the width policy and leaves every other field unchanged |
| `GridLayout.WithHeight` | src/grid.rs:82-85 | sets the height policy and leaves every other field unchanged |
| `GridLayout.NewZeroColumnsIsOneColumn` | src/grid.rs:39 | asking for 0 columns configures exactly the grid that asking for 1 does |
| `GridLayout.SpacingSettersCommute` | src/grid.rs:52-67 | the two spacing setters commute, and `spacing` equals applying both |
| `GridLayout.BuildersKeepValid` | src/grid.rs:39-85 | every builder preserves the invariant `columns >= 1` established by `new` |
| `GridLayout.ExactHintIsLength` | src/grid.rs:158-160 | a size hint whose bounds agree, and that the iterator honours, is the exact length |
| `GridLayout.Count` | src/grid.rs:161 | a full traversal counts exactly the items of the source |
| `GridLayout.ItemCount` | src/grid.rs:158-162 | the item count equals the source length, whether taken from an exact hint or from a count |
| `GridLayout.DivCeil` | src/grid.rs:167 | the quotient rounded up: the least multiple of the divisor that covers the items |
| `GridLayout.RowCount` | src/grid.rs:164-168 | zero rows iff zero items; `(rows - 1) * columns < items <= rows * columns` |
| `GridLayout.RowCountIsLeast` | src/grid.rs:164-168 | no smaller row count has room for all items |
| `GridLayout.RowCountIsCeiling` | src/grid.rs:164-168 | the row count equals `(items + columns - 1) / columns` |
| `GridLayout.CellSize` | src/grid.rs:174-178 | `count` cells plus `count - 1` gaps add up exactly to the total; the size is negative iff the gaps exceed the total (no clamping) |
| `GridLayout.CellSizeUnique` | src/grid.rs:174-178 | the cell size is the only size with that property |
| `GridLayout.CellAt` | src/grid.rs:182-190 | the cell at position `k` has the cell size and holds item `k` iff `k` is below the item count, otherwise it is a placeholder |
| `GridLayout.RowAt` | src/grid.rs:181-191 | row `r` has `columns` cells, the cell at column `j` being the one at position `r * columns + j` |
| `GridLayout.Placement` | src/grid.rs:180-194 | the arrangement has `rowCount` rows, row `r` being `RowAt(r)` |
| `GridLayout.Place` | src/grid.rs:180-194 | the nested row/column loops advancing one iterator produce exactly `Placement` |
| `GridLayout.Arrange` | src/grid.rs:164-196 | the arrangement is the empty column iff there are no items; otherwise it has `RowCount` rows and keeps both spacings |
| `GridLayout.From` | src/grid.rs:125-203 | one layout pass (count, rows, cell sizes, placement) produces exactly `View` |
| `GridLayout.View` | src/grid.rs:125-203 | zero columns give the shrinking empty space (src/grid.rs:138-140) and nothing else does; the container carries the grid's width, height and padding, and is empty iff there are no items |
| `GridLayout.FlattenPlacement` | src/grid.rs:180-196 | the rows laid end to end are the cells at positions `0 .. rows * columns` in order |
| `GridLayout.ArrangeShape` | src/grid.rs:164-194 | `RowCount` rows of `columns` cells all of one width and height; cells and gaps fill the content width and height; cell (r, j) holds item `r * columns + j` or is a placeholder |
| `GridLayout.ArrangeRowsFillWidth` | src/grid.rs:174-193 | in every row the sum of the cell widths plus `(columns - 1)` gaps is the content width |
| `GridLayout.ArrangeItemsInOrder` | src/grid.rs:180-191 | every item appears exactly once, in source order; there are `rows * columns - items` placeholders, fewer than `columns` |
| `GridLayout.ArrangePlaceholdersOnlyInLastRow` | src/grid.rs:180-191 | every row but the last holds only items |
| `GridLayout.ArrangeLastRow` | src/grid.rs:164-191 | the last row holds `items % columns` items, or `columns` when that remainder is 0 |
| `GridLayout.LastRowSize` | src/grid.rs:164-191 | the last row starts below the item count and within one row of it, and holds `n % columns` items, or `columns` when that remainder is 0 |
| `GridLayout.ZeroColumnsLaysOutAsOne` | src/grid.rs:37-39 | a grid built with 0 columns lays out exactly as one built with 1 column |
| `GridLayout.ExampleSevenItemsInThreeColumns` | src/grid.rs:164-191 | 7 items in 3 columns with spacing 10 in 300 by 200: 3 rows of cells 280/3 by 60, the last holding item 7 and two placeholders |
| `Palette.BgColor` | examples/simple.rs:44-63 | the packed colour is below 2^24 and every channel is 0x00, 0x80 or 0xFF |
| `Palette.ChannelOnIffBitSet` | examples/simple.rs:49-51 | red, green and blue are 0xFF iff bit 2, bit 1 and bit 0 of the index are set |
| `Palette.ChannelOffIsIntensity` | examples/simple.rs:53-59 | a channel whose bit is clear is 0x80 when the index is above 7 and 0x00 otherwise |
| `Palette.ChannelRanges` | examples/simple.rs:49-59 | up to index 7 channels are in {0x00, 0xFF}; above 7 they are in {0x80, 0xFF} |
| `Palette.PackedIsWeightedSum` | examples/simple.rs:62 | the packed value is `r * 2^16 + g * 2^8 + b`, with the channels read back by shift and mask |
| `Palette.DependsOnLowBitsAndIntensity` | examples/simple.rs:49-59 | the colour depends only on the low three bits and on whether the index is above 7 |
| `Palette.FirstSixteenDistinct` | examples/simple.rs:44-63 | indices 0 to 15 give distinct colours, except 7 and 15 (both white) |
| `Calendar.AsI32` | examples/calendar.rs:91 | `as i32` is the value modulo 2^32 in the i32 range, and the identity below 2^31 |
| `Calendar.Decimal` | examples/calendar.rs:98 | `to_string` of a day number: non-empty decimal digits with no leading zero |
| `Calendar.DecimalRoundTrip` | examples/calendar.rs:98 | reading the decimal text gives back the number |
| `Calendar.DayCellAt` | examples/calendar.rs:87-101 | day number `i - first_day + 1`; valid iff `1 <= day <= days_in_month as i32`; today iff current month, valid and `day == today`; text empty iff not valid, otherwise the day in decimal with no leading zero |
| `Calendar.MonthCells` | examples/calendar.rs:87 | the 42 cells in index order |
| `Calendar.EachDayShownOnce` | examples/calendar.rs:87-91 | for `first_day < 7` and at most 31 days, the valid cells are indices `first_day .. first_day + days - 1`, and each day is in exactly one cell |
| `Calendar.AtMostOneToday` | examples/calendar.rs:94 | at most one cell is marked as today |
| `Calendar.MonthGridIsSixFullWeeks` | examples/calendar.rs:131 | the 42 cells in `grid(7)` make 6 rows and no placeholder; cell (r, c) is cell `7 * r + c` |
| `Calendar.WeekdayHeaderIsOneRow` | examples/calendar.rs:75-84 | the seven weekday labels in `grid(7)` make one full row in label order |
| `CalendarMonth.FirstDay` | examples/calendar.rs:51-56 | the weekday of the first of the month, counted from Sunday, is below 7 and lies `day - 1` weekdays before the weekday of the current date |
| `CalendarMonth.WeekdayFromSunday` | examples/calendar.rs:55-56 | `num_days_from_sunday` is below 7; its value is fixed by `WeekdayAdvances` together with the dated anchor `FirstOfOctober2026IsThursday` |
| `CalendarMonth.NextDate` | examples/calendar.rs:51-56 | the next calendar date is valid and stays in the year, except that December 31st is followed by January 1st of the next year |
| `CalendarMonth.NextDateIsNextDay` | examples/calendar.rs:51-56 | consecutive dates, across month and year ends, have consecutive day counts |
| `CalendarMonth.WeekdayAdvances` | examples/calendar.rs:55-56 | the weekday counted from Sunday moves on by one from every date to the next, Saturday wrapping to Sunday |
| `CalendarMonth.WeekdayOfLaterDate` | examples/calendar.rs:55-56 | dates `k` days apart are `k` weekdays apart modulo 7 |
| `CalendarMonth.DayFallsInItsWeekdayColumn` | examples/calendar.rs:51-56 | the day of the month in cell `7 * r + c` falls on weekday `c` counted from Sunday, so each column lines up with its weekday label |
| `CalendarMonth.AsUsize` | examples/calendar.rs:66 | `as usize` is congruent to its input modulo 2^64: the identity on `0 .. 2^64`, and adds 2^64 to a negative value of that magnitude |
| `CalendarMonth.TruncDiv` | examples/calendar.rs:66 | `num_days` truncates toward zero: the remainder has the sign of the dividend and is smaller than the divisor |
| `CalendarMonth.DaysInMonthAsWritten` | examples/calendar.rs:59-66 | for January to November, the count is the month length when the UTC offset stays or falls by less than a day, and one less when it rises by less than a day |
| `CalendarMonth.FirstOfOctober2026IsThursday` | examples/calendar.rs:51-56 | the weekday computation puts October 1st 2026 on a Thursday |
| `CalendarMonth.DecemberShowsNoDay` | examples/calendar.rs:59-66 | in December the month length as written reads back negative through `as i32`, and no cell is a valid day |
| `CalendarMonth.MarchShortByDaylightSaving` | examples/calendar.rs:59-66 | March 2026 going from UTC+1 to UTC+2 is counted as 30 days, and the 31st is never shown |
| `CalendarMonth.DaysInMonth` | examples/calendar.rs:59-66 | counted between calendar dates, the month length is the Gregorian month length (28 to 31) |
| `CalendarMonth.MonthShowsEveryDay` | examples/calendar.rs:87-91 | with the corrected month length every day of the month is shown in exactly one cell |

## Left out

- Size resolution (`Limits::resolve`, src/grid.rs:144-150) belongs to the iced library and its body is not part of this model. The resolved content width and height are inputs (`Size`), and `Length` is carried along but not interpreted.
- The outer container, `responsive`, `row`, `column`, `Space`, centring and conversion into `Element` are rendering plumbing. The result is a datatype that records the rows of cells, both spacings, the width, the height and the padding.
- Padding is applied by the outer container before the closure sees its size, so it is carried along and never subtracted.
- Re-running on every resize is modelled as `View`/`From` being a function of the resolved size, called once per pass.
- Styling (`style`, `class`, src/grid.rs:87-98, 201) and the `Debug` impl (src/grid.rs:232-248) do not affect layout.
- `f32` rounding is not modelled: spacings and cell sizes are exact reals, so the width identities hold exactly.
- A lazily produced or one-shot item source is modelled as a sequence. Laziness and cloning cost are not captured.
- `ItemCount`, `From`: a size hint is required to honour the iterator contract (`lower <= len <= upper`), which the `Iterator` protocol requires. A lying hint is not modelled.
- `grid` and `GridExt::grid` (src/grid.rs:102-114, 219-230) only call `Grid::new` and are covered by `New`.
- The example applications' `main`, `update`, `theme` and view assembly, and all of examples/overview.rs, are application plumbing.
- The calendar's cell and text style closures (examples/calendar.rs:103-122) are not modelled. They choose a look from `is_today` and `is_valid_day`.
- `DayCellAt`: requires `first_day < 7`, which holds because it is a weekday. With that bound the i32 arithmetic on the day number cannot overflow, so it is modelled on unbounded integers.
- `iced::color!`'s conversion of the packed colour into float channels is not modelled. Only the packing and unpacking of the channels are.
- In `CalendarMonth`, time zones are not interpreted: the UTC offsets at the two instants are inputs. A local time that does not exist, where `unwrap` would panic, is not modelled. Nor is the case where `with_month` returns `None` for January to November because the local time on the first of the next month is ambiguous or does not exist; `unwrap_or` then falls back to January of the same year (examples/calendar.rs:63-64), and the model always ends at the first of the next month.
- `DaysInMonthAsWritten`: its contract states the count for January to November when the two UTC offsets differ by less than a day. December is covered by `DecemberShowsNoDay`. Offset jumps of a day or more within one month are left unstated.

## Findings

| source | as written | input that shows it | evidently intended | confidence | as-written member | corrected member |
|---|---|---|---|---|---|---|
| examples/calendar.rs:59-66 | In December `with_month(13)` fails and the fallback is January of the same year. The day count is then negative, wraps under `as usize`, and reads back negative through `as i32` in the cell closure | any December date, e.g. 2026-12-15: about -320 days, so no cell is a valid day | 31 days, up to January 1st of the next year | high; not executed | `CalendarMonth.DecemberShowsNoDay` | `CalendarMonth.DaysInMonth` |
| examples/calendar.rs:59-66 | The month length is a duration between two local date-times, truncated to whole days. A daylight-saving change inside the month makes it an hour short of the full days | 2026-03-10 in a zone moving from UTC+1 to UTC+2 on March 29th: 31 days less one hour, counted as 30 | 31 days for March, independent of the time zone | medium (depends on the local time zone); not executed | `CalendarMonth.MarchShortByDaylightSaving` | `CalendarMonth.DaysInMonth` |
