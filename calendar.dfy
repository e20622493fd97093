/** The month view of the calendar example: 42 cells, seven per week, laid
    out by a seven-column grid. Each cell is computed from its index, the
    weekday of the month's first day, the month's length, today's day of
    the month and whether the month shown is the current one. */
module Calendar {
  import GridLayout

  /** A `usize` value. */
  type Usize = x: nat | x < 0x1_0000_0000_0000_0000

  /** `x as i32` for a `usize`: keep the low 32 bits, read them as two's
      complement. */
  function AsI32(x: Usize): (r: int)
    ensures -0x8000_0000 <= r < 0x8000_0000
    ensures (x - r) % 0x1_0000_0000 == 0
    ensures x < 0x8000_0000 ==> r == x
  {
    var low := x % 0x1_0000_0000;
    if low < 0x8000_0000 then low else low - 0x1_0000_0000
  }

  // ---------------------------------------------------------------------
  // Decimal text of a day number (`i32::to_string` on positive values)
  // ---------------------------------------------------------------------

  predicate IsDigit(c: char) {
    '0' <= c <= '9'
  }

  function DigitChar(d: nat): (c: char)
    requires d < 10
    ensures IsDigit(c) && c as int - '0' as int == d
  {
    ('0' as int + d) as char
  }

  /** The decimal digits of `n`, most significant first, without leading
      zeros. */
  function Decimal(n: nat): (s: string)
    ensures |s| >= 1
    ensures forall k :: 0 <= k < |s| ==> IsDigit(s[k])
    ensures n > 0 ==> s[0] != '0'
  {
    if n < 10 then [DigitChar(n)] else Decimal(n / 10) + [DigitChar(n % 10)]
  }

  /** The value of a string of decimal digits. */
  function ParseDecimal(s: string): nat
    requires forall k :: 0 <= k < |s| ==> IsDigit(s[k])
  {
    if s == [] then 0
    else
      assert IsDigit(s[|s| - 1]);
      ParseDecimal(s[..|s| - 1]) * 10 + (s[|s| - 1] as int - '0' as int)
  }

  /** Reading the text of a number gives the number back. */
  lemma {:induction false} DecimalRoundTrip(n: nat)
    ensures ParseDecimal(Decimal(n)) == n
  {
    var s := Decimal(n);
    if n >= 10 {
      DecimalRoundTrip(n / 10);
      assert s[..|s| - 1] == Decimal(n / 10);
    }
  }

  // ---------------------------------------------------------------------
  // One cell of the month view
  // ---------------------------------------------------------------------

  /** What the closure computes for one cell. */
  datatype DayCell = DayCell(dayNumber: int, isValidDay: bool, isToday: bool, content: string)

  /** The cell at index `i` (0 to 41): the day number counts from 1 at the
      index of the month's first weekday; only days 1 up to the month's
      length are shown, and today is marked in the current month only.
      `firstDay` is the first day's weekday counted from Sunday, which is
      why it is below 7. */
  function DayCellAt(i: int, firstDay: nat, daysInMonth: Usize, today: Usize, isCurrentMonth: bool)
    : (cell: DayCell)
    requires 0 <= i < 42
    requires firstDay < 7
    ensures cell.dayNumber + firstDay == i + 1
    ensures cell.isValidDay <==> 1 <= cell.dayNumber <= AsI32(daysInMonth)
    ensures cell.isToday <==> isCurrentMonth && cell.isValidDay && cell.dayNumber == today
    ensures cell.content == [] <==> !cell.isValidDay
    ensures cell.isValidDay ==> cell.content[0] != '0'
    ensures forall k :: 0 <= k < |cell.content| ==> IsDigit(cell.content[k])
    ensures cell.isValidDay ==> ParseDecimal(cell.content) == cell.dayNumber
  {
    var dayNumber := i - firstDay + 1;
    var isValidDay := dayNumber > 0 && dayNumber <= AsI32(daysInMonth);
    var isToday := isCurrentMonth && isValidDay && dayNumber == today;
    var content := if isValidDay then Decimal(dayNumber) else "";
    if isValidDay then DecimalRoundTrip(dayNumber); DayCell(dayNumber, isValidDay, isToday, content)
    else DayCell(dayNumber, isValidDay, isToday, content)
  }

  /** The 42 cells of the month view, in index order. */
  function MonthCells(firstDay: nat, daysInMonth: Usize, today: Usize, isCurrentMonth: bool)
    : (cells: seq<DayCell>)
    requires firstDay < 7
    ensures |cells| == 42
    ensures forall i :: 0 <= i < 42 ==> cells[i] == DayCellAt(i, firstDay, daysInMonth, today, isCurrentMonth)
  {
    seq(42, i requires 0 <= i < 42 => DayCellAt(i, firstDay, daysInMonth, today, isCurrentMonth))
  }

  /** For a month of at most 31 days, the shown cells are exactly indices
      `firstDay` up to `firstDay + daysInMonth - 1`, and each day of the
      month is shown in exactly one cell. */
  lemma EachDayShownOnce(firstDay: nat, daysInMonth: Usize, today: Usize, isCurrentMonth: bool, day: int)
    requires firstDay < 7 && daysInMonth <= 31
    requires 1 <= day <= daysInMonth
    ensures forall i :: 0 <= i < 42 ==>
      (DayCellAt(i, firstDay, daysInMonth, today, isCurrentMonth).isValidDay <==> firstDay <= i < firstDay + daysInMonth)
    ensures 0 <= day + firstDay - 1 < 42
    ensures var cell := DayCellAt(day + firstDay - 1, firstDay, daysInMonth, today, isCurrentMonth);
      cell.isValidDay && cell.dayNumber == day
    ensures forall i :: 0 <= i < 42 ==>
      var cell := DayCellAt(i, firstDay, daysInMonth, today, isCurrentMonth);
      cell.isValidDay && cell.dayNumber == day ==> i == day + firstDay - 1
  {
  }

  /** At most one cell is marked as today. */
  lemma AtMostOneToday(firstDay: nat, daysInMonth: Usize, today: Usize, isCurrentMonth: bool, i: int, j: int)
    requires firstDay < 7
    requires 0 <= i < 42 && 0 <= j < 42
    requires DayCellAt(i, firstDay, daysInMonth, today, isCurrentMonth).isToday
    requires DayCellAt(j, firstDay, daysInMonth, today, isCurrentMonth).isToday
    ensures i == j
  {
  }

  /** The month view's seven-column grid (spacing 1): six full rows and no
      placeholder; the cell in row `r`, column `c` is cell `7 * r + c`. */
  lemma MonthGridIsSixFullWeeks(firstDay: nat, daysInMonth: Usize, today: Usize, isCurrentMonth: bool,
                                content: GridLayout.Size)
    requires firstDay < 7
    ensures var cells := MonthCells(firstDay, daysInMonth, today, isCurrentMonth);
      var g := GridLayout.WithSpacing(GridLayout.New(7, cells), 1.0);
      var body := GridLayout.Arrange(g.items, g.columns, g.horizontalSpacing, g.verticalSpacing, content);
      && GridLayout.RowCount(|cells|, 7) == 6
      && body.Column? && |body.rows| == 6
      && GridLayout.PlaceholderCount(GridLayout.Flatten(body.rows)) == 0
      && forall r, c :: 0 <= r < 6 && 0 <= c < 7 ==>
           body.rows[r][c].Item? && body.rows[r][c].item == cells[7 * r + c]
  {
    var cells := MonthCells(firstDay, daysInMonth, today, isCurrentMonth);
    var g := GridLayout.WithSpacing(GridLayout.New(7, cells), 1.0);
    assert g.items == cells && g.columns == 7 && g.horizontalSpacing == 1.0 && g.verticalSpacing == 1.0;
    assert GridLayout.RowCount(42, 7) == 6;
    GridLayout.ArrangeShape(cells, 7, 1.0, 1.0, content);
    GridLayout.ArrangeItemsInOrder(cells, 7, 1.0, 1.0, content);
  }

  /** The weekday header, seven labels in a seven-column grid, is one full row. */
  lemma WeekdayHeaderIsOneRow(labels: seq<string>, content: GridLayout.Size)
    requires |labels| == 7
    ensures var g := GridLayout.WithSpacing(GridLayout.WithHeight(GridLayout.New(7, labels), GridLayout.Fixed(30.0)), 1.0);
      var body := GridLayout.Arrange(g.items, g.columns, g.horizontalSpacing, g.verticalSpacing, content);
      && body.Column? && |body.rows| == 1
      && forall c :: 0 <= c < 7 ==> body.rows[0][c].Item? && body.rows[0][c].item == labels[c]
  {
  }
}
