/** A grid layout that arranges its children in equal-sized cells.

    One layout pass takes the grid's configuration, its items and the size
    the host resolved for the grid's content, and produces rows of cells:
    every cell has the same width and height, items are placed row-major and
    the last row is filled up with empty placeholder cells. */
module GridLayout {

  datatype Option<T> = None | Some(value: T)

  /** How the grid claims space from its parent (iced's `Length`). */
  datatype Length = Fill | FillPortion(portion: nat) | Shrink | Fixed(pixels: real)

  /** Space kept free around the whole grid by its outer container. */
  datatype Padding = Padding(top: real, right: real, bottom: real, left: real)

  const PaddingZero: Padding := Padding(0.0, 0.0, 0.0, 0.0)

  /** The grid's configuration together with its item source. */
  datatype Grid<T> = Grid(
    columns: nat,
    items: seq<T>,
    horizontalSpacing: real,
    verticalSpacing: real,
    padding: Padding,
    width: Length,
    height: Length)

  /** The invariant every constructed grid keeps: at least one column. */
  predicate Valid<T>(g: Grid<T>) {
    g.columns >= 1
  }

  // ---------------------------------------------------------------------
  // Construction and builders
  // ---------------------------------------------------------------------

  /** `Grid::new` (also reached through `grid` and `GridExt::grid`):
      the column count is raised to at least one, everything else takes
      its default. */
  function New<T>(columns: nat, items: seq<T>): (g: Grid<T>)
    ensures Valid(g)
    ensures g.columns == if columns == 0 then 1 else columns
    ensures g.items == items
    ensures g.horizontalSpacing == 0.0 && g.verticalSpacing == 0.0
    ensures g.padding == PaddingZero && g.width == Fill && g.height == Fill
  {
    Grid(if columns < 1 then 1 else columns, items, 0.0, 0.0, PaddingZero, Fill, Fill)
  }

  function WithHorizontalSpacing<T>(g: Grid<T>, spacing: real): (r: Grid<T>)
    ensures r.horizontalSpacing == spacing
    ensures r.columns == g.columns && r.items == g.items && r.verticalSpacing == g.verticalSpacing
    ensures r.padding == g.padding && r.width == g.width && r.height == g.height
  {
    g.(horizontalSpacing := spacing)
  }

  function WithVerticalSpacing<T>(g: Grid<T>, spacing: real): (r: Grid<T>)
    ensures r.verticalSpacing == spacing
    ensures r.columns == g.columns && r.items == g.items && r.horizontalSpacing == g.horizontalSpacing
    ensures r.padding == g.padding && r.width == g.width && r.height == g.height
  {
    g.(verticalSpacing := spacing)
  }

  /** Sets both spacings, by way of the two single-axis setters. */
  function WithSpacing<T>(g: Grid<T>, spacing: real): (r: Grid<T>)
    ensures r.horizontalSpacing == spacing && r.verticalSpacing == spacing
    ensures r.columns == g.columns && r.items == g.items
    ensures r.padding == g.padding && r.width == g.width && r.height == g.height
  {
    WithVerticalSpacing(WithHorizontalSpacing(g, spacing), spacing)
  }

  function WithPadding<T>(g: Grid<T>, padding: Padding): (r: Grid<T>)
    ensures r.padding == padding
    ensures r.columns == g.columns && r.items == g.items
    ensures r.horizontalSpacing == g.horizontalSpacing && r.verticalSpacing == g.verticalSpacing
    ensures r.width == g.width && r.height == g.height
  {
    g.(padding := padding)
  }

  function WithWidth<T>(g: Grid<T>, width: Length): (r: Grid<T>)
    ensures r.width == width
    ensures r.columns == g.columns && r.items == g.items
    ensures r.horizontalSpacing == g.horizontalSpacing && r.verticalSpacing == g.verticalSpacing
    ensures r.padding == g.padding && r.height == g.height
  {
    g.(width := width)
  }

  function WithHeight<T>(g: Grid<T>, height: Length): (r: Grid<T>)
    ensures r.height == height
    ensures r.columns == g.columns && r.items == g.items
    ensures r.horizontalSpacing == g.horizontalSpacing && r.verticalSpacing == g.verticalSpacing
    ensures r.padding == g.padding && r.width == g.width
  {
    g.(height := height)
  }

  /** Asking for zero columns configures the same grid as asking for one. */
  lemma NewZeroColumnsIsOneColumn<T>(items: seq<T>)
    ensures New(0, items) == New(1, items)
    ensures New(0, items).columns == 1
  {
  }

  /** The spacing setters act on separate fields: the order in which they
      are applied does not matter, and `WithSpacing` is either order. */
  lemma SpacingSettersCommute<T>(g: Grid<T>, h: real, v: real)
    ensures WithVerticalSpacing(WithHorizontalSpacing(g, h), v)
         == WithHorizontalSpacing(WithVerticalSpacing(g, v), h)
    ensures WithSpacing(g, h) == WithHorizontalSpacing(WithVerticalSpacing(g, h), h)
  {
  }

  /** Every builder keeps the column invariant established by `New`. */
  lemma BuildersKeepValid<T>(g: Grid<T>, s: real, p: Padding, len: Length)
    requires Valid(g)
    ensures Valid(WithHorizontalSpacing(g, s)) && Valid(WithVerticalSpacing(g, s))
    ensures Valid(WithSpacing(g, s)) && Valid(WithPadding(g, p))
    ensures Valid(WithWidth(g, len)) && Valid(WithHeight(g, len))
  {
  }

  // ---------------------------------------------------------------------
  // Counting the items
  // ---------------------------------------------------------------------

  /** `Iterator::size_hint`: a lower bound and an optional upper bound on
      the number of items the iterator will still yield. */
  datatype SizeHint = SizeHint(lower: nat, upper: Option<nat>)

  /** What every iterator promises of its size hint. */
  predicate HintHolds(hint: SizeHint, len: nat) {
    hint.lower <= len && (hint.upper.Some? ==> len <= hint.upper.value)
  }

  /** The hint is trusted only when its two bounds coincide. */
  predicate IsExact(hint: SizeHint) {
    hint.upper.Some? && hint.lower == hint.upper.value
  }

  /** A hint whose bounds coincide gives the exact length. */
  lemma ExactHintIsLength(hint: SizeHint, len: nat)
    requires HintHolds(hint, len) && IsExact(hint)
    ensures hint.lower == len
  {
  }

  /** `Iterator::count`: traverse the whole source once. */
  method Count<T>(items: seq<T>) returns (n: nat)
    ensures n == |items|
  {
    n := 0;
    var rest := items;
    while rest != []
      invariant n + |rest| == |items|
    {
      rest := rest[1..];
      n := n + 1;
    }
  }

  /** The item count of a layout pass: the size hint when it is exact,
      otherwise a full traversal of a fresh copy of the source. */
  method ItemCount<T>(items: seq<T>, hint: SizeHint) returns (n: nat)
    requires HintHolds(hint, |items|)
    ensures n == |items|
  {
    if hint.upper.Some? && hint.lower == hint.upper.value {
      n := hint.lower;
    } else {
      n := Count(items);
    }
  }

  // ---------------------------------------------------------------------
  // Rows and cell sizes
  // ---------------------------------------------------------------------

  /** `usize::div_ceil`: the quotient, plus one when there is a remainder. */
  function DivCeil(n: nat, d: nat): (q: nat)
    requires d >= 1
    ensures n <= q * d < n + d
  {
    var quotient, remainder := n / d, n % d;
    assert n == quotient * d + remainder;
    if remainder > 0 then quotient + 1 else quotient
  }

  /** The number of rows needed for `itemCount` items in `columns` columns. */
  function RowCount(itemCount: nat, columns: nat): (rows: nat)
    requires columns >= 1
    ensures rows == 0 <==> itemCount == 0
    ensures itemCount <= rows * columns
    ensures itemCount > 0 ==> (rows - 1) * columns < itemCount
  {
    if itemCount == 0 then 0 else DivCeil(itemCount, columns)
  }

  /** No smaller number of rows has room for all items. */
  lemma RowCountIsLeast(itemCount: nat, columns: nat, rows: nat)
    requires columns >= 1
    requires itemCount <= rows * columns
    ensures RowCount(itemCount, columns) <= rows
  {
  }

  lemma MulMonotone(a: nat, b: nat, c: nat)
    requires a <= b
    ensures a * c <= b * c
  {
  }

  /** The row count agrees with the textbook ceiling `(n + c - 1) / c`. */
  lemma RowCountIsCeiling(itemCount: nat, columns: nat)
    requires columns >= 1
    ensures RowCount(itemCount, columns) == (itemCount + columns - 1) / columns
  {
    var r := RowCount(itemCount, columns);
    var m := itemCount + columns - 1;
    assert r * columns <= m < r * columns + columns;
    DivisionUnique(m, columns, r);
  }

  lemma DivisionUnique(m: nat, d: nat, q: nat)
    requires d >= 1
    requires q * d <= m < q * d + d
    ensures m / d == q
  {
    var q', r' := m / d, m % d;
    assert m == q' * d + r';
    if q' < q {
      MulMonotone(q' + 1, q, d);
    } else if q' > q {
      MulMonotone(q + 1, q', d);
    }
  }

  /** The size of one of `count` equal cells sharing `total` with
      `count - 1` gaps of `spacing` between them. Nothing is clamped: the
      size is negative exactly when the gaps alone exceed the total. */
  function CellSize(total: real, spacing: real, count: nat): (size: real)
    requires count >= 1
    ensures size * count as real + spacing * (count as real - 1.0) == total
    ensures size < 0.0 <==> spacing * (count as real - 1.0) > total
  {
    var gaps := spacing * (count as real - 1.0);
    (total - gaps) / count as real
  }

  /** The cell size is the only size that makes the cells and the gaps
      fill the total exactly. */
  lemma CellSizeUnique(total: real, spacing: real, count: nat, size: real)
    requires count >= 1
    requires size * count as real + spacing * (count as real - 1.0) == total
    ensures size == CellSize(total, spacing, count)
  {
  }

  // ---------------------------------------------------------------------
  // Placing the cells
  // ---------------------------------------------------------------------

  /** A cell of the arranged grid: an item centred in the cell, or an empty
      space of the same size where the items have run out. */
  datatype Cell<T> = Item(item: T, width: real, height: real) | Placeholder(width: real, height: real)

  /** The cell at row-major position `k`: the `k`-th item if there is one. */
  function CellAt<T>(items: seq<T>, k: nat, width: real, height: real): (c: Cell<T>)
    ensures c.width == width && c.height == height
    ensures c.Item? <==> k < |items|
    ensures c.Item? ==> c.item == items[k]
  {
    if k < |items| then Item(items[k], width, height) else Placeholder(width, height)
  }

  /** Row `r` of the arrangement: positions `r * columns` up to
      `(r + 1) * columns`, left to right. */
  function RowAt<T>(items: seq<T>, columns: nat, r: nat, width: real, height: real): (row: seq<Cell<T>>)
    ensures |row| == columns
    ensures forall j :: 0 <= j < columns ==> row[j] == CellAt(items, r * columns + j, width, height)
  {
    Window(items, r * columns, columns, width, height)
  }

  /** The `count` consecutive cells starting at row-major position `start`. */
  function Window<T>(items: seq<T>, start: nat, count: nat, width: real, height: real): (cells: seq<Cell<T>>)
    ensures |cells| == count
    ensures forall j :: 0 <= j < count ==> cells[j] == CellAt(items, start + j, width, height)
  {
    seq(count, j requires 0 <= j < count => CellAt(items, start + j, width, height))
  }

  /** The specification of placement: `rowCount` rows of `columns` cells. */
  function Placement<T>(items: seq<T>, columns: nat, rowCount: nat, width: real, height: real)
    : (rows: seq<seq<Cell<T>>>)
    ensures |rows| == rowCount
    ensures forall r :: 0 <= r < rowCount ==> rows[r] == RowAt(items, columns, r, width, height)
  {
    seq(rowCount, r requires 0 <= r < rowCount => RowAt(items, columns, r, width, height))
  }

  /** Fills the cells row by row, pulling the next item from one iterator
      over the source (`next` is its position) and emitting a placeholder
      once it is exhausted. */
  method Place<T>(items: seq<T>, columns: nat, rowCount: nat, width: real, height: real)
    returns (rows: seq<seq<Cell<T>>>)
    ensures rows == Placement(items, columns, rowCount, width, height)
  {
    var next := 0;
    rows := [];
    var r := 0;
    while r < rowCount
      invariant 0 <= r <= rowCount
      invariant next == Min(r * columns, |items|)
      invariant rows == Placement(items, columns, r, width, height)
    {
      var row := [];
      var j := 0;
      while j < columns
        invariant 0 <= j <= columns
        invariant next == Min(r * columns + j, |items|)
        invariant |row| == j
        invariant forall k :: 0 <= k < j ==> row[k] == CellAt(items, r * columns + k, width, height)
      {
        var cell;
        if next < |items| {
          cell := Item(items[next], width, height);
          next := next + 1;
        } else {
          cell := Placeholder(width, height);
        }
        row := row + [cell];
        j := j + 1;
      }
      assert row == RowAt(items, columns, r, width, height);
      rows := rows + [row];
      assert (r + 1) * columns == r * columns + columns;
      r := r + 1;
    }
  }

  function Min(a: nat, b: nat): nat {
    if a <= b then a else b
  }

  // ---------------------------------------------------------------------
  // One layout pass
  // ---------------------------------------------------------------------

  /** The size the host resolved for the grid's content. */
  datatype Size = Size(width: real, height: real)

  /** The content of the grid's outer container: an empty column when
      there are no items, otherwise a column of rows of cells with the
      configured spacings between them. */
  datatype Body<T> =
    | EmptyColumn
    | Column(rows: seq<seq<Cell<T>>>, horizontalSpacing: real, verticalSpacing: real)

  /** The element a grid converts into. */
  datatype Element<T> =
    | ShrinkSpace
    | Container(body: Body<T>, width: Length, height: Length, padding: Padding)

  /** The arrangement of `items` into `columns` columns within `content`. */
  function Arrange<T>(items: seq<T>, columns: nat, horizontalSpacing: real, verticalSpacing: real,
                      content: Size): (body: Body<T>)
    requires columns >= 1
    ensures body.EmptyColumn? <==> |items| == 0
    ensures body.Column? ==> |body.rows| == RowCount(|items|, columns)
    ensures body.Column? ==> body.horizontalSpacing == horizontalSpacing && body.verticalSpacing == verticalSpacing
  {
    var rowCount := RowCount(|items|, columns);
    if rowCount == 0 then
      EmptyColumn
    else
      var cellWidth := CellSize(content.width, horizontalSpacing, columns);
      var cellHeight := CellSize(content.height, verticalSpacing, rowCount);
      Column(Placement(items, columns, rowCount, cellWidth, cellHeight), horizontalSpacing, verticalSpacing)
  }

  /** The element produced for one layout pass with resolved size `content`. */
  function View<T>(g: Grid<T>, content: Size): (e: Element<T>)
    ensures e.ShrinkSpace? <==> g.columns == 0
    ensures e.Container? ==> e.width == g.width && e.height == g.height && e.padding == g.padding
    ensures e.Container? ==> (e.body.EmptyColumn? <==> |g.items| == 0)
  {
    if g.columns == 0 then
      ShrinkSpace
    else
      Container(Arrange(g.items, g.columns, g.horizontalSpacing, g.verticalSpacing, content),
                g.width, g.height, g.padding)
  }

  /** `From<Grid> for Element`, run for one layout pass: count the items,
      work out rows and cell sizes, and place the cells. */
  method From<T>(g: Grid<T>, hint: SizeHint, content: Size) returns (e: Element<T>)
    requires HintHolds(hint, |g.items|)
    ensures e == View(g, content)
  {
    if g.columns == 0 {
      return ShrinkSpace;
    }
    var itemCount := ItemCount(g.items, hint);
    var rowCount := if itemCount == 0 then 0 else DivCeil(itemCount, g.columns);
    if rowCount == 0 {
      return Container(EmptyColumn, g.width, g.height, g.padding);
    }
    var totalHSpacing := g.horizontalSpacing * (g.columns as real - 1.0);
    var cellWidth := (content.width - totalHSpacing) / g.columns as real;
    var totalVSpacing := g.verticalSpacing * (rowCount as real - 1.0);
    var cellHeight := (content.height - totalVSpacing) / rowCount as real;
    assert rowCount == RowCount(|g.items|, g.columns);
    assert cellWidth == CellSize(content.width, g.horizontalSpacing, g.columns);
    assert cellHeight == CellSize(content.height, g.verticalSpacing, rowCount);
    var rows := Place(g.items, g.columns, rowCount, cellWidth, cellHeight);
    e := Container(Column(rows, g.horizontalSpacing, g.verticalSpacing), g.width, g.height, g.padding);
  }

  // ---------------------------------------------------------------------
  // What the arrangement guarantees
  // ---------------------------------------------------------------------

  /** The rows laid end to end, in row-major order. */
  function Flatten<T>(rows: seq<seq<T>>): (cells: seq<T>)
  {
    if rows == [] then [] else Flatten(rows[..|rows| - 1]) + rows[|rows| - 1]
  }

  /** The items held by `cells`, in order, placeholders skipped. */
  function ItemsOf<T>(cells: seq<Cell<T>>): (items: seq<T>)
  {
    if cells == [] then []
    else
      var last := cells[|cells| - 1];
      ItemsOf(cells[..|cells| - 1]) + (if last.Item? then [last.item] else [])
  }

  /** The number of placeholder cells among `cells`. */
  function PlaceholderCount<T>(cells: seq<Cell<T>>): (n: nat)
  {
    if cells == [] then 0
    else PlaceholderCount(cells[..|cells| - 1]) + (if cells[|cells| - 1].Placeholder? then 1 else 0)
  }

  /** The sum of the widths of `cells`. */
  function TotalWidth<T>(cells: seq<Cell<T>>): real
  {
    if cells == [] then 0.0 else TotalWidth(cells[..|cells| - 1]) + cells[|cells| - 1].width
  }

  /** Laid end to end, the rows of the placement are the cells at
      positions `0 .. rowCount * columns` in order. */
  lemma {:induction false} FlattenPlacement<T>(items: seq<T>, columns: nat, rowCount: nat, width: real, height: real)
    ensures Flatten(Placement(items, columns, rowCount, width, height))
         == Window(items, 0, rowCount * columns, width, height)
  {
    if rowCount > 0 {
      var rows := Placement(items, columns, rowCount, width, height);
      var before := (rowCount - 1) * columns;
      assert rows[..rowCount - 1] == Placement(items, columns, rowCount - 1, width, height);
      FlattenPlacement(items, columns, rowCount - 1, width, height);
      assert rowCount * columns == before + columns;
      var whole := Window(items, 0, rowCount * columns, width, height);
      assert whole == Window(items, 0, before, width, height) + rows[rowCount - 1] by {
        forall k | 0 <= k < rowCount * columns
          ensures whole[k] == (Window(items, 0, before, width, height) + rows[rowCount - 1])[k]
        {
          if k >= before {
            assert rows[rowCount - 1][k - before] == CellAt(items, before + (k - before), width, height);
          }
        }
      }
    } else {
      assert Placement(items, columns, 0, width, height) == [];
    }
  }

  /** A window of cells holds exactly the items at its positions, in order. */
  lemma {:induction false} ItemsOfWindow<T>(items: seq<T>, start: nat, count: nat, width: real, height: real)
    ensures ItemsOf(Window(items, start, count, width, height))
         == items[Min(start, |items|)..Min(start + count, |items|)]
  {
    var cells := Window(items, start, count, width, height);
    if count > 0 {
      assert cells[..count - 1] == Window(items, start, count - 1, width, height);
      ItemsOfWindow(items, start, count - 1, width, height);
      if start + count - 1 < |items| {
        assert items[start..start + count] == items[start..start + count - 1] + [items[start + count - 1]];
      }
    } else {
      assert cells == [];
    }
  }

  /** A window of cells holds a placeholder at every position past the items. */
  lemma {:induction false} PlaceholdersOfWindow<T>(items: seq<T>, start: nat, count: nat, width: real, height: real)
    ensures PlaceholderCount(Window(items, start, count, width, height))
         == count - (Min(start + count, |items|) - Min(start, |items|))
  {
    var cells := Window(items, start, count, width, height);
    if count > 0 {
      assert cells[..count - 1] == Window(items, start, count - 1, width, height);
      PlaceholdersOfWindow(items, start, count - 1, width, height);
    } else {
      assert cells == [];
    }
  }

  /** A row of cells of equal width is that width times the row length. */
  lemma {:induction false} TotalWidthOfUniform<T>(cells: seq<Cell<T>>, width: real)
    requires forall k :: 0 <= k < |cells| ==> cells[k].width == width
    ensures TotalWidth(cells) == |cells| as real * width
  {
    if cells != [] {
      TotalWidthOfUniform(cells[..|cells| - 1], width);
    }
  }

  /** The shape of a non-empty arrangement: `RowCount` rows of exactly
      `columns` cells, all as wide and as high as the first, where the cells
      and gaps of a row fill the content width and the rows and gaps fill
      the content height; the cell at row `r`, column `j` holds item
      `r * columns + j` when there is one and is a placeholder otherwise. */
  lemma ArrangeShape<T>(items: seq<T>, columns: nat, horizontalSpacing: real, verticalSpacing: real,
                        content: Size)
    requires columns >= 1
    requires |items| > 0
    ensures var body := Arrange(items, columns, horizontalSpacing, verticalSpacing, content);
      && body.Column?
      && body.horizontalSpacing == horizontalSpacing && body.verticalSpacing == verticalSpacing
      && var rows, rowCount := body.rows, RowCount(|items|, columns);
      && |rows| == rowCount
      && (forall r :: 0 <= r < rowCount ==> |rows[r]| == columns)
      && var cellWidth, cellHeight := rows[0][0].width, rows[0][0].height;
      && cellWidth * columns as real + horizontalSpacing * (columns as real - 1.0) == content.width
      && cellHeight * rowCount as real + verticalSpacing * (rowCount as real - 1.0) == content.height
      && forall r, j :: 0 <= r < rowCount && 0 <= j < columns ==>
           && (r * columns + j < |items| ==> rows[r][j] == Item(items[r * columns + j], cellWidth, cellHeight))
           && (r * columns + j >= |items| ==> rows[r][j] == Placeholder(cellWidth, cellHeight))
  {
  }

  /** Every row, cells and gaps together, is exactly as wide as the content. */
  lemma ArrangeRowsFillWidth<T>(items: seq<T>, columns: nat, horizontalSpacing: real, verticalSpacing: real,
                                content: Size, r: nat)
    requires columns >= 1
    requires r < RowCount(|items|, columns)
    ensures var rows := Arrange(items, columns, horizontalSpacing, verticalSpacing, content).rows;
      TotalWidth(rows[r]) + horizontalSpacing * (columns as real - 1.0) == content.width
  {
    var rowCount := RowCount(|items|, columns);
    var cellWidth := CellSize(content.width, horizontalSpacing, columns);
    var cellHeight := CellSize(content.height, verticalSpacing, rowCount);
    var row := Arrange(items, columns, horizontalSpacing, verticalSpacing, content).rows[r];
    assert row == RowAt(items, columns, r, cellWidth, cellHeight);
    TotalWidthOfUniform(row, cellWidth);
  }

  /** Every item appears exactly once and in source order, and the
      placeholders are the `rowCount * columns - |items|` cells left over,
      fewer than one row's worth. */
  lemma ArrangeItemsInOrder<T>(items: seq<T>, columns: nat, horizontalSpacing: real, verticalSpacing: real,
                               content: Size)
    requires columns >= 1
    requires |items| > 0
    ensures var rows := Arrange(items, columns, horizontalSpacing, verticalSpacing, content).rows;
      && ItemsOf(Flatten(rows)) == items
      && PlaceholderCount(Flatten(rows)) == RowCount(|items|, columns) * columns - |items|
      && PlaceholderCount(Flatten(rows)) < columns
  {
    var rowCount := RowCount(|items|, columns);
    var cellWidth := CellSize(content.width, horizontalSpacing, columns);
    var cellHeight := CellSize(content.height, verticalSpacing, rowCount);
    FlattenPlacement(items, columns, rowCount, cellWidth, cellHeight);
    ItemsOfWindow(items, 0, rowCount * columns, cellWidth, cellHeight);
    PlaceholdersOfWindow(items, 0, rowCount * columns, cellWidth, cellHeight);
    assert items[0..|items|] == items;
  }

  /** Placeholders occur only in the last row: every earlier row is full. */
  lemma ArrangePlaceholdersOnlyInLastRow<T>(items: seq<T>, columns: nat, horizontalSpacing: real,
                                            verticalSpacing: real, content: Size)
    requires columns >= 1
    ensures var body := Arrange(items, columns, horizontalSpacing, verticalSpacing, content);
      body.Column? ==> forall r, j :: 0 <= r < |body.rows| - 1 && 0 <= j < columns ==> body.rows[r][j].Item?
  {
    var rowCount := RowCount(|items|, columns);
    var body := Arrange(items, columns, horizontalSpacing, verticalSpacing, content);
    if body.Column? {
      var cellWidth := CellSize(content.width, horizontalSpacing, columns);
      var cellHeight := CellSize(content.height, verticalSpacing, rowCount);
      forall r, j | 0 <= r < rowCount - 1 && 0 <= j < columns
        ensures body.rows[r][j].Item?
      {
        MulMonotone(r + 1, rowCount - 1, columns);
        assert r * columns + j < (r + 1) * columns;
        assert body.rows[r][j] == CellAt(items, r * columns + j, cellWidth, cellHeight);
      }
    }
  }

  /** The last row holds the remainder `|items| % columns` of the items, or
      a full row of them when the columns divide the item count. */
  lemma ArrangeLastRow<T>(items: seq<T>, columns: nat, horizontalSpacing: real, verticalSpacing: real,
                          content: Size)
    requires columns >= 1
    requires |items| > 0
    ensures var rows := Arrange(items, columns, horizontalSpacing, verticalSpacing, content).rows;
      var rowCount := RowCount(|items|, columns);
      |ItemsOf(rows[rowCount - 1])| == (if |items| % columns == 0 then columns else |items| % columns)
  {
    var n := |items|;
    var rowCount := RowCount(n, columns);
    var cellWidth := CellSize(content.width, horizontalSpacing, columns);
    var cellHeight := CellSize(content.height, verticalSpacing, rowCount);
    var start := (rowCount - 1) * columns;
    ItemsOfWindow(items, start, columns, cellWidth, cellHeight);
    LastRowSize(n, columns);
  }

  /** The items left for the last row. */
  lemma LastRowSize(n: nat, columns: nat)
    requires columns >= 1 && n > 0
    ensures var start := (RowCount(n, columns) - 1) * columns;
      && start < n <= start + columns
      && n - start == (if n % columns == 0 then columns else n % columns)
  {
  }

  /** Grids built with zero and with one column lay out identically. */
  lemma ZeroColumnsLaysOutAsOne<T>(items: seq<T>, content: Size)
    ensures View(New(0, items), content) == View(New(1, items), content)
    ensures View(New(0, items), content).Container?
  {
  }

  /** Three columns, seven items, spacing 10 in a 300 by 200 content box:
      three rows of cells 280/3 wide and 60 high; the third row holds the
      seventh item and two placeholders. */
  lemma ExampleSevenItemsInThreeColumns(items: seq<int>)
    requires |items| == 7
    ensures var g := WithSpacing(New(3, items), 10.0);
      var body := Arrange(g.items, g.columns, g.horizontalSpacing, g.verticalSpacing, Size(300.0, 200.0));
      && body.Column? && |body.rows| == 3
      && body.rows[2] == [Item(items[6], 280.0 / 3.0, 60.0), Placeholder(280.0 / 3.0, 60.0),
                          Placeholder(280.0 / 3.0, 60.0)]
  {
  }
}
