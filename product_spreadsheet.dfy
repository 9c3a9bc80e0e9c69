/**
 * The translation spreadsheet: `valid_products` walks the "products" worksheet of a
 * Google spreadsheet from its first data row down to the last row whose successor
 * has a blank id, and keeps the id (column 1) of every row whose translated cells are
 * all filled in: for each checked column and each locale one cell, the locales of a
 * column side by side from sheet column 2 on.
 */
module ProductSpreadsheet {
  import opened Wrappers
  import opened RubyText

  // ---------------------------------------------------------------------------
  // The worksheet
  // ---------------------------------------------------------------------------

  /** A worksheet as the Google client holds it: row `r`, column `c` (both from 1) is
      `cells[r - 1][c - 1]`. */
  datatype Sheet = Sheet(cells: seq<seq<string>>)

  /** `sheet[row, col]`: the cell's text, or "" for a cell the sheet does not hold. */
  function Cell(sheet: Sheet, row: int, col: int): string
  {
    if 1 <= row <= |sheet.cells| && 1 <= col <= |sheet.cells[row - 1]| then sheet.cells[row - 1][col - 1] else ""
  }

  /** The sheet column of the cell for column `ci` in locale `li` (both from 0), with
      `locales` locales per column. */
  function CellColumn(ci: nat, li: nat, locales: nat): nat
  {
    ci * locales + li + 2
  }

  /** Whether the cell of column `ci` in locale `li` of a row is filled in. */
  predicate Filled(sheet: Sheet, row: int, locales: nat, ci: nat, li: nat)
  {
    !Blank(Cell(sheet, row, CellColumn(ci, li, locales)))
  }

  /** A row is valid when, for each of its first `columns` checked columns and each
      locale, the cell is filled in. */
  predicate RowValid(sheet: Sheet, row: int, columns: nat, locales: nat)
  {
    forall ci: nat, li: nat :: ci < columns && li < locales ==> Filled(sheet, row, locales, ci, li)
  }

  /** Which checked column and locale (both from 0) sheet column `col` holds: the
      inverse of `CellColumn`. */
  function CellOf(col: nat, locales: nat): (nat, nat)
    requires 2 <= col && locales > 0
  {
    ((col - 2) / locales, (col - 2) % locales)
  }

  /** `CellColumn` and `CellOf` undo each other: every sheet column from 2 on holds
      exactly one (column, locale) cell, and no two cells share a sheet column. */
  lemma CellColumnRoundTrip(ci: nat, li: nat, col: nat, locales: nat)
    requires locales > 0
    ensures li < locales ==> CellOf(CellColumn(ci, li, locales), locales) == (ci, li)
    ensures 2 <= col ==> var (c, l) := CellOf(col, locales); l < locales && CellColumn(c, l, locales) == col
  {
    if li < locales {
      var (c, l) := CellOf(CellColumn(ci, li, locales), locales);
      assert c * locales + l == ci * locales + li;
      if c < ci {
        MulBelow(c, ci, l, locales);
      } else if ci < c {
        MulBelow(ci, c, li, locales);
      }
    }
  }

  /** The cells a row is checked at are the sheet columns 2 to `columns * locales + 1`:
      the key column 1 is never checked, and every column of that span is. */
  lemma {:induction false} CellColumns(columns: nat, locales: nat)
    requires locales > 0
    ensures forall ci: nat, li: nat :: ci < columns && li < locales ==>
      2 <= CellColumn(ci, li, locales) < columns * locales + 2
    ensures forall col: nat :: 2 <= col < columns * locales + 2 ==> CellOf(col, locales).0 < columns
  {
    forall ci: nat, li: nat | ci < columns && li < locales
      ensures CellColumn(ci, li, locales) < columns * locales + 2
    {
      MulBelow(ci, columns, li, locales);
    }
    forall col: nat | 2 <= col < columns * locales + 2
      ensures CellOf(col, locales).0 < columns
    {
      var (c, l) := CellOf(col, locales);
      CellColumnRoundTrip(0, 0, col, locales);
      if c >= columns {
        MulMono(columns, c, locales);
      }
    }
  }

  /** `ci * n + li < cj * n` when `ci < cj` and `li < n`. */
  lemma MulBelow(ci: nat, cj: nat, li: nat, n: nat)
    requires ci < cj && li < n
    ensures ci * n + li < cj * n
  {
    MulMono(ci + 1, cj, n);
  }

  /** Multiplication by a natural number keeps the order. */
  lemma {:induction false} MulMono(a: nat, b: nat, n: nat)
    requires a <= b
    ensures a * n <= b * n
    decreases b - a
  {
    if a < b {
      MulMono(a + 1, b, n);
    }
  }

  /** The same rule stated on sheet columns: a row is valid exactly when every cell
      from column 2 to column `columns * locales + 1` is filled in. */
  lemma RowValidSpan(sheet: Sheet, row: int, columns: nat, locales: nat)
    requires locales > 0
    ensures RowValid(sheet, row, columns, locales) <==>
      forall c :: 2 <= c < columns * locales + 2 ==> !Blank(Cell(sheet, row, c))
  {
    CellColumns(columns, locales);
    if RowValid(sheet, row, columns, locales) {
      forall c: nat | 2 <= c < columns * locales + 2 ensures !Blank(Cell(sheet, row, c)) {
        var (ci, li) := CellOf(c, locales);
        CellColumnRoundTrip(ci, li, c, locales);
        assert Filled(sheet, row, locales, ci, li);
      }
    }
  }

  /** Checking fewer columns keeps every row that was valid. */
  lemma RowValidFewerColumns(sheet: Sheet, row: int, columns: nat, fewer: nat, locales: nat)
    requires fewer <= columns && RowValid(sheet, row, columns, locales)
    ensures RowValid(sheet, row, fewer, locales)
  {
  }

  // ---------------------------------------------------------------------------
  // The rows the scan visits and keeps
  // ---------------------------------------------------------------------------

  /** The last row the do-while loop processes when it starts at `row`: the first row
      from `row` on whose successor has a blank id. */
  function ScanEnd(sheet: Sheet, row: nat): (r: nat)
    ensures row <= r && Blank(Cell(sheet, r + 1, 1))
    ensures forall k :: row < k <= r ==> !Blank(Cell(sheet, k, 1))
    decreases |sheet.cells| - row
  {
    if Blank(Cell(sheet, row + 1, 1)) then row else ScanEnd(sheet, row + 1)
  }

  /** The valid rows from `from` to `to`, in sheet order. */
  function KeptRows(sheet: Sheet, columns: nat, locales: nat, from: nat, to: int): seq<nat>
    decreases to - from
  {
    if to < from then []
    else KeptRows(sheet, columns, locales, from, to - 1) + (if RowValid(sheet, to, columns, locales) then [to] else [])
  }

  /** The ids of the valid rows from `from` to `to`, in sheet order. */
  function KeptIds(sheet: Sheet, columns: nat, locales: nat, from: nat, to: int): seq<string>
    decreases to - from
  {
    if to < from then []
    else KeptIds(sheet, columns, locales, from, to - 1) + (if RowValid(sheet, to, columns, locales) then [Cell(sheet, to, 1)] else [])
  }

  /** The kept rows are exactly the valid rows of the range, strictly ascending, so
      there are no more of them than rows in the range. */
  lemma {:induction false} KeptRowsSpec(sheet: Sheet, columns: nat, locales: nat, from: nat, to: int)
    decreases to - from
    ensures var rows := KeptRows(sheet, columns, locales, from, to);
      && (forall i :: 0 <= i < |rows| ==> from <= rows[i] <= to && RowValid(sheet, rows[i], columns, locales))
      && (forall i, j :: 0 <= i < j < |rows| ==> rows[i] < rows[j])
      && (forall r: nat :: from <= r <= to && RowValid(sheet, r, columns, locales) ==> r in rows)
      && (to < from ==> rows == []) && (from <= to ==> |rows| <= to - from + 1)
  {
    if from <= to {
      KeptRowsSpec(sheet, columns, locales, from, to - 1);
      var front := KeptRows(sheet, columns, locales, from, to - 1);
      var rows := KeptRows(sheet, columns, locales, from, to);
      assert forall i :: 0 <= i < |front| ==> rows[i] == front[i];
    }
  }

  /** The kept ids are the ids of the kept rows, one for one and in the same order. */
  lemma {:induction false} KeptIdsOfRows(sheet: Sheet, columns: nat, locales: nat, from: nat, to: int)
    decreases to - from
    ensures var rows, ids := KeptRows(sheet, columns, locales, from, to), KeptIds(sheet, columns, locales, from, to);
      |ids| == |rows| && (forall i :: 0 <= i < |ids| ==> ids[i] == Cell(sheet, rows[i], 1))
  {
    if from <= to {
      KeptIdsOfRows(sheet, columns, locales, from, to - 1);
    }
  }

  /** Checking fewer columns keeps every row that was kept. */
  lemma KeptRowsFewerColumns(sheet: Sheet, columns: nat, fewer: nat, locales: nat, from: nat, to: int)
    requires fewer <= columns
    ensures forall r :: r in KeptRows(sheet, columns, locales, from, to) ==> r in KeptRows(sheet, fewer, locales, from, to)
  {
    KeptRowsSpec(sheet, columns, locales, from, to);
    KeptRowsSpec(sheet, fewer, locales, from, to);
    forall r | r in KeptRows(sheet, columns, locales, from, to)
      ensures r in KeptRows(sheet, fewer, locales, from, to)
    {
      RowValidFewerColumns(sheet, r, columns, fewer, locales);
    }
  }

  // ---------------------------------------------------------------------------
  // The loops of valid_products
  // ---------------------------------------------------------------------------

  /** The `@columns.each_with_index` / `@locales.each_with_index` loops for one row:
      `valid` ends false exactly when some checked cell is blank. */
  method CheckRow(sheet: Sheet, row: nat, columns: nat, locales: nat) returns (valid: bool)
    ensures valid == RowValid(sheet, row, columns, locales)
  {
    valid := true;
    for ci := 0 to columns
      invariant valid == forall c: nat, l: nat :: c < ci && l < locales ==> Filled(sheet, row, locales, c, l)
    {
      for li := 0 to locales
        invariant valid == ((forall c: nat, l: nat :: c < ci && l < locales ==> Filled(sheet, row, locales, c, l))
                            && forall l: nat :: l < li ==> Filled(sheet, row, locales, ci, l))
      {
        var colPos := ci * locales + li + 2;
        assert Filled(sheet, row, locales, ci, li) == !Blank(Cell(sheet, row, colPos));
        if Blank(Cell(sheet, row, colPos)) {
          valid := false;
        }
      }
    }
  }

  /** The do-while loop over the rows, from `start`: every processed row is checked
      and its id kept when it is valid; the loop stops after the first row whose
      successor has a blank id. */
  method ScanRows(sheet: Sheet, columns: nat, locales: nat, start: nat) returns (validArr: seq<string>)
    ensures validArr == KeptIds(sheet, columns, locales, start, ScanEnd(sheet, start))
  {
    var row := start;
    validArr := [];
    while true
      invariant start <= row <= ScanEnd(sheet, start) && ScanEnd(sheet, row) == ScanEnd(sheet, start)
      invariant validArr == KeptIds(sheet, columns, locales, start, row - 1)
      decreases ScanEnd(sheet, start) - row
    {
      var valid := CheckRow(sheet, row, columns, locales);
      if valid {
        validArr := validArr + [Cell(sheet, row, 1)];
      }
      row := row + 1;
      if Blank(Cell(sheet, row, 1)) {
        break;
      }
    }
  }

  /** The first index of `x` in `xs` (`Array#index`), or nil. */
  function IndexOf<T(==)>(xs: seq<T>, x: T): (r: Option<nat>)
    ensures r.None? <==> x !in xs
    ensures r.Some? ==> r.value < |xs| && xs[r.value] == x && x !in xs[..r.value]
  {
    if xs == [] then None
    else if xs[0] == x then Some(0)
    else match IndexOf(xs[1..], x)
      case None => None
      case Some(i) => Some(i + 1)
  }

  // ---------------------------------------------------------------------------
  // ProductSpreadsheet
  // ---------------------------------------------------------------------------

  /** The columns of a product row, key column first. */
  datatype Column = Sku | Name | Description

  class ProductSpreadsheet {
    const table: string := "products"
    const locales: seq<string> := ["en-US", "zh-TW", "zh-CN"]
    /** Data starts at row 1 on the sheets. */
    const initialOffset: nat := 1
    const columnHeadings: seq<string> := ["Product Barcode (SKU)", "Product Name", "Product Description"]
    const worksheetMap: seq<string> := ["instructions", "products", "taxonomies", "taxons", "shipping", "producers"]
    /** The columns still to check; the first is the key column. */
    var columns: seq<Column>

    /** `ProductSpreadsheet.new`, without the account settings it loads. */
    constructor()
      ensures columns == [Sku, Name, Description]
    {
      columns := [Sku, Name, Description];
    }

    /** The worksheet `valid_products` reads: the position of the table's name. */
    function WorksheetIndex(): (r: nat)
      ensures r < |worksheetMap| && worksheetMap[r] == table
    {
      var i := IndexOf(worksheetMap, table);
      assert worksheetMap[1] == table;
      i.value
    }

    /** `valid_products` on the spreadsheet's worksheets: takes the key column off
        `@columns` (for good: a second call checks one column fewer), then scans the
        products worksheet from the row after the initial offset. */
    method ValidProducts(worksheets: seq<Sheet>) returns (validArr: seq<string>)
      requires WorksheetIndex() < |worksheets|
      modifies this`columns
      ensures columns == if old(columns) == [] then [] else old(columns)[1..]
      ensures var sheet, start := worksheets[WorksheetIndex()], initialOffset + 1;
        validArr == KeptIds(sheet, |columns|, |locales|, start, ScanEnd(sheet, start))
    {
      var sheet := worksheets[WorksheetIndex()];
      var colKey: Option<Column> := None;
      if columns != [] {
        colKey := Some(columns[0]);
        columns := columns[1..];
      }
      validArr := ScanRows(sheet, |columns|, |locales|, initialOffset + 1);
    }
  }
}
