/** Matching the template's data rows to the rows of the input table: the
    rows that receive input values, the rows appended when the input is
    longer, the columns overwritten, and the rows deleted afterwards. */
module RowMatching {
  import opened Text
  import opened Sheets
  import opened ImageUrls

  const DataStartRow := 8
  const SkuColumn := 1

  /** One row of the input table, each value already passed through `str()`. */
  datatype InputRow = InputRow(sku: string, title: string, imageNumber: string, model: string)

  predicate Increasing(rows: seq<nat>) {
    forall a, b | 0 <= a < b < |rows| :: rows[a] < rows[b]
  }

  /** A template row that holds a product: row 8 or below, with a non-blank SKU. */
  predicate IsDataRow(g: Grid, r: int) {
    DataStartRow <= r <= g.MaxRow() && HasSku(g.Get(r, SkuColumn))
  }

  /** The data rows from row `r` down to the last row, in order. */
  function DataRowsFrom(g: Grid, r: nat): seq<nat>
    decreases g.MaxRow() + 1 - r
  {
    if r > g.MaxRow() then []
    else (if HasSku(g.Get(r, SkuColumn)) then [r] else []) + DataRowsFrom(g, r + 1)
  }

  /** `DataRowsFrom(g, r)` lists, in increasing order, exactly the data rows at `r` or below. */
  lemma {:induction false} DataRowsFromSpec(g: Grid, r: nat)
    requires DataStartRow <= r
    ensures Increasing(DataRowsFrom(g, r))
    ensures forall k | 0 <= k < |DataRowsFrom(g, r)| :: DataRowsFrom(g, r)[k] >= r
    ensures forall x :: x in DataRowsFrom(g, r) <==> r <= x && IsDataRow(g, x)
    decreases g.MaxRow() + 1 - r
  {
    if r <= g.MaxRow() {
      DataRowsFromSpec(g, r + 1);
      var tail := DataRowsFrom(g, r + 1);
      var head: seq<nat> := if HasSku(g.Get(r, SkuColumn)) then [r] else [];
      assert DataRowsFrom(g, r) == head + tail;
      PrependIncreasing(head, tail, r);
    }
  }

  /** Putting `r`, or nothing, in front of an increasing list of rows below
      `r` gives an increasing list of rows from `r` on. */
  lemma PrependIncreasing(head: seq<nat>, tail: seq<nat>, r: nat)
    requires head == [] || head == [r]
    requires Increasing(tail) && forall k | 0 <= k < |tail| :: tail[k] > r
    ensures Increasing(head + tail)
    ensures forall k | 0 <= k < |head + tail| :: (head + tail)[k] >= r
    ensures forall x :: x in head + tail <==> x in head || x in tail
  {
    forall a, b | 0 <= a < b < |head + tail| ensures (head + tail)[a] < (head + tail)[b] {
      if a < |head| {
        assert (head + tail)[b] == tail[b - |head|];
      }
    }
  }

  /** The rows `valid_rows` collects: every data row, in increasing order. */
  method CollectDataRows(ws: Sheet) returns (rows: seq<nat>)
    ensures rows == DataRowsFrom(ws.grid, DataStartRow)
  {
    var g := ws.grid;
    rows := [];
    var r := DataStartRow;
    while r <= g.MaxRow()
      invariant DataStartRow <= r
      invariant rows + DataRowsFrom(g, r) == DataRowsFrom(g, DataStartRow)
      decreases g.MaxRow() + 1 - r
    {
      var has := HasSku(g.Get(r, SkuColumn));
      CollectStep(g, rows, r);
      if has {
        rows := rows + [r];
      }
      r := r + 1;
    }
  }

  /** Visiting row `r` moves it, when it holds a SKU, from the rows still to
      be found to the rows collected. */
  lemma CollectStep(g: Grid, rows: seq<nat>, r: nat)
    requires r <= g.MaxRow()
    ensures (if HasSku(g.Get(r, SkuColumn)) then rows + [r] else rows) + DataRowsFrom(g, r + 1) == rows + DataRowsFrom(g, r)
  {
    var head: seq<nat> := if HasSku(g.Get(r, SkuColumn)) then [r] else [];
    assert DataRowsFrom(g, r) == head + DataRowsFrom(g, r + 1);
    assert rows + head + DataRowsFrom(g, r + 1) == rows + (head + DataRowsFrom(g, r + 1));
  }

  /** The row new rows are copied from: the last data row, or row 8 when there is none. */
  function CopySource(rows: seq<nat>): nat {
    if rows == [] then DataStartRow else rows[|rows| - 1]
  }

  /** The row numbers of `count` rows added below row `top`. */
  function NewRowNumbers(top: nat, count: nat): (rs: seq<nat>)
    ensures |rs| == count && forall k | 0 <= k < count :: rs[k] == top + 1 + k
  {
    seq(count, k => top + 1 + k)
  }

  /** How many rows the append step adds: M - N when the input is longer. */
  function Extra(rows: seq<nat>, inputCount: nat): nat {
    if inputCount > |rows| then inputCount - |rows| else 0
  }

  /** Columns `1..k` of row `dst` written one at a time, each from the cell of
      row `src` in the same column as it reads just before the write. */
  function CopyCells(g: Grid, src: int, dst: nat, k: nat): (h: Grid)
    requires g.Valid() && dst >= 1
    ensures h.Valid()
    ensures h.MaxRow() == if k > 0 && dst > g.MaxRow() then dst else g.MaxRow()
    ensures h.Cols() == if k > g.Cols() then k else g.Cols()
    decreases k
  {
    if k == 0 then g
    else
      var h := CopyCells(g, src, dst, k - 1);
      h.Set(dst, k, h.Get(src, k))
  }

  /** Copying cell by cell gives row `dst` the first `k` cells of row `src`
      and leaves every other cell alone, even when `src` is `dst` itself. */
  lemma {:induction false} CopyCellsSpec(g: Grid, src: int, dst: nat, k: nat)
    requires g.Valid() && dst >= 1
    ensures forall c | 1 <= c <= k :: CopyCells(g, src, dst, k).Get(dst, c) == g.Get(src, c)
    ensures forall r, c | r != dst || c < 1 || c > k :: CopyCells(g, src, dst, k).Get(r, c) == g.Get(r, c)
    decreases k
  {
    if k > 0 {
      CopyCellsSpec(g, src, dst, k - 1);
    }
  }

  /** Copies the cells of row `src` into row `dst`, column by column, over
      columns `1..max_column`. */
  method CopyRow(ws: Sheet, src: int, dst: nat)
    requires ws.grid.Valid() && dst >= 1
    modifies ws
    ensures ws.grid == CopyCells(old(ws.grid), src, dst, old(ws.grid).Cols())
  {
    ghost var g := ws.grid;
    var width := ws.grid.Cols();
    var col := 1;
    while col <= width
      invariant 1 <= col <= width + 1
      invariant ws.grid == CopyCells(g, src, dst, col - 1)
    {
      var v := ws.grid.Get(src, col);
      ws.SetCell(dst, col, v);
      col := col + 1;
    }
  }

  /** Adds one row below the last, copying the cells of row `last`. */
  method AppendCopyOf(ws: Sheet, last: nat)
    requires ws.grid.Valid()
    modifies ws
    ensures ws.grid == CopyCells(old(ws.grid), last, old(ws.grid).NextRow(), old(ws.grid).Cols())
  {
    CopyRow(ws, last, ws.grid.NextRow());
  }

  /** The row the `j`-th added row is copied from: the last recorded row (or
      row 8) for the first, then each time the row added just before. */
  function AppendSource(rows: seq<nat>, top: nat, j: nat): nat {
    if j == 0 then CopySource(rows) else top + j
  }

  /** The sheet once the append step has added `n` rows. */
  function AppendPass(g: Grid, rows: seq<nat>, n: nat): (h: Grid)
    requires g.Valid()
    ensures h.Valid() && h.Cols() == g.Cols() && h.MaxRow() == g.MaxRow() + n
    decreases n
  {
    if n == 0 then g
    else
      var h := AppendPass(g, rows, n - 1);
      CopyCells(h, AppendSource(rows, g.MaxRow(), n - 1), h.NextRow(), h.Cols())
  }

  /** Appending keeps every existing cell, and each added row repeats the
      cells of the copy source in columns `1..max_column`. */
  lemma {:induction false} AppendPassCells(g: Grid, rows: seq<nat>, n: nat)
    requires g.Valid()
    ensures forall r, c | r <= g.MaxRow() :: AppendPass(g, rows, n).Get(r, c) == g.Get(r, c)
    ensures forall r, c | g.MaxRow() < r <= g.MaxRow() + n && 1 <= c <= g.Cols() :: AppendPass(g, rows, n).Get(r, c) == g.Get(CopySource(rows), c)
    decreases n
  {
    if n > 0 {
      AppendPassCells(g, rows, n - 1);
      var h := AppendPass(g, rows, n - 1);
      var src := AppendSource(rows, g.MaxRow(), n - 1);
      CopyCellsSpec(h, src, h.NextRow(), h.Cols());
      forall c | 1 <= c <= g.Cols() ensures h.Get(src, c) == g.Get(CopySource(rows), c) {
        if n - 1 > 0 {
        }
      }
    }
  }

  /** After the append step the rows in use number max(N, M), for N data rows
      and M input rows; they stay increasing and inside the sheet. */
  lemma {:induction false} AppendedRowsInUse(g: Grid, rows: seq<nat>, inputCount: nat)
    requires Increasing(rows) && forall k | 0 <= k < |rows| :: rows[k] <= g.MaxRow()
    ensures var all := rows + NewRowNumbers(g.MaxRow(), Extra(rows, inputCount));
      && |all| == (if inputCount > |rows| then inputCount else |rows|)
      && Increasing(all)
      && forall k | 0 <= k < |all| :: all[k] <= g.MaxRow() + Extra(rows, inputCount)
  {
    var all := rows + NewRowNumbers(g.MaxRow(), Extra(rows, inputCount));
    forall a, b | 0 <= a < b < |all| ensures all[a] < all[b] {
      if b < |rows| {
      } else if a < |rows| {
        assert all[a] == rows[a] && all[b] == g.MaxRow() + 1 + (b - |rows|);
      } else {
        assert all[a] == g.MaxRow() + 1 + (a - |rows|) && all[b] == g.MaxRow() + 1 + (b - |rows|);
      }
    }
  }

  /** The append step: while the input is longer than the list of rows, a row
      is added below the last one, copied from the last row of the list, and
      its number joins the list. */
  method AppendCopies(ws: Sheet, rows: seq<nat>, inputCount: nat) returns (all: seq<nat>)
    requires ws.grid.Valid()
    modifies ws
    ensures ws.grid == AppendPass(old(ws.grid), rows, Extra(rows, inputCount))
    ensures all == rows + NewRowNumbers(old(ws.grid).MaxRow(), Extra(rows, inputCount))
  {
    ghost var g := ws.grid;
    var extra := Extra(rows, inputCount);
    all := rows;
    var i := 0;
    while i < extra
      invariant 0 <= i <= extra
      invariant ws.grid == AppendPass(g, rows, i)
      invariant all == rows + NewRowNumbers(g.MaxRow(), i)
    {
      all := AppendOne(ws, rows, g, i, all);
      i := i + 1;
    }
  }

  /** One turn of the append loop: a copy of the last row of the list goes
      below the last row of the sheet, and its number joins the list. */
  method AppendOne(ws: Sheet, rows: seq<nat>, ghost g: Grid, i: nat, all: seq<nat>) returns (all': seq<nat>)
    requires g.Valid() && ws.grid == AppendPass(g, rows, i) && all == rows + NewRowNumbers(g.MaxRow(), i)
    modifies ws
    ensures ws.grid == AppendPass(g, rows, i + 1)
    ensures all' == rows + NewRowNumbers(g.MaxRow(), i + 1)
  {
    var last := if all == [] then DataStartRow else all[|all| - 1];
    LastIsSource(rows, g.MaxRow(), i, all);
    AppendPassStep(g, rows, i);
    var newRow: nat := ws.grid.MaxRow() + 1;
    AppendCopyOf(ws, last);
    ListStep(rows, g.MaxRow(), i, all);
    all' := all + [newRow];
  }

  /** The last row of the list after `i` added rows is the source of the next copy. */
  lemma LastIsSource(rows: seq<nat>, top: nat, i: nat, all: seq<nat>)
    requires all == rows + NewRowNumbers(top, i)
    ensures (if all == [] then DataStartRow else all[|all| - 1]) == AppendSource(rows, top, i)
  {
  }

  /** One more appended row is a copy of the next source row below the last row. */
  lemma AppendPassStep(g: Grid, rows: seq<nat>, i: nat)
    requires g.Valid()
    ensures AppendPass(g, rows, i + 1) ==
              CopyCells(AppendPass(g, rows, i), AppendSource(rows, g.MaxRow(), i), AppendPass(g, rows, i).NextRow(), AppendPass(g, rows, i).Cols())
  {
  }

  /** The list after `i` added rows, with the next added row number, is the list after `i + 1`. */
  lemma ListStep(rows: seq<nat>, top: nat, i: nat, all: seq<nat>)
    requires all == rows + NewRowNumbers(top, i)
    ensures all + [top + i + 1] == rows + NewRowNumbers(top, i + 1)
  {
    assert NewRowNumbers(top, i) + [top + i + 1] == NewRowNumbers(top, i + 1);
  }

  function Min(a: nat, b: nat): nat {
    if a < b then a else b
  }

  /** Every row number of the list lies inside the sheet. */
  predicate InSheet(g: Grid, rows: seq<nat>) {
    forall k | 0 <= k < |rows| :: 1 <= rows[k] <= g.MaxRow()
  }

  /** In an increasing list the row at position `n` is new, and the prefix
      grows by exactly that row. */
  lemma PrefixStep(rows: seq<nat>, n: nat)
    requires Increasing(rows) && n < |rows|
    ensures rows[n] !in rows[..n]
    ensures rows[..n + 1] == rows[..n] + [rows[n]]
  {
    assert forall t | 0 <= t < n :: rows[..n][t] == rows[t];
  }

  /** Where row `r` first occurs in `rows`, or `|rows|` when it does not. */
  function Position(rows: seq<nat>, r: nat): (p: nat)
    ensures p <= |rows| && (p < |rows| ==> rows[p] == r)
    ensures forall t | 0 <= t < p :: rows[t] != r
  {
    if rows == [] then 0
    else if rows[0] == r then 0
    else 1 + Position(rows[1..], r)
  }

  // Step 1: SKU and product name.

  /** Step 1 on one row: the new SKU into column 1, then the new title into the name column. */
  function SkuNameRow(g: Grid, r: nat, row: InputRow, nameCol: nat): (h: Grid)
    requires g.Valid() && r >= 1 && nameCol >= 1
    ensures h.Valid()
  {
    g.Set(r, SkuColumn, Text(row.sku)).Set(r, nameCol, Text(row.title))
  }

  /** Step 1 on one row changes two cells of that row; the title wins when
      the name column is column 1. */
  lemma SkuNameRowCells(g: Grid, r: nat, row: InputRow, nameCol: nat)
    requires g.Valid() && 1 <= r <= g.MaxRow() && nameCol >= 1
    ensures SkuNameRow(g, r, row, nameCol).MaxRow() == g.MaxRow()
    ensures SkuNameRow(g, r, row, nameCol).Cols() == if nameCol > g.Cols() then nameCol else g.Cols()
    ensures forall r', c :: SkuNameRow(g, r, row, nameCol).Get(r', c) ==
              (if r' == r && c == nameCol then Text(row.title) else if r' == r && c == SkuColumn then Text(row.sku) else g.Get(r', c))
  {
  }

  /** The sheet once step 1 has visited the first `i` recorded rows; the row
      at position `k` takes input row `k`, rows past the input are skipped. */
  function SkuNamePass(g: Grid, rows: seq<nat>, input: seq<InputRow>, nameCol: nat, i: nat): (h: Grid)
    requires g.Valid() && nameCol >= 1 && i <= |rows| && forall k | 0 <= k < |rows| :: rows[k] >= 1
    ensures h.Valid()
    decreases i
  {
    if i == 0 then g
    else
      var h := SkuNamePass(g, rows, input, nameCol, i - 1);
      if i - 1 < |input| then SkuNameRow(h, rows[i - 1], input[i - 1], nameCol) else h
  }

  /** After step 1 the row at position `k < min(i, M)` holds the SKU and the
      title of input row `k` (the title wins when the name column is column 1),
      and every other cell is as before. */
  lemma SkuNamePassCells(g: Grid, rows: seq<nat>, input: seq<InputRow>, nameCol: nat, i: nat)
    requires g.Valid() && nameCol >= 1 && i <= |rows| && Increasing(rows) && InSheet(g, rows)
    ensures SkuNamePass(g, rows, input, nameCol, i).MaxRow() == g.MaxRow()
    ensures SkuNamePass(g, rows, input, nameCol, i).Cols() == if Min(i, |input|) > 0 && nameCol > g.Cols() then nameCol else g.Cols()
    ensures forall k, c {:trigger SkuNamePass(g, rows, input, nameCol, i).Get(rows[k], c)} | 0 <= k < Min(i, |input|) :: SkuNamePass(g, rows, input, nameCol, i).Get(rows[k], c) ==
              (if c == nameCol then Text(input[k].title) else if c == SkuColumn then Text(input[k].sku) else g.Get(rows[k], c))
    ensures forall r, c | r !in rows[..Min(i, |input|)] :: SkuNamePass(g, rows, input, nameCol, i).Get(r, c) == g.Get(r, c)
  {
    SkuNamePassNamed(g, rows, input, nameCol, i);
  }

  /** The first `n` recorded rows of `h` hold the SKU and title of their
      input rows, and every other row of `h` is as in `g`. */
  ghost predicate NamedRows(g: Grid, h: Grid, rows: seq<nat>, input: seq<InputRow>, nameCol: nat, n: nat) {
    && n <= |rows| && n <= |input|
    && (forall k, c {:trigger h.Get(rows[k], c)} | 0 <= k < n :: h.Get(rows[k], c) ==
          (if c == nameCol then Text(input[k].title) else if c == SkuColumn then Text(input[k].sku) else g.Get(rows[k], c)))
    && (forall r, c | r !in rows[..n] :: h.Get(r, c) == g.Get(r, c))
  }

  lemma {:induction false} SkuNamePassNamed(g: Grid, rows: seq<nat>, input: seq<InputRow>, nameCol: nat, i: nat)
    requires g.Valid() && nameCol >= 1 && i <= |rows| && Increasing(rows) && InSheet(g, rows)
    ensures SkuNamePass(g, rows, input, nameCol, i).MaxRow() == g.MaxRow()
    ensures SkuNamePass(g, rows, input, nameCol, i).Cols() == if Min(i, |input|) > 0 && nameCol > g.Cols() then nameCol else g.Cols()
    ensures NamedRows(g, SkuNamePass(g, rows, input, nameCol, i), rows, input, nameCol, Min(i, |input|))
    decreases i
  {
    if i > 0 {
      SkuNamePassNamed(g, rows, input, nameCol, i - 1);
      if i - 1 < |input| {
        var h := SkuNamePass(g, rows, input, nameCol, i - 1);
        assert Min(i - 1, |input|) == i - 1 && Min(i, |input|) == i;
        NamedStep(g, h, rows, input, nameCol, i - 1);
      } else {
        assert Min(i, |input|) == Min(i - 1, |input|);
      }
    }
  }

  /** Step 1 on the next recorded row extends `NamedRows` by one row. */
  lemma NamedStep(g: Grid, h: Grid, rows: seq<nat>, input: seq<InputRow>, nameCol: nat, n: nat)
    requires h.Valid() && nameCol >= 1 && n < |rows| && n < |input| && Increasing(rows)
    requires 1 <= rows[n] <= h.MaxRow()
    requires NamedRows(g, h, rows, input, nameCol, n)
    ensures NamedRows(g, SkuNameRow(h, rows[n], input[n], nameCol), rows, input, nameCol, n + 1)
  {
    var r := rows[n];
    SkuNameRowCells(h, r, input[n], nameCol);
    PrefixStep(rows, n);
    forall k | 0 <= k < n ensures rows[k] != r {
      assert rows[k] < r;
    }
  }

  /** Step 1 on one row. */
  method WriteSkuAndName(ws: Sheet, r: nat, row: InputRow, nameCol: nat)
    requires ws.grid.Valid() && r >= 1 && nameCol >= 1
    modifies ws
    ensures ws.grid == SkuNameRow(old(ws.grid), r, row, nameCol)
  {
    ws.SetCell(r, SkuColumn, Text(row.sku));
    ws.SetCell(r, nameCol, Text(row.title));
  }

  /** Step 1: each recorded row with a matching input row gets its SKU and
      title; those rows are the ones kept. */
  method OverwriteSkuAndName(ws: Sheet, rows: seq<nat>, input: seq<InputRow>, nameCol: nat) returns (keep: set<nat>)
    requires ws.grid.Valid() && nameCol >= 1 && forall k | 0 <= k < |rows| :: rows[k] >= 1
    modifies ws
    ensures ws.grid == SkuNamePass(old(ws.grid), rows, input, nameCol, |rows|)
    ensures forall r :: r in keep <==> r in rows[..Min(|rows|, |input|)]
  {
    ghost var g := ws.grid;
    keep := {};
    var i := 0;
    while i < |rows|
      invariant 0 <= i <= |rows|
      invariant ws.grid == SkuNamePass(g, rows, input, nameCol, i)
      invariant forall r :: r in keep <==> r in rows[..Min(i, |input|)]
    {
      keep := OverwriteOne(ws, rows, input, nameCol, g, i, keep);
      i := i + 1;
    }
  }

  /** One turn of step 1: the row at position `i`, when it has an input row. */
  method OverwriteOne(ws: Sheet, rows: seq<nat>, input: seq<InputRow>, nameCol: nat, ghost g: Grid, i: nat, keep: set<nat>)
    returns (keep': set<nat>)
    requires g.Valid() && nameCol >= 1 && i < |rows| && forall k | 0 <= k < |rows| :: rows[k] >= 1
    requires ws.grid == SkuNamePass(g, rows, input, nameCol, i)
    requires forall r :: r in keep <==> r in rows[..Min(i, |input|)]
    modifies ws
    ensures ws.grid == SkuNamePass(g, rows, input, nameCol, i + 1)
    ensures forall r :: r in keep' <==> r in rows[..Min(i + 1, |input|)]
  {
    SkuNamePassStep(g, rows, input, nameCol, i);
    KeptStep(keep, rows, i, |input|);
    keep' := keep;
    if i < |input| {
      WriteSkuAndName(ws, rows[i], input[i], nameCol);
      keep' := keep + {rows[i]};
    }
  }

  lemma SkuNamePassStep(g: Grid, rows: seq<nat>, input: seq<InputRow>, nameCol: nat, i: nat)
    requires g.Valid() && nameCol >= 1 && i < |rows| && forall k | 0 <= k < |rows| :: rows[k] >= 1
    ensures SkuNamePass(g, rows, input, nameCol, i + 1) ==
              if i < |input| then SkuNameRow(SkuNamePass(g, rows, input, nameCol, i), rows[i], input[i], nameCol)
              else SkuNamePass(g, rows, input, nameCol, i)
  {
  }

  /** Visiting position `i` adds its row to the kept rows exactly when it has an input row. */
  lemma KeptStep(keep: set<nat>, rows: seq<nat>, i: nat, m: nat)
    requires i < |rows| && forall r :: r in keep <==> r in rows[..Min(i, m)]
    ensures i < m ==> forall r :: r in keep + {rows[i]} <==> r in rows[..Min(i + 1, m)]
    ensures i >= m ==> forall r :: r in keep <==> r in rows[..Min(i + 1, m)]
  {
    if i < m {
      assert rows[..i + 1] == rows[..i] + [rows[i]];
    } else {
      assert Min(i + 1, m) == Min(i, m);
    }
  }

  // Step 2: image links.

  /** How step 2 builds a link from the row-8 cell of its column, the new
      SKU and the position `k` of the column in the block of seven. */
  type LinkBuilder = (Cell, string, nat) -> Cell

  /** The link step 2 writes: the URL rebuilt from the template cell. */
  function RebuiltLink(template: Cell, sku: string, k: nat): Cell {
    Text(ImageUrl(template, sku, k))
  }

  /** The first `k` links of row `r`, written in turn into columns
      `first, first + 1, ...`; each is built from the cell of row 8 in its
      column, read just before the write. */
  function LinkCells(g: Grid, r: nat, sku: string, first: nat, k: nat, link: LinkBuilder): (h: Grid)
    requires g.Valid() && r >= 1 && first >= 1
    ensures h.Valid() && h.MaxRow() == if k > 0 && r > g.MaxRow() then r else g.MaxRow()
    ensures h.Cols() == if k > 0 && first + k - 1 > g.Cols() then first + k - 1 else g.Cols()
    decreases k
  {
    if k == 0 then g
    else
      var h := LinkCells(g, r, sku, first, k - 1, link);
      h.Set(r, first + k - 1, link(h.Get(DataStartRow, first + k - 1), sku, k - 1))
  }

  /** Within one row the links land in distinct columns, so each is built
      from the row-8 cell as it was before the row was visited; nothing else
      changes. */
  lemma {:induction false} LinkCellsSpec(g: Grid, r: nat, sku: string, first: nat, k: nat, link: LinkBuilder)
    requires g.Valid() && r >= 1 && first >= 1
    ensures forall c | first <= c < first + k :: LinkCells(g, r, sku, first, k, link).Get(r, c) == link(g.Get(DataStartRow, c), sku, c - first)
    ensures forall r', c | r' != r || c < first || c >= first + k :: LinkCells(g, r, sku, first, k, link).Get(r', c) == g.Get(r', c)
    decreases k
  {
    if k > 0 {
      LinkCellsSpec(g, r, sku, first, k - 1, link);
    }
  }

  /** Step 2 on one row: its links, in column order (the merge step passes
      `RebuiltLink` as `link`). */
  method WriteRowLinks(ws: Sheet, r: nat, sku: string, first: nat, count: nat, link: LinkBuilder)
    requires ws.grid.Valid() && r >= 1 && first >= 1
    modifies ws
    ensures ws.grid == LinkCells(old(ws.grid), r, sku, first, count, link)
  {
    ghost var g := ws.grid;
    var k := 0;
    while k < count
      invariant 0 <= k <= count
      invariant ws.grid == LinkCells(g, r, sku, first, k, link)
    {
      LinkCellsStep(g, r, sku, first, k, link);
      var template := ws.grid.Get(DataStartRow, first + k);
      ws.SetCell(r, first + k, link(template, sku, k));
      k := k + 1;
    }
  }

  lemma LinkCellsStep(g: Grid, r: nat, sku: string, first: nat, k: nat, link: LinkBuilder)
    requires g.Valid() && r >= 1 && first >= 1
    ensures LinkCells(g, r, sku, first, k + 1, link) ==
              LinkCells(g, r, sku, first, k, link).Set(r, first + k, link(LinkCells(g, r, sku, first, k, link).Get(DataStartRow, first + k), sku, k))
  {
  }

  /** The sheet once step 2 has visited the first `i` recorded rows. */
  function LinkPass(g: Grid, rows: seq<nat>, input: seq<InputRow>, first: nat, count: nat, i: nat, link: LinkBuilder): (h: Grid)
    requires g.Valid() && first >= 1 && i <= |rows| && forall k | 0 <= k < |rows| :: rows[k] >= 1
    ensures h.Valid()
    decreases i
  {
    if i == 0 then g
    else
      var h := LinkPass(g, rows, input, first, count, i - 1, link);
      if i - 1 < |input| then LinkCells(h, rows[i - 1], input[i - 1].sku, first, count, link) else h
  }

  /** The row-8 cell of column `c` as step 2 reads it for the row at
      position `k`: once row 8 itself has been visited, the link just
      written there for its own SKU. */
  function TemplateSeen(g: Grid, rows: seq<nat>, input: seq<InputRow>, first: nat, k: nat, c: int, link: LinkBuilder): Cell
    requires first <= c
  {
    var t := Position(rows, DataStartRow);
    if t < Min(k, |input|) then link(g.Get(DataStartRow, c), input[t].sku, c - first)
    else g.Get(DataStartRow, c)
  }

  /** After step 2 link column `c` of the row at position `k < min(i, M)` is
      built for input row `k` from the row-8 cell as it stood then; no other
      cell changes. */
  lemma {:induction false} LinkPassCells(g: Grid, rows: seq<nat>, input: seq<InputRow>, first: nat, count: nat, i: nat, link: LinkBuilder)
    requires g.Valid() && first >= 1 && i <= |rows| && Increasing(rows)
    requires forall k | 0 <= k < |rows| :: rows[k] >= 1
    ensures forall k, c | 0 <= k < Min(i, |input|) && first <= c < first + count ::
              LinkPass(g, rows, input, first, count, i, link).Get(rows[k], c) == link(TemplateSeen(g, rows, input, first, k, c, link), input[k].sku, c - first)
    ensures forall r, c | r !in rows[..Min(i, |input|)] || c < first || c >= first + count ::
              LinkPass(g, rows, input, first, count, i, link).Get(r, c) == g.Get(r, c)
  {
    LinkPassLinked(g, rows, input, first, count, i, link);
  }

  /** The first `n` recorded rows of `h` carry the links step 2 writes for
      them; every other cell is that of `g`. */
  ghost predicate LinkedRows(g: Grid, h: Grid, rows: seq<nat>, input: seq<InputRow>, first: nat, count: nat, n: nat, link: LinkBuilder) {
    && n <= |rows| && n <= |input|
    && (forall k, c {:trigger h.Get(rows[k], c)} | 0 <= k < n && first <= c < first + count ::
          h.Get(rows[k], c) == link(TemplateSeen(g, rows, input, first, k, c, link), input[k].sku, c - first))
    && (forall r, c | r !in rows[..n] || c < first || c >= first + count :: h.Get(r, c) == g.Get(r, c))
  }

  lemma {:induction false} LinkPassLinked(g: Grid, rows: seq<nat>, input: seq<InputRow>, first: nat, count: nat, i: nat, link: LinkBuilder)
    requires g.Valid() && first >= 1 && i <= |rows| && Increasing(rows)
    requires forall k | 0 <= k < |rows| :: rows[k] >= 1
    ensures LinkedRows(g, LinkPass(g, rows, input, first, count, i, link), rows, input, first, count, Min(i, |input|), link)
    decreases i
  {
    if i > 0 {
      var n := i - 1;
      LinkPassLinked(g, rows, input, first, count, n, link);
      LinkPassStep(g, rows, input, first, count, n, link);
      if n < |input| {
        LinkStep(g, LinkPass(g, rows, input, first, count, n, link), rows, input, first, count, n, link);
        assert Min(n + 1, |input|) == n + 1;
      } else {
        assert Min(n + 1, |input|) == Min(n, |input|);
      }
    }
  }

  lemma LinkPassStep(g: Grid, rows: seq<nat>, input: seq<InputRow>, first: nat, count: nat, i: nat, link: LinkBuilder)
    requires g.Valid() && first >= 1 && i < |rows| && forall k | 0 <= k < |rows| :: rows[k] >= 1
    ensures LinkPass(g, rows, input, first, count, i + 1, link) ==
              if i < |input| then LinkCells(LinkPass(g, rows, input, first, count, i, link), rows[i], input[i].sku, first, count, link)
              else LinkPass(g, rows, input, first, count, i, link)
  {
  }

  /** Writing the links of the next recorded row extends `LinkedRows` by one row. */
  lemma LinkStep(g: Grid, h: Grid, rows: seq<nat>, input: seq<InputRow>, first: nat, count: nat, n: nat, link: LinkBuilder)
    requires h.Valid() && first >= 1 && n < |rows| && n < |input| && Increasing(rows)
    requires forall k | 0 <= k < |rows| :: rows[k] >= 1
    requires LinkedRows(g, h, rows, input, first, count, n, link)
    ensures LinkedRows(g, LinkCells(h, rows[n], input[n].sku, first, count, link), rows, input, first, count, n + 1, link)
  {
    var r := rows[n];
    LinkCellsSpec(h, r, input[n].sku, first, count, link);
    PrefixStep(rows, n);
    forall k | 0 <= k < n ensures rows[k] != r {
      assert rows[k] < r;
    }
    TemplateBeforeRow(g, h, rows, input, first, count, n, link);
  }

  /** Before the row at position `n` is visited, row 8 of a link column reads
      as `TemplateSeen` says. */
  lemma TemplateBeforeRow(g: Grid, h: Grid, rows: seq<nat>, input: seq<InputRow>, first: nat, count: nat, n: nat, link: LinkBuilder)
    requires n < |rows| && n < |input|
    requires LinkedRows(g, h, rows, input, first, count, n, link)
    ensures forall c | first <= c < first + count :: h.Get(DataStartRow, c) == TemplateSeen(g, rows, input, first, n, c, link)
  {
    var t := Position(rows, DataStartRow);
    if t < n {
      assert rows[..n][t] == DataStartRow;
    } else {
      assert DataStartRow !in rows[..n] by {
        assert forall j | 0 <= j < n :: rows[..n][j] == rows[j];
      }
    }
    forall c | first <= c < first + count
      ensures h.Get(DataStartRow, c) == TemplateSeen(g, rows, input, first, n, c, link)
    {
      if t < n {
        assert h.Get(rows[t], c) == link(TemplateSeen(g, rows, input, first, t, c, link), input[t].sku, c - first);
      }
    }
  }

  /** A SKU whose rebuilt link parses back to the same folder: non-empty,
      not starting with `.`, without a line break. */
  predicate PlainSku(sku: string) {
    sku != [] && sku[0] != '.' && '\n' !in sku
  }

  /** Rebuilding from a link that was itself built for `sku0` gives what
      building from the original would give. */
  ghost predicate KeepsTemplate(link: LinkBuilder, sku0: string) {
    forall t, s, j :: link(link(t, sku0, j), s, j) == link(t, s, j)
  }

  /** The URL rebuild keeps the template for a plain first SKU: non-empty,
      not starting with `.`, without a line break. */
  lemma {:induction false} RebuiltLinkKeepsTemplate(sku0: string)
    requires PlainSku(sku0)
    ensures KeepsTemplate(RebuiltLink, sku0)
  {
    forall t, s, j ensures RebuiltLink(RebuiltLink(t, sku0, j), s, j) == RebuiltLink(t, s, j) {
      RowEightRebuildKeepsFolder(t, sku0, s, j);
    }
  }

  /** When the builder keeps the template for the first SKU, re-reading row 8
      changes nothing: every link is built from the original row-8 cell. */
  lemma {:induction false} LinksFollowTemplate(g: Grid, rows: seq<nat>, input: seq<InputRow>, first: nat, count: nat, link: LinkBuilder)
    requires g.Valid() && first >= 1 && Increasing(rows)
    requires forall k | 0 <= k < |rows| :: rows[k] >= 1
    requires Position(rows, DataStartRow) < Min(|rows|, |input|) ==> KeepsTemplate(link, input[Position(rows, DataStartRow)].sku)
    ensures forall k, c | 0 <= k < Min(|rows|, |input|) && first <= c < first + count ::
              LinkPass(g, rows, input, first, count, |rows|, link).Get(rows[k], c) == link(g.Get(DataStartRow, c), input[k].sku, c - first)
  {
    LinkPassCells(g, rows, input, first, count, |rows|, link);
  }

  /** Step 2 as written: when the SKU written into row 8 is plain, every link
      of the row at position `k` is the URL rebuilt for input row `k` from
      the original row-8 link of its column, so it keeps that link's folder. */
  lemma {:induction false} RebuiltLinksFollowTemplate(g: Grid, rows: seq<nat>, input: seq<InputRow>, first: nat, count: nat)
    requires g.Valid() && first >= 1 && Increasing(rows)
    requires forall k | 0 <= k < |rows| :: rows[k] >= 1
    requires Position(rows, DataStartRow) < Min(|rows|, |input|) ==> PlainSku(input[Position(rows, DataStartRow)].sku)
    ensures forall k, c | 0 <= k < Min(|rows|, |input|) && first <= c < first + count ::
              LinkPass(g, rows, input, first, count, |rows|, RebuiltLink).Get(rows[k], c) == RebuiltLink(g.Get(DataStartRow, c), input[k].sku, c - first)
  {
    var t := Position(rows, DataStartRow);
    if t < Min(|rows|, |input|) {
      RebuiltLinkKeepsTemplate(input[t].sku);
    }
    LinksFollowTemplate(g, rows, input, first, count, RebuiltLink);
  }

  /** Step 2: the links of every recorded row with a matching input row. */
  method RebuildImageLinks(ws: Sheet, rows: seq<nat>, input: seq<InputRow>, first: nat, count: nat, link: LinkBuilder)
    requires ws.grid.Valid() && first >= 1 && forall k | 0 <= k < |rows| :: rows[k] >= 1
    modifies ws
    ensures ws.grid == LinkPass(old(ws.grid), rows, input, first, count, |rows|, link)
  {
    ghost var g := ws.grid;
    var i := 0;
    while i < |rows|
      invariant 0 <= i <= |rows|
      invariant ws.grid == LinkPass(g, rows, input, first, count, i, link)
    {
      LinkPassStep(g, rows, input, first, count, i, link);
      if i < |input| {
        WriteRowLinks(ws, rows[i], input[i].sku, first, count, link);
      }
      i := i + 1;
    }
  }

  // Steps 3 and 4: picture-number and model columns.

  /** A row that step 3 or 4 fills: it has a matching value and lies at row 8 or below. */
  predicate Fills(rows: seq<nat>, values: seq<string>, k: int) {
    0 <= k < |rows| && k < |values| && rows[k] >= DataStartRow
  }

  /** The sheet once step 3 (or 4) has visited the first `i` recorded rows:
      value `k` goes into every column of `cs` in the row at position `k`. */
  function FillPass(g: Grid, rows: seq<nat>, values: seq<string>, cs: seq<nat>, i: nat): (h: Grid)
    requires g.Valid() && i <= |rows| && forall k | 0 <= k < |rows| :: rows[k] >= 1
    requires forall j | 0 <= j < |cs| :: cs[j] >= 1
    ensures h.Valid()
    decreases i
  {
    if i == 0 then g
    else
      var h := FillPass(g, rows, values, cs, i - 1);
      if Fills(rows, values, i - 1) then SetCells(h, rows[i - 1], cs, Text(values[i - 1])) else h
  }

  /** After step 3 (or 4) every filled row holds its value in each column of
      `cs`; no other cell changes. */
  lemma {:induction false} FillPassCells(g: Grid, rows: seq<nat>, values: seq<string>, cs: seq<nat>, i: nat)
    requires g.Valid() && i <= |rows| && Increasing(rows) && InSheet(g, rows)
    requires forall j | 0 <= j < |cs| :: cs[j] >= 1
    ensures FillPass(g, rows, values, cs, i).MaxRow() == g.MaxRow()
    ensures FillPass(g, rows, values, cs, i).Cols() == if exists k | 0 <= k < i :: Fills(rows, values, k) then Widen(g.Cols(), cs) else g.Cols()
    ensures forall k, c {:trigger FillPass(g, rows, values, cs, i).Get(rows[k], c)} | 0 <= k < i :: FillPass(g, rows, values, cs, i).Get(rows[k], c) ==
              (if Fills(rows, values, k) && c in cs then Text(values[k]) else g.Get(rows[k], c))
    ensures forall r, c | r !in rows[..i] :: FillPass(g, rows, values, cs, i).Get(r, c) == g.Get(r, c)
    decreases i
  {
    if i > 0 {
      FillPassCells(g, rows, values, cs, i - 1);
      PrefixStep(rows, i - 1);
      var r := rows[i - 1];
      var h := FillPass(g, rows, values, cs, i - 1);
      forall k, c | 0 <= k < i
        ensures FillPass(g, rows, values, cs, i).Get(rows[k], c) == if Fills(rows, values, k) && c in cs then Text(values[k]) else g.Get(rows[k], c)
      {
        if k < i - 1 {
          assert rows[k] < r;
        }
      }
      if Fills(rows, values, i - 1) {
        WidenTwice(g.Cols(), cs);
      }
    }
  }

  /** Writing one value into each column of `cs` of row `r`, in order. */
  method FillRow(ws: Sheet, r: nat, cs: seq<nat>, v: Cell)
    requires ws.grid.Valid() && r >= 1 && forall j | 0 <= j < |cs| :: cs[j] >= 1
    modifies ws
    ensures ws.grid == SetCells(old(ws.grid), r, cs, v)
  {
    ghost var g := ws.grid;
    var j := 0;
    assert cs[..0] == [];
    while j < |cs|
      invariant 0 <= j <= |cs|
      invariant ws.grid == SetCells(g, r, cs[..j], v)
    {
      SetCellsStep(g, r, cs, j, v);
      ws.SetCell(r, cs[j], v);
      j := j + 1;
    }
    assert cs[..|cs|] == cs;
  }

  lemma SetCellsStep(g: Grid, r: nat, cs: seq<nat>, j: nat, v: Cell)
    requires g.Valid() && r >= 1 && j < |cs| && forall k | 0 <= k < |cs| :: cs[k] >= 1
    ensures SetCells(g, r, cs[..j + 1], v) == SetCells(g, r, cs[..j], v).Set(r, cs[j], v)
  {
    assert cs[..j + 1][..j] == cs[..j];
  }

  /** Steps 3 and 4: value `k` into the columns `cs` of the row at position `k`,
      for every recorded row at 8 or below that has a value. */
  method FillColumns(ws: Sheet, rows: seq<nat>, values: seq<string>, cs: seq<nat>)
    requires ws.grid.Valid() && forall k | 0 <= k < |rows| :: rows[k] >= 1
    requires forall j | 0 <= j < |cs| :: cs[j] >= 1
    modifies ws
    ensures ws.grid == FillPass(old(ws.grid), rows, values, cs, |rows|)
  {
    ghost var g := ws.grid;
    var i := 0;
    while i < |rows|
      invariant 0 <= i <= |rows|
      invariant ws.grid == FillPass(g, rows, values, cs, i)
    {
      if i < |values| && rows[i] >= DataStartRow {
        FillRow(ws, rows[i], cs, Text(values[i]));
      }
      i := i + 1;
    }
  }

  // Step 7: deleting the rows that are not kept.

  /** The sheet once the bottom-up loop has visited rows `max_row` down to
      `lo`, deleting each row not in `keep`; rows of the original sheet are
      visited, since deleting a row only moves the rows below it. */
  function Deleted(g: Grid, keep: set<nat>, lo: nat): (h: Grid)
    requires g.Valid() && lo >= 1
    ensures h.Valid() && h.Cols() == g.Cols()
    decreases g.MaxRow() + 1 - lo
  {
    if lo > g.MaxRow() then g
    else
      var h := Deleted(g, keep, lo + 1);
      if lo in keep then h else h.DeleteRow(lo)
  }

  /** The rows of `lo..hi` that are in `keep`, in increasing order. */
  function KeptRows(keep: set<nat>, lo: nat, hi: nat): seq<nat>
    decreases hi + 1 - lo
  {
    if lo > hi then [] else (if lo in keep then [lo] else []) + KeptRows(keep, lo + 1, hi)
  }

  /** `KeptRows` lists, in increasing order, exactly the kept rows of `lo..hi`. */
  lemma {:induction false} KeptRowsSpec(keep: set<nat>, lo: nat, hi: nat)
    ensures Increasing(KeptRows(keep, lo, hi))
    ensures forall k | 0 <= k < |KeptRows(keep, lo, hi)| :: lo <= KeptRows(keep, lo, hi)[k] <= hi
    ensures forall x :: x in KeptRows(keep, lo, hi) <==> lo <= x <= hi && x in keep
    decreases hi + 1 - lo
  {
    if lo <= hi {
      KeptRowsSpec(keep, lo + 1, hi);
      var tail := KeptRows(keep, lo + 1, hi);
      var head: seq<nat> := if lo in keep then [lo] else [];
      assert KeptRows(keep, lo, hi) == head + tail;
      PrependIncreasing(head, tail, lo);
    }
  }

  /** Deleting bottom-up from `max_row` to `lo` leaves the rows above `lo`
      alone and closes up the kept rows from `lo` on, in their original
      order: the `j`-th kept row lands at row `lo + j`, and the sheet ends
      right after the last of them. */
  lemma DeletedCells(g: Grid, keep: set<nat>, lo: nat)
    requires g.Valid() && lo >= 1
    ensures Deleted(g, keep, lo).MaxRow() == if lo > g.MaxRow() then g.MaxRow() else lo - 1 + |KeptRows(keep, lo, g.MaxRow())|
    ensures forall r, c | r < lo :: Deleted(g, keep, lo).Get(r, c) == g.Get(r, c)
    ensures forall r, c | lo <= r < lo + |KeptRows(keep, lo, g.MaxRow())| ::
              Deleted(g, keep, lo).Get(r, c) == g.Get(KeptRows(keep, lo, g.MaxRow())[r - lo], c)
  {
    DeletedSize(g, keep, lo);
    DeletedRows(g, keep, lo);
  }

  /** Rows above `lo` of `h` are those of `g`. */
  ghost predicate SameAbove(g: Grid, h: Grid, lo: int) {
    forall r, c | r < lo :: h.Get(r, c) == g.Get(r, c)
  }

  /** From row `lo` on, `h` holds the rows `kept` of `g`, one after the other. */
  ghost predicate ClosedUp(g: Grid, h: Grid, lo: int, kept: seq<nat>) {
    forall r, c | lo <= r < lo + |kept| :: h.Get(r, c) == g.Get(kept[r - lo], c)
  }

  /** The sheet ends right after the last kept row. */
  lemma {:induction false} DeletedSize(g: Grid, keep: set<nat>, lo: nat)
    requires g.Valid() && lo >= 1
    ensures Deleted(g, keep, lo).MaxRow() == if lo > g.MaxRow() then g.MaxRow() else lo - 1 + |KeptRows(keep, lo, g.MaxRow())|
    decreases g.MaxRow() + 1 - lo
  {
    if lo <= g.MaxRow() {
      DeletedSize(g, keep, lo + 1);
      DeletionStep(g, keep, lo);
    }
  }

  lemma {:induction false} DeletedRows(g: Grid, keep: set<nat>, lo: nat)
    requires g.Valid() && lo >= 1
    ensures SameAbove(g, Deleted(g, keep, lo), lo)
    ensures ClosedUp(g, Deleted(g, keep, lo), lo, KeptRows(keep, lo, g.MaxRow()))
    decreases g.MaxRow() + 1 - lo
  {
    if lo <= g.MaxRow() {
      DeletedRows(g, keep, lo + 1);
      DeletionStep(g, keep, lo);
      var h := Deleted(g, keep, lo + 1);
      var tail := KeptRows(keep, lo + 1, g.MaxRow());
      if lo in keep {
        KeepStep(g, h, lo, tail);
      } else {
        DropStep(g, h, lo, tail);
      }
    }
  }

  /** Visiting row `lo` keeps it or deletes it, and lists it among the kept rows or not. */
  lemma DeletionStep(g: Grid, keep: set<nat>, lo: nat)
    requires g.Valid() && 1 <= lo <= g.MaxRow()
    ensures Deleted(g, keep, lo) == if lo in keep then Deleted(g, keep, lo + 1) else Deleted(g, keep, lo + 1).DeleteRow(lo)
    ensures KeptRows(keep, lo, g.MaxRow()) == if lo in keep then [lo] + KeptRows(keep, lo + 1, g.MaxRow()) else KeptRows(keep, lo + 1, g.MaxRow())
  {
  }

  /** Row `lo` is kept: it stays in place, above the rows closed up below it. */
  lemma KeepStep(g: Grid, h: Grid, lo: nat, tail: seq<nat>)
    requires SameAbove(g, h, lo + 1) && ClosedUp(g, h, lo + 1, tail)
    ensures SameAbove(g, h, lo) && ClosedUp(g, h, lo, [lo] + tail)
  {
    forall r, c | lo <= r < lo + |tail| + 1 ensures h.Get(r, c) == g.Get(([lo] + tail)[r - lo], c) {
      if r > lo {
        assert ([lo] + tail)[r - lo] == tail[r - (lo + 1)];
      }
    }
  }

  /** Row `lo` is deleted: the rows closed up below it move up by one. */
  lemma DropStep(g: Grid, h: Grid, lo: nat, tail: seq<nat>)
    requires h.Valid() && lo >= 1
    requires SameAbove(g, h, lo + 1) && ClosedUp(g, h, lo + 1, tail)
    ensures SameAbove(g, h.DeleteRow(lo), lo) && ClosedUp(g, h.DeleteRow(lo), lo, tail)
  {
    forall r, c | lo <= r < lo + |tail| ensures h.DeleteRow(lo).Get(r, c) == g.Get(tail[r - lo], c) {
      assert h.Get(r + 1, c) == g.Get(tail[r + 1 - (lo + 1)], c);
    }
  }

  /** Step 7: `row_idx` runs from `max_row` down to 8 and every row not in
      `keep` is deleted. */
  method DeleteUnkeptRows(ws: Sheet, keep: set<nat>)
    requires ws.grid.Valid()
    modifies ws
    ensures ws.grid == Deleted(old(ws.grid), keep, DataStartRow)
  {
    ghost var g := ws.grid;
    var r := ws.grid.MaxRow();
    while r >= DataStartRow
      invariant r <= g.MaxRow() && (r >= DataStartRow - 1 || r == g.MaxRow())
      invariant ws.grid == Deleted(g, keep, r + 1)
      decreases r
    {
      if r !in keep {
        ws.DeleteRow(r);
      }
      r := r - 1;
    }
  }

  lemma HeadIsMember(a: seq<nat>)
    ensures a != [] ==> a[0] in a
  {
  }

  /** Two increasing lists with the same elements are the same list. */
  lemma {:induction false} IncreasingSameMembers(a: seq<nat>, b: seq<nat>)
    requires Increasing(a) && Increasing(b) && forall x :: x in a <==> x in b
    ensures a == b
    decreases |a|
  {
    if a != [] && b != [] {
      SameHeads(a, b);
      SameTails(a, b);
      IncreasingTail(a);
      IncreasingTail(b);
      IncreasingSameMembers(a[1..], b[1..]);
      assert a == [a[0]] + a[1..] && b == [b[0]] + b[1..];
    } else {
      HeadIsMember(a);
      HeadIsMember(b);
    }
  }

  lemma IncreasingTail(a: seq<nat>)
    requires Increasing(a) && a != []
    ensures Increasing(a[1..])
  {
    forall x, y | 0 <= x < y < |a| - 1 ensures a[1..][x] < a[1..][y] {
      assert a[1..][x] == a[x + 1] && a[1..][y] == a[y + 1];
    }
  }

  /** Each list's first element is the smallest, so the two agree on it. */
  lemma SameHeads(a: seq<nat>, b: seq<nat>)
    requires Increasing(a) && Increasing(b) && a != [] && b != [] && forall x :: x in a <==> x in b
    ensures a[0] == b[0]
  {
    assert a[0] in b && b[0] in a;
    var i :| 0 <= i < |b| && b[i] == a[0];
    var j :| 0 <= j < |a| && a[j] == b[0];
    assert b[0] <= b[i] && a[0] <= a[j];
  }

  /** Without the common first element the two lists still have the same elements. */
  lemma SameTails(a: seq<nat>, b: seq<nat>)
    requires Increasing(a) && Increasing(b) && a != [] && b != [] && forall x :: x in a <==> x in b
    requires a[0] == b[0]
    ensures forall x :: x in a[1..] <==> x in b[1..]
  {
    forall x ensures x in a[1..] <==> x in b[1..] {
      if x in a[1..] {
        var i :| 1 <= i < |a| && a[i] == x;
        assert a[0] < a[i];
      }
      if x in b[1..] {
        var i :| 1 <= i < |b| && b[i] == x;
        assert b[0] < b[i];
      }
      assert x in a <==> x == a[0] || x in a[1..];
      assert x in b <==> x == b[0] || x in b[1..];
    }
  }

  /** Steps 1 and 7 together: when the recorded rows are increasing rows of
      the sheet from 8 on and the kept rows are the first `m` of them, the
      deletion leaves rows 1-7 alone and puts the `k`-th kept row at row
      `8 + k`, with nothing below the last. */
  lemma {:induction false} DeletionClosesUp(g: Grid, rows: seq<nat>, keep: set<nat>, m: nat)
    requires g.Valid() && Increasing(rows) && m <= |rows| && DataStartRow - 1 <= g.MaxRow()
    requires forall k | 0 <= k < |rows| :: DataStartRow <= rows[k] <= g.MaxRow()
    requires forall r :: r in keep <==> r in rows[..m]
    ensures Deleted(g, keep, DataStartRow).MaxRow() == DataStartRow - 1 + m
    ensures forall r, c | r < DataStartRow :: Deleted(g, keep, DataStartRow).Get(r, c) == g.Get(r, c)
    ensures forall r, c | DataStartRow <= r < DataStartRow + m :: Deleted(g, keep, DataStartRow).Get(r, c) == g.Get(rows[r - DataStartRow], c)
  {
    DeletedCells(g, keep, DataStartRow);
    KeptRowsSpec(keep, DataStartRow, g.MaxRow());
    var prefix := rows[..m];
    forall a, b | 0 <= a < b < |prefix| ensures prefix[a] < prefix[b] {
      assert prefix[a] == rows[a] && prefix[b] == rows[b];
    }
    forall x ensures x in KeptRows(keep, DataStartRow, g.MaxRow()) <==> x in prefix {
      if x in prefix {
        var k :| 0 <= k < m && prefix[k] == x;
        assert rows[k] == x;
      }
    }
    IncreasingSameMembers(KeptRows(keep, DataStartRow, g.MaxRow()), prefix);
    if g.MaxRow() < DataStartRow {
      assert prefix == [];
    }
  }

  // Step 8: the character count of the product name.

  /** The sheet once the count pass has visited the first `i` row numbers of
      `targets`: a row at 8 or below whose name cell is not empty gets the
      length of `str()` of that cell in column `last`. */
  function CountPass(g: Grid, targets: seq<nat>, nameCol: nat, last: nat, i: nat): (h: Grid)
    requires g.Valid() && last >= 1 && i <= |targets|
    ensures h.Valid()
    decreases i
  {
    if i == 0 then g
    else
      var h := CountPass(g, targets, nameCol, last, i - 1);
      var r := targets[i - 1];
      if r >= DataStartRow && h.Get(r, nameCol) != Blank then h.Set(r, last, Number(|Str(h.Get(r, nameCol))|)) else h
  }

  /** `last_col`: the column right after the last one of the sheet. */
  function CountColumn(g: Grid): (c: nat)
    ensures c > g.Cols()
  {
    g.Cols() + 1
  }

  /** The row `r` receives a count from a pass over `targets`. */
  predicate Counted(g: Grid, targets: seq<nat>, nameCol: nat, r: nat) {
    r in targets && r >= DataStartRow && g.Get(r, nameCol) != Blank
  }

  /** The count pass writes only column `last`: there, exactly the counted
      rows get the length of their (unchanged) name; nothing else changes. */
  lemma {:induction false} CountPassCells(g: Grid, targets: seq<nat>, nameCol: nat, last: nat, i: nat)
    requires g.Valid() && last >= 1 && last != nameCol && i <= |targets|
    ensures CountPass(g, targets, nameCol, last, i).MaxRow() == g.MaxRow()
    ensures forall r, c {:trigger CountPass(g, targets, nameCol, last, i).Get(r, c)} ::
              CountPass(g, targets, nameCol, last, i).Get(r, c) ==
                if c == last && r >= 0 && Counted(g, targets[..i], nameCol, r) then Number(|Str(g.Get(r, nameCol))|) else g.Get(r, c)
    decreases i
  {
    if i > 0 {
      CountPassCells(g, targets, nameCol, last, i - 1);
      assert targets[..i] == targets[..i - 1] + [targets[i - 1]];
      var h := CountPass(g, targets, nameCol, last, i - 1);
      var r := targets[i - 1];
      assert h.Get(r, nameCol) == g.Get(r, nameCol);
      if r >= DataStartRow && g.Get(r, nameCol) != Blank {
        assert 1 <= r <= g.MaxRow();
      }
    }
  }

  /** Step 8: `last_col = max_column + 1`, then the row numbers of `targets`
      in turn (the merge step passes the rows recorded before the deletion). */
  method AddCharCounts(ws: Sheet, targets: seq<nat>, nameCol: nat)
    requires ws.grid.Valid()
    modifies ws
    ensures ws.grid == CountPass(old(ws.grid), targets, nameCol, CountColumn(old(ws.grid)), |targets|)
  {
    ghost var g := ws.grid;
    var last := CountColumn(ws.grid);
    var i := 0;
    while i < |targets|
      invariant 0 <= i <= |targets|
      invariant ws.grid == CountPass(g, targets, nameCol, last, i)
    {
      var r := targets[i];
      if r >= DataStartRow {
        var v := ws.grid.Get(r, nameCol);
        if v != Blank {
          ws.SetCell(r, last, Number(|Str(v)|));
        }
      }
      i := i + 1;
    }
  }

  /** A sheet of ten rows and four columns whose only data rows are 8 and
      10, each with SKU and name `P`; row 9 has no SKU. */
  function GappedSheet(): (g: Grid)
    ensures g.Valid() && g.MaxRow() == 10 && g.Cols() == 4
  {
    Grid((r, c) => if (r == 8 || r == 10) && (c == SkuColumn || c == 4) then Text("P") else Blank, 10, 4)
  }

  /** Step 1 on that sheet records rows 8 and 10. */
  lemma GappedSheetRows()
    ensures DataRowsFrom(GappedSheet(), DataStartRow) == [8, 10]
  {
    var g := GappedSheet();
    assert g.Get(8, SkuColumn) == g.Get(10, SkuColumn) == Text("P") && g.Get(9, SkuColumn) == Blank;
    assert !IsSpace(Str(Text("P"))[0]);
    assert DataRowsFrom(g, 11) == [];
    assert DataRowsFrom(g, 10) == [10];
    assert DataRowsFrom(g, 9) == [10];
  }

  /** As written, the count pass uses the row numbers recorded before the
      deletion. With data rows 8 and 10 and two input rows, row 9 is deleted
      and the second product moves up to row 9; the pass then looks at rows
      8 and 10 and the second product gets no count. */
  lemma StaleCountSkipsMovedRow()
    ensures var rows := DataRowsFrom(GappedSheet(), DataStartRow);
      var d := Deleted(GappedSheet(), (set r | r in rows), DataStartRow);
      && rows == [8, 10]
      && d.MaxRow() == 9 && d.Get(9, SkuColumn) == Text("P") && d.Get(9, 4) == Text("P")
      && CountPass(d, rows, 4, CountColumn(d), |rows|).Get(9, CountColumn(d)) == Blank
  {
    var g := GappedSheet();
    GappedSheetRows();
    var rows: seq<nat> := [8, 10];
    var keep := set r | r in rows;
    assert rows[..2] == rows;
    DeletionClosesUp(g, rows, keep, 2);
    var d := Deleted(g, keep, DataStartRow);
    CountPassCells(d, rows, 4, CountColumn(d), 2);
  }

  /** The pass the count step evidently intends: the product rows as they
      stand after the deletion, rows 8 to 7 + m. */
  method AddCharCountsToProducts(ws: Sheet, m: nat, nameCol: nat)
    requires ws.grid.Valid()
    modifies ws
    ensures ws.grid == CountPass(old(ws.grid), NewRowNumbers(DataStartRow - 1, m), nameCol, CountColumn(old(ws.grid)), m)
  {
    AddCharCounts(ws, NewRowNumbers(DataStartRow - 1, m), nameCol);
  }

  /** Over rows 8 to 7 + m every product row with a name gets the length of
      that name; no other cell changes. */
  lemma {:induction false} CountsEveryProductRow(g: Grid, m: nat, nameCol: nat, last: nat)
    requires g.Valid() && last >= 1 && last != nameCol
    ensures forall r | DataStartRow <= r < DataStartRow + m && g.Get(r, nameCol) != Blank ::
              CountPass(g, NewRowNumbers(DataStartRow - 1, m), nameCol, last, m).Get(r, last) == Number(|Str(g.Get(r, nameCol))|)
    ensures forall r, c | c != last || r < DataStartRow || r >= DataStartRow + m ::
              CountPass(g, NewRowNumbers(DataStartRow - 1, m), nameCol, last, m).Get(r, c) == g.Get(r, c)
  {
    var targets := NewRowNumbers(DataStartRow - 1, m);
    CountPassCells(g, targets, nameCol, last, m);
    assert targets[..m] == targets;
    forall r | DataStartRow <= r < DataStartRow + m ensures r in targets {
      assert targets[r - DataStartRow] == r;
    }
  }

  // The header block.

  /** Rows 1 to 7, the header block of the template, read the same in both sheets. */
  ghost predicate SameHeaderBlock(g: Grid, h: Grid) {
    forall r, c | r < DataStartRow :: h.Get(r, c) == g.Get(r, c)
  }

  /** Every row the pass names is a data row (row 8 or below). */
  predicate BelowHeader(rows: seq<nat>) {
    forall k | 0 <= k < |rows| :: rows[k] >= DataStartRow
  }

  /** Step 1 writes only the rows it visits. */
  lemma {:induction false} SkuNamePassKeepsHeader(g: Grid, rows: seq<nat>, input: seq<InputRow>, nameCol: nat, i: nat)
    requires g.Valid() && nameCol >= 1 && i <= |rows| && BelowHeader(rows)
    ensures SameHeaderBlock(g, SkuNamePass(g, rows, input, nameCol, i))
    decreases i
  {
    if i > 0 {
      SkuNamePassKeepsHeader(g, rows, input, nameCol, i - 1);
    }
  }

  lemma {:induction false} LinkCellsKeepHeader(g: Grid, r: nat, sku: string, first: nat, k: nat, link: LinkBuilder)
    requires g.Valid() && r >= DataStartRow && first >= 1
    ensures SameHeaderBlock(g, LinkCells(g, r, sku, first, k, link))
    decreases k
  {
    if k > 0 {
      LinkCellsKeepHeader(g, r, sku, first, k - 1, link);
    }
  }

  /** Step 2 writes only the rows it visits. */
  lemma {:induction false} LinkPassKeepsHeader(g: Grid, rows: seq<nat>, input: seq<InputRow>, first: nat, count: nat, i: nat, link: LinkBuilder)
    requires g.Valid() && first >= 1 && i <= |rows| && BelowHeader(rows)
    ensures SameHeaderBlock(g, LinkPass(g, rows, input, first, count, i, link))
    decreases i
  {
    if i > 0 {
      LinkPassKeepsHeader(g, rows, input, first, count, i - 1, link);
      if i - 1 < |input| {
        var h := LinkPass(g, rows, input, first, count, i - 1, link);
        LinkCellsKeepHeader(h, rows[i - 1], input[i - 1].sku, first, count, link);
      }
    }
  }

  /** Steps 3 and 4 skip rows above row 8, whatever rows they are given. */
  lemma {:induction false} FillPassKeepsHeader(g: Grid, rows: seq<nat>, values: seq<string>, cs: seq<nat>, i: nat)
    requires g.Valid() && i <= |rows| && forall k | 0 <= k < |rows| :: rows[k] >= 1
    requires forall j | 0 <= j < |cs| :: cs[j] >= 1
    ensures SameHeaderBlock(g, FillPass(g, rows, values, cs, i))
    decreases i
  {
    if i > 0 {
      FillPassKeepsHeader(g, rows, values, cs, i - 1);
    }
  }

  /** Step 8 skips rows above row 8, whatever rows it is given. */
  lemma {:induction false} CountPassKeepsHeader(g: Grid, targets: seq<nat>, nameCol: nat, last: nat, i: nat)
    requires g.Valid() && last >= 1 && i <= |targets|
    ensures SameHeaderBlock(g, CountPass(g, targets, nameCol, last, i))
    decreases i
  {
    if i > 0 {
      CountPassKeepsHeader(g, targets, nameCol, last, i - 1);
    }
  }
}
