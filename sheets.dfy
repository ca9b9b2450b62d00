/** The worksheet as the merge step sees it: a grid of cell values, rows and
    columns numbered from 1, with the extent openpyxl reports as `max_row`
    and `max_column`. Formatting is not part of the model. */
module Sheets {
  import opened Text

  /** A cell value: empty (`None`), a string, or an integer. */
  datatype Cell = Blank | Text(s: string) | Number(n: int)

  /** Python's `str(value)`. */
  function Str(c: Cell): string {
    match c
    case Blank => "None"
    case Text(s) => s
    case Number(n) => IntToString(n)
  }

  /** Python's truthiness of a cell value (`if cell.value:`). */
  predicate Truthy(c: Cell) {
    match c
    case Blank => false
    case Text(s) => s != ""
    case Number(n) => n != 0
  }

  /** `sku_cell and str(sku_cell).strip()`: the cell holds a non-blank SKU,
      one with a character that is not whitespace (see `HasSkuStrip`). */
  predicate HasSku(c: Cell) {
    Truthy(c) && exists i | 0 <= i < |Str(c)| :: !IsSpace(Str(c)[i])
  }

  /** `HasSku` is the test as written: truthy, and non-empty once stripped. */
  lemma HasSkuStrip(c: Cell)
    ensures HasSku(c) <==> Truthy(c) && Strip(Str(c)) != ""
  {
  }

  type Row = seq<Cell>

  /** The values openpyxl holds, by (row, column), inside the extent it
      reports as `max_row` and `max_column`; rows and columns are numbered
      from 1, and what `cells` says outside the extent is never read. */
  datatype Grid = Grid(cells: (int, int) -> Cell, height: nat, width: nat) {

    predicate Valid() {
      width >= 1
    }

    /** `max_row`. */
    function MaxRow(): nat {
      height
    }

    /** The row just below the last one. */
    function NextRow(): nat {
      height + 1
    }

    /** `max_column`. */
    function Cols(): nat {
      width
    }

    /** `ws.cell(row=r, column=c).value`; outside the extent a cell reads as empty. */
    function Get(r: int, c: int): Cell {
      if 1 <= r <= height && 1 <= c <= width then cells(r, c) else Blank
    }

    /** The values of row `r` in columns `1..max_column`. */
    function RowCells(r: int): (row: Row)
      ensures |row| == Cols()
      ensures forall c | 1 <= c <= Cols() :: row[c - 1] == Get(r, c)
    {
      seq(width, i => Get(r, i + 1))
    }

    /** Writing one cell; a write outside the extent widens or lengthens the sheet. */
    function Set(r: int, c: int, v: Cell): (g: Grid)
      requires Valid() && r >= 1 && c >= 1
      ensures g.Valid()
      ensures g.MaxRow() == if r > MaxRow() then r else MaxRow()
      ensures g.Cols() == if c > Cols() then c else Cols()
      ensures g.Get(r, c) == v
      ensures forall r', c' | r' != r || c' != c :: g.Get(r', c') == Get(r', c')
    {
      Grid((r', c') => if r' == r && c' == c then v else Get(r', c'),
        if r > height then r else height, if c > width then c else width)
    }

    /** `insert_rows(idx)`: rows from `idx` on move down by one and row `idx`
        becomes empty; past the last row nothing moves. */
    function InsertBlankRow(idx: int): (g: Grid)
      requires Valid() && idx >= 1
      ensures g.Valid() && g.Cols() == Cols()
      ensures g.MaxRow() == if idx <= MaxRow() then MaxRow() + 1 else MaxRow()
      ensures forall r, c {:trigger g.Get(r, c)} :: g.Get(r, c) ==
                if idx > MaxRow() || r < idx then Get(r, c) else if r == idx then Blank else Get(r - 1, c)
    {
      if idx <= height then
        Grid((r, c) => if r < idx then Get(r, c) else if r == idx then Blank else Get(r - 1, c), height + 1, width)
      else
        this
    }

    /** `delete_rows(idx)`: row `idx` disappears and the rows below it move up by one. */
    function DeleteRow(idx: int): (g: Grid)
      requires Valid() && idx >= 1
      ensures g.Valid() && g.Cols() == Cols()
      ensures g.MaxRow() == if idx <= MaxRow() then MaxRow() - 1 else MaxRow()
      ensures forall r, c {:trigger g.Get(r, c)} :: g.Get(r, c) == if r < idx then Get(r, c) else Get(r + 1, c)
    {
      if idx <= height then
        Grid((r, c) => if r < idx then Get(r, c) else Get(r + 1, c), height - 1, width)
      else
        this
    }
  }

  /** The width of a sheet of width `w` once columns `cs` have been written. */
  function Widen(w: nat, cs: seq<nat>): (r: nat)
    ensures r >= w && forall k | 0 <= k < |cs| :: r >= cs[k]
    ensures r == w || r in cs
  {
    if cs == [] then w
    else
      var v := Widen(w, cs[..|cs| - 1]);
      var c := cs[|cs| - 1];
      assert forall k | 0 <= k < |cs| - 1 :: cs[k] == cs[..|cs| - 1][k];
      if c > v then c else v
  }

  /** Widening by the same columns twice is widening once. */
  lemma WidenTwice(w: nat, cs: seq<nat>)
    ensures Widen(Widen(w, cs), cs) == Widen(w, cs)
  {
  }

  /** Writing the same value into each of the columns `cs` of row `r`, in order. */
  function SetCells(g: Grid, r: int, cs: seq<nat>, v: Cell): (h: Grid)
    requires g.Valid() && r >= 1 && forall k | 0 <= k < |cs| :: cs[k] >= 1
    ensures h.Valid() && h.Cols() == Widen(g.Cols(), cs)
    ensures h.MaxRow() == if cs != [] && r > g.MaxRow() then r else g.MaxRow()
    ensures forall r', c' :: h.Get(r', c') == if r' == r && c' in cs then v else g.Get(r', c')
    decreases |cs|
  {
    if cs == [] then g
    else
      var h := SetCells(g, r, cs[..|cs| - 1], v);
      assert forall c' :: c' in cs <==> c' in cs[..|cs| - 1] || c' == cs[|cs| - 1];
      h.Set(r, cs[|cs| - 1], v)
  }

  /** A worksheet whose cells the merge step updates in place. */
  class Sheet {
    var grid: Grid

    constructor (g: Grid)
      requires g.Valid()
      ensures grid == g
    {
      grid := g;
    }

    method SetCell(r: int, c: int, v: Cell)
      requires grid.Valid() && r >= 1 && c >= 1
      modifies this
      ensures grid == old(grid).Set(r, c, v)
    {
      grid := grid.Set(r, c, v);
    }

    method InsertRow(idx: int)
      requires grid.Valid() && idx >= 1
      modifies this
      ensures grid == old(grid).InsertBlankRow(idx)
    {
      grid := grid.InsertBlankRow(idx);
    }

    method DeleteRow(idx: int)
      requires grid.Valid() && idx >= 1
      modifies this
      ensures grid == old(grid).DeleteRow(idx)
    {
      grid := grid.DeleteRow(idx);
    }
  }
}
