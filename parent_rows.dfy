/** The parent-row step: for every parent id of the children in the sheet,
    a row copied from the reference row 7 is inserted directly above the
    first of its children, and every child's parent-SKU cell is filled in. */
module ParentRows {
  import opened Options
  import opened Text
  import opened Sheets
  import opened Headers
  import opened RowMatching

  /** The row every parent row is copied from. */
  const ReferenceRow := 7

  // The SKU-to-parent dictionary.

  /** One row of the parent-input table: its image name as a dictionary key
      (`None` when it is not a text, so that no lookup by a cell's text finds
      it) and its parent id. */
  datatype ChildEntry = ChildEntry(sku: Option<string>, parent: string)

  /** The keys of `sku_to_parent` that a text can find, entry by entry. */
  function SkuToParent(entries: seq<ChildEntry>): map<string, string>
    decreases |entries|
  {
    if entries == [] then map[]
    else
      var e := entries[|entries| - 1];
      var m := SkuToParent(entries[..|entries| - 1]);
      if e.sku.Some? then m[e.sku.value := e.parent] else m
  }

  /** The keys are the text image names of the table, and a name listed
      more than once maps to the parent of its last entry. */
  lemma {:induction false} SkuToParentSpec(entries: seq<ChildEntry>)
    ensures forall s :: s in SkuToParent(entries) <==> exists k | 0 <= k < |entries| :: entries[k].sku == Some(s)
    ensures forall k | 0 <= k < |entries| && entries[k].sku.Some? && (forall j | k < j < |entries| :: entries[j].sku != entries[k].sku) ::
              SkuToParent(entries)[entries[k].sku.value] == entries[k].parent
    decreases |entries|
  {
    if entries != [] {
      var init := entries[..|entries| - 1];
      SkuToParentSpec(init);
      assert forall k | 0 <= k < |init| :: init[k] == entries[k];
    }
  }

  /** The loop over the table that fills the dictionary, one entry at a time. */
  method BuildSkuToParent(entries: seq<ChildEntry>) returns (m: map<string, string>)
    ensures m == SkuToParent(entries)
  {
    m := map[];
    var i := 0;
    while i < |entries|
      invariant 0 <= i <= |entries|
      invariant m == SkuToParent(entries[..i])
    {
      assert entries[..i + 1][..i] == entries[..i];
      if entries[i].sku.Some? {
        m := m[entries[i].sku.value := entries[i].parent];
      }
      i := i + 1;
    }
    assert entries[..|entries|] == entries;
  }

  /** The parent of the row `r`: its column-1 cell is non-empty and `str()`
      of it is a key of the dictionary. */
  function ChildParent(g: Grid, m: map<string, string>, r: int): (p: Option<string>)
    ensures p.Some? ==> 1 <= r <= g.MaxRow()
  {
    var v := g.Get(r, SkuColumn);
    if Truthy(v) && Str(v) in m then Some(m[Str(v)]) else None
  }

  // Planning the inserts.

  /** A planned insert: a parent row for `parent` at row `row`. */
  datatype Insertion = Insertion(row: nat, parent: string)

  /** `parent` already has a planned insert (it is in `processed_parents`). */
  predicate Planned(plan: seq<Insertion>, parent: string) {
    exists k | 0 <= k < |plan| :: plan[k].parent == parent
  }

  /** The plan once rows `8 .. hi - 1` have been scanned: each child row
      whose parent has no insert yet adds one at its own row. */
  function Plan(g: Grid, m: map<string, string>, hi: nat): seq<Insertion>
    decreases hi
  {
    if hi <= DataStartRow then []
    else
      var p := Plan(g, m, hi - 1);
      match ChildParent(g, m, hi - 1)
      case Some(id) => if Planned(p, id) then p else p + [Insertion(hi - 1, id)]
      case None => p
  }

  /** The plan over all rows from 8 to `max_row`. */
  function PlanOf(g: Grid, m: map<string, string>): seq<Insertion> {
    Plan(g, m, g.NextRow())
  }

  /** Every insert of `p` is at a child row in `8 .. hi - 1`, for that row's parent. */
  predicate AtChildRows(g: Grid, m: map<string, string>, hi: int, p: seq<Insertion>) {
    forall k | 0 <= k < |p| :: DataStartRow <= p[k].row < hi && ChildParent(g, m, p[k].row) == Some(p[k].parent)
  }

  /** No child row above an insert has that insert's parent. */
  predicate AtFirstChild(g: Grid, m: map<string, string>, p: seq<Insertion>) {
    forall k, r | 0 <= k < |p| && DataStartRow <= r < p[k].row :: ChildParent(g, m, r) != Some(p[k].parent)
  }

  /** The parent of every child row in `8 .. hi - 1` has an insert in `p`. */
  predicate CoversChildren(g: Grid, m: map<string, string>, hi: int, p: seq<Insertion>) {
    forall r | DataStartRow <= r < hi && ChildParent(g, m, r).Some? :: Planned(p, ChildParent(g, m, r).value)
  }

  predicate DistinctParents(p: seq<Insertion>) {
    forall a, b | 0 <= a < b < |p| :: p[a].parent != p[b].parent
  }

  /** The plan lists, in increasing row order, inserts at child rows in
      `8 .. hi - 1`, each for that row's parent. */
  lemma {:induction false} PlanRows(g: Grid, m: map<string, string>, hi: nat)
    ensures RowsIncrease(Plan(g, m, hi))
    ensures AtChildRows(g, m, hi, Plan(g, m, hi))
    decreases hi
  {
    if hi > DataStartRow {
      PlanRows(g, m, hi - 1);
      var p := Plan(g, m, hi - 1);
      if ChildParent(g, m, hi - 1).Some? && !Planned(p, ChildParent(g, m, hi - 1).value) {
        var q := p + [Insertion(hi - 1, ChildParent(g, m, hi - 1).value)];
        assert forall k | 0 <= k < |p| :: q[k] == p[k];
      }
    }
  }

  /** Every parent of a child row in `8 .. hi - 1` has an insert. */
  lemma {:induction false} PlanCovers(g: Grid, m: map<string, string>, hi: nat)
    ensures CoversChildren(g, m, hi, Plan(g, m, hi))
    decreases hi
  {
    if hi > DataStartRow {
      PlanCovers(g, m, hi - 1);
      var p := Plan(g, m, hi - 1);
      var q := Plan(g, m, hi);
      assert forall k | 0 <= k < |p| :: q[k] == p[k];
      forall r | DataStartRow <= r < hi && ChildParent(g, m, r).Some?
        ensures Planned(q, ChildParent(g, m, r).value)
      {
        if r < hi - 1 || Planned(p, ChildParent(g, m, r).value) {
          var k :| 0 <= k < |p| && p[k].parent == ChildParent(g, m, r).value;
          assert q[k] == p[k];
        } else {
          assert q[|p|].parent == ChildParent(g, m, r).value;
        }
      }
    }
  }

  /** Each insert is at the first row of its parent's children. */
  lemma {:induction false} PlanFirstChild(g: Grid, m: map<string, string>, hi: nat)
    ensures AtFirstChild(g, m, Plan(g, m, hi))
    decreases hi
  {
    if hi > DataStartRow {
      PlanFirstChild(g, m, hi - 1);
      var p := Plan(g, m, hi - 1);
      if ChildParent(g, m, hi - 1).Some? && !Planned(p, ChildParent(g, m, hi - 1).value) {
        var id := ChildParent(g, m, hi - 1).value;
        PlanCovers(g, m, hi - 1);
        var q := p + [Insertion(hi - 1, id)];
        assert forall k | 0 <= k < |p| :: q[k] == p[k];
        forall r | DataStartRow <= r < hi - 1 ensures ChildParent(g, m, r) != Some(id) {
        }
      }
    }
  }

  /** No parent has two inserts. */
  lemma PlanDistinct(g: Grid, m: map<string, string>, hi: nat)
    ensures DistinctParents(Plan(g, m, hi))
  {
    PlanRows(g, m, hi);
    PlanFirstChild(g, m, hi);
  }

  /** The planning loop: rows 8 to `max_row`, each child row adding an
      insert at `row_idx + inserted_rows` when its parent is not yet in
      `processed_parents` (`inserted_rows` is still 0 at this point). */
  method PlanParentRows(ws: Sheet, m: map<string, string>) returns (plan: seq<Insertion>)
    ensures plan == PlanOf(ws.grid, m)
  {
    var inserted := 0;
    var processed: set<string> := {};
    plan := [];
    var row := DataStartRow;
    var maxRow := ws.grid.MaxRow();
    while row <= maxRow
      invariant DataStartRow <= row && (row <= maxRow + 1 || row == DataStartRow)
      invariant plan == Plan(ws.grid, m, row)
      invariant forall id :: id in processed <==> Planned(plan, id)
    {
      var v := ws.grid.Get(row, SkuColumn);
      if Truthy(v) {
        var sku := Str(v);
        if sku in m {
          var id := m[sku];
          if id !in processed {
            processed := processed + {id};
            ghost var before := plan;
            plan := plan + [Insertion(row + inserted, id)];
            assert forall k | 0 <= k < |before| :: plan[k] == before[k];
            assert plan[|before|].parent == id;
          }
        }
      }
      row := row + 1;
    }
  }

  // The order of the inserts.

  function Reverse<T>(s: seq<T>): (r: seq<T>)
    ensures |r| == |s|
  {
    if s == [] then [] else Reverse(s[1..]) + [s[0]]
  }

  /** The `k`-th element of the reversed list is the `k`-th from the end. */
  lemma {:induction false} ReverseIndex<T>(s: seq<T>)
    ensures forall k | 0 <= k < |s| :: Reverse(s)[k] == s[|s| - 1 - k]
  {
    if s != [] {
      ReverseIndex(s[1..]);
    }
  }

  predicate RowsIncrease(p: seq<Insertion>) {
    forall a, b | 0 <= a < b < |p| :: p[a].row < p[b].row
  }

  predicate RowsDecrease(p: seq<Insertion>) {
    forall a, b | 0 <= a < b < |p| :: p[a].row > p[b].row
  }

  /** `insert_positions.sort(reverse=True)` on the plan: its rows are
      distinct, so sorting in descending order is reversing it. The
      reversed plan holds the same inserts, with rows decreasing. */
  lemma {:induction false} ReverseSortsDescending(p: seq<Insertion>)
    requires RowsIncrease(p)
    ensures RowsDecrease(Reverse(p))
    ensures multiset(Reverse(p)) == multiset(p)
    decreases |p|
  {
    ReverseIndex(p);
    if p != [] {
      ReverseSortsDescending(p[1..]);
      assert p == [p[0]] + p[1..];
    }
  }

  /** In a list with decreasing rows no element lies above the first. */
  lemma FirstIsHighest(a: seq<Insertion>, x: Insertion)
    requires RowsDecrease(a) && x in multiset(a)
    ensures a != [] && x.row <= a[0].row
  {
    var i :| 0 <= i < |a| && a[i] == x;
  }

  /** Dropping the first element keeps the rows decreasing and takes one
      copy of it out of the collection. */
  lemma DescendingTail(a: seq<Insertion>)
    requires RowsDecrease(a) && a != []
    ensures RowsDecrease(a[1..])
    ensures multiset(a[1..]) == multiset(a) - multiset{a[0]}
  {
    assert a == [a[0]] + a[1..];
  }

  /** A descending order of a collection of distinct rows is unique: two
      lists of the same inserts, both with decreasing rows, are equal. */
  lemma {:induction false} DescendingIsUnique(a: seq<Insertion>, b: seq<Insertion>)
    requires RowsDecrease(a) && RowsDecrease(b) && multiset(a) == multiset(b)
    ensures a == b
    decreases |a|
  {
    if a != [] {
      FirstIsHighest(b, a[0]);
      FirstIsHighest(a, b[0]);
      var i :| 0 <= i < |a| && a[i] == b[0];
      assert i == 0;
      DescendingTail(a);
      DescendingTail(b);
      DescendingIsUnique(a[1..], b[1..]);
      SameHeadAndTail(a, b);
    }
  }

  lemma SameHeadAndTail(a: seq<Insertion>, b: seq<Insertion>)
    requires a != [] && b != [] && a[0] == b[0] && a[1..] == b[1..]
    ensures a == b
  {
    assert a == [a[0]] + a[1..] && b == [b[0]] + b[1..];
  }

  // Inserting one parent row.

  /** Column `c` is one of the image-link columns. */
  predicate InImageColumns(lay: Layout, c: int) {
    lay.firstImage <= c < lay.firstImage + lay.imageCount
  }

  /** A cell of the parent row for `id`: the image-link columns are empty,
      column 1, the product-name column and the parent-SKU column hold the
      id, and every other cell is row 7's. */
  function ParentCell(g: Grid, id: string, lay: Layout, parentCol: int, c: int): Cell {
    if InImageColumns(lay, c) then Blank
    else if c == SkuColumn || c == lay.name || c == parentCol then Text(id)
    else g.Get(ReferenceRow, c)
  }

  predicate Columns(lay: Layout, parentCol: int) {
    lay.name >= 1 && lay.firstImage >= 1 && parentCol >= 1
  }

  /** One iteration of the insert loop: `insert_rows`, the copy of row 7
      over columns `1..max_column`, the three id cells, then the image-link
      columns cleared. */
  function WithParentRow(g: Grid, ins: Insertion, lay: Layout, parentCol: nat): (h: Grid)
    requires g.Valid() && ins.row >= 1 && Columns(lay, parentCol)
    ensures h.Valid()
  {
    var h0 := g.InsertBlankRow(ins.row);
    var h1 := CopyCells(h0, ReferenceRow, ins.row, h0.Cols());
    var h2 := h1.Set(ins.row, SkuColumn, Text(ins.parent)).Set(ins.row, lay.name, Text(ins.parent)).Set(ins.row, parentCol, Text(ins.parent));
    SetCells(h2, ins.row, lay.ImageColumns(), Blank)
  }

  lemma ImageColumnsMembers(lay: Layout)
    ensures forall c :: c in lay.ImageColumns() <==> InImageColumns(lay, c)
  {
    var cs := lay.ImageColumns();
    forall c | InImageColumns(lay, c) ensures c in cs {
      assert cs[c - lay.firstImage] == c;
    }
  }

  /** Inserting a parent row at a row below 7 and inside the sheet: rows
      above it stay, the new row holds the parent cells, and the rows from
      it on move down by one. */
  lemma WithParentRowCells(g: Grid, ins: Insertion, lay: Layout, parentCol: nat)
    requires g.Valid() && Columns(lay, parentCol) && ReferenceRow < ins.row <= g.MaxRow()
    ensures WithParentRow(g, ins, lay, parentCol).MaxRow() == g.MaxRow() + 1
    ensures RowInserted(g, WithParentRow(g, ins, lay, parentCol), ins, lay, parentCol)
  {
    var h0 := g.InsertBlankRow(ins.row);
    CopyCellsSpec(h0, ReferenceRow, ins.row, h0.Cols());
    ImageColumnsMembers(lay);
  }

  /** `w` is `h` with the parent row for `ins` inserted: the rows above it
      are `h`'s, row `ins.row` holds the parent cells, and the rows from it
      on are `h`'s moved down by one. */
  ghost predicate RowInserted(h: Grid, w: Grid, ins: Insertion, lay: Layout, parentCol: nat) {
    forall r, c {:trigger w.Get(r, c)} :: w.Get(r, c) ==
      if r < ins.row then h.Get(r, c)
      else if r == ins.row then ParentCell(h, ins.parent, lay, parentCol, c)
      else h.Get(r - 1, c)
  }

  // Inserting the whole plan.

  /** The sheet once the inserts of `order` have been made, in that order. */
  function Inserted(g: Grid, order: seq<Insertion>, lay: Layout, parentCol: nat): (h: Grid)
    requires g.Valid() && Columns(lay, parentCol)
    requires forall k | 0 <= k < |order| :: order[k].row >= 1
    ensures h.Valid()
    decreases |order|
  {
    if order == [] then g
    else WithParentRow(Inserted(g, order[..|order| - 1], lay, parentCol), order[|order| - 1], lay, parentCol)
  }

  /** Where a row of the sheet after the inserts comes from: a row of the
      sheet before them, or the parent row of an id. */
  datatype Origin = Kept(row: int) | Parent(id: string)

  /** The origin of row `r` after the inserts of `order`. */
  function OriginOf(order: seq<Insertion>, r: int): Origin
    decreases |order|
  {
    if order == [] then Kept(r)
    else
      var ins := order[|order| - 1];
      if r < ins.row then OriginOf(order[..|order| - 1], r)
      else if r == ins.row then Parent(ins.parent)
      else OriginOf(order[..|order| - 1], r - 1)
  }

  /** The cell in column `c` of a row with origin `o`. */
  function OriginCell(g: Grid, o: Origin, lay: Layout, parentCol: int, c: int): Cell {
    match o
    case Kept(x) => g.Get(x, c)
    case Parent(id) => ParentCell(g, id, lay, parentCol, c)
  }

  /** Every cell of `d` is the cell of its origin, after the inserts of `order`, in `g`. */
  ghost predicate FromOrigins(g: Grid, d: Grid, order: seq<Insertion>, lay: Layout, parentCol: nat) {
    forall r, c {:trigger d.Get(r, c)} :: d.Get(r, c) == OriginCell(g, OriginOf(order, r), lay, parentCol, c)
  }

  /** Rows above every insert keep their place. */
  lemma {:induction false} OriginAbove(order: seq<Insertion>, r: int)
    requires forall k | 0 <= k < |order| :: r < order[k].row
    ensures OriginOf(order, r) == Kept(r)
    decreases |order|
  {
    if order != [] {
      OriginAbove(order[..|order| - 1], r);
    }
  }

  /** After the inserts, every cell is the cell of its origin in the sheet
      before them; each insert adds one row. */
  lemma {:induction false} InsertedCells(g: Grid, order: seq<Insertion>, lay: Layout, parentCol: nat)
    requires g.Valid() && Columns(lay, parentCol)
    requires forall k | 0 <= k < |order| :: ReferenceRow < order[k].row <= g.MaxRow()
    ensures Inserted(g, order, lay, parentCol).MaxRow() == g.MaxRow() + |order|
    ensures FromOrigins(g, Inserted(g, order, lay, parentCol), order, lay, parentCol)
    decreases |order|
  {
    if order != [] {
      var init := order[..|order| - 1];
      var ins := order[|order| - 1];
      InsertedCells(g, init, lay, parentCol);
      var h := Inserted(g, init, lay, parentCol);
      WithParentRowCells(h, ins, lay, parentCol);
      ReferenceRowKept(g, h, init, lay, parentCol);
      OriginStep(g, h, Inserted(g, order, lay, parentCol), order, lay, parentCol);
    }
  }

  /** Row 7 lies above every insert, so it is the same before and after them. */
  lemma ReferenceRowKept(g: Grid, h: Grid, order: seq<Insertion>, lay: Layout, parentCol: nat)
    requires FromOrigins(g, h, order, lay, parentCol)
    requires forall k | 0 <= k < |order| :: ReferenceRow < order[k].row
    ensures forall c :: h.Get(ReferenceRow, c) == g.Get(ReferenceRow, c)
  {
    OriginAbove(order, ReferenceRow);
  }

  /** One more insert: each row's origin is that of the row it came from, or the new parent row. */
  lemma OriginStep(g: Grid, h: Grid, w: Grid, order: seq<Insertion>, lay: Layout, parentCol: nat)
    requires order != []
    requires FromOrigins(g, h, order[..|order| - 1], lay, parentCol)
    requires RowInserted(h, w, order[|order| - 1], lay, parentCol)
    requires forall c :: h.Get(ReferenceRow, c) == g.Get(ReferenceRow, c)
    ensures FromOrigins(g, w, order, lay, parentCol)
  {
    var ins := order[|order| - 1];
    forall r, c ensures w.Get(r, c) == OriginCell(g, OriginOf(order, r), lay, parentCol, c) {
      if r == ins.row {
        assert ParentCell(h, ins.parent, lay, parentCol, c) == ParentCell(g, ins.parent, lay, parentCol, c);
      }
    }
  }

  /** The number of planned inserts at row `x` or above. */
  function Below(p: seq<Insertion>, x: int): nat {
    if p == [] then 0 else (if p[0].row <= x then 1 else 0) + Below(p[1..], x)
  }

  /** The row of the sheet after the inserts that the original row `x` moves to. */
  function NewRow(p: seq<Insertion>, x: int): int {
    x + Below(p, x)
  }

  lemma {:induction false} BelowNone(p: seq<Insertion>, x: int)
    requires forall k | 0 <= k < |p| :: x < p[k].row
    ensures Below(p, x) == 0
    decreases |p|
  {
    if p != [] {
      BelowNone(p[1..], x);
    }
  }

  /** The last insert of `Reverse(p)` is `p[0]`, made after those of `Reverse(p[1..])`. */
  lemma OriginOfReverse(p: seq<Insertion>, r: int)
    requires p != []
    ensures OriginOf(Reverse(p), r) ==
              if r < p[0].row then OriginOf(Reverse(p[1..]), r)
              else if r == p[0].row then Parent(p[0].parent)
              else OriginOf(Reverse(p[1..]), r - 1)
  {
    assert Reverse(p)[..|p| - 1] == Reverse(p[1..]);
  }

  /** With the inserts made in descending row order, the parent row of the
      `j`-th insert lands at its planned row plus `j`. */
  lemma {:induction false} ParentRowsLand(p: seq<Insertion>)
    requires RowsIncrease(p)
    ensures forall j | 0 <= j < |p| :: OriginOf(Reverse(p), p[j].row + j) == Parent(p[j].parent)
    decreases |p|
  {
    if p != [] {
      var rest := p[1..];
      ParentRowsLand(rest);
      forall j | 0 <= j < |p| ensures OriginOf(Reverse(p), p[j].row + j) == Parent(p[j].parent) {
        OriginOfReverse(p, p[j].row + j);
        if j > 0 {
          assert rest[j - 1] == p[j];
          assert p[j].row + j - 1 == rest[j - 1].row + (j - 1);
        }
      }
    }
  }

  /** With the inserts made in descending row order, an original row `x`
      moves down by the number of inserts planned at `x` or above. */
  lemma {:induction false} KeptRowShifts(p: seq<Insertion>, x: int)
    requires RowsIncrease(p)
    ensures OriginOf(Reverse(p), x + Below(p, x)) == Kept(x)
    decreases |p|
  {
    if p != [] {
      var rest := p[1..];
      var b := Below(rest, x);
      KeptRowShifts(rest, x);
      if x < p[0].row {
        BelowNone(p, x);
        BelowNone(rest, x);
        OriginOfReverse(p, x);
      } else {
        assert Below(p, x) == b + 1;
        OriginOfReverse(p, x + b + 1);
      }
    }
  }

  lemma KeptRowMoves(p: seq<Insertion>, x: int)
    requires RowsIncrease(p)
    ensures OriginOf(Reverse(p), NewRow(p, x)) == Kept(x)
  {
    KeptRowShifts(p, x);
  }

  /** An insert planned at or above row `x` is still at or above any lower row. */
  lemma {:induction false} BelowMonotone(p: seq<Insertion>, x: int, y: int)
    requires x <= y
    ensures Below(p, x) <= Below(p, y)
    decreases |p|
  {
    if p != [] {
      BelowMonotone(p[1..], x, y);
    }
  }

  /** At the planned row of the `j`-th insert, `j + 1` inserts are planned
      at or above it. */
  lemma {:induction false} BelowPlanned(p: seq<Insertion>, j: nat)
    requires RowsIncrease(p) && j < |p|
    ensures Below(p, p[j].row) == j + 1
    decreases |p|
  {
    if j == 0 {
      BelowNone(p[1..], p[0].row);
    } else {
      BelowPlanned(p[1..], j - 1);
    }
  }

  /** The insert loop: `order` in turn, one parent row each. */
  method InsertPlannedRows(ws: Sheet, order: seq<Insertion>, lay: Layout, parentCol: nat)
    requires ws.grid.Valid() && Columns(lay, parentCol)
    requires forall k | 0 <= k < |order| :: order[k].row >= 1
    modifies ws
    ensures ws.grid == Inserted(old(ws.grid), order, lay, parentCol)
  {
    ghost var g := ws.grid;
    var inserted := 0;
    var i := 0;
    while i < |order|
      invariant 0 <= i <= |order| && inserted == i
      invariant ws.grid == Inserted(g, order[..i], lay, parentCol)
    {
      InsertedStep(g, order, i, lay, parentCol);
      InsertParentRow(ws, order[i], lay, parentCol);
      inserted := inserted + 1;
      i := i + 1;
    }
    assert order[..|order|] == order;
  }

  /** One planned insert: a blank row at the planned position, filled from
      the reference row, then the parent id in columns SKU, name and parent,
      and the picture columns emptied. */
  method InsertParentRow(ws: Sheet, ins: Insertion, lay: Layout, parentCol: nat)
    requires ws.grid.Valid() && ins.row >= 1 && Columns(lay, parentCol)
    modifies ws
    ensures ws.grid == WithParentRow(old(ws.grid), ins, lay, parentCol)
  {
    var pos := ins.row;
    var id := ins.parent;
    ws.InsertRow(pos);
    CopyRow(ws, ReferenceRow, pos);
    ws.SetCell(pos, SkuColumn, Text(id));
    ws.SetCell(pos, lay.name, Text(id));
    ws.SetCell(pos, parentCol, Text(id));
    FillRow(ws, pos, lay.ImageColumns(), Blank);
  }

  lemma InsertedStep(g: Grid, order: seq<Insertion>, i: nat, lay: Layout, parentCol: nat)
    requires g.Valid() && Columns(lay, parentCol) && i < |order|
    requires forall k | 0 <= k < |order| :: order[k].row >= 1
    ensures Inserted(g, order[..i + 1], lay, parentCol) == WithParentRow(Inserted(g, order[..i], lay, parentCol), order[i], lay, parentCol)
  {
    assert order[..i + 1][..i] == order[..i];
  }

  // Filling in the children's parent SKU.

  /** The update pass once rows `8 .. hi - 1` have been visited: a row whose
      column-1 value is a key gets that key's parent in `parentCol`. */
  function Updated(g: Grid, m: map<string, string>, parentCol: nat, hi: nat): (h: Grid)
    requires g.Valid() && parentCol >= 1
    ensures h.Valid()
    decreases hi
  {
    if hi <= DataStartRow then g
    else
      var h := Updated(g, m, parentCol, hi - 1);
      match ChildParent(h, m, hi - 1)
      case Some(p) => h.Set(hi - 1, parentCol, Text(p))
      case None => h
  }

  /** The update pass writes only the parent-SKU column, and there exactly
      the child rows in `8 .. hi - 1`, each with its own parent. */
  lemma {:induction false} UpdatedCells(g: Grid, m: map<string, string>, parentCol: nat, hi: nat)
    requires g.Valid() && parentCol >= 1
    ensures Updated(g, m, parentCol, hi).MaxRow() == g.MaxRow()
    ensures forall r, c {:trigger Updated(g, m, parentCol, hi).Get(r, c)} ::
              Updated(g, m, parentCol, hi).Get(r, c) ==
                if c == parentCol && DataStartRow <= r < hi && ChildParent(g, m, r).Some? then Text(ChildParent(g, m, r).value)
                else g.Get(r, c)
    decreases hi
  {
    if hi > DataStartRow {
      UpdatedCells(g, m, parentCol, hi - 1);
      var h := Updated(g, m, parentCol, hi - 1);
      assert h.Get(hi - 1, SkuColumn) == g.Get(hi - 1, SkuColumn);
      assert ChildParent(h, m, hi - 1) == ChildParent(g, m, hi - 1);
    }
  }

  /** The update loop over rows 8 to the `max_row` of the sheet with its parent rows. */
  method UpdateChildParents(ws: Sheet, m: map<string, string>, parentCol: nat)
    requires ws.grid.Valid() && parentCol >= 1
    modifies ws
    ensures ws.grid == Updated(old(ws.grid), m, parentCol, old(ws.grid).NextRow())
  {
    ghost var g := ws.grid;
    var row := DataStartRow;
    var maxRow := ws.grid.MaxRow();
    while row <= maxRow
      invariant DataStartRow <= row && (row <= maxRow + 1 || row == DataStartRow)
      invariant ws.grid == Updated(g, m, parentCol, row)
    {
      var v := ws.grid.Get(row, SkuColumn);
      if Truthy(v) {
        var sku := Str(v);
        if sku in m {
          ws.SetCell(row, parentCol, Text(m[sku]));
        }
      }
      row := row + 1;
    }
  }

  // The step as a whole.

  /** The plan has exactly one insert for each parent of a child row from
      row 8 to `max_row`, and no other. */
  lemma OnePerParent(g: Grid, m: map<string, string>)
    ensures forall id :: Planned(PlanOf(g, m), id) <==> exists r | DataStartRow <= r <= g.MaxRow() :: ChildParent(g, m, r) == Some(id)
    ensures DistinctParents(PlanOf(g, m))
  {
    var hi := g.NextRow();
    PlanRows(g, m, hi);
    PlanCovers(g, m, hi);
    PlanDistinct(g, m, hi);
    forall id | Planned(PlanOf(g, m), id)
      ensures exists r | DataStartRow <= r <= g.MaxRow() :: ChildParent(g, m, r) == Some(id)
    {
      var k :| 0 <= k < |PlanOf(g, m)| && PlanOf(g, m)[k].parent == id;
      assert ChildParent(g, m, PlanOf(g, m)[k].row) == Some(id);
    }
  }

  /** Original rows keep their relative order. */
  lemma KeptOrder(p: seq<Insertion>, x: int, y: int)
    requires x < y
    ensures NewRow(p, x) < NewRow(p, y)
  {
    BelowMonotone(p, x, y);
  }

  /** Every insert of `plan` is at a row from 8 to `max_row`. */
  predicate PlanRowsInSheet(g: Grid, plan: seq<Insertion>) {
    forall k | 0 <= k < |plan| :: ReferenceRow < plan[k].row <= g.MaxRow()
  }

  /** The insert loop on the plan sorted by descending row. */
  function Descending(g: Grid, p: seq<Insertion>, lay: Layout, parentCol: nat): (h: Grid)
    requires g.Valid() && Columns(lay, parentCol) && PlanRowsInSheet(g, p)
    ensures h.Valid()
  {
    ReverseIndex(p);
    Inserted(g, Reverse(p), lay, parentCol)
  }

  /** Each insert adds one row, and every cell comes from its origin. */
  lemma DescendingCells(g: Grid, p: seq<Insertion>, lay: Layout, parentCol: nat)
    requires g.Valid() && Columns(lay, parentCol) && PlanRowsInSheet(g, p)
    ensures Descending(g, p, lay, parentCol).MaxRow() == g.MaxRow() + |p|
    ensures forall r, c {:trigger Descending(g, p, lay, parentCol).Get(r, c)} ::
              Descending(g, p, lay, parentCol).Get(r, c) == OriginCell(g, OriginOf(Reverse(p), r), lay, parentCol, c)
  {
    ReverseIndex(p);
    InsertedCells(g, Reverse(p), lay, parentCol);
  }

  lemma DescendingSize(g: Grid, p: seq<Insertion>, lay: Layout, parentCol: nat)
    requires g.Valid() && Columns(lay, parentCol) && PlanRowsInSheet(g, p)
    ensures Descending(g, p, lay, parentCol).MaxRow() == g.MaxRow() + |p|
  {
    DescendingCells(g, p, lay, parentCol);
  }

  /** The row the parent row of the `j`-th insert ends at: its planned row plus `j`. */
  function ParentRowAt(p: seq<Insertion>, j: nat): int
    requires j < |p|
  {
    p[j].row + j
  }

  /** The parent row of each insert holds that insert's parent cells. */
  lemma ParentRowsAt(g: Grid, p: seq<Insertion>, lay: Layout, parentCol: nat)
    requires g.Valid() && Columns(lay, parentCol) && PlanRowsInSheet(g, p) && RowsIncrease(p)
    ensures forall j, c {:trigger Descending(g, p, lay, parentCol).Get(ParentRowAt(p, j), c)} | 0 <= j < |p| ::
              Descending(g, p, lay, parentCol).Get(ParentRowAt(p, j), c) == ParentCell(g, p[j].parent, lay, parentCol, c)
  {
    DescendingCells(g, p, lay, parentCol);
    ParentRowsLand(p);
  }

  /** Every original row `x` moves down by the number of inserts at or above it. */
  lemma KeptRowsAt(g: Grid, p: seq<Insertion>, lay: Layout, parentCol: nat)
    requires g.Valid() && Columns(lay, parentCol) && PlanRowsInSheet(g, p) && RowsIncrease(p)
    ensures forall x, c {:trigger Descending(g, p, lay, parentCol).Get(NewRow(p, x), c)} ::
              Descending(g, p, lay, parentCol).Get(NewRow(p, x), c) == g.Get(x, c)
  {
    forall x, c ensures Descending(g, p, lay, parentCol).Get(NewRow(p, x), c) == g.Get(x, c) {
      KeptRowAt(g, p, lay, parentCol, x, c);
    }
  }

  lemma KeptRowAt(g: Grid, p: seq<Insertion>, lay: Layout, parentCol: nat, x: int, c: int)
    requires g.Valid() && Columns(lay, parentCol) && PlanRowsInSheet(g, p) && RowsIncrease(p)
    ensures Descending(g, p, lay, parentCol).Get(NewRow(p, x), c) == g.Get(x, c)
  {
    DescendingFromOrigins(g, p, lay, parentCol);
    KeptRowMoves(p, x);
    KeptAtOrigin(g, Descending(g, p, lay, parentCol), Reverse(p), lay, parentCol, x, NewRow(p, x), c);
  }

  lemma DescendingFromOrigins(g: Grid, p: seq<Insertion>, lay: Layout, parentCol: nat)
    requires g.Valid() && Columns(lay, parentCol) && PlanRowsInSheet(g, p)
    ensures FromOrigins(g, Descending(g, p, lay, parentCol), Reverse(p), lay, parentCol)
  {
    DescendingCells(g, p, lay, parentCol);
  }

  /** In a sheet whose every cell is the cell of its origin, a row whose
      origin is the original row `x` holds the cells of `x`. */
  lemma KeptAtOrigin(g: Grid, d: Grid, order: seq<Insertion>, lay: Layout, parentCol: nat, x: int, y: int, c: int)
    requires FromOrigins(g, d, order, lay, parentCol)
    requires OriginOf(order, y) == Kept(x)
    ensures d.Get(y, c) == g.Get(x, c)
  {
    assert d.Get(y, c) == OriginCell(g, Kept(x), lay, parentCol, c);
  }

  /** Rows 1 to 7, above every insert, are unchanged. */
  lemma TopRowsUnchanged(g: Grid, p: seq<Insertion>, lay: Layout, parentCol: nat)
    requires g.Valid() && Columns(lay, parentCol) && PlanRowsInSheet(g, p) && RowsIncrease(p)
    ensures forall r, c {:trigger Descending(g, p, lay, parentCol).Get(r, c)} | r <= ReferenceRow ::
              Descending(g, p, lay, parentCol).Get(r, c) == g.Get(r, c)
  {
    DescendingFromOrigins(g, p, lay, parentCol);
    forall r, c | r <= ReferenceRow ensures Descending(g, p, lay, parentCol).Get(r, c) == g.Get(r, c) {
      TopRowStays(g, p, r);
      KeptAtOrigin(g, Descending(g, p, lay, parentCol), Reverse(p), lay, parentCol, r, r, c);
    }
  }

  lemma TopRowStays(g: Grid, p: seq<Insertion>, r: int)
    requires PlanRowsInSheet(g, p) && RowsIncrease(p) && r <= ReferenceRow
    ensures OriginOf(Reverse(p), r) == Kept(r)
  {
    BelowNone(p, r);
    KeptRowMoves(p, r);
  }

  /** The first child of each insert ends up directly below its parent row. */
  lemma FirstChildBelowParent(p: seq<Insertion>)
    requires RowsIncrease(p)
    ensures forall j | 0 <= j < |p| :: NewRow(p, p[j].row) == ParentRowAt(p, j) + 1
  {
    forall j | 0 <= j < |p| ensures NewRow(p, p[j].row) == ParentRowAt(p, j) + 1 {
      BelowPlanned(p, j);
    }
  }

  /** The plan of a sheet is one it can be inserted by. */
  lemma PlanFits(g: Grid, m: map<string, string>)
    ensures PlanRowsInSheet(g, PlanOf(g, m)) && RowsIncrease(PlanOf(g, m))
  {
    PlanRows(g, m, g.NextRow());
  }

  /** The sheet once the parent rows are inserted and the children updated. */
  function WithParents(g: Grid, m: map<string, string>, lay: Layout, parentCol: nat): (h: Grid)
    requires g.Valid() && Columns(lay, parentCol)
    ensures h.Valid()
  {
    PlanFits(g, m);
    var ins := Descending(g, PlanOf(g, m), lay, parentCol);
    Updated(ins, m, parentCol, ins.NextRow())
  }

  /** After the whole step, every original child row, wherever the inserts
      moved it, holds its parent in the parent-SKU column; no other cell
      of an original row has changed. */
  lemma {:induction false} ChildrenPointToParents(g: Grid, m: map<string, string>, lay: Layout, parentCol: nat)
    requires g.Valid() && Columns(lay, parentCol)
    ensures forall x | DataStartRow <= x && ChildParent(g, m, x).Some? ::
              WithParents(g, m, lay, parentCol).Get(NewRow(PlanOf(g, m), x), parentCol) == Text(ChildParent(g, m, x).value)
    ensures forall x, c {:trigger WithParents(g, m, lay, parentCol).Get(NewRow(PlanOf(g, m), x), c)} | c != parentCol ::
              WithParents(g, m, lay, parentCol).Get(NewRow(PlanOf(g, m), x), c) == g.Get(x, c)
  {
    var p := PlanOf(g, m);
    PlanFits(g, m);
    var ins := Descending(g, p, lay, parentCol);
    var w := Updated(ins, m, parentCol, ins.NextRow());
    assert WithParents(g, m, lay, parentCol) == w;
    DescendingSize(g, p, lay, parentCol);
    KeptRowsAt(g, p, lay, parentCol);
    UpdatedMovedRows(g, ins, m, parentCol, p);
    forall x | DataStartRow <= x && ChildParent(g, m, x).Some?
      ensures w.Get(NewRow(p, x), parentCol) == Text(ChildParent(g, m, x).value)
    {
    }
    forall x, c | c != parentCol
      ensures w.Get(NewRow(p, x), c) == g.Get(x, c)
    {
    }
  }

  /** The update pass on a sheet `h` in which each original row `x` sits at
      row `NewRow(p, x)`. */
  lemma UpdatedMovedRows(g: Grid, h: Grid, m: map<string, string>, parentCol: nat, p: seq<Insertion>)
    requires g.Valid() && h.Valid() && parentCol >= 1 && h.MaxRow() == g.MaxRow() + |p|
    requires forall x, c {:trigger h.Get(NewRow(p, x), c)} :: h.Get(NewRow(p, x), c) == g.Get(x, c)
    ensures forall x | DataStartRow <= x && ChildParent(g, m, x).Some? ::
              Updated(h, m, parentCol, h.NextRow()).Get(NewRow(p, x), parentCol) == Text(ChildParent(g, m, x).value)
    ensures forall x, c {:trigger Updated(h, m, parentCol, h.NextRow()).Get(NewRow(p, x), c)} | c != parentCol ::
              Updated(h, m, parentCol, h.NextRow()).Get(NewRow(p, x), c) == g.Get(x, c)
  {
    forall x | DataStartRow <= x && ChildParent(g, m, x).Some?
      ensures Updated(h, m, parentCol, h.NextRow()).Get(NewRow(p, x), parentCol) == Text(ChildParent(g, m, x).value)
    {
      BelowAtMost(p, x);
      MovedChildUpdated(g, h, m, parentCol, x, NewRow(p, x));
    }
    forall x, c | c != parentCol
      ensures Updated(h, m, parentCol, h.NextRow()).Get(NewRow(p, x), c) == g.Get(x, c)
    {
      MovedCellUpdated(g, h, m, parentCol, x, NewRow(p, x), c);
    }
  }

  /** The update pass on a row `y` of `h` that holds the SKU of the child row `x` of `g`. */
  lemma MovedChildUpdated(g: Grid, h: Grid, m: map<string, string>, parentCol: nat, x: int, y: int)
    requires g.Valid() && h.Valid() && parentCol >= 1
    requires DataStartRow <= x && ChildParent(g, m, x).Some?
    requires DataStartRow <= y <= h.MaxRow() && h.Get(y, SkuColumn) == g.Get(x, SkuColumn)
    ensures Updated(h, m, parentCol, h.NextRow()).Get(y, parentCol) == Text(ChildParent(g, m, x).value)
  {
    UpdatedCells(h, m, parentCol, h.NextRow());
  }

  /** The update pass leaves the cells outside the parent-SKU column alone. */
  lemma MovedCellUpdated(g: Grid, h: Grid, m: map<string, string>, parentCol: nat, x: int, y: int, c: int)
    requires g.Valid() && h.Valid() && parentCol >= 1 && c != parentCol
    requires h.Get(y, c) == g.Get(x, c)
    ensures Updated(h, m, parentCol, h.NextRow()).Get(y, c) == g.Get(x, c)
  {
    UpdatedCells(h, m, parentCol, h.NextRow());
  }

  lemma {:induction false} BelowAtMost(p: seq<Insertion>, x: int)
    ensures Below(p, x) <= |p|
    decreases |p|
  {
    if p != [] {
      BelowAtMost(p[1..], x);
    }
  }

  /** The parent-input table as the step finds it. */
  datatype ParentInput =
    | ParentInputMissing       // `Image_Titles_Add_Model.xlsx` does not exist
    | ParentIdColumnMissing    // the table has no `父类编号` column
    | ImageNameColumnMissing   // the table has rows but no `图片名称` column: the lookup raises
    | ParentTable(entries: seq<ChildEntry>)

  /** How the step ended. Every outcome but the last leaves the sheet unchanged. */
  datatype ParentOutcome =
    | NoParentSkuColumn
    | NoParentInput
    | NoParentIdColumn
    | ParentStepFailed
    | ParentRowsInserted(count: nat)

  /** The sheet after the step and how it ended: without a parent-SKU
      header in row 4, or without a usable table, nothing changes. */
  function ParentStep(g: Grid, lay: Layout, input: ParentInput): (r: (Grid, ParentOutcome))
    requires g.Valid() && lay.name >= 1 && lay.firstImage >= 1
    ensures r.0.Valid()
    ensures r.1.NoParentSkuColumn? <==> FindColumnByHeader(g, ParentSkuHeader, HeaderRow).None?
    ensures !r.1.ParentRowsInserted? ==> r.0 == g
    ensures r.1.ParentRowsInserted? <==> FindColumnByHeader(g, ParentSkuHeader, HeaderRow).Some? && input.ParentTable?
  {
    match FindColumnByHeader(g, ParentSkuHeader, HeaderRow)
    case None => (g, NoParentSkuColumn)
    case Some(parentCol) =>
      match input
      case ParentInputMissing => (g, NoParentInput)
      case ParentIdColumnMissing => (g, NoParentIdColumn)
      case ImageNameColumnMissing => (g, ParentStepFailed)
      case ParentTable(entries) =>
        var m := SkuToParent(entries);
        (WithParents(g, m, lay, parentCol), ParentRowsInserted(|PlanOf(g, m)|))
  }

  /** Updating the parent-SKU column touches rows 8 and below only. */
  lemma {:induction false} UpdatedKeepsHeader(g: Grid, m: map<string, string>, parentCol: nat, hi: nat)
    requires g.Valid() && parentCol >= 1
    ensures SameHeaderBlock(g, Updated(g, m, parentCol, hi))
    decreases hi
  {
    if hi > DataStartRow {
      UpdatedKeepsHeader(g, m, parentCol, hi - 1);
    }
  }

  /** The parent-row step, whatever its outcome, leaves rows 1 to 7 as they were. */
  lemma ParentStepKeepsHeader(g: Grid, lay: Layout, input: ParentInput)
    requires g.Valid() && lay.name >= 1 && lay.firstImage >= 1
    ensures SameHeaderBlock(g, ParentStep(g, lay, input).0)
  {
    var found := FindColumnByHeader(g, ParentSkuHeader, HeaderRow);
    if found.Some? && input.ParentTable? {
      var parentCol := found.value;
      var m := SkuToParent(input.entries);
      PlanFits(g, m);
      var ins := Descending(g, PlanOf(g, m), lay, parentCol);
      TopRowsUnchanged(g, PlanOf(g, m), lay, parentCol);
      UpdatedKeepsHeader(ins, m, parentCol, ins.NextRow());
      assert ParentStep(g, lay, input).0 == Updated(ins, m, parentCol, ins.NextRow());
    }
  }

  /** The parent-row step on the worksheet. */
  method AddParentRows(ws: Sheet, lay: Layout, input: ParentInput) returns (outcome: ParentOutcome)
    requires ws.grid.Valid() && lay.name >= 1 && lay.firstImage >= 1
    modifies ws
    ensures (ws.grid, outcome) == ParentStep(old(ws.grid), lay, input)
  {
    var found := FindColumnByHeader(ws.grid, ParentSkuHeader, HeaderRow);
    if found.None? {
      return NoParentSkuColumn;
    }
    var parentCol := found.value;
    match input
    case ParentInputMissing => outcome := NoParentInput;
    case ParentIdColumnMissing => outcome := NoParentIdColumn;
    case ImageNameColumnMissing => outcome := ParentStepFailed;
    case ParentTable(entries) =>
      ghost var g := ws.grid;
      var m := BuildSkuToParent(entries);
      var plan := PlanParentRows(ws, m);
      var order := Reverse(plan);
      PlanFits(g, m);
      ReverseIndex(plan);
      InsertPlannedRows(ws, order, lay, parentCol);
      ghost var ins := ws.grid;
      assert ins == Descending(g, plan, lay, parentCol);
      UpdateChildParents(ws, m, parentCol);
      outcome := ParentRowsInserted(|plan|);
      TableStep(g, lay, entries, parentCol, ins, ws.grid);
  }

  /** The step on a parent-input table, once the parent-SKU column is found. */
  lemma TableStep(g: Grid, lay: Layout, entries: seq<ChildEntry>, parentCol: nat, ins: Grid, w: Grid)
    requires g.Valid() && lay.name >= 1 && lay.firstImage >= 1
    requires FindColumnByHeader(g, ParentSkuHeader, HeaderRow) == Some(parentCol)
    requires PlanRowsInSheet(g, PlanOf(g, SkuToParent(entries))) && ins == Descending(g, PlanOf(g, SkuToParent(entries)), lay, parentCol)
    requires w == Updated(ins, SkuToParent(entries), parentCol, ins.NextRow())
    ensures ParentStep(g, lay, ParentTable(entries)) == (w, ParentRowsInserted(|PlanOf(g, SkuToParent(entries))|))
  {
  }
}
