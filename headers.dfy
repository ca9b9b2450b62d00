/** Finding columns by the text of their header cell (row 4 of the template). */
module Headers {
  import opened Options
  import opened Text
  import opened Sheets

  const HeaderRow := 4
  const DefaultNameColumn := 4
  const ImageColumnCount := 7
  const MainImageHeaders: seq<string> := ["主图像链接地址", "Main Image URL"]
  const ProductNameHeaders: seq<string> := ["产品名称", "产品名", "Product Name", "item_name"]
  const ParentSkuHeader := "父条目的库存单位"

  /** The columns that receive the picture number (`BC`, `BK`) and the model (`BE`, `BX`, `CU`). */
  const NumberColumns: seq<nat> := [55, 63]
  const ModelColumns: seq<nat> := [57, 76, 99]

  /** `cell_value and header_text in str(cell_value)`. */
  predicate Mentions(v: Cell, text: string) {
    Truthy(v) && Contains(Str(v), text)
  }

  /** `cell_value and any(t in str(cell_value) for t in texts)`. */
  predicate MentionsAny(v: Cell, texts: seq<string>) {
    Truthy(v) && exists t | t in texts :: Contains(Str(v), t)
  }

  /** The scan `for col in range(from, max_column + 1)` over row `row`, stopping at
      the first header that mentions one of `texts`. */
  function FirstMentionFrom(g: Grid, row: int, texts: seq<string>, from: nat): (r: Option<nat>)
    requires from >= 1
    ensures r.Some? ==> from <= r.value <= g.Cols() && MentionsAny(g.Get(row, r.value), texts)
    ensures r.Some? ==> forall c | from <= c < r.value :: !MentionsAny(g.Get(row, c), texts)
    ensures r.None? ==> forall c | from <= c <= g.Cols() :: !MentionsAny(g.Get(row, c), texts)
    decreases g.Cols() + 1 - from
  {
    if from > g.Cols() then None
    else if MentionsAny(g.Get(row, from), texts) then Some(from)
    else FirstMentionFrom(g, row, texts, from + 1)
  }

  /** `find_column_by_multiple_headers`: the smallest column in `1..max_column`
      whose header mentions one of `texts`, or `None` when there is none. */
  function FindColumnByMultipleHeaders(g: Grid, texts: seq<string>, row: int): (r: Option<nat>)
    ensures r.Some? <==> exists c | 1 <= c <= g.Cols() :: MentionsAny(g.Get(row, c), texts)
    ensures r.Some? ==> 1 <= r.value <= g.Cols() && MentionsAny(g.Get(row, r.value), texts)
    ensures r.Some? ==> forall c | 1 <= c < r.value :: !MentionsAny(g.Get(row, c), texts)
  {
    FirstMentionFrom(g, row, texts, 1)
  }

  /** `find_column_by_header` (and `find_first_column_by_header`, whose body is
      the same): the smallest column in `1..max_column` whose header mentions
      `text`, or `None` when there is none. */
  function FindColumnByHeader(g: Grid, text: string, row: int): (r: Option<nat>)
    ensures r.Some? <==> exists c | 1 <= c <= g.Cols() :: Mentions(g.Get(row, c), text)
    ensures r.Some? ==> 1 <= r.value <= g.Cols() && Mentions(g.Get(row, r.value), text)
    ensures r.Some? ==> forall c | 1 <= c < r.value :: !Mentions(g.Get(row, c), text)
  {
    assert forall v: Cell :: MentionsAny(v, [text]) <==> Mentions(v, text);
    FindColumnByMultipleHeaders(g, [text], row)
  }

  /** Where the merge step writes: the product-name column, and the
      image-link block `firstImage .. firstImage + imageCount - 1`. */
  datatype Layout = Layout(name: nat, firstImage: nat, imageCount: nat) {
    /** `image_columns`, in order. */
    function ImageColumns(): (cs: seq<nat>)
      ensures |cs| == imageCount && forall k | 0 <= k < imageCount :: cs[k] == firstImage + k
    {
      seq(imageCount, k => firstImage + k)
    }
  }

  /** The columns the merge step locates in the header row: the seven
      columns starting at the main-image column (none when it is missing),
      and the product-name column, which falls back to column 4. */
  function LocateColumns(g: Grid): (lay: Layout)
    ensures lay.name >= 1 && lay.firstImage >= 1
    ensures lay.imageCount == if FindColumnByMultipleHeaders(g, MainImageHeaders, HeaderRow).Some? then ImageColumnCount else 0
    ensures lay.imageCount > 0 ==> lay.firstImage == FindColumnByMultipleHeaders(g, MainImageHeaders, HeaderRow).value
    ensures lay.name == match FindColumnByMultipleHeaders(g, ProductNameHeaders, HeaderRow)
                        case Some(c) => c
                        case None => DefaultNameColumn
  {
    var name := match FindColumnByMultipleHeaders(g, ProductNameHeaders, HeaderRow)
                case Some(c) => c
                case None => DefaultNameColumn;
    match FindColumnByMultipleHeaders(g, MainImageHeaders, HeaderRow)
    case Some(m) => Layout(name, m, ImageColumnCount)
    case None => Layout(name, 1, 0)
  }
}
