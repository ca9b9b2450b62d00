/** The merge as a whole: read the input table, pick the template sheet, run
    the row-matching steps, choose a free output name, add the parent rows,
    and save. */
module Merge {
  import opened Options
  import opened Text
  import opened Sheets
  import opened Headers
  import opened Config
  import opened RowMatching
  import opened OutputNames
  import opened ParentRows

  /** The input workbook written by the previous stage, in the result folder. */
  const InputFileName := "Image_Titles_Add_Model.xlsx"

  const ImageNameColumn := "图片名称"
  const TitleColumn := "亚马逊产品标题"
  const ImageNumberColumn := "图片编号"
  const ModelColumn := "型号"
  const ParentIdColumn := "父类编号"

  /** The columns the input table must have, in the order they are reported. */
  const RequiredColumns: seq<string> :=
    [ImageNameColumn, TitleColumn, "亚马逊产品标题翻译", "短标题", "短标题翻译", ImageNumberColumn, ModelColumn]

  /** The sheet names tried, in order. */
  const TemplateSheetNames: seq<string> := ["模板", "Template"]

  /** A non-empty cell of a table as pandas reads it: text or an integer. */
  datatype TableValue = TextValue(s: string) | IntValue(n: int)

  /** A table as pandas reads it: its column names, and for each row the
      value of each non-empty cell by column name. */
  datatype Table = Table(columns: seq<string>, rows: seq<map<string, TableValue>>)

  /** `str(row[col])`: an empty cell reads as NaN, whose text is `nan`. */
  function Field(row: map<string, TableValue>, col: string): string {
    if col !in row then "nan"
    else match row[col]
      case TextValue(s) => s
      case IntValue(n) => IntToString(n)
  }

  /** `row[col]` used as a dictionary key, as far as a lookup by the text of a
      sheet cell can find it: a text value is found by its text, while an
      empty cell (NaN) or a number never equals a text. */
  function Key(row: map<string, TableValue>, col: string): (k: Option<string>)
    ensures k.Some? <==> col in row && row[col].TextValue?
    ensures k.Some? ==> k.value == Field(row, col)
  {
    if col in row && row[col].TextValue? then Some(row[col].s) else None
  }

  /** `[col for col in required if col not in columns]`. */
  function Missing(required: seq<string>, columns: seq<string>): (missing: seq<string>)
    ensures forall c :: c in missing <==> c in required && c !in columns
    ensures |missing| <= |required|
  {
    if required == [] then []
    else (if required[0] in columns then [] else [required[0]]) + Missing(required[1..], columns)
  }

  /** The required columns the input table lacks. */
  function MissingColumns(t: Table): seq<string> {
    Missing(RequiredColumns, t.columns)
  }

  /** The first of `preferred` that is among `names`. */
  function FirstPresent(preferred: seq<string>, names: seq<string>): (r: Option<string>)
    ensures r.Some? ==> r.value in names && exists i | 0 <= i < |preferred| :: preferred[i] == r.value && forall j | 0 <= j < i :: preferred[j] !in names
    ensures r.None? <==> forall i | 0 <= i < |preferred| :: preferred[i] !in names
  {
    if preferred == [] then None
    else if preferred[0] in names then Some(preferred[0])
    else
      var r := FirstPresent(preferred[1..], names);
      assert forall i | 1 <= i < |preferred| :: preferred[i] == preferred[1..][i - 1];
      r
  }

  /** The worksheet the merge edits: `模板` when there is one, else `Template`. */
  function PickTemplateSheet(names: seq<string>): Option<string> {
    FirstPresent(TemplateSheetNames, names)
  }

  lemma TemplateSheetChoice(names: seq<string>)
    ensures TemplateSheetNames[0] in names ==> PickTemplateSheet(names) == Some(TemplateSheetNames[0])
    ensures TemplateSheetNames[0] !in names && TemplateSheetNames[1] in names ==> PickTemplateSheet(names) == Some(TemplateSheetNames[1])
    ensures TemplateSheetNames[0] !in names && TemplateSheetNames[1] !in names ==> PickTemplateSheet(names) == None
  {
    var r := PickTemplateSheet(names);
    if r.Some? {
      var i :| 0 <= i < |TemplateSheetNames| && TemplateSheetNames[i] == r.value && forall j | 0 <= j < i :: TemplateSheetNames[j] !in names;
      assert i == 0 || i == 1;
    }
  }

  /** The mapping lists built from the input table, one entry per row. */
  function InputRows(t: Table): (rows: seq<InputRow>)
    ensures |rows| == |t.rows|
    ensures forall i | 0 <= i < |t.rows| ::
              rows[i] == InputRow(Field(t.rows[i], ImageNameColumn), Field(t.rows[i], TitleColumn),
                                  Field(t.rows[i], ImageNumberColumn), Field(t.rows[i], ModelColumn))
  {
    seq(|t.rows|, i requires 0 <= i < |t.rows| =>
      InputRow(Field(t.rows[i], ImageNameColumn), Field(t.rows[i], TitleColumn),
               Field(t.rows[i], ImageNumberColumn), Field(t.rows[i], ModelColumn)))
  }

  function ImageNumbers(input: seq<InputRow>): (values: seq<string>)
    ensures |values| == |input| && forall i | 0 <= i < |input| :: values[i] == input[i].imageNumber
  {
    seq(|input|, i requires 0 <= i < |input| => input[i].imageNumber)
  }

  function Models(input: seq<InputRow>): (values: seq<string>)
    ensures |values| == |input| && forall i | 0 <= i < |input| :: values[i] == input[i].model
  {
    seq(|input|, i requires 0 <= i < |input| => input[i].model)
  }

  /** What the parent-row step finds in the table it reads, or `None` when
      that file does not exist. */
  function ParentInputOf(t: Option<Table>): (p: ParentInput)
    ensures p.ParentTable? ==> t.Some? && ParentIdColumn in t.value.columns && |p.entries| == |t.value.rows|
    ensures p.ParentTable? ==> forall i | 0 <= i < |p.entries| ::
              p.entries[i] == ChildEntry(Key(t.value.rows[i], ImageNameColumn), Field(t.value.rows[i], ParentIdColumn))
    ensures p == ParentInputMissing <==> t.None?
    ensures p == ImageNameColumnMissing <==> t.Some? && ParentIdColumn in t.value.columns && ImageNameColumn !in t.value.columns && t.value.rows != []
  {
    match t
    case None => ParentInputMissing
    case Some(table) =>
      if ParentIdColumn !in table.columns then ParentIdColumnMissing
      else if ImageNameColumn !in table.columns && table.rows != [] then ImageNameColumnMissing
      else ParentTable(seq(|table.rows|, i requires 0 <= i < |table.rows| =>
             ChildEntry(Key(table.rows[i], ImageNameColumn), Field(table.rows[i], ParentIdColumn))))
  }

  /** A child whose image name is empty in the parent table is never found:
      its step-1 SKU is the text `nan`, which is not a key of the dictionary. */
  lemma EmptyImageNameIsNoKey(parent: string)
    ensures var t := Table([ImageNameColumn, ParentIdColumn], [map[ParentIdColumn := TextValue(parent)]]);
      && Field(t.rows[0], ImageNameColumn) == "nan"
      && ParentInputOf(Some(t)) == ParentTable([ChildEntry(None, parent)])
      && "nan" !in SkuToParent(ParentInputOf(Some(t)).entries)
  {
    var t := Table([ImageNameColumn, ParentIdColumn], [map[ParentIdColumn := TextValue(parent)]]);
    assert ImageNameColumn != ParentIdColumn;
    assert ImageNameColumn !in t.rows[0];
    SkuToParentSpec(ParentInputOf(Some(t)).entries);
  }

  /** A numeric image name is never found either: the dictionary is keyed by
      the number, and the sheet cell is looked up by its text. */
  lemma NumericImageNameIsNoKey(n: int, parent: string)
    ensures var t := Table([ImageNameColumn, ParentIdColumn], [map[ImageNameColumn := IntValue(n), ParentIdColumn := TextValue(parent)]]);
      && ParentInputOf(Some(t)) == ParentTable([ChildEntry(None, parent)])
      && SkuToParent(ParentInputOf(Some(t)).entries) == map[]
  {
    var t := Table([ImageNameColumn, ParentIdColumn], [map[ImageNameColumn := IntValue(n), ParentIdColumn := TextValue(parent)]]);
    assert ImageNameColumn != ParentIdColumn;
    SkuToParentSpec(ParentInputOf(Some(t)).entries);
  }

  /** Everything the merge reads besides the template sheet itself. */
  datatype Environment = Environment(
    config: Option<seq<string>>,  // the lines of `config.txt`, if it exists
    input: Option<Table>,         // the input workbook in the result folder, if it exists
    sheetNames: seq<string>,      // the sheets of the template workbook
    resultFiles: set<string>,     // the names of the files already in the result folder
    parentInput: Option<Table>)   // the table the parent-row step reads, if it exists

  /** How the merge ended. */
  datatype Outcome =
    | NoInputFile
    | MissingInputColumns(missing: seq<string>)
    | NoTemplateSheet
    | Saved(folder: Folder, name: string, renames: nat, parents: ParentOutcome)

  predicate Aborted(o: Outcome) {
    !o.Saved?
  }

  /** The rows of a sheet the steps work on: the data rows found from row 8,
      then one appended row per input row beyond them. */
  function WorkRows(g: Grid, inputCount: nat): (rows: seq<nat>)
    ensures forall k | 0 <= k < |rows| :: rows[k] >= 1
  {
    DataRowsFromSpec(g, DataStartRow);
    DataRowsFrom(g, DataStartRow) + NewRowNumbers(g.MaxRow(), Extra(DataRowsFrom(g, DataStartRow), inputCount))
  }

  /** `rows_to_keep`: the rows that received an input row. */
  function KeptSet(rows: seq<nat>, inputCount: nat): set<nat> {
    var matched := rows[..Min(|rows|, inputCount)];
    set r | r in matched
  }

  /** The sheet after the appended rows, step 1 and step 2. */
  function Rewritten(g: Grid, input: seq<InputRow>, lay: Layout): (h: Grid)
    requires g.Valid() && lay.name >= 1 && lay.firstImage >= 1
    ensures h.Valid()
  {
    var found := DataRowsFrom(g, DataStartRow);
    var rows := WorkRows(g, |input|);
    var appended := AppendPass(g, found, Extra(found, |input|));
    var named := SkuNamePass(appended, rows, input, lay.name, |rows|);
    LinkPass(named, rows, input, lay.firstImage, lay.imageCount, |rows|, RebuiltLink)
  }

  /** Steps 3 and 4: the picture numbers, then the models. */
  function Filled(g: Grid, rows: seq<nat>, input: seq<InputRow>): (h: Grid)
    requires g.Valid() && forall k | 0 <= k < |rows| :: rows[k] >= 1
    ensures h.Valid()
  {
    var numbered := FillPass(g, rows, ImageNumbers(input), NumberColumns, |rows|);
    FillPass(numbered, rows, Models(input), ModelColumns, |rows|)
  }

  /** The sheet after steps 1 to 8, from the template sheet `g` and the input rows. */
  function Matched(g: Grid, input: seq<InputRow>, lay: Layout): (h: Grid)
    requires g.Valid() && lay.name >= 1 && lay.firstImage >= 1
    ensures h.Valid()
  {
    var rows := WorkRows(g, |input|);
    var filled := Filled(Rewritten(g, input, lay), rows, input);
    var trimmed := Deleted(filled, KeptSet(rows, |input|), DataStartRow);
    CountPass(trimmed, rows, lay.name, CountColumn(trimmed), |rows|)
  }

  /** The appended rows, step 1 and step 2 on the worksheet. */
  method RewriteRows(ws: Sheet, input: seq<InputRow>, lay: Layout) returns (rows: seq<nat>, keep: set<nat>)
    requires ws.grid.Valid() && lay.name >= 1 && lay.firstImage >= 1
    modifies ws
    ensures ws.grid == Rewritten(old(ws.grid), input, lay)
    ensures rows == WorkRows(old(ws.grid), |input|) && keep == KeptSet(rows, |input|)
  {
    ghost var g := ws.grid;
    var found := CollectDataRows(ws);
    DataRowsFromSpec(g, DataStartRow);
    rows := AppendCopies(ws, found, |input|);
    keep := OverwriteSkuAndName(ws, rows, input, lay.name);
    RebuildImageLinks(ws, rows, input, lay.firstImage, lay.imageCount, RebuiltLink);
  }

  /** Steps 3 and 4 on the worksheet. */
  method FillRows(ws: Sheet, rows: seq<nat>, input: seq<InputRow>)
    requires ws.grid.Valid() && forall k | 0 <= k < |rows| :: rows[k] >= 1
    modifies ws
    ensures ws.grid == Filled(old(ws.grid), rows, input)
  {
    FillColumns(ws, rows, ImageNumbers(input), NumberColumns);
    FillColumns(ws, rows, Models(input), ModelColumns);
  }

  /** Steps 1 to 8 on the worksheet. */
  method MatchRows(ws: Sheet, input: seq<InputRow>, lay: Layout)
    requires ws.grid.Valid() && lay.name >= 1 && lay.firstImage >= 1
    modifies ws
    ensures ws.grid == Matched(old(ws.grid), input, lay)
  {
    ghost var g := ws.grid;
    var rows, keep := RewriteRows(ws, input, lay);
    ghost var rewritten := ws.grid;
    FillRows(ws, rows, input);
    ghost var filled := ws.grid;
    DeleteUnkeptRows(ws, keep);
    ghost var trimmed := ws.grid;
    AddCharCounts(ws, rows, lay.name);
    MatchedSteps(g, input, lay, rows, rewritten, filled, trimmed, ws.grid);
  }

  lemma MatchedSteps(g: Grid, input: seq<InputRow>, lay: Layout, rows: seq<nat>,
                     rewritten: Grid, filled: Grid, trimmed: Grid, counted: Grid)
    requires g.Valid() && lay.name >= 1 && lay.firstImage >= 1
    requires rows == WorkRows(g, |input|) && rewritten == Rewritten(g, input, lay)
    requires filled == Filled(rewritten, rows, input)
    requires trimmed == Deleted(filled, KeptSet(rows, |input|), DataStartRow)
    requires counted == CountPass(trimmed, rows, lay.name, CountColumn(trimmed), |rows|)
    ensures counted == Matched(g, input, lay)
  {
  }

  /** Header rows are never rewritten: when the template reaches at least
      row 7, every row the merge writes lies at row 8 or below, so rows 1 to
      7 of the saved sheet are those of the template. */
  lemma MergeKeepsHeader(g: Grid, input: seq<InputRow>, lay: Layout, parents: ParentInput)
    requires g.Valid() && g.MaxRow() >= ReferenceRow && lay.name >= 1 && lay.firstImage >= 1
    ensures SameHeaderBlock(g, ParentStep(Matched(g, input, lay), lay, parents).0)
  {
    var matched := Matched(g, input, lay);
    MatchedKeepsHeader(g, input, lay);
    ParentStepKeepsHeader(matched, lay, parents);
    SameHeaderTrans(g, matched, ParentStep(matched, lay, parents).0);
  }

  lemma SameHeaderTrans(a: Grid, b: Grid, c: Grid)
    requires SameHeaderBlock(a, b) && SameHeaderBlock(b, c)
    ensures SameHeaderBlock(a, c)
  {
  }

  lemma {:induction false} MatchedKeepsHeader(g: Grid, input: seq<InputRow>, lay: Layout)
    requires g.Valid() && g.MaxRow() >= ReferenceRow && lay.name >= 1 && lay.firstImage >= 1
    ensures SameHeaderBlock(g, Matched(g, input, lay))
  {
    var rows := WorkRows(g, |input|);
    var rewritten := Rewritten(g, input, lay);
    RewrittenKeepsHeader(g, input, lay);
    var filled := Filled(rewritten, rows, input);
    FilledKeepsHeader(rewritten, rows, input);
    SameHeaderTrans(g, rewritten, filled);
    var trimmed := Deleted(filled, KeptSet(rows, |input|), DataStartRow);
    DeletedCells(filled, KeptSet(rows, |input|), DataStartRow);
    SameHeaderTrans(g, filled, trimmed);
    CountPassKeepsHeader(trimmed, rows, lay.name, CountColumn(trimmed), |rows|);
    SameHeaderTrans(g, trimmed, Matched(g, input, lay));
  }

  lemma {:induction false} RewrittenKeepsHeader(g: Grid, input: seq<InputRow>, lay: Layout)
    requires g.Valid() && g.MaxRow() >= ReferenceRow && lay.name >= 1 && lay.firstImage >= 1
    ensures SameHeaderBlock(g, Rewritten(g, input, lay))
  {
    var found := DataRowsFrom(g, DataStartRow);
    var rows := WorkRows(g, |input|);
    WorkRowsBelowHeader(g, |input|);
    var appended := AppendPass(g, found, Extra(found, |input|));
    AppendPassCells(g, found, Extra(found, |input|));
    var named := SkuNamePass(appended, rows, input, lay.name, |rows|);
    SkuNamePassKeepsHeader(appended, rows, input, lay.name, |rows|);
    SameHeaderTrans(g, appended, named);
    LinkPassKeepsHeader(named, rows, input, lay.firstImage, lay.imageCount, |rows|, RebuiltLink);
    SameHeaderTrans(g, named, Rewritten(g, input, lay));
  }

  lemma {:induction false} FilledKeepsHeader(g: Grid, rows: seq<nat>, input: seq<InputRow>)
    requires g.Valid() && forall k | 0 <= k < |rows| :: rows[k] >= 1
    ensures SameHeaderBlock(g, Filled(g, rows, input))
  {
    var numbered := FillPass(g, rows, ImageNumbers(input), NumberColumns, |rows|);
    FillPassKeepsHeader(g, rows, ImageNumbers(input), NumberColumns, |rows|);
    FillPassKeepsHeader(numbered, rows, Models(input), ModelColumns, |rows|);
    SameHeaderTrans(g, numbered, Filled(g, rows, input));
  }

  /** The rows the passes visit start at row 8 once the template reaches row 7. */
  lemma WorkRowsBelowHeader(g: Grid, inputCount: nat)
    requires g.MaxRow() >= ReferenceRow
    ensures BelowHeader(WorkRows(g, inputCount))
  {
    DataRowsFromSpec(g, DataStartRow);
  }

  /** `main`, from the input-file check to the save. `ws` is the worksheet of
      the template workbook named `PickTemplateSheet(env.sheetNames)`, when
      there is one; the sheet is changed only when the merge is saved. */
  method Merge(env: Environment, ws: Sheet) returns (outcome: Outcome)
    requires ws.grid.Valid()
    modifies ws
    ensures env.input.None? <==> outcome == NoInputFile
    ensures env.input.Some? && MissingColumns(env.input.value) != [] <==> outcome.MissingInputColumns?
    ensures outcome.MissingInputColumns? ==> outcome.missing == MissingColumns(env.input.value)
    ensures outcome == NoTemplateSheet <==>
              env.input.Some? && MissingColumns(env.input.value) == [] && PickTemplateSheet(env.sheetNames).None?
    ensures Aborted(outcome) ==> ws.grid == old(ws.grid)
    ensures outcome.Saved? ==>
              var lay := LocateColumns(old(ws.grid));
              var matched := Matched(old(ws.grid), InputRows(env.input.value), lay);
              (ws.grid, outcome.parents) == ParentStep(matched, lay, ParentInputOf(env.parentInput))
    ensures outcome.Saved? ==>
              outcome.folder == ResultFolder(env.config) &&
              outcome.name == Candidate(OutputFileName, outcome.renames) && outcome.name !in env.resultFiles &&
              (forall k | 0 <= k < outcome.renames :: Candidate(OutputFileName, k) in env.resultFiles)
  {
    if env.input.None? {
      return NoInputFile;
    }
    var table := env.input.value;
    var missing := MissingColumns(table);
    if missing != [] {
      return MissingInputColumns(missing);
    }
    var sheet := PickTemplateSheet(env.sheetNames);
    if sheet.None? {
      return NoTemplateSheet;
    }
    var lay := LocateColumns(ws.grid);
    var input := InputRows(table);
    MatchRows(ws, input, lay);
    var name, renames := FreeOutputName(OutputFileName, env.resultFiles);
    var parents := AddParentRows(ws, lay, ParentInputOf(env.parentInput));
    outcome := Saved(ResultFolder(env.config), name, renames, parents);
  }
}
