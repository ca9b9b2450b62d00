# Template merger, modelled in Dafny

This project models the template-merge stage of the Amazon listing pipeline,
`Ultimately.py`. The stage reads the input table of generated titles
(`Image_Titles_Add_Model.xlsx`). It fills the data rows of the listing
template's `模板` (or `Template`) worksheet from that table and saves the
result as `Final_Template.xlsm` in the result folder. Before saving it may
add one parent row per parent product.

The worksheet is a grid of cell values (`Sheets.Grid`), numbered from 1,
whose extent is openpyxl's `max_row` and `max_column`. The sheet the merge
edits is a `Sheets.Sheet` object. Its `SetCell`, `InsertRow` and `DeleteRow`
methods replace that grid, and every step of `main` that changes the sheet
is a method with a loop over it. Each such method is proved equal to a
function of the old grid. The properties the code promises are lemmas about
those functions:

- **Column lookup** (`Headers`): the `find_column_by_*` helpers, the
  block of seven image columns, and the product-name column that falls back
  to column 4.
- **Config scan** (`Config`): the two `RESULT_FOLDER_PATH` scans of `config.txt`.
- **Image URLs** (`ImageUrls`): a hand-written matcher for
  `(http://[^/]+/)([^/]+/)([^.]+)(\..+)$` with the leftmost-start semantics
  of `re.search`, and the URL built from it.
- **Row matching** (`RowMatching`), the numbered steps of `main`:
  - collecting the data rows;
  - appending copies of the last row;
  - writing SKU and product name;
  - rebuilding the image links;
  - writing the number and model columns;
  - deleting the unkept rows bottom-up;
  - the character-count column.
- **Output name** (`OutputNames`): the `while exists` loop, with the existing
  files given as a set.
- **Parent rows** (`ParentRows`):
  - the SKU-to-parent dictionary;
  - the planned insert positions;
  - the descending insertions copied from row 7;
  - the update of every child's parent-SKU cell.
- **The whole run** (`Merge`): from the input-file check to the outcome of
  the save.

The program reads files, folder listings and configuration. The model takes
these as data, in `Merge.Environment`:
- the lines of `config.txt`;
- the input table, already read as text;
- the sheet names;
- the names already in the result folder;
- the table the parent-row step reads.

Step 2 builds each link with a builder that is a parameter of the pass
(`RowMatching.LinkBuilder`); the merge passes `RowMatching.RebuiltLink`, the
URL rebuild of the source.

On a name collision, the code takes the stem of the current candidate, not
of the original name, so suffixes accumulate: `X_1`, then `X_1_2`, rather than
`X_2`. The model follows the code (`OutputNames.CandidatesAccumulate`,
`OutputNames.SecondRenameOfOutput`).

## Model

| member | source | states |
|---|---|---|
| Text.Strip | Ultimately.py:36-36 | `str.strip()`: the result has no whitespace at either end, and it is empty exactly when the line is all whitespace |
| Text.StripIsInfix | Ultimately.py:36-36 | `str.strip()` keeps a stretch of the line with only whitespace before and after it, so it removes only leading and trailing whitespace |
| Config.ParseLineCuts | Ultimately.py:35-38 | a line takes part exactly when it is non-empty once stripped, does not start with `#`, and holds `=`; it is cut at its first `=`, so the value may contain `=` |
| Config.FirstSettingWins | Ultimately.py:35-41 | the first line whose stripped key is `RESULT_FOLDER_PATH` decides the value, whatever the lines after it say |
| Config.NoSettingFound | Ultimately.py:35-41 | the scan finds nothing exactly when no line sets `RESULT_FOLDER_PATH` |
| Config.ResultFolderLineOf | Ultimately.py:36-40 | the line `RESULT_FOLDER_PATH=v` sets `v`, for a trimmed `v` |
| Config.SettingRoundTrip | Ultimately.py:35-41 | writing `RESULT_FOLDER_PATH=v` as the first line and scanning gives back `v` |
| Config.ResultFolder | Ultimately.py:30-47 | the folder is the configured one only when the file exists and its first setting is non-empty; a missing file, missing setting or empty value gives the default folder |
| Config.SecondScanFirstSetting | Ultimately.py:542-551 | the second scan gives the value of the first `RESULT_FOLDER_PATH` line, whatever the lines after it say |
| Config.SecondScanDefault | Ultimately.py:542-551 | a missing file, or a file without a `RESULT_FOLDER_PATH` line, gives the relative `Result` |
| Config.EmptySettingKeptBySecondScan | Ultimately.py:542-551 | a first line `RESULT_FOLDER_PATH=` makes the second scan give the empty string, while the first scan falls back to the default folder |
| Config.ScansAgree | Ultimately.py:542-551 | the two scans agree on every non-empty setting; where the first falls back to the default, the second gives `Result` or the empty string |
| Headers.FindColumnByHeader | Ultimately.py:52-86 | `find_column_by_header` and `find_first_column_by_header` give a column exactly when some header in `1..max_column` mentions the text, and then the smallest such column |
| Headers.FindColumnByMultipleHeaders | Ultimately.py:88-104 | a column exactly when some header in `1..max_column` mentions one of the texts, and then the smallest such column |
| Headers.LocateColumns | Ultimately.py:199-243 | seven image columns from the first main-image header, none when there is no such header; the product-name column is the first product-name header, or column 4 |
| ImageUrls.MatchAtSound | Ultimately.py:396-396 | what the matcher returns at a start position is a match of the pattern there, with groups of the pattern's shapes |
| ImageUrls.MatchAtComplete | Ultimately.py:396-396 | every match of the pattern at a start position is exactly what the matcher returns there |
| ImageUrls.Search | Ultimately.py:396-397 | `re.search`: the result is a match at the leftmost start position that has one, and `None` only when no position matches |
| ImageUrls.SearchFromSkips | Ultimately.py:396-397 | the search passes over exactly the start positions without a match |
| ImageUrls.FolderParts | Ultimately.py:392-424 | base and prefix always have the shapes `http://[^/]+/` and `[^/]+/`, whether they come from the template match or from the hard-coded folder |
| ImageUrls.ImageSuffix | Ultimately.py:404-409 | the suffix `.MAIN.jpg` or `.PTnn.jpg` matches the pattern's last group |
| ImageUrls.RebuiltUrlMatches | Ultimately.py:396-412 | a URL built from a base, a prefix and a plain SKU parses back to the same base and prefix |
| ImageUrls.RowEightRebuildKeepsFolder | Ultimately.py:386-412 | rebuilding from an already rebuilt row-8 link keeps the template's folder, so later rows get the link they would get from the original row-8 cell |
| Sheets.HasSkuStrip | Ultimately.py:293-294 | the data-row test is the truthiness of the cell and a non-empty `str(...).strip()` |
| Sheets.Grid.InsertBlankRow | Ultimately.py:619-619 | `insert_rows`: rows from the index on move down one and the new row is empty; past the last row nothing moves |
| Sheets.Grid.DeleteRow | Ultimately.py:483-483 | `delete_rows`: the row goes and the rows below move up one |
| Sheets.Grid.Set | Ultimately.py:345-345 | writing a cell changes that cell only and widens or lengthens the extent to cover it |
| RowMatching.DataRowsFromSpec | Ultimately.py:288-297 | the collected rows are exactly the rows from 8 on with a non-blank SKU, in increasing order |
| RowMatching.CollectDataRows | Ultimately.py:288-297 | the loop collects the rows `DataRowsFrom` lists |
| RowMatching.CopyCellsSpec | Ultimately.py:313-318 | the copy gives the target row the source row's cells in columns `1..max_column`, and nothing else changes |
| RowMatching.AppendPassCells | Ultimately.py:302-329 | appending keeps every old row, and every new row is a copy of the last data row, or of row 8 when there is none |
| RowMatching.AppendedRowsInUse | Ultimately.py:302-329 | after appending there are max(N, M) recorded rows, increasing and inside the sheet |
| RowMatching.AppendCopies | Ultimately.py:302-329 | the loop appends `M - N` copies below the last row and records their numbers |
| RowMatching.SkuNamePassCells | Ultimately.py:340-362 | the row at position `i < M` gets input row `i`'s SKU and title, and nothing outside those rows changes |
| RowMatching.OverwriteSkuAndName | Ultimately.py:338-362 | the loop writes those cells, and `rows_to_keep` is exactly the rows at positions below M |
| RowMatching.LinkCellsSpec | Ultimately.py:385-427 | each image column of the row gets the link built from the row-8 cell of that column as it stands just before the write, and no other cell changes |
| RowMatching.LinkPassCells | Ultimately.py:378-429 | as written: each row's links are built from row 8 as the earlier rows left it, and only image cells of matched rows change |
| RowMatching.LinksFollowTemplate | Ultimately.py:378-429 | when the builder keeps the template for the SKU written into row 8, every link is built from the original row-8 cell |
| RowMatching.RebuiltLinksFollowTemplate | Ultimately.py:378-429 | with the URL rebuild and a plain SKU in row 8, every matched row's links are the URLs rebuilt from the original row-8 links |
| RowMatching.RebuildImageLinks | Ultimately.py:378-429 | the loop writes the links `LinkPass` describes |
| RowMatching.FillPassCells | Ultimately.py:448-470 | the row at position `i < M` gets value `i` in every listed column, and no other cell changes |
| RowMatching.FillColumns | Ultimately.py:448-470 | the loop writes the values `FillPass` describes |
| RowMatching.KeptRowsSpec | Ultimately.py:480-485 | the surviving rows are exactly the kept rows from 8 to `max_row`, in increasing order |
| RowMatching.DeletedCells | Ultimately.py:480-485 | after the deletion, rows 1 to 7 are unchanged and rows from 8 on are the kept rows, closed up in their original order |
| RowMatching.DeletionClosesUp | Ultimately.py:480-485 | when the first `m` recorded rows are the kept ones, the sheet ends at row `7 + m` and row `8 + k` holds what recorded row `k` held |
| RowMatching.DeleteUnkeptRows | Ultimately.py:480-485 | the bottom-up loop deletes what `Deleted` describes |
| RowMatching.CountPassCells | Ultimately.py:493-506 | the count column of each visited row from 8 on with a non-empty name gets that name's length, and no other cell changes |
| RowMatching.AddCharCounts | Ultimately.py:493-506 | the loop writes the counts `CountPass` describes, one column past `max_column` |
| RowMatching.StaleCountSkipsMovedRow | Ultimately.py:497-506 | as written: in a concrete sheet, a product that moved up during the deletion gets no count |
| RowMatching.CountsEveryProductRow | Ultimately.py:497-506 | counting over the rows as they stand after the deletion gives every named product row its count and changes nothing else |
| RowMatching.AddCharCountsToProducts | Ultimately.py:497-506 | the loop over rows 8 to `7 + m` writes the counts `CountsEveryProductRow` is about |
| OutputNames.Suffix | Ultimately.py:519-519 | `Path.suffix`: from the last `.` on, when that `.` is neither first nor last, else empty |
| OutputNames.Stem | Ultimately.py:519-519 | `Path.stem`: the stem followed by the suffix is the name |
| OutputNames.CandidatesGrow | Ultimately.py:517-521 | every rename makes the name longer, so no candidate repeats |
| OutputNames.FreeOutputName | Ultimately.py:515-522 | the loop ends within `|existing|` renames on a name not in use, and every earlier candidate was in use |
| OutputNames.CandidatesAccumulate | Ultimately.py:515-522 | the `k`-th candidate is the stem followed by `_1_2..._k` and the same extension |
| OutputNames.SecondRenameOfOutput | Ultimately.py:515-522 | after two collisions the output is `Final_Template_1_2.xlsm` |
| ParentRows.SkuToParentSpec | Ultimately.py:568-572 | the dictionary's keys are the text SKUs of the entries, and a SKU maps to the parent of its last entry |
| ParentRows.BuildSkuToParent | Ultimately.py:568-572 | the loop builds that dictionary |
| ParentRows.PlanRows | Ultimately.py:593-611 | the planned positions increase and each is a row from 8 on whose SKU has a parent |
| ParentRows.PlanCovers | Ultimately.py:593-611 | every child row's parent is planned |
| ParentRows.PlanFirstChild | Ultimately.py:593-611 | each parent is planned at the first row of its children |
| ParentRows.PlanDistinct | Ultimately.py:593-611 | no parent is planned twice |
| ParentRows.OnePerParent | Ultimately.py:593-611 | the parents planned are exactly the parents of child rows, each once |
| ParentRows.PlanParentRows | Ultimately.py:593-611 | the scanning loop builds the plan `PlanOf` describes |
| ParentRows.ReverseSortsDescending | Ultimately.py:614-614 | `sort(reverse=True)` of the increasing plan is its reverse: descending, and a permutation of the plan |
| ParentRows.WithParentRowCells | Ultimately.py:619-651 | one insertion adds one row: a copy of row 7 with column 1, the name column and the parent-SKU column set to the parent id, and the image columns cleared; the other rows shift down |
| ParentRows.InsertParentRow | Ultimately.py:619-651 | the loop body inserts and writes that row |
| ParentRows.InsertedCells | Ultimately.py:617-653 | after the inserts, every cell comes from its origin: a kept row or the parent row of one insertion |
| ParentRows.InsertPlannedRows | Ultimately.py:617-653 | the loop performs the inserts in the order given |
| ParentRows.ParentRowsAt | Ultimately.py:613-653 | with descending inserts, parent `j` lands at its planned row shifted by the `j` parent rows above it, and holds the parent row's cells |
| ParentRows.FirstChildBelowParent | Ultimately.py:613-653 | each parent row lands directly above its first child |
| ParentRows.KeptRowsAt | Ultimately.py:613-653 | every old row keeps its cells, shifted down by the number of parent rows inserted at or above it |
| ParentRows.KeptOrder | Ultimately.py:613-653 | the old rows keep their relative order |
| ParentRows.TopRowsUnchanged | Ultimately.py:613-653 | rows 1 to 7, the reference row among them, are unchanged |
| ParentRows.UpdatedCells | Ultimately.py:660-679 | the update writes the mapped parent into the parent-SKU cell of every row from 8 on whose SKU is a key, and nothing else |
| ParentRows.UpdateChildParents | Ultimately.py:660-679 | the loop performs that update over rows 8 to `max_row` |
| ParentRows.ChildrenPointToParents | Ultimately.py:585-679 | after the whole step, every child row, at its new position, points to its parent, and keeps its other cells |
| ParentRows.ParentStep | Ultimately.py:526-690 | without a parent-SKU header the outcome says so; every outcome but the insertion leaves the sheet unchanged; rows are inserted exactly when there is a header and a usable table |
| ParentRows.ParentStepKeepsHeader | Ultimately.py:526-690 | the parent-row step never changes rows 1 to 7 |
| ParentRows.AddParentRows | Ultimately.py:526-690 | the step on the worksheet gives the sheet and the outcome `ParentStep` describes |
| Merge.Missing | Ultimately.py:165-166 | the missing columns are exactly the required columns not in the table |
| Merge.FirstPresent | Ultimately.py:176-182 | the first name of the list that the workbook has, or `None` exactly when it has none |
| Merge.TemplateSheetChoice | Ultimately.py:176-186 | `模板` when the workbook has it, else `Template`, else no sheet |
| Merge.InputRows | Ultimately.py:262-271 | one entry per input row, with the `str()` of its image name, title, image number and model |
| Merge.Key | Ultimately.py:569-572 | a row gives a dictionary key exactly when its `图片名称` cell holds text, and the key is that text |
| Merge.ParentInputOf | Ultimately.py:557-572 | the parent entries come from the table row by row, keyed by the text image name and with no key for an empty or numeric one; a missing file, a missing `父类编号` column and a missing `图片名称` column are told apart |
| Merge.EmptyImageNameIsNoKey | Ultimately.py:569-602 | an empty `图片名称` cell gives no key, so the `nan` that step 1 writes for it matches no parent |
| Merge.NumericImageNameIsNoKey | Ultimately.py:569-602 | a numeric `图片名称` cell gives no key, so the dictionary stays empty for it |
| Merge.RewriteRows | Ultimately.py:288-440 | steps 1 and 2 on the worksheet give the sheet `Rewritten` describes, and the rows and keep-set recorded |
| Merge.FillRows | Ultimately.py:445-471 | steps 3 and 4 on the worksheet give the sheet `Filled` describes |
| Merge.MatchRows | Ultimately.py:288-512 | steps 1 to 8 on the worksheet give the sheet `Matched` describes |
| Merge.MergeKeepsHeader | Ultimately.py:288-679 | row matching and the parent step together never change rows 1 to 7 |
| Merge.Merge | Ultimately.py:147-697 | a missing input, missing columns (listed in order) and a missing template sheet each end the run with the sheet unchanged; otherwise the sheet is the matched sheet after the parent step, saved under the first free candidate name in the result folder |

## Left out

- Reading and writing files: `pd.read_excel`, `load_workbook` and `wb.save` are foreign library I/O. The tables and the sheet are given as values, and the save is its outcome.
- Config I/O: opening `config.txt`, `os.path.exists` and `os.makedirs` are file system calls. The file is given as its lines, or as absent.
- `get_project_root` and path joining: environment probing. The default folder is a constant.
- Cell formatting (font, border, fill, number format, protection, alignment): library objects without behaviour to state. Only cell values are modelled.
- `column_index_from_string`: a library call. The number and model columns are the constants 55, 63 and 57, 76, 99.
- `get_result_folder_from_config` in `main.py` duplicates the one in `Ultimately.py`, so one model covers both. `main.py` is not part of this model: it is an orchestrator that loads scripts dynamically.
- The template-file search by glob and `上架模板` (`Ultimately.py:119-141`): file system dependent.
- Every `print`, the progress counters that only feed them, and traceback printing: console output. So are `parent_stats` and `unique_parents` (`Ultimately.py:564-583`), which only feed prints.
- Exceptions outside the parent step: the `try` around `main` only prints them. The model has no failing sheet operation, apart from the missing `图片名称` column, which is an outcome (`ParentRows.ParentStepFailed`).
- Sheets.Grid.Get: in openpyxl, reading a cell outside the used range creates it and can move `max_row` and `max_column`. The model's reads never change the extent. This differs for templates with fewer than 8 rows, for reads past the last column, and in the count pass (`Ultimately.py:497-500`): when bottom rows were deleted, it reads recorded row numbers past the new `max_row`, and openpyxl grows `max_row` again to cover them. Those rows are empty, so they get no count, and the later steps skip them as rows without a SKU; only `max_row` itself differs.
- Sheets.Grid.DeleteRow: openpyxl recomputes `max_column` after a deletion; the model keeps it. Only the count column's position can differ, when the widest row was deleted.
- Cell values are only strings, integers and empty cells. `str()` of floats, dates or formulas is not modelled.
- Merge.Field: the input table holds text and integer values. `str()` of an empty cell is `nan`, and numeric columns do not get pandas' float formatting.
- Merge.ParentInputOf: the parent id is modelled by its text. The program writes the raw value, so an empty `父类编号` is written as a float NaN rather than the text `nan`, and a numeric id as a number. Distinct NaN objects compare unequal, so `processed_parents` may plan one parent row per child whose id is empty, where the model plans a single row for the text `nan`.
- ParentRows.ReverseSortsDescending: `sort(reverse=True)` on `(row, parent)` pairs is modelled as reversing the plan. The lemma shows the reverse is the descending order, and the plan's rows are distinct, so the sort gives the same list.
- ParentRows.Plan: `inserted_rows` is still 0 while positions are planned (`Ultimately.py:608`), so the plan uses the rows as found. The model does the same.
- ImageUrls.MatchAt: the matcher also gives `$` Python's meaning before a final newline, and `.` excludes newlines.
- RowMatching.RebuiltLinksFollowTemplate: needs a plain row-8 SKU (`RowMatching.PlainSku`): non-empty, not starting with `.`, without a line break. For an empty SKU or one starting with `.`, the rebuilt row-8 link no longer matches the pattern, so later rows get the hard-coded folder (`Ultimately.py:413-418`). `RowMatching.LinkPassCells` states the as-written behaviour for every SKU.
- Update in place: the grid is a value held by the `Sheet` object, not a structure updated in place. Aliasing of cell objects between rows is not modelled.
- Merge.MergeKeepsHeader: stated for templates with at least 7 rows. Shorter sheets are not covered, because openpyxl's read-creates-cell behaviour is left out.

## Findings

| source | as written | input that shows it | evidently intended | confidence | as-written member | corrected member |
|---|---|---|---|---|---|---|
| Ultimately.py:497-506 | the character-count pass visits the row numbers recorded before the deletion of unkept rows | rows 8 and 10 hold products, row 9 has no SKU, two input rows: row 9 is deleted, the second product moves up to row 9, and the pass looks at rows 8 and 10, so that product gets no count | count every product row as it stands after the deletion, rows 8 to `7 + m` | not executed | RowMatching.StaleCountSkipsMovedRow | RowMatching.CountsEveryProductRow |

The merge as a whole (`Merge.Matched`) keeps the count pass as written, since
that is what the program does. The corrected pass is
`RowMatching.AddCharCountsToProducts`, and `RowMatching.CountsEveryProductRow`
is proved about it.
