# Excel exporter engine: sheet-to-table pipeline in Dafny

This project models the core of the exporter's `Engine` (src/excelexporter/engine.py).
The engine reads spreadsheet workbooks and turns every sheet into a keyed table:

- sheets whose name starts with the ignore-sheet mark are skipped;
- the three header rows of a sheet become the parallel lists `types`, `descs` and `names`;
- every column whose name starts with the ignore-field mark is deleted, while `enumerate` walks the same list;
- every data row is converted identifier first, then field by field, and stored under its converted identifier, so the last row with a given identifier wins;
- every table is handed to a code generator, and the text is written to a path below the output root that mirrors the workbook's place below the input root.

The model is functional: immutable sequences, Python dicts as insertion-ordered lists of pairs, and `Result` values for raised exceptions.

## Modules

- `outcomes.dfy` (`Outcomes`): exceptions and `Result`. It also defines the loop that stops at the first raise (`Collect`).
- `text.dfy` (`Text`): the CPython `str` and `posixpath` operations the engine uses, with their edge cases:
  - `startswith`, `split('-')`, `replace(root, "")`;
  - `splitext`, `basename`, `join`.
- `dicts.dfy` (`Dicts`): Python dict assignment (`d[k] = v` keeps the position of an existing key) and the dict built by a loop of assignments.
- `cells.dfy` (`Cells`): raw cells, Python truthiness and the configuration fields the engine reads.
- `columns.dfy` (`Columns`): the column filter.
  - `Walk` is the mutate-while-enumerate loop, step for step.
  - `Plan` states on the original column order which columns the loop ends up deleting.
  - `WalkFollowsPlan` proves the two agree.
- `tables.dfy` (`Tables`): identifier-first row conversion and table keying. Four collaborators are function-valued parameters:
  - the type parser (`TypeDefine.from_str`), which may return or raise;
  - the value converter (`Converter`), which may return or raise;
  - `.value`, an attribute read of a conversion result, which always returns;
  - whether a converted identifier can be a dict key. Storing a row under an identifier that cannot be one raises `TypeError` (engine.py:173).
- `workbook.dfy` (`Workbook`): `_excel2dict`, the whole workbook reader.
- `export.dfy` (`Export`): `_gen` and `gen_all`. This covers the root check, the output name of a sheet, the output path, the per-sheet `try`, and the skipping of `~$` lock files.
- `scenarios.dfy` (`Scenarios`): small concrete inputs that show the quirks.

### What escapes the per-sheet `try`

Only naming, path building and rendering run inside the `try` of `_gen` (engine.py:90-115).
Reading, column filtering and conversion all happen in `_excel2dict`, which `_gen` calls before that `try` (engine.py:87).
So anything raised there escapes `_gen`:

- a type that does not parse;
- a converter that raises;
- a header name that is truthy but not text;
- a header row shorter than the name row;
- a grid of fewer than three rows;
- an identifier that cannot be a dict key.

Such a raise stops the whole workbook and the whole `gen_all` run. The model follows the code:

- `ReadWorkbook` returns `Err`, and so do `Gen` and `GenAll`.
- Only naming and rendering failures become per-sheet `Failed` outcomes.

Whether a bad cell makes the converter raise, or return a result that carries the error, is up to the converter, which is a parameter here.

## Model

| member | source | states |
|---|---|---|
| Columns.Walk | src/excelexporter/engine.py:142-149 | One step of the `enumerate` loop per position of the current, possibly shortened, name list. `AttributeError` (a truthy name that is not text, when the walk examines it) and `IndexError` (a deletion that reaches past the end of a header list or row) are the only errors possible. Every header list and every row loses the same number of entries, and the number of rows is kept. When exactly each error happens is stated by `WalkFollowsPlan` and `Plan`. |
| Columns.Plan | src/excelexporter/engine.py:142-149 | Column j is deleted exactly when its name is marked and column j-1 was not deleted, because a deleted column's right neighbour slides into the examined slot and is skipped. It follows that a deleted column is always marked, blank names are never deleted, and no two neighbours are both deleted. The filter raises only if some name is unreadable, and always raises `AttributeError` then. With no unreadable name it never raises. |
| Columns.PlanRaisesExactly | src/excelexporter/engine.py:142-149 | The filter raises exactly when, for some column j, the name is unreadable, the columns before j are filtered without raising, and the loop examines j: j is the first column, or column j-1 was not deleted. Both directions hold. |
| Columns.WalkFollowsPlan | src/excelexporter/engine.py:142-149 | The loop run from any position equals deleting, from the remaining suffix, exactly the columns `Plan` selects. It fails exactly when `Plan` fails. |
| Columns.FilterColumns | src/excelexporter/engine.py:142-149 | On a rectangular sheet the filter succeeds iff `Plan` does. The result is rectangular and is the sheet with exactly the planned columns removed. Its only errors are `IndexError` and `AttributeError`. |
| Columns.FilterKeepsOrder | src/excelexporter/engine.py:142-149 | Every column that is not deleted survives whole: its type, description, name and the cell of every row move together to one new position. That position is the number of survivors to its left, so the survivors keep their relative order. The result has exactly as many columns as there are survivors. |
| Columns.DeleteColumn | src/excelexporter/engine.py:148-149 | `del row[col]` on every data row. It raises `IndexError` iff some row is too short. Otherwise every row is the original without that one entry. |
| Columns.DropPositions | src/excelexporter/engine.py:145-149 | Removing the flagged entries of a list leaves every unflagged entry at the index given by the unflagged entries before it. The result's length is the number of unflagged entries. |
| Cells.Truthy | src/excelexporter/engine.py:144 | Python truthiness of a cell: blank, empty text, zero and `False` are false. It is the `field and` test: `Plan` states that blank names are never deleted, and `Scenarios.BlankNamesKept` shows one surviving an empty mark. |
| Columns.Marked | src/excelexporter/engine.py:144 | A name the loop deletes when it examines it: truthy text that starts with the ignore-field mark. `Plan` and `WalkFollowsPlan` state that a deleted column is always marked, and which marked columns are skipped. |
| Columns.Unreadable | src/excelexporter/engine.py:144 | A truthy name that is not text, on which `.startswith` raises `AttributeError`. `PlanRaisesExactly` states the filter raises exactly when the loop examines such a name, and `Walk` that this is its only source of `AttributeError`. |
| Tables.ConvertCell | src/excelexporter/engine.py:167-171 | A field succeeds iff it has a name and a type, the type parses, and the converter returns. The converter is called with the row's converted identifier as context. The field's key is the column's name and its value is the converter's result object. Errors are `IndexError` or whatever was raised. |
| Tables.RowId | src/excelexporter/engine.py:160-163 | The identifier pass succeeds iff there is a first type, name and cell, the first type parses, and the converter returns. The converter is called with the raw identifier cell as its context. The identifier is the `.value` of the result. Errors are `IndexError` or whatever was raised. |
| Tables.ConvertRow | src/excelexporter/engine.py:159-173 | A row converts and is stored iff its identifier converts, every cell converts, and the identifier can be a dict key. When only the last fails, storing raises `TypeError`. The record's keys are exactly the names of the row's columns, the identifier column's name included. A key holds the conversion of the last column with that name. |
| Tables.AssembleTable | src/excelexporter/engine.py:154-174 | The table succeeds iff every row converts and is stored, so an identifier that cannot be a dict key makes the sheet raise `TypeError`. Its keys are exactly the converted identifiers of the rows, each once, so there are no more keys than rows. A key holds the record of the last row with that identifier (last write wins). Any raising row makes the sheet raise. |
| Workbook.KeptSheets | src/excelexporter/engine.py:122-127 | A sheet is kept iff it is a sheet of the workbook and its name does not start with the ignore-sheet mark. The kept sheets stay in workbook order, as `KeptSheetsInOrder` states. |
| Workbook.Kept | src/excelexporter/engine.py:125 | The filter's test: the sheet name does not start with the ignore-sheet mark. `KeptSheets` and `KeptSheetsInOrder` state that exactly the sheets passing it are kept, and `IgnoredSheetsNeverRead` that the others are never read. |
| Workbook.FilterConcat | src/excelexporter/engine.py:124-127 | Filtering keeps order: filtering a concatenation is filtering its front and then its back. |
| Workbook.KeptSheetsInOrder | src/excelexporter/engine.py:124-127 | The sheet filter is the order-preserving filter with `Kept`. The kept sheets appear in workbook order, each as often as in the workbook. |
| Workbook.KeptSheetsConcat | src/excelexporter/engine.py:124-127 | Filtering the sheets of a workbook cut in two gives the kept sheets of the front, followed by those of the back. |
| Workbook.KeptSheetsIdempotent | src/excelexporter/engine.py:122-127 | Filtering the filtered sheets changes nothing. |
| Workbook.ReadSheet | src/excelexporter/engine.py:134-140 | Reading a grid succeeds iff it has at least three rows; otherwise it raises `IndexError`. Nothing is lost or reordered: the types, descriptions and names rows followed by the data rows give back the grid, so the data rows are all rows after the third. |
| Workbook.Prepared | src/excelexporter/engine.py:132-151 | A read and filtered sheet is paired with its own name. Its only errors are reader errors. |
| Workbook.Assembled | src/excelexporter/engine.py:154-174 | A dict entry keeps its sheet name when its value is replaced by the table. Its only errors are reader errors. |
| Workbook.TwoPass | src/excelexporter/engine.py:129-176 | The reader's two loops, for any per-sheet steps: read every kept sheet into a dict by name, then replace every value by its table, stopping at the first raise. Its meaning is stated by `TwoPassSpec`, `TwoPassTotal` and `TwoPassErrors`. |
| Workbook.TwoPassSpec | src/excelexporter/engine.py:129-176 | When both loops run through, the result is keyed by the names of the kept sheets, each once, and every kept sheet was read without raising. A sheet whose name no other kept sheet shares maps to its own table. |
| Workbook.TwoPassTotal | src/excelexporter/engine.py:129-176 | If every kept sheet reads and every read sheet converts, the two loops do not raise. |
| Workbook.TwoPassErrors | src/excelexporter/engine.py:129-176 | The two loops raise only what one of their steps raised. |
| Workbook.ReadWorkbookErrors | src/excelexporter/engine.py:117-176 | The reader raises only `IndexError`, `AttributeError`, `TypeError` or what the type parser or converter raised, never `IllegalFile`. |
| Workbook.ReadWorkbook | src/excelexporter/engine.py:117-176 | The whole reader: the two loops over the kept sheets, reading and filtering each, then converting each into its table. Its meaning is stated by `ReadWorkbookSpec`, `ReadWorkbookErrors` and `IgnoredSheetsNeverRead`. |
| Workbook.ReadWorkbookSpec | src/excelexporter/engine.py:117-176 | On success:<br>- the result's keys are exactly the names of the non-ignored sheets, each once, so no key starts with the ignore-sheet mark;<br>- every kept sheet was read and filtered without raising;<br>- a uniquely named kept sheet maps to the table of its own grid.<br>If every kept sheet reads and converts, the reader does not raise. |
| Workbook.IgnoredSheetsNeverRead | src/excelexporter/engine.py:122-132 | The reader gives the same answer with the ignored sheets taken out, whatever their grids hold. |
| Export.OutputBase | src/excelexporter/engine.py:91-94 | Naming succeeds iff the sheet name has at most one dash, and otherwise raises `ValueError`. A dash-free name is used unchanged. A successful result has no dash. |
| Export.OutputBaseOfPair | src/excelexporter/engine.py:91-98 | `org-rename` is named `rename`, or `org` when `rename` is empty (`rename or org_name`). |
| Export.Relative | src/excelexporter/engine.py:82-97 | The workbook's place below the input root as the engine computes it: the path without its extension, with every occurrence of the root removed. `OutputMirrorsInput` gives it for a path that holds the root once; `Scenarios.RootRecursEscapes` shows a path that holds it twice. |
| Export.SheetPath | src/excelexporter/engine.py:96-110 | The file of a sheet: the output root, then the relative part joined with the base name, then `.` and the extension. `SheetPathBelow` states where it lands when the relative part starts with `/`. |
| Export.OutputPath | src/excelexporter/engine.py:96-110 | The engine's output path of a sheet. `OutputMirrorsInput` states that it lies under `outRoot + rel` and is named `<sheet>.<extension>`. `Scenarios.SiblingOfRootAccepted` and `Scenarios.RootRecursEscapes` show paths outside the output root. |
| Export.OutputMirrorsInput | src/excelexporter/engine.py:82-110 | A workbook at `inRoot + rel + ext`, with `rel` non-empty, has its sheets written under `outRoot + rel`. The file is named `<sheet>.<extension>`. |
| Export.ExportSheet | src/excelexporter/engine.py:89-115 | A sheet is written iff naming and rendering both succeed. It is written to the file for its base name below the given relative part, with the rendered text. Otherwise it is reported as failed under its own name. A name with two or more dashes fails with `ValueError`. |
| Export.Gen | src/excelexporter/engine.py:78-115 | A path outside the input root, by plain string prefix, raises `IllegalFile` before any sheet is read. `IllegalFile` is raised exactly then. Inside the root, `Gen` fails exactly when the reader does, with the reader's error. Otherwise it gives one outcome per table, in order. |
| Export.ExportTables | src/excelexporter/engine.py:87-115 | After the root check: the export fails iff the reader does, with the reader's error, which is never `IllegalFile`. Otherwise it gives one outcome per table, in order, each the export of that sheet below the relative part. |
| Export.GenReportsKeptSheets | src/excelexporter/engine.py:87-115 | A finished workbook reports every kept sheet exactly once, written or failed, and reports no other sheet. A failed sheet does not stop the ones after it. |
| Export.GenWritesPlainSheet | src/excelexporter/engine.py:89-113 | A dash-free sheet that the generator renders is written under the mirrored directory, to `<sheet>.<extension>`. |
| Export.RunAllSpec | src/excelexporter/engine.py:186-193 | The run finishes iff every workbook that is not a lock file goes through. A stopped run carries the error of the first such workbook that raised, and every such workbook before it went through. |
| Export.RunAllCollects | src/excelexporter/engine.py:186-193 | The run is the loop that stops at the first raise, taken over the discovered files without the lock files. It raises what the first raising workbook raised. Otherwise it yields the outcomes of every workbook, workbook after workbook, in discovery order. |
| Export.GenAllSpec | src/excelexporter/engine.py:183-193 | In a finished run, every workbook that is not a lock file lay under the input root and was exported. The run's outcomes are those workbooks' outcomes, one workbook after another, in discovery order. A stopped run carries the error of the first such workbook that raised, which may be the root check, and every such workbook before it was exported. |
| Export.GenAll | src/excelexporter/engine.py:183-193 | The run over the discovered workbooks with `Gen` as the step. Its meaning is stated by `GenAllSpec` and `LockFilesIgnored`. |
| Export.RunAll | src/excelexporter/engine.py:186-193 | The run for any per-workbook step: it skips lock files, runs the step on every other file in order, and stops at the first raise. Its meaning is stated by `RunAllSpec`, `RunAllCollects` and `LockFilesIgnored`. |
| Export.GenInsideRoot | src/excelexporter/engine.py:84-99 | The corrected export, with a directory check and only the leading root cut from the path. `IllegalFile` is raised exactly for a path that is not inside the input directory. Any other workbook fails exactly when the reader does, with the reader's error. Otherwise each table is exported below the workbook's place under the directory. |
| Export.RootedRelative | src/excelexporter/engine.py:82-97 | For a workbook inside the input directory, the path without extension is the directory, without a trailing `/`, followed by the relative part. The relative part starts with `/`, so it is never empty. |
| Export.RootedPathInside | src/excelexporter/engine.py:96-110 | For a workbook inside the input directory, the corrected sheet file starts with the output root followed by `/`. It starts with the output root followed by the relative part unless the base name starts with `/`. It is named `<sheet>.<extension>` when neither holds a `/`. |
| Export.GenInsideRootWritesInside | src/excelexporter/engine.py:82-110 | With the corrected export, every written sheet lands inside the output directory: its path starts with the output root followed by `/`. There is no restriction on the root or on how often it recurs in the path. |
| Export.GenInsideRootAgrees | src/excelexporter/engine.py:84-110 | For an input root without a trailing `/`, and a workbook inside it whose relative part does not hold the root again, the corrected export equals `Gen`. |
| Export.Workbooks | src/excelexporter/engine.py:189-192 | The discovered files that are kept are exactly those whose base name does not start with `~$`. |
| Export.LockFile | src/excelexporter/engine.py:189-190 | A file whose base name starts with `~$`. `Workbooks` and `LockFilesIgnored` state that exactly these files are skipped, whatever they hold. |
| Export.WorkbooksInOrder | src/excelexporter/engine.py:189-192 | The files the run exports are the discovered files without the lock files, in discovery order. |
| Export.WorkbooksConcat | src/excelexporter/engine.py:186-192 | For discovery in two passes, such as `.xlsx` then `.xls`, the files kept are those of the first pass followed by those of the second. |
| Export.LockFilesIgnored | src/excelexporter/engine.py:189-193 | The run is the same with lock files taken out, whatever their contents. |
| Text.Split | src/excelexporter/engine.py:92 | `str.split('-')` yields one more part than there are dashes. No part contains a dash, and joining the parts with dashes gives back the name. |
| Text.StartsWith | src/excelexporter/engine.py:84 | `str.startswith`: the first characters of the string are the prefix. It is a plain character test, as `Scenarios.SiblingOfRootAccepted` shows for the root check. The same test is used for the sheet mark (125), the field mark (144) and lock files (190). |
| Text.SplitJoin | src/excelexporter/engine.py:92 | Splitting dash-joined, dash-free parts gives back the parts. |
| Text.SplitExt | src/excelexporter/engine.py:82 | `splitext` cuts the path into stem and extension that concatenate back to the path. A non-empty extension starts with `.` and holds no `/` and no other `.`. There is an extension iff the base name has a dot preceded by some non-dot character. |
| Text.RemoveAllLeading | src/excelexporter/engine.py:97 | Removing the input root from `root + rest`, where the root does not occur again in `rest`, leaves `rest`. |
| Text.RemoveAllAbsent | src/excelexporter/engine.py:97 | Removing a string that does not occur changes nothing. |
| Text.RemoveAll | src/excelexporter/engine.py:97 | `str.replace(root, "")`: its own contract bounds the length only. `RemoveAllLeading` and `RemoveAllAbsent` state what it removes. `Scenarios.RootRecursEscapes` shows it removing every occurrence, not only the leading one. |
| Text.PathJoin | src/excelexporter/engine.py:96-99 | The joined path ends in the base name when that name has no `/`. If the name does not start with `/`, the joined path starts with the directory and is at least as long as both together. |
| Text.BaseName | src/excelexporter/engine.py:189 | `basename` is the suffix after the last `/`, and holds no `/`. |
| Dicts.Put | src/excelexporter/engine.py:170-173 | `d[k] = v`: afterwards `k` maps to `v` and no other key changes. An existing key keeps its position, and a new key is appended. Keys stay distinct. |
| Dicts.FromPairs | src/excelexporter/engine.py:151 | A loop of assignments keeps each key once, has exactly the keys assigned, and maps each key to its last assigned value. |
| Dicts.FromPairsAgreeing | src/excelexporter/engine.py:151 | When every assignment of a key assigns the same value, the key maps to that value. |
| Outcomes.Collect | src/excelexporter/engine.py:132-151 | A loop of steps runs through iff every step succeeds, and then yields their values in order. Otherwise it stops with the first failing step's error, and every earlier step succeeded. |
| Scenarios.NeighbourOfRemovedSurvives | src/excelexporter/engine.py:142-149 | With names `*a`, `*b`, `c` and mark `*`, only `*a` is deleted: `*b` slides into its place and is never examined. |
| Scenarios.UnreadableNameRaisesOnlyWhenSeen | src/excelexporter/engine.py:144 | A number used as a header name is skipped right after a deleted column, and raises `AttributeError` anywhere else. |
| Scenarios.BlankNamesKept | src/excelexporter/engine.py:144 | Blank names survive even an empty mark. |
| Scenarios.UnhashableIdRaises | src/excelexporter/engine.py:173 | A row whose cells all convert, under an identifier that cannot be a dict key, raises `TypeError`, and so does its sheet. |
| Scenarios.LastRowWins | src/excelexporter/engine.py:159-173 | Two rows with identifier 1 give a table with a single key, holding the later row's record. |
| Scenarios.SheetNames | src/excelexporter/engine.py:91-98 | `Item` is named `Item`, `item-Item` is named `Item`, and `item-` is named `item`. `a-b-c` raises `ValueError`. |
| Scenarios.MirroredPath | src/excelexporter/engine.py:82-110 | `/p/data/sub/items.xlsx`, with input root `/p/data` and output root `/p/dist`, writes sheet `Item` to `/p/dist/sub/items/Item.json`. |
| Scenarios.SiblingOfRootAccepted | src/excelexporter/engine.py:82-99 | `/p/data.xlsx` passes the plain prefix check for the input root `/p/data`. Its sheet `Item` goes to `/p/distItem.json`, which is not inside `/p/dist/`. |
| Scenarios.SiblingOfRootRejected | src/excelexporter/engine.py:84 | The directory check turns away `/p/data.xlsx` and `/p/database/x.xlsx` for the input root `/p/data`, and accepts `/p/data/sub/items.xlsx`. |
| Scenarios.RootRecursEscapes | src/excelexporter/engine.py:82-100 | With input root `/p/data`, the workbook `/p/data/p/data.xlsx` lies inside the input directory. `replace` removes both occurrences of the root, so its sheet `Item` goes to `/p/distItem.json`, which is not inside `/p/dist/`. The corrected export writes it to `/p/dist/p/data/Item.json`. |

## Left out

- Spreadsheet access (`books.open`, `range("A1").expand().raw_value`): a sheet is given as its name and a rectangular-or-ragged grid of cells. The reader's special shapes for a one-row or one-cell range are not modelled.
- Cell kinds: only blank, text, number and boolean. Dates and other spreadsheet values are not modelled.
- Python dict keys compare structurally in the model. Python's `1 == 1.0 == True` merging of keys of different types is not modelled.
- `os.path.abspath`: paths and roots are taken as already absolute and normalised.
- `os.path.dirname`, `os.path.exists`, `os.makedirs` and writing the file: an outcome is the path and the text that would be written. Failures of these calls, which the per-sheet `try` would also catch, are not modelled.
- `glob` discovery: `GenAll` receives the discovered files in discovery order, `.xlsx` before `.xls`.
- `init_generator`, `IllegalGenerator`, the generator registry and `exec` of a user script: the generator is a parameter (`render` and `extension`). Its configuration argument is fixed inside `render`.
- `gen_one` and `completed_hook`: `gen_one` is `Gen` followed by the hook, and the hook is a foreign callback that is not modelled.
- Logging and the text of exception messages.
- The bodies of `Converter` and `TypeDefine.from_str`: they are parameters, because src/excelexporter/generator.py and src/excelexporter/sheetdata.py are not part of this model.
- Exceptions that are not `Exception` subclasses (such as `KeyboardInterrupt`) would escape the per-sheet `try`; every raise is modelled as an `Exception`.
- Configuration loading and saving (TOML I/O).
- Workbook.ReadWorkbookSpec: gives the table of a sheet only when no other kept sheet has the same name. The spreadsheet application keeps sheet names distinct within a workbook, so every real workbook is covered.
- Export.GenWritesPlainSheet: covers only dash-free sheet names, and workbook paths whose relative part is non-empty and does not contain the input root again. `replace` removes every occurrence of the root, not only the leading one (see Findings). An empty relative part happens for a sibling of the root such as `/p/data.xlsx` (see Findings), where the output glues onto the output root's last name. `GenInsideRootWritesInside` states containment for the corrected export without these restrictions.
- Export.OutputMirrorsInput: carries the same two restrictions on the relative part as `GenWritesPlainSheet`, for the same reasons.
- Export.GenInsideRootAgrees: covers only an input root without a trailing `/`. `os.path.abspath` gives such a root for every input except `/` itself. For a root that ends in `/`, the engine's relative part lacks the leading `/` that the corrected one keeps.
- Export.GenAll: a stopped run returns only the exception. The files that earlier workbooks, and earlier sheets of the failing workbook, had already written stay on disk in the source. The model does not return them; `RunAllSpec` states that every earlier workbook went through.
- Tables.RowId: `.value` is modelled as an attribute read that always returns. A converter result whose `.value` is a property that raises is not modelled.
- Text.RemoveAll: its own contract states only a length bound. What it removes is stated by `RemoveAllAbsent`, and by `RemoveAllLeading` for the root-prefixed paths the exporter builds.

## Findings

| source | as written | input that shows it | evidently intended | confidence | as-written member | corrected member |
|---|---|---|---|---|---|---|
| src/excelexporter/engine.py:84 | `wb_abs_path.startswith(abs_input_path)` is a plain string prefix test, so siblings of the input directory pass it | input root `/p/data`, output root `/p/dist`, workbook `/p/data.xlsx` with sheet `Item`: accepted, and written to `/p/distItem.json`; `/p/database/x.xlsx` is accepted too | only workbooks inside the input directory are accepted, so every output lands inside the output directory | medium, not executed | Scenarios.SiblingOfRootAccepted | Export.GenInsideRootWritesInside |
| src/excelexporter/engine.py:97 | `wb_abs_path_without_ext.replace(abs_input_path, "")` removes every occurrence of the input root, not only the leading one | input root `/p/data`, output root `/p/dist`, workbook `/p/data/p/data.xlsx` with sheet `Item`: it lies inside the input directory and is written to `/p/distItem.json` | only the leading input root is cut, so the workbook's sheets go to `/p/dist/p/data/Item.json` | medium, not executed | Scenarios.RootRecursEscapes | Export.GenInsideRootWritesInside |

The corrected export is `Export.GenInsideRoot`. It gates on the directory test `Export.InsideRoot` and cuts only the leading root, through `Export.RootedRelative`.
`Scenarios.SiblingOfRootRejected` shows the siblings turned away.
`Export.GenInsideRootAgrees` shows that the correction changes nothing where the engine's path is already right.
`Export.Gen` and `Export.GenAll` keep the code as written, because they describe what the engine does today.
