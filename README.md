# Terminal Table Builder, modelled in Dafny

Terminal Table Builder is a console program for building a table by hand: named, typed
columns, rows of cells, and commands to edit them. It loads tables from and saves them to CSV,
Excel, OpenDocument and PDF files and to SQLite databases. A `Database` manager connects to
databases, searches them, selects them and deletes them. A `Settings` object holds four on/off
switches.

This project models the core of the program:

- **The table being built** (`TableState`). A `TableBuilder` object has a name, a column list,
  a list of rows (dictionaries from column name to cell) and a "saved" flag. The commands update
  these in place. Every command is a method that `modifies` the builder. Each method is proved
  against a decision function, which says which answers make the command stop and what the new
  table is when it goes ahead.
- **The helpers** (`TableUtils`). These are the prompt that strips answers and understands
  `/cancel`, the per-value type inference, and the column-type inference over the rows.
- **The editing commands** (`TableOperations`).
- **The file handlers** (`CsvHandler`, `ExcelHandler`, `OdsHandler`, `PdfHandler`, with the
  row shaping they share in `Sheets`). A file is the grid of cells its library would read.
- **The database handler** (`DatabaseHandler`, over `SqlStore`). A database is the ordered
  list of its tables, each with SQL column types and rows of values.
- **The database manager** (`DatabaseManager.Database`).
- **The settings** (`SettingsStore.Settings`).
- **The single-file revision** `table_builder.py` (`FlatRevision`). It works on the same
  `TableBuilder` state and differs from the modular code in the places its contracts and
  lemmas point out.

Modelling conventions:

- An answer to `get_user_input` is `Option<string>`: `None` is `/cancel`. An answer read by
  `console.input` directly is a plain `string`.
- An uncaught exception is the outcome `Crashed`. An exception caught by the command's own
  `except` is `Rejected(Raised)`. A quiet return after a message is `Cancelled` or
  `Rejected(<reason>)`.
- The file system, the spreadsheet, PDF and SQLite libraries, float parsing and float printing
  are parameters: a map from path to contents, a `writable` flag, a `parseFloat` function.

Where the code disagrees with itself or with its docstrings, the model follows the code that runs. Two examples:
- `settings.py` defines no `get_auto_update` or `get_autoprint_table`, yet both handler
  revisions call them. The model passes "is the getter there, and what does it return" as a
  parameter, and a missing getter raises.
- The modular `load_csv` infers column types, but `table_builder.py` keeps every column as
  "str". The two loaders are modelled separately.

## Model

| member | source | states |
|---|---|---|
| TableState.TableBuilder.constructor | src/table_builder/builder.py:39-42 | a new builder has the given name, no columns, no rows, is not saved and is well formed |
| TableUtils.GetUserInput | src/table_builder/table_utils.py:8-22 | the answer is cancelled exactly when the stripped text is "/cancel", and is otherwise the stripped text |
| TableUtils.AnswersAreStripped | src/table_builder/table_utils.py:19 | an accepted answer has no surrounding blanks left to strip |
| TableUtils.InferDataType | src/table_builder/table_utils.py:25-50 | the inferred type is always one of the four program types |
| TableUtils.InferIgnoresPadding | src/table_builder/table_utils.py:35 | surrounding blanks never change the inferred type |
| TableUtils.InferIntMatchesParseInt | src/table_builder/table_utils.py:42-43 | a value infers as "int" exactly when it parses as an integer, does not start with "+" and holds no "_" |
| TableUtils.BoolWordIsNotNumeric | src/table_builder/table_utils.py:38-43 | "true"/"false" in any case is never taken for a number |
| TableUtils.UpperBoolWordIsBool | src/table_builder/table_utils.py:38-39 | the boolean check ignores case: "TRUE" is a bool |
| TableUtils.NegativeDigitsIsInt | src/table_builder/table_utils.py:42-43 | a minus sign followed by digits is an int |
| TableUtils.PlusDigitsIsStr | src/table_builder/table_utils.py:42-50 | a plus sign followed by digits falls through to "str" |
| TableUtils.LoneMinusAndEmptyAreStr | src/table_builder/table_utils.py:42-50 | "-" and the empty value are "str" |
| TableUtils.DecimalIsFloat | src/table_builder/table_utils.py:46-47 | an integer text, a point and digits is a float |
| TableUtils.TrailingPointIsStr | src/table_builder/table_utils.py:46-50 | digits followed by a bare point are not a float |
| TableUtils.LeadingPointIsStr | src/table_builder/table_utils.py:46-50 | a point followed by digits with no integer part is not a float |
| TableUtils.FirstDataIndex | src/table_builder/table_utils.py:98-102 | finds the first row with a truthy value; none exists exactly when every row is empty |
| TableUtils.FindFirstDataRow | src/table_builder/table_utils.py:98-102 | the scanning loop returns that first data row |
| TableUtils.RelabelFacts | src/table_builder/table_utils.py:105-110 | relabelling keeps every column name; each column is either kept or retyped from that row's value; it succeeds exactly when every column's value could be read |
| TableUtils.EmptyValueKeepsType | src/table_builder/table_utils.py:107 | a column whose value in the sample row is empty keeps its type |
| TableUtils.TextRowNeverRaises | src/table_builder/table_utils.py:105-110 | a row of text values never makes inference raise |
| TableUtils.RelabelKeepsKeysMatch | src/table_builder/table_utils.py:105-110 | relabelling keeps every row's keys equal to the column names |
| TableUtils.RelabelColumns | src/table_builder/table_utils.py:105-110 | the relabelling loop computes the specified relabelling and failure flag |
| TableUtils.TextRowsInferCleanly | src/table_builder/table_utils.py:86-110 | a table of text rows infers without raising and keeps its column names |
| TableUtils.InferenceKeepsKeysMatch | src/table_builder/table_utils.py:86-110 | inference preserves the invariant that row keys are the column names |
| TableUtils.InferenceKeepsNames | src/table_builder/table_utils.py:86-110 | inference never renames, adds or drops a column |
| TableUtils.InferColumnTypes | src/table_builder/table_utils.py:86-110 | on the builder: only the column types change, as the inference specification says, and rows, name and saved flag stay |
| TableOperations.ScanTakesFirstUsable | src/table_builder/table_operations.py:24-37 | a re-asking prompt loop takes the first usable answer after refusing all earlier ones, quits only at a cancel after refusals, and runs out only when every answer was refused |
| TableOperations.ScanAnswers | src/table_builder/table_operations.py:24-37 | the `while True` loop computes that scan |
| TableOperations.Coerce | src/table_builder/table_operations.py:155-175 | an accepted value fits its column type; "str" accepts everything; an unknown type accepts nothing |
| TableOperations.CoerceInt | src/table_builder/table_operations.py:159-160 | an int answer is accepted exactly when it is all digits, and then equals its integer value, never negative |
| TableOperations.NegativeIntRefused | src/table_builder/table_operations.py:159-160 | "-5" is refused when typed into an int column although inference calls it an int |
| TableOperations.AcceptedTextInfersSameType | src/table_builder/table_operations.py:155-175 | text accepted for an int or bool column infers back to that type |
| TableOperations.CoerceBool | src/table_builder/table_operations.py:168-169 | a bool answer must be true/false in any case, and the value is true exactly for "true" |
| TableOperations.ReadRowShape | src/table_builder/table_operations.py:150-177 | a read row has exactly one key per column, and each value fits its column's type |
| TableOperations.ReadRowAnswers | src/table_builder/table_operations.py:150-177 | the column-by-column reading loop computes that row |
| TableOperations.Backfill | src/table_builder/table_operations.py:40-41 | every row gains the new column with an empty value and keeps all other keys and values |
| TableOperations.Rekey | src/table_builder/table_operations.py:131-137 | every row loses the old key, holds its value under the new key (empty if absent) and keeps the rest |
| TableOperations.Drop | src/table_builder/table_operations.py:267-268 | every row loses the removed key and keeps the rest |
| TableOperations.Without | src/table_builder/table_operations.py:264-266 | the column list keeps exactly the columns with another name |
| TableOperations.WithoutRemovesOne | src/table_builder/table_operations.py:264-266 | with distinct names, removing a present column shortens the list by one |
| TableOperations.WithoutAbsent | src/table_builder/table_operations.py:264-266 | removing an absent name changes nothing |
| TableOperations.AddColumnKeepsKeys | src/table_builder/table_operations.py:39-42 | adding a column preserves the invariant that row keys are the column names |
| TableOperations.RetypeKeepsKeys | src/table_builder/table_operations.py:85-96 | changing a type preserves it |
| TableOperations.RenameKeepsKeys | src/table_builder/table_operations.py:124-139 | renaming to a fresh name preserves it |
| TableOperations.RemoveColumnKeepsKeys | src/table_builder/table_operations.py:262-270 | removing a column preserves it |
| TableOperations.AddRowKeepsKeys | src/table_builder/table_operations.py:177-178 | appending a read row preserves it |
| TableOperations.EditCellKeepsKeys | src/table_builder/table_operations.py:240-241 | overwriting one cell preserves it |
| TableOperations.RemoveRowKeepsKeys | src/table_builder/table_operations.py:280-283 | deleting one row preserves it |
| Values.UnderscoreNumerals | src/table_builder/table_operations.py:59 | `int()` on an answer reads "0_1" as 1 and refuses "1__0" and "_1": one underscore may stand between two digits |
| Values.ParseDigits | src/table_builder/table_operations.py:159-160 | all-digit text reads through `int()` as its decimal value |
| TableOperations.MenuIndex | src/table_builder/table_operations.py:58-66 | a menu answer is accepted exactly when `int()` reads it (underscores between digits included) as a number from 1 to n, and gives that number minus one |
| TableOperations.MenuPrompt | src/table_builder/table_operations.py:58-82 | a cancelled menu answer raises, an answer `int()` refuses is refused, an out-of-range number stops, and a usable one gives the zero-based index |
| TableOperations.TypeChoice | src/table_builder/table_operations.py:24-37 | a chosen type index is within the four types |
| TableOperations.AddColumnChoice | src/table_builder/table_operations.py:10-43 | a cancelled name cancels, a duplicate name is refused, and otherwise the column is the typed name with the first usable type answer |
| TableOperations.RetypeOnlyWhenConfirmed | src/table_builder/table_operations.py:45-98 | a type changes exactly when both menu answers are usable and the confirmation is "y" in any case, and then at the chosen indices |
| TableOperations.RetypeStops | src/table_builder/table_operations.py:45-98 | why the retype stops: no columns, a bad column answer, a bad type answer, a cancelled confirmation (raises) or any other confirmation (cancel) |
| TableOperations.RenameChoice | src/table_builder/table_operations.py:100-140 | a rename goes ahead exactly when the column answer is usable and the stripped new name is not taken; a cancelled name raises |
| TableOperations.ParsePosition | src/table_builder/table_operations.py:199-208 | a parsed position is exactly two comma-separated integers |
| TableOperations.PositionRoundTrip | src/table_builder/table_operations.py:199-208 | "row,col" written out parses back to the same pair |
| TableOperations.StripAll | src/table_builder/table_operations.py:217 | each value answer is stripped and cancels stay cancels |
| TableOperations.CellPosition | src/table_builder/table_operations.py:191-214 | an accepted position addresses an existing row and column |
| TableOperations.ReadValueFits | src/table_builder/table_operations.py:216-237 | a value read for a cell fits the column's type |
| TableOperations.CellValue | src/table_builder/table_operations.py:216-237 | the new cell value fits the column's type |
| TableOperations.EditCellChoice | src/table_builder/table_operations.py:181-247 | an edit targets an existing cell with a value of the column's type |
| TableOperations.EditCellTarget | src/table_builder/table_operations.py:181-247 | the edited cell is the one the one-based position names, and the value is the first usable answer |
| TableOperations.EditCellStops | src/table_builder/table_operations.py:186-214 | an empty table is refused, a row missing a key raises, a cancelled position raises and is caught, a malformed position is refused, and an out-of-range one stops |
| TableOperations.NameTable | src/table_builder/table_operations.py:6-8 | naming returns the answer and marks the table unsaved |
| TableOperations.AddColumn | src/table_builder/table_operations.py:10-43 | on a stop nothing changes; otherwise the column is appended, every row is backfilled, the table is unsaved, and well-formedness is kept |
| TableOperations.ChangeColumnType | src/table_builder/table_operations.py:45-98 | on a stop nothing changes; otherwise only the chosen column's type changes and the table is unsaved |
| TableOperations.EditColumnName | src/table_builder/table_operations.py:100-140 | on a stop nothing changes; otherwise the column is renamed, every row is rekeyed to the new name, and the table is unsaved |
| TableOperations.AddRow | src/table_builder/table_operations.py:142-179 | with no columns it is refused; a completed row is appended; a cancel or running out of answers changes nothing |
| TableOperations.EditCell | src/table_builder/table_operations.py:181-247 | on a stop nothing changes; otherwise exactly one cell of one row changes and the table is unsaved |
| TableOperations.RemoveColumn | src/table_builder/table_operations.py:249-274 | a cancelled answer raises; an unknown name is refused; otherwise the column and its key in every row are removed |
| TableOperations.RemoveRow | src/table_builder/table_operations.py:276-286 | a cancelled or non-numeric answer raises; an in-range one-based number removes exactly that row; others are refused |
| TableOperations.ClearTable | src/table_builder/table_operations.py:288-292 | columns and rows become empty, and the name and saved flag stay |
| Sheets.PadCells | src/table_builder/io/excel_handler.py:30 | a row is padded or cut to exactly the header width |
| Sheets.SaveFileName | src/table_builder/io/excel_handler.py:46-56 | "y" (any case) gives the table name with the extension, "n" the typed name with it; a cancelled answer raises; anything else is refused |
| Sheets.ZipRowKeys | src/table_builder/io/csv_handler.py:76-79 | a zipped row has keys only for the columns its record reaches |
| Sheets.ShortRowBreaksKeysMatch | src/table_builder/io/csv_handler.py:76-79 | a short CSV record yields a row missing a column key |
| Sheets.ZipDropsExtraAndLaterWins | src/table_builder/io/csv_handler.py:76-79 | extra fields are dropped, and a repeated header keeps the later value |
| Sheets.PaddedRowFacts | src/table_builder/io/excel_handler.py:30 | a padded row has exactly the header keys, with an empty value past the record's end |
| Sheets.PaddedLoadKeysMatch | src/table_builder/io/excel_handler.py:29-30 | a padded load keeps row keys equal to the column names |
| Sheets.ExportCell | src/table_builder/io/excel_handler.py:64-69 | an exported grid has the names as header, and each cell is the row's value or empty |
| Sheets.ExportThenLoad | src/table_builder/io/excel_handler.py:29-30 | an exported grid loads back to the same names and rows |
| Sheets.PaddedLoadOfExport | src/table_builder/io/ods_handler.py:30-34 | a padded load of an exported grid gives "str" columns of the same names and the same rows |
| SqlStore.TableNames | src/table_builder/database_handler.py:34-35 | the listed names are the tables' names, in order |
| SqlStore.DropTableFacts | src/table_builder/database_handler.py:40 | dropping keeps exactly the tables of another SQL name, and the name is then free |
| SqlStore.DropKeepsWellStored | src/table_builder/database_handler.py:40 | dropping keeps the store's table names distinct |
| DatabaseHandler.ProgramTypeOf | src/table_builder/database_handler.py:139-145 | any SQL type maps back to a program type, with "str" by default |
| DatabaseHandler.TypeMapRoundTrip | src/table_builder/database_handler.py:61-78 | each program type maps to an SQL type that maps back to it |
| DatabaseHandler.SqlTypeExamples | src/table_builder/database_handler.py:65-78 | the type is upper-cased before mapping, and an unknown type has no SQL type |
| DatabaseHandler.SqlColumns | src/table_builder/database_handler.py:61-81 | column definitions exist exactly when every type is supported, and keep names and order |
| DatabaseHandler.BuildColumnDefinitions | src/table_builder/database_handler.py:61-81 | the definitions loop computes them |
| DatabaseHandler.StoredValue | src/table_builder/database_handler.py:90 | SQLite never hands back a bool |
| DatabaseHandler.StoredRows | src/table_builder/database_handler.py:87-93 | one stored row per table row |
| DatabaseHandler.InsertRows | src/table_builder/database_handler.py:87-93 | the insert loop goes through exactly when every int fits in 64 bits, and then stores exactly those rows |
| DatabaseHandler.Resolve | src/table_builder/database_handler.py:37-59 | a halt is always a rejection; an overwrite of an existing table frees the name |
| DatabaseHandler.SavePlan | src/table_builder/database_handler.py:18-101 | the saved flag changes only on success; success always sets it and needs supported column types, column names distinct ignoring case (SQLite's CREATE raises on a repeated column name) and every int within 64 bits (the INSERT raises OverflowError otherwise) |
| DatabaseHandler.WideIntRaises | src/table_builder/database_handler.py:83-101 | an int one past the 64-bit range makes the INSERT raise: the created table stays without rows and the saved flag stays |
| DatabaseHandler.CaseDuplicateColumnsRaise | src/table_builder/database_handler.py:81-101 | columns `a` and `A`, which the program accepts as distinct, make the CREATE raise: nothing is created and the saved flag stays |
| DatabaseHandler.SaveKeepsStoreWellFormed | src/table_builder/database_handler.py:18-101 | a save keeps table names distinct, and a successful save ends with the table under its name with all its rows |
| DatabaseHandler.DropHappensBeforeTypeCheck | src/table_builder/database_handler.py:37-78 | with auto-update on, an unsupported type aborts after the old table was already dropped |
| DatabaseHandler.HandlerPromptAlwaysFails | src/table_builder/database_handler.py:43-46 | unless auto-update is on, saving over an existing table always raises and changes nothing |
| DatabaseHandler.PromptOverwriteReplaces | src/table_builder/database_handler.py:48-49 | with the prompt working, column names distinct ignoring case and ints within 64 bits, "overwrite" replaces the old table with the new one |
| DatabaseHandler.NewAnswerSavesAs | src/table_builder/database_handler.py:50-55 | the answer "new" with a stripped non-empty name adopts exactly that name |
| DatabaseHandler.SaveAsFreshKeepsOld | src/table_builder/database_handler.py:54-101 | when the save can go through, a fresh adopted name appends the table after every old table and sets the saved flag |
| DatabaseHandler.PromptNewKeepsOld | src/table_builder/database_handler.py:50-56 | with the prompt working, column names distinct ignoring case and ints within 64 bits, "new" saves under the new name and keeps every old table |
| DatabaseHandler.StoredRowLoadsBack | src/table_builder/database_handler.py:151-160 | a stored row whose every cell is kept by its column's SQLite affinity loads back to the same row |
| DatabaseHandler.SqlColumnsLoadBack | src/table_builder/database_handler.py:139-145 | saved column types load back to the same columns |
| DatabaseHandler.StoredRowsLoadBack | src/table_builder/database_handler.py:151-160 | stored rows whose cells are kept by their columns' SQLite affinity load back to the same rows |
| DatabaseHandler.SaveThenLoad | src/table_builder/database_handler.py:103-173 | a saved table whose cells are kept by their columns' SQLite affinity (text under TEXT, integers under INTEGER, reals under REAL, booleans under BOOLEAN, NULL or "" under any but BOOLEAN) loads back with the same columns and rows |
| DatabaseHandler.LoadedRows | src/table_builder/database_handler.py:151-160 | one loaded row per stored row |
| DatabaseHandler.RebuildRows | src/table_builder/database_handler.py:151-160 | the row-building loop computes the loaded rows |
| DatabaseHandler.RebuildRow | src/table_builder/database_handler.py:154-159 | the per-column loop builds the loaded row: the column names mapped to the stored values, bool columns by truthiness |
| DatabaseHandler.SaveTable | src/table_builder/database_handler.py:18-101 | the builder's name and saved flag and the store become what the save plan says; columns and rows stay |
| DatabaseHandler.SaveToDatabase | src/table_builder/database_handler.py:18-101 | the same, with the clash decided by the handler's own prompt |
| DatabaseHandler.TableSelection | src/table_builder/database_handler.py:107-129 | a chosen table exists and is the one-based number `int()` reads from the answer |
| DatabaseHandler.SelectionIsOneBased | src/table_builder/database_handler.py:122-131 | typing k+1 selects the k-th table |
| DatabaseHandler.LoadFromDatabase | src/table_builder/database_handler.py:103-173 | on a stop nothing changes; otherwise the table's columns, rows and name replace the builder's, it is saved, and the missing autoprint getter raises |
| DatabaseHandler.GetTables | src/table_builder/database_handler.py:175-187 | connected, the store's table names; otherwise none |
| CsvHandler.TextGrid | src/table_builder/io/csv_handler.py:63-65 | every CSV field is read as text |
| CsvHandler.CsvSource | src/table_builder/io/csv_handler.py:52-70 | a load goes ahead only for an existing, readable, non-empty file at the given or prompted path |
| CsvHandler.CsvRows | src/table_builder/io/csv_handler.py:76-79 | one row per record after the header |
| CsvHandler.CsvRowsAreText | src/table_builder/io/csv_handler.py:76-79 | every loaded value is text |
| CsvHandler.TextRowsBind | src/table_builder/database_handler.py:87-93 | rows of text never make an INSERT overflow |
| CsvHandler.LoadCsvSucceeds | src/table_builder/io/csv_handler.py:44-89 | a load that passes the checks succeeds, with the header as column names, the records as rows, the file's base name as table name, and unsaved |
| CsvHandler.CsvLoadKeysMatch | src/table_builder/io/csv_handler.py:73-81 | when no record is shorter than the header, row keys are the column names after inference |
| CsvHandler.RefusedFileChangesNothing | src/table_builder/io/csv_handler.py:57-70 | a missing, unreadable or empty file is refused and leaves the table unchanged |
| CsvHandler.LoadCsv | src/table_builder/io/csv_handler.py:44-89 | the builder becomes what the load specification says |
| CsvHandler.RecordHeader | src/table_builder/io/csv_handler.py:30-31 | the header written has one field per column |
| CsvHandler.CsvRecords | src/table_builder/io/csv_handler.py:30-35 | the intended records: a header when there are columns, then one record per row |
| CsvHandler.RecordsRaiseOnFirstRow | src/table_builder/io/csv_handler.py:30-35 | as written, the header fields are the column records, not their names, and the first row raises |
| CsvHandler.CsvRecordLoadsBack | src/table_builder/io/csv_handler.py:33-35 | one intended data line of a text row loads back as that row under the column names |
| CsvHandler.CsvRecordsLoadBack | src/table_builder/io/csv_handler.py:30-35 | the intended records load back to the same names and rows |
| CsvHandler.SaveCsv | src/table_builder/io/csv_handler.py:8-42 | as written: the file holds what was written before the raise, and the table is saved only when nothing raised |
| CsvHandler.SaveCsvCorrected | src/table_builder/io/csv_handler.py:8-42 | corrected: the file holds the intended records and the table is saved |
| CsvHandler.CsvOnly | src/table_builder/io/csv_handler.py:117-119 | exactly the listed files ending in ".csv" |
| CsvHandler.BatchFiles | src/table_builder/io/csv_handler.py:95-129 | a batch runs only when connected, on a directory, with some CSV files |
| CsvHandler.BatchName | src/table_builder/io/csv_handler.py:140-148 | a free base name is kept, a typed reply also keeps it, an empty reply takes "Table " and a number that reads back as the table count plus one, and only a cancelled reply stops |
| CsvHandler.FallbackNameMayBeTaken | src/table_builder/io/csv_handler.py:147-148 | the fallback "Table n" can itself be a taken name |
| CsvHandler.FailedLoadSavesPreviousTable | src/table_builder/io/csv_handler.py:136-151 | when a file fails to load, the previous table is saved under the new file's name |
| CsvHandler.LoadBatchCsv | src/table_builder/io/csv_handler.py:91-157 | the batch loop's final table and store are those of the batch specification, and the table ends saved |
| ExcelHandler.ExcelSource | src/table_builder/io/excel_handler.py:10-27 | a load goes ahead only for an existing workbook with rows |
| ExcelHandler.LoadExcelKeysMatch | src/table_builder/io/excel_handler.py:29-33 | after a load, row keys are the header names, the rows are the padded body, and the table is named after the file |
| ExcelHandler.NumberCellRaises | src/table_builder/io/excel_handler.py:32-35 | a number cell under inference raises after the table was already replaced |
| ExcelHandler.LoadExcel | src/table_builder/io/excel_handler.py:10-36 | the builder becomes what the load specification says |
| ExcelHandler.AppendRows | src/table_builder/io/excel_handler.py:64-69 | the append loop produces the exported grid |
| ExcelHandler.SaveExcel | src/table_builder/io/excel_handler.py:38-73 | an empty table is refused; otherwise the workbook holds the header and the projected rows |
| ExcelHandler.SaveThenLoadExcel | src/table_builder/io/excel_handler.py:10-73 | a saved workbook with no empty-text name or cell loads back, without inference, to the same rows under "str" columns |
| OdsHandler.OdsSource | src/table_builder/io/ods_handler.py:8-28 | a load goes ahead only for an existing document whose first sheet has rows |
| OdsHandler.LoadOdsKeysMatch | src/table_builder/io/ods_handler.py:30-34 | after a load, row keys are the header names and the table is named after the file |
| OdsHandler.OnlyFirstSheetCounts | src/table_builder/io/ods_handler.py:23-28 | an empty first sheet is refused even when a later one has data |
| OdsHandler.LoadOds | src/table_builder/io/ods_handler.py:8-37 | the builder becomes what the load specification says |
| OdsHandler.OdsFileName | src/table_builder/io/ods_handler.py:47-56 | only "y" or "n" exactly give a ".ods" name; a cancelled answer returns |
| OdsHandler.UpperCaseAnswerRefused | src/table_builder/io/ods_handler.py:47-56 | "Y" is refused here but accepted by the spreadsheet saver |
| OdsHandler.SaveOds | src/table_builder/io/ods_handler.py:39-68 | an empty table is refused; otherwise the document's one sheet holds the header and the projected rows |
| OdsHandler.SaveThenLoadOds | src/table_builder/io/ods_handler.py:8-68 | a saved document loads back to the same rows under "str" columns |
| PdfHandler.ExtractRows | src/table_builder/io/pdf_handler.py:91-95 | the page loop appends every page's table rows in page order |
| PdfHandler.ExtractedAppend | src/table_builder/io/pdf_handler.py:91-95 | extraction distributes over appended pages |
| PdfHandler.LaterHeaderBecomesData | src/table_builder/io/pdf_handler.py:91-106 | a second page's header line becomes a data row |
| PdfHandler.PdfSource | src/table_builder/io/pdf_handler.py:73-99 | a load goes ahead only for an existing document with some rows |
| PdfHandler.LoadPdfKeysMatch | src/table_builder/io/pdf_handler.py:102-106 | after a load, row keys are the header names, and the table is renamed exactly when the load succeeds |
| PdfHandler.LoadPdf | src/table_builder/io/pdf_handler.py:73-108 | the builder becomes what the load specification says |
| PdfHandler.SavePdf | src/table_builder/io/pdf_handler.py:15-71 | an empty table is refused; otherwise the document's table is the header and the projected rows, and the table is saved |
| PdfHandler.SaveThenLoadPdf | src/table_builder/io/pdf_handler.py:15-108 | a saved one-page document of text rows loads back to the same rows under "str" columns |
| Paths.BaseName | src/table_builder/io/csv_handler.py:82 | a base name holds no separator |
| Paths.LastIndexOf | src/table_builder/io/csv_handler.py:82 | finds the last occurrence of a character |
| Paths.BaseNameOfJoin | src/table_builder/io/csv_handler.py:117-119 | the base name of a joined path is the file name |
| Paths.TableNameDropsExtension | src/table_builder/io/csv_handler.py:82 | the table name is the file name without its extension |
| Paths.LeadingDotKeepsName | src/table_builder/io/csv_handler.py:82 | a dot file keeps its whole name |
| DatabaseManager.Closed | src/database/database.py:164-173 | closing drops the connection, the cursor and the current database |
| DatabaseManager.ConnectResult | src/database/database.py:133-162 | a connection succeeds exactly for an existing target that opens; a failure changes nothing |
| DatabaseManager.ConnectPrefersPath | src/database/database.py:141-146 | a given path wins over a given name |
| DatabaseManager.ConnectByName | src/database/database.py:144-158 | a name connects to that file in the database directory, and a name without a slash is the base name of the connected path |
| DatabaseManager.CellHitsExactly | src/database/database.py:81-85 | every hit from a row is the hit for one of its matching cells, and every matching cell gives one |
| DatabaseManager.RowHitsExactly | src/database/database.py:81-85 | every hit from a table is the hit for a matching cell of one of its rows, and every matching cell gives one |
| DatabaseManager.TableHitsExactly | src/database/database.py:69-85 | every hit from the searched tables is the hit for a matching cell of one of them, and every matching cell gives one |
| DatabaseManager.Scan | src/database/database.py:69-85 | the nested search loops compute those hits |
| DatabaseManager.HitsExactly | src/database/database.py:28-111 | every search result is the hit for a cell of a searched table whose value matches the query, and every such cell is reported |
| DatabaseManager.QueryCaseIgnored | src/database/database.py:83 | the query's case does not matter |
| DatabaseManager.SearchTargets | src/database/database.py:28-65 | a search needs a connection, a query and tables; 0 searches all tables and k searches the k-th |
| DatabaseManager.DbFiles | src/database/database.py:218-230 | exactly the listed files ending in ".db" |
| DatabaseManager.DatabaseChoice | src/database/database.py:232-247 | a choice is a listed database, picked by its one-based number |
| DatabaseManager.SelectResult | src/database/database.py:232-247 | selecting connects to a listed database in the directory; a failure changes nothing |
| DatabaseManager.DeleteAsWritten | src/database/database.py:202-216 | the file is removed exactly when it exists and can be removed |
| DatabaseManager.DeleteKeepsDanglingConnection | src/database/database.py:213-214 | as written, deleting the connected database keeps a connection to a removed file |
| DatabaseManager.DeleteCorrected | src/database/database.py:202-216 | the corrected delete removes the same file |
| DatabaseManager.DeleteLeavesNoDanglingConnection | src/database/database.py:213-214 | corrected, no connection is ever left to a removed file |
| DatabaseManager.Database.constructor | src/database/database.py:11-26 | a new manager has the given directory and no connection |
| DatabaseManager.Database.Close | src/database/database.py:164-173 | the state becomes the closed state |
| DatabaseManager.Database.Connect | src/database/database.py:133-162 | the state becomes what the connect specification says |
| DatabaseManager.Database.Search | src/database/database.py:28-111 | a stop reports nothing; otherwise the hits are exactly the matching cells of the searched tables |
| DatabaseManager.Database.SelectDatabase | src/database/database.py:232-247 | the state becomes what the select specification says |
| DatabaseManager.Database.DeleteDatabase | src/database/database.py:202-216 | as written |
| DatabaseManager.Database.DeleteDatabaseCorrected | src/database/database.py:202-216 | corrected |
| SettingsStore.Defaults | src/settings/settings.py:162-174 | the factory settings define the four switches, all booleans |
| SettingsStore.Lookup | src/settings/settings.py:123-133 | a setting reads "on" exactly when it is stored and truthy, and "off" otherwise |
| SettingsStore.DefaultsRead | src/settings/settings.py:162-174 | with the factory settings only type inference is on |
| SettingsStore.SetResult | src/settings/settings.py:135-155 | an unknown setting is refused; only "on"/"off" after lower-casing and stripping are accepted; a refusal changes nothing |
| SettingsStore.GetAfterSet | src/settings/settings.py:123-155 | reading a setting just set gives back the normalised answer |
| SettingsStore.SetKeepsOthers | src/settings/settings.py:143-155 | setting one key leaves every other key as it was |
| SettingsStore.SetIgnoresCaseAndBlanks | src/settings/settings.py:143-155 | " ON " sets the same as "on" |
| SettingsStore.ResetResult | src/settings/settings.py:157-174 | only "y" resets, to the factory settings; anything else changes nothing |
| SettingsStore.ResetTwice | src/settings/settings.py:157-174 | resetting is idempotent and reads like the factory settings |
| SettingsStore.Settings.constructor | src/settings/settings.py:66-87 | the file's settings, or the factory settings when the file is missing or corrupt |
| SettingsStore.Settings.SetSetting | src/settings/settings.py:135-155 | the settings become what the set specification says |
| SettingsStore.Settings.ReturnToDefault | src/settings/settings.py:157-174 | the settings become what the reset specification says |
| FlatRevision.NewTableBuilder | table_builder.py:20-43 | the table is named by the start-up argument, or else by the answer, and starts empty and unsaved |
| FlatRevision.AddColumnFlat | table_builder.py:673-706 | behaves as the modular add-column command |
| FlatRevision.ChangeColumnTypeFlat | table_builder.py:708-761 | as the modular command, but a raw answer can never make it raise |
| FlatRevision.EditColumnNameFlat | table_builder.py:763-803 | as the modular command, but it never raises, and the new name is the stripped answer |
| FlatRevision.AddRowFlat | table_builder.py:806-843 | behaves as the modular add-row command |
| FlatRevision.EditCellFlat | table_builder.py:846-912 | as the modular command, with value answers that cannot be cancels |
| FlatRevision.RawValuesNeverQuit | table_builder.py:881-882 | raw value answers never trigger the cancel failure |
| FlatRevision.RawScanNeverQuits | table_builder.py:881-882 | a prompt loop over raw answers never quits |
| FlatRevision.RemoveColumnFlat | table_builder.py:915-940 | an unknown stripped name is refused; otherwise the column and its keys are removed |
| FlatRevision.RemoveRowFlat | table_builder.py:943-953 | a non-numeric answer raises; an in-range number removes that row |
| FlatRevision.ClearTableFlat | table_builder.py:1040-1045 | columns and rows become empty |
| FlatRevision.FlatClash | table_builder.py:174-196 | auto-update on overwrites, a missing getter raises, and a new name is the non-empty stripped answer |
| FlatRevision.SaveToDatabaseFlat | table_builder.py:155-238 | the builder and store become what the save plan says with that dialogue |
| FlatRevision.FlatOverwriteReplaces | table_builder.py:174-196 | " Overwrite " replaces the old table here, where the modular handler raises |
| FlatRevision.FlatNewNameNotRechecked | table_builder.py:187-193 | a new name that is itself taken is not re-checked, and the CREATE raises |
| FlatRevision.FlatAbortKeepsStore | table_builder.py:174-196 | any other action, or an empty new name, leaves the store and the table unchanged |
| FlatRevision.LoadFromDatabaseFlat | table_builder.py:242-308 | a chosen table replaces the builder's and is saved |
| FlatRevision.Autoprinted | table_builder.py:305-306 | the load reports success exactly when the autoprint getter exists |
| FlatRevision.CsvLoadFlatFacts | table_builder.py:422-470 | the CSV load keeps every column "str", keeps the table name, and marks the table unsaved |
| FlatRevision.CsvLoadFlatSkipsInference | table_builder.py:451-460 | on a file with the value "5", this revision keeps "str" while the modular loader infers "int" |
| FlatRevision.LoadCsvFlat | table_builder.py:422-470 | the builder becomes what the flat CSV load says |
| FlatRevision.PaddedLoadFacts | table_builder.py:563-564 | a padded load keeps row keys equal to the names, keeps "str" types, and keeps the table name |
| FlatRevision.RawPath | table_builder.py:611-637 | the path is the stripped answer, and an empty answer gives none |
| FlatRevision.OdsLoadFlatFacts | table_builder.py:611-637 | the document load is the modular one without inference and without the rename |
| FlatRevision.OdsFlatRoundTrip | table_builder.py:611-657 | a saved document loads back to the same rows under the same table name |
| FlatRevision.LoadExcelFlat | table_builder.py:544-570 | the builder becomes what the flat workbook load says |
| FlatRevision.LoadOdsFlat | table_builder.py:611-637 | the builder becomes what the flat document load says |
| FlatRevision.LoadPdfFlat | table_builder.py:113-143 | the builder becomes what the flat PDF load says |
| FlatRevision.SaveCsvFlat | table_builder.py:355-389 | as the modular CSV save on the lower-cased answer, without the cancel crash |
| FlatRevision.SavePdfFlat | table_builder.py:55-111 | as the modular PDF save, without the cancel crash |
| FlatRevision.SaveExcelFlat | table_builder.py:573-609 | as the modular workbook save |
| FlatRevision.SaveOdsFlat | table_builder.py:639-657 | with no question asked, the file is the stripped answer plus ".ods" and holds the exported grid |
| FlatRevision.BatchNameFlat | table_builder.py:523-531 | the base name is kept, except that an empty reply for a taken name skips the file |
| FlatRevision.EmptyReplySkipsFile | table_builder.py:526-534 | an empty reply for a taken name loads the file but saves nothing |
| FlatRevision.TypedReplyAsksDialogue | table_builder.py:523-534 | a typed reply goes on to the save dialogue, which can store the table under a new name and keep every old table |
| FlatRevision.LoadBatchCsvFlat | table_builder.py:474-541 | the batch loop's final table and store are those of the flat batch specification, and the table ends saved |

## Left out

- File contents, spreadsheet, PDF and SQLite libraries: modelled as maps from path to the grid the library would produce, with flags for whether a write succeeds. CSV tokenising, quoting and encodings are not modelled.
- Float parsing and float printing: parameters (`parseFloat`, `floatRepr`), because Dafny has no IEEE floats.
- Text is ASCII: case conversion, `isdigit` and `strip` cover ASCII only.
- ExcelHandler.LoadExcel, OdsHandler.LoadOds, PdfHandler.LoadPdf and the flat loaders require every header cell to be text; a number used as a column name is not modelled.
- SQLite's type affinity and quoting of names are not modelled in the save. Stored values are kept as given, except that booleans are stored as integers and an int outside the signed 64-bit range makes the save raise. Transactions are modelled only as far as a save that raises in its INSERTs leaves the created table with no committed rows; the uncommitted rows are not modelled.
- DatabaseHandler.SaveThenLoad, DatabaseHandler.StoredRowsLoadBack, DatabaseHandler.StoredRowLoadsBack: stated only for cells SQLite's column affinity keeps (DatabaseHandler.Storable); text such as "5" in an "int" column, as a CSV load with inference leaves it, comes back as the integer 5, and 5 in a "str" or "float" column comes back as "5" or 5.0.
- ExcelHandler.SaveThenLoadExcel: stated only for tables with no empty-text column name or cell, because openpyxl writes "" as an empty cell that reads back as None; columns added later are backfilled with "" and so fall outside it.
- PdfHandler.SaveThenLoadPdf: stated for text rows only, since the PDF extractor returns text and how a number or boolean is drawn and read back is not modelled.
- `delete_table` (both revisions), `save_to_json` and the JSON handler: not part of this model.
- RecordText: the header record written by `save_csv` is a stand-in string per column, not Python's dictionary rendering.
- The settings getters `get_auto_update` and `get_autoprint_table` do not exist in `settings.py`; their presence and result are parameters.
- Directory walking and listing: the walked and listed file names are parameters.
- `ensure_database_directory`, `create_database`, `get_current_database`, `save_settings`, styles, rendering, printing, autocompletion, messages and the command loops are not modelled: they only do I/O.
- `next_table_number` appears only through the fallback name in `load_batch_csv`. The flat batch loader calls a method the database object lacks, so an empty reply there is modelled as skipping the save.
- `list_tables` and `show_current_table`: display only.
- `get_num_rows`: only display code calls it; the model reads the length of the row list directly.
- `get_num_columns`: nothing in the program calls it; the model reads the length of the column list directly.
- CsvHandler.CsvLoadKeysMatch: stated only when no record is shorter than the header, because shorter records give rows with missing keys (Sheets.ShortRowBreaksKeysMatch).

## Findings

| source | as written | input that shows it | evidently intended | confidence | as-written member | corrected member |
|---|---|---|---|---|---|---|
| src/table_builder/database_handler.py:44 | the overwrite prompt reads `self.name`, which the handler does not have, so it raises | saving a table whose name already exists, with auto-update off | ask the question with the table's name and act on the answer | not executed | DatabaseHandler.HandlerPromptAlwaysFails | DatabaseHandler.PromptOverwriteReplaces |
| src/table_builder/io/csv_handler.py:31-35 | the header row writes the column records, and `row.get(column)` with a record as key raises | any table with a column and a row | write the column names, then each row's values under those names | not executed | CsvHandler.RecordsRaiseOnFirstRow | CsvHandler.CsvRecordsLoadBack |
| src/database/database.py:213-214 | the check before closing compares the connected database's full path with the bare file name, which never match, so the connection stays open on a removed file | deleting the database currently connected | close the connection before removing its file | not executed | DatabaseManager.DeleteKeepsDanglingConnection | DatabaseManager.DeleteLeavesNoDanglingConnection |
