/** `ExcelHandler`: loading the active sheet of a workbook into the builder
    and saving the builder as a one-sheet workbook. openpyxl is not
    modelled: a workbook is the grid of cell values of its active sheet. */
module ExcelHandler {
  import opened Values
  import opened TableState
  import opened TableUtils
  import opened Sheets
  import opened Paths

  /** What the loader finds at a path: nothing (the path does not exist),
      a workbook `load_workbook` fails on (None), or the active sheet. */
  type Workbooks = map<string, Option<Grid>>

  /** Every readable non-empty sheet has a text header. */
  predicate TextHeaders(books: Workbooks)
  {
    forall p :: p in books && books[p].Some? && books[p].value != [] ==> TextHeader(books[p].value[0])
  }

  /** The checks of `load_excel` before anything changes. The path is the
      one given when non-empty, otherwise the answer to the prompt (not
      stripped: a cancelled prompt returns quietly); the path must exist,
      the workbook must open and the sheet must have a row. */
  function ExcelSource(path: string, prompt: Option<string>, books: Workbooks): (r: Step<(string, Grid)>)
    ensures r.Go? ==> r.value.1 != [] && r.value.0 in books && books[r.value.0] == Some(r.value.1)
    ensures r.Go? && path != "" ==> r.value.0 == path
    ensures r.Stop? ==> r.outcome != Done
  {
    if path == "" && prompt.None? then Stop(Cancelled)
    else
      var p := if path != "" then path else prompt.value;
      if p !in books then Stop(Rejected(FileNotFound))
      else
        match books[p]
        case None => Stop(Rejected(Raised))
        case Some(g) => if g == [] then Stop(Rejected(EmptySource)) else Go((p, g))
  }

  /** `load_excel` on the builder: the table is replaced by the padded
      sheet and renamed after the file, then inferred when the setting is on.
      Inference runs after both assignments, so when it raises the new table
      and name stay while the failure is reported. The saved flag is never
      touched. */
  function LoadExcelResult(s: Snapshot, path: string, prompt: Option<string>, books: Workbooks, inferOn: bool)
    : (r: (Snapshot, Outcome))
    requires TextHeaders(books)
  {
    match ExcelSource(path, prompt, books)
    case Stop(o) => (s, o)
    case Go((p, g)) =>
      var rows := PaddedBody(g);
      if !inferOn then (Snapshot(TableNameOf(p), PaddedColumns(g), rows, s.saved), Done)
      else
        var inferred := Inference(PaddedColumns(g), rows);
        (Snapshot(TableNameOf(p), inferred.0, rows, s.saved), if inferred.1 then Done else Rejected(Raised))
  }

  /** After a load that got past the checks, every row has exactly the
      header names as keys, the columns carry the header names in order,
      and the table bears the file's name, whether or not inference raised. */
  lemma LoadExcelKeysMatch(s: Snapshot, path: string, prompt: Option<string>, books: Workbooks, inferOn: bool)
    requires TextHeaders(books) && ExcelSource(path, prompt, books).Go?
    ensures var (p, g) := ExcelSource(path, prompt, books).value;
      var r := LoadExcelResult(s, path, prompt, books, inferOn).0;
      KeysMatch(r.columns, r.rows) && Names(r.columns) == HeaderNames(g[0])
      && r.rows == PaddedBody(g) && r.name == TableNameOf(p) && r.saved == s.saved
  {
    var g := ExcelSource(path, prompt, books).value.1;
    PaddedLoadKeysMatch(g);
    InferenceKeepsKeysMatch(PaddedColumns(g), PaddedBody(g));
    InferenceKeepsNames(PaddedColumns(g), PaddedBody(g));
  }

  /** Inference can raise on a spreadsheet: a number in the first data row
      is not text. The load then reports failure with the new table and name
      already installed. */
  lemma NumberCellRaises(s: Snapshot, path: string, books: Workbooks)
    requires path != "" && path in books
    requires books[path] == Some([[S("a")], [I(5)]])
    ensures TextHeaders(books) ==>
      (LoadExcelResult(s, path, None, books, true) ==
        (Snapshot(TableNameOf(path), [Column("a", "str")], [map["a" := I(5)]], s.saved), Rejected(Raised)))
  {
    var g: Grid := [[S("a")], [I(5)]];
    var cols := PaddedColumns(g);
    assert HeaderNames(g[0]) == ["a"];
    assert cols == [Column("a", "str")];
    var row := PaddedRow(["a"], [I(5)]);
    assert PadCells([I(5)], 1) == [I(5)];
    assert ["a"][..0] == [] && [I(5)][..0] == [];
    assert row == map["a" := I(5)];
    assert PaddedBody(g) == [row];
    assert HasData(row) by { assert Truthy(row["a"]); }
    assert FirstDataIndex([row]) == Some(0);
    assert InferredColumn(cols[0], row) == None;
  }

  /** `load_excel`, statement by statement. */
  method LoadExcel(tb: TableBuilder, path: string, prompt: Option<string>, books: Workbooks, inferOn: bool)
    returns (out: Outcome)
    requires TextHeaders(books)
    modifies tb
    ensures (tb.Snap(), out) == LoadExcelResult(old(tb.Snap()), path, prompt, books, inferOn)
  {
    var p: string;
    if path != "" {
      p := path;
    } else if prompt.None? {
      return Cancelled;
    } else {
      p := prompt.value;
    }
    if p !in books {
      return Rejected(FileNotFound);
    }
    var book := books[p];
    if book.None? {
      return Rejected(Raised);
    }
    var g := book.value;
    if g == [] {
      return Rejected(EmptySource);
    }
    tb.columns := StrColumns(HeaderNames(g[0]));
    tb.rows := PaddedRows(HeaderNames(g[0]), g[1..]);
    tb.name := TableNameOf(p);
    out := Done;
    if inferOn {
      var ok := InferColumnTypes(tb);
      if !ok {
        out := Rejected(Raised);
      }
    }
  }

  /** The loop appending one sheet row per table row after the header. */
  method AppendRows(cols: seq<Column>, rows: seq<Row>) returns (sheet: Grid)
    ensures sheet == ExportGrid(cols, rows)
  {
    sheet := [seq(|cols|, j requires 0 <= j < |cols| => S(cols[j].name))];
    var i := 0;
    while i < |rows|
      invariant 0 <= i <= |rows|
      invariant |sheet| == i + 1 && sheet[0] == ExportGrid(cols, rows)[0]
      invariant forall k :: 0 <= k < i ==> sheet[k + 1] == ExportRow(cols, rows[k])
    {
      sheet := sheet + [ExportRow(cols, rows[i])];
      i := i + 1;
    }
  }

  /** `save_excel`: an empty table is refused; otherwise the sheet is the
      column names followed by each row projected onto them, written under
      the chosen name. `writable` says whether the workbook can be saved
      there. The builder is not changed, not even its saved flag. */
  method SaveExcel(tb: TableBuilder, answer: Option<string>, fileAnswer: Option<string>, writable: bool)
    returns (out: Outcome, file: Option<(string, Grid)>)
    ensures tb.columns == [] || tb.rows == [] ==> out == Rejected(NoData) && file.None?
    ensures tb.columns != [] && tb.rows != [] ==>
      match SaveFileName(tb.name, answer, fileAnswer, ".xlsx")
      case Stop(o) => out == o && file.None?
      case Go(f) =>
        if writable then out == Done && file == Some((f, ExportGrid(tb.columns, tb.rows)))
        else out == Rejected(Raised) && file.None?
  {
    if tb.columns == [] || tb.rows == [] {
      return Rejected(NoData), None;
    }
    var name := SaveFileName(tb.name, answer, fileAnswer, ".xlsx");
    if name.Stop? {
      return name.outcome, None;
    }
    var sheet := AppendRows(tb.columns, tb.rows);
    if !writable {
      return Rejected(Raised), None;
    }
    return Done, Some((name.value, sheet));
  }

  /** Saving a table and loading the workbook back with inference off gives
      the same rows under "str" columns of the same names, and the file's
      name as the table name. openpyxl writes an empty text as an empty
      cell, which reads back as None, so no column name and no cell may be
      the empty text. */
  lemma SaveThenLoadExcel(s: Snapshot, cols: seq<Column>, rows: seq<Row>, f: string, books: Workbooks)
    requires DistinctNames(cols) && KeysMatch(cols, rows) && rows != []
    requires forall j | 0 <= j < |cols| :: cols[j].name != ""
    requires forall i, k | 0 <= i < |rows| && k in rows[i] :: rows[i][k] != S("")
    requires f != "" && f in books && books[f] == Some(ExportGrid(cols, rows)) && TextHeaders(books)
    ensures LoadExcelResult(s, f, None, books, false)
      == (Snapshot(TableNameOf(f), StrColumns(Names(cols)), rows, s.saved), Done)
  {
    PaddedLoadOfExport(cols, rows);
  }
}
