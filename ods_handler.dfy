/** `ODSHandler`: loading the first sheet of an OpenDocument spreadsheet
    into the builder and saving the builder as a one-sheet document.
    pyexcel-ods3 is not modelled: a document is its list of sheets, each the
    grid of its rows (or None when the sheet is not a list of rows). */
module OdsHandler {
  import opened Values
  import opened TableState
  import opened TableUtils
  import opened Sheets
  import opened Paths

  /** What the loader finds at a path: nothing (the path does not exist),
      a document `get_data` fails on (None), or its sheets in order. */
  type Documents = map<string, Option<seq<Option<Grid>>>>

  /** Every first sheet that is a non-empty grid has a text header. */
  predicate TextHeaders(docs: Documents)
  {
    forall p ::
      (p in docs && docs[p].Some? && docs[p].value != [] && docs[p].value[0].Some? && docs[p].value[0].value != [])
      ==> TextHeader(docs[p].value[0].value[0])
  }

  /** The checks of `load_ods` before anything changes. The prompt is
      stripped, so a cancelled prompt raises out of the command; the path
      must exist, the document must open and have a sheet (taking the first
      of none raises), and that sheet must be a non-empty list of rows. */
  function OdsSource(path: string, prompt: Option<string>, docs: Documents): (r: Step<(string, Grid)>)
    ensures r.Go? ==> r.value.1 != [] && r.value.0 in docs && docs[r.value.0].Some?
    ensures r.Go? ==> docs[r.value.0].value != [] && docs[r.value.0].value[0] == Some(r.value.1)
    ensures r.Go? && path != "" ==> r.value.0 == path
    ensures r.Stop? ==> r.outcome != Done
  {
    if path == "" && prompt.None? then Stop(Crashed)
    else
      var p := if path != "" then path else prompt.value;
      if p !in docs then Stop(Rejected(FileNotFound))
      else
        match docs[p]
        case None => Stop(Rejected(Raised))
        case Some(sheets) =>
          if sheets == [] then Stop(Rejected(Raised))
          else
            match sheets[0]
            case None => Stop(Rejected(EmptySource))
            case Some(g) => if g == [] then Stop(Rejected(EmptySource)) else Go((p, g))
  }

  /** `load_ods` on the builder: the first sheet replaces the table, padded,
      and the table is renamed after the file; inference follows when the
      setting is on, so when it raises the new table and name stay. The saved
      flag is never touched. */
  function LoadOdsResult(s: Snapshot, path: string, prompt: Option<string>, docs: Documents, inferOn: bool)
    : (r: (Snapshot, Outcome))
    requires TextHeaders(docs)
  {
    match OdsSource(path, prompt, docs)
    case Stop(o) => (s, o)
    case Go((p, g)) =>
      var rows := PaddedBody(g);
      if !inferOn then (Snapshot(TableNameOf(p), PaddedColumns(g), rows, s.saved), Done)
      else
        var inferred := Inference(PaddedColumns(g), rows);
        (Snapshot(TableNameOf(p), inferred.0, rows, s.saved), if inferred.1 then Done else Rejected(Raised))
  }

  /** After a load that got past the checks every row has exactly the header
      names as keys, the columns carry those names in order, and the table
      bears the file's name; later sheets play no part. */
  lemma LoadOdsKeysMatch(s: Snapshot, path: string, prompt: Option<string>, docs: Documents, inferOn: bool)
    requires TextHeaders(docs) && OdsSource(path, prompt, docs).Go?
    ensures var (p, g) := OdsSource(path, prompt, docs).value;
      var r := LoadOdsResult(s, path, prompt, docs, inferOn).0;
      KeysMatch(r.columns, r.rows) && Names(r.columns) == HeaderNames(g[0])
      && r.rows == PaddedBody(g) && r.name == TableNameOf(p) && r.saved == s.saved
  {
    var g := OdsSource(path, prompt, docs).value.1;
    PaddedLoadKeysMatch(g);
    InferenceKeepsKeysMatch(PaddedColumns(g), PaddedBody(g));
    InferenceKeepsNames(PaddedColumns(g), PaddedBody(g));
  }

  /** An empty first sheet is refused even when a later sheet holds data. */
  lemma OnlyFirstSheetCounts(s: Snapshot, path: string, docs: Documents, later: Grid)
    requires path != "" && path in docs && docs[path] == Some([Some([]), Some(later)])
    requires TextHeaders(docs)
    ensures LoadOdsResult(s, path, None, docs, true) == (s, Rejected(EmptySource))
  {
  }

  /** `load_ods`, statement by statement. */
  method LoadOds(tb: TableBuilder, path: string, prompt: Option<string>, docs: Documents, inferOn: bool)
    returns (out: Outcome)
    requires TextHeaders(docs)
    modifies tb
    ensures (tb.Snap(), out) == LoadOdsResult(old(tb.Snap()), path, prompt, docs, inferOn)
  {
    var p: string;
    if path != "" {
      p := path;
    } else if prompt.None? {
      return Crashed;
    } else {
      p := prompt.value;
    }
    if p !in docs {
      return Rejected(FileNotFound);
    }
    var doc := docs[p];
    if doc.None? || doc.value == [] {
      return Rejected(Raised);
    }
    var sheet := doc.value[0];
    if sheet.None? || sheet.value == [] {
      return Rejected(EmptySource);
    }
    var g := sheet.value;
    tb.columns := StrColumns(HeaderNames(g[0]));
    tb.rows := PaddedRows(HeaderNames(g[0]), g[1..]);
    tb.name := TableNameOf(p);
    out := Done;
    if inferOn {
      var ok := InferColumnTypes(tb);
      if !ok {
        out := Rejected(Raised);
      }
    }
  }

  /** The file name question of `save_ods`. Unlike the other savers the
      answer is compared as typed: only "y" and "n" are understood, a
      cancelled answer returns quietly, and a cancelled file name reaches
      `.strip()` on None and raises out of the command. */
  function OdsFileName(tableName: string, answer: Option<string>, fileAnswer: Option<string>): (r: Step<string>)
    ensures r.Go? ==> EndsWith(r.value, ".ods")
    ensures r.Go? ==> answer == Some("y") || answer == Some("n")
    ensures answer.None? ==> r == Stop(Cancelled)
  {
    if answer.None? then Stop(Cancelled)
    else if answer.value == "y" then Go(tableName + ".ods")
    else if answer.value == "n" then
      (if fileAnswer.None? then Stop(Crashed) else Go(fileAnswer.value + ".ods"))
    else Stop(Rejected(InvalidChoice))
  }

  /** "Y" is refused here while the spreadsheet saver takes it. */
  lemma UpperCaseAnswerRefused(tableName: string)
    ensures OdsFileName(tableName, Some("Y"), None) == Stop(Rejected(InvalidChoice))
    ensures SaveFileName(tableName, Some("Y"), None, ".xlsx") == Go(tableName + ".xlsx")
  {
    assert Lower("Y") == "y";
  }

  /** `save_ods`: an empty table is refused; otherwise the single sheet
      "Sheet1" holds the column names followed by each row projected onto
      them. `writable` says whether the document can be saved. The builder
      is not changed, not even its saved flag. */
  method SaveOds(tb: TableBuilder, answer: Option<string>, fileAnswer: Option<string>, writable: bool)
    returns (out: Outcome, file: Option<(string, Grid)>)
    ensures tb.columns == [] || tb.rows == [] ==> out == Rejected(NoData) && file.None?
    ensures tb.columns != [] && tb.rows != [] ==>
      match OdsFileName(tb.name, answer, fileAnswer)
      case Stop(o) => out == o && file.None?
      case Go(f) =>
        if writable then out == Done && file == Some((f, ExportGrid(tb.columns, tb.rows)))
        else out == Rejected(Raised) && file.None?
  {
    if tb.columns == [] || tb.rows == [] {
      return Rejected(NoData), None;
    }
    var name := OdsFileName(tb.name, answer, fileAnswer);
    if name.Stop? {
      return name.outcome, None;
    }
    if !writable {
      return Rejected(Raised), None;
    }
    var cols, rows := tb.columns, tb.rows;
    var header := seq(|cols|, j requires 0 <= j < |cols| => S(cols[j].name));
    var data := [header];
    data := data + seq(|rows|, i requires 0 <= i < |rows| => ExportRow(cols, rows[i]));
    return Done, Some((name.value, data));
  }

  /** Saving a table and loading the document back with inference off gives
      the same rows under "str" columns of the same names. */
  lemma SaveThenLoadOds(s: Snapshot, cols: seq<Column>, rows: seq<Row>, f: string, docs: Documents)
    requires DistinctNames(cols) && KeysMatch(cols, rows) && rows != []
    requires f != "" && f in docs && docs[f] == Some([Some(ExportGrid(cols, rows))]) && TextHeaders(docs)
    ensures LoadOdsResult(s, f, None, docs, false)
      == (Snapshot(TableNameOf(f), StrColumns(Names(cols)), rows, s.saved), Done)
  {
    PaddedLoadOfExport(cols, rows);
  }
}
