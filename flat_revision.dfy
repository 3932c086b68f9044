/** The single-file revision of `TableBuilder` (table_builder.py): the same
    table state, edited, loaded and saved by methods of the builder itself.
    Its prompts differ from the modular revision's in small ways (raw
    `console.input` answers in several places), its loaders neither infer
    nor rename, and its database save has a working overwrite/new dialogue.
    Where it behaves exactly as the modular revision the methods here hand
    over to the modular model. */
module FlatRevision {
  import opened Values
  import opened TableState
  import opened TableUtils
  import opened TableOperations
  import opened Sheets
  import opened SqlStore
  import opened DatabaseHandler
  import opened CsvHandler
  import opened ExcelHandler
  import opened OdsHandler
  import opened PdfHandler
  import opened Paths

  // ---------------------------------------------------------------------
  // Construction and the structural edits
  // ---------------------------------------------------------------------

  /** `__init__`: the name given on start when there is one, otherwise the
      raw answer to `name_table`; no columns, no rows, not saved. */
  method NewTableBuilder(nameOnStart: string, answer: string) returns (tb: TableBuilder)
    ensures fresh(tb)
    ensures tb.name == (if nameOnStart != "" then nameOnStart else answer)
    ensures tb.columns == [] && tb.rows == [] && !tb.saved
    ensures tb.WellFormed()
  {
    tb := new TableBuilder(nameOnStart);
    if nameOnStart == "" {
      var named := NameTable(tb, Some(answer));
      tb.name := named.value;
    }
  }

  /** `add_column`: the same prompts as the modular revision. */
  method AddColumnFlat(tb: TableBuilder, nameAnswer: Option<string>, typeAnswers: seq<Option<string>>) returns (out: Outcome)
    modifies tb
    ensures match AddColumnChoice(old(tb.columns), nameAnswer, typeAnswers)
      case Stop(o) => out == o && unchanged(tb)
      case Go(col) =>
        && out == Done
        && tb.columns == old(tb.columns) + [col]
        && tb.rows == Backfill(old(tb.rows), col.name)
        && tb.name == old(tb.name) && !tb.saved
    ensures old(tb.WellFormed()) ==> tb.WellFormed()
  {
    out := AddColumn(tb, nameAnswer, typeAnswers);
  }

  /** `change_column_type`: the three answers are raw `console.input`
      text, so a cancel is never seen; `int()` ignores surrounding blanks. */
  method ChangeColumnTypeFlat(tb: TableBuilder, columnAnswer: string, typeAnswer: string, confirm: string)
    returns (out: Outcome)
    modifies tb
    ensures out != Crashed
    ensures match RetypeChoice(|old(tb.columns)|, Some(columnAnswer), Some(typeAnswer), Some(confirm))
      case Stop(o) => out == o && unchanged(tb)
      case Go((i, t)) =>
        && out == Done
        && tb.columns == old(tb.columns)[i := Column(old(tb.columns)[i].name, Types[t])]
        && tb.rows == old(tb.rows) && tb.name == old(tb.name) && !tb.saved
    ensures old(tb.WellFormed()) ==> tb.WellFormed()
  {
    out := ChangeColumnType(tb, Some(columnAnswer), Some(typeAnswer), Some(confirm));
  }

  /** `edit_column_name`: raw answers; the new name is stripped. */
  method EditColumnNameFlat(tb: TableBuilder, columnAnswer: string, nameAnswer: string) returns (out: Outcome)
    modifies tb
    ensures out != Crashed
    ensures match RenameChoice(old(tb.columns), Some(columnAnswer), Some(nameAnswer))
      case Stop(o) => out == o && unchanged(tb)
      case Go((i, newName)) =>
        && out == Done
        && newName == Trim(nameAnswer)
        && tb.columns == old(tb.columns)[i := Column(newName, old(tb.columns)[i].ctype)]
        && tb.rows == Rekey(old(tb.rows), old(tb.columns)[i].name, newName)
        && tb.name == old(tb.name) && !tb.saved
    ensures old(tb.WellFormed()) && DistinctNames(old(tb.columns)) ==> tb.WellFormed()
  {
    out := EditColumnName(tb, Some(columnAnswer), Some(nameAnswer));
  }

  /** `add_row`: the same prompts as the modular revision. */
  method AddRowFlat(tb: TableBuilder, answers: seq<Option<string>>, parseFloat: string -> Option<real>) returns (out: Outcome)
    modifies tb
    ensures tb.name == old(tb.name) && tb.columns == old(tb.columns)
    ensures old(tb.columns) == [] ==> out == Rejected(NoColumns) && unchanged(tb)
    ensures old(tb.columns) != [] ==>
      match ReadRow(old(tb.columns), answers, parseFloat, map[])
      case Got(row, _) => out == Done && tb.rows == old(tb.rows) + [row] && !tb.saved
      case Quit => out == Cancelled && unchanged(tb)
      case OutOfInput => out == Rejected(NoMoreInput) && unchanged(tb)
    ensures old(tb.WellFormed()) ==> tb.WellFormed()
  {
    out := AddRow(tb, answers, parseFloat);
  }

  /** The raw answers as `Some` answers. */
  function Answered(raw: seq<string>): (r: seq<Option<string>>)
    ensures |r| == |raw|
    ensures forall i :: 0 <= i < |raw| ==> r[i] == Some(raw[i])
  {
    seq(|raw|, i requires 0 <= i < |raw| => Some(raw[i]))
  }

  /** `edit_cell`: the position goes through the cancelling prompt, the
      values are raw answers, stripped and asked again until accepted. */
  method EditCellFlat(tb: TableBuilder, position: Option<string>, valueAnswers: seq<string>, parseFloat: string -> Option<real>)
    returns (out: Outcome)
    modifies tb
    ensures tb.name == old(tb.name) && tb.columns == old(tb.columns)
    ensures match EditCellChoice(old(tb.columns), old(tb.rows), position, Answered(valueAnswers), parseFloat)
      case Stop(o) => out == o && unchanged(tb)
      case Go((r, c, v)) =>
        && out == Done && !tb.saved
        && |tb.rows| == |old(tb.rows)|
        && tb.rows[r] == old(tb.rows)[r][old(tb.columns)[c].name := v]
        && forall i :: 0 <= i < |tb.rows| && i != r ==> tb.rows[i] == old(tb.rows)[i]
    ensures old(tb.WellFormed()) ==> tb.WellFormed()
  {
    out := EditCell(tb, position, Answered(valueAnswers), parseFloat);
  }

  /** A value prompt that never sees a cancel never stops for one: the
      value loop of this revision ends only with an accepted value or when
      the answers run out. */
  lemma {:induction false} RawValuesNeverQuit(ctype: string, raw: seq<string>, parseFloat: string -> Option<real>)
    ensures CellValue(ctype, Answered(raw), parseFloat) != Stop(Rejected(Raised))
  {
    RawScanNeverQuits(StripAll(Answered(raw)), CellReader(ctype, parseFloat));
  }

  /** A scan over answers none of which is a cancel never quits. */
  lemma {:induction false} RawScanNeverQuits<T>(answers: seq<Option<string>>, accept: string -> Option<T>)
    requires forall i :: 0 <= i < |answers| ==> answers[i].Some?
    ensures !Scan(answers, accept).Quit?
  {
    if answers != [] && accept(answers[0].value).None? {
      RawScanNeverQuits(answers[1..], accept);
    }
  }

  /** `remove_column`: the raw answer, stripped; it is never a cancel. */
  method RemoveColumnFlat(tb: TableBuilder, answer: string) returns (out: Outcome)
    modifies tb
    ensures tb.name == old(tb.name)
    ensures Trim(answer) !in Names(old(tb.columns)) ==> out == Rejected(UnknownColumn) && unchanged(tb)
    ensures Trim(answer) in Names(old(tb.columns)) ==>
      && out == Done
      && tb.columns == Without(old(tb.columns), Trim(answer))
      && tb.rows == Drop(old(tb.rows), Trim(answer))
      && !tb.saved
    ensures old(tb.WellFormed()) ==> tb.WellFormed()
  {
    out := RemoveColumn(tb, Some(answer));
  }

  /** `remove_row`: `int()` of the raw answer with no `try`. */
  method RemoveRowFlat(tb: TableBuilder, answer: string) returns (out: Outcome)
    modifies tb
    ensures tb.name == old(tb.name) && tb.columns == old(tb.columns)
    ensures ParseInt(answer).None? ==> out == Crashed && unchanged(tb)
    ensures ParseInt(answer).Some? ==>
      var k := ParseInt(answer).value;
      if 1 <= k <= |old(tb.rows)| then
        out == Done && tb.rows == old(tb.rows)[..k - 1] + old(tb.rows)[k..] && !tb.saved
      else
        out == Rejected(InvalidChoice) && unchanged(tb)
    ensures old(tb.WellFormed()) ==> tb.WellFormed()
  {
    out := RemoveRow(tb, Some(answer));
  }

  /** `clear_table`: as in the modular revision. */
  method ClearTableFlat(tb: TableBuilder)
    modifies tb
    ensures tb.columns == [] && tb.rows == []
    ensures tb.name == old(tb.name) && tb.saved == old(tb.saved)
    ensures tb.WellFormed()
  {
    ClearTable(tb);
  }

  // ---------------------------------------------------------------------
  // save_to_database and load_from_database
  // ---------------------------------------------------------------------

  /** The clash handling of this revision: the auto-update getter (None: the
      settings object lacks it and the call raises inside the `try`), then
      the overwrite/new dialogue, which here reads the builder's own name and
      so is reached. */
  function FlatClash(autoUpdate: Option<bool>, action: string, newName: string): (c: Clash)
    ensures autoUpdate == Some(true) ==> c == Overwrite
    ensures autoUpdate.None? ==> c == Halt(Raised)
    ensures c.SaveAs? ==> autoUpdate == Some(false) && c.newName == Trim(newName) && c.newName != ""
  {
    match autoUpdate
    case None => Halt(Raised)
    case Some(on) => PromptClash(on, action, newName)
  }

  /** `save_to_database` of this revision, with the answers to the dialogue
      (asked only when the name is taken and auto-update is off). */
  method SaveToDatabaseFlat(tb: TableBuilder, connected: bool, store: Store, autoUpdate: Option<bool>,
                            action: string, newName: string)
    returns (out: Outcome, after: Store)
    modifies tb
    ensures var r := SavePlan(connected, old(tb.name), old(tb.columns), old(tb.rows), old(tb.saved), store,
                              FlatClash(autoUpdate, action, newName));
      out == r.outcome && after == r.store && tb.name == r.name && tb.saved == r.saved
    ensures tb.columns == old(tb.columns) && tb.rows == old(tb.rows)
  {
    out, after := SaveTable(tb, connected, store, FlatClash(autoUpdate, action, newName));
  }

  /** " Overwrite " and "overwrite" are the same answer to the dialogue. */
  lemma OverwriteAnswers(newName: string)
    ensures FlatClash(Some(false), " Overwrite ", newName) == Overwrite
    ensures PromptClash(false, "overwrite", newName) == Overwrite
  {
    assert Trim(" Overwrite ") == "Overwrite" by {
      assert TrimStart(" Overwrite ") == TrimStart("Overwrite ");
      assert TrimStart("Overwrite ") == "Overwrite ";
      assert TrimEnd("Overwrite ") == TrimEnd("Overwrite");
    }
    assert Lower("Overwrite") == "overwrite";
    assert Trim("overwrite") == "overwrite" by { TrimFacts("overwrite"); }
    assert Lower("overwrite") == "overwrite";
  }

  /** Answering "overwrite" (in any case, with blanks around) drops the old
      table and saves the current one under the same name. The modular
      revision fails on the same input. */
  lemma FlatOverwriteReplaces(name: string, cols: seq<Column>, rows: seq<Row>, saved: bool,
                              store: Store, newName: string)
    requires WellStored(store) && cols != [] && name in TableNames(store)
    requires forall i :: 0 <= i < |cols| ==> SqlTypeOf(cols[i].ctype).Some?
    requires SqlDistinctColumns(cols)
    requires RowsBind(cols, rows)
    ensures var r := SavePlan(true, name, cols, rows, saved, store, FlatClash(Some(false), " Overwrite ", newName));
      r.outcome == Done && r.saved && r.name == name
      && r.store == DropTable(store, name) + [StoredTable(name, SqlColumns(cols).value, StoredRows(cols, rows))]
    ensures SavePlan(true, name, cols, rows, saved, store, HandlerClash(Some(false))).outcome == Rejected(Raised)
  {
    OverwriteAnswers(newName);
    PromptOverwriteReplaces(name, cols, rows, saved, store, newName);
  }

  /** "new" adopts the new name without checking it: a name that is also
      taken makes the CREATE raise after the builder was already renamed,
      and the database is left as it was. */
  lemma FlatNewNameNotRechecked(name: string, cols: seq<Column>, rows: seq<Row>, saved: bool,
                                store: Store, newName: string)
    requires cols != [] && name in TableNames(store)
    requires forall i :: 0 <= i < |cols| ==> SqlTypeOf(cols[i].ctype).Some?
    requires Trim(newName) != "" && NameTaken(store, Trim(newName))
    ensures SavePlan(true, name, cols, rows, saved, store, FlatClash(Some(false), "new", newName))
      == SaveResult(Rejected(Raised), store, Trim(newName), saved)
  {
    assert Trim("new") == "new" by { TrimFacts("new"); }
    assert Lower("new") == "new";
  }

  /** Any other answer, or "new" with an empty name, aborts before anything
      is dropped or created. */
  lemma FlatAbortKeepsStore(name: string, cols: seq<Column>, rows: seq<Row>, saved: bool,
                            store: Store, action: string, newName: string)
    requires cols != [] && name in TableNames(store)
    requires Lower(Trim(action)) != "overwrite"
    requires Lower(Trim(action)) == "new" ==> Trim(newName) == ""
    ensures var r := SavePlan(true, name, cols, rows, saved, store, FlatClash(Some(false), action, newName));
      r.outcome.Rejected? && r.store == store && r.name == name && r.saved == saved
  {
  }

  /** `load_from_database` of this revision: the number is `int()` of the
      raw answer, so a cancel is just a non-number; everything else is as in
      the modular revision. */
  method LoadFromDatabaseFlat(tb: TableBuilder, connected: bool, store: Store, answer: string,
                              hasAutoprintGetter: bool) returns (out: Outcome)
    requires WellStored(store)
    modifies tb
    ensures match TableSelection(connected, store, Some(answer))
      case Stop(o) =>
        out == o && tb.name == old(tb.name) && tb.columns == old(tb.columns)
        && tb.rows == old(tb.rows) && tb.saved == old(tb.saved)
      case Go(k) =>
        tb.columns == LoadedColumns(store[k])
        && tb.rows == LoadedRows(LoadedColumns(store[k]), store[k].rows)
        && tb.name == store[k].name && tb.saved
        && out == (if hasAutoprintGetter then Done else Rejected(Raised))
  {
    out := LoadFromDatabase(tb, connected, store, Some(answer), hasAutoprintGetter);
  }

  // ---------------------------------------------------------------------
  // The loaders: no inference, no rename
  // ---------------------------------------------------------------------

  /** The autoprint lookup at the end of a load, inside the `try`: a
      settings object without the getter raises, reported after the table
      was already replaced. */
  function Autoprinted(hasAutoprintGetter: bool): (o: Outcome)
    ensures o == Done <==> hasAutoprintGetter
  {
    if hasAutoprintGetter then Done else Rejected(Raised)
  }

  /** `load_csv` of this revision: the zipped records replace the table,
      every column stays "str", the table keeps its name and is marked
      unsaved. */
  function CsvLoadFlat(s: Snapshot, path: string, prompt: Option<string>, files: Files, hasAutoprintGetter: bool)
    : (r: (Snapshot, Outcome))
  {
    match CsvSource(path, prompt, files)
    case Stop(o) => (s, o)
    case Go((_, recs)) => (Snapshot(s.name, CsvColumns(recs), CsvRows(recs), false), Autoprinted(hasAutoprintGetter))
  }

  /** What a load that got past the checks leaves: the header cells as
      "str" columns in order, the zipped rows, the old name, not saved;
      a refused file changes nothing. */
  lemma CsvLoadFlatFacts(s: Snapshot, path: string, prompt: Option<string>, files: Files, hasAutoprintGetter: bool)
    ensures var r := CsvLoadFlat(s, path, prompt, files, hasAutoprintGetter);
      match CsvSource(path, prompt, files)
      case Stop(o) => r == (s, o) && o != Done
      case Go((_, recs)) =>
        && Names(r.0.columns) == recs[0]
        && (forall j :: 0 <= j < |r.0.columns| ==> r.0.columns[j].ctype == "str")
        && r.0.rows == CsvRows(recs) && r.0.name == s.name && !r.0.saved
        && (r.1 == Done <==> hasAutoprintGetter)
  {
    match CsvSource(path, prompt, files)
    case Stop(_) =>
    case Go((_, recs)) => StrColumnsNames(recs[0]);
  }

  /** Unlike the modular loader, this one leaves a numeric column typed
      "str" and keeps the table's name. */
  lemma CsvLoadFlatSkipsInference(s: Snapshot, f: string, files: Files)
    requires f != "" && f in files && files[f] == Some([["n"], ["5"]])
    ensures CsvLoadFlat(s, f, None, files, true).0.columns == [Column("n", "str")]
    ensures CsvLoadFlat(s, f, None, files, true).0.name == s.name
    ensures LoadCsvResult(s, f, None, files).0.columns == [Column("n", "int")]
  {
    var recs: Records := [["n"], ["5"]];
    assert recs[1..] == [["5"]];
    var row := ZipRow(["n"], [S("5")]);
    assert TextCells(["5"]) == [S("5")];
    assert TextGrid(recs[1..]) == [[S("5")]];
    var cols := CsvColumns(recs);
    assert cols == [Column("n", "str")];
    assert ["n"][..1] == ["n"] && [S("5")][..1] == [S("5")];
    assert Assoc(["n"], [S("5")]) == Assoc([], [])["n" := S("5")] by {
      assert ["n"][..0] == [] && [S("5")][..0] == [];
    }
    assert row == map["n" := S("5")];
    assert CsvRows(recs) == [row];
    assert HasData(row) by { assert Truthy(row["n"]); }
    assert FirstDataIndex([row]) == Some(0);
    assert Trim("5") == "5" by { TrimFacts("5"); }
    assert InferDataType("5") == "int" by {
      assert IsDigits("5");
      assert !IsBoolWord("5");
    }
    assert InferredColumn(Column("n", "str"), row) == Some(Column("n", "int"));
    assert cols[0 := Column("n", "int")] == [Column("n", "int")];
    assert RelabelFrom(cols, row, 0) == RelabelFrom([Column("n", "int")], row, 1);
  }

  /** `load_csv`, statement by statement. */
  method LoadCsvFlat(tb: TableBuilder, path: string, prompt: Option<string>, files: Files, hasAutoprintGetter: bool)
    returns (out: Outcome)
    modifies tb
    ensures (tb.Snap(), out) == CsvLoadFlat(old(tb.Snap()), path, prompt, files, hasAutoprintGetter)
  {
    var p: string;
    if path != "" {
      p := path;
    } else if prompt.None? {
      return Crashed;
    } else {
      p := prompt.value;
    }
    if p !in files {
      return Rejected(FileNotFound);
    }
    var content := files[p];
    if content.None? {
      return Rejected(Unreadable);
    }
    var recs := content.value;
    if recs == [] {
      return Rejected(EmptySource);
    }
    tb.columns := StrColumns(recs[0]);
    tb.rows := ZippedRows(recs[0], TextGrid(recs[1..]));
    tb.saved := false;
    out := Autoprinted(hasAutoprintGetter);
  }

  /** The padding loaders of this revision: the first row as "str"
      columns, the later rows padded with "", the name and the saved flag
      untouched. */
  function PaddedLoad(s: Snapshot, g: Grid, hasAutoprintGetter: bool): (r: (Snapshot, Outcome))
    requires g != [] && TextHeader(g[0])
  {
    (Snapshot(s.name, PaddedColumns(g), PaddedBody(g), s.saved), Autoprinted(hasAutoprintGetter))
  }

  /** After a padding load every row has exactly the header names as keys,
      every column is "str", and only the columns and rows changed. */
  lemma PaddedLoadFacts(s: Snapshot, g: Grid, hasAutoprintGetter: bool)
    requires g != [] && TextHeader(g[0])
    ensures var r := PaddedLoad(s, g, hasAutoprintGetter).0;
      && KeysMatch(r.columns, r.rows) && Names(r.columns) == HeaderNames(g[0])
      && (forall j :: 0 <= j < |r.columns| ==> r.columns[j].ctype == "str")
      && |r.rows| == |g| - 1 && r.name == s.name && r.saved == s.saved
  {
    PaddedLoadKeysMatch(g);
  }

  /** `load_excel` of this revision. */
  function ExcelLoadFlat(s: Snapshot, path: string, prompt: Option<string>, books: Workbooks, hasAutoprintGetter: bool)
    : (r: (Snapshot, Outcome))
    requires ExcelHandler.TextHeaders(books)
  {
    match ExcelSource(path, prompt, books)
    case Stop(o) => (s, o)
    case Go((_, g)) => PaddedLoad(s, g, hasAutoprintGetter)
  }

  /** The path `load_ods` and `load_pdf` ask for: the stripped answer, with
      the empty path refused as one that does not exist. */
  function RawPath(answer: string): (p: Option<string>)
    ensures p.Some? <==> Trim(answer) != ""
    ensures p.Some? ==> p.value == Trim(answer)
  {
    if Trim(answer) == "" then None else Some(Trim(answer))
  }

  /** `load_ods` of this revision. */
  function OdsLoadFlat(s: Snapshot, answer: string, docs: OdsHandler.Documents, hasAutoprintGetter: bool)
    : (r: (Snapshot, Outcome))
    requires OdsHandler.TextHeaders(docs)
  {
    match RawPath(answer)
    case None => (s, Rejected(FileNotFound))
    case Some(p) =>
      match OdsSource(p, None, docs)
      case Stop(o) => (s, o)
      case Go((_, g)) => PaddedLoad(s, g, hasAutoprintGetter)
  }

  /** `load_pdf` of this revision. */
  function PdfLoadFlat(s: Snapshot, answer: string, docs: PdfHandler.Documents, hasAutoprintGetter: bool)
    : (r: (Snapshot, Outcome))
    requires PdfHandler.TextHeaders(docs)
  {
    match RawPath(answer)
    case None => (s, Rejected(FileNotFound))
    case Some(p) =>
      match PdfSource(p, None, docs)
      case Stop(o) => (s, o)
      case Go((_, g)) => PaddedLoad(s, g, hasAutoprintGetter)
  }

  /** A refused ODS file changes nothing; an accepted one replaces the
      table with its padded first sheet and keeps the name, where the
      modular loader renames the table after the file. */
  lemma OdsLoadFlatFacts(s: Snapshot, answer: string, docs: OdsHandler.Documents, hasAutoprintGetter: bool)
    requires OdsHandler.TextHeaders(docs)
    ensures var r := OdsLoadFlat(s, answer, docs, hasAutoprintGetter);
      && (r.1 != Done && r.1 != Rejected(Raised) ==> r.0 == s)
      && (Trim(answer) != "" && OdsSource(Trim(answer), None, docs).Go? ==>
            var g := OdsSource(Trim(answer), None, docs).value.1;
            && KeysMatch(r.0.columns, r.0.rows) && Names(r.0.columns) == HeaderNames(g[0])
            && r.0.rows == PaddedBody(g) && r.0.name == s.name
            && LoadOdsResult(s, Trim(answer), None, docs, false).0
                 == Snapshot(TableNameOf(Trim(answer)), r.0.columns, r.0.rows, s.saved))
  {
    if Trim(answer) != "" && OdsSource(Trim(answer), None, docs).Go? {
      var g := OdsSource(Trim(answer), None, docs).value.1;
      PaddedLoadFacts(s, g, hasAutoprintGetter);
    }
  }

  /** Saving with `save_ods` and loading the file back with `load_ods`
      gives the same rows under "str" columns of the same names, under the
      builder's unchanged name. */
  lemma OdsFlatRoundTrip(s: Snapshot, cols: seq<Column>, rows: seq<Row>, f: string, docs: OdsHandler.Documents)
    requires DistinctNames(cols) && KeysMatch(cols, rows) && rows != []
    requires f != "" && Trim(f) == f && f in docs && docs[f] == Some([Some(ExportGrid(cols, rows))])
    requires OdsHandler.TextHeaders(docs)
    ensures OdsLoadFlat(s, f, docs, true) == (Snapshot(s.name, StrColumns(Names(cols)), rows, s.saved), Done)
  {
    PaddedLoadOfExport(cols, rows);
  }

  /** `load_excel`, statement by statement. */
  method LoadExcelFlat(tb: TableBuilder, path: string, prompt: Option<string>, books: Workbooks, hasAutoprintGetter: bool)
    returns (out: Outcome)
    requires ExcelHandler.TextHeaders(books)
    modifies tb
    ensures (tb.Snap(), out) == ExcelLoadFlat(old(tb.Snap()), path, prompt, books, hasAutoprintGetter)
  {
    var p: string;
    if path != "" {
      p := path;
    } else if prompt.None? {
      return Cancelled;
    } else {
      p := prompt.value;
    }
    if p !in books {
      return Rejected(FileNotFound);
    }
    var book := books[p];
    if book.None? {
      return Rejected(Raised);
    }
    var g := book.value;
    if g == [] {
      return Rejected(EmptySource);
    }
    tb.columns := StrColumns(HeaderNames(g[0]));
    tb.rows := PaddedRows(HeaderNames(g[0]), g[1..]);
    out := Autoprinted(hasAutoprintGetter);
  }

  /** `load_ods`, statement by statement. */
  method LoadOdsFlat(tb: TableBuilder, answer: string, docs: OdsHandler.Documents, hasAutoprintGetter: bool)
    returns (out: Outcome)
    requires OdsHandler.TextHeaders(docs)
    modifies tb
    ensures (tb.Snap(), out) == OdsLoadFlat(old(tb.Snap()), answer, docs, hasAutoprintGetter)
  {
    var p := Trim(answer);
    if p == "" || p !in docs {
      return Rejected(FileNotFound);
    }
    var doc := docs[p];
    if doc.None? || doc.value == [] {
      return Rejected(Raised);
    }
    var sheet := doc.value[0];
    if sheet.None? || sheet.value == [] {
      return Rejected(EmptySource);
    }
    var g := sheet.value;
    tb.columns := StrColumns(HeaderNames(g[0]));
    tb.rows := PaddedRows(HeaderNames(g[0]), g[1..]);
    out := Autoprinted(hasAutoprintGetter);
  }

  /** `load_pdf`, statement by statement. */
  method LoadPdfFlat(tb: TableBuilder, answer: string, docs: PdfHandler.Documents, hasAutoprintGetter: bool)
    returns (out: Outcome)
    requires PdfHandler.TextHeaders(docs)
    modifies tb
    ensures (tb.Snap(), out) == PdfLoadFlat(old(tb.Snap()), answer, docs, hasAutoprintGetter)
  {
    var p := Trim(answer);
    if p == "" || p !in docs {
      return Rejected(FileNotFound);
    }
    var doc := docs[p];
    if doc.None? {
      return Rejected(Raised);
    }
    var g := ExtractRows(doc.value);
    if g == [] {
      return Rejected(NoData);
    }
    tb.columns := StrColumns(HeaderNames(g[0]));
    tb.rows := PaddedRows(HeaderNames(g[0]), g[1..]);
    out := Autoprinted(hasAutoprintGetter);
  }

  // ---------------------------------------------------------------------
  // The savers
  // ---------------------------------------------------------------------

  /** `save_to_csv`: the answer is lower-cased and stripped, a typed file
      name is used as typed, and the file is written as `save_csv` writes
      it, column records and all. */
  method SaveCsvFlat(tb: TableBuilder, answer: string, fileAnswer: string, writable: bool)
    returns (out: Outcome, file: Option<(string, Records)>)
    modifies tb
    ensures out != Crashed
    ensures tb.name == old(tb.name) && tb.columns == old(tb.columns) && tb.rows == old(tb.rows)
    ensures match SaveFileName(old(tb.name), Some(Trim(Lower(answer))), Some(fileAnswer), ".csv")
      case Stop(o) => out == o && file.None? && tb.saved == old(tb.saved)
      case Go(f) =>
        if !writable then out == Rejected(Raised) && file.None? && tb.saved == old(tb.saved)
        else
          var w := CsvWriteAsWritten(old(tb.columns), old(tb.rows));
          && file == Some((f, w.0))
          && (w.1 ==> out == Rejected(Raised) && tb.saved == old(tb.saved))
          && (!w.1 ==> out == Done && tb.saved)
  {
    out, file := SaveCsv(tb, Some(Trim(Lower(answer))), Some(fileAnswer), writable);
  }

  /** `save_pdf`: the answer is stripped and lower-cased, a typed file name
      is stripped. */
  method SavePdfFlat(tb: TableBuilder, answer: string, fileAnswer: string, buildable: bool)
    returns (out: Outcome, file: Option<(string, Grid)>)
    modifies tb
    ensures out != Crashed
    ensures tb.name == old(tb.name) && tb.columns == old(tb.columns) && tb.rows == old(tb.rows)
    ensures old(tb.columns) == [] || old(tb.rows) == [] ==>
      out == Rejected(NoData) && file.None? && tb.saved == old(tb.saved)
    ensures old(tb.columns) != [] && old(tb.rows) != [] ==>
      match SaveFileName(old(tb.name), Some(Trim(answer)), Some(Trim(fileAnswer)), ".pdf")
      case Stop(o) => out == o && file.None? && tb.saved == old(tb.saved)
      case Go(f) =>
        if buildable then out == Done && tb.saved && file == Some((f, ExportGrid(tb.columns, tb.rows)))
        else out == Rejected(Raised) && file.None? && tb.saved == old(tb.saved)
  {
    out, file := SavePdf(tb, Some(Trim(answer)), Some(Trim(fileAnswer)), buildable);
  }

  /** `save_excel`: the answer comes from the cancelling prompt (a cancel
      reaches `.lower()` on None and raises out of the command), a typed
      file name is stripped; the builder is not changed. */
  method SaveExcelFlat(tb: TableBuilder, answer: Option<string>, fileAnswer: string, writable: bool)
    returns (out: Outcome, file: Option<(string, Grid)>)
    ensures tb.columns == [] || tb.rows == [] ==> out == Rejected(NoData) && file.None?
    ensures tb.columns != [] && tb.rows != [] ==>
      match SaveFileName(tb.name, answer, Some(Trim(fileAnswer)), ".xlsx")
      case Stop(o) => out == o && file.None?
      case Go(f) =>
        if writable then out == Done && file == Some((f, ExportGrid(tb.columns, tb.rows)))
        else out == Rejected(Raised) && file.None?
  {
    out, file := SaveExcel(tb, answer, Some(Trim(fileAnswer)), writable);
  }

  /** `save_ods` of this revision asks no y/n question: the file is the
      stripped answer plus ".ods", holding the column names and each row
      projected onto them. The builder is not changed. */
  method SaveOdsFlat(tb: TableBuilder, fileAnswer: string, writable: bool)
    returns (out: Outcome, file: Option<(string, Grid)>)
    ensures tb.columns == [] || tb.rows == [] ==> out == Rejected(NoData) && file.None?
    ensures tb.columns != [] && tb.rows != [] && writable ==>
      out == Done && file == Some((Trim(fileAnswer) + ".ods", ExportGrid(tb.columns, tb.rows)))
    ensures tb.columns != [] && tb.rows != [] && !writable ==> out == Rejected(Raised) && file.None?
  {
    if tb.columns == [] || tb.rows == [] {
      return Rejected(NoData), None;
    }
    var data := AppendRows(tb.columns, tb.rows);
    if !writable {
      return Rejected(Raised), None;
    }
    return Done, Some((Trim(fileAnswer) + ".ods", data));
  }

  // ---------------------------------------------------------------------
  // load_batch_csv
  // ---------------------------------------------------------------------

  /** The answers one file of the batch may ask for: the rename prompt,
      then the dialogue of the save. */
  datatype FileAnswers = FileAnswers(rename: string, action: string, newName: string)

  /** The name a batch file is saved under in this revision. A name that
      was a table when the batch started prompts: any typed reply keeps the
      base name, and an empty reply calls `next_table_number` on the
      database object, which has no such method: the file is skipped (None). */
  function BatchNameFlat(base: string, existing: seq<string>, reply: string): (r: Option<string>)
    ensures r.Some? ==> r.value == base
    ensures r.None? <==> base in existing && Trim(reply) == ""
  {
    if base !in existing then Some(base)
    else if Trim(reply) == "" then None
    else Some(base)
  }

  /** One file of the batch: load it with this revision's loader, then
      rename and save with this revision's save. */
  function BatchFileFlat(s: Snapshot, store: Store, file: string, answers: FileAnswers, files: Files,
                         existing: seq<string>, autoUpdate: Option<bool>, hasAutoprintGetter: bool)
    : (r: (Snapshot, Store))
  {
    var loaded := CsvLoadFlat(s, file, None, files, hasAutoprintGetter);
    if loaded.1 == Crashed then (loaded.0, store)
    else
      match BatchNameFlat(TableNameOf(file), existing, answers.rename)
      case None => (loaded.0, store)
      case Some(n) =>
        var t := loaded.0;
        var r := SavePlan(true, n, t.columns, t.rows, t.saved, store, FlatClash(autoUpdate, answers.action, answers.newName));
        (Snapshot(r.name, t.columns, t.rows, r.saved), r.store)
  }

  /** The batch loop from file `k` on. */
  function BatchRunFlat(fs: seq<string>, k: nat, s: Snapshot, store: Store, answers: nat -> FileAnswers,
                        files: Files, existing: seq<string>, autoUpdate: Option<bool>, hasAutoprintGetter: bool)
    : (Snapshot, Store)
    decreases |fs|
  {
    if fs == [] then (s, store)
    else
      var next := BatchFileFlat(s, store, fs[0], answers(k), files, existing, autoUpdate, hasAutoprintGetter);
      BatchRunFlat(fs[1..], k + 1, next.0, next.1, answers, files, existing, autoUpdate, hasAutoprintGetter)
  }

  /** A file named after a table that already existed, answered with an
      empty reply, is loaded but neither renamed nor saved; the modular
      revision would save it as "Table n+1". */
  lemma EmptyReplySkipsFile(s: Snapshot, store: Store, file: string, answers: FileAnswers, files: Files,
                            existing: seq<string>, autoUpdate: Option<bool>)
    requires file != "" && TableNameOf(file) in existing && Trim(answers.rename) == ""
    ensures var r := BatchFileFlat(s, store, file, answers, files, existing, autoUpdate, true);
      r == (CsvLoadFlat(s, file, None, files, true).0, store)
      && r.0.name == s.name
    ensures BatchName(TableNameOf(file), existing, Some(""), |store|).Some?
  {
    CsvLoadFlatFacts(s, file, None, files, true);
  }

  /** A batch file that loads and whose name is settled goes through this
      revision's save with the loaded columns and rows, not yet saved. */
  lemma BatchFileFlatSaves(s: Snapshot, store: Store, file: string, answers: FileAnswers, files: Files,
                           existing: seq<string>, autoUpdate: Option<bool>, recs: Records, n: string)
    requires file != "" && file in files && files[file] == Some(recs) && recs != []
    requires BatchNameFlat(TableNameOf(file), existing, answers.rename) == Some(n)
    ensures var r := SavePlan(true, n, CsvColumns(recs), CsvRows(recs), false, store,
                              FlatClash(autoUpdate, answers.action, answers.newName));
      BatchFileFlat(s, store, file, answers, files, existing, autoUpdate, true)
        == (Snapshot(r.name, CsvColumns(recs), CsvRows(recs), r.saved), r.store)
  {
    assert CsvSource(file, None, files) == Go((file, recs));
  }

  /** A typed reply keeps the base name, so the save meets the taken name
      and asks the dialogue: "new" with a fresh name saves there and keeps
      the old table. */
  lemma TypedReplyAsksDialogue(s: Snapshot, store: Store, file: string, reply: string, newName: string, files: Files)
    requires file != "" && file in files && files[file].Some? && files[file].value != [] && files[file].value[0] != []
    requires TableNameOf(file) in TableNames(store) && Trim(reply) != ""
    requires newName != "" && Trim(newName) == newName && !NameTaken(store, newName)
    requires SqlDistinctColumns(CsvColumns(files[file].value))
    ensures var r := BatchFileFlat(s, store, file, FileAnswers(reply, "new", newName), files, TableNames(store),
                                   Some(false), true);
      r.0.name == newName && r.0.saved && r.1[..|store|] == store && |r.1| == |store| + 1
  {
    var recs := files[file].value;
    var cols := CsvColumns(recs);
    var n := TableNameOf(file);
    assert BatchNameFlat(n, TableNames(store), reply) == Some(n);
    NewAnswerSavesAs(newName);
    BatchFileFlatSaves(s, store, file, FileAnswers(reply, "new", newName), files, TableNames(store), Some(false), recs, n);
    forall i | 0 <= i < |cols| ensures SqlTypeOf(cols[i].ctype).Some? {
      assert cols[i].ctype == "str";
    }
    CsvRowsAreText(recs);
    TextRowsBind(cols, CsvRows(recs));
    SaveAsFreshKeepsOld(n, cols, CsvRows(recs), false, store, newName);
  }

  /** `load_batch_csv` of this revision: the same checks (the recursion
      answer is raw, stripped and lower-cased), then each file in turn, and
      the table marked saved at the end whatever happened to the files. */
  method LoadBatchCsvFlat(tb: TableBuilder, directory: Option<string>, connected: bool, isDirectory: bool,
                          recursive: string, walked: Option<seq<string>>, listed: Option<seq<string>>,
                          files: Files, store: Store, answers: nat -> FileAnswers, autoUpdate: Option<bool>,
                          hasAutoprintGetter: bool)
    returns (out: Outcome, after: Store)
    modifies tb
    ensures match BatchFiles(directory, connected, isDirectory, Some(Trim(recursive)), walked, listed)
      case Stop(o) => out == o && after == store && unchanged(tb)
      case Go(fs) =>
        var r := BatchRunFlat(fs, 0, old(tb.Snap()), store, answers, files, TableNames(store), autoUpdate, hasAutoprintGetter);
        && out == Done && after == r.1
        && tb.name == r.0.name && tb.columns == r.0.columns && tb.rows == r.0.rows && tb.saved
  {
    var plan := BatchFiles(directory, connected, isDirectory, Some(Trim(recursive)), walked, listed);
    if plan.Stop? {
      return plan.outcome, store;
    }
    var fs := plan.value;
    var existing := GetTables(connected, store);
    after := store;
    ghost var s0 := tb.Snap();
    var i := 0;
    while i < |fs|
      invariant 0 <= i <= |fs|
      invariant BatchRunFlat(fs[i..], i, tb.Snap(), after, answers, files, existing, autoUpdate, hasAutoprintGetter)
        == BatchRunFlat(fs, 0, s0, store, answers, files, existing, autoUpdate, hasAutoprintGetter)
    {
      assert fs[i..][0] == fs[i] && fs[i..][1..] == fs[i + 1..];
      var file := fs[i];
      var loaded := LoadCsvFlat(tb, file, None, files, hasAutoprintGetter);
      if loaded != Crashed {
        var name := BatchNameFlat(TableNameOf(file), existing, answers(i).rename);
        if name.Some? {
          tb.name := name.value;
          var saveOut;
          saveOut, after := SaveToDatabaseFlat(tb, true, after, autoUpdate, answers(i).action, answers(i).newName);
        }
      }
      i := i + 1;
    }
    tb.saved := true;
    out := Done;
  }
}
