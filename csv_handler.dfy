/** `CSVHandler`: loading a CSV file into the builder, saving the builder to
    one, and loading every CSV file of a directory into the database. The
    csv module's tokenising and quoting are not modelled: a file is the list
    of records it reads as, or the records written to it. */
module CsvHandler {
  import opened Values
  import opened TableState
  import opened TableUtils
  import opened Sheets
  import opened SqlStore
  import opened DatabaseHandler
  import opened Paths

  type Records = seq<seq<string>>

  /** What the loader finds at a path: nothing (not a file), a file it cannot
      read (None: not UTF-8, or any other read error), or its records. */
  type Files = map<string, Option<Records>>

  function TextCells(rec: seq<string>): (cells: seq<Cell>)
    ensures |cells| == |rec|
    ensures forall i :: 0 <= i < |rec| ==> cells[i] == S(rec[i])
  {
    seq(|rec|, i requires 0 <= i < |rec| => S(rec[i]))
  }

  function TextGrid(recs: Records): (g: Grid)
    ensures |g| == |recs|
    ensures forall i :: 0 <= i < |recs| ==> g[i] == TextCells(recs[i])
  {
    seq(|recs|, i requires 0 <= i < |recs| => TextCells(recs[i]))
  }

  // ---------------------------------------------------------------------
  // load_csv
  // ---------------------------------------------------------------------

  /** The checks of `load_csv` before anything changes. The path is the one
      given when non-empty, otherwise the answer to the prompt (a cancelled
      prompt reaches `.strip()` on None and raises out of the command); the
      file must exist, be readable and hold at least the header record. */
  function CsvSource(path: string, prompt: Option<string>, files: Files): (r: Step<(string, Records)>)
    ensures r.Go? ==> r.value.1 != [] && r.value.0 in files && files[r.value.0] == Some(r.value.1)
    ensures r.Go? && path != "" ==> r.value.0 == path
    ensures r.Go? && path == "" ==> prompt.Some? && r.value.0 == prompt.value
    ensures r.Stop? ==> r.outcome != Done
  {
    if path == "" && prompt.None? then Stop(Crashed)
    else
      var p := if path != "" then path else prompt.value;
      if p !in files then Stop(Rejected(FileNotFound))
      else
        match files[p]
        case None => Stop(Rejected(Unreadable))
        case Some(recs) => if recs == [] then Stop(Rejected(EmptySource)) else Go((p, recs))
  }

  /** The header cells in order, each a "str" column. */
  function CsvColumns(recs: Records): seq<Column>
    requires recs != []
  {
    StrColumns(recs[0])
  }

  /** Every later record zipped against the header. */
  function CsvRows(recs: Records): (rows: seq<Row>)
    requires recs != []
    ensures |rows| == |recs| - 1
  {
    ZippedRows(recs[0], TextGrid(recs[1..]))
  }

  /** `load_csv` on the builder: the table is replaced by the file's,
      inference runs whatever the setting says, and the table is renamed
      after the file and marked unsaved. Had inference raised, the except
      would report it with the new table already installed. */
  function LoadCsvResult(s: Snapshot, path: string, prompt: Option<string>, files: Files): (r: (Snapshot, Outcome))
  {
    match CsvSource(path, prompt, files)
    case Stop(o) => (s, o)
    case Go((p, recs)) =>
      var rows := CsvRows(recs);
      var inferred := Inference(CsvColumns(recs), rows);
      if inferred.1 then (Snapshot(TableNameOf(p), inferred.0, rows, false), Done)
      else (Snapshot(s.name, inferred.0, rows, s.saved), Rejected(Raised))
  }

  /** The CSV reader yields text only, so every loaded row is text. */
  lemma CsvRowsAreText(recs: Records)
    requires recs != []
    ensures forall i :: 0 <= i < |CsvRows(recs)| ==> TextRow(CsvRows(recs)[i])
  {
    var rows := CsvRows(recs);
    forall i | 0 <= i < |rows| ensures TextRow(rows[i]) {
      ZipRowOfText(recs[0], TextGrid(recs[1..])[i]);
    }
  }

  /** Text always binds, so rows read from a CSV file never make an INSERT
      overflow. */
  lemma TextRowsBind(cols: seq<Column>, rows: seq<Row>)
    requires forall i :: 0 <= i < |rows| ==> TextRow(rows[i])
    ensures RowsBind(cols, rows)
  {
    forall i, j | 0 <= i < |rows| && 0 <= j < |cols| ensures Bindable(StoredRow(cols, rows[i])[j]) {
      var name := cols[j].name;
      if name in rows[i] {
        assert rows[i][name].S?;
      }
    }
  }

  /** A readable non-empty file always loads: inference cannot raise on
      text, the columns are the header cells in order, the rows are the
      zipped records, and the table is named after the file and unsaved. */
  lemma LoadCsvSucceeds(s: Snapshot, path: string, prompt: Option<string>, files: Files)
    requires CsvSource(path, prompt, files).Go?
    ensures var (p, recs) := CsvSource(path, prompt, files).value;
      var r := LoadCsvResult(s, path, prompt, files);
      && r.1 == Done
      && Names(r.0.columns) == recs[0]
      && r.0.rows == CsvRows(recs)
      && r.0.name == TableNameOf(p) && !r.0.saved
  {
    var recs := CsvSource(path, prompt, files).value.1;
    CsvRowsAreText(recs);
    TextRowsInferCleanly(CsvColumns(recs), CsvRows(recs));
    StrColumnsNames(recs[0]);
  }

  /** The loaded table keeps "every row has exactly the column keys" when no
      data record is shorter than the header. */
  lemma CsvLoadKeysMatch(recs: Records)
    requires recs != []
    requires forall i :: 1 <= i < |recs| ==> |recs[0]| <= |recs[i]|
    ensures KeysMatch(Inference(CsvColumns(recs), CsvRows(recs)).0, CsvRows(recs))
  {
    ZippedRowsKeysMatch(recs[0], TextGrid(recs[1..]));
    InferenceKeepsKeysMatch(CsvColumns(recs), CsvRows(recs));
  }

  /** A file missing, unreadable or empty changes nothing. */
  lemma RefusedFileChangesNothing(s: Snapshot, path: string, prompt: Option<string>, files: Files)
    requires path != ""
    requires path !in files || files[path] == None || files[path] == Some([])
    ensures LoadCsvResult(s, path, prompt, files).0 == s
    ensures LoadCsvResult(s, path, prompt, files).1.Rejected?
  {
  }

  /** `load_csv`, statement by statement. */
  method LoadCsv(tb: TableBuilder, path: string, prompt: Option<string>, files: Files) returns (out: Outcome)
    modifies tb
    ensures (tb.Snap(), out) == LoadCsvResult(old(tb.Snap()), path, prompt, files)
  {
    var p: string;
    if path != "" {
      p := path;
    } else if prompt.None? {
      return Crashed;
    } else {
      p := prompt.value;
    }
    if p !in files {
      return Rejected(FileNotFound);
    }
    var content := files[p];
    if content.None? {
      return Rejected(Unreadable);
    }
    var recs := content.value;
    if recs == [] {
      return Rejected(EmptySource);
    }
    tb.columns := StrColumns(recs[0]);
    tb.rows := ZippedRows(recs[0], TextGrid(recs[1..]));
    var ok := InferColumnTypes(tb);
    if !ok {
      return Rejected(Raised);
    }
    tb.name := TableNameOf(p);
    tb.saved := false;
    out := Done;
  }

  // ---------------------------------------------------------------------
  // save_csv
  // ---------------------------------------------------------------------

  /** `str(column)` for a column record, as the csv writer renders a dict
      cell. */
  function RecordText(c: Column): string
  {
    "{'name': '" + c.name + "', 'type': '" + c.ctype + "'}"
  }

  /** The header line as written: one record text per column. */
  function RecordHeader(cols: seq<Column>): (h: seq<string>)
    ensures |h| == |cols|
  {
    seq(|cols|, j requires 0 <= j < |cols| => RecordText(cols[j]))
  }

  /** What `save_csv` as written leaves in the file, and whether it raised.
      A header line is written only when there are columns, and it holds the
      column records. Each data row looks those records up in a row dict,
      which raises (a dict is not hashable) on the first row when there are
      columns; with no columns each row is an empty line. */
  function CsvWriteAsWritten(cols: seq<Column>, rows: seq<Row>): (r: (Records, bool))
  {
    var header := if cols == [] then [] else [RecordHeader(cols)];
    if cols != [] && rows != [] then (header, true)
    else (header + seq(|rows|, _ => []), false)
  }

  /** A field as the csv writer renders it: None as the empty field,
      anything else as `str(value)`. */
  function CsvField(c: Cell, floatRepr: real -> string): string
  {
    if c == Null then "" else PyStr(c, floatRepr)
  }

  /** One data line as intended: each column's value looked up by name,
      "" when the row lacks it. */
  function CsvRecord(cols: seq<Column>, row: Row, floatRepr: real -> string): (rec: seq<string>)
    ensures |rec| == |cols|
  {
    seq(|cols|, j requires 0 <= j < |cols| => CsvField(Get(row, cols[j].name, S("")), floatRepr))
  }

  /** The file as intended: the column names (when there are columns), then
      one line per row. */
  function CsvRecords(cols: seq<Column>, rows: seq<Row>, floatRepr: real -> string): (recs: Records)
    ensures |recs| == (if cols == [] then 0 else 1) + |rows|
  {
    (if cols == [] then [] else [Names(cols)])
      + seq(|rows|, i requires 0 <= i < |rows| => CsvRecord(cols, rows[i], floatRepr))
  }

  /** As written: with at least one column and one row the save always
      raises after writing only the header, the header holds no column's
      name, and so the file never loads back as the table. */
  lemma RecordsRaiseOnFirstRow(cols: seq<Column>, rows: seq<Row>)
    requires cols != [] && rows != []
    ensures CsvWriteAsWritten(cols, rows) == ([RecordHeader(cols)], true)
    ensures forall j :: 0 <= j < |cols| ==> RecordHeader(cols)[j] != cols[j].name
  {
    forall j | 0 <= j < |cols| ensures RecordHeader(cols)[j] != cols[j].name {
      assert |RecordText(cols[j])| > |cols[j].name|;
    }
  }

  /** One intended data line of a text row, read back as text under the
      column names, is the row it came from. */
  lemma CsvRecordLoadsBack(cols: seq<Column>, row: Row, floatRepr: real -> string)
    requires DistinctNames(cols) && row.Keys == NameSet(cols) && TextRow(row)
    ensures ZipRow(Names(cols), TextCells(CsvRecord(cols, row, floatRepr))) == row
  {
    var names := Names(cols);
    var cells := TextCells(CsvRecord(cols, row, floatRepr));
    forall j | 0 <= j < |cols| ensures cells[j] == ExportRow(cols, row)[j] {
      assert cols[j].name in NameSet(cols);
      assert row[cols[j].name].S?;
    }
    assert cells == ExportRow(cols, row);
    assert names[..Min(|names|, |cells|)] == names && cells[..Min(|names|, |cells|)] == cells;
    AssocOfProjection(cols, row);
  }

  /** As intended: a text table with distinct names, whose rows have exactly
      the column keys, saves to a file whose header is the column names and
      which loads back as the same rows. */
  lemma CsvRecordsLoadBack(cols: seq<Column>, rows: seq<Row>, floatRepr: real -> string)
    requires cols != [] && DistinctNames(cols) && KeysMatch(cols, rows)
    requires forall i :: 0 <= i < |rows| ==> TextRow(rows[i])
    ensures var recs := CsvRecords(cols, rows, floatRepr);
      recs != [] && recs[0] == Names(cols) && CsvRows(recs) == rows
  {
    var recs := CsvRecords(cols, rows, floatRepr);
    forall i | 0 <= i < |rows| ensures CsvRows(recs)[i] == rows[i] {
      assert recs[1..][i] == CsvRecord(cols, rows[i], floatRepr);
      CsvRecordLoadsBack(cols, rows[i], floatRepr);
    }
  }

  /** `save_csv` as written. `writable` says whether the file can be opened
      for writing; `file` is what ends up on disk. The saved flag is set only
      when the whole write went through. */
  method SaveCsv(tb: TableBuilder, answer: Option<string>, fileAnswer: Option<string>, writable: bool)
    returns (out: Outcome, file: Option<(string, Records)>)
    modifies tb
    ensures tb.name == old(tb.name) && tb.columns == old(tb.columns) && tb.rows == old(tb.rows)
    ensures match SaveFileName(old(tb.name), answer, fileAnswer, ".csv")
      case Stop(o) => out == o && file.None? && tb.saved == old(tb.saved)
      case Go(f) =>
        if !writable then out == Rejected(Raised) && file.None? && tb.saved == old(tb.saved)
        else
          var w := CsvWriteAsWritten(old(tb.columns), old(tb.rows));
          && file == Some((f, w.0))
          && (w.1 ==> out == Rejected(Raised) && tb.saved == old(tb.saved))
          && (!w.1 ==> out == Done && tb.saved)
  {
    file := None;
    var name := SaveFileName(tb.name, answer, fileAnswer, ".csv");
    if name.Stop? {
      return name.outcome, None;
    }
    if !writable {
      return Rejected(Raised), None;
    }
    var written: Records := if tb.columns == [] then [] else [RecordHeader(tb.columns)];
    ghost var header := written;
    var i := 0;
    while i < |tb.rows|
      invariant 0 <= i <= |tb.rows|
      invariant tb.columns != [] ==> i == 0
      invariant written == header + seq(i, _ => [])
    {
      if tb.columns != [] {
        return Rejected(Raised), Some((name.value, written));
      }
      written := written + [[]];
      i := i + 1;
    }
    tb.saved := true;
    return Done, Some((name.value, written));
  }

  /** `save_csv` as evidently intended: names in the header and names as
      the lookup keys. The whole file is written and the table marked saved. */
  method SaveCsvCorrected(tb: TableBuilder, answer: Option<string>, fileAnswer: Option<string>, writable: bool,
                          floatRepr: real -> string)
    returns (out: Outcome, file: Option<(string, Records)>)
    modifies tb
    ensures tb.name == old(tb.name) && tb.columns == old(tb.columns) && tb.rows == old(tb.rows)
    ensures match SaveFileName(old(tb.name), answer, fileAnswer, ".csv")
      case Stop(o) => out == o && file.None? && tb.saved == old(tb.saved)
      case Go(f) =>
        if !writable then out == Rejected(Raised) && file.None? && tb.saved == old(tb.saved)
        else out == Done && tb.saved && file == Some((f, CsvRecords(old(tb.columns), old(tb.rows), floatRepr)))
  {
    var name := SaveFileName(tb.name, answer, fileAnswer, ".csv");
    if name.Stop? {
      return name.outcome, None;
    }
    if !writable {
      return Rejected(Raised), None;
    }
    var cols, rows := tb.columns, tb.rows;
    var written: Records := if cols == [] then [] else [Names(cols)];
    ghost var header := written;
    var i := 0;
    while i < |rows|
      invariant 0 <= i <= |rows|
      invariant |written| == |header| + i && written[..|header|] == header
      invariant forall k :: 0 <= k < i ==> written[|header| + k] == CsvRecord(cols, rows[k], floatRepr)
    {
      written := written + [CsvRecord(cols, rows[i], floatRepr)];
      i := i + 1;
    }
    assert written == CsvRecords(cols, rows, floatRepr);
    tb.saved := true;
    return Done, Some((name.value, written));
  }

  // ---------------------------------------------------------------------
  // load_batch_csv
  // ---------------------------------------------------------------------

  /** The entries ending in ".csv", in listing order. */
  function CsvOnly(entries: seq<string>): (r: seq<string>)
    ensures forall f :: f in r <==> f in entries && EndsWith(f, ".csv")
  {
    if entries == [] then []
    else (if EndsWith(entries[0], ".csv") then [entries[0]] else []) + CsvOnly(entries[1..])
  }

  /** The checks and the file collection before the batch loop. The
      directory prompt and the recursion prompt are stripped and so raise
      when cancelled. A walk yields full paths, a listing bare names joined
      onto the directory; None is a listing that raised. */
  function BatchFiles(directory: Option<string>, connected: bool, isDirectory: bool,
                      recursive: Option<string>, walked: Option<seq<string>>, listed: Option<seq<string>>)
    : (r: Step<seq<string>>)
    ensures r.Go? ==> r.value != [] && connected && isDirectory
  {
    if directory.None? then Stop(Crashed)
    else if !connected then Stop(Rejected(NotConnected))
    else if !isDirectory then Stop(Rejected(FileNotFound))
    else if recursive.None? then Stop(Crashed)
    else
      var a := Lower(recursive.value);
      var found :=
        if a == "y" then
          (if walked.None? then None else Some(CsvOnly(walked.value)))
        else if a == "n" then
          (if listed.None? then None
           else
             var names := CsvOnly(listed.value);
             Some(seq(|names|, i requires 0 <= i < |names| => JoinPath(directory.value, names[i]))))
        else None;
      if a != "y" && a != "n" then Stop(Rejected(InvalidChoice))
      else if found.None? then Stop(Rejected(Raised))
      else if found.value == [] then Stop(Rejected(NoData))
      else Go(found.value)
  }

  /** The table name a batch file is saved under. A name that was a table
      when the batch started prompts: an empty reply takes "Table n+1" with
      n the number of tables at that moment, any typed reply is ignored, and
      a cancelled reply raises (caught for that file: None). */
  function BatchName(base: string, existing: seq<string>, reply: Option<string>, tableCount: nat): (r: Option<string>)
    ensures base !in existing ==> r == Some(base)
    ensures base in existing && reply.Some? && reply.value != "" ==> r == Some(base)
    ensures r.None? <==> base in existing && reply.None?
    ensures base in existing && reply == Some("") ==> r == Some("Table " + IntToString(tableCount + 1))
    ensures base in existing && reply == Some("") ==>
      r.Some? && r.value[..6] == "Table " && ParseInt(r.value[6..]) == Some(tableCount + 1)
  {
    if base !in existing then Some(base)
    else if reply.None? then None
    else if reply.value == "" then
      IntTextRoundTrip(tableCount + 1);
      Some("Table " + IntToString(tableCount + 1))
    else Some(base)
  }

  /** One file of the batch: load it (a failed load leaves the previous
      table in place), rename the table, and save it with the handler's own
      save. */
  function BatchFile(s: Snapshot, store: Store, file: string, reply: Option<string>, files: Files,
                     existing: seq<string>, autoUpdate: Option<bool>): (r: (Snapshot, Store))
  {
    var loaded := LoadCsvResult(s, file, None, files);
    if loaded.1 == Crashed then (loaded.0, store)
    else
      match BatchName(TableNameOf(file), existing, reply, |store|)
      case None => (loaded.0, store)
      case Some(n) =>
        var t := loaded.0;
        var r := SavePlan(true, n, t.columns, t.rows, t.saved, store, HandlerClash(autoUpdate));
        (Snapshot(r.name, t.columns, t.rows, r.saved), r.store)
  }

  /** The batch loop from file `k` on. */
  function BatchRun(fs: seq<string>, k: nat, s: Snapshot, store: Store, replies: nat -> Option<string>,
                    files: Files, existing: seq<string>, autoUpdate: Option<bool>): (Snapshot, Store)
    decreases |fs|
  {
    if fs == [] then (s, store)
    else
      var next := BatchFile(s, store, fs[0], replies(k), files, existing, autoUpdate);
      BatchRun(fs[1..], k + 1, next.0, next.1, replies, files, existing, autoUpdate)
  }

  /** The fallback name is not checked against the database: with tables
      "t" and "Table 2" a second "t" falls back to "Table 2", which is taken. */
  lemma FallbackNameMayBeTaken()
    ensures BatchName("t", ["t", "Table 2"], Some(""), 1) == Some("Table 2")
    ensures "Table 2" in ["t", "Table 2"]
  {
    assert DigitChar(2) == '2';
    assert NatToString(2) == "2";
    assert IntToString(1 + 1) == "2";
    assert "Table " + "2" == "Table 2";
    var existing: seq<string> := ["t", "Table 2"];
    assert existing[0] == "t";
  }

  /** A file whose load failed still renames and saves the table that was
      already in the builder. */
  lemma FailedLoadSavesPreviousTable(s: Snapshot, store: Store, file: string, reply: Option<string>, files: Files,
                                     existing: seq<string>, autoUpdate: Option<bool>)
    requires file != "" && file !in files
    requires TableNameOf(file) !in existing && s.columns != []
    requires !NameTaken(store, TableNameOf(file)) && SqlColumns(s.columns).Some?
    requires SqlDistinctColumns(s.columns)
    requires RowsBind(s.columns, s.rows)
    ensures var r := BatchFile(s, store, file, reply, files, existing, autoUpdate);
      r.0.columns == s.columns && r.0.rows == s.rows && r.0.name == TableNameOf(file)
      && r.1 == store + [StoredTable(TableNameOf(file), SqlColumns(s.columns).value, StoredRows(s.columns, s.rows))]
  {
  }

  /** `load_batch_csv`: after the checks, each file in turn is loaded,
      renamed and saved, and at the end the table is marked saved whatever
      happened to the files. `replies(k)` answers the name prompt of file k;
      the names already taken are read once, before the loop. */
  method LoadBatchCsv(tb: TableBuilder, directory: Option<string>, connected: bool, isDirectory: bool,
                      recursive: Option<string>, walked: Option<seq<string>>, listed: Option<seq<string>>,
                      files: Files, store: Store, replies: nat -> Option<string>, autoUpdate: Option<bool>)
    returns (out: Outcome, after: Store)
    modifies tb
    ensures match BatchFiles(directory, connected, isDirectory, recursive, walked, listed)
      case Stop(o) => out == o && after == store && unchanged(tb)
      case Go(fs) =>
        var r := BatchRun(fs, 0, old(tb.Snap()), store, replies, files, TableNames(store), autoUpdate);
        && out == Done && after == r.1
        && tb.name == r.0.name && tb.columns == r.0.columns && tb.rows == r.0.rows && tb.saved
  {
    var plan := BatchFiles(directory, connected, isDirectory, recursive, walked, listed);
    if plan.Stop? {
      return plan.outcome, store;
    }
    var fs := plan.value;
    var existing := GetTables(connected, store);
    after := store;
    ghost var s0 := tb.Snap();
    var i := 0;
    while i < |fs|
      invariant 0 <= i <= |fs|
      invariant BatchRun(fs[i..], i, tb.Snap(), after, replies, files, existing, autoUpdate)
        == BatchRun(fs, 0, s0, store, replies, files, existing, autoUpdate)
    {
      assert fs[i..][0] == fs[i] && fs[i..][1..] == fs[i + 1..];
      var file := fs[i];
      var loaded := LoadCsv(tb, file, None, files);
      if loaded != Crashed {
        var name := BatchName(TableNameOf(file), existing, replies(i), |GetTables(connected, after)|);
        if name.Some? {
          tb.name := name.value;
          var saveOut;
          saveOut, after := SaveToDatabase(tb, true, after, autoUpdate);
        }
      }
      i := i + 1;
    }
    tb.saved := true;
    out := Done;
  }
}
