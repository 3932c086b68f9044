/** Saving the table into the connected SQLite database and loading one
    back: the two type maps, the decision machine `save_to_database` runs
    when the table name is already taken, the per-row inserts, and the
    positional rebuild of rows on load. The connection is given as a flag and
    the database contents as a `Store`; the methods return the new store. */
module DatabaseHandler {
  import opened Values
  import opened TableState
  import opened Sheets
  import opened SqlStore

  // ---------------------------------------------------------------------
  // Type maps
  // ---------------------------------------------------------------------

  /** The save map, on the upper-cased program type: str, int, float and
      bool become TEXT, INTEGER, REAL and BOOLEAN; anything else is refused. */
  function SqlTypeOf(ctype: string): (r: Option<string>)
  {
    var u := Upper(ctype);
    if u == "STR" then Some("TEXT")
    else if u == "INT" then Some("INTEGER")
    else if u == "FLOAT" then Some("REAL")
    else if u == "BOOL" then Some("BOOLEAN")
    else None
  }

  /** The load map, on the upper-cased declared type; anything unknown reads
      as str. */
  function ProgramTypeOf(sqlType: string): (t: string)
    ensures t in Types
  {
    var u := Upper(sqlType);
    if u == "TEXT" then "str"
    else if u == "INTEGER" then "int"
    else if u == "REAL" then "float"
    else if u == "BOOLEAN" then "bool"
    else "str"
  }

  /** Saving and loading a column type gives the type back, for each of the
      four program types. */
  lemma TypeMapRoundTrip(t: string)
    requires t in Types
    ensures SqlTypeOf(t).Some? && ProgramTypeOf(SqlTypeOf(t).value) == t
  {
    if t == "int" {
      assert Upper(t) == "INT";
      assert Upper("INTEGER") == "INTEGER";
    } else if t == "float" {
      assert Upper(t) == "FLOAT";
      assert Upper("REAL") == "REAL";
    } else if t == "str" {
      assert Upper(t) == "STR";
      assert Upper("TEXT") == "TEXT";
    } else {
      assert Upper(t) == "BOOL";
      assert Upper("BOOLEAN") == "BOOLEAN";
    }
  }

  /** The save map ignores case ("Int" saves as INTEGER); a type outside the
      four ("date") is refused. */
  lemma SqlTypeExamples()
    ensures SqlTypeOf("Int") == Some("INTEGER")
    ensures SqlTypeOf("date") == None
  {
    assert Upper("Int") == "INT";
    assert Upper("date") == "DATE";
  }

  /** The column definitions, or None when some column has a type the map
      refuses. */
  function SqlColumns(cols: seq<Column>): (r: Option<seq<SqlColumn>>)
    ensures r.Some? <==> forall i :: 0 <= i < |cols| ==> SqlTypeOf(cols[i].ctype).Some?
    ensures r.Some? ==> |r.value| == |cols|
    ensures r.Some? ==> forall i :: 0 <= i < |cols| ==> r.value[i] == SqlColumn(cols[i].name, SqlTypeOf(cols[i].ctype).value)
  {
    if cols == [] then Some([])
    else
      match SqlTypeOf(cols[0].ctype)
      case None => None
      case Some(t) =>
        match SqlColumns(cols[1..])
        case None => assert !SqlTypeOf(cols[1..][0].ctype).Some? || exists i :: 1 <= i < |cols| && SqlTypeOf(cols[i].ctype).None?; None
        case Some(rest) => Some([SqlColumn(cols[0].name, t)] + rest)
  }

  /** How the sqlite3 driver binds a value: a bool is stored as 1 or 0, the
      rest as they are. */
  function StoredValue(c: Cell): (v: Cell)
    ensures !v.B?
  {
    match c
    case B(b) => I(if b then 1 else 0)
    case _ => c
  }

  /** The values of one INSERT: `[row.get(col["name"], None) for col in
      columns]`, a missing key giving NULL. */
  function StoredRow(cols: seq<Column>, row: Row): (vs: seq<Cell>)
    ensures |vs| == |cols|
  {
    seq(|cols|, j requires 0 <= j < |cols| => StoredValue(Get(row, cols[j].name, Null)))
  }

  function StoredRows(cols: seq<Column>, rows: seq<Row>): (r: seq<seq<Cell>>)
    ensures |r| == |rows|
  {
    seq(|rows|, i requires 0 <= i < |rows| => StoredRow(cols, rows[i]))
  }

  const MinInt64: int := -0x8000_0000_0000_0000
  const MaxInt64: int := 0x7FFF_FFFF_FFFF_FFFF

  /** The sqlite3 driver binds an int only when it fits in a signed 64-bit
      integer; a wider one makes the INSERT raise OverflowError. */
  predicate Bindable(v: Cell)
  {
    v.I? ==> MinInt64 <= v.num <= MaxInt64
  }

  /** Every value of the INSERT for one row binds. */
  predicate RowBinds(cols: seq<Column>, row: Row)
  {
    forall j :: 0 <= j < |cols| ==> Bindable(StoredRow(cols, row)[j])
  }

  /** Every INSERT of a save binds. */
  predicate RowsBind(cols: seq<Column>, rows: seq<Row>)
  {
    forall i :: 0 <= i < |rows| ==> RowBinds(cols, rows[i])
  }

  /** The columns of a loaded table, typed through the load map. */
  function LoadedColumns(t: StoredTable): (cols: seq<Column>)
    ensures |cols| == |t.columns|
  {
    seq(|t.columns|, i requires 0 <= i < |t.columns| =>
      Column(t.columns[i].name, ProgramTypeOf(t.columns[i].sqlType)))
  }

  /** A bool column turns its stored value into `bool(value)`; other values
      are kept. */
  function LoadedValue(ctype: string, v: Cell): Cell
  {
    if ctype == "bool" then B(Truthy(v)) else v
  }

  /** One loaded row: each column name in order mapped to its value. */
  function LoadedRow(cols: seq<Column>, raw: seq<Cell>): Row
    requires |raw| == |cols|
  {
    Assoc(Names(cols), seq(|cols|, j requires 0 <= j < |cols| => LoadedValue(cols[j].ctype, raw[j])))
  }

  function LoadedRows(cols: seq<Column>, raws: seq<seq<Cell>>): (rows: seq<Row>)
    requires forall i :: 0 <= i < |raws| ==> |raws[i]| == |cols|
    ensures |rows| == |raws|
  {
    seq(|raws|, i requires 0 <= i < |raws| => LoadedRow(cols, raws[i]))
  }

  // ---------------------------------------------------------------------
  // The save decision machine
  // ---------------------------------------------------------------------

  /** What the program does about a name that is already a table. */
  datatype Clash = Overwrite | SaveAs(newName: string) | Halt(reason: Reason)

  /** This module's clash handling. It reads the auto-update setting
      through a getter (None: the settings object has no such method and the
      call raises). With auto-update on, the old table is dropped. Otherwise
      the prompt reads `self.name`, an attribute the handler does not have,
      and raises. The raise is caught as a failed save, so the
      overwrite/new/abort dialogue is never reached. */
  function HandlerClash(autoUpdate: Option<bool>): Clash
  {
    if autoUpdate == Some(true) then Overwrite else Halt(Raised)
  }

  /** The clash handling as the dialogue intends it (and as the single-file
      revision has it): with auto-update off, "overwrite" drops the old
      table, "new" adopts a non-empty new name without checking it again, an
      empty name or any other answer aborts. */
  function PromptClash(autoUpdate: bool, action: string, newName: string): Clash
  {
    if autoUpdate then Overwrite
    else
      var a := Lower(Trim(action));
      if a == "overwrite" then Overwrite
      else if a == "new" then
        (if Trim(newName) == "" then Halt(InvalidAnswer) else SaveAs(Trim(newName)))
      else Halt(InvalidChoice)
  }

  /** Where the save stands once the name question is settled: the store
      after any DROP and the name to create, or the outcome it stopped with. */
  datatype Resolved = Proceed(store: Store, name: string) | Halted(outcome: Outcome)

  function Resolve(store: Store, name: string, clash: Clash): (r: Resolved)
    ensures r.Halted? ==> r.outcome.Rejected?
    ensures r.Proceed? && clash.Overwrite? && name in TableNames(store) ==> !NameTaken(r.store, name)
  {
    DropTableFacts(store, name);
    if name !in TableNames(store) then Proceed(store, name)
    else
      match clash
      case Overwrite => Proceed(DropTable(store, name), name)
      case SaveAs(n) => Proceed(store, n)
      case Halt(why) => Halted(Rejected(why))
  }

  datatype SaveResult = SaveResult(outcome: Outcome, store: Store, name: string, saved: bool)

  /** SQLite compares column names without regard to ASCII case, so a
      `CREATE TABLE` naming one column twice that way raises "duplicate
      column name". */
  predicate SqlDistinctColumns(cols: seq<Column>)
  {
    forall i, j :: 0 <= i < j < |cols| ==> !SameSqlName(cols[i].name, cols[j].name)
  }

  /** `save_to_database` as a whole: the guards, the name question, the
      column definitions (refused after any DROP already issued), the CREATE
      (which raises when the name is taken or two column names are equal,
      ignoring case) and one INSERT per row (which raises on an int that does
      not fit in 64 bits; the table is then created but none of its rows is
      committed). The saved flag is set only when everything went through. */
  function SavePlan(connected: bool, name: string, cols: seq<Column>, rows: seq<Row>, saved: bool,
                    store: Store, clash: Clash): (r: SaveResult)
    ensures r.saved != saved ==> r.outcome == Done
    ensures r.outcome == Done ==> r.saved && SqlColumns(cols).Some? && SqlDistinctColumns(cols) && RowsBind(cols, rows)
  {
    if !connected then SaveResult(Rejected(NotConnected), store, name, saved)
    else if cols == [] then SaveResult(Rejected(NoColumns), store, name, saved)
    else
      match Resolve(store, name, clash)
      case Halted(o) => SaveResult(o, store, name, saved)
      case Proceed(s1, n1) =>
        match SqlColumns(cols)
        case None => SaveResult(Rejected(UnsupportedType), s1, n1, saved)
        case Some(defs) =>
          if NameTaken(s1, n1) || !SqlDistinctColumns(cols) then SaveResult(Rejected(Raised), s1, n1, saved)
          else if !RowsBind(cols, rows) then SaveResult(Rejected(Raised), s1 + [StoredTable(n1, defs, [])], n1, saved)
          else SaveResult(Done, s1 + [StoredTable(n1, defs, StoredRows(cols, rows))], n1, true)
  }

  /** Every save leaves the database well formed, and a successful one adds
      the table under the name the result reports, with one stored row per
      table row. */
  lemma SaveKeepsStoreWellFormed(connected: bool, name: string, cols: seq<Column>, rows: seq<Row>,
                                 saved: bool, store: Store, clash: Clash)
    requires WellStored(store)
    ensures WellStored(SavePlan(connected, name, cols, rows, saved, store, clash).store)
    ensures var r := SavePlan(connected, name, cols, rows, saved, store, clash);
      r.outcome == Done ==>
        (|r.store| > 0 && r.store[|r.store| - 1].name == r.name && |r.store[|r.store| - 1].rows| == |rows|)
  {
    if connected && cols != [] {
      match Resolve(store, name, clash)
      case Halted(_) =>
      case Proceed(s1, n1) =>
        assert WellStored(s1) by {
          if name in TableNames(store) && clash.Overwrite? {
            DropKeepsWellStored(store, name);
          }
        }
        match SqlColumns(cols)
        case None =>
        case Some(defs) =>
          if !NameTaken(s1, n1) && SqlDistinctColumns(cols) {
            var t := StoredTable(n1, defs, if RowsBind(cols, rows) then StoredRows(cols, rows) else []);
            WellStoredSnoc(s1, t);
            assert (s1 + [t])[|s1|] == t;
          }
    }
  }

  /** Column names the program keeps apart can still clash in SQLite:
      with columns `a` and `A` the CREATE raises, nothing is created and the
      saved flag stays as it was. */
  lemma CaseDuplicateColumnsRaise(rows: seq<Row>, store: Store)
    requires "t" !in TableNames(store)
    ensures var cols := [Column("a", "str"), Column("A", "str")];
      DistinctNames(cols)
      && SavePlan(true, "t", cols, rows, false, store, Overwrite) == SaveResult(Rejected(Raised), store, "t", false)
  {
    var cols := [Column("a", "str"), Column("A", "str")];
    assert Lower("A")[0] == 'a' && Lower("a")[0] == 'a';
    assert Lower("A") == Lower("a");
    assert SameSqlName(cols[0].name, cols[1].name);
  }

  /** An int one past the 64-bit range cannot be bound: the INSERT raises
      after the CREATE, so the database gains the table without its rows and
      the saved flag stays as it was. */
  lemma WideIntRaises(store: Store)
    requires !NameTaken(store, "t")
    ensures var cols := [Column("n", "int")];
      SavePlan(true, "t", cols, [map["n" := I(MaxInt64 + 1)]], false, store, Overwrite)
        == SaveResult(Rejected(Raised), store + [StoredTable("t", [SqlColumn("n", "INTEGER")], [])], "t", false)
  {
    var cols := [Column("n", "int")];
    var rows := [map["n" := I(MaxInt64 + 1)]];
    assert !RowBinds(cols, rows[0]) by {
      assert StoredRow(cols, rows[0])[0] == I(MaxInt64 + 1);
    }
    assert Upper("int") == "INT" by {
      assert Upper("int")[0] == 'I' && Upper("int")[1] == 'N' && Upper("int")[2] == 'T';
    }
    assert SqlTypeOf(cols[0].ctype) == Some("INTEGER");
    assert SqlColumns(cols).value == [SqlColumn("n", "INTEGER")];
  }

  /** The flagged order: with the name taken and auto-update on, the old
      table is dropped before the column types are checked, so an
      unsupported type leaves the database without either table. */
  lemma DropHappensBeforeTypeCheck(name: string, cols: seq<Column>, rows: seq<Row>, saved: bool, store: Store)
    requires cols != [] && name in TableNames(store)
    requires exists i :: 0 <= i < |cols| && SqlTypeOf(cols[i].ctype).None?
    ensures var r := SavePlan(true, name, cols, rows, saved, store, HandlerClash(Some(true)));
      r.outcome == Rejected(UnsupportedType) && !NameTaken(r.store, name) && r.saved == saved
  {
    DropTableFacts(store, name);
  }

  /** As written: when the name is taken and auto-update is not on, the save
      always fails and the database is left untouched, whatever the user
      would have answered. */
  lemma HandlerPromptAlwaysFails(name: string, cols: seq<Column>, rows: seq<Row>, saved: bool,
                                 store: Store, autoUpdate: Option<bool>)
    requires cols != [] && name in TableNames(store) && autoUpdate != Some(true)
    ensures SavePlan(true, name, cols, rows, saved, store, HandlerClash(autoUpdate))
      == SaveResult(Rejected(Raised), store, name, saved)
  {
  }

  /** As intended: answering "overwrite" replaces the old table by the
      current one, which is then the last table of the database. */
  lemma PromptOverwriteReplaces(name: string, cols: seq<Column>, rows: seq<Row>, saved: bool,
                                store: Store, newName: string)
    requires WellStored(store) && cols != [] && name in TableNames(store)
    requires forall i :: 0 <= i < |cols| ==> SqlTypeOf(cols[i].ctype).Some?
    requires SqlDistinctColumns(cols)
    requires RowsBind(cols, rows)
    ensures var r := SavePlan(true, name, cols, rows, saved, store, PromptClash(false, "overwrite", newName));
      r.outcome == Done && r.saved && r.name == name
      && r.store == DropTable(store, name) + [StoredTable(name, SqlColumns(cols).value, StoredRows(cols, rows))]
  {
    assert Trim("overwrite") == "overwrite" by { TrimFacts("overwrite"); }
    assert Lower("overwrite") == "overwrite";
    DropTableFacts(store, name);
  }

  /** The answer "new" with a stripped non-empty name adopts that name. */
  lemma NewAnswerSavesAs(newName: string)
    requires newName != "" && Trim(newName) == newName
    ensures PromptClash(false, "new", newName) == SaveAs(newName)
  {
    assert Trim("new") == "new" by { TrimFacts("new"); }
    assert Lower("new") == "new";
  }

  /** Adopting a fresh name for a taken one appends the table under the new
      name after every old table. */
  lemma SaveAsFreshKeepsOld(name: string, cols: seq<Column>, rows: seq<Row>, saved: bool,
                            store: Store, newName: string)
    requires cols != [] && name in TableNames(store)
    requires forall i :: 0 <= i < |cols| ==> SqlTypeOf(cols[i].ctype).Some?
    requires !NameTaken(store, newName) && SqlDistinctColumns(cols)
    requires RowsBind(cols, rows)
    ensures var r := SavePlan(true, name, cols, rows, saved, store, SaveAs(newName));
      r.outcome == Done && r.saved && r.name == newName && r.store[..|store|] == store
      && |r.store| == |store| + 1 && r.store[|store|] == StoredTable(newName, SqlColumns(cols).value, StoredRows(cols, rows))
  {
  }

  /** As intended: answering "new" with a fresh non-empty name saves under
      that name and keeps the old table. */
  lemma PromptNewKeepsOld(name: string, cols: seq<Column>, rows: seq<Row>, saved: bool,
                          store: Store, newName: string)
    requires cols != [] && name in TableNames(store)
    requires forall i :: 0 <= i < |cols| ==> SqlTypeOf(cols[i].ctype).Some?
    requires newName != "" && Trim(newName) == newName && !NameTaken(store, newName)
    requires SqlDistinctColumns(cols)
    requires RowsBind(cols, rows)
    ensures var r := SavePlan(true, name, cols, rows, saved, store, PromptClash(false, "new", newName));
      r.outcome == Done && r.saved && r.name == newName && r.store[..|store|] == store
      && |r.store| == |store| + 1 && r.store[|store|] == StoredTable(newName, SqlColumns(cols).value, StoredRows(cols, rows))
  {
    NewAnswerSavesAs(newName);
    SaveAsFreshKeepsOld(name, cols, rows, saved, store, newName);
  }

  /** A cell that SQLite's column affinity hands back unchanged and that the
      load maps back to itself: a text under TEXT, an integer under INTEGER,
      a real under REAL, a boolean under BOOLEAN, and under any but BOOLEAN
      also NULL or the empty text, which no affinity converts. Text such as
      "5" under INTEGER, or 5 under TEXT or REAL, is converted and excluded. */
  predicate KeptBySqlite(ctype: string, c: Cell)
  {
    match c
    case S(t) => ctype == "str" || (t == "" && ctype != "bool")
    case I(_) => ctype == "int"
    case F(_) => ctype == "float"
    case B(_) => ctype == "bool"
    case Null => ctype != "bool"
  }

  /** Every cell of the table is kept by its column's affinity. */
  predicate Storable(cols: seq<Column>, rows: seq<Row>)
  {
    forall i, j :: 0 <= i < |rows| && 0 <= j < |cols| ==>
      KeptBySqlite(cols[j].ctype, Get(rows[i], cols[j].name, Null))
  }

  /** One stored row loads back as the row it came from. */
  lemma StoredRowLoadsBack(cols: seq<Column>, rows: seq<Row>, i: int)
    requires DistinctNames(cols) && KeysMatch(cols, rows) && Storable(cols, rows)
    requires 0 <= i < |rows|
    ensures LoadedRow(cols, StoredRow(cols, rows[i])) == rows[i]
  {
    var row := rows[i];
    var raw := StoredRow(cols, row);
    var vals := seq(|cols|, j requires 0 <= j < |cols| => LoadedValue(cols[j].ctype, raw[j]));
    forall j | 0 <= j < |cols| ensures vals[j] == ExportRow(cols, row)[j] {
      assert cols[j].name in NameSet(cols);
    }
    assert vals == ExportRow(cols, row);
    AssocOfProjection(cols, row);
  }

  /** The declared SQL columns load back as the program columns. */
  lemma SqlColumnsLoadBack(name: string, cols: seq<Column>, raws: seq<seq<Cell>>)
    requires forall i :: 0 <= i < |cols| ==> cols[i].ctype in Types
    ensures SqlColumns(cols).Some?
    ensures LoadedColumns(StoredTable(name, SqlColumns(cols).value, raws)) == cols
  {
    forall i | 0 <= i < |cols|
      ensures SqlTypeOf(cols[i].ctype).Some? && ProgramTypeOf(SqlTypeOf(cols[i].ctype).value) == cols[i].ctype
    {
      TypeMapRoundTrip(cols[i].ctype);
    }
  }

  /** Every stored row loads back as the row it came from. */
  lemma StoredRowsLoadBack(cols: seq<Column>, rows: seq<Row>)
    requires DistinctNames(cols) && KeysMatch(cols, rows) && Storable(cols, rows)
    ensures LoadedRows(cols, StoredRows(cols, rows)) == rows
  {
    var loaded := LoadedRows(cols, StoredRows(cols, rows));
    forall i | 0 <= i < |rows| ensures loaded[i] == rows[i] {
      StoredRowLoadsBack(cols, rows, i);
    }
  }

  /** Saving a table and loading it back gives the same columns and rows,
      for tables whose names are distinct, whose rows have exactly the column
      keys, whose types are the four known ones and whose cells are storable. */
  lemma SaveThenLoad(name: string, cols: seq<Column>, rows: seq<Row>)
    requires DistinctNames(cols) && KeysMatch(cols, rows) && Storable(cols, rows)
    requires forall i :: 0 <= i < |cols| ==> cols[i].ctype in Types
    ensures SqlColumns(cols).Some?
    ensures var t := StoredTable(name, SqlColumns(cols).value, StoredRows(cols, rows));
      LoadedColumns(t) == cols && LoadedRows(cols, t.rows) == rows
  {
    SqlColumnsLoadBack(name, cols, StoredRows(cols, rows));
    StoredRowsLoadBack(cols, rows);
  }

  // ---------------------------------------------------------------------
  // The save, statement by statement
  // ---------------------------------------------------------------------

  /** The loop building `columns_definition`; it stops at the first column
      whose type the map refuses. */
  method BuildColumnDefinitions(cols: seq<Column>) returns (defs: Option<seq<SqlColumn>>)
    ensures defs == SqlColumns(cols)
  {
    var acc: seq<SqlColumn> := [];
    var i := 0;
    while i < |cols|
      invariant 0 <= i <= |cols| && |acc| == i
      invariant forall k :: 0 <= k < i ==> SqlTypeOf(cols[k].ctype).Some?
      invariant forall k :: 0 <= k < i ==> acc[k] == SqlColumn(cols[k].name, SqlTypeOf(cols[k].ctype).value)
    {
      var t := SqlTypeOf(cols[i].ctype);
      if t.None? {
        return None;
      }
      acc := acc + [SqlColumn(cols[i].name, t.value)];
      i := i + 1;
    }
    assert SqlColumns(cols).Some?;
    assert acc == SqlColumns(cols).value;
    defs := Some(acc);
  }

  /** The insert loop: one stored row per table row, in row order. */
  method InsertRows(cols: seq<Column>, rows: seq<Row>) returns (stored: seq<seq<Cell>>, bound: bool)
    ensures bound <==> RowsBind(cols, rows)
    ensures bound ==> stored == StoredRows(cols, rows)
  {
    stored := [];
    var i := 0;
    while i < |rows|
      invariant 0 <= i <= |rows|
      invariant stored == StoredRows(cols, rows[..i])
      invariant RowsBind(cols, rows[..i])
    {
      if !RowBinds(cols, rows[i]) {
        return stored, false;
      }
      stored := stored + [StoredRow(cols, rows[i])];
      i := i + 1;
      assert rows[..i][..i - 1] == rows[..i - 1];
    }
    assert rows[..i] == rows;
    bound := true;
  }

  /** `save_to_database` with a given clash handling. The table name changes
      when a new name was adopted, the saved flag only on success; columns and
      rows never change. */
  method SaveTable(tb: TableBuilder, connected: bool, store: Store, clash: Clash) returns (out: Outcome, after: Store)
    modifies tb
    ensures var r := SavePlan(connected, old(tb.name), old(tb.columns), old(tb.rows), old(tb.saved), store, clash);
      out == r.outcome && after == r.store && tb.name == r.name && tb.saved == r.saved
    ensures tb.columns == old(tb.columns) && tb.rows == old(tb.rows)
  {
    after := store;
    if !connected {
      return Rejected(NotConnected), store;
    }
    if tb.columns == [] {
      return Rejected(NoColumns), store;
    }
    if tb.name in TableNames(store) {
      match clash
      case Overwrite =>
        after := DropTable(store, tb.name);
      case SaveAs(n) =>
        tb.name := n;
      case Halt(why) =>
        return Rejected(why), store;
    }
    var defs := BuildColumnDefinitions(tb.columns);
    if defs.None? {
      return Rejected(UnsupportedType), after;
    }
    if NameTaken(after, tb.name) || !SqlDistinctColumns(tb.columns) {
      return Rejected(Raised), after;
    }
    var stored, bound := InsertRows(tb.columns, tb.rows);
    if !bound {
      // the CREATE went through; the INSERTs are never committed
      return Rejected(Raised), after + [StoredTable(tb.name, defs.value, [])];
    }
    after := after + [StoredTable(tb.name, defs.value, stored)];
    tb.saved := true;
    out := Done;
  }

  /** `save_to_database` as this module has it. */
  method SaveToDatabase(tb: TableBuilder, connected: bool, store: Store, autoUpdate: Option<bool>)
    returns (out: Outcome, after: Store)
    modifies tb
    ensures var r := SavePlan(connected, old(tb.name), old(tb.columns), old(tb.rows), old(tb.saved), store,
                              HandlerClash(autoUpdate));
      out == r.outcome && after == r.store && tb.name == r.name && tb.saved == r.saved
    ensures tb.columns == old(tb.columns) && tb.rows == old(tb.rows)
  {
    out, after := SaveTable(tb, connected, store, HandlerClash(autoUpdate));
  }

  // ---------------------------------------------------------------------
  // Loading
  // ---------------------------------------------------------------------

  /** The table choice of `load_from_database`: not connected and no tables
      are reported; a missing or non-numeric answer raises inside the try;
      a number outside 1..n is refused. */
  function TableSelection(connected: bool, store: Store, answer: Option<string>): (r: Step<nat>)
    ensures r.Go? ==> r.value < |store| && answer.Some? && ParseInt(answer.value) == Some(r.value as int + 1)
    ensures r.Stop? ==> r.outcome != Done
  {
    if !connected then Stop(Rejected(NotConnected))
    else if store == [] then Stop(Rejected(NoTables))
    else if answer.None? then Stop(Rejected(Raised))
    else
      match ParseInt(answer.value)
      case None => Stop(Rejected(Raised))
      case Some(k) => if 0 <= k - 1 < |store| then Go(k - 1) else Stop(Rejected(InvalidChoice))
  }

  /** A valid number always selects its table. */
  lemma SelectionIsOneBased(store: Store, k: nat)
    requires 0 <= k < |store|
    ensures TableSelection(true, store, Some(IntToString(k + 1))) == Go(k)
  {
    IntTextRoundTrip(k + 1);
  }

  /** The loop rebuilding rows from the fetched tuples, one row at a time,
      bool columns coerced by truthiness. */
  method RebuildRows(cols: seq<Column>, raws: seq<seq<Cell>>) returns (rows: seq<Row>)
    requires forall i :: 0 <= i < |raws| ==> |raws[i]| == |cols|
    ensures rows == LoadedRows(cols, raws)
  {
    rows := [];
    var i := 0;
    while i < |raws|
      invariant 0 <= i <= |raws|
      invariant rows == LoadedRows(cols, raws[..i])
    {
      var row := RebuildRow(cols, raws[i]);
      rows := rows + [row];
      i := i + 1;
      assert raws[..i][..i - 1] == raws[..i - 1];
    }
    assert raws[..i] == raws;
  }

  /** One row of the rebuild: `dict(zip(names, values))`, with each bool
      column's value turned into `bool(value)`. */
  method RebuildRow(cols: seq<Column>, raw: seq<Cell>) returns (row: Row)
    requires |raw| == |cols|
    ensures row == LoadedRow(cols, raw)
  {
    var vals := seq(|cols|, j requires 0 <= j < |cols| => LoadedValue(cols[j].ctype, raw[j]));
    row := map[];
    var j := 0;
    while j < |cols|
      invariant 0 <= j <= |cols|
      invariant row == Assoc(Names(cols)[..j], vals[..j])
    {
      var value := raw[j];
      if cols[j].ctype == "bool" {
        value := B(Truthy(value));
      }
      row := row[cols[j].name := value];
      j := j + 1;
      assert Names(cols)[..j][..j - 1] == Names(cols)[..j - 1];
      assert vals[..j][..j - 1] == vals[..j - 1];
    }
    assert Names(cols)[..j] == Names(cols) && vals[..j] == vals;
  }

  /** `load_from_database`: on a valid choice the table is replaced by the
      chosen one, renamed after it and marked saved. The final autoprint
      lookup goes through a getter the settings object may lack; when it does,
      the raise is reported although the table is already loaded. */
  method LoadFromDatabase(tb: TableBuilder, connected: bool, store: Store, answer: Option<string>,
                          hasAutoprintGetter: bool) returns (out: Outcome)
    requires WellStored(store)
    modifies tb
    ensures match TableSelection(connected, store, answer)
      case Stop(o) =>
        out == o && tb.name == old(tb.name) && tb.columns == old(tb.columns)
        && tb.rows == old(tb.rows) && tb.saved == old(tb.saved)
      case Go(k) =>
        tb.columns == LoadedColumns(store[k])
        && tb.rows == LoadedRows(LoadedColumns(store[k]), store[k].rows)
        && tb.name == store[k].name && tb.saved
        && out == (if hasAutoprintGetter then Done else Rejected(Raised))
  {
    var sel := TableSelection(connected, store, answer);
    if sel.Stop? {
      return sel.outcome;
    }
    var t := store[sel.value];
    var cols := LoadedColumns(t);
    var rows := RebuildRows(cols, t.rows);
    tb.columns, tb.rows := cols, rows;
    tb.name := t.name;
    tb.saved := true;
    out := if hasAutoprintGetter then Done else Rejected(Raised);
  }

  /** `get_tables`: the table names, or nothing without a connection. */
  function GetTables(connected: bool, store: Store): (names: seq<string>)
    ensures connected ==> names == TableNames(store)
    ensures !connected ==> names == []
  {
    if connected then TableNames(store) else []
  }
}
