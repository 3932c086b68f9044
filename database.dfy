/** `Database`: the database manager's connection state (which SQLite file
    is open), the search over the tables of the open database, the listing
    and selection of database files, and deleting one. The file system is a
    set of existing paths and `os.path.abspath` a parameter; the open
    database's contents are a `Store`. */
module DatabaseManager {
  import opened Values
  import opened SqlStore
  import opened Paths

  /** The manager's connection fields: the connection (the path it was
      opened on), whether a cursor is held, and `current_database`. */
  datatype Link = Link(connection: Option<string>, cursor: bool, current: Option<string>)

  /** What every method keeps: a cursor exactly when connected, and the
      current database is the path the connection was opened on. */
  predicate Coherent(l: Link)
  {
    l.cursor == l.connection.Some? && l.current == l.connection
  }

  /** `close`: a connected manager forgets connection, cursor and current
      database; a disconnected one is left alone. */
  function Closed(l: Link): (r: Link)
    ensures r.connection.None?
    ensures l.connection.None? ==> r == l
    ensures Coherent(l) ==> !r.cursor && r.current.None? && Coherent(r)
  {
    if l.connection.Some? then Link(None, false, None) else l
  }

  /** The path `connect` resolves: a non-empty `db_path` wins (made
      absolute), otherwise a non-empty `db_name` inside the databases
      directory, otherwise nothing. */
  function ConnectTarget(directory: string, dbName: Option<string>, dbPath: Option<string>, abspath: string -> string)
    : Option<string>
  {
    if dbPath.Some? && dbPath.value != "" then Some(abspath(dbPath.value))
    else if dbName.Some? && dbName.value != "" then Some(JoinPath(directory, dbName.value))
    else None
  }

  /** `connect`: with no name and no path, or a resolved path that does not
      exist, or a file SQLite cannot open (`opens` false), the fields are
      untouched; otherwise all three name the resolved path. */
  function ConnectResult(l: Link, directory: string, dbName: Option<string>, dbPath: Option<string>,
                         abspath: string -> string, existing: set<string>, opens: bool): (r: (Link, Outcome))
    ensures r.1 != Done ==> r.0 == l
    ensures r.1 == Done <==> (ConnectTarget(directory, dbName, dbPath, abspath).Some?
                             && ConnectTarget(directory, dbName, dbPath, abspath).value in existing && opens)
    ensures r.1 == Done ==>
      (r.0.connection == ConnectTarget(directory, dbName, dbPath, abspath)
       && r.0.connection.value in existing && Coherent(r.0))
  {
    match ConnectTarget(directory, dbName, dbPath, abspath)
    case None => (l, Rejected(NoDatabaseName))
    case Some(p) =>
      if p !in existing then (l, Rejected(FileNotFound))
      else if !opens then (l, Rejected(Raised))
      else (Link(Some(p), true, Some(p)), Done)
  }

  /** A path, when given, decides alone: the name passed beside it plays no
      part. */
  lemma ConnectPrefersPath(l: Link, directory: string, name1: Option<string>, name2: Option<string>, dbPath: string,
                           abspath: string -> string, existing: set<string>, opens: bool)
    requires dbPath != ""
    ensures ConnectResult(l, directory, name1, Some(dbPath), abspath, existing, opens)
      == ConnectResult(l, directory, name2, Some(dbPath), abspath, existing, opens)
    ensures ConnectResult(l, directory, name1, Some(dbPath), abspath, existing, opens).1 == Done
      <==> abspath(dbPath) in existing && opens
  {
  }

  /** Without a path, a plain file name connects to that file inside the
      databases directory; a name without a slash is then the base name of
      the connected path. */
  lemma ConnectByName(l: Link, directory: string, name: string, abspath: string -> string, existing: set<string>)
    requires name != "" && JoinPath(directory, name) in existing
    ensures var r := ConnectResult(l, directory, Some(name), None, abspath, existing, true);
      r.1 == Done && r.0.current == Some(JoinPath(directory, name))
    ensures var r := ConnectResult(l, directory, Some(name), None, abspath, existing, true);
      '/' !in name ==> BaseName(r.0.current.value) == name
  {
    if '/' !in name {
      BaseNameOfJoin(directory, name);
    }
  }

  // ---------------------------------------------------------------------
  // Search
  // ---------------------------------------------------------------------

  /** One search result: table, 1-based row number, column name, declared
      column type, and the value found. */
  datatype Hit = Hit(table: string, row: nat, column: string, sqlType: string, value: Cell)

  /** A cell matches when the lower-cased query occurs in the lower-cased
      `str()` of its value. */
  predicate Matches(query: string, v: Cell, floatRepr: real -> string)
  {
    IsSubstring(Lower(query), Lower(PyStr(v, floatRepr)))
  }

  /** No row is wider than its table's declared columns, so every cell has
      a column to report. */
  predicate Fits(t: StoredTable)
  {
    forall r :: 0 <= r < |t.rows| ==> |t.rows[r]| <= |t.columns|
  }

  predicate AllFit(ts: seq<StoredTable>)
  {
    forall i :: 0 <= i < |ts| ==> Fits(ts[i])
  }

  /** The result for cell `c` of row `r` (0-based) of table `t`. */
  function HitAt(t: StoredTable, r: nat, c: nat, v: Cell): Hit
    requires c < |t.columns|
  {
    Hit(t.name, r + 1, t.columns[c].name, t.columns[c].sqlType, v)
  }

  /** The match test `search` applies to every cell, for a given query. */
  function MatchTest(query: string, floatRepr: real -> string): Cell -> bool
  {
    v => Matches(query, v, floatRepr)
  }

  /** The results from the first `k` cells of row `r` of a table, in
      column order. */
  function CellHits(m: Cell -> bool, t: StoredTable, r: nat, k: nat): seq<Hit>
    requires Fits(t) && r < |t.rows| && k <= |t.rows[r]|
  {
    if k == 0 then []
    else
      var v := t.rows[r][k - 1];
      CellHits(m, t, r, k - 1) + (if m(v) then [HitAt(t, r, k - 1, v)] else [])
  }

  /** The results from the first `k` rows of a table, in row order. */
  function RowHits(m: Cell -> bool, t: StoredTable, k: nat): seq<Hit>
    requires Fits(t) && k <= |t.rows|
  {
    if k == 0 then [] else RowHits(m, t, k - 1) + CellHits(m, t, k - 1, |t.rows[k - 1]|)
  }

  /** The results from the first `k` tables of a list, in table order. */
  function TableHits(m: Cell -> bool, ts: seq<StoredTable>, k: nat): seq<Hit>
    requires AllFit(ts) && k <= |ts|
  {
    if k == 0 then [] else TableHits(m, ts, k - 1) + RowHits(m, ts[k - 1], |ts[k - 1].rows|)
  }

  /** Every result from the first `k` cells of a row is the result for
      one of those cells that matches, and every matching cell among them
      gives a result. */
  lemma {:induction false} CellHitsExactly(m: Cell -> bool, t: StoredTable, r: nat, k: nat)
    requires Fits(t) && r < |t.rows| && k <= |t.rows[r]|
    ensures forall h :: h in CellHits(m, t, r, k) ==>
      exists c :: 0 <= c < k && m(t.rows[r][c]) && h == HitAt(t, r, c, t.rows[r][c])
    ensures forall c :: 0 <= c < k && m(t.rows[r][c]) ==> HitAt(t, r, c, t.rows[r][c]) in CellHits(m, t, r, k)
  {
    if k > 0 {
      CellHitsExactly(m, t, r, k - 1);
      forall h | h in CellHits(m, t, r, k)
        ensures exists c :: 0 <= c < k && m(t.rows[r][c]) && h == HitAt(t, r, c, t.rows[r][c])
      {
        if h !in CellHits(m, t, r, k - 1) {
          assert h == HitAt(t, r, k - 1, t.rows[r][k - 1]);
        }
      }
    }
  }

  /** Every result from the first `k` rows is the result for a matching
      cell of one of them, and every matching cell of those rows gives a
      result. */
  lemma {:induction false} RowHitsExactly(m: Cell -> bool, t: StoredTable, k: nat)
    requires Fits(t) && k <= |t.rows|
    ensures forall h :: h in RowHits(m, t, k) ==>
      exists r, c :: 0 <= r < k && 0 <= c < |t.rows[r]| && m(t.rows[r][c]) && h == HitAt(t, r, c, t.rows[r][c])
    ensures forall r, c :: 0 <= r < k && 0 <= c < |t.rows[r]| && m(t.rows[r][c]) ==>
      HitAt(t, r, c, t.rows[r][c]) in RowHits(m, t, k)
  {
    if k > 0 {
      RowHitsExactly(m, t, k - 1);
      CellHitsExactly(m, t, k - 1, |t.rows[k - 1]|);
      forall h | h in RowHits(m, t, k)
        ensures exists r, c :: 0 <= r < k && 0 <= c < |t.rows[r]| && m(t.rows[r][c]) && h == HitAt(t, r, c, t.rows[r][c])
      {
        if h !in RowHits(m, t, k - 1) {
          var c :| 0 <= c < |t.rows[k - 1]| && m(t.rows[k - 1][c]) && h == HitAt(t, k - 1, c, t.rows[k - 1][c]);
        }
      }
    }
  }

  /** Every result from the first `k` tables is the result for a matching
      cell of one of them, and every matching cell of those tables gives a
      result. */
  lemma {:induction false} TableHitsExactly(m: Cell -> bool, ts: seq<StoredTable>, k: nat)
    requires AllFit(ts) && k <= |ts|
    ensures forall h :: h in TableHits(m, ts, k) ==>
      exists i, r, c :: 0 <= i < k && 0 <= r < |ts[i].rows| && 0 <= c < |ts[i].rows[r]| && m(ts[i].rows[r][c])
        && h == HitAt(ts[i], r, c, ts[i].rows[r][c])
    ensures forall i, r, c ::
      (0 <= i < k && 0 <= r < |ts[i].rows| && 0 <= c < |ts[i].rows[r]| && m(ts[i].rows[r][c])) ==>
        HitAt(ts[i], r, c, ts[i].rows[r][c]) in TableHits(m, ts, k)
  {
    if k > 0 {
      TableHitsExactly(m, ts, k - 1);
      RowHitsExactly(m, ts[k - 1], |ts[k - 1].rows|);
      forall h | h in TableHits(m, ts, k)
        ensures exists i, r, c ::
          0 <= i < k && 0 <= r < |ts[i].rows| && 0 <= c < |ts[i].rows[r]| && m(ts[i].rows[r][c])
          && h == HitAt(ts[i], r, c, ts[i].rows[r][c])
      {
        if h !in TableHits(m, ts, k - 1) {
          var t := ts[k - 1];
          var r, c :| 0 <= r < |t.rows| && 0 <= c < |t.rows[r]| && m(t.rows[r][c]) && h == HitAt(t, r, c, t.rows[r][c]);
        }
      }
    }
  }

  /** The nested loops of `search`: tables, then rows, then cells, each
      match appended as it is found. */
  method Scan(m: Cell -> bool, ts: seq<StoredTable>) returns (results: seq<Hit>)
    requires AllFit(ts)
    ensures results == TableHits(m, ts, |ts|)
  {
    results := [];
    var i := 0;
    while i < |ts|
      invariant 0 <= i <= |ts|
      invariant results == TableHits(m, ts, i)
    {
      var t := ts[i];
      var r := 0;
      while r < |t.rows|
        invariant 0 <= r <= |t.rows|
        invariant results == TableHits(m, ts, i) + RowHits(m, t, r)
      {
        var row := t.rows[r];
        var c := 0;
        while c < |row|
          invariant 0 <= c <= |row|
          invariant results == TableHits(m, ts, i) + RowHits(m, t, r)
            + CellHits(m, t, r, c)
        {
          if m(row[c]) {
            results := results + [HitAt(t, r, c, row[c])];
          }
          c := c + 1;
        }
        r := r + 1;
      }
      i := i + 1;
    }
  }

  /** `search` finds exactly the matching cells of the tables searched:
      every result is the result for a cell of one of those tables whose
      value matches the query, and every matching cell is reported. */
  lemma HitsExactly(q: string, ts: seq<StoredTable>, floatRepr: real -> string)
    requires AllFit(ts)
    ensures forall h :: h in TableHits(MatchTest(q, floatRepr), ts, |ts|) ==>
      exists i, r, c :: 0 <= i < |ts| && 0 <= r < |ts[i].rows| && 0 <= c < |ts[i].rows[r]|
        && Matches(q, ts[i].rows[r][c], floatRepr) && h == HitAt(ts[i], r, c, ts[i].rows[r][c])
    ensures forall i, r, c ::
      (0 <= i < |ts| && 0 <= r < |ts[i].rows| && 0 <= c < |ts[i].rows[r]| && Matches(q, ts[i].rows[r][c], floatRepr)) ==>
        HitAt(ts[i], r, c, ts[i].rows[r][c]) in TableHits(MatchTest(q, floatRepr), ts, |ts|)
  {
    TableHitsExactly(MatchTest(q, floatRepr), ts, |ts|);
  }

  /** The query's letter case plays no part in whether a cell matches. */
  lemma QueryCaseIgnored(q: string, v: Cell, floatRepr: real -> string)
    ensures Matches(Upper(q), v, floatRepr) == Matches(q, v, floatRepr)
  {
    assert Lower(Upper(q)) == Lower(q);
  }

  /** The tables `search` looks at, or why it stops first: not connected,
      an empty (stripped) query, a database without tables, an answer `int()`
      refuses (a ValueError the command does not catch), or a number other
      than 0 (every table) or 1..n (that table). */
  function SearchTargets(connected: bool, store: Store, query: string, answer: string): (r: Step<seq<StoredTable>>)
    ensures r.Go? ==> connected && Trim(query) != "" && store != []
    ensures r.Go? <==>
      (connected && Trim(query) != "" && store != [] && ParseInt(answer).Some?
       && 0 <= ParseInt(answer).value <= |store|)
    ensures r.Go? && ParseInt(answer) == Some(0) ==> r.value == store
    ensures r.Go? && ParseInt(answer).value > 0 ==> r.value == [store[ParseInt(answer).value - 1]]
    ensures r.Stop? ==> r.outcome != Done
  {
    if !connected then Stop(Rejected(NotConnected))
    else if Trim(query) == "" then Stop(Rejected(EmptyQuery))
    else if store == [] then Stop(Rejected(NoTables))
    else
      match ParseInt(answer)
      case None => Stop(Crashed)
      case Some(k) =>
        if k == 0 then Go(store)
        else if 1 <= k <= |store| then Go([store[k - 1]])
        else Stop(Rejected(InvalidChoice))
  }

  // ---------------------------------------------------------------------
  // Database files
  // ---------------------------------------------------------------------

  /** `list_databases`: the directory entries ending in ".db", in listing
      order. */
  function DbFiles(listing: seq<string>): (r: seq<string>)
    ensures forall f :: f in r <==> f in listing && EndsWith(f, ".db")
    ensures |r| <= |listing|
  {
    if listing == [] then []
    else
      var n := |listing| - 1;
      var r := DbFiles(listing[..n]) + (if EndsWith(listing[n], ".db") then [listing[n]] else []);
      assert listing == listing[..n] + [listing[n]];
      r
  }

  /** `select_database` before connecting: no database files, an answer
      that is not a number (reported), or a number outside 1..n stop it;
      otherwise it names the chosen file. */
  function DatabaseChoice(listing: seq<string>, answer: string): (r: Step<string>)
    ensures r.Go? ==> r.value in DbFiles(listing) && r.value != ""
    ensures r.Go? <==> ParseInt(answer).Some? && 1 <= ParseInt(answer).value <= |DbFiles(listing)|
    ensures r.Stop? ==> r.outcome != Done
  {
    var dbs := DbFiles(listing);
    if dbs == [] then Stop(Rejected(NoDatabases))
    else
      match ParseInt(answer)
      case None => Stop(Rejected(InvalidAnswer))
      case Some(k) =>
        if 1 <= k <= |dbs| then
          assert dbs[k - 1] in dbs && EndsWith(dbs[k - 1], ".db");
          Go(dbs[k - 1])
        else Stop(Rejected(InvalidChoice))
  }

  /** `select_database` as a whole: the chosen file is connected to by
      name. */
  function SelectResult(l: Link, directory: string, listing: seq<string>, answer: string,
                        abspath: string -> string, existing: set<string>, opens: bool): (r: (Link, Outcome))
    ensures r.1 != Done ==> r.0 == l
    ensures r.1 == Done ==>
      exists f :: f in listing && EndsWith(f, ".db") && r.0.current == Some(JoinPath(directory, f))
  {
    match DatabaseChoice(listing, answer)
    case Stop(o) => (l, o)
    case Go(f) => ConnectResult(l, directory, Some(f), None, abspath, existing, opens)
  }

  // ---------------------------------------------------------------------
  // Deleting a database
  // ---------------------------------------------------------------------

  /** `delete_database` as written: the file inside the databases directory
      is removed, and the connection is closed when `current_database` equals
      the name typed. `current_database` holds the full path, so a connection
      to the deleted file stays open. */
  function DeleteAsWritten(l: Link, directory: string, name: string, files: set<string>, removable: bool)
    : (r: (Link, set<string>, Outcome))
    ensures r.2 != Done ==> r.0 == l && r.1 == files
    ensures r.2 == Done <==> JoinPath(directory, name) in files && removable
    ensures r.2 == Done ==> r.1 == files - {JoinPath(directory, name)}
  {
    var p := JoinPath(directory, name);
    if p !in files then (l, files, Rejected(FileNotFound))
    else if !removable then (l, files, Rejected(Raised))
    else (if l.current == Some(name) then Closed(l) else l, files - {p}, Done)
  }

  /** The comparison never succeeds for a connection made by name: deleting
      the connected database leaves the manager connected to a file that is
      gone. */
  lemma DeleteKeepsDanglingConnection(l: Link, directory: string, name: string, files: set<string>)
    requires directory != "" && name != "" && name[0] != '/'
    requires Coherent(l) && l.current == Some(JoinPath(directory, name)) && JoinPath(directory, name) in files
    ensures var r := DeleteAsWritten(l, directory, name, files, true);
      r.2 == Done && r.0 == l && r.0.connection.Some? && r.0.connection.value !in r.1
  {
    assert |JoinPath(directory, name)| > |name|;
  }

  /** `delete_database` comparing the connection with the path it removes. */
  function DeleteCorrected(l: Link, directory: string, name: string, files: set<string>, removable: bool)
    : (r: (Link, set<string>, Outcome))
    ensures r.2 != Done ==> r.0 == l && r.1 == files
    ensures r.2 == Done <==> JoinPath(directory, name) in files && removable
    ensures r.2 == Done ==> r.1 == files - {JoinPath(directory, name)}
  {
    var p := JoinPath(directory, name);
    if p !in files then (l, files, Rejected(FileNotFound))
    else if !removable then (l, files, Rejected(Raised))
    else (if l.current == Some(p) then Closed(l) else l, files - {p}, Done)
  }

  /** After the corrected delete, a manager connected to an existing file is
      still connected to an existing file, or not connected at all. */
  lemma DeleteLeavesNoDanglingConnection(l: Link, directory: string, name: string, files: set<string>, removable: bool)
    requires Coherent(l) && (l.connection.Some? ==> l.connection.value in files)
    ensures var r := DeleteCorrected(l, directory, name, files, removable);
      Coherent(r.0) && (r.0.connection.Some? ==> r.0.connection.value in r.1)
  {
  }

  /** The manager: its connection fields and the directory database names
      are resolved in. */
  class Database {
    var connection: Option<string>
    var cursor: bool
    var currentDatabase: Option<string>
    const directory: string

    function State(): Link
      reads this
    {
      Link(connection, cursor, currentDatabase)
    }

    /** A new manager is not connected. */
    constructor(directory: string)
      ensures this.directory == directory && !IsConnected() && Coherent(State())
    {
      this.directory := directory;
      connection := None;
      cursor := false;
      currentDatabase := None;
    }

    /** `is_connected`: a connection is set. */
    predicate IsConnected()
      reads this
    {
      connection.Some?
    }

    method Close()
      modifies this
      ensures State() == Closed(old(State()))
    {
      if connection.Some? {
        connection := None;
        cursor := false;
        currentDatabase := None;
      }
    }

    method Connect(dbName: Option<string>, dbPath: Option<string>, abspath: string -> string,
                   existing: set<string>, opens: bool) returns (out: Outcome)
      modifies this
      ensures (State(), out) == ConnectResult(old(State()), directory, dbName, dbPath, abspath, existing, opens)
    {
      var resolved: string;
      if dbPath.Some? && dbPath.value != "" {
        resolved := abspath(dbPath.value);
      } else if dbName.Some? && dbName.value != "" {
        resolved := JoinPath(directory, dbName.value);
      } else {
        return Rejected(NoDatabaseName);
      }
      if resolved !in existing {
        return Rejected(FileNotFound);
      }
      if !opens {
        return Rejected(Raised);
      }
      connection := Some(resolved);
      cursor := true;
      currentDatabase := Some(resolved);
      out := Done;
    }

    /** `search`, with the open database's tables as `store`: the results
        are the matching cells of the chosen tables, in table, row and column
        order. The manager is not changed. */
    method Search(store: Store, query: string, answer: string, floatRepr: real -> string)
      returns (out: Outcome, results: seq<Hit>)
      requires WellStored(store)
      ensures match SearchTargets(IsConnected(), store, query, answer)
        case Stop(o) => out == o && results == []
        case Go(ts) => out == Done && AllFit(ts) && results == TableHits(MatchTest(Trim(query), floatRepr), ts, |ts|)
    {
      var targets := SearchTargets(connection.Some?, store, query, answer);
      if targets.Stop? {
        return targets.outcome, [];
      }
      var ts := targets.value;
      assert AllFit(ts) by {
        forall i | 0 <= i < |ts| ensures Fits(ts[i]) {
          assert ts[i] in store;
        }
      }
      results := Scan(MatchTest(Trim(query), floatRepr), ts);
      out := Done;
    }

    /** `select_database`, with the directory listing and the answer as
        parameters. */
    method SelectDatabase(listing: seq<string>, answer: string, abspath: string -> string,
                          existing: set<string>, opens: bool) returns (out: Outcome)
      modifies this
      ensures (State(), out) == SelectResult(old(State()), directory, listing, answer, abspath, existing, opens)
    {
      var dbs := DbFiles(listing);
      if dbs == [] {
        return Rejected(NoDatabases);
      }
      var k := ParseInt(answer);
      if k.None? {
        return Rejected(InvalidAnswer);
      }
      if 1 <= k.value <= |dbs| {
        out := Connect(Some(dbs[k.value - 1]), None, abspath, existing, opens);
      } else {
        out := Rejected(InvalidChoice);
      }
    }

    /** `delete_database` as written; `files` are the existing paths and
        `removable` says whether `os.remove` succeeds. */
    method DeleteDatabase(name: string, files: set<string>, removable: bool) returns (out: Outcome, after: set<string>)
      modifies this
      ensures (State(), after, out) == DeleteAsWritten(old(State()), directory, name, files, removable)
    {
      var p := JoinPath(directory, name);
      if p !in files {
        return Rejected(FileNotFound), files;
      }
      if !removable {
        return Rejected(Raised), files;
      }
      after := files - {p};
      if currentDatabase == Some(name) {
        Close();
      }
      out := Done;
    }

    /** `delete_database` closing the connection to the file it removes. */
    method DeleteDatabaseCorrected(name: string, files: set<string>, removable: bool)
      returns (out: Outcome, after: set<string>)
      modifies this
      ensures (State(), after, out) == DeleteCorrected(old(State()), directory, name, files, removable)
    {
      var p := JoinPath(directory, name);
      if p !in files {
        return Rejected(FileNotFound), files;
      }
      if !removable {
        return Rejected(Raised), files;
      }
      after := files - {p};
      if currentDatabase == Some(p) {
        Close();
      }
      out := Done;
    }
  }
}
