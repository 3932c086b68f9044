/** The SQLite database as the program sees it: an ordered list of tables
    (the order `sqlite_master` lists them in), each with its declared columns
    and its rows of values. SQL itself is not modelled; each statement the
    program issues is one function on this store. */
module SqlStore {
  import opened Values

  /** A column as `PRAGMA table_info` reports it: name and declared type. */
  datatype SqlColumn = SqlColumn(name: string, sqlType: string)

  datatype StoredTable = StoredTable(name: string, columns: seq<SqlColumn>, rows: seq<seq<Cell>>)

  type Store = seq<StoredTable>

  /** `[row[0] for row in cursor.fetchall()]` after
      `SELECT name FROM sqlite_master WHERE type='table'`. */
  function TableNames(store: Store): (names: seq<string>)
    ensures |names| == |store|
    ensures forall i :: 0 <= i < |store| ==> names[i] == store[i].name
  {
    seq(|store|, i requires 0 <= i < |store| => store[i].name)
  }

  /** SQLite compares table names without regard to ASCII case. */
  predicate SameSqlName(a: string, b: string)
  {
    Lower(a) == Lower(b)
  }

  /** `CREATE TABLE` under this name would clash with an existing table. */
  predicate NameTaken(store: Store, name: string)
  {
    exists i :: 0 <= i < |store| && SameSqlName(store[i].name, name)
  }

  /** What SQLite guarantees of every database: no two tables share a name
      (ignoring case), and every row has one value per declared column. */
  predicate WellStored(store: Store)
  {
    (forall i, j :: 0 <= i < j < |store| ==> !SameSqlName(store[i].name, store[j].name))
    && (forall i, r :: 0 <= i < |store| && 0 <= r < |store[i].rows| ==>
          |store[i].rows[r]| == |store[i].columns|)
  }

  /** `DROP TABLE "name"`: the table with that name goes, the others stay in
      order. */
  function DropTable(store: Store, name: string): (r: Store)
    ensures |r| <= |store|
  {
    if store == [] then []
    else (if SameSqlName(store[0].name, name) then [] else [store[0]]) + DropTable(store[1..], name)
  }

  /** After a drop no table answers to the name, and every other table is
      still there. */
  lemma {:induction false} DropTableFacts(store: Store, name: string)
    ensures forall t :: t in DropTable(store, name) <==> t in store && !SameSqlName(t.name, name)
    ensures !NameTaken(DropTable(store, name), name)
  {
    if store != [] {
      DropTableFacts(store[1..], name);
      assert store == [store[0]] + store[1..];
    }
    var r := DropTable(store, name);
    forall i | 0 <= i < |r| ensures !SameSqlName(r[i].name, name) {
      assert r[i] in r;
    }
  }

  /** The tables after the first of a well-formed store are well formed. */
  lemma WellStoredTail(store: Store)
    requires WellStored(store) && store != []
    ensures WellStored(store[1..])
  {
    var tail := store[1..];
    forall i, j | 0 <= i < j < |tail| ensures !SameSqlName(tail[i].name, tail[j].name) {
      assert tail[i] == store[i + 1] && tail[j] == store[j + 1];
    }
    forall i, r | 0 <= i < |tail| && 0 <= r < |tail[i].rows|
      ensures |tail[i].rows[r]| == |tail[i].columns|
    {
      assert tail[i] == store[i + 1];
    }
  }

  /** Creating a table under a free name, with one value per column in
      every row, keeps the database well formed. */
  lemma WellStoredSnoc(store: Store, t: StoredTable)
    requires WellStored(store) && !NameTaken(store, t.name)
    requires forall r :: 0 <= r < |t.rows| ==> |t.rows[r]| == |t.columns|
    ensures WellStored(store + [t])
  {
    var s := store + [t];
    forall i, j | 0 <= i < j < |s| ensures !SameSqlName(s[i].name, s[j].name) {
      assert s[i] == store[i];
      if j < |store| {
        assert s[j] == store[j];
      } else {
        assert s[j] == t;
      }
    }
    forall i, r | 0 <= i < |s| && 0 <= r < |s[i].rows| ensures |s[i].rows[r]| == |s[i].columns| {
      if i < |store| { assert s[i] == store[i]; }
    }
  }

  /** A well-formed table in front of a well-formed store whose names all
      differ from its own gives a well-formed store. */
  lemma WellStoredCons(t: StoredTable, rest: Store)
    requires WellStored(rest) && WellStored([t])
    requires forall k :: 0 <= k < |rest| ==> !SameSqlName(t.name, rest[k].name)
    ensures WellStored([t] + rest)
  {
    var s := [t] + rest;
    forall i, j | 0 <= i < j < |s| ensures !SameSqlName(s[i].name, s[j].name) {
      assert s[j] == rest[j - 1];
      if i > 0 {
        assert s[i] == rest[i - 1];
      }
    }
    forall i, r | 0 <= i < |s| && 0 <= r < |s[i].rows| ensures |s[i].rows[r]| == |s[i].columns| {
      if i > 0 {
        assert s[i] == rest[i - 1];
      }
    }
  }

  /** Dropping a table keeps the store well formed. */
  lemma {:induction false} DropKeepsWellStored(store: Store, name: string)
    requires WellStored(store)
    ensures WellStored(DropTable(store, name))
  {
    if store != [] {
      var tail := store[1..];
      WellStoredTail(store);
      DropKeepsWellStored(tail, name);
      DropTableFacts(tail, name);
      var rest := DropTable(tail, name);
      if !SameSqlName(store[0].name, name) {
        forall k | 0 <= k < |rest| ensures !SameSqlName(store[0].name, rest[k].name) {
          assert rest[k] in tail;
          var j :| 0 <= j < |tail| && tail[j] == rest[k];
          assert tail[j] == store[j + 1];
        }
        assert WellStored([store[0]]) by {
          forall r | 0 <= r < |store[0].rows| ensures |store[0].rows[r]| == |store[0].columns| {
          }
        }
        WellStoredCons(store[0], rest);
      }
    }
  }
}
