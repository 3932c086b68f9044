/** The grid normalisers every loader and exporter shares. A loader turns a
    grid (a list of lists, the first one the header) into typed columns and
    row dictionaries, either by zipping header and row (the CSV loader: short
    rows leave keys missing, extra cells are dropped) or by padding missing
    trailing cells with "" (the spreadsheet and PDF loaders). An exporter
    projects the rows back into `[header] + rows` by column name. */
module Sheets {
  import opened Values
  import opened TableState

  /** A sheet as a library hands it over or takes it: rows of cells. */
  type Grid = seq<seq<Cell>>

  /** No name occurs twice. */
  predicate Distinct(names: seq<string>)
  {
    forall i, j :: 0 <= i < j < |names| ==> names[i] != names[j]
  }

  /** Position `i` holds the last occurrence of its name. */
  predicate LastOf(names: seq<string>, i: int)
    requires 0 <= i < |names|
  {
    forall j :: i < j < |names| ==> names[j] != names[i]
  }

  /** A dict comprehension over equally long keys and values, filled left to
      right, so that a later duplicate key overwrites an earlier one. */
  function Assoc(names: seq<string>, cells: seq<Cell>): Row
    requires |names| == |cells|
  {
    if names == [] then map[]
    else
      var m := |names| - 1;
      Assoc(names[..m], cells[..m])[names[m] := cells[m]]
  }

  function Min(a: nat, b: nat): nat { if a < b then a else b }

  /** `{col: value for col, value in zip(names, cells)}`: pairs only up to
      the shorter of the two. */
  function ZipRow(names: seq<string>, cells: seq<Cell>): Row
  {
    var n := Min(|names|, |cells|);
    Assoc(names[..n], cells[..n])
  }

  /** `[row[i] if i < len(row) else "" for i in range(n)]`. */
  function PadCells(cells: seq<Cell>, n: nat): (r: seq<Cell>)
    ensures |r| == n
  {
    seq(n, i requires 0 <= i < n => if i < |cells| then cells[i] else S(""))
  }

  /** `{col: row[i] if i < len(row) else "" for i, col in enumerate(names)}`. */
  function PaddedRow(names: seq<string>, cells: seq<Cell>): Row
  {
    Assoc(names, PadCells(cells, |names|))
  }

  /** Header cells that are text, so that they can serve as column names. */
  predicate TextHeader(header: seq<Cell>)
  {
    forall i :: 0 <= i < |header| ==> header[i].S?
  }

  function HeaderNames(header: seq<Cell>): (names: seq<string>)
    requires TextHeader(header)
    ensures |names| == |header|
  {
    seq(|header|, i requires 0 <= i < |header| => header[i].text)
  }

  /** `[{"name": col, "type": "str"} for col in header]`. */
  function StrColumns(names: seq<string>): (cols: seq<Column>)
    ensures |cols| == |names|
  {
    seq(|names|, i requires 0 <= i < |names| => Column(names[i], "str"))
  }

  /** The data rows of a padding loader. */
  function PaddedRows(names: seq<string>, body: Grid): (rows: seq<Row>)
    ensures |rows| == |body|
  {
    seq(|body|, i requires 0 <= i < |body| => PaddedRow(names, body[i]))
  }

  /** The data rows of the zipping loader. */
  function ZippedRows(names: seq<string>, body: Grid): (rows: seq<Row>)
    ensures |rows| == |body|
  {
    seq(|body|, i requires 0 <= i < |body| => ZipRow(names, body[i]))
  }

  /** One exported row: `[row.get(name, "") for name in names]`. */
  function ExportRow(cols: seq<Column>, row: Row): (cells: seq<Cell>)
    ensures |cells| == |cols|
  {
    seq(|cols|, j requires 0 <= j < |cols| => Get(row, cols[j].name, S("")))
  }

  /** The exported sheet: the column names, then each row projected onto
      them, in table order. */
  function ExportGrid(cols: seq<Column>, rows: seq<Row>): (g: Grid)
    ensures |g| == |rows| + 1
  {
    [seq(|cols|, j requires 0 <= j < |cols| => S(cols[j].name))]
      + seq(|rows|, i requires 0 <= i < |rows| => ExportRow(cols, rows[i]))
  }

  /** The table a padding loader builds from a grid with a text header: the
      header cells as "str" columns. */
  function PaddedColumns(grid: Grid): (cols: seq<Column>)
    requires grid != [] && TextHeader(grid[0])
    ensures |cols| == |grid[0]|
  {
    StrColumns(HeaderNames(grid[0]))
  }

  /** ... and every later row padded against the header. */
  function PaddedBody(grid: Grid): (rows: seq<Row>)
    requires grid != [] && TextHeader(grid[0])
    ensures |rows| == |grid| - 1
  {
    PaddedRows(HeaderNames(grid[0]), grid[1..])
  }

  /** The file name question of the savers that lowercase the answer: "y"
      takes the table name, "n" asks for a name; the extension is appended.
      A cancelled answer reaches `.lower()` (or `.strip()`) on None, and so
      does a cancelled file name: both raise out of the command. */
  function SaveFileName(tableName: string, answer: Option<string>, fileAnswer: Option<string>, ext: string)
    : (r: Step<string>)
    ensures r.Go? ==> EndsWith(r.value, ext)
    ensures r.Go? ==> answer.Some? && Lower(answer.value) in {"y", "n"}
    ensures r.Go? && Lower(answer.value) == "y" ==> r.value == tableName + ext
    ensures r.Stop? ==> r.outcome == Crashed || r.outcome == Rejected(InvalidChoice)
  {
    if answer.None? then Stop(Crashed)
    else if Lower(answer.value) == "y" then Go(tableName + ext)
    else if Lower(answer.value) == "n" then
      (if fileAnswer.None? then Stop(Crashed) else Go(fileAnswer.value + ext))
    else Stop(Rejected(InvalidChoice))
  }

  // ---------------------------------------------------------------------
  // Facts about the normalisers
  // ---------------------------------------------------------------------

  /** The keys of a comprehension are exactly the names, and the last
      occurrence of a name decides its value. */
  lemma {:induction false} AssocFacts(names: seq<string>, cells: seq<Cell>)
    requires |names| == |cells|
    ensures forall k :: k in Assoc(names, cells) <==> k in names
    ensures forall i :: 0 <= i < |names| && LastOf(names, i) ==> Assoc(names, cells)[names[i]] == cells[i]
  {
    if names != [] {
      var m := |names| - 1;
      AssocFacts(names[..m], cells[..m]);
      assert names == names[..m] + [names[m]];
      forall i | 0 <= i < |names| && LastOf(names, i)
        ensures Assoc(names, cells)[names[i]] == cells[i]
      {
        if i < m {
          assert names[..m][i] == names[i];
          assert LastOf(names[..m], i);
        }
      }
    }
  }

  /** Every value of a comprehension is one of its cells. */
  lemma {:induction false} AssocValues(names: seq<string>, cells: seq<Cell>)
    requires |names| == |cells|
    ensures forall k :: k in Assoc(names, cells) ==> Assoc(names, cells)[k] in cells
  {
    if names != [] {
      var m := |names| - 1;
      AssocValues(names[..m], cells[..m]);
      forall k | k in Assoc(names, cells) ensures Assoc(names, cells)[k] in cells {
        if k != names[m] {
          var v := Assoc(names[..m], cells[..m])[k];
          assert v in cells[..m];
          var i :| 0 <= i < m && cells[..m][i] == v;
          assert cells[i] == v;
        }
      }
    }
  }

  /** Zipping text cells gives a row whose values are all text. */
  lemma ZipRowOfText(names: seq<string>, cells: seq<Cell>)
    requires forall i :: 0 <= i < |cells| ==> cells[i].S?
    ensures forall k :: k in ZipRow(names, cells) ==> ZipRow(names, cells)[k].S?
  {
    var n := Min(|names|, |cells|);
    AssocValues(names[..n], cells[..n]);
    forall k | k in ZipRow(names, cells) ensures ZipRow(names, cells)[k].S? {
      var v := ZipRow(names, cells)[k];
      var i :| 0 <= i < n && cells[..n][i] == v;
      assert cells[i] == v;
    }
  }

  /** A zipped row has a key for each name that has a cell, and no other. */
  lemma ZipRowKeys(names: seq<string>, cells: seq<Cell>)
    ensures forall k :: k in ZipRow(names, cells) <==> k in names[..Min(|names|, |cells|)]
  {
    var n := Min(|names|, |cells|);
    AssocFacts(names[..n], cells[..n]);
  }

  /** Each name that has a cell and does not recur later maps to its cell. */
  lemma ZipRowValues(names: seq<string>, cells: seq<Cell>, i: int)
    requires 0 <= i < |names| && i < |cells| && LastOf(names, i)
    ensures names[i] in ZipRow(names, cells) && ZipRow(names, cells)[names[i]] == cells[i]
  {
    var n := Min(|names|, |cells|);
    AssocFacts(names[..n], cells[..n]);
    assert names[..n][i] == names[i];
    assert LastOf(names[..n], i);
  }

  /** A padded row has exactly the names as keys, and a name that does not
      recur later maps to its cell when the row has one and to "" otherwise. */
  lemma PaddedRowFacts(names: seq<string>, cells: seq<Cell>)
    ensures forall k :: k in PaddedRow(names, cells) <==> k in names
    ensures forall i :: 0 <= i < |names| && LastOf(names, i) ==>
      PaddedRow(names, cells)[names[i]] == (if i < |cells| then cells[i] else S(""))
  {
    AssocFacts(names, PadCells(cells, |names|));
  }

  lemma StrColumnsNames(names: seq<string>)
    ensures Names(StrColumns(names)) == names
    ensures forall k :: k in NameSet(StrColumns(names)) <==> k in names
  {
    var cols := StrColumns(names);
    forall k | k in names ensures k in NameSet(cols) {
      var i :| 0 <= i < |names| && names[i] == k;
      assert cols[i].name == k;
    }
  }

  /** Every row a padding loader builds has exactly the header names as
      keys: the "keys match the columns" invariant holds after loading. */
  lemma PaddedRowsKeysMatch(names: seq<string>, body: Grid)
    ensures KeysMatch(StrColumns(names), PaddedRows(names, body))
  {
    StrColumnsNames(names);
    var cols, rows := StrColumns(names), PaddedRows(names, body);
    forall i | 0 <= i < |rows| ensures rows[i].Keys == NameSet(cols) {
      PaddedRowFacts(names, body[i]);
    }
  }

  /** The zipping loader establishes the invariant when no data row is
      shorter than the header. */
  lemma ZippedRowsKeysMatch(names: seq<string>, body: Grid)
    requires forall i :: 0 <= i < |body| ==> |names| <= |body[i]|
    ensures KeysMatch(StrColumns(names), ZippedRows(names, body))
  {
    StrColumnsNames(names);
    var cols, rows := StrColumns(names), ZippedRows(names, body);
    forall i | 0 <= i < |rows| ensures rows[i].Keys == NameSet(cols) {
      ZipRowKeys(names, body[i]);
      assert names[..Min(|names|, |body[i]|)] == names;
    }
  }

  /** A name past the end of a short row, not repeated among the earlier
      header names, is absent from the zipped row: it is missing, not "". */
  lemma ShortRowMissesKey(names: seq<string>, cells: seq<Cell>, i: int)
    requires |cells| <= i < |names| && names[i] !in names[..|cells|]
    ensures names[i] !in ZipRow(names, cells)
  {
    ZipRowKeys(names, cells);
  }

  /** So with a short row the invariant fails: a header "a","b" over the
      row "1" leaves "b" out. */
  lemma ShortRowBreaksKeysMatch()
    ensures !KeysMatch(StrColumns(["a", "b"]), ZippedRows(["a", "b"], [[S("1")]]))
  {
    var names: seq<string> := ["a", "b"];
    var cells: seq<Cell> := [S("1")];
    assert names[..|cells|] == ["a"];
    ShortRowMissesKey(names, cells, 1);
    assert ZippedRows(names, [cells])[0] == ZipRow(names, cells);
    assert StrColumns(names)[1].name == "b";
    assert "b" in NameSet(StrColumns(names));
  }

  /** Cells past the header are dropped, and with a duplicated header name
      the later cell wins. */
  lemma ZipDropsExtraAndLaterWins()
    ensures ZipRow(["a"], [S("1"), S("2")]) == map["a" := S("1")]
    ensures ZipRow(["a", "a"], [S("1"), S("2")]) == map["a" := S("2")]
  {
    var one: seq<string> := ["a"];
    var first: seq<Cell> := [S("1")];
    var both: seq<Cell> := [S("1"), S("2")];
    assert both[..1] == first;
    assert Assoc(one, first) == Assoc([], [])["a" := S("1")];
    var two: seq<string> := ["a", "a"];
    assert two[..2] == two && both[..2] == both;
    assert two[..1] == one && both[..1] == first;
    assert Assoc(two, both) == Assoc(one, first)["a" := S("2")];
  }

  /** Re-assembling a projected row gives the row back, when the names are
      distinct and are exactly the row's keys. */
  lemma {:induction false} AssocOfProjection(cols: seq<Column>, row: Row)
    requires DistinctNames(cols) && row.Keys == NameSet(cols)
    ensures Assoc(Names(cols), ExportRow(cols, row)) == row
  {
    var names, cells := Names(cols), ExportRow(cols, row);
    var a := Assoc(names, cells);
    assert forall k :: k in row ==> k in a && a[k] == row[k] by {
      AssocFacts(names, cells);
      forall k | k in row ensures k in a && a[k] == row[k] {
        assert k in NameSet(cols);
        var i :| 0 <= i < |cols| && cols[i].name == k;
        ProjectionAt(cols, row, i);
      }
    }
    assert forall k :: k in a ==> k in row by {
      AssocFacts(names, cells);
      forall k | k in a ensures k in row {
        NamesMembership(cols, k);
      }
    }
  }

  /** The i-th exported cell of a row holding the i-th column's key is that
      key's value, and with distinct names that key occurs last at i. */
  lemma ProjectionAt(cols: seq<Column>, row: Row, i: int)
    requires DistinctNames(cols) && 0 <= i < |cols| && cols[i].name in row
    ensures Names(cols)[i] == cols[i].name && cols[i].name in Names(cols)
    ensures LastOf(Names(cols), i)
    ensures ExportRow(cols, row)[i] == row[cols[i].name]
  {
    var names := Names(cols);
    forall j | i < j < |names| ensures names[j] != names[i] {
      assert names[j] == cols[j].name;
    }
  }

  /** Loading an exported sheet with the padding loader gives back the
      column names and every row: export and load are inverse on tables whose
      names are distinct and whose rows have exactly the column keys. */
  lemma ExportThenLoad(cols: seq<Column>, rows: seq<Row>)
    requires DistinctNames(cols) && KeysMatch(cols, rows)
    ensures TextHeader(ExportGrid(cols, rows)[0])
    ensures HeaderNames(ExportGrid(cols, rows)[0]) == Names(cols)
    ensures PaddedRows(Names(cols), ExportGrid(cols, rows)[1..]) == rows
  {
    var g := ExportGrid(cols, rows);
    var names := Names(cols);
    assert HeaderNames(g[0]) == names;
    forall i | 0 <= i < |rows| ensures PaddedRows(names, g[1..])[i] == rows[i] {
      assert g[1..][i] == ExportRow(cols, rows[i]);
      assert PadCells(ExportRow(cols, rows[i]), |names|) == ExportRow(cols, rows[i]);
      AssocOfProjection(cols, rows[i]);
    }
  }

  /** The padding loader reads an exported sheet back as the same table:
      the header names as "str" columns and every row unchanged. */
  lemma PaddedLoadOfExport(cols: seq<Column>, rows: seq<Row>)
    requires DistinctNames(cols) && KeysMatch(cols, rows)
    ensures TextHeader(ExportGrid(cols, rows)[0])
    ensures PaddedColumns(ExportGrid(cols, rows)) == StrColumns(Names(cols))
    ensures PaddedBody(ExportGrid(cols, rows)) == rows
  {
    ExportThenLoad(cols, rows);
  }

  /** A padding load establishes "every row has exactly the column keys",
      with the header names as the column names. */
  lemma PaddedLoadKeysMatch(grid: Grid)
    requires grid != [] && TextHeader(grid[0])
    ensures KeysMatch(PaddedColumns(grid), PaddedBody(grid))
    ensures Names(PaddedColumns(grid)) == HeaderNames(grid[0])
  {
    PaddedRowsKeysMatch(HeaderNames(grid[0]), grid[1..]);
    StrColumnsNames(HeaderNames(grid[0]));
  }

  /** The exported cell is the row's value under the column name, or "" when
      the row lacks it. */
  lemma ExportCell(cols: seq<Column>, rows: seq<Row>, i: int, j: int)
    requires 0 <= i < |rows| && 0 <= j < |cols|
    ensures |ExportGrid(cols, rows)[i + 1]| == |cols|
    ensures ExportGrid(cols, rows)[i + 1][j] ==
      (if cols[j].name in rows[i] then rows[i][cols[j].name] else S(""))
    ensures ExportGrid(cols, rows)[0][j] == S(cols[j].name)
  {
  }
}
