/** The in-memory table: a name, an ordered list of typed columns, a list of
    rows (each a dictionary from column name to cell) and the flag that says
    whether the current contents have been saved. */
module TableState {
  import opened Values

  /** A column record `{"name": …, "type": …}`. The type is kept as the text
      the program stores, so that a type outside the four known ones (which
      the SQL export refuses) can be represented. */
  datatype Column = Column(name: string, ctype: string)

  /** A row dictionary. */
  type Row = map<string, Cell>

  /** The four column types, in the order the type menus number them. */
  const Types: seq<string> := ["int", "float", "str", "bool"]

  /** The column names in order: `[col["name"] for col in columns]`. */
  function Names(cols: seq<Column>): (ns: seq<string>)
    ensures |ns| == |cols|
    ensures forall i :: 0 <= i < |cols| ==> ns[i] == cols[i].name
  {
    if cols == [] then [] else [cols[0].name] + Names(cols[1..])
  }

  function NameSet(cols: seq<Column>): set<string>
  {
    set i | 0 <= i < |cols| :: cols[i].name
  }

  /** `row.get(key, default)`. */
  function Get(row: Row, key: string, default: Cell): Cell
  {
    if key in row then row[key] else default
  }

  predicate DistinctNames(cols: seq<Column>)
  {
    forall i, j :: 0 <= i < j < |cols| ==> cols[i].name != cols[j].name
  }

  /** Every row has exactly the current column names as keys. The edit
      operations keep this, the padding loaders establish it, and the CSV
      loader establishes it only when no data row is shorter than the
      header. */
  predicate KeysMatch(cols: seq<Column>, rows: seq<Row>)
  {
    forall i :: 0 <= i < |rows| ==> rows[i].Keys == NameSet(cols)
  }

  /** Every row has at least the current column names as keys (what the
      cell listing of `edit_cell` needs to avoid a KeyError). */
  predicate KeysCover(cols: seq<Column>, rows: seq<Row>)
  {
    forall i, c :: 0 <= i < |rows| && 0 <= c < |cols| ==> cols[c].name in rows[i]
  }

  lemma NamesMembership(cols: seq<Column>, n: string)
    ensures n in Names(cols) <==> n in NameSet(cols)
  {
    if n in Names(cols) {
      var i :| 0 <= i < |Names(cols)| && Names(cols)[i] == n;
      assert cols[i].name == n;
    }
    if n in NameSet(cols) {
      var i :| 0 <= i < |cols| && cols[i].name == n;
      assert Names(cols)[i] == n;
    }
  }

  /** The names of a non-empty column list: the first one and the rest. */
  lemma NameSetCons(cols: seq<Column>)
    requires cols != []
    ensures NameSet(cols) == {cols[0].name} + NameSet(cols[1..])
  {
    forall n | n in NameSet(cols) ensures n in {cols[0].name} + NameSet(cols[1..]) {
      var i :| 0 <= i < |cols| && cols[i].name == n;
      if i > 0 { assert cols[1..][i - 1] == cols[i]; }
    }
    forall n | n in NameSet(cols[1..]) ensures n in NameSet(cols) {
      var i :| 0 <= i < |cols[1..]| && cols[1..][i].name == n;
      assert cols[i + 1] == cols[1..][i];
    }
  }

  /** With distinct names, the first name does not recur and the rest are
      distinct. */
  lemma DistinctTail(cols: seq<Column>)
    requires cols != [] && DistinctNames(cols)
    ensures cols[0].name !in NameSet(cols[1..])
    ensures DistinctNames(cols[1..])
  {
    forall i | 0 <= i < |cols[1..]| ensures cols[1..][i].name != cols[0].name {
      assert cols[1..][i] == cols[i + 1];
    }
    forall i, j | 0 <= i < j < |cols[1..]| ensures cols[1..][i].name != cols[1..][j].name {
      assert cols[1..][i] == cols[i + 1] && cols[1..][j] == cols[j + 1];
    }
  }

  /** The four fields of a builder as one value, for specifying operations
      that run several steps on the same builder. */
  datatype Snapshot = Snapshot(name: string, columns: seq<Column>, rows: seq<Row>, saved: bool)

  class TableBuilder {
    var name: string
    var columns: seq<Column>
    var rows: seq<Row>
    var saved: bool

    /** A fresh builder: empty `table_data` and `table_saved` false. */
    constructor (name: string)
      ensures this.name == name
      ensures columns == [] && rows == [] && !saved
      ensures WellFormed()
    {
      this.name := name;
      columns := [];
      rows := [];
      saved := false;
    }

    function Snap(): (s: Snapshot)
      reads this
      ensures s.name == name && s.columns == columns && s.rows == rows && s.saved == saved
    {
      Snapshot(name, columns, rows, saved)
    }

    predicate WellFormed()
      reads this
    {
      KeysMatch(columns, rows)
    }
  }
}
