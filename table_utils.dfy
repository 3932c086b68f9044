/** The prompt rule shared by every interactive operation, the value
    classifier used by type inference, and the in-place relabelling of
    column types from the first row that holds data. */
module TableUtils {
  import opened Values
  import opened TableState

  // ---------------------------------------------------------------------
  // get_user_input
  // ---------------------------------------------------------------------

  /** The answer to a prompt as the operations see it: the console line
      stripped, or None when the stripped line is "/cancel". */
  function GetUserInput(raw: string): (r: Option<string>)
    ensures r.None? <==> Trim(raw) == "/cancel"
    ensures r.Some? ==> r.value == Trim(raw)
  {
    var t := Trim(raw);
    if t == "/cancel" then None else Some(t)
  }

  /** An answer that reaches an operation is already stripped, so the extra
      `.strip()` several operations apply to it changes nothing. */
  lemma AnswersAreStripped(raw: string)
    ensures GetUserInput(raw).Some? ==> Trim(GetUserInput(raw).value) == GetUserInput(raw).value
  {
    TrimIdempotent(raw);
  }

  // ---------------------------------------------------------------------
  // infer_data_type
  // ---------------------------------------------------------------------

  /** `re.fullmatch(r"-?\d+", s)` (ASCII digits). */
  predicate IsIntText(s: string)
  {
    IsDigits(s) || (|s| > 1 && s[0] == '-' && IsDigits(s[1..]))
  }

  /** `re.fullmatch(r"-?\d+\.\d+", s)` (ASCII digits). */
  predicate IsFloatText(s: string)
  {
    exists k | 0 <= k < |s| :: s[k] == '.' && IsIntText(s[..k]) && IsDigits(s[k + 1..])
  }

  /** `s.lower() in {"true", "false"}`. */
  predicate IsBoolWord(s: string)
  {
    (|s| == 4 && Lower(s) == "true") || (|s| == 5 && Lower(s) == "false")
  }

  /** The tests of `infer_data_type` on an already stripped value: bool,
      then int, then float, and str otherwise. */
  function Classify(v: string): (t: string)
    ensures t in Types
  {
    if IsBoolWord(v) then "bool"
    else if IsIntText(v) then "int"
    else if IsFloatText(v) then "float"
    else "str"
  }

  /** `infer_data_type`: strip the value, then classify it. */
  function InferDataType(value: string): (t: string)
    ensures t in Types
  {
    Classify(Trim(value))
  }

  /** Surrounding whitespace never changes the classification. */
  lemma InferIgnoresPadding(value: string)
    ensures InferDataType(Trim(value)) == InferDataType(value)
  {
    TrimIdempotent(value);
  }

  lemma BoolWordIsNotNumeric(s: string)
    requires IsBoolWord(s)
    ensures !IsIntText(s) && !IsDigits(s)
  {
    assert |Lower(s)| == |s|;
    assert LowerChar(s[0]) == 't' || LowerChar(s[0]) == 'f';
  }

  /** A value is labelled int exactly when Python's `int()` accepts it, it
      does not start with '+' and it holds no '_': the classifier and the
      parser agree up to the explicit plus sign and digit grouping. */
  lemma InferIntMatchesParseInt(value: string)
    ensures InferDataType(value) == "int"
        <==> ParseInt(value).Some? && Trim(value)[0] != '+' && '_' !in Trim(value)
  {
    var v := Trim(value);
    if IsBoolWord(v) {
      BoolWordIsNotNumeric(v);
    }
    if IsDigits(v) {
      DigitsAreNumeral(v);
      assert '_' !in v by { forall k | 0 <= k < |v| ensures v[k] != '_' { assert IsDigit(v[k]); } }
    } else if |v| > 1 && v[0] == '-' && IsDigits(v[1..]) {
      DigitsAreNumeral(v[1..]);
      assert '_' !in v by {
        forall k | 0 <= k < |v| ensures v[k] != '_' {
          if k > 0 { assert v[k] == v[1..][k - 1]; assert IsDigit(v[1..][k - 1]); }
        }
      }
    }
    if ParseInt(value).Some? && v[0] != '+' && '_' !in v {
      NumeralWithoutUnderscore(v);
      if |v| > 1 { NumeralWithoutUnderscore(v[1..]); assert '_' !in v[1..] by { forall k | 0 <= k < |v[1..]| ensures v[1..][k] != '_' { assert v[1..][k] == v[k + 1]; } } }
    }
  }

  lemma SolidValue(s: string)
    requires s == [] || (!IsSpace(s[0]) && !IsSpace(s[|s| - 1]))
    ensures InferDataType(s) == Classify(s)
  {
  }

  lemma DigitIsSolid(d: string, k: int)
    requires IsDigits(d) && 0 <= k < |d|
    ensures d[k] != '.' && d[k] != '-' && !IsSpace(d[k])
  {
    assert IsDigit(d[k]);
  }

  lemma IntTextHasNoPoint(a: string, k: int)
    requires IsIntText(a) && 0 <= k < |a|
    ensures a[k] != '.' && !IsSpace(a[k])
  {
    if !IsDigits(a) && k > 0 {
      assert a[k] == a[1..][k - 1];
      DigitIsSolid(a[1..], k - 1);
    } else if IsDigits(a) {
      DigitIsSolid(a, k);
    }
  }

  lemma PointIsNotBoolWord(s: string, k: int)
    requires 0 <= k < |s| && s[k] == '.'
    ensures !IsBoolWord(s)
  {
    assert Lower(s)[k] == '.';
    if |s| == 4 { assert "true"[k] != '.'; }
    if |s| == 5 { assert "false"[k] != '.'; }
  }

  lemma PointIsNotIntText(s: string, k: int)
    requires 0 <= k < |s| && s[k] == '.'
    ensures !IsIntText(s)
  {
    assert !IsDigit(s[k]);
    if |s| > 1 && s[0] == '-' && k >= 1 {
      assert s[1..][k - 1] == '.';
    }
  }

  /** A bool word in capitals is a bool. */
  lemma UpperBoolWordIsBool()
    ensures InferDataType("TRUE") == "bool"
  {
    assert Trim("TRUE") == "TRUE" by { assert !IsSpace('T') && !IsSpace('E'); }
    assert Lower("TRUE") == "true";
  }

  /** An optional minus followed by digits is an int. */
  lemma NegativeDigitsIsInt(d: string)
    requires IsDigits(d)
    ensures InferDataType("-" + d) == "int"
  {
    var s := "-" + d;
    DigitIsSolid(d, |d| - 1);
    assert s[|s| - 1] == d[|d| - 1];
    SolidValue(s);
    assert s[1..] == d;
    assert !IsBoolWord(s) by { assert Lower(s)[0] == '-'; }
  }

  /** A plus sign in front of digits is not an int (Python's `int()` would
      accept it, the pattern does not). */
  lemma PlusDigitsIsStr(d: string)
    requires IsDigits(d)
    ensures InferDataType("+" + d) == "str"
  {
    var s := "+" + d;
    DigitIsSolid(d, |d| - 1);
    assert s[|s| - 1] == d[|d| - 1];
    SolidValue(s);
    assert !IsBoolWord(s) by { assert Lower(s)[0] == '+'; }
    assert !IsDigit(s[0]);
    forall k | 0 <= k < |s| ensures s[k] != '.' {
      if k > 0 { assert s[k] == d[k - 1]; DigitIsSolid(d, k - 1); }
    }
  }

  /** A lone minus and the empty text are text, not numbers. */
  lemma LoneMinusAndEmptyAreStr()
    ensures InferDataType("-") == "str"
    ensures InferDataType("") == "str"
  {
    assert InferDataType("-") == "str" by {
      SolidValue("-");
      assert "-"[0] == '-' && !IsDigit('-');
    }
    SolidValue("");
  }

  /** Digits, a point and digits (with an optional leading minus) is a
      float. */
  lemma DecimalIsFloat(a: string, b: string)
    requires IsIntText(a) && IsDigits(b)
    ensures InferDataType(a + "." + b) == "float"
  {
    var s := a + "." + b;
    IntTextHasNoPoint(a, 0);
    DigitIsSolid(b, |b| - 1);
    assert s[0] == a[0] && s[|s| - 1] == b[|b| - 1];
    SolidValue(s);
    assert s[|a|] == '.';
    PointIsNotBoolWord(s, |a|);
    PointIsNotIntText(s, |a|);
    assert s[..|a|] == a && s[|a| + 1..] == b;
  }

  /** A point needs digits after it: "12." stays text. */
  lemma TrailingPointIsStr(a: string)
    requires IsIntText(a)
    ensures InferDataType(a + ".") == "str"
  {
    var s := a + ".";
    IntTextHasNoPoint(a, 0);
    assert s[0] == a[0];
    SolidValue(s);
    PointIsNotBoolWord(s, |a|);
    PointIsNotIntText(s, |a|);
    forall k | 0 <= k < |s| && s[k] == '.' ensures !IsDigits(s[k + 1..]) {
      if k < |a| { IntTextHasNoPoint(a, k); }
    }
  }

  /** A point needs digits before it: ".5" stays text. */
  lemma LeadingPointIsStr(b: string)
    requires IsDigits(b)
    ensures InferDataType("." + b) == "str"
  {
    var t := "." + b;
    DigitIsSolid(b, |b| - 1);
    assert t[|t| - 1] == b[|b| - 1];
    SolidValue(t);
    PointIsNotBoolWord(t, 0);
    PointIsNotIntText(t, 0);
  }

  // ---------------------------------------------------------------------
  // infer_column_types
  // ---------------------------------------------------------------------

  /** `any(row.values())`. */
  predicate HasData(row: Row)
  {
    exists k | k in row :: Truthy(row[k])
  }

  /** The position of `next(row for row in rows if any(row.values()))`. */
  function FirstDataIndex(rows: seq<Row>): (r: Option<nat>)
    ensures r.None? <==> forall i :: 0 <= i < |rows| ==> !HasData(rows[i])
    ensures r.Some? ==> r.value < |rows| && HasData(rows[r.value])
    ensures r.Some? ==> forall i :: 0 <= i < r.value ==> !HasData(rows[i])
  {
    if rows == [] then None
    else if HasData(rows[0]) then Some(0)
    else
      match FirstDataIndex(rows[1..])
      case None => None
      case Some(k) => Some(k + 1)
  }

  /** A row whose every value is text, as the CSV reader produces. */
  predicate TextRow(row: Row)
  {
    forall k | k in row :: row[k].S?
  }

  /** One step of the relabelling loop: the column after looking up its
      value in the data row, or None when `infer_data_type` is handed a
      value that is not text and raises. */
  function InferredColumn(c: Column, row: Row): Option<Column>
  {
    var v := Get(row, c.name, S(""));
    if !Truthy(v) then Some(c)
    else if v.S? then Some(Column(c.name, InferDataType(v.text)))
    else None
  }

  /** The relabelling loop from position `k` on: each column in turn is
      replaced by its inferred version, and the loop stops, reporting
      failure, at the first column whose value raises. */
  function RelabelFrom(cols: seq<Column>, row: Row, k: nat): (r: (seq<Column>, bool))
    requires k <= |cols|
    decreases |cols| - k
    ensures |r.0| == |cols|
  {
    if k == |cols| then (cols, true)
    else
      match InferredColumn(cols[k], row)
      case None => (cols, false)
      case Some(c) => RelabelFrom(cols[k := c], row, k + 1)
  }

  /** The columns after the relabelling loop, and whether it ran to the
      end. */
  function Relabel(cols: seq<Column>, row: Row): (r: (seq<Column>, bool))
    ensures |r.0| == |cols|
  {
    RelabelFrom(cols, row, 0)
  }

  lemma {:induction false} RelabelFromFacts(cols: seq<Column>, row: Row, k: nat)
    requires k <= |cols|
    decreases |cols| - k
    ensures var r := RelabelFrom(cols, row, k);
      && |r.0| == |cols|
      && r.0[..k] == cols[..k]
      && (forall i :: k <= i < |cols| ==> r.0[i].name == cols[i].name)
      && (forall i :: k <= i < |cols| ==> r.0[i] == cols[i] || InferredColumn(cols[i], row) == Some(r.0[i]))
      && (r.1 <==> forall i :: k <= i < |cols| ==> InferredColumn(cols[i], row).Some?)
      && (r.1 ==> forall i :: k <= i < |cols| ==> InferredColumn(cols[i], row) == Some(r.0[i]))
  {
    if k < |cols| {
      match InferredColumn(cols[k], row)
      case None =>
      case Some(c) =>
        var next := cols[k := c];
        RelabelFromFacts(next, row, k + 1);
        var r := RelabelFrom(next, row, k + 1);
        assert r == RelabelFrom(cols, row, k);
        assert r.0[k] == next[k] == c by {
          assert r.0[..k + 1] == next[..k + 1];
        }
        assert r.0[..k] == cols[..k] by {
          assert r.0[..k] == r.0[..k + 1][..k] && next[..k + 1][..k] == cols[..k];
        }
        forall i | k + 1 <= i < |cols| ensures next[i] == cols[i] { }
    }
  }

  /** What the relabelling does to the columns: same length, same names in
      the same order; each column either keeps its record or takes the type
      inferred from its value; the loop completes exactly when no value
      raises, and then every column holds its inferred record. */
  lemma RelabelFacts(cols: seq<Column>, row: Row)
    ensures var r := Relabel(cols, row);
      && |r.0| == |cols|
      && (forall i :: 0 <= i < |cols| ==> r.0[i].name == cols[i].name)
      && (forall i :: 0 <= i < |cols| ==> r.0[i] == cols[i] || InferredColumn(cols[i], row) == Some(r.0[i]))
      && (r.1 <==> forall i :: 0 <= i < |cols| ==> InferredColumn(cols[i], row).Some?)
      && (r.1 ==> forall i :: 0 <= i < |cols| ==> InferredColumn(cols[i], row) == Some(r.0[i]))
  {
    RelabelFromFacts(cols, row, 0);
  }

  /** A column whose value in the data row is missing or empty keeps its
      previous type. */
  lemma EmptyValueKeepsType(cols: seq<Column>, row: Row, i: int)
    requires 0 <= i < |cols| && !Truthy(Get(row, cols[i].name, S("")))
    ensures Relabel(cols, row).0[i] == cols[i]
  {
    RelabelFacts(cols, row);
  }

  /** Relabelling a row of text values never raises: this is why loading a
      CSV file always completes its inference step. */
  lemma TextRowNeverRaises(cols: seq<Column>, row: Row)
    requires TextRow(row)
    ensures Relabel(cols, row).1
  {
    RelabelFacts(cols, row);
    forall i | 0 <= i < |cols| ensures InferredColumn(cols[i], row).Some? {
      var v := Get(row, cols[i].name, S(""));
      assert v.S?;
    }
  }

  lemma NameSetOfSameNames(a: seq<Column>, b: seq<Column>)
    requires |a| == |b|
    requires forall i :: 0 <= i < |a| ==> a[i].name == b[i].name
    ensures NameSet(a) == NameSet(b)
  {
    forall n | n in NameSet(a) ensures n in NameSet(b) {
      var i :| 0 <= i < |a| && a[i].name == n;
      assert b[i].name == n;
    }
    forall n | n in NameSet(b) ensures n in NameSet(a) {
      var i :| 0 <= i < |b| && b[i].name == n;
      assert a[i].name == n;
    }
  }

  /** Relabelling keeps the "keys match the columns" invariant, whether or
      not it runs to the end. */
  lemma RelabelKeepsKeysMatch(cols: seq<Column>, rows: seq<Row>, row: Row)
    requires KeysMatch(cols, rows)
    ensures KeysMatch(Relabel(cols, row).0, rows)
  {
    RelabelFacts(cols, row);
    NameSetOfSameNames(cols, Relabel(cols, row).0);
  }

  /** What `infer_column_types` makes of the columns: unchanged when no row
      holds data, otherwise relabelled against the first row that does; the
      flag is false when the relabelling raised. */
  function Inference(cols: seq<Column>, rows: seq<Row>): (r: (seq<Column>, bool))
    ensures |r.0| == |cols|
  {
    match FirstDataIndex(rows)
    case None => (cols, true)
    case Some(i) => Relabel(cols, rows[i])
  }

  /** Inference over rows that hold only text never raises, keeps the names
      and only retypes. */
  lemma TextRowsInferCleanly(cols: seq<Column>, rows: seq<Row>)
    requires forall i :: 0 <= i < |rows| ==> TextRow(rows[i])
    ensures Inference(cols, rows).1
    ensures forall i :: 0 <= i < |cols| ==> Inference(cols, rows).0[i].name == cols[i].name
  {
    match FirstDataIndex(rows)
    case None =>
    case Some(i) =>
      TextRowNeverRaises(cols, rows[i]);
      RelabelFacts(cols, rows[i]);
  }

  /** Inference keeps the "keys match the columns" invariant. */
  lemma InferenceKeepsKeysMatch(cols: seq<Column>, rows: seq<Row>)
    requires KeysMatch(cols, rows)
    ensures KeysMatch(Inference(cols, rows).0, rows)
  {
    match FirstDataIndex(rows)
    case None =>
    case Some(i) => RelabelKeepsKeysMatch(cols, rows, rows[i]);
  }

  /** Inference never renames, drops or reorders a column, even when it
      raises. */
  lemma InferenceKeepsNames(cols: seq<Column>, rows: seq<Row>)
    ensures Names(Inference(cols, rows).0) == Names(cols)
  {
    match FirstDataIndex(rows)
    case None =>
    case Some(i) => RelabelFacts(cols, rows[i]);
  }

  /** The `next(...)` scan: the position of the first row holding a truthy
      value. */
  method FindFirstDataRow(rows: seq<Row>) returns (i: Option<nat>)
    ensures i == FirstDataIndex(rows)
  {
    var k := 0;
    while k < |rows| && !HasData(rows[k])
      invariant 0 <= k <= |rows|
      invariant forall j :: 0 <= j < k ==> !HasData(rows[j])
    {
      k := k + 1;
    }
    i := if k == |rows| then None else Some(k);
  }

  /** The relabelling loop over the columns, against one data row; on a
      non-text value it stops with the earlier columns already relabelled. */
  method RelabelColumns(cols: seq<Column>, row: Row) returns (res: seq<Column>, ok: bool)
    ensures res == Relabel(cols, row).0 && ok == Relabel(cols, row).1
  {
    res, ok := cols, true;
    var k := 0;
    while k < |res|
      invariant 0 <= k <= |res| == |cols|
      invariant RelabelFrom(res, row, k) == Relabel(cols, row)
    {
      var v := Get(row, res[k].name, S(""));
      if Truthy(v) {
        if !v.S? {
          ok := false;
          return;
        }
        res := res[k := Column(res[k].name, InferDataType(v.text))];
      } else {
        assert res[k := res[k]] == res;
      }
      k := k + 1;
    }
  }

  /** `infer_column_types`: finds the first row with a truthy value and
      relabels, in place and in order, every column whose value in that row
      is truthy. With no rows, or no row holding data, it only reports.
      `ok` is false when the loop raised (a non-text value). Names, order,
      rows, the table name and the saved flag are never touched. */
  method InferColumnTypes(tb: TableBuilder) returns (ok: bool)
    modifies tb
    ensures tb.rows == old(tb.rows) && tb.name == old(tb.name) && tb.saved == old(tb.saved)
    ensures (tb.columns, ok) == Inference(old(tb.columns), old(tb.rows))
  {
    ok := true;
    if tb.rows == [] {
      return;
    }
    var first := FindFirstDataRow(tb.rows);
    if first.None? {
      return;
    }
    tb.columns, ok := RelabelColumns(tb.columns, tb.rows[first.value]);
  }
}
