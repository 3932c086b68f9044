/** The structural edits of a table: add, rename, retype and remove a
    column; add, edit and remove a row; clear and name the table. Every
    prompt is a parameter holding what `get_user_input` returned (None for
    "/cancel"); a prompt the operation repeats until it gets a usable answer
    takes the sequence of answers the user gives, and running out of them
    is reported as `Rejected(NoMoreInput)`. */
module TableOperations {
  import opened Values
  import opened TableState
  import opened TableUtils

  // ---------------------------------------------------------------------
  // Re-prompt loops
  // ---------------------------------------------------------------------

  /** What a re-prompting loop ends with: an accepted value together with the
      answers still unread, a cancel, or no answers left. */
  datatype Read<T> = Got(value: T, rest: seq<Option<string>>) | Quit | OutOfInput

  /** Every answer of `prefix` is a real answer that `accept` refuses, so the
      loop asked again after each. */
  predicate Refused<T>(prefix: seq<Option<string>>, accept: string -> Option<T>)
  {
    forall j :: 0 <= j < |prefix| ==> prefix[j].Some? && accept(prefix[j].value).None?
  }

  /** A `while True` prompt loop: a cancel leaves the loop, an answer that
      `accept` turns into a value ends it, and any other answer asks again. */
  function Scan<T>(answers: seq<Option<string>>, accept: string -> Option<T>): Read<T>
  {
    if answers == [] then OutOfInput
    else
      match answers[0]
      case None => Quit
      case Some(t) =>
        match accept(t)
        case Some(v) => Got(v, answers[1..])
        case None => Scan(answers[1..], accept)
  }

  /** The loop takes the first answer that is a cancel or is accepted, after
      refusing every answer before it; it runs out of input exactly when it
      refuses them all. */
  lemma {:induction false} ScanTakesFirstUsable<T>(answers: seq<Option<string>>, accept: string -> Option<T>)
    ensures var r := Scan(answers, accept);
      && (r.Got? ==>
            && |r.rest| < |answers|
            && var k := |answers| - |r.rest| - 1;
               && answers[k].Some? && accept(answers[k].value) == Some(r.value)
               && r.rest == answers[k + 1..]
               && Refused(answers[..k], accept))
      && (r.Quit? ==> exists k :: 0 <= k < |answers| && answers[k].None? && Refused(answers[..k], accept))
      && (r.OutOfInput? <==> Refused(answers, accept))
  {
    ScanGot(answers, accept);
    ScanQuit(answers, accept);
    ScanOutOfInput(answers, accept);
  }

  lemma {:induction false} ScanGot<T>(answers: seq<Option<string>>, accept: string -> Option<T>)
    ensures var r := Scan(answers, accept);
      r.Got? ==>
        && |r.rest| < |answers|
        && var k := |answers| - |r.rest| - 1;
           && answers[k].Some? && accept(answers[k].value) == Some(r.value)
           && r.rest == answers[k + 1..]
           && Refused(answers[..k], accept)
  {
    if answers != [] && answers[0].Some? {
      var tail := answers[1..];
      var r := Scan(answers, accept);
      if accept(answers[0].value).None? {
        ScanGot(tail, accept);
        assert r == Scan(tail, accept);
        if r.Got? {
          var k := |tail| - |r.rest| - 1;
          assert answers[k + 1] == tail[k];
          assert answers[k + 2..] == tail[k + 1..];
          assert answers[..k + 1] == [answers[0]] + tail[..k];
          RefusedCons(answers[0], tail[..k], accept);
        }
      } else {
        assert answers[..0] == [];
      }
    }
  }

  lemma {:induction false} ScanQuit<T>(answers: seq<Option<string>>, accept: string -> Option<T>)
    ensures Scan(answers, accept).Quit? ==>
      exists k :: 0 <= k < |answers| && answers[k].None? && Refused(answers[..k], accept)
  {
    if answers != [] {
      var tail := answers[1..];
      if answers[0].None? {
        assert answers[..0] == [];
      } else if accept(answers[0].value).None? && Scan(tail, accept).Quit? {
        ScanQuit(tail, accept);
        var k :| 0 <= k < |tail| && tail[k].None? && Refused(tail[..k], accept);
        assert answers[k + 1] == tail[k];
        assert answers[..k + 1] == [answers[0]] + tail[..k];
        RefusedCons(answers[0], tail[..k], accept);
      }
    }
  }

  lemma {:induction false} ScanOutOfInput<T>(answers: seq<Option<string>>, accept: string -> Option<T>)
    ensures Scan(answers, accept).OutOfInput? <==> Refused(answers, accept)
  {
    if answers != [] {
      var tail := answers[1..];
      ScanOutOfInput(tail, accept);
      assert answers == [answers[0]] + tail;
      RefusedCons(answers[0], tail, accept);
    }
  }

  /** A prefix is refused exactly when its first answer is refused and so is
      the rest. */
  lemma RefusedCons<T>(a: Option<string>, p: seq<Option<string>>, accept: string -> Option<T>)
    ensures Refused([a] + p, accept) <==> a.Some? && accept(a.value).None? && Refused(p, accept)
  {
    var s := [a] + p;
    if Refused(s, accept) {
      assert s[0] == a;
      forall j | 0 <= j < |p| ensures p[j].Some? && accept(p[j].value).None? {
        assert s[j + 1] == p[j];
      }
    }
    if a.Some? && accept(a.value).None? && Refused(p, accept) {
      forall j | 0 <= j < |s| ensures s[j].Some? && accept(s[j].value).None? {
        if j > 0 { assert s[j] == p[j - 1]; }
      }
    }
  }

  /** The prompt loop itself. */
  method ScanAnswers<T>(answers: seq<Option<string>>, accept: string -> Option<T>) returns (r: Read<T>)
    ensures r == Scan(answers, accept)
  {
    var i := 0;
    while i < |answers|
      invariant 0 <= i <= |answers|
      invariant Scan(answers[i..], accept) == Scan(answers, accept)
    {
      assert answers[i..][1..] == answers[i + 1..];
      match answers[i]
      case None =>
        return Quit;
      case Some(t) =>
        var v := accept(t);
        if v.Some? {
          return Got(v.value, answers[i + 1..]);
        }
      i := i + 1;
    }
    return OutOfInput;
  }

  // ---------------------------------------------------------------------
  // Typed cell input
  // ---------------------------------------------------------------------

  /** The cell kind each of the four column types holds. */
  predicate CellFits(ctype: string, c: Cell)
  {
    if ctype == "int" then c.I?
    else if ctype == "float" then c.F?
    else if ctype == "bool" then c.B?
    else if ctype == "str" then c.S?
    else false
  }

  /** The conversion `add_row` and `edit_cell` apply to a typed answer:
      int only for all-digit text, float for whatever `float()` parses
      (`parseFloat`), bool for "true"/"false" in any case, str as is; any
      other answer, and any answer for a column of another type, is
      refused. */
  function Coerce(ctype: string, text: string, parseFloat: string -> Option<real>): (r: Option<Cell>)
    ensures r.Some? ==> CellFits(ctype, r.value)
    ensures ctype == "str" ==> r.Some?
    ensures ctype !in Types ==> r.None?
  {
    if ctype == "int" && IsDigits(text) then Some(I(DigitsValue(text)))
    else if ctype == "float" then
      match parseFloat(text)
      case Some(x) => Some(F(x))
      case None => None
    else if ctype == "bool" && (Lower(text) == "true" || Lower(text) == "false") then
      Some(B(Lower(text) == "true"))
    else if ctype == "str" then Some(S(text))
    else None
  }

  /** An int column accepts exactly the all-digit answers, and stores the
      number `int()` reads from them. */
  lemma CoerceInt(text: string, parseFloat: string -> Option<real>)
    ensures Coerce("int", text, parseFloat).Some? <==> IsDigits(text)
    ensures Coerce("int", text, parseFloat).Some? ==>
      && Coerce("int", text, parseFloat).value.num >= 0
      && Some(Coerce("int", text, parseFloat).value.num) == ParseInt(text)
  {
    if IsDigits(text) {
      assert Trim(text) == text by {
        assert !IsSpace(text[0]) && !IsSpace(text[|text| - 1]);
      }
    }
  }

  /** A negative number is refused by an int column although type
      inference labels the same text "int". */
  lemma NegativeIntRefused(d: string, parseFloat: string -> Option<real>)
    requires IsDigits(d)
    ensures Coerce("int", "-" + d, parseFloat).None?
    ensures InferDataType("-" + d) == "int"
  {
    NegativeDigitsIsInt(d);
    assert ("-" + d)[0] == '-';
  }

  /** Every answer an int or bool column accepts is labelled with that same
      type by inference. */
  lemma AcceptedTextInfersSameType(ctype: string, text: string, parseFloat: string -> Option<real>)
    requires ctype == "int" || ctype == "bool"
    requires Coerce(ctype, text, parseFloat).Some?
    ensures InferDataType(text) == ctype
  {
    assert Trim(text) == text by {
      if ctype == "int" {
        assert !IsSpace(text[0]) && !IsSpace(text[|text| - 1]);
      } else {
        var l := Lower(text);
        assert l == "true" || l == "false";
        assert !IsSpace(l[0]) && !IsSpace(l[|l| - 1]);
        assert LowerChar(text[0]) == l[0] && LowerChar(text[|text| - 1]) == l[|l| - 1];
      }
    }
    if ctype == "bool" {
      assert IsBoolWord(text);
    }
  }

  /** A bool column stores true exactly for "true" in any letter case. */
  lemma CoerceBool(text: string, parseFloat: string -> Option<real>)
    requires Coerce("bool", text, parseFloat).Some?
    ensures Coerce("bool", text, parseFloat).value.flag <==> Lower(text) == "true"
    ensures IsBoolWord(text)
  {
  }

  /** The answers for one cell of an `add_row`. */
  function CellReader(ctype: string, parseFloat: string -> Option<real>): string -> Option<Cell>
  {
    t => Coerce(ctype, t, parseFloat)
  }

  /** The row `add_row` builds: column by column, the first answer the
      column's type accepts; a cancel abandons the row. */
  function ReadRow(cols: seq<Column>, answers: seq<Option<string>>, parseFloat: string -> Option<real>, acc: Row): Read<Row>
    decreases |cols|
  {
    if cols == [] then Got(acc, answers)
    else
      match Scan(answers, CellReader(cols[0].ctype, parseFloat))
      case Got(c, rest) => ReadRow(cols[1..], rest, parseFloat, acc[cols[0].name := c])
      case Quit => Quit
      case OutOfInput => OutOfInput
  }

  /** A row that `add_row` completes has a key for every column and no
      other, and with distinct column names every cell has its column's
      type. */
  lemma {:induction false} ReadRowShape(cols: seq<Column>, answers: seq<Option<string>>, parseFloat: string -> Option<real>, acc: Row)
    ensures var r := ReadRow(cols, answers, parseFloat, acc);
      r.Got? ==>
        && r.value.Keys == acc.Keys + NameSet(cols)
        && (DistinctNames(cols) ==>
              && (forall k :: k in acc && k !in NameSet(cols) ==> r.value[k] == acc[k])
              && (forall i :: 0 <= i < |cols| ==> CellFits(cols[i].ctype, r.value[cols[i].name])))
    decreases |cols|
  {
    if cols != [] {
      var s := Scan(answers, CellReader(cols[0].ctype, parseFloat));
      if s.Got? {
        var acc' := acc[cols[0].name := s.value];
        ReadRowShape(cols[1..], s.rest, parseFloat, acc');
        var r := ReadRow(cols, answers, parseFloat, acc);
        assert r == ReadRow(cols[1..], s.rest, parseFloat, acc');
        NameSetCons(cols);
        if r.Got? && DistinctNames(cols) {
          DistinctTail(cols);
          ScanTakesFirstUsable(answers, CellReader(cols[0].ctype, parseFloat));
          forall i | 0 <= i < |cols| ensures CellFits(cols[i].ctype, r.value[cols[i].name]) {
            if i > 0 {
              assert cols[1..][i - 1] == cols[i];
            }
          }
        }
      }
    }
  }

  /** The nested prompt loops of `add_row`. */
  method ReadRowAnswers(cols: seq<Column>, answers: seq<Option<string>>, parseFloat: string -> Option<real>) returns (r: Read<Row>)
    ensures r == ReadRow(cols, answers, parseFloat, map[])
  {
    var row: Row := map[];
    var rest := answers;
    var i := 0;
    while i < |cols|
      invariant 0 <= i <= |cols|
      invariant ReadRow(cols[i..], rest, parseFloat, row) == ReadRow(cols, answers, parseFloat, map[])
    {
      assert cols[i..][0] == cols[i] && cols[i..][1..] == cols[i + 1..];
      var cell := ScanAnswers(rest, CellReader(cols[i].ctype, parseFloat));
      match cell
      case Quit => return Quit;
      case OutOfInput => return OutOfInput;
      case Got(c, more) =>
        row := row[cols[i].name := c];
        rest := more;
      i := i + 1;
    }
    assert cols[i..] == [];
    return Got(row, rest);
  }

  // ---------------------------------------------------------------------
  // Row transformations
  // ---------------------------------------------------------------------

  /** Every row after `add_column` sets `row[name] = ""`: the new key holds
      "" and every other key keeps its value. */
  function Backfill(rows: seq<Row>, name: string): (r: seq<Row>)
    ensures |r| == |rows|
    ensures forall i :: 0 <= i < |r| ==> name in r[i] && r[i][name] == S("")
    ensures forall i, k :: 0 <= i < |r| && k != name ==>
      (k in r[i] <==> k in rows[i]) && (k in rows[i] ==> r[i][k] == rows[i][k])
  {
    seq(|rows|, i requires 0 <= i < |rows| => rows[i][name := S("")])
  }

  /** Every row after `row[new] = row.pop(old, "")`: the old key is gone,
      the new key holds the old value ("" where it was missing), and every
      other key keeps its value. */
  function Rekey(rows: seq<Row>, oldName: string, newName: string): (r: seq<Row>)
    requires oldName != newName
    ensures |r| == |rows|
    ensures forall i :: 0 <= i < |r| ==> oldName !in r[i] && newName in r[i]
    ensures forall i :: 0 <= i < |r| ==> r[i][newName] == Get(rows[i], oldName, S(""))
    ensures forall i, k :: 0 <= i < |r| && k != oldName && k != newName ==>
      (k in r[i] <==> k in rows[i]) && (k in rows[i] ==> r[i][k] == rows[i][k])
  {
    seq(|rows|, i requires 0 <= i < |rows| => (rows[i] - {oldName})[newName := Get(rows[i], oldName, S(""))])
  }

  /** Every row after `row.pop(name, None)`. */
  function Drop(rows: seq<Row>, name: string): (r: seq<Row>)
    ensures |r| == |rows|
    ensures forall i :: 0 <= i < |r| ==> name !in r[i]
    ensures forall i, k :: 0 <= i < |r| && k != name ==>
      (k in r[i] <==> k in rows[i]) && (k in rows[i] ==> r[i][k] == rows[i][k])
  {
    seq(|rows|, i requires 0 <= i < |rows| => rows[i] - {name})
  }

  /** `[col for col in columns if col["name"] != name]`. */
  function Without(cols: seq<Column>, name: string): (r: seq<Column>)
    ensures |r| <= |cols|
    ensures forall c :: c in r <==> c in cols && c.name != name
    ensures NameSet(r) == NameSet(cols) - {name}
  {
    if cols == [] then []
    else if cols[0].name == name then Without(cols[1..], name)
    else [cols[0]] + Without(cols[1..], name)
  }

  /** Removing a column keeps the remaining ones in their order: the filter
      distributes over concatenation. */
  lemma {:induction false} WithoutDistributes(a: seq<Column>, b: seq<Column>, name: string)
    ensures Without(a + b, name) == Without(a, name) + Without(b, name)
  {
    if a == [] {
      assert a + b == b;
    } else {
      assert (a + b)[0] == a[0] && (a + b)[1..] == a[1..] + b;
      WithoutDistributes(a[1..], b, name);
    }
  }

  /** With distinct names, removing a present column removes exactly one. */
  lemma {:induction false} WithoutRemovesOne(cols: seq<Column>, name: string)
    requires DistinctNames(cols) && name in NameSet(cols)
    ensures |Without(cols, name)| == |cols| - 1
  {
    NameSetCons(cols);
    DistinctTail(cols);
    if cols[0].name == name {
      WithoutAbsent(cols[1..], name);
    } else {
      WithoutRemovesOne(cols[1..], name);
    }
  }

  lemma {:induction false} WithoutAbsent(cols: seq<Column>, name: string)
    ensures name !in NameSet(cols) ==> Without(cols, name) == cols
  {
    if cols != [] && name !in NameSet(cols) {
      NameSetCons(cols);
      WithoutAbsent(cols[1..], name);
    }
  }

  // ---------------------------------------------------------------------
  // The row-key invariant under each edit
  // ---------------------------------------------------------------------

  /** Adding a column with a new name and backfilling it keeps every row
      keyed by exactly the column names. */
  lemma AddColumnKeepsKeys(cols: seq<Column>, rows: seq<Row>, c: Column)
    requires KeysMatch(cols, rows)
    ensures KeysMatch(cols + [c], Backfill(rows, c.name))
  {
    assert NameSet(cols + [c]) == NameSet(cols) + {c.name} by {
      forall n | n in NameSet(cols + [c]) ensures n in NameSet(cols) + {c.name} {
        var i :| 0 <= i < |cols + [c]| && (cols + [c])[i].name == n;
        if i < |cols| { assert cols[i] == (cols + [c])[i]; }
      }
      forall n | n in NameSet(cols) ensures n in NameSet(cols + [c]) {
        var i :| 0 <= i < |cols| && cols[i].name == n;
        assert (cols + [c])[i] == cols[i];
      }
      assert (cols + [c])[|cols|] == c;
    }
  }

  /** Changing a type keeps every row keyed by exactly the column names. */
  lemma RetypeKeepsKeys(cols: seq<Column>, rows: seq<Row>, i: int, t: string)
    requires 0 <= i < |cols| && KeysMatch(cols, rows)
    ensures KeysMatch(cols[i := Column(cols[i].name, t)], rows)
  {
    NameSetOfSameNames(cols, cols[i := Column(cols[i].name, t)]);
  }

  /** Renaming a column to a name no column has, and re-keying the rows,
      keeps every row keyed by exactly the column names. */
  lemma RenameKeepsKeys(cols: seq<Column>, rows: seq<Row>, i: int, newName: string)
    requires 0 <= i < |cols| && KeysMatch(cols, rows) && DistinctNames(cols)
    requires newName !in NameSet(cols)
    ensures cols[i].name != newName
    ensures KeysMatch(cols[i := Column(newName, cols[i].ctype)], Rekey(rows, cols[i].name, newName))
  {
    var after := cols[i := Column(newName, cols[i].ctype)];
    var oldName := cols[i].name;
    assert oldName in NameSet(cols);
    assert NameSet(after) == NameSet(cols) - {oldName} + {newName} by {
      forall n | n in NameSet(after) ensures n in NameSet(cols) - {oldName} + {newName} {
        var j :| 0 <= j < |after| && after[j].name == n;
        if j != i { assert cols[j].name == n && cols[j].name != oldName; }
      }
      forall n | n in NameSet(cols) - {oldName} + {newName} ensures n in NameSet(after) {
        if n == newName {
          assert after[i].name == n;
        } else {
          var j :| 0 <= j < |cols| && cols[j].name == n;
          assert after[j].name == n;
        }
      }
    }
  }

  /** Removing a column and its key from every row keeps every row keyed by
      exactly the column names. */
  lemma RemoveColumnKeepsKeys(cols: seq<Column>, rows: seq<Row>, name: string)
    requires KeysMatch(cols, rows)
    ensures KeysMatch(Without(cols, name), Drop(rows, name))
  {
  }

  /** Appending a row completed by `add_row` keeps the invariant. */
  lemma AddRowKeepsKeys(cols: seq<Column>, rows: seq<Row>, answers: seq<Option<string>>, parseFloat: string -> Option<real>)
    requires KeysMatch(cols, rows)
    requires ReadRow(cols, answers, parseFloat, map[]).Got?
    ensures KeysMatch(cols, rows + [ReadRow(cols, answers, parseFloat, map[]).value])
  {
    ReadRowShape(cols, answers, parseFloat, map[]);
  }

  /** Storing a value under an existing column name keeps the invariant. */
  lemma EditCellKeepsKeys(cols: seq<Column>, rows: seq<Row>, r: int, c: int, v: Cell)
    requires KeysMatch(cols, rows) && 0 <= r < |rows| && 0 <= c < |cols|
    ensures KeysMatch(cols, rows[r := rows[r][cols[c].name := v]])
  {
    assert cols[c].name in NameSet(cols);
  }

  /** Removing a row keeps the invariant. */
  lemma RemoveRowKeepsKeys(cols: seq<Column>, rows: seq<Row>, r: int)
    requires KeysMatch(cols, rows) && 0 <= r < |rows|
    ensures KeysMatch(cols, rows[..r] + rows[r + 1..])
  {
    var after := rows[..r] + rows[r + 1..];
    forall i | 0 <= i < |after| ensures after[i].Keys == NameSet(cols) {
      if i < r { assert after[i] == rows[i]; }
      else { assert after[i] == rows[i + 1]; }
    }
  }

  // ---------------------------------------------------------------------
  // Prompt decisions
  // ---------------------------------------------------------------------

  /** The 1-based number answered to a numbered menu of `n` entries, as a
      0-based index. */
  function MenuIndex(t: string, n: nat): (r: Option<nat>)
    ensures r.Some? <==> ParseInt(t).Some? && 1 <= ParseInt(t).value <= n
    ensures r.Some? ==> r.value < n && r.value + 1 == ParseInt(t).value
  {
    match ParseInt(t)
    case Some(k) => if 1 <= k <= n then Some(k - 1) else None
    case None => None
  }

  /** `int(get_user_input(...)) - 1` checked against a menu of `n` entries,
      inside a `try` that catches only ValueError: a cancel makes `int(None)`
      raise a TypeError that escapes, a non-number is refused, a number
      outside 1..n is an invalid choice. */
  function MenuPrompt(answer: Option<string>, n: nat): (r: Step<nat>)
    ensures r.Go? <==> answer.Some? && MenuIndex(answer.value, n).Some?
    ensures r.Go? ==> r.value < n && ParseInt(answer.value) == Some(r.value + 1)
    ensures answer.None? ==> r == Stop(Crashed)
    ensures answer.Some? && ParseInt(answer.value).None? ==> r == Stop(Rejected(InvalidAnswer))
    ensures r.Stop? ==> r.outcome != Done
  {
    match answer
    case None => Stop(Crashed)
    case Some(t) =>
      match ParseInt(t)
      case None => Stop(Rejected(InvalidAnswer))
      case Some(_) =>
        match MenuIndex(t, n)
        case Some(i) => Go(i)
        case None => Stop(Rejected(InvalidChoice))
  }

  /** The answers for the type menu of `add_column`. */
  function TypeReader(): string -> Option<nat>
  {
    t => MenuIndex(t, |Types|)
  }

  /** The type loop of `add_column`: the first answer that is a number of
      the type menu, unless a cancel comes first. */
  function TypeChoice(answers: seq<Option<string>>): (r: Read<nat>)
    ensures r.Got? ==> r.value < |Types|
  {
    ScanTakesFirstUsable(answers, TypeReader());
    Scan(answers, TypeReader())
  }

  /** The prompts of `add_column`: a cancel at either prompt stops, a name
      already used is refused, invalid type numbers are asked again, and the
      new column has the first valid type number's type. */
  function AddColumnChoice(cols: seq<Column>, nameAnswer: Option<string>, typeAnswers: seq<Option<string>>): (r: Step<Column>)
    ensures nameAnswer.None? ==> r == Stop(Cancelled)
    ensures nameAnswer.Some? && nameAnswer.value in Names(cols) ==> r == Stop(Rejected(DuplicateColumn))
    ensures r.Go? ==>
      && nameAnswer == Some(r.value.name) && r.value.name !in Names(cols)
      && TypeChoice(typeAnswers).Got?
      && r.value.ctype == Types[TypeChoice(typeAnswers).value]
    ensures nameAnswer.Some? && nameAnswer.value !in Names(cols) ==>
      (r.Go? <==> TypeChoice(typeAnswers).Got?)
    ensures r.Stop? ==> r.outcome in {Cancelled, Rejected(DuplicateColumn), Rejected(NoMoreInput)}
  {
    match nameAnswer
    case None => Stop(Cancelled)
    case Some(name) =>
      if name in Names(cols) then Stop(Rejected(DuplicateColumn))
      else
        match TypeChoice(typeAnswers)
        case Quit => Stop(Cancelled)
        case OutOfInput => Stop(Rejected(NoMoreInput))
        case Got(t, _) => Go(Column(name, Types[t]))
  }

  /** The prompts of `change_column_type`: the column and type menus, then
      the confirmation, which a cancel turns into `None.strip()` and which
      applies the change only when it reads "y" once stripped and
      lowercased. */
  function RetypeChoice(n: nat, columnAnswer: Option<string>, typeAnswer: Option<string>, confirm: Option<string>): (r: Step<(nat, nat)>)
    ensures r.Go? ==> r.value.0 < n && r.value.1 < |Types|
  {
    if n == 0 then Stop(Rejected(NoColumns))
    else
      match MenuPrompt(columnAnswer, n)
      case Stop(o) => Stop(o)
      case Go(i) =>
        match MenuPrompt(typeAnswer, |Types|)
        case Stop(o) => Stop(o)
        case Go(t) =>
          match confirm
          case None => Stop(Crashed)
          case Some(c) => if Lower(Trim(c)) == "y" then Go((i, t)) else Stop(Cancelled)
  }

  /** A type change goes ahead exactly when both menu answers are in range
      and the confirmation reads "y", and then it uses those two entries. */
  lemma RetypeOnlyWhenConfirmed(n: nat, columnAnswer: Option<string>, typeAnswer: Option<string>, confirm: Option<string>)
    ensures var r := RetypeChoice(n, columnAnswer, typeAnswer, confirm);
      && (r.Go? <==>
            && n > 0 && MenuPrompt(columnAnswer, n).Go? && MenuPrompt(typeAnswer, |Types|).Go?
            && confirm.Some? && Lower(Trim(confirm.value)) == "y")
      && (r.Go? ==>
            && ParseInt(columnAnswer.value) == Some(r.value.0 + 1)
            && ParseInt(typeAnswer.value) == Some(r.value.1 + 1))
  {
  }

  /** How a type change stops: no columns; the first menu prompt that fails,
      with its outcome; a cancel at the confirmation (an escaping
      AttributeError); any confirmation other than "y". */
  lemma RetypeStops(n: nat, columnAnswer: Option<string>, typeAnswer: Option<string>, confirm: Option<string>)
    ensures var r := RetypeChoice(n, columnAnswer, typeAnswer, confirm);
      && (n == 0 ==> r == Stop(Rejected(NoColumns)))
      && (n > 0 && MenuPrompt(columnAnswer, n).Stop? ==> r == Stop(MenuPrompt(columnAnswer, n).outcome))
      && (n > 0 && MenuPrompt(columnAnswer, n).Go? && MenuPrompt(typeAnswer, |Types|).Stop? ==>
            r == Stop(MenuPrompt(typeAnswer, |Types|).outcome))
      && (n > 0 && MenuPrompt(columnAnswer, n).Go? && MenuPrompt(typeAnswer, |Types|).Go? ==>
            && (confirm.None? ==> r == Stop(Crashed))
            && (confirm.Some? && Lower(Trim(confirm.value)) != "y" ==> r == Stop(Cancelled)))
  {
  }

  /** The prompts of `edit_column_name`: the column menu, then the new name,
      stripped (a cancel reaches `None.strip()`), which must differ from
      every current name, the column's own included. */
  function RenameChoice(cols: seq<Column>, columnAnswer: Option<string>, nameAnswer: Option<string>): (r: Step<(nat, string)>)
    ensures cols == [] ==> r == Stop(Rejected(NoColumns))
    ensures r.Go? <==>
      && cols != [] && MenuPrompt(columnAnswer, |cols|).Go?
      && nameAnswer.Some? && Trim(nameAnswer.value) !in Names(cols)
    ensures r.Go? ==>
      && r.value.0 < |cols| && ParseInt(columnAnswer.value) == Some(r.value.0 + 1)
      && r.value.1 == Trim(nameAnswer.value)
      && forall j :: 0 <= j < |cols| ==> cols[j].name != r.value.1
    ensures cols != [] && MenuPrompt(columnAnswer, |cols|).Stop? ==> r == Stop(MenuPrompt(columnAnswer, |cols|).outcome)
    ensures cols != [] && MenuPrompt(columnAnswer, |cols|).Go? ==>
      && (nameAnswer.None? ==> r == Stop(Crashed))
      && (nameAnswer.Some? && Trim(nameAnswer.value) in Names(cols) ==> r == Stop(Rejected(DuplicateColumn)))
  {
    if cols == [] then Stop(Rejected(NoColumns))
    else
      match MenuPrompt(columnAnswer, |cols|)
      case Stop(o) => Stop(o)
      case Go(i) =>
        match nameAnswer
        case None => Stop(Crashed)
        case Some(a) =>
          var newName := Trim(a);
          if newName in Names(cols) then Stop(Rejected(DuplicateColumn))
          else Go((i, newName))
  }

  /** `map(int, text.split(","))` unpacked into exactly two numbers. */
  function ParsePosition(text: string): (r: Option<(int, int)>)
    ensures r.Some? ==> |Split(text, ',')| == 2
    ensures r.Some? ==>
      ParseInt(Split(text, ',')[0]) == Some(r.value.0) && ParseInt(Split(text, ',')[1]) == Some(r.value.1)
  {
    var parts := Split(text, ',');
    if |parts| != 2 then None
    else
      match (ParseInt(parts[0]), ParseInt(parts[1]))
      case (Some(row), Some(col)) => Some((row, col))
      case _ => None
  }

  /** A position written the way the prompt asks for it, "row,column", reads
      back as that position. */
  lemma PositionRoundTrip(row: nat, col: nat)
    ensures ParsePosition(IntToString(row) + "," + IntToString(col)) == Some((row, col))
  {
    var a, b := IntToString(row), IntToString(col);
    assert ',' !in a && ',' !in b by {
      assert forall k :: 0 <= k < |a| ==> IsDigit(a[k]);
      assert forall k :: 0 <= k < |b| ==> IsDigit(b[k]);
    }
    assert Join([a, b], ',') == a + "," + b by {
      assert [a, b][1..] == [b];
    }
    JoinSplit([a, b], ',');
    IntTextRoundTrip(row);
    IntTextRoundTrip(col);
  }

  /** The answers as `.strip()` leaves them. */
  function StripAll(answers: seq<Option<string>>): (r: seq<Option<string>>)
    ensures |r| == |answers|
    ensures forall i :: 0 <= i < |r| ==> r[i].Some? == answers[i].Some?
    ensures forall i :: 0 <= i < |r| && r[i].Some? ==> r[i].value == Trim(answers[i].value)
  {
    seq(|answers|, i requires 0 <= i < |answers| => if answers[i].Some? then Some(Trim(answers[i].value)) else None)
  }

  /** The position prompt of `edit_cell`. The listing of the cells before
      it reads `row[name]` for every column of every row outside the `try`,
      so a missing key escapes as a KeyError. Inside the `try`, a cancel
      reaches `None.strip()`, whose AttributeError is reported; a position
      that is not two numbers is refused; one outside the table is an
      invalid choice. */
  function CellPosition(cols: seq<Column>, rows: seq<Row>, position: Option<string>): (r: Step<(nat, nat)>)
    ensures r.Go? ==> r.value.0 < |rows| && r.value.1 < |cols|
  {
    if cols == [] || rows == [] then Stop(Rejected(NoData))
    else if !KeysCover(cols, rows) then Stop(Crashed)
    else
      match position
      case None => Stop(Rejected(Raised))
      case Some(p) =>
        match ParsePosition(Trim(p))
        case None => Stop(Rejected(InvalidAnswer))
        case Some((row, col)) =>
          if 1 <= row <= |rows| && 1 <= col <= |cols| then Go((row - 1, col - 1))
          else Stop(Rejected(InvalidChoice))
  }

  /** Whatever the cell prompt loop accepts has its column's type. */
  lemma {:induction false} ReadValueFits(ctype: string, answers: seq<Option<string>>, parseFloat: string -> Option<real>)
    ensures var r := Scan(answers, CellReader(ctype, parseFloat));
      r.Got? ==> CellFits(ctype, r.value)
  {
    if answers != [] && answers[0].Some? {
      var c := Coerce(ctype, answers[0].value, parseFloat);
      assert CellReader(ctype, parseFloat)(answers[0].value) == c;
      if c.None? {
        ReadValueFits(ctype, answers[1..], parseFloat);
      }
    }
  }

  /** The value prompt of `edit_cell`, asked again until the column's type
      accepts the stripped answer; a cancel reaches `None.strip()`, whose
      AttributeError is reported. */
  function CellValue(ctype: string, answers: seq<Option<string>>, parseFloat: string -> Option<real>): (r: Step<Cell>)
    ensures r.Go? ==> CellFits(ctype, r.value)
  {
    ReadValueFits(ctype, StripAll(answers), parseFloat);
    match Scan(StripAll(answers), CellReader(ctype, parseFloat))
    case Quit => Stop(Rejected(Raised))
    case OutOfInput => Stop(Rejected(NoMoreInput))
    case Got(v, _) => Go(v)
  }

  /** The prompts of `edit_cell`: the position, then the new value for the
      column at that position. */
  function EditCellChoice(cols: seq<Column>, rows: seq<Row>, position: Option<string>, valueAnswers: seq<Option<string>>,
                          parseFloat: string -> Option<real>): (r: Step<(nat, nat, Cell)>)
    ensures r.Go? ==> r.value.0 < |rows| && r.value.1 < |cols| && CellFits(cols[r.value.1].ctype, r.value.2)
  {
    match CellPosition(cols, rows, position)
    case Stop(o) => Stop(o)
    case Go((row, col)) =>
      match CellValue(cols[col].ctype, valueAnswers, parseFloat)
      case Stop(o) => Stop(o)
      case Go(v) => Go((row, col, v))
  }

  /** A cell edit goes ahead only for a position inside the table, written
      as "row,column", and stores the first value the column's type
      accepts. */
  lemma EditCellTarget(cols: seq<Column>, rows: seq<Row>, position: Option<string>, valueAnswers: seq<Option<string>>,
                       parseFloat: string -> Option<real>)
    ensures var r := EditCellChoice(cols, rows, position, valueAnswers, parseFloat);
      r.Go? ==>
        && KeysCover(cols, rows)
        && position.Some? && ParsePosition(Trim(position.value)) == Some((r.value.0 + 1, r.value.1 + 1))
        && Scan(StripAll(valueAnswers), CellReader(cols[r.value.1].ctype, parseFloat)).Got?
        && Scan(StripAll(valueAnswers), CellReader(cols[r.value.1].ctype, parseFloat)).value == r.value.2
  {
    var r := EditCellChoice(cols, rows, position, valueAnswers, parseFloat);
    if r.Go? {
      var c := CellPosition(cols, rows, position);
      assert c == Go((r.value.0, r.value.1));
      CellPositionTarget(cols, rows, position);
      assert CellValue(cols[r.value.1].ctype, valueAnswers, parseFloat) == Go(r.value.2);
    }
  }

  /** A position goes ahead only when it is inside the table and was
      written as "row,column". */
  lemma CellPositionTarget(cols: seq<Column>, rows: seq<Row>, position: Option<string>)
    ensures var r := CellPosition(cols, rows, position);
      r.Go? ==>
        && KeysCover(cols, rows)
        && position.Some? && ParsePosition(Trim(position.value)) == Some((r.value.0 + 1, r.value.1 + 1))
  {
  }

  /** How a cell edit stops: nothing to edit; a row missing a column key
      (the escaping KeyError of the listing); a cancel at the position
      prompt (a reported AttributeError); a position that is not two
      numbers; one outside the table. */
  lemma EditCellStops(cols: seq<Column>, rows: seq<Row>, position: Option<string>, valueAnswers: seq<Option<string>>,
                      parseFloat: string -> Option<real>)
    ensures var r := EditCellChoice(cols, rows, position, valueAnswers, parseFloat);
      && (cols == [] || rows == [] ==> r == Stop(Rejected(NoData)))
      && (cols != [] && rows != [] && !KeysCover(cols, rows) ==> r == Stop(Crashed))
      && (cols != [] && rows != [] && KeysCover(cols, rows) ==>
            && (position.None? ==> r == Stop(Rejected(Raised)))
            && (position.Some? && ParsePosition(Trim(position.value)).None? ==> r == Stop(Rejected(InvalidAnswer)))
            && (position.Some? && ParsePosition(Trim(position.value)).Some? ==>
                  var p := ParsePosition(Trim(position.value)).value;
                  !(1 <= p.0 <= |rows| && 1 <= p.1 <= |cols|) ==> r == Stop(Rejected(InvalidChoice))))
  {
  }

  // ---------------------------------------------------------------------
  // The operations
  // ---------------------------------------------------------------------

  /** `name_table`: marks the table unsaved and hands back the answer. */
  method NameTable(tb: TableBuilder, answer: Option<string>) returns (r: Option<string>)
    modifies tb
    ensures r == answer
    ensures !tb.saved
    ensures tb.name == old(tb.name) && tb.columns == old(tb.columns) && tb.rows == old(tb.rows)
  {
    tb.saved := false;
    return answer;
  }

  /** `add_column`: on a new name and a valid type, one column is appended,
      every row gets "" under it, and the table is marked unsaved; any other
      ending changes nothing. */
  method AddColumn(tb: TableBuilder, nameAnswer: Option<string>, typeAnswers: seq<Option<string>>) returns (out: Outcome)
    modifies tb
    ensures match AddColumnChoice(old(tb.columns), nameAnswer, typeAnswers)
      case Stop(o) => out == o && unchanged(tb)
      case Go(col) =>
        && out == Done
        && tb.columns == old(tb.columns) + [col]
        && tb.rows == Backfill(old(tb.rows), col.name)
        && tb.name == old(tb.name) && !tb.saved
    ensures old(tb.WellFormed()) ==> tb.WellFormed()
  {
    if nameAnswer.None? {
      return Cancelled;
    }
    var name := nameAnswer.value;
    if name in Names(tb.columns) {
      return Rejected(DuplicateColumn);
    }
    var choice := ScanAnswers(typeAnswers, TypeReader());
    assert choice == TypeChoice(typeAnswers);
    match choice
    case Quit => return Cancelled;
    case OutOfInput => return Rejected(NoMoreInput);
    case Got(t, _) =>
      var col := Column(name, Types[t]);
      var rows := tb.rows;
      var i := 0;
      while i < |rows|
        invariant 0 <= i <= |rows| == |tb.rows|
        invariant forall j :: 0 <= j < i ==> rows[j] == tb.rows[j][name := S("")]
        invariant forall j :: i <= j < |rows| ==> rows[j] == tb.rows[j]
      {
        rows := rows[i := rows[i][name := S("")]];
        i := i + 1;
      }
      if tb.WellFormed() {
        AddColumnKeepsKeys(tb.columns, tb.rows, col);
      }
      tb.columns := tb.columns + [col];
      tb.rows := rows;
      tb.saved := false;
      return Done;
  }

  /** `change_column_type`: only the selected column's type changes, and
      only on a confirmed change; cell values are never touched. */
  method ChangeColumnType(tb: TableBuilder, columnAnswer: Option<string>, typeAnswer: Option<string>, confirm: Option<string>)
    returns (out: Outcome)
    modifies tb
    ensures match RetypeChoice(|old(tb.columns)|, columnAnswer, typeAnswer, confirm)
      case Stop(o) => out == o && unchanged(tb)
      case Go((i, t)) =>
        && out == Done
        && tb.columns == old(tb.columns)[i := Column(old(tb.columns)[i].name, Types[t])]
        && tb.rows == old(tb.rows) && tb.name == old(tb.name) && !tb.saved
    ensures old(tb.WellFormed()) ==> tb.WellFormed()
  {
    var choice := RetypeChoice(|tb.columns|, columnAnswer, typeAnswer, confirm);
    match choice
    case Stop(o) => return o;
    case Go((i, t)) =>
      if tb.WellFormed() {
        RetypeKeepsKeys(tb.columns, tb.rows, i, Types[t]);
      }
      tb.columns := tb.columns[i := Column(tb.columns[i].name, Types[t])];
      tb.saved := false;
      return Done;
  }

  /** `edit_column_name`: only the selected column's name changes, in
      place, and every row moves its value from the old key to the new
      one. */
  method EditColumnName(tb: TableBuilder, columnAnswer: Option<string>, nameAnswer: Option<string>)
    returns (out: Outcome)
    modifies tb
    ensures match RenameChoice(old(tb.columns), columnAnswer, nameAnswer)
      case Stop(o) => out == o && unchanged(tb)
      case Go((i, newName)) =>
        && out == Done
        && old(tb.columns)[i].name != newName
        && tb.columns == old(tb.columns)[i := Column(newName, old(tb.columns)[i].ctype)]
        && tb.rows == Rekey(old(tb.rows), old(tb.columns)[i].name, newName)
        && tb.name == old(tb.name) && !tb.saved
    ensures old(tb.WellFormed()) && DistinctNames(old(tb.columns)) ==> tb.WellFormed()
  {
    var choice := RenameChoice(tb.columns, columnAnswer, nameAnswer);
    match choice
    case Stop(o) => return o;
    case Go((i, newName)) =>
      var oldName := tb.columns[i].name;
      NamesMembership(tb.columns, newName);
      var rows := tb.rows;
      var j := 0;
      while j < |rows|
        invariant 0 <= j <= |rows| == |tb.rows|
        invariant forall m :: 0 <= m < j ==> rows[m] == (tb.rows[m] - {oldName})[newName := Get(tb.rows[m], oldName, S(""))]
        invariant forall m :: j <= m < |rows| ==> rows[m] == tb.rows[m]
      {
        rows := rows[j := (rows[j] - {oldName})[newName := Get(rows[j], oldName, S(""))]];
        j := j + 1;
      }
      if tb.WellFormed() && DistinctNames(tb.columns) {
        RenameKeepsKeys(tb.columns, tb.rows, i, newName);
      }
      tb.columns := tb.columns[i := Column(newName, tb.columns[i].ctype)];
      tb.rows := rows;
      tb.saved := false;
      return Done;
  }

  /** `add_row`: with no columns nothing is asked; otherwise the row is
      appended only once every column has an accepted value, and a cancel
      at any prompt leaves the rows as they were. */
  method AddRow(tb: TableBuilder, answers: seq<Option<string>>, parseFloat: string -> Option<real>) returns (out: Outcome)
    modifies tb
    ensures tb.name == old(tb.name) && tb.columns == old(tb.columns)
    ensures old(tb.columns) == [] ==> out == Rejected(NoColumns) && unchanged(tb)
    ensures old(tb.columns) != [] ==>
      match ReadRow(old(tb.columns), answers, parseFloat, map[])
      case Got(row, _) => out == Done && tb.rows == old(tb.rows) + [row] && !tb.saved
      case Quit => out == Cancelled && unchanged(tb)
      case OutOfInput => out == Rejected(NoMoreInput) && unchanged(tb)
    ensures old(tb.WellFormed()) ==> tb.WellFormed()
  {
    if tb.columns == [] {
      return Rejected(NoColumns);
    }
    var r := ReadRowAnswers(tb.columns, answers, parseFloat);
    match r
    case Quit => return Cancelled;
    case OutOfInput => return Rejected(NoMoreInput);
    case Got(row, _) =>
      if tb.WellFormed() {
        AddRowKeepsKeys(tb.columns, tb.rows, answers, parseFloat);
      }
      tb.rows := tb.rows + [row];
      tb.saved := false;
      return Done;
  }

  /** `edit_cell`: on success exactly one cell changes, the one at the
      chosen row under the chosen column's name. */
  method EditCell(tb: TableBuilder, position: Option<string>, valueAnswers: seq<Option<string>>, parseFloat: string -> Option<real>)
    returns (out: Outcome)
    modifies tb
    ensures tb.name == old(tb.name) && tb.columns == old(tb.columns)
    ensures match EditCellChoice(old(tb.columns), old(tb.rows), position, valueAnswers, parseFloat)
      case Stop(o) => out == o && unchanged(tb)
      case Go((r, c, v)) =>
        && out == Done && !tb.saved
        && |tb.rows| == |old(tb.rows)|
        && tb.rows[r] == old(tb.rows)[r][old(tb.columns)[c].name := v]
        && forall i :: 0 <= i < |tb.rows| && i != r ==> tb.rows[i] == old(tb.rows)[i]
    ensures old(tb.WellFormed()) ==> tb.WellFormed()
  {
    var choice := EditCellChoice(tb.columns, tb.rows, position, valueAnswers, parseFloat);
    match choice
    case Stop(o) => return o;
    case Go((r, c, v)) =>
      if tb.WellFormed() {
        EditCellKeepsKeys(tb.columns, tb.rows, r, c, v);
      }
      tb.rows := tb.rows[r := tb.rows[r][tb.columns[c].name := v]];
      tb.saved := false;
      return Done;
  }

  /** `remove_column`: a cancel reaches `None.strip()`; an unknown name is
      refused; otherwise every column of that name goes, the others keep
      their order, and every row loses the key. */
  method RemoveColumn(tb: TableBuilder, answer: Option<string>) returns (out: Outcome)
    modifies tb
    ensures tb.name == old(tb.name)
    ensures answer.None? ==> out == Crashed && unchanged(tb)
    ensures answer.Some? && Trim(answer.value) !in Names(old(tb.columns)) ==>
      out == Rejected(UnknownColumn) && unchanged(tb)
    ensures answer.Some? && Trim(answer.value) in Names(old(tb.columns)) ==>
      && out == Done
      && tb.columns == Without(old(tb.columns), Trim(answer.value))
      && tb.rows == Drop(old(tb.rows), Trim(answer.value))
      && !tb.saved
    ensures old(tb.WellFormed()) ==> tb.WellFormed()
  {
    if answer.None? {
      return Crashed;
    }
    var name := Trim(answer.value);
    if name !in Names(tb.columns) {
      return Rejected(UnknownColumn);
    }
    var rows := tb.rows;
    var i := 0;
    while i < |rows|
      invariant 0 <= i <= |rows| == |tb.rows|
      invariant forall j :: 0 <= j < i ==> rows[j] == tb.rows[j] - {name}
      invariant forall j :: i <= j < |rows| ==> rows[j] == tb.rows[j]
    {
      rows := rows[i := rows[i] - {name}];
      i := i + 1;
    }
    if tb.WellFormed() {
      RemoveColumnKeepsKeys(tb.columns, tb.rows, name);
    }
    tb.columns := Without(tb.columns, name);
    tb.rows := rows;
    tb.saved := false;
    return Done;
  }

  /** `remove_row`: the answer goes straight into `int()` with no `try`, so
      a cancel or a non-number escapes; a 1-based number in range pops that
      row, any other number is refused. */
  method RemoveRow(tb: TableBuilder, answer: Option<string>) returns (out: Outcome)
    modifies tb
    ensures tb.name == old(tb.name) && tb.columns == old(tb.columns)
    ensures answer.None? || ParseInt(answer.value).None? ==> out == Crashed && unchanged(tb)
    ensures answer.Some? && ParseInt(answer.value).Some? ==>
      var k := ParseInt(answer.value).value;
      if 1 <= k <= |old(tb.rows)| then
        out == Done && tb.rows == old(tb.rows)[..k - 1] + old(tb.rows)[k..] && !tb.saved
      else
        out == Rejected(InvalidChoice) && unchanged(tb)
    ensures old(tb.WellFormed()) ==> tb.WellFormed()
  {
    if answer.None? {
      return Crashed;
    }
    var n := ParseInt(answer.value);
    if n.None? {
      return Crashed;
    }
    var k := n.value;
    if 1 <= k <= |tb.rows| {
      if tb.WellFormed() {
        RemoveRowKeepsKeys(tb.columns, tb.rows, k - 1);
      }
      tb.rows := tb.rows[..k - 1] + tb.rows[k..];
      tb.saved := false;
      return Done;
    }
    return Rejected(InvalidChoice);
  }

  /** `clear_table`: no columns and no rows; the name and the saved flag
      stay as they were. */
  method ClearTable(tb: TableBuilder)
    modifies tb
    ensures tb.columns == [] && tb.rows == []
    ensures tb.name == old(tb.name) && tb.saved == old(tb.saved)
    ensures tb.WellFormed()
  {
    tb.columns := [];
    tb.rows := [];
  }
}
