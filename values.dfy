/** Values shared by the whole model: the optional wrapper, the cell values a
    table holds, Python's truthiness on them, the outcome every interactive
    operation reports, and the ASCII text helpers (strip, lower, upper,
    isdigit, int()) the operations rely on. */
module Values {

  datatype Option<+T> = None | Some(value: T)

  /** A cell value as the program holds it in a row dictionary: text, an
      integer, a float, a boolean, or None (what SQL NULL and empty
      spreadsheet cells become). */
  datatype Cell = S(text: string) | I(num: int) | F(x: real) | B(flag: bool) | Null

  /** Python truthiness of a cell value: `bool(value)`. */
  predicate Truthy(c: Cell)
  {
    match c
    case S(t) => t != ""
    case I(n) => n != 0
    case F(x) => x != 0.0
    case B(b) => b
    case Null => false
  }

  /** Why an operation stopped without applying its change. */
  datatype Reason =
    | NoColumns | NoRows | NoData | DuplicateColumn | UnknownColumn
    | InvalidChoice | InvalidAnswer | NoMoreInput
    | FileNotFound | EmptySource | Unreadable | WriteFailed
    | NotConnected | NoTables | UnsupportedType | EmptyQuery | InvalidSetting
    | NoDatabaseName | NoDatabases
    | Raised   // an exception that the operation itself catches and reports

  /** What an interactive operation reports. `Crashed` is an exception that
      escapes the operation: the command loops do not catch it. */
  datatype Outcome = Done | Cancelled | Rejected(reason: Reason) | Crashed

  /** What the prompts of an operation decide: go on with a value, or stop
      with an outcome and no change. */
  datatype Step<T> = Go(value: T) | Stop(outcome: Outcome)

  // ---------------------------------------------------------------------
  // Text helpers (ASCII only)
  // ---------------------------------------------------------------------

  /** The ASCII characters that `str.isspace` accepts. */
  predicate IsSpace(ch: char)
  {
    ch == ' ' || ch == '\t' || ch == '\n' || ch == '\r' || ch == '\U{B}' || ch == '\U{C}'
    || ('\U{1C}' <= ch <= '\U{1F}')
  }

  function TrimStart(s: string): string
  {
    if s != [] && IsSpace(s[0]) then TrimStart(s[1..]) else s
  }

  function TrimEnd(s: string): string
  {
    if s != [] && IsSpace(s[|s| - 1]) then TrimEnd(s[..|s| - 1]) else s
  }

  /** `str.strip()`: drop leading and trailing whitespace. */
  function Trim(s: string): string
  {
    TrimEnd(TrimStart(s))
  }

  lemma {:induction false} TrimStartFacts(s: string)
    ensures var r := TrimStart(s);
      && |r| <= |s| && r == s[|s| - |r|..]
      && (r == [] || !IsSpace(r[0]))
      && (forall k :: 0 <= k < |s| - |r| ==> IsSpace(s[k]))
  {
    if s != [] && IsSpace(s[0]) {
      TrimStartFacts(s[1..]);
    }
  }

  lemma {:induction false} TrimEndFacts(s: string)
    ensures var r := TrimEnd(s);
      && |r| <= |s| && r == s[..|r|]
      && (r == [] || !IsSpace(r[|r| - 1]))
      && (forall k :: |r| <= k < |s| ==> IsSpace(s[k]))
  {
    if s != [] && IsSpace(s[|s| - 1]) {
      TrimEndFacts(s[..|s| - 1]);
    }
  }

  /** The stripped text is a slice of the text that neither starts nor ends
      with whitespace, and text that already neither starts nor ends with
      whitespace is left as it is. */
  lemma TrimFacts(s: string)
    ensures |Trim(s)| <= |s|
    ensures Trim(s) == [] || (!IsSpace(Trim(s)[0]) && !IsSpace(Trim(s)[|Trim(s)| - 1]))
    ensures (s == [] || (!IsSpace(s[0]) && !IsSpace(s[|s| - 1]))) ==> Trim(s) == s
  {
    TrimStartFacts(s);
    var m := TrimStart(s);
    TrimEndFacts(m);
    if m != [] {
      assert m[0] == TrimEnd(m)[0] || TrimEnd(m) == [];
    }
  }

  /** Stripping twice is stripping once, so the second `.strip()` that some
      operations apply to an already stripped answer changes nothing. */
  lemma TrimIdempotent(s: string)
    ensures Trim(Trim(s)) == Trim(s)
  {
    TrimFacts(s);
    TrimFacts(Trim(s));
  }

  function LowerChar(ch: char): char
  {
    if 'A' <= ch <= 'Z' then (ch as int + 32) as char else ch
  }

  function UpperChar(ch: char): char
  {
    if 'a' <= ch <= 'z' then (ch as int - 32) as char else ch
  }

  /** `str.lower()` on ASCII letters. */
  function Lower(s: string): (r: string)
    ensures |r| == |s|
    ensures forall k :: 0 <= k < |s| ==> r[k] == LowerChar(s[k])
  {
    seq(|s|, k requires 0 <= k < |s| => LowerChar(s[k]))
  }

  /** `str.upper()` on ASCII letters. */
  function Upper(s: string): (r: string)
    ensures |r| == |s|
    ensures forall k :: 0 <= k < |s| ==> r[k] == UpperChar(s[k])
  {
    seq(|s|, k requires 0 <= k < |s| => UpperChar(s[k]))
  }

  predicate IsDigit(ch: char) { '0' <= ch <= '9' }

  /** `str.isdigit()`: non-empty and every character a digit. */
  predicate IsDigits(s: string)
  {
    |s| > 0 && forall k :: 0 <= k < |s| ==> IsDigit(s[k])
  }

  /** The value of a run of decimal digits. */
  function DigitsValue(s: string): (n: nat)
    requires forall k :: 0 <= k < |s| ==> IsDigit(s[k])
  {
    if s == [] then 0
    else
      assert IsDigit(s[|s| - 1]);
      10 * DigitsValue(s[..|s| - 1]) + (s[|s| - 1] as int - '0' as int)
  }

  /** The digits of Python integer literal syntax: decimal digits, where a
      single underscore may stand between two of them ("1_000"). */
  predicate IsNumeral(s: string)
  {
    |s| > 0 && IsDigit(s[0]) && IsDigit(s[|s| - 1])
    && (forall k :: 0 <= k < |s| ==> IsDigit(s[k]) || s[k] == '_')
    && (forall k :: 0 <= k < |s| - 1 && s[k] == '_' ==> IsDigit(s[k + 1]))
  }

  /** The text with its underscores left out. */
  function Unscored(s: string): (r: string)
    ensures '_' !in s ==> r == s
    ensures '_' !in r
  {
    if s == [] then []
    else
      var rest := Unscored(s[1..]);
      if s[0] == '_' then rest
      else
        assert s == [s[0]] + s[1..];
        [s[0]] + rest
  }

  /** Digits and underscores lose the underscores and keep the digits. */
  lemma {:induction false} UnscoredDigits(s: string)
    requires forall k :: 0 <= k < |s| ==> IsDigit(s[k]) || s[k] == '_'
    ensures forall k :: 0 <= k < |Unscored(s)| ==> IsDigit(Unscored(s)[k])
  {
    if s != [] {
      assert forall k :: 0 <= k < |s[1..]| ==> s[1..][k] == s[k + 1];
      UnscoredDigits(s[1..]);
    }
  }

  /** The value of a numeral: its digits read in base ten. */
  function NumeralValue(s: string): nat
    requires IsNumeral(s)
  {
    UnscoredDigits(s);
    DigitsValue(Unscored(s))
  }

  /** Python's `int(text)` on a string: surrounding whitespace, an optional
      sign, then a numeral; anything else raises ValueError (None). */
  function ParseInt(s: string): Option<int>
  {
    var t := Trim(s);
    if IsNumeral(t) then Some(NumeralValue(t))
    else if |t| > 1 && t[0] == '-' && IsNumeral(t[1..]) then Some(-(NumeralValue(t[1..]) as int))
    else if |t| > 1 && t[0] == '+' && IsNumeral(t[1..]) then Some(NumeralValue(t[1..]))
    else None
  }

  /** A run of digits is a numeral that reads as its decimal value. */
  lemma DigitsAreNumeral(s: string)
    requires IsDigits(s)
    ensures IsNumeral(s) && NumeralValue(s) == DigitsValue(s)
  {
    assert forall k :: 0 <= k < |s| ==> s[k] != '_' by {
      forall k | 0 <= k < |s| ensures s[k] != '_' { assert IsDigit(s[k]); }
    }
  }

  /** A numeral without underscores is a run of digits. */
  lemma NumeralWithoutUnderscore(s: string)
    requires '_' !in s
    ensures IsNumeral(s) ==> IsDigits(s)
  {
    if IsNumeral(s) {
      forall k | 0 <= k < |s| ensures IsDigit(s[k]) { assert s[k] != '_'; }
    }
  }

  /** Text made only of digits reads as its decimal value. */
  lemma ParseDigits(s: string)
    requires IsDigits(s)
    ensures ParseInt(s) == Some(DigitsValue(s))
  {
    TrimFacts(s);
    DigitsAreNumeral(s);
  }

  /** Underscores group digits, one at a time and only between two. */
  lemma UnderscoreNumerals()
    ensures ParseInt("0_1") == Some(1)
    ensures ParseInt("1__0") == None
    ensures ParseInt("_1") == None
  {
    TrimFacts("0_1");
    assert Unscored("0_1") == "01" by {
      assert "0_1"[1..] == "_1";
      assert "_1"[1..] == "1";
      assert Unscored("1") == "1";
    }
    assert DigitsValue("01") == 1 by { assert "01"[..1] == "0"; }
    TrimFacts("1__0");
    assert !IsNumeral("1__0") by { assert "1__0"[1] == '_' && !IsDigit("1__0"[2]); }
    TrimFacts("_1");
  }

  function DigitChar(d: nat): (ch: char)
    requires d < 10
    ensures IsDigit(ch) && ch as int - '0' as int == d
  {
    ('0' as int + d) as char
  }

  /** `str(n)` for a natural number. */
  function NatToString(n: nat): (s: string)
    ensures IsDigits(s)
    ensures DigitsValue(s) == n
  {
    if n < 10 then [DigitChar(n)]
    else
      var p := NatToString(n / 10);
      var s := p + [DigitChar(n % 10)];
      assert s[..|s| - 1] == p;
      s
  }

  /** `str(n)` for any integer. */
  function IntToString(n: int): string
  {
    if n < 0 then "-" + NatToString(-n) else NatToString(n)
  }

  predicate EndsWith(s: string, suffix: string)
  {
    |suffix| <= |s| && s[|s| - |suffix|..] == suffix
  }

  /** Python's `needle in haystack` on strings: the needle starts at some
      position of the haystack. */
  predicate IsSubstring(needle: string, haystack: string)
  {
    needle <= haystack || (haystack != [] && IsSubstring(needle, haystack[1..]))
  }

  /** Python's `str(value)` on a cell; how a float prints is left to the
      caller. */
  function PyStr(c: Cell, floatRepr: real -> string): string
  {
    match c
    case S(t) => t
    case I(n) => IntToString(n)
    case F(x) => floatRepr(x)
    case B(b) => if b then "True" else "False"
    case Null => "None"
  }

  /** `s.split(sep)` for a one-character separator: the pieces between
      separators, never fewer than one. */
  function Split(s: string, sep: char): (parts: seq<string>)
    ensures |parts| >= 1
    ensures forall i :: 0 <= i < |parts| ==> sep !in parts[i]
  {
    if s == [] then [""]
    else
      var rest := Split(s[1..], sep);
      if s[0] == sep then [""] + rest else [[s[0]] + rest[0]] + rest[1..]
  }

  /** `sep.join(parts)`. */
  function Join(parts: seq<string>, sep: char): string
  {
    if parts == [] then ""
    else if |parts| == 1 then parts[0]
    else parts[0] + [sep] + Join(parts[1..], sep)
  }

  /** Joining the pieces of a split gives back the text. */
  lemma {:induction false} SplitJoin(s: string, sep: char)
    ensures Join(Split(s, sep), sep) == s
  {
    if s != [] {
      SplitJoin(s[1..], sep);
      var rest := Split(s[1..], sep);
      if s[0] != sep && |rest| > 1 {
        assert rest == [rest[0]] + rest[1..];
      }
    }
  }

  /** Splitting a join of separator-free pieces gives back the pieces. */
  lemma {:induction false} JoinSplit(parts: seq<string>, sep: char)
    requires |parts| >= 1
    requires forall i :: 0 <= i < |parts| ==> sep !in parts[i]
    ensures Split(Join(parts, sep), sep) == parts
  {
    if |parts| == 1 {
      SplitPlain(parts[0], sep);
    } else {
      JoinSplit(parts[1..], sep);
      SplitThrough(parts[0], Join(parts[1..], sep), sep);
    }
  }

  lemma {:induction false} SplitPlain(p: string, sep: char)
    requires sep !in p
    ensures Split(p, sep) == [p]
  {
    if p != [] {
      SplitPlain(p[1..], sep);
      assert p[0] != sep;
      assert [p[0]] + p[1..] == p;
    }
  }

  lemma {:induction false} SplitThrough(p: string, tail: string, sep: char)
    requires sep !in p
    ensures Split(p + [sep] + tail, sep) == [p] + Split(tail, sep)
  {
    if p == [] {
      assert ([] + [sep] + tail)[1..] == tail;
    } else {
      assert (p + [sep] + tail)[1..] == p[1..] + [sep] + tail;
      SplitThrough(p[1..], tail, sep);
      assert [p[0]] + p[1..] == p;
    }
  }

  lemma IntTextRoundTrip(n: nat)
    ensures ParseInt(IntToString(n)) == Some(n)
  {
    var s := NatToString(n);
    ParseDigits(s);
  }
}
