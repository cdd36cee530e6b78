/** The parts of the application window that compute something (window.py):
    the validation and parsing of the row and column fields, and the cell size
    the application derives from the canvas size. */
module Window {
  import opened Mazes

  datatype Option<T> = None | Some(value: T)

  /** The value a row or column field falls back to when its text is not a number. */
  const DefaultDimension := 12

  predicate IsDigit(c: char) {
    '0' <= c <= '9'
  }

  predicate AllDigits(s: string) {
    forall k :: 0 <= k < |s| ==> IsDigit(s[k])
  }

  // ---------------------------------------------------------------------------
  // validate_int_val: re.match("^[0-9]*$", value) and len(value) < 4

  /** How many characters `[0-9]*` consumes at the start of `s`. */
  function LeadingDigits(s: string): (k: nat)
    ensures k <= |s| && AllDigits(s[..k])
    ensures k < |s| ==> !IsDigit(s[k])
  {
    if s == [] || !IsDigit(s[0]) then 0 else 1 + LeadingDigits(s[1..])
  }

  /** Python's `re.match("^[0-9]*$", s)`: the digits at the start, then `$`,
      which matches at the end of `s` or just before a newline that ends `s`.
      Giving back digits cannot help `$`, so the longest run decides. */
  predicate MatchesDigitPattern(s: string)
    ensures AllDigits(s) ==> MatchesDigitPattern(s)
    ensures MatchesDigitPattern(s) ==> forall k :: 0 <= k < |s| - 1 ==> IsDigit(s[k])
  {
    LeadingDigitsOfDigits(s);
    var k := LeadingDigits(s);
    assert forall m :: 0 <= m < k ==> s[..k][m] == s[m];
    k == |s| || (k == |s| - 1 && s[k] == '\n')
  }

  /** On a string of digits `[0-9]*` consumes everything. */
  lemma {:induction false} LeadingDigitsOfDigits(s: string)
    ensures AllDigits(s) ==> LeadingDigits(s) == |s|
  {
    if s != [] {
      LeadingDigitsOfDigits(s[1..]);
      if AllDigits(s) {
        assert AllDigits(s[1..]);
      }
    }
  }

  /** `[0-9]*` stops at the first character that is not a digit. */
  lemma {:induction false} LeadingDigitsStop(d: string, rest: string)
    requires AllDigits(d) && rest != [] && !IsDigit(rest[0])
    ensures LeadingDigits(d + rest) == |d|
  {
    if d != [] {
      assert (d + rest)[1..] == d[1..] + rest;
      LeadingDigitsStop(d[1..], rest);
    } else {
      assert d + rest == rest;
    }
  }

  /** The pattern accepts exactly the strings of digits, with or without one
      final newline. */
  lemma DigitPatternMeaning(s: string)
    ensures MatchesDigitPattern(s) <==>
      AllDigits(s) || (|s| >= 1 && s[|s| - 1] == '\n' && AllDigits(s[..|s| - 1]))
  {
    var k := LeadingDigits(s);
    if k == |s| {
      assert s[..k] == s;
    } else if k == |s| - 1 {
      assert s[..k] == s[..|s| - 1];
    }
    if AllDigits(s) {
      LeadingDigitsOfDigits(s);
    } else if |s| >= 1 && s[|s| - 1] == '\n' && AllDigits(s[..|s| - 1]) {
      assert s == s[..|s| - 1] + "\n";
      LeadingDigitsStop(s[..|s| - 1], "\n");
    }
  }

  /** The key validator of the row and column fields: the proposed text is
      accepted when it matches `^[0-9]*$` and is shorter than 4 characters. */
  function ValidateIntVal(value: string): (ok: bool)
    ensures ok <==>
      |value| < 4 &&
      (AllDigits(value) || (|value| >= 1 && value[|value| - 1] == '\n' && AllDigits(value[..|value| - 1])))
  {
    DigitPatternMeaning(value);
    MatchesDigitPattern(value) && |value| < 4
  }

  /** What the validator does with a few texts: a sign, a letter or a fourth
      digit is refused; the empty text and a final newline are let through. */
  lemma ValidatorExamples()
    ensures ValidateIntVal("") && ValidateIntVal("0") && ValidateIntVal("999")
    ensures ValidateIntVal("12\n") && ValidateIntVal("\n")
    ensures !ValidateIntVal("-1") && !ValidateIntVal("1a") && !ValidateIntVal("1000")
    ensures !ValidateIntVal(" 12") && !ValidateIntVal("12\n\n")
  {
    assert "-1"[0] == '-';
    assert "1a"[1] == 'a';
    assert " 12"[0] == ' ';
    assert "12\n\n"[2] == '\n';
  }

  // ---------------------------------------------------------------------------
  // int(text) for a str argument

  /** The ASCII characters Python counts as white space. */
  predicate IsSpace(c: char) {
    c == ' ' || 9 <= c as int <= 13 || 28 <= c as int <= 31
  }

  function TrimLeft(s: string): (t: string)
    ensures |t| <= |s|
    ensures t != [] ==> !IsSpace(t[0])
  {
    if s != [] && IsSpace(s[0]) then TrimLeft(s[1..]) else s
  }

  function TrimRight(s: string): (t: string)
    ensures |t| <= |s|
    ensures t != [] ==> !IsSpace(t[|t| - 1])
  {
    if s != [] && IsSpace(s[|s| - 1]) then TrimRight(s[..|s| - 1]) else s
  }

  /** `s` without the white space at either end. */
  function Strip(s: string): string {
    TrimRight(TrimLeft(s))
  }

  predicate DigitsAndUnderscores(s: string) {
    forall k :: 0 <= k < |s| ==> IsDigit(s[k]) || s[k] == '_'
  }

  /** Digits, with single underscores allowed between two digits. */
  predicate IsDigitGroups(s: string) {
    && |s| >= 1
    && DigitsAndUnderscores(s)
    && forall k :: 0 <= k < |s| && s[k] == '_' ==> 0 < k && k + 1 < |s| && IsDigit(s[k + 1])
  }

  function DigitValue(c: char): nat
    requires IsDigit(c)
  {
    c as int - '0' as int
  }

  /** The decimal value of the digits of `s`, underscores skipped. */
  function DigitsValue(s: string): nat
    requires DigitsAndUnderscores(s)
  {
    if s == [] then 0
    else if s[|s| - 1] == '_' then DigitsValue(s[..|s| - 1])
    else 10 * DigitsValue(s[..|s| - 1]) + DigitValue(s[|s| - 1])
  }

  /** Python's `int(text)`: white space around an optional sign and digit
      groups; anything else makes the conversion fail (None, a ValueError). */
  function PyInt(text: string): (r: Option<int>)
    ensures Strip(text) == [] ==> r.None?
    ensures r.Some? && r.value < 0 ==> Strip(text)[0] == '-'
  {
    ParseStripped(Strip(text))
  }

  /** `int` of a text without surrounding white space.  A text it accepts ends
      in a digit and holds only digits and underscores after its first
      character; only a leading minus gives a negative number. */
  function ParseStripped(t: string): (r: Option<int>)
    ensures r.Some? ==> |t| >= 1 && IsDigit(t[|t| - 1])
    ensures r.Some? ==> forall k :: 0 < k < |t| ==> IsDigit(t[k]) || t[k] == '_'
    ensures r.Some? && r.value < 0 ==> t[0] == '-'
  {
    if |t| >= 1 && (t[0] == '-' || t[0] == '+') then
      if IsDigitGroups(t[1..]) then
        var magnitude: int := DigitsValue(t[1..]);
        Some(if t[0] == '-' then -magnitude else magnitude)
      else None
    else if IsDigitGroups(t) then Some(DigitsValue(t))
    else None
  }

  /** A non-empty string of digits is a single digit group. */
  lemma DigitsAreGroups(s: string)
    requires |s| >= 1 && AllDigits(s)
    ensures IsDigitGroups(s)
  {
    forall k | 0 <= k < |s|
      ensures IsDigit(s[k])
    {
    }
  }

  /** `str(n)`: the shortest decimal digits of a natural number. */
  function DecimalString(n: nat): (s: string)
    ensures |s| >= 1 && AllDigits(s)
  {
    var last := [('0' as int + n % 10) as char];
    assert IsDigit(last[0]);
    if n < 10 then last else DecimalString(n / 10) + last
  }

  lemma {:induction false} DecimalStringValue(n: nat)
    ensures DigitsValue(DecimalString(n)) == n
  {
    var s := DecimalString(n);
    if n >= 10 {
      DecimalStringValue(n / 10);
      assert s[..|s| - 1] == DecimalString(n / 10);
    }
  }

  /** `int` of a non-empty string of digits is the number they spell. */
  lemma PyIntOfDigits(s: string)
    requires |s| >= 1 && AllDigits(s)
    ensures PyInt(s) == Some(DigitsValue(s))
  {
    NoSpaceNoStrip(s);
    ParseDigits(s);
  }

  /** Without white space around them, the digits parse to the number they spell. */
  lemma ParseDigits(s: string)
    requires |s| >= 1 && AllDigits(s)
    ensures ParseStripped(s) == Some(DigitsValue(s))
  {
    DigitsAreGroups(s);
    assert IsDigit(s[0]);
  }

  /** `int(str(n)) == n` for every natural number n. */
  lemma PyIntOfDecimal(n: nat)
    ensures PyInt(DecimalString(n)) == Some(n)
  {
    PyIntOfDigits(DecimalString(n));
    DecimalStringValue(n);
  }

  predicate AllSpace(s: string) {
    forall k :: 0 <= k < |s| ==> IsSpace(s[k])
  }

  /** White space before a text that starts with something else is stripped. */
  lemma {:induction false} TrimLeftSpaces(pre: string, x: string)
    requires AllSpace(pre) && x != [] && !IsSpace(x[0])
    ensures TrimLeft(pre + x) == x
  {
    if pre == [] {
      assert pre + x == x;
    } else {
      assert (pre + x)[1..] == pre[1..] + x;
      TrimLeftSpaces(pre[1..], x);
    }
  }

  /** White space after a text that ends with something else is stripped. */
  lemma {:induction false} TrimRightSpaces(x: string, post: string)
    requires AllSpace(post) && x != [] && !IsSpace(x[|x| - 1])
    ensures TrimRight(x + post) == x
  {
    if post == [] {
      assert x + post == x;
    } else {
      assert (x + post)[..|x + post| - 1] == x + post[..|post| - 1];
      TrimRightSpaces(x, post[..|post| - 1]);
    }
  }

  /** `int` ignores the white space around a number: `int(" 42\n")` is
      `int("42")`. */
  lemma PyIntStripsSpace(pre: string, s: string, post: string)
    requires AllSpace(pre) && AllSpace(post)
    requires s != [] && !IsSpace(s[0]) && !IsSpace(s[|s| - 1])
    ensures PyInt(pre + s + post) == PyInt(s)
  {
    assert pre + s + post == pre + (s + post);
    TrimLeftSpaces(pre, s + post);
    TrimRightSpaces(s, post);
    TrimLeftSpaces([], s);
    TrimRightSpaces(s, []);
  }

  /** Stripping changes nothing in a text that starts and ends with a digit. */
  lemma NoSpaceNoStrip(s: string)
    requires |s| >= 1 && AllDigits(s)
    ensures Strip(s) == s
  {
    assert !IsSpace(s[0]) && !IsSpace(s[|s| - 1]);
  }

  /** Three digits at most are worth less than 1000. */
  lemma {:induction false} ShortDigitsBound(s: string)
    requires AllDigits(s) && |s| <= 3
    ensures DigitsValue(s) < Pow10(|s|) <= 1000
  {
    if s != [] {
      assert AllDigits(s[..|s| - 1]);
      ShortDigitsBound(s[..|s| - 1]);
    }
  }

  function Pow10(n: nat): nat {
    if n == 0 then 1 else 10 * Pow10(n - 1)
  }

  // ---------------------------------------------------------------------------
  // get_row_value / get_col_value

  /** The value of a row or column field: `int` of its text, or 12 when the
      conversion fails.  Digits with only white space around them read as the
      number they spell; a blank text reads as 12. */
  function FieldValue(text: string): (v: int)
    ensures PyInt(text).Some? ==> v == PyInt(text).value
    ensures PyInt(text).None? ==> v == DefaultDimension
    ensures |Strip(text)| >= 1 && AllDigits(Strip(text)) ==> v == DigitsValue(Strip(text))
    ensures Strip(text) == [] ==> v == DefaultDimension
  {
    StrippedDigits(text);
    match PyInt(text)
    case Some(n) => n
    case None => DefaultDimension
  }

  /** `int` of digits with only white space around them is their number. */
  lemma StrippedDigits(text: string)
    ensures |Strip(text)| >= 1 && AllDigits(Strip(text)) ==> PyInt(text) == Some(DigitsValue(Strip(text)))
  {
    if |Strip(text)| >= 1 && AllDigits(Strip(text)) {
      ParseDigits(Strip(text));
    }
  }

  /** For a text the validator lets through, the field's value is the number
      its digits spell, between 0 and 999, or 12 when there are no digits. */
  lemma ValidatedFieldValue(text: string)
    requires ValidateIntVal(text)
    ensures 0 <= FieldValue(text) <= 999
    ensures var d := if text != [] && text[|text| - 1] == '\n' then text[..|text| - 1] else text;
      FieldValue(text) == if d == [] then DefaultDimension else DigitsValue(d)
  {
    var d := if text != [] && text[|text| - 1] == '\n' then text[..|text| - 1] else text;
    assert AllDigits(d);
    if d == [] {
      assert Strip(text) == [];
    } else {
      assert IsDigit(d[0]) && IsDigit(d[|d| - 1]);
      NoSpaceNoStrip(d);
      assert TrimLeft(text) == text;
      if d != text {
        assert text[..|text| - 1] == d;
        assert TrimRight(text) == TrimRight(d);
      }
      assert Strip(text) == d;
      assert d[0] != '-' && d[0] != '+';
      assert IsDigitGroups(d);
      ShortDigitsBound(d);
    }
  }

  /** The row and column fields of the configuration window. */
  datatype RowColFrame = RowColFrame(rowText: string, colText: string) {

    /** get_row_value: digits with only white space around them read as
        their number, a blank field as 12. */
    function GetRowValue(): (v: int)
      ensures |Strip(rowText)| >= 1 && AllDigits(Strip(rowText)) ==> v == DigitsValue(Strip(rowText))
      ensures Strip(rowText) == [] ==> v == DefaultDimension
    {
      FieldValue(rowText)
    }

    /** get_col_value: the same for the column field. */
    function GetColValue(): (v: int)
      ensures |Strip(colText)| >= 1 && AllDigits(Strip(colText)) ==> v == DigitsValue(Strip(colText))
      ensures Strip(colText) == [] ==> v == DefaultDimension
    {
      FieldValue(colText)
    }

    /** Both fields hold a text the validator accepted. */
    predicate Valid() {
      ValidateIntVal(rowText) && ValidateIntVal(colText)
    }
  }

  /** A keystroke proposes a new text for a field; the field takes it only if
      the validator accepts it. */
  function KeyEdit(text: string, proposed: string): (t: string)
    ensures ValidateIntVal(text) ==> ValidateIntVal(t)
    ensures t == proposed || t == text
    ensures ValidateIntVal(proposed) ==> t == proposed
    ensures !ValidateIntVal(proposed) ==> t == text
  {
    if ValidateIntVal(proposed) then proposed else text
  }

  /** The fields start empty and receive "12" each, which the validator accepts. */
  function NewRowColFrame(): (f: RowColFrame)
    ensures f.Valid() && f.GetRowValue() == 12 && f.GetColValue() == 12
  {
    TwelveAccepted();
    RowColFrame(KeyEdit("", "12"), KeyEdit("", "12"))
  }

  /** The validator accepts "12", whose value is 12. */
  lemma TwelveAccepted()
    ensures ValidateIntVal("12") && FieldValue("12") == 12
  {
    assert AllDigits("12");
    PyIntOfDigits("12");
    assert "12"[..1] == "1";
  }

  /** Whatever the user types, both fields read as a number from 0 to 999. */
  lemma RowColValuesInRange(f: RowColFrame)
    requires f.Valid()
    ensures 0 <= f.GetRowValue() <= 999 && 0 <= f.GetColValue() <= 999
  {
    ValidatedFieldValue(f.rowText);
    ValidatedFieldValue(f.colText);
  }

  // ---------------------------------------------------------------------------
  // The cell size App.__init__ hands to the maze

  /** Python's `a // b`: the quotient rounded towards minus infinity. */
  function FloorDiv(a: int, b: int): (q: int)
    requires b != 0
    ensures b > 0 ==> b * q <= a < b * q + b
    ensures b < 0 ==> b * q >= a > b * q + b
  {
    if b > 0 then a / b else (-a) / (-b)
  }

  /** The cell width `(width - 2 * xMargin) // row` and height
      `(height - 2 * yMargin) // column`; a zero count raises ZeroDivisionError
      (None). */
  function CellSizes(width: int, height: int, xMargin: int, yMargin: int, row: int, column: int): (r: Option<(int, int)>)
    ensures r.None? <==> row == 0 || column == 0
    ensures r.Some? && row > 0 ==>
      row * r.value.0 <= width - 2 * xMargin < row * r.value.0 + row
    ensures r.Some? && column > 0 ==>
      column * r.value.1 <= height - 2 * yMargin < column * r.value.1 + column
  {
    if row == 0 || column == 0 then None
    else Some((FloorDiv(width - 2 * xMargin, row), FloorDiv(height - 2 * yMargin, column)))
  }

  /** The application's defaults: an 800 x 600 canvas, 30-pixel margins and a
      10 x 10 maze give 74 x 54 cells. */
  lemma DefaultCellSizes()
    ensures CellSizes(800, 600, 30, 30, 10, 10) == Some((74, 54))
  {
  }

  lemma MultiplyMonotone(a: int, b: int, c: int)
    requires a >= 0 && b <= c
    ensures a * b <= a * c
  {
  }

  /** With positive counts and margins that fit, every cell of the maze the
      application builds lies inside the margins of the canvas.  The row count
      divides the width because rows are laid out along x. */
  lemma AppMazeFitsCanvas(width: int, height: int, xMargin: int, yMargin: int, row: int, column: int, i: int, j: int)
    requires row > 0 && column > 0 && width >= 2 * xMargin && height >= 2 * yMargin
    requires 0 <= i < row && 0 <= j < column
    ensures var sizes := CellSizes(width, height, xMargin, yMargin, row, column).value;
      var b := CellBox(Layout(xMargin, yMargin, sizes.0, sizes.1), i, j);
      xMargin <= b.topLeft.x && b.bottomRight.x <= width - xMargin &&
      yMargin <= b.topLeft.y && b.bottomRight.y <= height - yMargin
  {
    var sizes := CellSizes(width, height, xMargin, yMargin, row, column).value;
    var sx, sy := sizes.0, sizes.1;
    assert sx >= 0 && sy >= 0;
    MultiplyMonotone(sx, 0, i);
    MultiplyMonotone(sx, i + 1, row);
    MultiplyMonotone(sy, 0, j);
    MultiplyMonotone(sy, j + 1, column);
    assert sx * (i + 1) == sx * i + sx;
    assert sy * (j + 1) == sy * j + sy;
  }
}
