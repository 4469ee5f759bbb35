/** Cell values as the spreadsheet library hands them to the attendance
    engine, and the string and integer conversions the engine applies to
    them: whitespace stripping, the digit test, decimal rendering, integer
    parsing and identifier normalisation. */
module Cells {

  datatype Option<T> = None | Some(value: T)

  /** A cell's value. A floating-point cell is abstracted to the integer
      its truncation toward zero gives and whether it had no fractional
      part: nothing else about a float is used by the engine. */
  datatype Value =
    | Empty
    | Int(i: int)
    | Bool(b: bool)
    | Float(whole: int, integral: bool)
    | Text(s: string)

  // ---------------------------------------------------------------------
  // Whitespace and stripping
  // ---------------------------------------------------------------------

  /** The characters Python's str.strip() removes (those for which
      str.isspace() holds). */
  predicate IsSpace(c: char) {
    || '\t' <= c <= '\r'
    || '\U{1c}' <= c <= '\U{1f}'
    || c == ' '
    || c == '\U{85}'
    || c == '\U{a0}'
    || c == '\U{1680}'
    || '\U{2000}' <= c <= '\U{200a}'
    || c == '\U{2028}'
    || c == '\U{2029}'
    || c == '\U{202f}'
    || c == '\U{205f}'
    || c == '\U{3000}'
  }

  /** Neither end of `s` is whitespace. */
  predicate NoOuterSpace(s: string) {
    s == [] || (!IsSpace(s[0]) && !IsSpace(s[|s| - 1]))
  }

  predicate AllSpace(s: string) {
    forall k :: 0 <= k < |s| ==> IsSpace(s[k])
  }

  function TrimStart(s: string): string {
    if s != [] && IsSpace(s[0]) then TrimStart(s[1..]) else s
  }

  function TrimEnd(s: string): string {
    if s != [] && IsSpace(s[|s| - 1]) then TrimEnd(s[..|s| - 1]) else s
  }

  /** TrimStart drops exactly the leading whitespace. */
  lemma {:induction false} TrimStartSpec(s: string)
    ensures |TrimStart(s)| <= |s| && TrimStart(s) == s[|s| - |TrimStart(s)|..]
    ensures AllSpace(s[..|s| - |TrimStart(s)|])
    ensures TrimStart(s) == [] || !IsSpace(TrimStart(s)[0])
  {
    if s != [] && IsSpace(s[0]) {
      var p := s[1..];
      TrimStartSpec(p);
      assert TrimStart(s) == TrimStart(p);
      var k := |s| - |TrimStart(s)|;
      assert AllSpace(p[..k - 1]);
      forall j | 0 <= j < k ensures IsSpace(s[..k][j]) {
        if j > 0 { assert s[..k][j] == p[..k - 1][j - 1]; }
      }
    }
  }

  /** TrimEnd drops exactly the trailing whitespace. */
  lemma {:induction false} TrimEndSpec(s: string)
    ensures |TrimEnd(s)| <= |s| && TrimEnd(s) == s[..|TrimEnd(s)|]
    ensures AllSpace(s[|TrimEnd(s)|..])
    ensures TrimEnd(s) == [] || !IsSpace(TrimEnd(s)[|TrimEnd(s)| - 1])
  {
    if s != [] && IsSpace(s[|s| - 1]) {
      var p := s[..|s| - 1];
      TrimEndSpec(p);
      var k := |TrimEnd(s)|;
      forall j | k <= j < |s| ensures IsSpace(s[j]) {
        if j < |s| - 1 { assert s[j] == p[k..][j - k]; }
      }
      assert TrimEnd(s) == p[..k] == s[..k];
    }
  }

  /** Python's str.strip(): what is left of `s` after removing the
      whitespace at both ends; it has no whitespace at either end and is
      never longer than `s`. */
  function Strip(s: string): (r: string)
    ensures |r| <= |s| && NoOuterSpace(r)
  {
    var t := TrimStart(s);
    TrimStartSpec(s);
    TrimEndSpec(t);
    var r := TrimEnd(t);
    assert r != [] ==> r[0] == t[0];
    r
  }

  /** The stripped string is the inner slice of `s` that only whitespace
      surrounds. */
  lemma StripIsInnerSlice(s: string)
    ensures exists i :: 0 <= i <= i + |Strip(s)| <= |s| && s[i..i + |Strip(s)|] == Strip(s)
                        && AllSpace(s[..i]) && AllSpace(s[i + |Strip(s)|..])
  {
    var t := TrimStart(s);
    TrimStartSpec(s);
    TrimEndSpec(t);
    var r := TrimEnd(t);
    var i := |s| - |t|;
    assert s[i..i + |r|] == r;
    assert s[i + |r|..] == t[|r|..];
  }

  /** Stripping leaves a string without outer whitespace unchanged, so
      stripping twice is stripping once. */
  lemma StripUnchanged(s: string)
    requires NoOuterSpace(s)
    ensures Strip(s) == s
  {
  }

  lemma StripIdempotent(s: string)
    ensures Strip(Strip(s)) == Strip(s)
  {
    StripUnchanged(Strip(s));
  }

  /** A string strips to "" exactly when it is all whitespace. */
  lemma StripBlank(s: string)
    ensures Strip(s) == "" <==> AllSpace(s)
  {
    var t := TrimStart(s);
    var r := TrimEnd(t);
    var k := |s| - |t|;
    TrimStartSpec(s);
    TrimEndSpec(t);
    assert s == s[..k] + t;
    if r == [] {
      assert t[|r|..] == t;
      assert t == [];
      forall j | 0 <= j < |s| ensures IsSpace(s[j]) {
        assert s[..k][j] == s[j];
      }
    }
  }

  // ---------------------------------------------------------------------
  // Digits and decimal rendering
  // ---------------------------------------------------------------------

  predicate IsDigit(c: char) {
    '0' <= c <= '9'
  }

  /** str.isdigit() restricted to ASCII digits: non-empty and every
      character a digit. */
  predicate IsDigits(s: string) {
    |s| > 0 && forall k :: 0 <= k < |s| ==> IsDigit(s[k])
  }

  function DigitChar(d: nat): (c: char)
    requires d < 10
    ensures IsDigit(c) && DigitValue(c) == d
  {
    ('0' as int + d) as char
  }

  /** The decimal digits of `n`, most significant first, no leading zero. */
  function NatToString(n: nat): (r: string)
    ensures IsDigits(r)
    ensures r[0] == '0' ==> n == 0
  {
    if n < 10 then [DigitChar(n)] else NatToString(n / 10) + [DigitChar(n % 10)]
  }

  /** Python's str(n) for an integer. */
  function IntToString(n: int): (r: string)
    ensures |r| > 0 && NoOuterSpace(r)
    ensures n >= 0 ==> IsDigits(r)
    ensures n < 0 ==> r[0] == '-' && IsDigits(r[1..])
  {
    if n < 0 then "-" + NatToString(-n) else NatToString(n)
  }

  function DigitValue(c: char): nat
    requires IsDigit(c)
  {
    c as int - '0' as int
  }

  /** The value of a string of decimal digits. */
  function DigitsValue(s: string): nat
    requires forall k :: 0 <= k < |s| ==> IsDigit(s[k])
  {
    if s == [] then 0 else DigitsValue(s[..|s| - 1]) * 10 + DigitValue(s[|s| - 1])
  }

  /** Python's int(s) for a text: surrounding whitespace, an optional sign
      and ASCII digits; anything else is the ValueError it raises. */
  function ParseInt(s: string): (r: Option<int>)
    ensures AllSpace(s) ==> r.None?
    ensures IsDigits(Strip(s)) ==> r.Some? && r.value >= 0
    ensures r.Some? ==> |Strip(s)| > 0
  {
    StripBlank(s);
    var t := Strip(s);
    if |t| > 0 && (t[0] == '-' || t[0] == '+') then
      if IsDigits(t[1..]) then
        assert IsDigit(t[1..][0]);
        var magnitude: int := DigitsValue(t[1..]);
        Some(if t[0] == '-' then -magnitude else magnitude)
      else None
    else if IsDigits(t) then
      assert IsDigit(t[0]);
      Some(DigitsValue(t))
    else None
  }

  lemma {:induction false} DigitsValueOfNat(n: nat)
    ensures DigitsValue(NatToString(n)) == n
  {
    if n >= 10 {
      var p := NatToString(n / 10);
      assert NatToString(n) == p + [DigitChar(n % 10)];
      assert (p + [DigitChar(n % 10)])[..|p|] == p;
      DigitsValueOfNat(n / 10);
    }
  }

  lemma ParseUnsigned(d: string)
    requires IsDigits(d) && Strip(d) == d
    ensures ParseInt(d) == Some(DigitsValue(d) as int)
  {
  }

  lemma ParseNegative(r: string)
    requires |r| > 1 && r[0] == '-' && IsDigits(r[1..]) && Strip(r) == r
    ensures ParseInt(r) == Some(-(DigitsValue(r[1..]) as int))
  {
  }

  lemma ParseIntOfNat(n: nat)
    ensures ParseInt(NatToString(n)) == Some(n)
  {
    var d := NatToString(n);
    assert NoOuterSpace(d);
    StripUnchanged(d);
    DigitsValueOfNat(n);
    ParseUnsigned(d);
  }

  /** Reading back what str(n) wrote gives n. */
  lemma ParseIntOfString(n: int)
    ensures ParseInt(IntToString(n)) == Some(n)
  {
    if n < 0 {
      var r := IntToString(n);
      assert NoOuterSpace(r);
      StripUnchanged(r);
      assert r[1..] == NatToString(-n);
      DigitsValueOfNat(-n);
      ParseNegative(r);
    } else {
      ParseIntOfNat(n);
    }
  }

  /** Distinct integers render to distinct strings. */
  lemma IntToStringInjective(m: int, n: int)
    requires IntToString(m) == IntToString(n)
    ensures m == n
  {
    ParseIntOfString(m);
    ParseIntOfString(n);
  }

  // ---------------------------------------------------------------------
  // Identifier normalisation and integer conversion
  // ---------------------------------------------------------------------

  /** The identifier a cell holds (app.py's _normalize_emp_id): "" for an
      empty cell, the decimal string of an integer, the decimal string of a
      float's truncation (integral or not), the stripped text otherwise.
      A bool is an int to Python, so it renders as "True" or "False". */
  function Normalize(v: Value): (r: string)
    ensures NoOuterSpace(r)
    ensures v.Empty? ==> r == ""
  {
    match v
    case Empty => ""
    case Int(i) => IntToString(i)
    case Bool(b) => if b then "True" else "False"
    case Float(whole, integral) =>
      // both branches of the source render str(int(v))
      if integral then IntToString(whole) else IntToString(whole)
    case Text(s) => Strip(s)
  }

  /** An integral float and the equal integer give the same identifier,
      and so does the text of that integer. */
  lemma NormalizeNumericAgree(n: int)
    ensures Normalize(Float(n, true)) == Normalize(Int(n))
    ensures Normalize(Text(IntToString(n))) == Normalize(Int(n))
  {
  }

  /** Normalising the identifier again, as text, changes nothing. */
  lemma NormalizeIdempotent(v: Value)
    ensures Normalize(Text(Normalize(v))) == Normalize(v)
  {
    StripUnchanged(Normalize(v));
  }

  /** An identifier read from a non-negative integer or float cell passes
      the digits-only format check, and reads back as its number. */
  lemma NormalizeNumberIsDigits(v: Value)
    requires v.Int? || v.Float?
    requires if v.Int? then v.i >= 0 else v.whole >= 0
    ensures IsDigits(Normalize(v))
    ensures ParseInt(Normalize(v)) == Some(if v.Int? then v.i else v.whole)
  {
    if v.Int? { ParseIntOfString(v.i); } else { ParseIntOfString(v.whole); }
  }

  /** A 22666.0 cell holds the identifier "22666". */
  lemma NormalizeIntegralFloatExample()
    ensures Normalize(Float(22666, true)) == "22666"
  {
    assert NatToString(2) == "2";
    assert NatToString(22) == "22";
    assert NatToString(226) == "226";
    assert NatToString(2266) == "2266";
  }

  /** Python's int(v or 0): a falsy value (empty cell, 0, False, 0.0, "")
      gives 0; an int or bool is itself; a float is truncated; a text is
      parsed, and None stands for the ValueError of a non-numeric text. */
  function IntOf(v: Value): (r: Option<int>)
    ensures r.None? ==> v.Text? && v.s != "" && ParseInt(v.s).None?
    ensures v.Text? && v.s != "" && AllSpace(v.s) ==> r.None?
  {
    match v
    case Empty => Some(0)
    case Int(i) => Some(i)
    case Bool(b) => Some(if b then 1 else 0)
    case Float(whole, _) => Some(whole)
    case Text(s) => if s == "" then Some(0) else ParseInt(s)
  }

  /** A text cell holding str(n) converts back to n. */
  lemma IntOfText(n: int)
    ensures IntOf(Text(IntToString(n))) == Some(n)
  {
    ParseIntOfString(n);
  }
}
