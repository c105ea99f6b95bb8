/**
 * The duty-rate parser of modules/prepare_db.py: an ordered chain of string
 * rules that turns one cell of the "General Rate of Duty" column into a
 * multiplier.
 */
module RateParser {
  import opened Wrappers
  import opened Strings

  /** A cell of the rate column: text, or a value the table reader already made numeric. */
  datatype Cell = Text(text: string) | Number(number: real)

  /**
   * The specific-duty marker: a cent sign read with the wrong encoding,
   * the two characters U+00C2 U+00A2.
   */
  const CentMarker: string := ['Â', '¢']

  // ---------------------------------------------------------------- lower()

  /** Lower-casing of one character (ASCII letters only). */
  function LowerChar(c: char): (r: char)
    ensures 'A' <= c <= 'Z' ==> 'a' <= r <= 'z' && r as int == c as int + 32
    ensures !('A' <= c <= 'Z') ==> r == c
  {
    if 'A' <= c <= 'Z' then (c as int + 32) as char else c
  }

  /** `s.lower()`. */
  function Lower(s: string): (r: string)
    ensures |r| == |s|
    ensures forall i :: 0 <= i < |s| ==> r[i] == LowerChar(s[i])
  {
    seq(|s|, i requires 0 <= i < |s| => LowerChar(s[i]))
  }

  // ------------------------------------------------------------ rstrip('%')

  /** `s.rstrip('%')`: removes every trailing percent sign. */
  function RStripPercent(s: string): (r: string)
    ensures |r| <= |s| && r == s[..|r|]
    ensures r == [] || r[|r| - 1] != '%'
    ensures forall i :: |r| <= i < |s| ==> s[i] == '%'
    decreases |s|
  {
    if |s| > 0 && s[|s| - 1] == '%' then RStripPercent(s[..|s| - 1]) else s
  }

  // ---------------------------------------------------------------- float()

  predicate IsDigit(c: char)
  {
    '0' <= c <= '9'
  }

  predicate AllDigits(s: string)
  {
    forall i :: 0 <= i < |s| ==> IsDigit(s[i])
  }

  function DigitValue(c: char): (d: nat)
    requires IsDigit(c)
    ensures d < 10
  {
    c as int - '0' as int
  }

  /** The value of a string of decimal digits, read most significant first. */
  function DigitsValue(s: string): nat
    requires AllDigits(s)
    decreases |s|
  {
    if s == [] then 0 else DigitsValue(s[..|s| - 1]) * 10 + DigitValue(s[|s| - 1])
  }

  function Pow10(n: nat): (p: nat)
    ensures p >= 1
  {
    if n == 0 then 1 else 10 * Pow10(n - 1)
  }

  /** The position of the first '.', or |s| when there is none. */
  function IndexOfDot(s: string): (k: nat)
    ensures k <= |s|
    ensures k < |s| ==> s[k] == '.'
    ensures forall j :: 0 <= j < k ==> s[j] != '.'
    decreases |s|
  {
    if s == [] then 0 else if s[0] == '.' then 0 else 1 + IndexOfDot(s[1..])
  }

  /** The digits before the first '.'. */
  function WholePart(body: string): string
  {
    body[..IndexOfDot(body)]
  }

  /** The digits after the first '.', or none when there is no '.'. */
  function FractionPart(body: string): string
  {
    var k := IndexOfDot(body);
    if k < |body| then body[k + 1..] else ""
  }

  /** The value of the numeral `whole.fraction`. */
  function Magnitude(whole: string, fraction: string): (v: real)
    requires AllDigits(whole) && AllDigits(fraction)
    ensures v >= 0.0
  {
    DigitsValue(whole) as real + DigitsValue(fraction) as real / Pow10(|fraction|) as real
  }

  /** Digits with at most one '.', and at least one digit: the unsigned part of a numeral. */
  function ParseUnsigned(body: string): (r: Option<real>)
    ensures r.Some? ==> |body| > 0 && r.value >= 0.0
  {
    var whole := WholePart(body);
    var fraction := FractionPart(body);
    if AllDigits(whole) && AllDigits(fraction) && |whole| + |fraction| > 0 then
      Some(Magnitude(whole, fraction))
    else
      None
  }

  /**
   * The plain decimal numerals that Python's `float()` accepts: an optional
   * sign, then an unsigned numeral.
   */
  function ParseDecimal(s: string): (r: Option<real>)
    ensures r.Some? ==> |s| > 0
    ensures r.Some? ==> (s[0] == '-' ==> r.value <= 0.0) && (s[0] != '-' ==> r.value >= 0.0)
  {
    if |s| > 0 && s[0] == '-' then
      match ParseUnsigned(s[1..])
      case Some(v) => Some(-v)
      case None => None
    else if |s| > 0 && s[0] == '+' then ParseUnsigned(s[1..])
    else ParseUnsigned(s)
  }

  // ------------------------------------------------------- parse_duty_rate()

  /**
   * `parse_duty_rate`. The `float()` of the '%' rule is not guarded, so a
   * percent cell whose remainder is not a numeral raises (`Err`); the plain
   * rule falls back to 0.0 instead.
   */
  function ParseDutyRate(cell: Cell): (r: Result<real>)
    ensures cell.Number? ==> r == Ok(cell.number)
    ensures r.Err? ==> cell.Text? && Lower(cell.text) != "free" && !Contains(cell.text, CentMarker)
                       && '%' in cell.text
  {
    match cell
    case Number(x) => Ok(x)
    case Text(s) =>
      if Lower(s) == "free" then Ok(0.0)
      else if Contains(s, CentMarker) then Ok(0.0)
      else if '%' in s then PercentRate(s)
      else PlainRate(s)
  }

  /** Line 25: the numeral left after stripping trailing '%', over 100; `float()` raises otherwise. */
  function PercentRate(s: string): (r: Result<real>)
    ensures r.Err? <==> ParseDecimal(RStripPercent(s)).None?
    ensures r.Ok? ==> r.value * 100.0 == ParseDecimal(RStripPercent(s)).value
  {
    match ParseDecimal(RStripPercent(s))
    case Some(v) => Ok(v / 100.0)
    case None => Err("could not convert string to float: " + RStripPercent(s))
  }

  /** Lines 27-30: the numeral as it is, or 0.0 when `float()` raises. */
  function PlainRate(s: string): (r: Result<real>)
    ensures r.Ok?
    ensures r.value != 0.0 ==> ParseDecimal(s) == Some(r.value)
  {
    match ParseDecimal(s)
    case Some(v) => Ok(v)
    case None => Ok(0.0)
  }

  // ------------------------------------------------------------ properties

  /** A character that lower() leaves alone keeps a string from lower-casing to "free". */
  lemma {:induction false} NotFreeWith(s: string, c: char)
    requires c in s && c !in "FREfre" && !('A' <= c <= 'Z')
    ensures Lower(s) != "free"
  {
    var k :| 0 <= k < |s| && s[k] == c;
    assert Lower(s)[k] == c;
  }

  /** A cell the table reader already made numeric is taken as it is. */
  lemma NumericCellAsIs(x: real)
    ensures ParseDutyRate(Number(x)) == Ok(x)
  {
  }

  /** Rule 1: text that lower-cases to exactly "free" is duty free. */
  lemma FreeIsZero(s: string)
    requires Lower(s) == "free"
    ensures ParseDutyRate(Text(s)) == Ok(0.0)
  {
  }

  /** Rule 2: any text with the cent marker is 0.0, also when it has a '%' too. */
  lemma {:induction false} CentIsZero(s: string)
    requires Contains(s, CentMarker)
    ensures ParseDutyRate(Text(s)) == Ok(0.0)
  {
    ContainsChar(s, CentMarker, 'Â');
    NotFreeWith(s, 'Â');
  }

  /** A marker-free '%' cell reaches the percent rule. */
  lemma PercentBranch(s: string)
    requires '%' in s && !Contains(s, CentMarker)
    ensures ParseDutyRate(Text(s)) == PercentRate(s)
  {
    NotFreeWith(s, '%');
  }

  /** Rule 3: a '%' cell without the marker is its stripped numeral over 100, or raises. */
  lemma {:induction false} PercentRule(s: string)
    requires '%' in s && !Contains(s, CentMarker)
    ensures ParseDecimal(RStripPercent(s)).Some? ==>
              ParseDutyRate(Text(s)) == Ok(ParseDecimal(RStripPercent(s)).value / 100.0)
    ensures ParseDecimal(RStripPercent(s)).None? ==> ParseDutyRate(Text(s)).Err?
  {
    PercentBranch(s);
  }

  /** Rule 4: otherwise a numeral is taken as is (not divided by 100), anything else is 0.0. */
  lemma PlainRule(s: string)
    requires '%' !in s && !Contains(s, CentMarker) && Lower(s) != "free"
    ensures ParseDecimal(s).Some? ==> ParseDutyRate(Text(s)) == Ok(ParseDecimal(s).value)
    ensures ParseDecimal(s).None? ==> ParseDutyRate(Text(s)) == Ok(0.0)
  {
  }

  /** The parser raises exactly on a marker-free '%' cell whose stripped remainder is no numeral. */
  lemma {:induction false} RaisesExactly(cell: Cell)
    ensures ParseDutyRate(cell).Err? <==>
              cell.Text? && '%' in cell.text && !Contains(cell.text, CentMarker)
              && ParseDecimal(RStripPercent(cell.text)).None?
  {
    if cell.Text? && '%' in cell.text {
      NotFreeWith(cell.text, '%');
    }
  }

  // -------------------------------------------------- numerals round-trip

  function DigitChar(d: nat): (c: char)
    requires d < 10
    ensures IsDigit(c) && DigitValue(c) == d
  {
    ('0' as int + d) as char
  }

  /** The decimal numeral of a natural number, as `str(n)` writes it. */
  function NatToNumeral(n: nat): (s: string)
    ensures |s| > 0 && AllDigits(s)
    decreases n
  {
    if n < 10 then [DigitChar(n)] else NatToNumeral(n / 10) + [DigitChar(n % 10)]
  }

  lemma {:induction false} NumeralValue(n: nat)
    ensures DigitsValue(NatToNumeral(n)) == n
    decreases n
  {
    var s := NatToNumeral(n);
    if n >= 10 {
      NumeralValue(n / 10);
      assert s[..|s| - 1] == NatToNumeral(n / 10);
    }
  }

  lemma {:induction false} DigitsHaveNoDot(s: string)
    requires AllDigits(s)
    ensures IndexOfDot(s) == |s|
    decreases |s|
  {
    if s != [] {
      DigitsHaveNoDot(s[1..]);
    }
  }

  /** Digits before the first '.' only shift its position. */
  lemma {:induction false} DotAfterDigits(w: string, rest: string)
    requires AllDigits(w)
    ensures IndexOfDot(w + rest) == |w| + IndexOfDot(rest)
    decreases |w|
  {
    if w == [] {
      assert w + rest == rest;
    } else {
      assert (w + rest)[0] == w[0];
      assert (w + rest)[1..] == w[1..] + rest;
      DotAfterDigits(w[1..], rest);
    }
  }

  /** Text that starts with neither sign is read as an unsigned numeral. */
  lemma UnsignedWithoutSign(s: string)
    requires |s| > 0 && s[0] != '-' && s[0] != '+'
    ensures ParseDecimal(s) == ParseUnsigned(s)
  {
  }

  /** `float(w)` of a non-empty digit string, leading zeros included, is its value. */
  lemma ParseDigits(w: string)
    requires AllDigits(w) && |w| > 0
    ensures ParseDecimal(w) == Some(DigitsValue(w) as real)
  {
    assert IsDigit(w[0]);
    UnsignedWithoutSign(w);
    DigitsHaveNoDot(w);
    assert WholePart(w) == w by {
      assert w[..|w|] == w;
    }
    assert FractionPart(w) == "";
    assert Magnitude(w, "") == DigitsValue(w) as real;
  }

  lemma UnsignedSplit(body: string, w: string, f: string)
    requires AllDigits(w) && AllDigits(f) && |w| + |f| > 0 && body == w + ("." + f)
    ensures ParseUnsigned(body) == Some(Magnitude(w, f))
  {
    DotAfterDigits(w, "." + f);
    assert IndexOfDot(body) == |w|;
    assert WholePart(body) == w;
    assert FractionPart(body) == f;
  }

  /** `float(w + "." + f)` of digit strings, either of them possibly empty but not both. */
  lemma ParseDigitsDotDigits(w: string, f: string)
    requires AllDigits(w) && AllDigits(f) && |w| + |f| > 0
    ensures ParseDecimal(w + "." + f) == Some(Magnitude(w, f))
  {
    var s := w + "." + f;
    assert s == w + ("." + f);
    if |w| > 0 {
      assert s[0] == w[0] && IsDigit(w[0]);
    } else {
      assert s[0] == '.';
    }
    UnsignedWithoutSign(s);
    UnsignedSplit(s, w, f);
  }

  /** A leading '+' changes nothing; a leading '-' negates an unsigned numeral. */
  lemma SignRule(u: string)
    ensures ParseDecimal("+" + u) == ParseUnsigned(u)
    ensures ParseUnsigned(u).Some? ==> ParseDecimal("-" + u) == Some(-ParseUnsigned(u).value)
    ensures ParseUnsigned(u).None? ==> ParseDecimal("-" + u) == None
  {
    assert ("+" + u)[1..] == u;
    assert ("-" + u)[1..] == u;
  }

  /** `float(str(n)) == n`. */
  lemma ParseNumeral(n: nat)
    ensures ParseDecimal(NatToNumeral(n)) == Some(n as real)
  {
    ParseDigits(NatToNumeral(n));
    NumeralValue(n);
  }

  lemma StripOnePercent(u: string)
    requires '%' !in u
    ensures RStripPercent(u + "%") == u
  {
    assert (u + "%")[..|u|] == u;
    assert u == [] || u[|u| - 1] != '%';
  }

  lemma NoMarkerWithPercent(u: string)
    requires 'Â' !in u
    ensures !Contains(u + "%", CentMarker)
  {
    assert 'Â' !in u + "%";
    MissingCharNotContains(u + "%", CentMarker, 'Â');
  }

  /** A numeral without '%' followed by one '%' is that numeral over 100. */
  lemma PercentOf(u: string, v: real, t: string)
    requires ParseDecimal(u) == Some(v) && 'Â' !in u && '%' !in u && t == u + "%"
    ensures ParseDutyRate(Text(t)) == Ok(v / 100.0)
  {
    StripOnePercent(u);
    NoMarkerWithPercent(u);
    assert '%' in t by { assert t[|u|] == '%'; }
    PercentBranch(t);
    var r := PercentRate(t);
    assert r.Ok? && r.value * 100.0 == v;
  }

  /** A digit string has no character other than digits. */
  lemma DigitsLackChar(w: string, c: char)
    requires AllDigits(w) && !IsDigit(c)
    ensures c !in w
  {
  }

  /** `parse_duty_rate(str(n) + "%") == n / 100`. */
  lemma ParsePercentNumeral(n: nat)
    ensures ParseDutyRate(Text(NatToNumeral(n) + "%")) == Ok(n as real / 100.0)
  {
    var u := NatToNumeral(n);
    ParseNumeral(n);
    DigitsLackChar(u, 'Â');
    DigitsLackChar(u, '%');
    PercentOf(u, n as real, u + "%");
  }

  // ------------------------------------------------------- worked examples

  lemma FreeExamples()
    ensures ParseDutyRate(Text("free")) == Ok(0.0)
    ensures ParseDutyRate(Text("Free")) == Ok(0.0)
  {
    assert Lower("Free") == "free";
  }

  // Each example goes through a helper over a variable equal to the literal:
  // stated directly on literals the rule chain is unfolded without bound.

  lemma DecimalThreeIs(s: string)
    requires s == "3.0"
    ensures ParseDecimal(s) == Some(3.0)
  {
    assert s[0] == '3';
    assert IndexOfDot(s) == 1 by {
      assert s[1..][0] == '.';
    }
    assert s[..1] == "3" && s[2..] == "0";
    assert DigitsValue("3") == 3 && DigitsValue("0") == 0;
  }

  lemma DecimalTwelveHalfIs(s: string)
    requires s == "12.5"
    ensures ParseDecimal(s) == Some(12.5)
  {
    assert s[0] == '1';
    assert IndexOfDot(s) == 2 by {
      assert s[1..][0] == '2' && s[1..][1..][0] == '.';
    }
    assert s[..2] == "12" && s[3..] == "5";
    assert DigitsValue("12") == 12 by {
      assert "12"[..1] == "1";
    }
    assert DigitsValue("5") == 5;
    assert Pow10(1) == 10;
  }

  lemma DecimalGarbageIs(s: string)
    requires s == "garbage"
    ensures ParseDecimal(s) == None
  {
    assert s[0] == 'g' && !IsDigit(s[0]);
    assert IndexOfDot(s) > 0;
  }

  lemma PercentNumeralIs(s: string)
    requires s == "12.5%"
    ensures ParseDutyRate(Text(s)) == Ok(0.125)
  {
    assert RStripPercent(s) == "12.5" by {
      assert s[..4] == "12.5";
    }
    DecimalTwelveHalfIs("12.5");
    assert !Contains(s, CentMarker) by { MissingCharNotContains(s, CentMarker, 'Â'); }
    PercentRule(s);
  }

  lemma PlainNumeralIs(s: string)
    requires s == "3.0"
    ensures ParseDutyRate(Text(s)) == Ok(3.0)
  {
    DecimalThreeIs(s);
    assert Lower(s) != "free" by { NotFreeWith(s, '3'); }
    assert !Contains(s, CentMarker) by { MissingCharNotContains(s, CentMarker, 'Â'); }
    PlainRule(s);
  }

  lemma NoNumeralIs(s: string)
    requires s == "garbage"
    ensures ParseDutyRate(Text(s)) == Ok(0.0)
  {
    DecimalGarbageIs(s);
    assert Lower(s) != "free" by { NotFreeWith(s, 'g'); }
    assert !Contains(s, CentMarker) by { MissingCharNotContains(s, CentMarker, 'Â'); }
    PlainRule(s);
  }

  lemma WholePercentIs(s: string)
    requires s == "5%"
    ensures ParseDutyRate(Text(s)) == Ok(0.05)
  {
    ParsePercentNumeral(5);
    assert NatToNumeral(5) + "%" == s;
  }

  lemma RaisesOn(s: string)
    requires s == "5% ad val"
    ensures ParseDutyRate(Text(s)).Err?
  {
    assert !Contains(s, CentMarker) by { MissingCharNotContains(s, CentMarker, 'Â'); }
    assert RStripPercent(s) == s;
    assert ParseDecimal(s) == None by {
      assert s[1] == '%' && !IsDigit(s[1]);
    }
    PercentRule(s);
  }

  lemma PercentExamples()
    ensures ParseDutyRate(Text("5%")) == Ok(0.05)
    ensures ParseDutyRate(Text("12.5%")) == Ok(0.125)
  {
    WholePercentIs("5%");
    PercentNumeralIs("12.5%");
  }

  lemma PlainExamples()
    ensures ParseDutyRate(Number(3.0)) == Ok(3.0)
    ensures ParseDutyRate(Text("3.0")) == Ok(3.0)
    ensures ParseDutyRate(Text("garbage")) == Ok(0.0)
  {
    PlainNumeralIs("3.0");
    NoNumeralIs("garbage");
  }

  /** A '%' cell whose remainder is not a numeral raises. */
  lemma RaisingExample()
    ensures ParseDutyRate(Text("5% ad val")).Err?
  {
    RaisesOn("5% ad val");
  }

  /** A '%' cell that also carries the marker is 0.0: the marker rule runs first. */
  lemma MixedExample()
    ensures ParseDutyRate(Text("5% + 3Â¢")) == Ok(0.0)
  {
    var s := "5% + 3Â¢";
    assert OccursAt(s, CentMarker, 6) by {
      assert s[6..8] == CentMarker;
    }
    CentIsZero(s);
  }
}
