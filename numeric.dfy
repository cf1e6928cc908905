/** `safeParseFloat` (services/inventoryService.js): the tolerant number
    reader used for every numeric schema field. It removes every character
    other than digits, `.` and `-`, then reads the longest decimal prefix the
    way JavaScript's `parseFloat` does. A value that is missing, blank, or
    has no numeric prefix gives `None`, and the field is then left out of the
    record instead of being stored as zero. */
module Numeric {
  import opened Common
  import opened Rows

  predicate IsDigit(c: char) {
    '0' <= c <= '9'
  }

  /** The characters the pattern `[^0-9.-]+` leaves in place. */
  predicate Kept(c: char) {
    IsDigit(c) || c == '.' || c == '-'
  }

  predicate HasDigit(s: string) {
    exists i :: 0 <= i < |s| && IsDigit(s[i])
  }

  /** `String(value).replace(/[^0-9.-]+/g, "")`. */
  function KeepNumeric(s: string): (r: string)
    ensures |r| <= |s|
    ensures forall i :: 0 <= i < |r| ==> Kept(r[i])
  {
    if s == [] then []
    else (if Kept(s[0]) then [s[0]] else []) + KeepNumeric(s[1..])
  }

  /** Number of leading digits. */
  function DigitRun(s: string): (n: nat)
    ensures n <= |s|
    ensures forall i :: 0 <= i < n ==> IsDigit(s[i])
    ensures n == |s| || !IsDigit(s[n])
  {
    if s != [] && IsDigit(s[0]) then 1 + DigitRun(s[1..]) else 0
  }

  function DigitValue(c: char): real
    requires IsDigit(c)
  {
    (c as int - '0' as int) as real
  }

  /** The value of a decimal numeral, most significant digit first. */
  function DigitsValue(d: string): real
    requires forall i :: 0 <= i < |d| ==> IsDigit(d[i])
  {
    if d == [] then 0.0 else 10.0 * DigitsValue(d[..|d| - 1]) + DigitValue(d[|d| - 1])
  }

  /** The fraction digits after a leading `.`, if any. */
  function FractionDigits(rest: string): (d: string)
    ensures forall i :: 0 <= i < |d| ==> IsDigit(d[i])
  {
    if rest != [] && rest[0] == '.' then rest[1..][..DigitRun(rest[1..])] else []
  }

  /** The longest unsigned decimal prefix: integer digits, then an optional
      `.` and fraction digits, with at least one digit in all. */
  function UnsignedPrefix(body: string): Option<real> {
    var n := DigitRun(body);
    var frac := FractionDigits(body[n..]);
    if n == 0 && frac == [] then None
    else Some(NumeralValue(body[..n], frac))
  }

  /** The value of the numeral `whole.frac`: moving the first fraction digit
      into the whole part is multiplying by ten. */
  function NumeralValue(whole: string, frac: string): real
    requires forall i :: 0 <= i < |whole| ==> IsDigit(whole[i])
    requires forall i :: 0 <= i < |frac| ==> IsDigit(frac[i])
    decreases |frac|
  {
    if frac == [] then DigitsValue(whole)
    else NumeralValue(whole + [frac[0]], frac[1..]) / 10.0
  }

  /** The fraction digits add less than one to the whole part. */
  lemma {:induction false} NumeralValueBounds(whole: string, frac: string)
    requires forall i :: 0 <= i < |whole| ==> IsDigit(whole[i])
    requires forall i :: 0 <= i < |frac| ==> IsDigit(frac[i])
    ensures DigitsValue(whole) <= NumeralValue(whole, frac) < DigitsValue(whole) + 1.0
    decreases |frac|
  {
    if frac != [] {
      var longer := whole + [frac[0]];
      assert longer[..|longer| - 1] == whole;
      NumeralValueBounds(longer, frac[1..]);
    }
  }

  /** JavaScript's `parseFloat` on text made only of digits, `.` and `-` (the
      only text it is given here, so signs other than a leading `-`, exponents
      and `Infinity` cannot occur): an optional `-` and the longest unsigned
      decimal prefix; everything after it is ignored. */
  function ParseFloat(t: string): Option<real> {
    if t != [] && t[0] == '-' then
      match UnsignedPrefix(t[1..])
      case None => None
      case Some(x) => Some(-x)
    else UnsignedPrefix(t)
  }

  /** `safeParseFloat(value)`; `None` is `null`. */
  function SafeParseFloat(value: Cell): Option<real> {
    match value
    case Null => None
    case Val(s) => if Trim(s) == [] then None else ParseFloat(KeepNumeric(s))
  }

  /** Text with a non-blank character is read by `parseFloat` after the
      clean-up. */
  lemma NonBlankIsParsed(s: string)
    requires !AllSpace(s)
    ensures SafeParseFloat(Val(s)) == ParseFloat(KeepNumeric(s))
  {
    TrimEmptyIffAllSpace(s);
  }

  /** Null, and text that is empty or only blanks, give `None`. */
  lemma BlankIsOmitted(value: Cell)
    requires value.Null? || AllSpace(value.text)
    ensures SafeParseFloat(value) == None
  {
    if value.Val? {
      TrimEmptyIffAllSpace(value.text);
    }
  }

  lemma {:induction false} KeepNumericAppend(a: string, b: string)
    ensures KeepNumeric(a + b) == KeepNumeric(a) + KeepNumeric(b)
  {
    if a == [] {
      assert a + b == b;
    } else {
      assert (a + b)[1..] == a[1..] + b;
      KeepNumericAppend(a[1..], b);
    }
  }

  lemma {:induction false} KeepNumericKeepsNoNewDigit(s: string)
    ensures HasDigit(KeepNumeric(s)) ==> HasDigit(s)
  {
    if s != [] {
      KeepNumericKeepsNoNewDigit(s[1..]);
      var head: string := if Kept(s[0]) then [s[0]] else [];
      if HasDigit(KeepNumeric(s)) {
        var i :| 0 <= i < |KeepNumeric(s)| && IsDigit(KeepNumeric(s)[i]);
        if i < |head| {
          assert IsDigit(s[0]);
        } else {
          assert KeepNumeric(s[1..])[i - |head|] == KeepNumeric(s)[i];
          var j :| 0 <= j < |s[1..]| && IsDigit(s[1..][j]);
          assert IsDigit(s[j + 1]);
        }
      }
    }
  }

  lemma UnsignedPrefixNeedsDigit(body: string)
    ensures UnsignedPrefix(body).Some? ==> HasDigit(body)
  {
    var n := DigitRun(body);
    if UnsignedPrefix(body).Some? {
      if n > 0 {
        assert IsDigit(body[0]);
      } else {
        assert body != [] && body[0] == '.' && DigitRun(body[1..]) > 0;
        assert IsDigit(body[1]);
      }
    }
  }

  lemma ParseFloatNeedsDigit(t: string)
    ensures ParseFloat(t).Some? ==> HasDigit(t)
  {
    if t != [] && t[0] == '-' {
      UnsignedPrefixNeedsDigit(t[1..]);
      if HasDigit(t[1..]) {
        var i :| 0 <= i < |t[1..]| && IsDigit(t[1..][i]);
        assert IsDigit(t[i + 1]);
      }
    } else {
      UnsignedPrefixNeedsDigit(t);
    }
  }

  /** A value is never defaulted: a number comes out only when the text
      contains at least one digit, so "N/A", "-" or "." are all omitted. */
  lemma NumberNeedsADigit(value: Cell)
    ensures SafeParseFloat(value).Some? ==> value.Val? && HasDigit(value.text)
  {
    if value.Val? && SafeParseFloat(value).Some? {
      ParseFloatNeedsDigit(KeepNumeric(value.text));
      KeepNumericKeepsNoNewDigit(value.text);
    }
  }

  /** Characters other than digits, `.` and `-` are ignored wherever they
      appear: inserting such noise (a unit, a currency sign, blanks) into a
      non-blank value does not change what is read. */
  lemma NoiseIsIgnored(x: string, noise: string, y: string)
    requires forall i :: 0 <= i < |noise| ==> !Kept(noise[i])
    requires !AllSpace(x + y)
    ensures SafeParseFloat(Val(x + noise + y)) == SafeParseFloat(Val(x + y))
  {
    KeepNumericAppend(x + noise, y);
    KeepNumericAppend(x, noise);
    KeepNumericAppend(x, y);
    NoKeptGivesEmpty(noise);
    assert KeepNumeric(x + noise + y) == KeepNumeric(x + y);
    var i :| 0 <= i < |x + y| && !IsSpace((x + y)[i]);
    var j := if i < |x| then i else i + |noise|;
    assert (x + noise + y)[j] == (x + y)[i];
    NonBlankIsParsed(x + noise + y);
    NonBlankIsParsed(x + y);
  }

  lemma {:induction false} NoKeptGivesEmpty(s: string)
    requires forall i :: 0 <= i < |s| ==> !Kept(s[i])
    ensures KeepNumeric(s) == []
  {
    if s != [] {
      NoKeptGivesEmpty(s[1..]);
    }
  }

  /** Decimal numeral of a natural number. */
  function NatText(n: nat): (r: string)
    ensures r != [] && forall i :: 0 <= i < |r| ==> IsDigit(r[i])
  {
    var d := ['0' + (n % 10) as char];
    if n < 10 then d else NatText(n / 10) + d
  }

  /** Different numbers have different numerals. */
  lemma NatTextInjective(i: nat, j: nat)
    requires NatText(i) == NatText(j)
    ensures i == j
  {
    NatTextValue(i);
    NatTextValue(j);
  }

  lemma {:induction false} NatTextValue(n: nat)
    ensures DigitsValue(NatText(n)) == n as real
  {
    var t := NatText(n);
    if n >= 10 {
      NatTextValue(n / 10);
      assert t[..|t| - 1] == NatText(n / 10);
    }
  }

  lemma {:induction false} AllDigitsKept(s: string)
    requires forall i :: 0 <= i < |s| ==> IsDigit(s[i])
    ensures KeepNumeric(s) == s
  {
    if s != [] {
      AllDigitsKept(s[1..]);
    }
  }

  lemma {:induction false} AllDigitsRun(s: string)
    requires forall i :: 0 <= i < |s| ==> IsDigit(s[i])
    ensures DigitRun(s) == |s|
  {
    if s != [] {
      AllDigitsRun(s[1..]);
    }
  }

  lemma UnsignedDigits(t: string)
    requires t != [] && forall i :: 0 <= i < |t| ==> IsDigit(t[i])
    ensures UnsignedPrefix(t) == Some(DigitsValue(t))
  {
    AllDigitsRun(t);
    assert t[|t|..] == [];
    assert t[..|t|] == t;
  }

  lemma ParseDigits(t: string)
    requires t != [] && forall i :: 0 <= i < |t| ==> IsDigit(t[i])
    ensures ParseFloat(t) == Some(DigitsValue(t))
  {
    UnsignedDigits(t);
    assert t[0] != '-';
  }

  lemma ParseMinusDigits(t: string)
    requires t != [] && forall i :: 0 <= i < |t| ==> IsDigit(t[i])
    ensures ParseFloat(['-'] + t) == Some(-DigitsValue(t))
  {
    var m := ['-'] + t;
    assert m != [] && m[0] == '-';
    assert m[1..] == t;
    UnsignedDigits(t);
  }

  /** Reading the numeral of a whole number gives that number back. */
  lemma NumeralRoundTrip(n: nat)
    ensures SafeParseFloat(Val(NatText(n))) == Some(n as real)
  {
    var t := NatText(n);
    NatTextValue(n);
    AllDigitsKept(t);
    assert !IsSpace(t[0]);
    NonBlankIsParsed(t);
    ParseDigits(t);
  }

  /** With a leading minus sign it gives the negated number back. */
  lemma NegativeNumeralRoundTrip(n: nat)
    ensures SafeParseFloat(Val(['-'] + NatText(n))) == Some(-(n as real))
  {
    var t := NatText(n);
    NatTextValue(n);
    AllDigitsKept(t);
    var m := ['-'] + t;
    KeepNumericAppend(['-'], t);
    assert KeepNumeric(['-']) == ['-'];
    assert KeepNumeric(m) == m;
    assert !IsSpace(m[0]);
    NonBlankIsParsed(m);
    ParseMinusDigits(t);
    assert ParseFloat(m) == Some(-(n as real));
  }

  lemma ParseOnePointTwenty()
    ensures ParseFloat("1.20") == Some(1.2)
  {
    var body := "1.20";
    assert DigitRun(body) == 1;
    assert body[..1] == "1";
    assert body[1..] == ".20";
    assert ".20"[1..] == "20";
    assert DigitRun("20") == 2;
    assert FractionDigits(".20") == "20";
    assert "120"[..2] == "12" && "12"[..1] == "1" && "1"[..0] == [];
    assert DigitsValue("120") == 120.0;
    assert "0"[1..] == [];
    assert NumeralValue("120", []) == 120.0;
    assert "12" + ['0'] == "120";
    assert NumeralValue("12", "0") == 12.0;
    assert "1" + ['2'] == "12" && "20"[1..] == "0";
    assert NumeralValue("1", "20") == 1.2;
  }

  /** A weight written with a unit, such as "1.20 ct", reads as the
      number. */
  lemma WeightWithUnit()
    ensures SafeParseFloat(Val("1.20 ct")) == Some(1.2)
  {
    var s := "1.20 ct";
    assert s == "1.20" + " ct";
    KeepNumericAppend("1.20", " ct");
    AllDigitsOrDotKept();
    assert KeepNumeric(" ct") == [];
    assert !IsSpace(s[0]);
    NonBlankIsParsed(s);
    ParseOnePointTwenty();
  }

  lemma AllDigitsOrDotKept()
    ensures KeepNumeric("1.20") == "1.20"
  {
  }

  /** "N/A" is omitted rather than read as zero. */
  lemma NotApplicableIsOmitted()
    ensures SafeParseFloat(Val("N/A")) == None
  {
    assert !HasDigit("N/A") by {
      forall i | 0 <= i < 3 ensures !IsDigit("N/A"[i]) {
      }
    }
    NumberNeedsADigit(Val("N/A"));
  }
}
