/**
 * JavaScript numbers as far as the price check needs them, and the two
 * global parsers `parseFloat` and `parseInt(s, 10)`. Finite values are exact
 * reals: IEEE-754 rounding and overflow to Infinity are not modelled, and
 * negative zero is the same value as zero (both are falsy, which is all the
 * components observe).
 */
module JsNumber {
  import opened Wrappers
  import opened JsText

  datatype Number = NaN | Infinity(negative: bool) | Finite(value: real)

  /** The truth value JavaScript gives a Number: NaN and zero are falsy. */
  predicate Truthy(n: Number)
  {
    match n
    case NaN => false
    case Infinity(_) => true
    case Finite(v) => v != 0.0
  }

  predicate IsDigit(c: char)
  {
    '0' <= c <= '9'
  }

  predicate AllDigits(s: string)
  {
    forall i :: 0 <= i < |s| ==> IsDigit(s[i])
  }

  function DigitValue(c: char): nat
    requires IsDigit(c)
  {
    c as int - '0' as int
  }

  /** The number a string of decimal digits denotes, most significant first. */
  function DigitsValue(d: string): nat
    requires AllDigits(d)
  {
    if d == [] then 0 else 10 * DigitsValue(d[..|d| - 1]) + DigitValue(d[|d| - 1])
  }

  function Pow10(n: nat): (r: nat)
    ensures r >= 1
  {
    if n == 0 then 1 else 10 * Pow10(n - 1)
  }

  /** The length of the run of digits that starts `s`. */
  function DigitRun(s: string): (n: nat)
    ensures n <= |s| && AllDigits(s[..n])
    ensures n < |s| ==> !IsDigit(s[n])
  {
    if |s| > 0 && IsDigit(s[0]) then
      var n := 1 + DigitRun(s[1..]);
      assert forall i :: 1 <= i < n ==> s[..n][i] == s[1..][..n - 1][i - 1];
      n
    else
      0
  }

  /** The pieces of a StrUnsignedDecimalLiteral other than "Infinity": the
      digits before and after the point, the exponent, and how many
      characters the literal spans. */
  datatype Literal = Literal(whole: string, fraction: string, exponent: int, length: nat)

  predicate WellFormedLiteral(lit: Literal)
  {
    AllDigits(lit.whole) && AllDigits(lit.fraction) && (lit.whole != [] || lit.fraction != [])
  }

  function LiteralValue(lit: Literal): (v: real)
    requires WellFormedLiteral(lit)
    ensures v >= 0.0
  {
    var scale := Pow10(|lit.fraction|) as real;
    var digits := DigitsValue(lit.fraction) as real;
    ScaleNonNegative(digits, scale);
    var mantissa := DigitsValue(lit.whole) as real + digits / scale;
    var power := Pow10(if lit.exponent >= 0 then lit.exponent else -lit.exponent) as real;
    ScaleNonNegative(mantissa, power);
    if lit.exponent >= 0 then mantissa * power else mantissa / power
  }

  lemma ScaleNonNegative(m: real, p: real)
    requires m >= 0.0 && p >= 1.0
    ensures m * p >= 0.0 && m / p >= 0.0
  {
  }

  /** The ExponentPart that starts `s`, if any: `e` or `E`, an optional sign
      and at least one digit. Gives the exponent and the characters it spans. */
  function ScanExponent(s: string): (r: Option<(int, nat)>)
    ensures r.Some? ==> 2 <= r.value.1 <= |s| && (s[0] == 'e' || s[0] == 'E')
  {
    if |s| == 0 || (s[0] != 'e' && s[0] != 'E') then None
    else
      var signed := |s| > 1 && (s[1] == '+' || s[1] == '-');
      var start := if signed then 2 else 1;
      var n := DigitRun(s[start..]);
      if n == 0 then None
      else
        assert s[start..start + n] == s[start..][..n];
        var e := DigitsValue(s[start..start + n]);
        Some((if signed && s[1] == '-' then -(e as int) else e, start + n))
  }

  /** The longest prefix of `u` that is an unsigned decimal literal, read into
      its pieces; None when no prefix is one. */
  function ScanUnsigned(u: string): (r: Option<Literal>)
    ensures r.Some? ==> WellFormedLiteral(r.value) && 0 < r.value.length <= |u|
    ensures r.None? <==> DigitRun(u) == 0 && !(|u| > 1 && u[0] == '.' && IsDigit(u[1]))
  {
    var a := DigitRun(u);
    var point := a < |u| && u[a] == '.';
    var b := if point then DigitRun(u[a + 1..]) else 0;
    assert a == 0 && point && |u| > 1 && IsDigit(u[1]) ==> b > 0;
    if a == 0 && b == 0 then None else Some(LiteralAt(u, a, point, b))
  }

  /** The literal made of the `a` digits that start `u`, then, when `point`,
      the point and the `b` digits after it, then an exponent if one follows. */
  function LiteralAt(u: string, a: nat, point: bool, b: nat): (lit: Literal)
    requires a == DigitRun(u)
    requires point ==> a < |u| && b == DigitRun(u[a + 1..])
    requires !point ==> b == 0
    requires a > 0 || b > 0
    ensures WellFormedLiteral(lit) && 0 < lit.length <= |u|
  {
    var mantissa := if point then a + 1 + b else a;
    var fraction := if point then u[a + 1..mantissa] else [];
    assert point ==> fraction == u[a + 1..][..b];
    var exponent := ScanExponent(u[mantissa..]);
    if exponent.None? then Literal(u[..a], fraction, 0, mantissa)
    else Literal(u[..a], fraction, exponent.value.0, mantissa + exponent.value.1)
  }

  /** What remains of `s` after leading white space and one sign character,
      and whether that sign was a minus. */
  function SplitSign(s: string): (bool, string)
  {
    var t := TrimStart(s);
    if |t| > 0 && (t[0] == '+' || t[0] == '-') then (t[0] == '-', t[1..]) else (false, t)
  }

  /** What the parsers skip is white space, then at most one sign; the text
      left starts with neither when no sign was skipped; the flag says the
      sign was a minus. */
  lemma SplitSignMeaning(s: string)
    ensures var r := SplitSign(s);
      |r.1| <= |s| && r.1 == s[|s| - |r.1|..]
    ensures var r := SplitSign(s);
      var skipped := s[..|s| - |r.1|];
      (!r.0 && AllWhiteSpace(skipped) &&
        (r.1 == [] || (!IsWhiteSpace(r.1[0]) && r.1[0] != '+' && r.1[0] != '-'))) ||
      (|skipped| > 0 && AllWhiteSpace(skipped[..|skipped| - 1]) &&
        (skipped[|skipped| - 1] == '+' || skipped[|skipped| - 1] == '-') &&
        (r.0 <==> skipped[|skipped| - 1] == '-'))
  {
    var t := TrimStart(s);
    var k := |s| - |t|;
    assert AllWhiteSpace(s[..k]) by {
      assert forall i :: 0 <= i < k ==> s[..k][i] == s[i];
    }
    if |t| > 0 && (t[0] == '+' || t[0] == '-') {
      assert SplitSign(s) == (t[0] == '-', t[1..]);
      assert t[1..] == s[k + 1..];
      var skipped := s[..k + 1];
      assert skipped[..k] == s[..k] && skipped[k] == t[0];
    } else {
      assert SplitSign(s) == (false, t);
    }
  }

  /** `parseFloat(s)`: the longest prefix, after leading white space, that is
      a StrDecimalLiteral (sign, then "Infinity" or digits with an optional
      fraction and exponent); NaN when there is none. */
  function ParseFloat(s: string): (r: Number)
    ensures r.Finite? ==> (r.value >= 0.0 <==> !SplitSign(s).0 || r.value == 0.0)
  {
    var (negative, u) := SplitSign(s);
    if |u| >= 8 && u[..8] == "Infinity" then Infinity(negative)
    else
      match ScanUnsigned(u)
      case None => NaN
      case Some(lit) =>
        var v := LiteralValue(lit);
        Finite(if negative then -v else v)
  }

  /** `parseInt(s, 10)`: after leading white space and one sign, the run of
      decimal digits; NaN when the run is empty. The result is always an
      integer, never infinite. */
  function ParseInt(s: string): (r: Number)
    ensures !r.Infinity?
    ensures r.Finite? ==> r.value == r.value.Floor as real
    ensures r.NaN? <==> DigitRun(SplitSign(s).1) == 0
  {
    var u := SplitSign(s).1;
    var n := DigitRun(u);
    if n == 0 then NaN
    else
      var v: int := DigitsValue(u[..n]);
      var k := if SplitSign(s).0 then -v else v;
      Finite(k as real)
  }

  /** The canonical decimal spelling of a natural number. */
  function DecimalString(n: nat): (s: string)
    ensures |s| > 0 && AllDigits(s)
    ensures DigitsValue(s) == n
    ensures n > 0 ==> s[0] != '0'
  {
    var last := ['0' + ((n % 10) as char)];
    if n < 10 then
      last
    else
      var s := DecimalString(n / 10) + last;
      assert s[..|s| - 1] == DecimalString(n / 10);
      s
  }

  lemma {:induction false} DigitRunOfDigits(s: string)
    requires AllDigits(s)
    ensures DigitRun(s) == |s|
  {
    if s != [] {
      DigitRunOfDigits(s[1..]);
    }
  }

  /** `parseInt` reads back the decimal spelling of every natural number. */
  lemma ParseIntDecimalString(n: nat)
    ensures ParseInt(DecimalString(n)) == Finite(n as real)
  {
    ParseIntOfDigits(DecimalString(n));
  }

  lemma ParseIntOfDigits(s: string)
    requires |s| > 0 && AllDigits(s)
    ensures ParseInt(s) == Finite(DigitsValue(s) as real)
  {
    assert SplitSign(s) == (false, s) by {
      SplitSignOfDigits(s);
    }
    assert DigitRun(s) == |s| by {
      DigitRunOfDigits(s);
    }
    assert s[..|s|] == s;
    ParseIntSigned(s, false, s, s);
  }

  /** A digit run ends where the digits do. */
  lemma {:induction false} DigitRunOfPrefix(d: string, rest: string)
    requires AllDigits(d)
    requires rest == [] || !IsDigit(rest[0])
    ensures DigitRun(d + rest) == |d|
  {
    if d == [] {
      assert d + rest == rest;
    } else {
      assert (d + rest)[0] == d[0] && (d + rest)[1..] == d[1..] + rest;
      DigitRunOfPrefix(d[1..], rest);
    }
  }

  /** `parseInt(s, 10)` on the general shape it accepts: white space, an
      optional sign, digits, then anything that does not start with a digit.
      The result is the digits' value, negated after a minus. */
  lemma ParseIntOfShape(lead: string, sign: string, d: string, rest: string)
    requires AllWhiteSpace(lead)
    requires sign == "" || sign == "+" || sign == "-"
    requires |d| > 0 && AllDigits(d)
    requires rest == [] || !IsDigit(rest[0])
    ensures ParseInt(lead + sign + d + rest) ==
      Finite(if sign == "-" then -(DigitsValue(d) as real) else DigitsValue(d) as real)
  {
    var s, u := lead + sign + d + rest, d + rest;
    assert s == lead + sign + u;
    assert u[0] == d[0];
    SplitSignOfShape(lead, sign, u);
    DigitRunOfPrefix(d, rest);
    assert u[..|d|] == d;
    ParseIntSigned(s, sign == "-", u, d);
  }

  /** The parsers skip the white space and the one sign in front. */
  lemma SplitSignOfShape(lead: string, sign: string, u: string)
    requires AllWhiteSpace(lead)
    requires sign == "" || sign == "+" || sign == "-"
    requires |u| > 0 && IsDigit(u[0])
    ensures SplitSign(lead + sign + u) == (sign == "-", u)
  {
    var t := sign + u;
    assert lead + sign + u == lead + t;
    assert !IsWhiteSpace(t[0]) by {
      var c := t[0];
      if sign == "" {
        assert c == u[0] && !IsWhiteSpace(c);
      } else if sign == "+" {
        assert c == '+' && !IsWhiteSpace(c);
      } else {
        assert c == '-' && !IsWhiteSpace(c);
      }
    }
    TrimStartOfPadded(lead, t);
    SplitSignOfTrimmed(lead + t, sign, u);
  }

  /** The sign test looks only at what `TrimStart` leaves. */
  lemma SplitSignOfTrimmed(s: string, sign: string, u: string)
    requires TrimStart(s) == sign + u
    requires sign == "" || sign == "+" || sign == "-"
    requires |u| > 0 && IsDigit(u[0])
    ensures SplitSign(s) == (sign == "-", u)
  {
    var t := sign + u;
    if sign != "" {
      assert t[0] == sign[0] && t[1..] == u;
    } else {
      assert t == u;
    }
  }

  /** `parseInt` is the value of the digit run after the sign, negated after
      a minus. */
  lemma ParseIntSigned(s: string, negative: bool, u: string, d: string)
    requires SplitSign(s) == (negative, u)
    requires |d| > 0 && DigitRun(u) == |d| && u[..|d|] == d
    ensures AllDigits(d)
    ensures ParseInt(s) ==
      Finite(if negative then -(DigitsValue(d) as real) else DigitsValue(d) as real)
  {
  }

  /** So does `parseFloat`. */
  lemma ParseFloatDecimalString(n: nat)
    ensures ParseFloat(DecimalString(n)) == Finite(n as real)
  {
    var s := DecimalString(n);
    SplitSignOfDigits(s);
    assert !(|s| >= 8 && s[..8] == "Infinity") by {
      if |s| >= 8 { assert s[..8][0] == s[0]; }
    }
    ScanUnsignedOfDigits(s);
  }

  lemma SplitSignOfDigits(s: string)
    requires |s| > 0 && IsDigit(s[0])
    ensures SplitSign(s) == (false, s)
  {
    assert !IsWhiteSpace(s[0]);
  }

  lemma ScanUnsignedOfDigits(s: string)
    requires |s| > 0 && AllDigits(s)
    ensures ScanUnsigned(s) == Some(Literal(s, [], 0, |s|))
    ensures LiteralValue(Literal(s, [], 0, |s|)) == DigitsValue(s) as real
  {
    DigitRunOfDigits(s);
    assert s[..|s|] == s;
    assert s[|s|..] == [];
  }
}
