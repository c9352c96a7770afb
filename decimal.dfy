/**
 * Decimal text as the cost estimator reads and writes it: a plain decimal grammar
 * standing in for Python's `float(text)`, and `f"{value:.2f}"` on an exact value.
 */
module Decimal {
  import opened Wrappers

  predicate IsDigit(c: char) {
    '0' <= c <= '9'
  }

  function DigitValue(c: char): (d: nat)
    requires IsDigit(c)
    ensures d < 10
  {
    c as int - '0' as int
  }

  function DigitChar(d: nat): (c: char)
    requires d < 10
    ensures IsDigit(c) && DigitValue(c) == d
  {
    ('0' as int + d) as char
  }

  predicate AllDigits(s: string) {
    forall i :: 0 <= i < |s| ==> IsDigit(s[i])
  }

  /** The number a run of decimal digits denotes, most significant digit first. */
  function DigitsValue(ds: string): (r: nat)
    requires AllDigits(ds)
  {
    if |ds| == 0 then 0 else 10 * DigitsValue(ds[..|ds| - 1]) + DigitValue(ds[|ds| - 1])
  }

  function Pow10(n: nat): (p: nat)
    ensures p >= 1
  {
    if n == 0 then 1 else 10 * Pow10(n - 1)
  }

  /** Position of the first '.' in `s`, or |s| when there is none. */
  function IndexOfDot(s: string): (k: nat)
    ensures k <= |s|
    ensures k < |s| ==> s[k] == '.'
    ensures forall i :: 0 <= i < k ==> s[i] != '.'
  {
    if |s| == 0 || s[0] == '.' then 0 else 1 + IndexOfDot(s[1..])
  }

  /** The value of the digits after the point: `frac` read as a fraction of 1. */
  function FractionValue(frac: string): (r: real)
    requires AllDigits(frac)
  {
    DigitsValue(frac) as real / Pow10(|frac|) as real
  }

  /** `digits* ('.' digits*)?` with at least one digit in all. */
  function ParseUnsigned(s: string): (r: Option<real>)
    ensures r.Some? ==> r.value >= 0.0
  {
    var k := IndexOfDot(s);
    var whole := s[..k];
    var frac := if k < |s| then s[k + 1..] else "";
    if AllDigits(whole) && AllDigits(frac) && |whole| + |frac| > 0 then
      Some(DigitsValue(whole) as real + FractionValue(frac))
    else
      None
  }

  /**
   * The decimal grammar `[+-]? digits* ('.' digits*)?` (at least one digit), which
   * is the part of what Python's `float` accepts that the catalog uses.
   */
  function ParseDecimal(s: string): (r: Option<real>) {
    if |s| > 0 && (s[0] == '-' || s[0] == '+') then
      match ParseUnsigned(s[1..])
      case None => None
      case Some(v) => Some(if s[0] == '-' then -v else v)
    else
      ParseUnsigned(s)
  }

  /** Decimal digits of `n`, most significant first, without leading zeros. */
  function NatToString(n: nat): (s: string)
    ensures |s| > 0 && AllDigits(s)
    ensures |s| == 1 || s[0] != '0'
    ensures s[0] == '0' <==> n == 0
  {
    if n < 10 then [DigitChar(n)] else NatToString(n / 10) + [DigitChar(n % 10)]
  }

  lemma {:induction false} NatToStringValue(n: nat)
    ensures DigitsValue(NatToString(n)) == n
  {
    if n >= 10 {
      NatToStringValue(n / 10);
      var s := NatToString(n);
      assert s[..|s| - 1] == NatToString(n / 10);
    }
  }

  lemma DigitsHaveNoDot(s: string)
    requires AllDigits(s)
    ensures forall i :: 0 <= i < |s| ==> s[i] != '.'
  {
  }

  /** Whole numbers read back as themselves. */
  lemma NatToStringParses(n: nat)
    ensures ParseDecimal(NatToString(n)) == Some(n as real)
  {
    var s := NatToString(n);
    DigitsHaveNoDot(s);
    assert IndexOfDot(s) == |s|;
    assert s[..|s|] == s;
    NatToStringValue(n);
  }

  function Abs(x: real): (a: real)
    ensures a >= 0.0 && (a == x || a == -x)
  {
    if x < 0.0 then -x else x
  }

  /**
   * Rounding to the nearest integer, a tie going to the even neighbour: what `:.2f`
   * does to a value that is exactly representable.
   */
  function RoundHalfEven(x: real): (n: int)
    ensures x - 0.5 <= n as real <= x + 0.5
    ensures n as real - x == 0.5 || x - n as real == 0.5 ==> n % 2 == 0
  {
    var f := x.Floor;
    var d := x - f as real;
    if d < 0.5 then f
    else if d > 0.5 then f + 1
    else if f % 2 == 0 then f
    else f + 1
  }

  /** The number of hundredths `:.2f` prints for the magnitude of `v`. */
  function Cents(v: real): (c: nat)
  {
    var n := RoundHalfEven(Abs(v) * 100.0);
    assert n >= 0;
    n
  }

  /** The value `f"{v:.2f}"` denotes: `v` rounded to hundredths, keeping its sign. */
  function Rounded2(v: real): (r: real)
    ensures Abs(r - v) <= 0.005
  {
    if v < 0.0 then -(Cents(v) as real / 100.0) else Cents(v) as real / 100.0
  }

  /** Python's `f"{v:.2f}"`: an optional '-', the whole part, '.', exactly two digits. */
  function FormatFixed2(v: real): (s: string)
    ensures |s| >= 4 && s[|s| - 3] == '.'
    ensures (s[0] == '-') == (v < 0.0)
    ensures IsDigit(s[|s| - 2]) && IsDigit(s[|s| - 1])
  {
    (if v < 0.0 then "-" else "") + Magnitude2(Cents(v))
  }

  /** Digits, '.', digits reads back as the whole part plus the scaled fraction. */
  lemma ParseWholeDotFraction(w: string, ds: string)
    requires |w| > 0 && AllDigits(w) && AllDigits(ds)
    ensures ParseUnsigned(w + "." + ds)
         == Some(DigitsValue(w) as real + FractionValue(ds))
  {
    DotAfterDigits(w, ds);
    SplitAtDot(w, ds);
  }

  /** Signless decimal text reads the same through the sign-aware parser. */
  lemma ParseDecimalWholeDotFraction(w: string, ds: string)
    requires |w| > 0 && AllDigits(w) && AllDigits(ds)
    ensures ParseDecimal(w + "." + ds) == Some(DigitsValue(w) as real + FractionValue(ds))
  {
    var u := w + "." + ds;
    assert u[0] == w[0];
    ParseWholeDotFraction(w, ds);
  }

  /** Digits, '.', digits holds no character other than digits and the '.'. */
  lemma DecimalTextHasNo(w: string, ds: string, c: char)
    requires AllDigits(w) && AllDigits(ds) && !IsDigit(c) && c != '.'
    ensures forall i :: 0 <= i < |w + "." + ds| ==> (w + "." + ds)[i] != c
  {
    var u := w + "." + ds;
    forall i | 0 <= i < |u| ensures u[i] != c {
      if i < |w| {
        assert u[i] == w[i];
      } else if i > |w| {
        assert u[i] == ds[i - |w| - 1];
      }
    }
  }

  /** The text on either side of the '.' between `w` and `ds`. */
  lemma SplitAtDot(w: string, ds: string)
    ensures (w + "." + ds)[..|w|] == w
    ensures (w + "." + ds)[|w| + 1..] == ds
  {
    var u := w + "." + ds;
    assert u[..|w|] == w;
    assert u[|w| + 1..] == ds;
  }

  /** The first '.' of digits, '.', anything is the one after the digits. */
  lemma DotAfterDigits(w: string, ds: string)
    requires AllDigits(w)
    ensures IndexOfDot(w + "." + ds) == |w|
  {
    assert (w + "." + ds)[|w|] == '.';
  }

  lemma TwoDigitsValue(d: nat)
    requires d < 100
    ensures DigitsValue([DigitChar(d / 10), DigitChar(d % 10)]) == d
  {
    var ds := [DigitChar(d / 10), DigitChar(d % 10)];
    assert ds[..1] == [ds[0]] && ds[..1][..0] == [];
    assert DigitsValue(ds[..1]) == d / 10;
  }

  /** Whole part, '.', two digits reads back as whole part plus hundredths. */
  lemma ParseWholeAndHundredths(q: nat, d: nat)
    requires d < 100
    ensures ParseUnsigned(Fixed2Text(q, d)) == Some(q as real + d as real / 100.0)
  {
    var ds := [DigitChar(d / 10), DigitChar(d % 10)];
    ParseWholeDotFraction(NatToString(q), ds);
    NatToStringValue(q);
    TwoDigitsValue(d);
    assert Pow10(|ds|) == 100;
  }

  lemma HundredthsSplit(c: nat)
    ensures (c / 100) as real + (c % 100) as real / 100.0 == c as real / 100.0
  {
    assert c == 100 * (c / 100) + c % 100;
    assert c as real == 100.0 * (c / 100) as real + (c % 100) as real;
  }

  /** The text `FormatFixed2` prints after the sign. */
  function Magnitude2(c: nat): (s: string)
    ensures |s| >= 4 && IsDigit(s[0])
  {
    Fixed2Text(c / 100, c % 100)
  }

  /** The whole part `q`, a '.', and the two digits of `d`. */
  function Fixed2Text(q: nat, d: nat): (s: string)
    requires d < 100
    ensures |s| >= 4 && s[..|s| - 3] == NatToString(q) && s[0] == NatToString(q)[0]
  {
    NatToString(q) + "." + [DigitChar(d / 10), DigitChar(d % 10)]
  }

  lemma Magnitude2Parses(c: nat)
    ensures ParseUnsigned(Magnitude2(c)) == Some(c as real / 100.0)
    ensures IsDigit(Magnitude2(c)[0])
  {
    var q, d := c / 100, c % 100;
    ParseWholeAndHundredths(q, d);
    HundredthsSplit(c);
    assert Magnitude2(c)[0] == NatToString(q)[0];
  }

  /** A signed magnitude reads back with its sign. */
  lemma SignedMagnitudeParses(negative: bool, c: nat)
    ensures ParseDecimal((if negative then "-" else "") + Magnitude2(c))
         == Some(if negative then -(c as real / 100.0) else c as real / 100.0)
  {
    Magnitude2Parses(c);
    ParseSigned(Magnitude2(c), negative);
  }

  /** A text starting with a digit reads with the sign put in front of it. */
  lemma ParseSigned(u: string, negative: bool)
    requires |u| > 0 && IsDigit(u[0]) && ParseUnsigned(u).Some?
    ensures ParseDecimal((if negative then "-" else "") + u)
         == Some(if negative then -ParseUnsigned(u).value else ParseUnsigned(u).value)
  {
    if negative {
      assert ("-" + u)[1..] == u;
    } else {
      assert "" + u == u;
      assert u[0] != '-' && u[0] != '+';
    }
  }

  /** What `FormatFixed2` prints reads back as the rounded value. */
  lemma FormatFixed2Parses(v: real)
    ensures ParseDecimal(FormatFixed2(v)) == Some(Rounded2(v))
  {
    var c := Cents(v);
    SignedMagnitudeParses(v < 0.0, c);
    assert FormatFixed2(v) == (if v < 0.0 then "-" else "") + Magnitude2(c);
    assert Rounded2(v) == if v < 0.0 then -(c as real / 100.0) else c as real / 100.0;
  }

  lemma RoundWhole(m: int)
    ensures RoundHalfEven(m as real) == m
  {
    assert (m as real).Floor == m;
  }

  lemma CentsOfHundredths(c: int)
    ensures Cents(c as real / 100.0) == if c < 0 then -c else c
  {
    var v := c as real / 100.0;
    var m := if c < 0 then -c else c;
    assert Abs(v) == m as real / 100.0;
    assert Abs(v) * 100.0 == m as real;
    RoundWhole(m);
  }

  /** An amount in whole hundredths is printed exactly (no rounding happens). */
  lemma FormatFixed2Exact(v: real, c: int)
    requires v == c as real / 100.0
    ensures ParseDecimal(FormatFixed2(v)) == Some(v)
  {
    CentsOfHundredths(c);
    if c < 0 {
      assert v < 0.0 && Rounded2(v) == -((-c) as real / 100.0);
    } else {
      assert Rounded2(v) == c as real / 100.0;
    }
    FormatFixed2Parses(v);
  }
}
