/** The part of Python's `float(str)` that the quote feed exercises: an optional
    sign, decimal digits, and an optional fractional part (`"1723.500"`, `"-3"`, `".5"`). */
module Decimal {
  import opened Wrappers
  import Text

  predicate IsDigit(c: char) {
    '0' <= c <= '9'
  }

  predicate AllDigits(s: string) {
    forall i :: 0 <= i < |s| ==> IsDigit(s[i])
  }

  function DigitValue(c: char): nat
    requires IsDigit(c)
  {
    c as int - '0' as int
  }

  /** The value of a digit string read most-significant first. */
  function DigitsValue(s: string): nat
    requires AllDigits(s)
  {
    if |s| == 0 then 0 else DigitsValue(s[..|s| - 1]) * 10 + DigitValue(s[|s| - 1])
  }

  function Pow10(n: nat): (r: nat)
    ensures r >= 1
  {
    if n == 0 then 1 else 10 * Pow10(n - 1)
  }

  /** An unsigned literal: digits, optionally a '.' and more digits, at least one digit. */
  function ParseUnsigned(s: string): (r: Option<real>)
    ensures r.Some? ==> r.value >= 0.0
  {
    match Text.IndexOf(s, ".")
    case None =>
      if |s| > 0 && AllDigits(s) then Some(DigitsValue(s) as real) else None
    case Some(i) =>
      var whole := s[..i];
      var frac := s[i + 1..];
      if AllDigits(whole) && AllDigits(frac) && |whole| + |frac| > 0 then
        Some(DigitsValue(whole) as real + DigitsValue(frac) as real / Pow10(|frac|) as real)
      else None
  }

  /** `float(s)` on a decimal literal; None where Python raises ValueError. */
  function ParseDecimal(s: string): (r: Option<real>)
    ensures r.Some? ==> |s| > 0
    ensures |s| > 0 && s[0] == '-' && r.Some? ==> r.value <= 0.0
  {
    if |s| > 0 && (s[0] == '-' || s[0] == '+') then
      match ParseUnsigned(s[1..])
      case None => None
      case Some(v) => Some(if s[0] == '-' then -v else v)
    else ParseUnsigned(s)
  }

  /** The decimal rendering of a natural number, as `str(n)` prints it. */
  function ShowNat(n: nat): (r: string)
    ensures |r| > 0 && AllDigits(r)
  {
    if n < 10 then ['0' + n as char]
    else ShowNat(n / 10) + ['0' + (n % 10) as char]
  }

  lemma {:induction false} ShowNatValue(n: nat)
    ensures DigitsValue(ShowNat(n)) == n
  {
    if n >= 10 {
      ShowNatValue(n / 10);
      var s := ShowNat(n);
      assert s[..|s| - 1] == ShowNat(n / 10);
    }
  }

  /** Reading back a printed natural number gives the number. */
  lemma ParseShowNat(n: nat)
    ensures ParseDecimal(ShowNat(n)) == Some(n as real)
    ensures ParseDecimal("-" + ShowNat(n)) == Some(-(n as real))
  {
    var s := ShowNat(n);
    ShowNatValue(n);
    Text.CharsOfContained(s, ".", 0);
    assert s[0] != '-' && s[0] != '+' by { assert IsDigit(s[0]); }
    assert ("-" + s)[1..] == s;
  }

  /** The first '.' of a printed whole part followed by '.' is right after it. */
  lemma DotAfterWhole(w: string, rest: string)
    requires |w| > 0 && AllDigits(w)
    ensures Text.IndexOf(w + "." + rest, ".") == Some(|w|)
  {
    var s := w + "." + rest;
    assert s[|w|..|w| + 1] == ".";
    assert Text.OccursAt(s, ".", |w|);
    forall j: nat | j < |w|
      ensures !Text.OccursAt(s, ".", j)
    {
      assert s[j..j + 1][0] == s[j] == w[j];
    }
    var r := Text.IndexOf(s, ".");
    assert r == Some(|w|);
  }

  /** The value of a fixed-point numeral: the whole part plus the digits of
      the fraction scaled by their count. */
  function FixedValue(whole: nat, frac: string): real
    requires AllDigits(frac)
  {
    whole as real + DigitsValue(frac) as real / Pow10(|frac|) as real
  }

  lemma {:induction false} ParseUnsignedFixed(whole: nat, frac: string)
    requires AllDigits(frac)
    ensures ParseUnsigned(ShowNat(whole) + "." + frac) == Some(FixedValue(whole, frac))
  {
    var w := ShowNat(whole);
    var s := w + "." + frac;
    ShowNatValue(whole);
    DotAfterWhole(w, frac);
    assert s[..|w|] == w && s[|w| + 1..] == frac;
  }

  /** Reading back a fixed-point numeral (a printed whole part, a '.', and
      any digits, as in the feed's "1723.500") gives its value; a leading
      '-' negates it. */
  lemma ParseFixedPoint(whole: nat, frac: string)
    requires AllDigits(frac)
    ensures ParseDecimal(ShowNat(whole) + "." + frac) == Some(FixedValue(whole, frac))
    ensures ParseDecimal("-" + (ShowNat(whole) + "." + frac)) == Some(-FixedValue(whole, frac))
  {
    var s := ShowNat(whole) + "." + frac;
    ParseUnsignedFixed(whole, frac);
    UnsignedStart(ShowNat(whole), frac);
    assert ("-" + s)[1..] == s;
  }

  /** A numeral that starts with a digit carries no sign. */
  lemma UnsignedStart(w: string, frac: string)
    requires |w| > 0 && AllDigits(w)
    ensures (w + "." + frac)[0] != '-' && (w + "." + frac)[0] != '+'
  {
    assert (w + "." + frac)[0] == w[0] && IsDigit(w[0]);
  }

  lemma ShowNat1723()
    ensures ShowNat(1723) == "1723"
  {
    assert ShowNat(1) == "1";
    assert ShowNat(17) == ShowNat(1) + "7";
    assert ShowNat(172) == ShowNat(17) + "2";
  }

  lemma DigitsValue500()
    ensures AllDigits("500") && DigitsValue("500") == 500
  {
    assert "500"[..2] == "50" && "50"[..1] == "5" && "5"[..0] == "";
  }

  /** A price as the feed prints it. */
  lemma ParseFeedPrice()
    ensures ParseDecimal("1723.500") == Some(1723.5)
  {
    ShowNat1723();
    DigitsValue500();
    assert FixedValue(1723, "500") == 1723.5;
    ParseFixedPoint(1723, "500");
    assert ShowNat(1723) + "." + "500" == "1723.500";
  }
}
