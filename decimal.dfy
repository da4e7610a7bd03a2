/**
 * Fixed-point text for activity values.
 *
 * The report prints each activity with the format "%.1f". The activity query
 * already rounds to one decimal place, so the model keeps an activity as a
 * whole number of tenths of a minute and prints it as
 * [-]<integer part>.<one digit>, which is what "%.1f" prints for such a value
 * under a locale whose decimal separator is '.'.
 */
module Decimal {

  import opened Wrappers

  predicate IsDigit(c: char) {
    '0' <= c <= '9'
  }

  predicate AllDigits(s: string) {
    forall i :: 0 <= i < |s| ==> IsDigit(s[i])
  }

  function DigitChar(d: nat): (c: char)
    requires d < 10
    ensures IsDigit(c)
  {
    ('0' as int + d) as char
  }

  function DigitValue(c: char): (d: nat)
    requires IsDigit(c)
    ensures d < 10
  {
    c as int - '0' as int
  }

  /** Decimal digits of n, most significant first, without leading zeros. */
  function Digits(n: nat): (s: string)
    ensures |s| >= 1 && AllDigits(s)
    ensures |s| > 1 ==> s[0] != '0'
  {
    if n < 10 then [DigitChar(n)] else Digits(n / 10) + [DigitChar(n % 10)]
  }

  /** The number a string of decimal digits denotes. */
  function DigitsValue(s: string): nat
    requires AllDigits(s)
  {
    if s == [] then 0 else DigitsValue(s[..|s| - 1]) * 10 + DigitValue(s[|s| - 1])
  }

  lemma {:induction false} DigitsRoundTrip(n: nat)
    ensures DigitsValue(Digits(n)) == n
  {
    if n >= 10 {
      DigitsRoundTrip(n / 10);
      var s := Digits(n);
      assert s[..|s| - 1] == Digits(n / 10);
    }
  }

  function Abs(t: int): nat {
    if t < 0 then -t else t
  }

  /** "%.1f" of t tenths. */
  function FormatTenths(t: int): (s: string)
    ensures |s| >= 3
    ensures s[|s| - 2] == '.' && IsDigit(s[|s| - 1])
    ensures s[0] == '-' <==> t < 0
  {
    (if t < 0 then "-" else "") + Digits(Abs(t) / 10) + "." + [DigitChar(Abs(t) % 10)]
  }

  /** Reads back [-]<digits>.<digit> as a number of tenths; None for anything else. */
  function ParseTenths(s: string): Option<int> {
    if |s| >= 1 && s[0] == '-' then
      match ParseUnsigned(s[1..])
      case Some(v) => var neg: int := -(v as int); Some(neg)
      case None => None
    else
      ParseUnsigned(s)
  }

  function ParseUnsigned(s: string): Option<nat> {
    if |s| >= 3 && s[|s| - 2] == '.' && AllDigits(s[..|s| - 2]) && IsDigit(s[|s| - 1]) then
      Some(DigitsValue(s[..|s| - 2]) * 10 + DigitValue(s[|s| - 1]))
    else
      None
  }

  lemma DigitRoundTrip(d: nat)
    requires d < 10
    ensures DigitValue(DigitChar(d)) == d
  {
  }

  /** Reading back "<digits>.<digit>" built from q and d. */
  lemma ParseUnsignedParts(q: nat, d: nat)
    requires d < 10
    ensures ParseUnsigned(Digits(q) + "." + [DigitChar(d)]) == Some(q * 10 + d)
  {
    var ds, c := Digits(q), DigitChar(d);
    var s := ds + "." + [c];
    assert s[..|s| - 2] == ds;
    assert s[|s| - 2] == '.' && s[|s| - 1] == c;
    DigitsRoundTrip(q);
    DigitRoundTrip(d);
  }

  lemma UnsignedRoundTrip(n: nat)
    ensures ParseUnsigned(Digits(n / 10) + "." + [DigitChar(n % 10)]) == Some(n)
  {
    ParseUnsignedParts(n / 10, n % 10);
    assert (n / 10) * 10 + n % 10 == n;
  }

  /** Printing an activity and reading it back gives the same number of tenths. */
  lemma FormatTenthsRoundTrip(t: int)
    ensures ParseTenths(FormatTenths(t)) == Some(t)
  {
    var u := Digits(Abs(t) / 10) + "." + [DigitChar(Abs(t) % 10)];
    UnsignedRoundTrip(Abs(t));
    if t < 0 {
      assert FormatTenths(t) == "-" + u;
      assert FormatTenths(t)[1..] == u;
    } else {
      assert FormatTenths(t) == u;
      assert u[0] != '-';
    }
  }

  /** Printing is injective: two activities print the same only when equal. */
  lemma FormatTenthsInjective(t: int, u: int)
    requires FormatTenths(t) == FormatTenths(u)
    ensures t == u
  {
    FormatTenthsRoundTrip(t);
    FormatTenthsRoundTrip(u);
  }
}
