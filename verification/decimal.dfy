/** Decimal rendering and parsing of natural numbers: Python's `'{}'.format(n)`
    (equivalently `str(n)`) for a non-negative int, and `int(s)` restricted to
    strings of ASCII decimal digits. */
module Decimal {
  import opened Options

  predicate IsDigit(c: char) {
    '0' <= c <= '9'
  }

  predicate IsDigits(s: string) {
    forall i :: 0 <= i < |s| ==> IsDigit(s[i])
  }

  function DigitChar(d: nat): (c: char)
    requires d < 10
    ensures IsDigit(c)
    ensures DigitValue(c) == d
  {
    ('0' as int + d) as char
  }

  function DigitValue(c: char): (d: nat)
    requires IsDigit(c)
    ensures d < 10
  {
    c as int - '0' as int
  }

  /** Python's `str(n)` for `n >= 0`: the shortest decimal numeral of `n`. */
  function NatToString(n: nat): (s: string)
    ensures |s| >= 1 && IsDigits(s)
    ensures s[0] == '0' <==> n == 0
    ensures n == 0 ==> s == "0"
    decreases n
  {
    if n < 10 then [DigitChar(n)] else NatToString(n / 10) + [DigitChar(n % 10)]
  }

  /** The value of a string of decimal digits, most significant digit first;
      leading zeros are allowed, as Python's `int` allows them. */
  function DigitsValue(s: string): nat
    requires IsDigits(s)
    decreases |s|
  {
    if |s| == 0 then 0 else DigitsValue(s[..|s| - 1]) * 10 + DigitValue(s[|s| - 1])
  }

  /** Python's `int(s)` on the inputs this model admits: a non-empty string of
      decimal digits parses to its value; anything else makes `int` raise,
      which is `None` here. */
  function ParseNat(s: string): (r: Option<nat>)
    ensures r.Some? <==> |s| > 0 && IsDigits(s)
  {
    if |s| > 0 && IsDigits(s) then Some(DigitsValue(s)) else None
  }

  /** The longest prefix of `s` made of digits. */
  function LeadingDigits(s: string): (d: string)
    ensures IsDigits(d) && d <= s
    ensures |d| == |s| || !IsDigit(s[|d|])
    decreases |s|
  {
    if |s| > 0 && IsDigit(s[0]) then [s[0]] + LeadingDigits(s[1..]) else ""
  }

  /** Rendering a number and parsing it back gives the number. */
  lemma ParseNatToString(n: nat)
    ensures ParseNat(NatToString(n)) == Some(n)
  {
    DigitsValueOfNatToString(n);
  }

  lemma {:induction false} DigitsValueOfNatToString(n: nat)
    ensures DigitsValue(NatToString(n)) == n
    decreases n
  {
    if n >= 10 {
      var s := NatToString(n);
      DigitsValueOfNatToString(n / 10);
      assert s[..|s| - 1] == NatToString(n / 10);
    }
  }

  lemma {:induction false} DigitsValuePositive(s: string)
    requires |s| > 0 && IsDigits(s) && s[0] != '0'
    ensures DigitsValue(s) > 0
    decreases |s|
  {
    if |s| > 1 {
      DigitsValuePositive(s[..|s| - 1]);
    }
  }

  /** Parsing a canonical numeral (no leading zero unless it is "0") and
      rendering the value gives back the same numeral. */
  lemma {:induction false} CanonicalDigitsRoundTrip(s: string)
    requires |s| > 0 && IsDigits(s)
    requires s[0] != '0' || |s| == 1
    ensures ParseNat(s).Some? && NatToString(ParseNat(s).value) == s
    decreases |s|
  {
    var n := DigitsValue(s);
    if |s| == 1 {
      assert s[..|s| - 1] == "";
      assert DigitsValue(s[..|s| - 1]) == 0;
      assert [DigitChar(n)] == s;
    } else {
      var init := s[..|s| - 1];
      CanonicalDigitsRoundTrip(init);
      DigitsValuePositive(init);
      assert n / 10 == DigitsValue(init);
      assert DigitChar(n % 10) == s[|s| - 1];
      assert s == init + [s[|s| - 1]];
    }
  }

  /** A run of digits followed by a non-digit (or by nothing) is exactly
      what `LeadingDigits` picks out. */
  lemma {:induction false} LeadingDigitsOfNumeral(d: string, t: string)
    requires IsDigits(d)
    requires |t| == 0 || !IsDigit(t[0])
    ensures LeadingDigits(d + t) == d
    decreases |d|
  {
    if |d| > 0 {
      assert (d + t)[1..] == d[1..] + t;
      LeadingDigitsOfNumeral(d[1..], t);
    }
  }
}
