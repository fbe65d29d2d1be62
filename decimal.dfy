/** Decimal notation of non-negative integers: the `toString()` used to build
    the message that is committed to, and the `parseInt` applied to the
    all-digit strings a player types. */
module Decimal {

  predicate IsDigit(c: char) {
    '0' <= c <= '9'
  }

  predicate AllDigits(s: string) {
    forall k :: 0 <= k < |s| ==> IsDigit(s[k])
  }

  function DigitChar(d: nat): (c: char)
    requires d < 10
    ensures IsDigit(c)
  {
    (d + '0' as int) as char
  }

  function DigitValue(c: char): (d: nat)
    requires IsDigit(c)
    ensures d < 10 && DigitChar(d) == c
  {
    c as int - '0' as int
  }

  /** The shortest decimal numeral of `n`: digits only, and no leading zero
      except for the numeral "0" itself. */
  function DecimalString(n: nat): (s: string)
    ensures |s| > 0 && AllDigits(s)
    ensures s[0] == '0' <==> n == 0
    ensures |s| == 1 <==> n < 10
  {
    if n < 10 then [DigitChar(n)] else DecimalString(n / 10) + [DigitChar(n % 10)]
  }

  /** The value of a string of decimal digits, most significant first
      (an empty string reads as 0). */
  function ParseDecimal(s: string): nat
    requires AllDigits(s)
  {
    if s == [] then 0 else ParseDecimal(s[..|s| - 1]) * 10 + DigitValue(s[|s| - 1])
  }

  /** A one-digit numeral denotes its digit. */
  lemma ParseDigit(c: char)
    requires IsDigit(c)
    ensures ParseDecimal([c]) == DigitValue(c)
  {
    assert [c][..0] == [];
  }

  /** A canonical numeral: non-empty, and a leading zero only in "0". */
  predicate IsCanonical(s: string) {
    |s| > 0 && AllDigits(s) && (s[0] == '0' ==> |s| == 1)
  }

  /** Reading back a numeral gives the number it was written from. */
  lemma {:induction false} ParseDecimalString(n: nat)
    ensures ParseDecimal(DecimalString(n)) == n
  {
    if n >= 10 {
      var s := DecimalString(n);
      assert s[..|s| - 1] == DecimalString(n / 10);
      ParseDecimalString(n / 10);
    }
  }

  /** Distinct numbers have distinct numerals. */
  lemma DecimalStringInjective(m: nat, n: nat)
    ensures DecimalString(m) == DecimalString(n) ==> m == n
  {
    ParseDecimalString(m);
    ParseDecimalString(n);
  }

  /** A numeral that does not start with '0' denotes a positive number. */
  lemma {:induction false} ParsePositive(s: string)
    requires |s| > 0 && AllDigits(s) && s[0] != '0'
    ensures ParseDecimal(s) > 0
  {
    if |s| > 1 {
      ParsePositive(s[..|s| - 1]);
    }
  }

  /** Writing out the value of a canonical numeral gives the numeral back:
      together with ParseDecimalString, DecimalString is a bijection between
      the naturals and the canonical numerals. */
  lemma {:induction false} DecimalStringOfParse(s: string)
    requires IsCanonical(s)
    ensures DecimalString(ParseDecimal(s)) == s
  {
    var init, last := s[..|s| - 1], s[|s| - 1];
    if |s| > 1 {
      assert init[0] == s[0] != '0';
      ParsePositive(init);
      DecimalStringOfParse(init);
      var n := ParseDecimal(s);
      assert n / 10 == ParseDecimal(init) && n % 10 == DigitValue(last);
      assert s == init + [last];
    }
  }
}
