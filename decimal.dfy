/**
  Swift's string interpolation `"\(number)"` of an `Int`: the decimal
  numeral, with a leading `-` for negative numbers and no leading zeros.
  A parser is given beside it so that the rendering can be shown to lose
  no information.
*/
module Decimal {

  function DigitChar(d: nat): (c: char)
    requires d < 10
    ensures '0' <= c <= '9'
  {
    (('0' as int) + d) as char
  }

  function DigitValue(c: char): (d: nat)
    requires '0' <= c <= '9'
    ensures d < 10 && DigitChar(d) == c
  {
    (c as int) - ('0' as int)
  }

  predicate IsDigits(s: string) {
    forall i :: 0 <= i < |s| ==> '0' <= s[i] <= '9'
  }

  /** The numeral of a non-negative number: digits only, and no leading zero unless it is `0`. */
  function NatToDigits(n: nat): (s: string)
    ensures |s| > 0 && IsDigits(s)
    ensures s[0] == '0' ==> n == 0
    decreases n
  {
    if n < 10 then [DigitChar(n)] else NatToDigits(n / 10) + [DigitChar(n % 10)]
  }

  /** The value of a string of digits, most significant first. */
  function DigitsToNat(s: string): (n: nat)
    requires IsDigits(s)
    decreases |s|
  {
    if s == [] then 0 else DigitsToNat(s[..|s| - 1]) * 10 + DigitValue(s[|s| - 1])
  }

  /** A well-formed numeral: an optional `-` followed by at least one digit. */
  predicate IsNumeral(s: string) {
    if |s| > 0 && s[0] == '-' then |s| > 1 && IsDigits(s[1..]) else |s| > 0 && IsDigits(s)
  }

  /** `"\(number)"` (the playground's `stringFromNumber`). */
  function StringFromNumber(number: int): (s: string)
    ensures IsNumeral(s)
    ensures s[0] == '-' <==> number < 0
    ensures s[0] == '0' ==> number == 0
    ensures number < 0 ==> s[1] != '0'
    ensures number == 0 ==> s == "0"
  {
    if number < 0 then "-" + NatToDigits(-number) else NatToDigits(number)
  }

  function ParseNumber(s: string): (n: int)
    requires IsNumeral(s)
  {
    if s[0] == '-' then -(DigitsToNat(s[1..]) as int) else DigitsToNat(s)
  }

  lemma {:induction false} DigitsRoundTrip(n: nat)
    ensures DigitsToNat(NatToDigits(n)) == n
    decreases n
  {
    var s := NatToDigits(n);
    if n < 10 {
      assert s[..|s| - 1] == [];
    } else {
      assert s[..|s| - 1] == NatToDigits(n / 10);
      DigitsRoundTrip(n / 10);
    }
  }

  /** Parsing the rendered numeral gives the number back. */
  lemma StringFromNumberRoundTrip(number: int)
    ensures ParseNumber(StringFromNumber(number)) == number
  {
    var s := StringFromNumber(number);
    if number < 0 {
      assert s[1..] == NatToDigits(-number);
      DigitsRoundTrip(-number);
    } else {
      DigitsRoundTrip(number);
    }
  }

  /** Distinct numbers render as distinct strings. */
  lemma StringFromNumberInjective(a: int, b: int)
    requires StringFromNumber(a) == StringFromNumber(b)
    ensures a == b
  {
    StringFromNumberRoundTrip(a);
    StringFromNumberRoundTrip(b);
  }
}
