/** Decimal numerals of non-negative integers, as a JavaScript template literal
    (`${imageIndex}`) writes them for array indices (below 2^32): no sign, no
    leading zeros. */
module Decimal {

  predicate IsDigit(c: char) {
    '0' <= c <= '9'
  }

  predicate AllDigits(s: string) {
    forall j :: 0 <= j < |s| ==> IsDigit(s[j])
  }

  function DigitChar(d: int): (c: char)
    requires 0 <= d < 10
    ensures IsDigit(c)
  {
    ('0' as int + d) as char
  }

  function DigitValue(c: char): (d: int)
    requires IsDigit(c)
    ensures 0 <= d < 10
  {
    c as int - '0' as int
  }

  /** The numeral of `k`: at least one digit, only digits, and a leading `0`
      only for zero itself. */
  function DecimalString(k: nat): (s: string)
    ensures |s| >= 1 && AllDigits(s)
    ensures s[0] == '0' <==> k == 0
    ensures |s| == 1 <==> k < 10
    decreases k
  {
    if k < 10 then [DigitChar(k)] else DecimalString(k / 10) + [DigitChar(k % 10)]
  }

  /** The value a string of digits denotes, most significant digit first. */
  function ParseDecimal(s: string): (k: nat)
    requires AllDigits(s)
    decreases |s|
  {
    if s == [] then 0 else ParseDecimal(s[..|s| - 1]) * 10 + DigitValue(s[|s| - 1])
  }

  /** Reading a numeral gives back the number it was written for. */
  lemma {:induction false} ParseDecimalString(k: nat)
    ensures ParseDecimal(DecimalString(k)) == k
    decreases k
  {
    if k >= 10 {
      var front := DecimalString(k / 10);
      var s := front + [DigitChar(k % 10)];
      assert s[..|s| - 1] == front;
      ParseDecimalString(k / 10);
    }
  }

  /** Different numbers have different numerals. */
  lemma DecimalStringInjective(a: nat, b: nat)
    ensures DecimalString(a) == DecimalString(b) <==> a == b
  {
    if DecimalString(a) == DecimalString(b) {
      ParseDecimalString(a);
      ParseDecimalString(b);
    }
  }
}
