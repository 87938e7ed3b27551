/**
 * Python's decimal rendering of an `int` (what `'{sku}'.format(sku=sku)`
 * produces) and its inverse.
 */
module Decimal {
  import opened Wrappers

  predicate IsDigit(c: char) {
    '0' <= c <= '9'
  }

  predicate AllDigits(s: string) {
    forall i :: 0 <= i < |s| ==> IsDigit(s[i])
  }

  function DigitChar(d: nat): (c: char)
    requires d < 10
    ensures IsDigit(c)
  {
    ('0' as int + d) as char
  }

  function DigitValue(c: char): (d: nat)
    requires IsDigit(c)
    ensures d < 10
  {
    c as int - '0' as int
  }

  /**
   * The digits of `n`, most significant first, without leading zeros;
   * they read back as `n`.
   */
  function NatToDecimal(n: nat): (s: string)
    ensures |s| > 0 && AllDigits(s)
    ensures |s| > 1 ==> s[0] != '0'
    ensures ParseNat(s) == n
    decreases n
  {
    if n < 10 then [DigitChar(n)]
    else
      var s := NatToDecimal(n / 10) + [DigitChar(n % 10)];
      assert s[..|s| - 1] == NatToDecimal(n / 10);
      s
  }

  /**
   * `str(i)`: a minus sign before the digits of a negative number. It holds
   * no slash and reads back as `i`.
   */
  function IntToDecimal(i: int): (s: string)
    ensures |s| > 0 && '/' !in s
    ensures ParseInt(s) == Some(i)
  {
    if i < 0 then
      var digits := NatToDecimal(-i);
      var s := "-" + digits;
      assert s[1..] == digits;
      s
    else
      var s := NatToDecimal(i);
      assert IsDigit(s[0]);
      s
  }

  /** The value of a non-empty string of digits. */
  function ParseNat(s: string): nat
    requires |s| > 0 && AllDigits(s)
    decreases |s|
  {
    if |s| == 1 then DigitValue(s[0])
    else 10 * ParseNat(s[..|s| - 1]) + DigitValue(s[|s| - 1])
  }

  /** `int(s)` restricted to an optional minus sign followed by digits. */
  function ParseInt(s: string): Option<int> {
    if |s| > 1 && s[0] == '-' && AllDigits(s[1..]) then Some(-(ParseNat(s[1..]) as int))
    else if |s| > 0 && AllDigits(s) then Some(ParseNat(s))
    else None
  }

  /** Distinct numbers render differently. */
  lemma DecimalInjective(i: int, j: int)
    requires IntToDecimal(i) == IntToDecimal(j)
    ensures i == j
  {
    assert ParseInt(IntToDecimal(i)) == ParseInt(IntToDecimal(j));
  }
}
