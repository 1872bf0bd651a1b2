/**
 * Decimal rendering of integers, as Python's f-string formatting writes them
 * into the sheet title and the default output file name.
 */
module Decimal {

  predicate IsDigit(c: char) {
    '0' <= c <= '9'
  }

  function DigitChar(d: int): (c: char)
    requires 0 <= d <= 9
    ensures IsDigit(c)
    ensures c as int - '0' as int == d
  {
    (d + '0' as int) as char
  }

  function DigitValue(c: char): (d: nat)
    requires IsDigit(c)
    ensures d <= 9
  {
    c as int - '0' as int
  }

  /** The digits of `n`, most significant first, without leading zeros. */
  function NatToDecimal(n: nat): (s: string)
    ensures 1 <= |s|
    ensures forall i :: 0 <= i < |s| ==> IsDigit(s[i])
    ensures 1 < |s| ==> s[0] != '0'
    ensures n < 10 <==> |s| == 1
  {
    if n < 10 then [DigitChar(n)] else NatToDecimal(n / 10) + [DigitChar(n % 10)]
  }

  /** Python's `str(int)`: a minus sign in front of the digits of a negative number. */
  function IntToDecimal(n: int): (s: string)
    ensures 1 <= |s|
    ensures n >= 0 ==> s == NatToDecimal(n)
    ensures n < 0 ==> s[0] == '-' && s[1..] == NatToDecimal(-n)
  {
    if n < 0 then "-" + NatToDecimal(-n) else NatToDecimal(n)
  }

  /** The value of a string of decimal digits: the partner of `NatToDecimal`. */
  function DecimalValue(s: string): nat
    requires forall i :: 0 <= i < |s| ==> IsDigit(s[i])
  {
    if |s| == 0 then 0
    else DecimalValue(s[..|s| - 1]) * 10 + DigitValue(s[|s| - 1])
  }

  /** Reading back the rendered digits gives the number that was rendered. */
  lemma {:induction false} DecimalRoundTrip(n: nat)
    ensures DecimalValue(NatToDecimal(n)) == n
  {
    if n >= 10 {
      var s := NatToDecimal(n);
      assert s[..|s| - 1] == NatToDecimal(n / 10);
      DecimalRoundTrip(n / 10);
    }
  }

  /** Distinct numbers render to distinct strings. */
  lemma NatToDecimalInjective(a: nat, b: nat)
    requires NatToDecimal(a) == NatToDecimal(b)
    ensures a == b
  {
    DecimalRoundTrip(a);
    DecimalRoundTrip(b);
  }

  /**
   * A rendered number followed by a non-digit can be split off unambiguously:
   * the digits end where the non-digit starts.
   */
  lemma SplitAfterNumber(a: nat, b: nat, c: char, r1: string, r2: string)
    requires !IsDigit(c)
    requires NatToDecimal(a) + [c] + r1 == NatToDecimal(b) + [c] + r2
    ensures a == b && r1 == r2
  {
    var x, y := NatToDecimal(a), NatToDecimal(b);
    var lhs, rhs := x + [c] + r1, y + [c] + r2;
    var m := if |x| < |y| then |x| else |y|;
    assert lhs[m] == rhs[m];
    assert x == lhs[..|x|] == rhs[..|y|] == y;
    NatToDecimalInjective(a, b);
    assert r1 == lhs[|x| + 1..] == rhs[|y| + 1..] == r2;
  }
}
