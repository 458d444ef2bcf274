/** Decimal rendering as printf's `%d` produces it, with a reader used as its reference. */
module Decimal {

  predicate IsDigit(c: char)
  {
    '0' <= c <= '9'
  }

  predicate AllDigits(s: string)
  {
    forall i :: 0 <= i < |s| ==> IsDigit(s[i])
  }

  function DigitChar(d: nat): (c: char)
    requires d < 10
    ensures IsDigit(c)
    ensures c as int - '0' as int == d
  {
    ('0' as int + d) as char
  }

  /** The digits of `n`, most significant first, without leading zeros. */
  function FromNat(n: nat): (s: string)
    ensures 1 <= |s|
    ensures AllDigits(s)
    ensures s[0] == '0' <==> n == 0
    decreases n
  {
    if n < 10 then [DigitChar(n)] else FromNat(n / 10) + [DigitChar(n % 10)]
  }

  /** `%d` of a signed value: a minus sign before the digits of its magnitude. */
  function FromInt(x: int): (s: string)
    ensures 1 <= |s|
    ensures s[0] == '-' <==> x < 0
    ensures x >= 0 ==> AllDigits(s) && ValueOf(s) == x
    ensures x < 0 ==> 2 <= |s| && AllDigits(s[1..]) && ValueOf(s[1..]) == -x
  {
    if x < 0 then
      ValueOfFromNat(-x);
      assert ("-" + FromNat(-x))[1..] == FromNat(-x);
      "-" + FromNat(-x)
    else
      ValueOfFromNat(x);
      FromNat(x)
  }

  /** Reads a string of digits back as the number it denotes. */
  function ValueOf(s: string): nat
    requires AllDigits(s)
    decreases |s|
  {
    if |s| == 0 then 0 else 10 * ValueOf(s[..|s| - 1]) + (s[|s| - 1] as int - '0' as int)
  }

  /** Reading back what `%d` printed gives the number that was printed. */
  lemma {:induction false} ValueOfFromNat(n: nat)
    ensures ValueOf(FromNat(n)) == n
    decreases n
  {
    if n >= 10 {
      var s := FromNat(n);
      ValueOfFromNat(n / 10);
      assert s[..|s| - 1] == FromNat(n / 10);
    }
  }
}
