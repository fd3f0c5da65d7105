/** Decimal text of natural numbers. */
module Decimals {

  predicate IsDigit(c: char) { '0' <= c <= '9' }

  predicate AllDigits(s: string) {
    forall i :: 0 <= i < |s| ==> IsDigit(s[i])
  }

  /** The number a string of digits spells. */
  function Digits(s: string): (n: nat)
    requires AllDigits(s)
  {
    if s == [] then 0 else Digits(s[..|s| - 1]) * 10 + (s[|s| - 1] as int - '0' as int)
  }

  /** Decimal digits without leading zeros. */
  function DecimalNat(n: nat): (s: string)
    ensures s != [] && AllDigits(s) && Digits(s) == n
  {
    var last := ['0', '1', '2', '3', '4', '5', '6', '7', '8', '9'][n % 10];
    if n < 10 then
      assert [last][..0] == [];
      [last]
    else
      var front := DecimalNat(n / 10);
      assert (front + [last])[..|front|] == front;
      front + [last]
  }

  function Decimal(i: int): string {
    if i < 0 then "-" + DecimalNat(-i) else DecimalNat(i)
  }
}
