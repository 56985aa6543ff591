/** Natural numbers in decimal. */
module Decimal {
  const DIGITS: string := "0123456789"

  predicate IsDigit(c: char) {
    '0' <= c <= '9'
  }

  predicate AllDigits(s: string) {
    forall c <- s :: IsDigit(c)
  }

  function DigitValue(c: char): nat
    requires IsDigit(c)
  {
    (c - '0') as nat
  }

  function Value(s: string): nat
    requires AllDigits(s)
  {
    if s == "" then 0 else 10 * Value(s[..|s| - 1]) + DigitValue(s[|s| - 1])
  }

  function Show(n: nat): (s: string)
    ensures s != "" && AllDigits(s)
  {
    if n < 10 then [DIGITS[n]] else Show(n / 10) + [DIGITS[n % 10]]
  }

  lemma {:induction false} ValueOfShow(n: nat)
    ensures Value(Show(n)) == n
  {
    if n < 10 {
      assert Show(n)[..0] == "";
    } else {
      ValueOfShow(n / 10);
      assert Show(n)[..|Show(n)| - 1] == Show(n / 10);
    }
  }

  lemma ShowInjective(m: nat, n: nat)
    requires Show(m) == Show(n)
    ensures m == n
  {
    ValueOfShow(m);
    ValueOfShow(n);
  }
}
