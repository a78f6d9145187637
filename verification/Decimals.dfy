/**
 Writing a non-negative integer in decimal, as `str` does.
 */
module Decimals {
  import Characters

  function NatText(n: nat): (x: string)
    ensures x != [] && '.' !in x
  {
    if n < 10 then [Characters.DigitChar(n)] else NatText(n / 10) + [Characters.DigitChar(n % 10)]
  }

  /** Different numbers are written differently. */
  lemma {:induction false} NatTextInjective(m: nat, n: nat)
    requires NatText(m) == NatText(n)
    ensures m == n
  {
    var x := NatText(m);
    assert x[|x| - 1] == Characters.DigitChar(m % 10) == Characters.DigitChar(n % 10);
    if m >= 10 && n >= 10 {
      assert x[..|x| - 1] == NatText(m / 10) == NatText(n / 10);
      NatTextInjective(m / 10, n / 10);
    }
  }
}
