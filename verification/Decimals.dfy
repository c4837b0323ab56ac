/** Decimal numerals of natural numbers, as the source prints them. */
module Decimals {
  predicate IsDigit(c: char) {
    '0' <= c <= '9'
  }

  function Digit(d: nat): char
    requires d < 10
  {
    '0' + d as char
  }

  function Decimal(n: nat): (s: string)
    ensures s != [] && forall c <- s :: IsDigit(c)
  {
    if n < 10 then [Digit(n)] else Decimal(n / 10) + [Digit(n % 10)]
  }

  /** The number a numeral stands for. */
  function ValueOf(numeral: string): int {
    if numeral == [] then 0
    else 10 * ValueOf(numeral[..|numeral| - 1]) + (numeral[|numeral| - 1] as int - '0' as int)
  }

  lemma {:induction false} DecimalReadsBack(n: nat)
    ensures ValueOf(Decimal(n)) == n
  {
    if n >= 10 {
      DecimalReadsBack(n / 10);
      assert Decimal(n)[..|Decimal(n)| - 1] == Decimal(n / 10);
    } else {
      assert Decimal(n)[..0] == [];
    }
  }

  lemma {:induction false} DecimalInjective(m: nat, n: nat)
    requires Decimal(m) == Decimal(n)
    ensures m == n
  {
    var s, t := Decimal(m), Decimal(n);
    assert s[|s| - 1] == Digit(m % 10) && t[|t| - 1] == Digit(n % 10);
    if m >= 10 && n >= 10 {
      assert s[..|s| - 1] == Decimal(m / 10) && t[..|t| - 1] == Decimal(n / 10);
      DecimalInjective(m / 10, n / 10);
    }
  }

  lemma {:induction false} DigitsAtMostValue(n: nat)
    requires n > 0
    ensures |Decimal(n)| <= n
  {
    if n >= 10 {
      DigitsAtMostValue(n / 10);
    }
  }

  /** From 239 on, a number is more than 235 above its own digit count. */
  lemma DigitsFarBelowValue(n: nat)
    ensures 100 <= n <==> |Decimal(n)| >= 3
    ensures n < 1000 <==> |Decimal(n)| <= 3
    ensures n >= 239 ==> 235 + |Decimal(n)| < n
  {
    if n >= 1000 {
      DigitsAtMostValue(n / 10);
      assert |Decimal(n / 10 / 10)| >= 1;
      assert |Decimal(n / 10 / 10 / 10)| >= 1;
    }
  }
}
