/** Natural numbers in decimal, as string formatting writes them, and counting over candidates. */
module Numerals {

  function Digit(d: nat): char
    requires d < 10
  {
    "0123456789"[d]
  }

  predicate IsDigit(c: char) {
    '0' <= c <= '9'
  }

  function Decimal(n: nat): (s: string)
    ensures s != "" && forall i :: 0 <= i < |s| ==> IsDigit(s[i])
  {
    if n < 10 then [Digit(n)] else Decimal(n / 10) + [Digit(n % 10)]
  }

  /** The number that decimal digits stand for, read from the left. */
  function Value(digits: string): nat
    requires forall i :: 0 <= i < |digits| ==> IsDigit(digits[i])
  {
    if digits == "" then 0 else
      var last := digits[|digits| - 1];
      assert IsDigit(last);
      10 * Value(digits[..|digits| - 1]) + (last as int - '0' as int)
  }

  /** The numeral stands for the number and has no leading zero. */
  lemma {:induction false} DecimalStandsFor(n: nat)
    ensures Value(Decimal(n)) == n && (Decimal(n)[0] == '0' ==> n == 0)
  {
    var s := Decimal(n);
    assert s[|s| - 1] as int - '0' as int == n % 10;
    if n < 10 {
      assert s[..0] == "";
    } else {
      DecimalStandsFor(n / 10);
      assert s[..|s| - 1] == Decimal(n / 10);
    }
  }

  lemma DigitInjective(a: nat, b: nat)
    requires a < 10 && b < 10 && Digit(a) == Digit(b)
    ensures a == b
  {
  }

  lemma {:induction false} DecimalInjective(m: nat, n: nat)
    requires Decimal(m) == Decimal(n)
    ensures m == n
  {
    var s := Decimal(m);
    assert s[|s| - 1] == Digit(m % 10) == Digit(n % 10);
    DigitInjective(m % 10, n % 10);
    assert 10 <= m <==> |Decimal(m)| > 1;
    assert 10 <= n <==> |Decimal(n)| > 1;
    if m < 10 {
    } else {
      assert Decimal(m / 10) == s[..|s| - 1] == Decimal(n / 10);
      DecimalInjective(m / 10, n / 10);
    }
  }

  function Pow10(k: nat): nat {
    if k == 0 then 1 else 10 * Pow10(k - 1)
  }

  lemma {:induction false} DecimalLength(n: nat, k: nat)
    requires 0 < k && n < Pow10(k)
    ensures |Decimal(n)| <= k
  {
    if n < 10 {
    } else {
      assert k != 1 by {
        assert Pow10(1) == 10 * Pow10(0);
      }
      DecimalLength(n / 10, k - 1);
    }
  }

  lemma {:induction false} DecimalGrows(m: nat, n: nat)
    requires m <= n
    ensures |Decimal(m)| <= |Decimal(n)|
  {
    if m < 10 {
    } else {
      DecimalGrows(m / 10, n / 10);
    }
  }

  /** Pigeonhole: `count` distinct values cannot all lie in a smaller set. */
  lemma {:induction false} Pigeonhole<T>(f: nat -> T, count: nat, taken: set<T>)
    requires forall i, j :: 0 <= i < j < count ==> f(i) != f(j)
    requires forall i :: 0 <= i < count ==> f(i) in taken
    ensures count <= |taken|
  {
    if count == 0 {
    } else {
      Pigeonhole(f, count - 1, taken - {f(count - 1)});
    }
  }
}
