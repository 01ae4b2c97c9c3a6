/** Python's `x ** n` for a real base and an integer exponent. */
module Powers {

  /** x raised to a natural exponent. */
  function Pow(x: real, n: nat): real
    decreases n
  {
    if n == 0 then 1.0 else x * Pow(x, n - 1)
  }

  /** x raised to an integer exponent; a negative exponent divides, so the base must not be 0
      (Python raises ZeroDivisionError there). */
  function ZPow(x: real, n: int): (r: real)
    requires x != 0.0
    ensures n >= 0 ==> r == Pow(x, n)
  {
    if n >= 0 then Pow(x, n) else PowPositive(x, -n); 1.0 / Pow(x, -n)
  }

  lemma {:induction false} PowPositive(x: real, n: nat)
    requires x != 0.0
    ensures Pow(x, n) != 0.0
    ensures x > 0.0 ==> Pow(x, n) > 0.0
    decreases n
  {
    if n > 0 {
      PowPositive(x, n - 1);
    }
  }

  lemma {:induction false} PowAdd(x: real, m: nat, n: nat)
    ensures Pow(x, m + n) == Pow(x, m) * Pow(x, n)
    decreases m
  {
    if m > 0 {
      PowAdd(x, m - 1, n);
    }
  }

  lemma {:induction false} PowOfOne(n: nat)
    ensures Pow(1.0, n) == 1.0
    decreases n
  {
    if n > 0 {
      PowOfOne(n - 1);
    }
  }

  /** A base above one grows strictly with every factor. */
  lemma {:induction false} PowAboveOne(x: real, n: nat)
    requires x > 1.0
    ensures n > 0 ==> Pow(x, n) > 1.0
    ensures Pow(x, n) >= 1.0
    decreases n
  {
    if n > 0 {
      PowAboveOne(x, n - 1);
      assert x * Pow(x, n - 1) >= x * 1.0;
    }
  }

  /** A base of at least one keeps the power at least one. */
  lemma {:induction false} PowAtLeastOne(x: real, n: nat)
    requires x >= 1.0
    ensures Pow(x, n) >= 1.0
    decreases n
  {
    if n > 0 {
      PowAtLeastOne(x, n - 1);
      assert x * Pow(x, n - 1) >= 1.0 * Pow(x, n - 1);
    }
  }

  /** With a base above one, a negative integer exponent gives a value strictly below one. */
  lemma NegativeExponentShrinks(x: real, n: int)
    requires x > 1.0 && n < 0
    ensures 0.0 < ZPow(x, n) < 1.0
  {
    PowAboveOne(x, -n);
  }

  /** Multiplying by one changes nothing. */
  lemma TimesOne(a: real, b: real)
    requires b == 1.0
    ensures a * b == a
  {
  }

  /** Multiplying by zero gives zero. */
  lemma ZeroTimes(a: real, b: real)
    requires a == 0.0 || b == 0.0
    ensures a * b == 0.0
  {
  }

  /** Equal factors give equal products. */
  lemma MulEq(a: real, b: real, c: real)
    requires a == b
    ensures a * c == b * c
  {
  }

  lemma MulAssoc(a: real, b: real, c: real)
    ensures a * (b * c) == a * b * c
  {
  }
}
