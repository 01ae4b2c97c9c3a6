/** Month-by-month savings balances and the closed forms the projector uses for them. */
module Annuity {
  import opened Powers

  /** The growth of one month at the monthly rate `r`. */
  function MonthFactor(r: real): real {
    1.0 + r
  }

  /** The balance after `n` months when `p` is deposited at the start of every month and the
      balance then grows by the monthly rate `r` (an annuity due). */
  function DueBalance(p: real, r: real, n: nat): real {
    if n == 0 then 0.0 else (DueBalance(p, r, n - 1) + p) * MonthFactor(r)
  }

  /** The balance after `n` months when `p` is deposited at the end of every month, after the
      month's growth (an ordinary annuity). */
  function OrdinaryBalance(p: real, r: real, n: nat): real {
    if n == 0 then 0.0 else OrdinaryBalance(p, r, n - 1) * MonthFactor(r) + p
  }

  /** `((1 + r) ** n - 1) / r`: the future value of a unit deposited at the end of each of `n`
      months. */
  function FutureValueFactor(r: real, n: nat): real
    requires r != 0.0
  {
    (Pow(MonthFactor(r), n) - 1.0) / r
  }

  /** The closed form `p * ((1 + r) ** n - 1) / r * (1 + r)` the projector evaluates. */
  function DueClosedForm(p: real, r: real, n: nat): real
    requires r != 0.0
  {
    p * FutureValueFactor(r, n) * MonthFactor(r)
  }

  /** The payment `target * r / ((1 + r) ** n - 1)` the projector evaluates for the missing
      contribution. */
  function Payment(target: real, r: real, n: nat): real
    requires r > 0.0 && n > 0
  {
    PowAboveOne(MonthFactor(r), n);
    target * r / (Pow(MonthFactor(r), n) - 1.0)
  }

  /** One more month adds one more unit to the future-value factor after growing it. */
  lemma FactorStep(r: real, n: nat)
    requires r != 0.0 && n > 0
    ensures FutureValueFactor(r, n) == FutureValueFactor(r, n - 1) * MonthFactor(r) + 1.0
  {
    FactorStepPlain(r, MonthFactor(r), Pow(MonthFactor(r), n - 1), Pow(MonthFactor(r), n),
                    FutureValueFactor(r, n - 1), FutureValueFactor(r, n));
  }

  /** The step of `FactorStep` on plain numbers: `q` is `g ** (n - 1)` and `qn` is `g ** n`. */
  lemma FactorStepPlain(r: real, g: real, q: real, qn: real, f0: real, f1: real)
    requires r != 0.0 && g == 1.0 + r && qn == g * q
    requires f0 == (q - 1.0) / r && f1 == (qn - 1.0) / r
    ensures f1 == f0 * g + 1.0
  {
    assert f0 * r == q - 1.0;
    assert f1 * r == g * q - 1.0;
    var h := f0 * g + 1.0;
    assert h * r == f0 * r * g + r;
    assert h * r == (q - 1.0) * g + r;
    var u := h - f1;
    assert u * r == 0.0;
    assert u == u * r / r;
  }

  /** The ordinary annuity's balance has the textbook closed form. */
  lemma {:induction false} OrdinaryClosedForm(p: real, r: real, n: nat)
    requires r != 0.0
    ensures OrdinaryBalance(p, r, n) == p * FutureValueFactor(r, n)
  {
    if n > 0 {
      OrdinaryClosedForm(p, r, n - 1);
      OrdinaryClosedFormStep(p, r, n);
    } else {
      ZeroTimes(p, FutureValueFactor(r, 0));
    }
  }

  lemma OrdinaryClosedFormStep(p: real, r: real, n: nat)
    requires r != 0.0 && n > 0
    requires OrdinaryBalance(p, r, n - 1) == p * FutureValueFactor(r, n - 1)
    ensures OrdinaryBalance(p, r, n) == p * FutureValueFactor(r, n)
  {
    FactorStep(r, n);
    OrdinaryPlain(OrdinaryBalance(p, r, n), OrdinaryBalance(p, r, n - 1), p, MonthFactor(r),
                  FutureValueFactor(r, n), FutureValueFactor(r, n - 1));
  }

  lemma OrdinaryPlain(b: real, prev: real, p: real, g: real, f: real, fprev: real)
    requires prev == p * fprev && b == prev * g + p && f == fprev * g + 1.0
    ensures b == p * f
  {
  }

  /** Depositing at the start of the month is the ordinary annuity grown by one more month. */
  lemma {:induction false} DueIsOrdinaryGrown(p: real, r: real, n: nat)
    ensures DueBalance(p, r, n) == OrdinaryBalance(p, r, n) * MonthFactor(r)
  {
    if n > 0 {
      DueIsOrdinaryGrown(p, r, n - 1);
      DueIsOrdinaryGrownStep(p, r, n);
    } else {
      ZeroTimes(OrdinaryBalance(p, r, 0), MonthFactor(r));
    }
  }

  lemma DueIsOrdinaryGrownStep(p: real, r: real, n: nat)
    requires n > 0
    requires DueBalance(p, r, n - 1) == OrdinaryBalance(p, r, n - 1) * MonthFactor(r)
    ensures DueBalance(p, r, n) == OrdinaryBalance(p, r, n) * MonthFactor(r)
  {
    DuePlain(DueBalance(p, r, n), DueBalance(p, r, n - 1), OrdinaryBalance(p, r, n),
             OrdinaryBalance(p, r, n - 1), p, MonthFactor(r));
  }

  lemma DuePlain(due: real, duePrev: real, ord: real, ordPrev: real, p: real, g: real)
    requires duePrev == ordPrev * g && due == (duePrev + p) * g && ord == ordPrev * g + p
    ensures due == ord * g
  {
  }

  /** The closed form the projector evaluates is exactly the month-by-month annuity due. */
  lemma DueClosedFormIsDueBalance(p: real, r: real, n: nat)
    requires r != 0.0
    ensures DueClosedForm(p, r, n) == DueBalance(p, r, n)
  {
    DueIsOrdinaryGrown(p, r, n);
    OrdinaryClosedForm(p, r, n);
    MulEq(OrdinaryBalance(p, r, n), p * FutureValueFactor(r, n), MonthFactor(r));
  }

  /** The payment reaches its target as an ordinary annuity (deposits at the end of each month). */
  lemma PaymentReachesTargetOrdinary(target: real, r: real, n: nat)
    requires r > 0.0 && n > 0
    ensures OrdinaryBalance(Payment(target, r, n), r, n) == target
  {
    PowAboveOne(MonthFactor(r), n);
    var d := Pow(MonthFactor(r), n) - 1.0;
    var payment := Payment(target, r, n);
    assert payment == target * r / d;
    assert FutureValueFactor(r, n) == d / r;
    OrdinaryClosedForm(payment, r, n);
    Cancel(target, r, d);
  }

  lemma Cancel(t: real, r: real, d: real)
    requires r != 0.0 && d != 0.0
    ensures t * r / d * (d / r) == t
  {
  }

  /** Deposited at the start of each month, as the projector's own contributions are, the same
      payment overshoots its target by one month's growth. */
  lemma PaymentOvershootsAsDue(target: real, r: real, n: nat)
    requires r > 0.0 && n > 0
    ensures DueBalance(Payment(target, r, n), r, n) == target * MonthFactor(r)
    ensures target > 0.0 ==> DueBalance(Payment(target, r, n), r, n) > target
  {
    DueIsOrdinaryGrown(Payment(target, r, n), r, n);
    PaymentReachesTargetOrdinary(target, r, n);
  }

  /** Positive deposits at a positive rate give a positive payment for a positive target. */
  lemma PaymentPositive(target: real, r: real, n: nat)
    requires r > 0.0 && n > 0
    ensures target > 0.0 <==> Payment(target, r, n) > 0.0
  {
    PowAboveOne(MonthFactor(r), n);
    var d := Pow(MonthFactor(r), n) - 1.0;
    assert Payment(target, r, n) * d == target * r;
  }
}
