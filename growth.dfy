/** The compound-growth simulator of the dashboard (app.py, the "Calculate Growth" block, lines
    474-515). */
module Growth {
  import opened Powers
  import opened Annuity

  /** The simulator's inputs: amounts in dollars, rates in percent per year. */
  datatype Settings = Settings(
    initial: real, contribution: real, annualReturn: real, inflation: real,
    dividendYield: real, period: nat, reinvest: bool)

  /** A yearly percentage as a monthly fraction. */
  function Monthly(pct: real): real {
    pct / 12.0 / 100.0
  }

  /** A balance plus its return at the given monthly rate. */
  function Grow(v: real, rate: real): real {
    v + v * rate
  }

  /** One month: add the contribution, then the month's interest, then (when reinvesting) the
      month's dividends on the grown balance. */
  function MonthStep(v: real, s: Settings): real {
    var withInterest := Grow(v + s.contribution, Monthly(s.annualReturn));
    if s.reinvest then Grow(withInterest, Monthly(s.dividendYield)) else withInterest
  }

  /** The balance after `k` months starting from `v`. */
  function Run(s: Settings, v: real, k: nat): real {
    if k == 0 then v else MonthStep(Run(s, v, k - 1), s)
  }

  /** The months of a simulated year. */
  const MonthsPerYear: nat := 12

  /** The nominal value recorded for year `y`: the previous year's value run for twelve months. */
  function Nominal(s: Settings, y: nat): real {
    if y == 0 then s.initial else Run(s, Nominal(s, y - 1), MonthsPerYear)
  }

  /** The inflation discount over `months` months. */
  function InflationFactor(s: Settings, months: nat): (r: real)
    requires s.inflation >= 0.0
    ensures r >= 1.0
  {
    PowAtLeastOne(1.0 + Monthly(s.inflation), months);
    Pow(1.0 + Monthly(s.inflation), months)
  }

  /** The discount applied after month `month` of year `year` (`year` counted from 1): the
      exponent is `year * 12 + month`. */
  function Discount(s: Settings, year: nat, month: nat): (r: real)
    requires s.inflation >= 0.0
    ensures r >= 1.0
  {
    InflationFactor(s, year * 12 + month)
  }

  /** The real value recorded for year `y`: the year-end nominal value discounted by the
      exponent of the year's last month, `12 * y + 11`. */
  function RealValue(s: Settings, y: nat): real
    requires s.inflation >= 0.0
  {
    if y == 0 then s.initial else Nominal(s, y) / Discount(s, y, 11)
  }

  /** The dividend income recorded for year `y`. */
  function Dividends(s: Settings, y: nat): real {
    if y == 0 then 0.0 else Nominal(s, y) * s.dividendYield / 100.0
  }

  /** The simulation loop: three series, one entry per year from 0 to the period. */
  method Simulate(s: Settings) returns (nominal: seq<real>, realValues: seq<real>, dividends: seq<real>)
    requires s.inflation >= 0.0
    ensures |nominal| == |realValues| == |dividends| == s.period + 1
    ensures nominal[0] == s.initial && realValues[0] == s.initial && dividends[0] == 0.0
    ensures forall y :: 0 <= y <= s.period ==>
      nominal[y] == Nominal(s, y) && realValues[y] == RealValue(s, y) && dividends[y] == Dividends(s, y)
  {
    var monthlyRate := s.annualReturn / 12.0 / 100.0;
    var monthlyDividend := s.dividendYield / 12.0 / 100.0;
    var currentNominal := s.initial;
    var currentReal := s.initial;
    nominal, realValues, dividends := [currentNominal], [currentReal], [0.0];
    var year := 1;
    while year <= s.period
      invariant 1 <= year <= s.period + 1
      invariant |nominal| == |realValues| == |dividends| == year
      invariant currentNominal == Nominal(s, year - 1)
      invariant Recorded(s, nominal, realValues, dividends)
    {
      currentNominal, currentReal := SimulateYear(s, monthlyRate, monthlyDividend, year, currentNominal);
      var income := currentNominal * s.dividendYield / 100.0;
      RecordedStep(s, nominal, realValues, dividends, currentNominal, currentReal, income);
      nominal := nominal + [currentNominal];
      realValues := realValues + [currentReal];
      dividends := dividends + [income];
      year := year + 1;
    }
  }

  /** The three series hold the model's values for every year they cover. */
  ghost predicate Recorded(s: Settings, nominal: seq<real>, realValues: seq<real>, dividends: seq<real>)
    requires s.inflation >= 0.0
  {
    |nominal| == |realValues| == |dividends| &&
    forall y :: 0 <= y < |nominal| ==>
      nominal[y] == Nominal(s, y) && realValues[y] == RealValue(s, y) && dividends[y] == Dividends(s, y)
  }

  /** Appending the next year's values keeps the series recorded. */
  lemma RecordedStep(s: Settings, nominal: seq<real>, realValues: seq<real>, dividends: seq<real>,
                     n: real, r: real, d: real)
    requires s.inflation >= 0.0 && Recorded(s, nominal, realValues, dividends)
    requires n == Nominal(s, |nominal|) && r == RealValue(s, |nominal|) && d == Dividends(s, |nominal|)
    ensures Recorded(s, nominal + [n], realValues + [r], dividends + [d])
  {
  }

  /** The inner loop: the twelve months of year `year`, from the previous year's balance; the
      real value is recomputed every month, so the one kept is the last month's. */
  method SimulateYear(s: Settings, monthlyRate: real, monthlyDividend: real, year: nat, start: real)
    returns (currentNominal: real, currentReal: real)
    requires monthlyRate == Monthly(s.annualReturn) && monthlyDividend == Monthly(s.dividendYield)
    requires s.inflation >= 0.0 && year >= 1 && start == Nominal(s, year - 1)
    ensures currentNominal == Nominal(s, year)
    ensures currentReal == RealValue(s, year)
  {
    currentNominal := start;
    currentReal := 0.0;
    var month := 0;
    while month < 12
      invariant 0 <= month <= 12
      invariant currentNominal == Run(s, start, month)
      invariant month > 0 ==> currentReal == currentNominal / Discount(s, year, month - 1)
    {
      currentNominal := AddMonth(s, monthlyRate, monthlyDividend, currentNominal);
      currentReal := currentNominal / Discount(s, year, month);
      month := month + 1;
    }
  }

  /** The body of the month loop. */
  method AddMonth(s: Settings, monthlyRate: real, monthlyDividend: real, balance: real) returns (currentNominal: real)
    requires monthlyRate == Monthly(s.annualReturn) && monthlyDividend == Monthly(s.dividendYield)
    ensures currentNominal == MonthStep(balance, s)
  {
    currentNominal := balance + s.contribution;
    var interest := currentNominal * monthlyRate;
    currentNominal := currentNominal + interest;
    if s.reinvest {
      var monthDividends := currentNominal * monthlyDividend;
      currentNominal := currentNominal + monthDividends;
    }
  }

  // ---------------------------------------------------------------------------------------
  // Properties of the simulation

  /** The monthly growth factor of the invested balance. */
  function Factor(s: Settings): real {
    MonthFactor(Monthly(s.annualReturn))
  }

  /** Without reinvested dividends a month adds the contribution and applies the factor. */
  lemma PlainMonth(s: Settings, v: real, k: nat)
    requires !s.reinvest && k > 0
    ensures Run(s, v, k) == (Run(s, v, k - 1) + s.contribution) * Factor(s)
  {
    var a := Run(s, v, k - 1) + s.contribution;
    assert Grow(a, Monthly(s.annualReturn)) == a * (1.0 + Monthly(s.annualReturn));
  }

  /** Without contributions or reinvested dividends the balance compounds monthly. */
  lemma {:induction false} PureCompounding(s: Settings, v: real, k: nat)
    requires s.contribution == 0.0 && !s.reinvest
    ensures Run(s, v, k) == v * Pow(Factor(s), k)
  {
    if k > 0 {
      PureCompounding(s, v, k - 1);
      CompoundingMonth(s, v, k);
    } else {
      TimesOne(v, Pow(Factor(s), 0));
    }
  }

  /** The inductive step of `PureCompounding`: one more month of the run. */
  lemma CompoundingMonth(s: Settings, v: real, k: nat)
    requires s.contribution == 0.0 && !s.reinvest && k > 0
    requires Run(s, v, k - 1) == v * Pow(Factor(s), k - 1)
    ensures Run(s, v, k) == v * Pow(Factor(s), k)
  {
    PlainMonth(s, v, k);
    CompoundStep(Run(s, v, k), Run(s, v, k - 1), v, 0.0, Factor(s),
                 Pow(Factor(s), k - 1), Pow(Factor(s), k), 0.0, 0.0);
  }

  /** One month of the compounding identity, on plain numbers: a balance `prev` made of the
      compounded start `v * p` and the deposits `d` becomes `v * pk + dk` after a deposit `c`
      and one factor `f`. */
  lemma CompoundStep(run: real, prev: real, v: real, c: real, f: real, p: real, pk: real, d: real, dk: real)
    requires prev == v * p + d && run == (prev + c) * f
    requires pk == f * p && dk == (d + c) * f
    ensures run == v * pk + dk
  {
    calc {
      run;
      (v * p + (d + c)) * f;
      v * p * f + (d + c) * f;
      { MulAssoc(v, p, f); }
      v * (p * f) + (d + c) * f;
    }
  }

  /** Without contributions or reinvested dividends each year multiplies the nominal value by
      `(1 + r / 1200) ** 12`. */
  lemma YearlyFactor(s: Settings, y: nat)
    requires s.contribution == 0.0 && !s.reinvest
    ensures Nominal(s, y + 1) == Nominal(s, y) * Pow(Factor(s), MonthsPerYear)
  {
    YearCompounds(s, Nominal(s, y), Nominal(s, y + 1));
  }

  /** A year's run named by its end value `w`. */
  lemma YearCompounds(s: Settings, v: real, w: real)
    requires s.contribution == 0.0 && !s.reinvest
    requires w == Run(s, v, MonthsPerYear)
    ensures w == v * Pow(Factor(s), MonthsPerYear)
  {
    PureCompounding(s, v, MonthsPerYear);
  }

  /** The worked case: 10000 at 12% a year for one year grows to `10000 * 1.01 ** 12`. */
  lemma TenThousandAtTwelvePercent(s: Settings)
    requires s.initial == 10000.0 && s.contribution == 0.0 && s.annualReturn == 12.0 && !s.reinvest
    ensures Nominal(s, 1) == 10000.0 * Pow(1.01, 12)
  {
    PureCompounding(s, s.initial, MonthsPerYear);
    assert Factor(s) == 1.01;
  }

  /** With dividends not reinvested, a run is the compounded start plus the contributions as
      deposits made at the start of each month. */
  lemma {:induction false} ContributionsAsAnnuity(s: Settings, v: real, k: nat)
    requires !s.reinvest
    ensures Run(s, v, k) == v * Pow(Factor(s), k) + DueBalance(s.contribution, Monthly(s.annualReturn), k)
  {
    if k > 0 {
      ContributionsAsAnnuity(s, v, k - 1);
      ContributionMonth(s, v, k);
    } else {
      ContributionsAtStart(s, v);
    }
  }

  /** The start of the annuity view: no month has passed and nothing has been deposited. */
  lemma ContributionsAtStart(s: Settings, v: real)
    ensures Run(s, v, 0) == v * Pow(Factor(s), 0) + DueBalance(s.contribution, Monthly(s.annualReturn), 0)
  {
    TimesOne(v, Pow(Factor(s), 0));
  }

  /** The inductive step of the annuity view: one more month of the run. */
  lemma ContributionMonth(s: Settings, v: real, k: nat)
    requires !s.reinvest && k > 0
    requires Run(s, v, k - 1) == v * Pow(Factor(s), k - 1) + DueBalance(s.contribution, Monthly(s.annualReturn), k - 1)
    ensures Run(s, v, k) == v * Pow(Factor(s), k) + DueBalance(s.contribution, Monthly(s.annualReturn), k)
  {
    PlainMonth(s, v, k);
    var rate := Monthly(s.annualReturn);
    CompoundStep(Run(s, v, k), Run(s, v, k - 1), v, s.contribution, Factor(s),
                 Pow(Factor(s), k - 1), Pow(Factor(s), k),
                 DueBalance(s.contribution, rate, k - 1), DueBalance(s.contribution, rate, k));
  }

  /** A month never lowers a non-negative balance when the rates and the contribution are
      non-negative. */
  lemma MonthGrows(v: real, s: Settings)
    requires v >= 0.0 && s.contribution >= 0.0 && s.annualReturn >= 0.0 && s.dividendYield >= 0.0
    ensures MonthStep(v, s) >= v + s.contribution
  {
    var a := v + s.contribution;
    assert a * Monthly(s.annualReturn) >= 0.0;
    var b := Grow(a, Monthly(s.annualReturn));
    assert b * Monthly(s.dividendYield) >= 0.0;
  }

  /** A run never ends below its non-negative start under non-negative inputs. */
  lemma {:induction false} RunGrows(s: Settings, v: real, k: nat)
    requires v >= 0.0 && s.contribution >= 0.0 && s.annualReturn >= 0.0 && s.dividendYield >= 0.0
    ensures Run(s, v, k) >= v
  {
    if k > 0 {
      RunGrows(s, v, k - 1);
      MonthGrows(Run(s, v, k - 1), s);
    }
  }

  /** The nominal series is non-negative and non-decreasing under non-negative inputs. */
  lemma {:induction false} NominalNonDecreasing(s: Settings, y: nat)
    requires s.initial >= 0.0 && s.contribution >= 0.0 && s.annualReturn >= 0.0 && s.dividendYield >= 0.0
    ensures 0.0 <= Nominal(s, y) <= Nominal(s, y + 1)
  {
    if y > 0 {
      NominalNonDecreasing(s, y - 1);
    }
    RunGrows(s, Nominal(s, y), MonthsPerYear);
  }

  /** With dividends not reinvested the dividend yield does not change a run. */
  lemma {:induction false} RunIgnoresYield(s: Settings, otherYield: real, v: real, k: nat)
    requires !s.reinvest
    ensures Run(s, v, k) == Run(s.(dividendYield := otherYield), v, k)
  {
    if k > 0 {
      RunIgnoresYield(s, otherYield, v, k - 1);
    }
  }

  /** With dividends not reinvested the dividend yield does not change the nominal series; the
      dividend series is that nominal value times the yield. */
  lemma {:induction false} YieldIrrelevantWithoutReinvesting(s: Settings, otherYield: real, y: nat)
    requires !s.reinvest
    ensures Nominal(s, y) == Nominal(s.(dividendYield := otherYield), y)
  {
    if y > 0 {
      YieldIrrelevantWithoutReinvesting(s, otherYield, y - 1);
      RunIgnoresYield(s, otherYield, Nominal(s, y - 1), MonthsPerYear);
    }
  }

  /** With no inflation the real series equals the nominal series. */
  lemma NoInflationRealIsNominal(s: Settings, y: nat)
    requires s.inflation == 0.0
    ensures RealValue(s, y) == Nominal(s, y)
  {
    PowOfOne(y * 12 + 11);
  }

  /** Under positive inflation, a year's real value is discounted by eleven months more than the
      year's elapsed `12 * y`: discounting by the elapsed months would give a larger value. */
  lemma DiscountRunsAheadByElevenMonths(s: Settings, y: nat)
    requires s.inflation > 0.0 && y > 0 && Nominal(s, y) > 0.0
    ensures RealValue(s, y) < Nominal(s, y) / InflationFactor(s, y * 12)
  {
    var x := 1.0 + Monthly(s.inflation);
    PowAdd(x, y * 12, 11);
    PowAboveOne(x, 11);
    var p := InflationFactor(s, y * 12);
    var d := InflationFactor(s, y * 12 + 11);
    assert d == p * Pow(x, 11);
    assert d > p * 1.0;
    DivideByLarger(Nominal(s, y), p, d);
  }

  lemma DivideByLarger(n: real, p: real, d: real)
    requires n > 0.0 && 0.0 < p < d
    ensures n / d < n / p
  {
    assert n / d * d == n;
    assert n / p * p == n;
  }
}
