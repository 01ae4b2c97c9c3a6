/** The fair-value estimator (backend.py `calculate_fair_value`): a modified PEG valuation built
    from a price, a price/earnings ratio, an earnings-growth rate and a dividend yield, each
    resolved through its own ordered list of sources; and the valuation bands the dashboard shows
    for its result (app.py, lines 680-685). */
module FairValue {
  import opened Wrappers
  import opened Powers
  import opened Provider
  import opened Fallback
  import opened DividendYield

  /** Python's `a or b` on two optional numbers: a missing or zero first operand yields the
      second operand. */
  function Or(a: Option<real>, b: Option<real>): Option<real> {
    if a.Some? && a.value != 0.0 then a else b
  }

  /** The sum of a sequence of numbers. */
  function Sum(xs: seq<real>): real {
    if |xs| == 0 then 0.0 else Sum(xs[..|xs| - 1]) + xs[|xs| - 1]
  }

  /** Trailing-twelve-month earnings: the sum of the (up to) four newest quarterly figures. */
  function Ttm(quarterly: seq<real>): real {
    Sum(quarterly[..if |quarterly| < 4 then |quarterly| else 4])
  }

  // ---------------------------------------------------------------------------------------
  // Price/earnings ratio

  /** P/E source 1: the quick quote's trailing P/E, whatever its value. */
  function QuickPe(q: Quote): Option<real> {
    if q.fastInfo.Some? then q.fastInfo.value.trailingPE else None
  }

  /** P/E source 2: the summary's trailing P/E, or its forward P/E when the trailing one is
      missing or zero. */
  function SummaryPe(q: Quote): Option<real> {
    if q.info.Some? then Or(q.info.value.trailingPE, q.info.value.forwardPE) else None
  }

  /** P/E source 3: the price over the newest annual earnings per share, when those are positive. */
  function AnnualPe(q: Quote, price: real): Option<real> {
    if q.annualEps.Some? && |q.annualEps.value| > 0 && q.annualEps.value[0] > 0.0
    then Some(price / q.annualEps.value[0]) else None
  }

  /** P/E source 4: the price over the trailing-twelve-month earnings, when those are positive. */
  function TtmPe(q: Quote, price: real): Option<real> {
    if q.quarterlyEps.Some? && Ttm(q.quarterlyEps.value) > 0.0
    then Some(price / Ttm(q.quarterlyEps.value)) else None
  }

  function PeAttempts(q: Quote, price: real): seq<Option<real>> {
    [QuickPe(q), SummaryPe(q), AnnualPe(q, price), TtmPe(q, price)]
  }

  /** The P/E ratio: the first source that answers. */
  function PeRatio(q: Quote, price: real): (r: Option<real>)
    ensures r.None? <==> forall k :: 0 <= k < 4 ==> PeAttempts(q, price)[k].None?
  {
    FirstSome(PeAttempts(q, price))
  }

  /** A quick-quote P/E decides the ratio whatever the other sources say, even when it is zero or
      negative. */
  lemma QuickPeWins(q: Quote, price: real)
    requires QuickPe(q).Some?
    ensures PeRatio(q, price) == QuickPe(q)
    ensures forall i, a, t :: PeRatio(q.(info := i, annualEps := a, quarterlyEps := t), price) == QuickPe(q)
  {
    FirstSomeOfFour(PeAttempts(q, price));
    forall i, a, t ensures PeRatio(q.(info := i, annualEps := a, quarterlyEps := t), price) == QuickPe(q) {
      FirstSomeOfFour(PeAttempts(q.(info := i, annualEps := a, quarterlyEps := t), price));
    }
  }

  /** A zero trailing P/E in the summary falls through to the forward P/E. */
  lemma ZeroTrailingPeUsesForward(q: Quote, price: real)
    requires QuickPe(q).None? && q.info.Some? && q.info.value.trailingPE == Some(0.0)
    requires q.info.value.forwardPE.Some?
    ensures PeRatio(q, price) == q.info.value.forwardPE
  {
    FirstSomeOfFour(PeAttempts(q, price));
  }

  /** Once the quote and the summary gave nothing, the ratio is derived from earnings, and only
      from positive earnings: the newest annual figure first, then the trailing twelve months;
      with neither positive there is no ratio. */
  lemma EarningsPeOnlyFromPositiveEarnings(q: Quote, price: real)
    requires QuickPe(q).None? && SummaryPe(q).None?
    ensures PeRatio(q, price).Some? <==>
      (q.annualEps.Some? && |q.annualEps.value| > 0 && q.annualEps.value[0] > 0.0) ||
      (q.quarterlyEps.Some? && Ttm(q.quarterlyEps.value) > 0.0)
    ensures q.annualEps.Some? && |q.annualEps.value| > 0 && q.annualEps.value[0] > 0.0 ==>
      PeRatio(q, price).value * q.annualEps.value[0] == price
    ensures (!(q.annualEps.Some? && |q.annualEps.value| > 0 && q.annualEps.value[0] > 0.0) &&
             q.quarterlyEps.Some? && Ttm(q.quarterlyEps.value) > 0.0) ==>
      PeRatio(q, price).value * Ttm(q.quarterlyEps.value) == price
  {
    FirstSomeOfFour(PeAttempts(q, price));
  }

  // ---------------------------------------------------------------------------------------
  // Earnings growth

  /** Growth source 1: the compound growth from the oldest to the newest annual figure, spread
      over as many periods as there are figures. `root(x, n)` stands for `x ** (1 / n)`. */
  function AnnualGrowth(q: Quote, root: (real, nat) -> real): Option<real> {
    if q.annualEps.Some? && |q.annualEps.value| >= 2 && q.annualEps.value[|q.annualEps.value| - 1] > 0.0
    then
      var eps := q.annualEps.value;
      Some((root(eps[0] / eps[|eps| - 1], |eps|) - 1.0) * 100.0)
    else None
  }

  /** Growth source 2: the newest quarter over the same quarter a year earlier (the fifth
      figure). */
  function QuarterlyGrowth(q: Quote): Option<real> {
    if q.quarterlyEps.Some? && |q.quarterlyEps.value| >= 5 && q.quarterlyEps.value[4] != 0.0
    then Some((q.quarterlyEps.value[0] / q.quarterlyEps.value[4] - 1.0) * 100.0)
    else None
  }

  /** Growth source 3: the summary's earnings growth, or its quarterly earnings growth when the
      first is missing or zero, as a percentage. */
  function SummaryGrowth(q: Quote): Option<real> {
    if q.info.Some? then
      var g := Or(q.info.value.earningsGrowth, q.info.value.earningsQuarterlyGrowth);
      if g.Some? then Some(g.value * 100.0) else None
    else None
  }

  function GrowthAttempts(q: Quote, root: (real, nat) -> real): seq<Option<real>> {
    [AnnualGrowth(q, root), QuarterlyGrowth(q), SummaryGrowth(q)]
  }

  /** The earnings-growth rate in percent: the first source that answers, else 0. */
  function EpsGrowth(q: Quote, root: (real, nat) -> real): (r: real)
    ensures (forall k :: 0 <= k < 3 ==> GrowthAttempts(q, root)[k].None?) ==> r == 0.0
    ensures r != 0.0 ==> Some(r) in GrowthAttempts(q, root)
    ensures forall k :: 0 <= k < 3 && GrowthAttempts(q, root)[k].Some? && FailedBefore(GrowthAttempts(q, root), k) ==>
      r == GrowthAttempts(q, root)[k].value
  {
    FirstSomeIsFirst(GrowthAttempts(q, root));
    forall k | 0 <= k < 3 && GrowthAttempts(q, root)[k].Some? && FailedBefore(GrowthAttempts(q, root), k)
      ensures FirstSome(GrowthAttempts(q, root)) == GrowthAttempts(q, root)[k]
    {
      FirstSomeAt(GrowthAttempts(q, root), k);
    }
    FirstSome(GrowthAttempts(q, root)).GetOr(0.0)
  }

  /** The annual figures decide the growth rate when they answer; the quarterly figures only
      when the annual ones do not; the summary only when neither does. */
  lemma GrowthSourceOrder(q: Quote, root: (real, nat) -> real)
    ensures AnnualGrowth(q, root).Some? ==> EpsGrowth(q, root) == AnnualGrowth(q, root).value
    ensures AnnualGrowth(q, root).None? && QuarterlyGrowth(q).Some? ==> EpsGrowth(q, root) == QuarterlyGrowth(q).value
    ensures AnnualGrowth(q, root).None? && QuarterlyGrowth(q).None? && SummaryGrowth(q).Some? ==>
      EpsGrowth(q, root) == SummaryGrowth(q).value
  {
    var a := GrowthAttempts(q, root);
    assert FailedBefore(a, 0);
    assert AnnualGrowth(q, root).None? ==> FailedBefore(a, 1);
    assert AnnualGrowth(q, root).None? && QuarterlyGrowth(q).None? ==> FailedBefore(a, 2);
  }

  /** `root` computes true roots of positive numbers. */
  ghost predicate IsRoot(root: (real, nat) -> real) {
    forall x: real, n: nat {:trigger root(x, n)} :: x > 0.0 && n > 0 ==> root(x, n) > 0.0 && Pow(root(x, n), n) == x
  }

  /** When the annual figures decide the growth rate `g`, compounding `1 + g/100` once per figure
      (not once per year between the oldest and the newest figure) turns the oldest earnings
      into the newest. */
  lemma AnnualGrowthCompounds(q: Quote, root: (real, nat) -> real)
    requires IsRoot(root) && AnnualGrowth(q, root).Some?
    requires q.annualEps.value[0] > 0.0
    ensures var eps := q.annualEps.value;
      EpsGrowth(q, root) == AnnualGrowth(q, root).value &&
      Pow(1.0 + EpsGrowth(q, root) / 100.0, |eps|) * eps[|eps| - 1] == eps[0]
  {
    var eps := q.annualEps.value;
    var n, last := |eps|, eps[|eps| - 1];
    FirstSomeOfThree(GrowthAttempts(q, root));
    var x := eps[0] / last;
    assert x > 0.0;
    var g := EpsGrowth(q, root);
    assert g == (root(x, n) - 1.0) * 100.0;
    assert 1.0 + g / 100.0 == root(x, n);
    assert Pow(root(x, n), n) == x;
    assert x * last == eps[0];
  }

  /** Without any growth source the estimator assumes no growth. */
  lemma NoGrowthDataMeansZero(q: Quote, root: (real, nat) -> real)
    requires q.annualEps.None? && q.quarterlyEps.None? && q.info.None?
    ensures EpsGrowth(q, root) == 0.0
  {
    FirstSomeOfThree(GrowthAttempts(q, root));
  }

  // ---------------------------------------------------------------------------------------
  // Dividend yield

  /** The dividend yield in percent: the resolved yield, and when that is zero the summary's
      dividend yield, or its trailing annual yield when the first is missing or zero. A missing
      pair leaves the yield at zero. */
  function DividendPct(symbol: string, q: Quote): (r: real)
    ensures ResolveYield(symbol, q) != 0.0 ==> r == ResolveYield(symbol, q) * 100.0
    ensures (ResolveYield(symbol, q) == 0.0 && q.info.Some? &&
             Or(q.info.value.dividendYield, q.info.value.trailingAnnualDividendYield).Some?) ==>
      r == Or(q.info.value.dividendYield, q.info.value.trailingAnnualDividendYield).value * 100.0
    ensures (ResolveYield(symbol, q) == 0.0 &&
             (q.info.None? || Or(q.info.value.dividendYield, q.info.value.trailingAnnualDividendYield).None?)) ==>
      r == 0.0
  {
    var resolved := ResolveYield(symbol, q) * 100.0;
    if resolved == 0.0 && q.info.Some? then
      var y := Or(q.info.value.dividendYield, q.info.value.trailingAnnualDividendYield);
      if y.Some? then y.value * 100.0 else resolved
    else resolved
  }

  /** A history that saw no dividends makes the resolver answer 0, and the estimator then uses
      the summary's yield instead. */
  lemma ZeroHistoryFallsBackToSummary(symbol: string, q: Quote, price: real)
    requires q.history == Some(History(0.0, price)) && price > 0.0
    requires q.info.Some? && q.info.value.dividendYield.Some? && q.info.value.dividendYield.value != 0.0
    ensures DividendPct(symbol, q) == q.info.value.dividendYield.value * 100.0
  {
    HistoryDecidesEvenAtZero(symbol, q, price);
  }

  // ---------------------------------------------------------------------------------------
  // PEG ratio and fair value

  /** The PEG ratio: the P/E itself when growth is not positive, else the P/E over the growth. */
  function Peg(pe: real, growth: real): real {
    if growth <= 0.0 then pe else pe / growth
  }

  /** The fair value the PEG method reduces to: growth plus yield when growth is not positive,
      else growth times (growth plus yield). */
  function ExpectedFair(growth: real, dividendPct: real): real {
    if growth <= 0.0 then growth + dividendPct else growth * (growth + dividendPct)
  }

  /** With a non-zero P/E, `pe / peg` is 1 without growth and the growth itself with growth, so
      `(pe / peg) * (growth + yield)` is the reduced fair value. */
  lemma FairFormula(pe: real, growth: real, dividendPct: real)
    requires pe != 0.0
    ensures Peg(pe, growth) != 0.0
    ensures pe / Peg(pe, growth) * (growth + dividendPct) == ExpectedFair(growth, dividendPct)
  {
    var peg := Peg(pe, growth);
    if growth > 0.0 {
      assert peg * growth == pe;
      assert peg != 0.0;
      var k := pe / peg;
      assert k * peg == pe;
      assert k * peg == growth * peg;
      assert (k - growth) * peg == 0.0;
      assert k == growth;
    }
  }

  /** What a successful estimate reports. */
  datatype Valuation = Valuation(
    fairValue: real, currentPrice: real, peRatio: real, pegRatio: real,
    epsGrowth: real, dividendYield: real, valuationRatio: real)

  /** Why an estimate fails. `DivisionByZero` is the arithmetic error a zero P/E raises in
      `pe / peg`, reported as an error calculating the metrics. */
  datatype Error = NoPriceData | NoPeRatio | DivisionByZero | NonPositiveFairValue | UnreasonablyHigh

  /** The message returned with each error. A division by zero is reported as Python's own
      exception text after a fixed prefix; that text depends on whether both operands were
      integers, which the model's reals do not record, so it is a parameter. */
  function Message(e: Error, intOperands: bool): string {
    match e
    case NoPriceData => "No price data available"
    case NoPeRatio => "Unable to calculate P/E ratio using any method"
    case DivisionByZero => "Error calculating metrics: " + (if intOperands then "division by zero" else "float division by zero")
    case NonPositiveFairValue => "Calculated fair value is negative"
    case UnreasonablyHigh => "Calculated fair value appears unreasonably high"
  }

  /** Different errors are reported with different messages, whatever the operand types. */
  lemma MessagesDistinct(e1: Error, e2: Error, intOperands: bool)
    ensures Message(e1, intOperands) == Message(e2, intOperands) <==> e1 == e2
  {
    if e1 != e2 {
      MessageLength(e1, intOperands);
      MessageLength(e2, intOperands);
    }
  }

  lemma MessageLength(e: Error, intOperands: bool)
    ensures |Message(e, intOperands)| == match e
      case NoPriceData => 23
      case NoPeRatio => 46
      case DivisionByZero => if intOperands then 43 else 49
      case NonPositiveFairValue => 33
      case UnreasonablyHigh => 47
  {
  }

  /** The second half of the estimator, once the price, the P/E ratio, the growth rate and the
      dividend yield are known: the PEG ratio, the fair value and its sanity bounds. */
  function Assess(price: real, pe: real, growth: real, dividendPct: real): (r: Result<Valuation, Error>)
    ensures r.Failure? ==> r.error in {DivisionByZero, NonPositiveFairValue, UnreasonablyHigh}
    ensures r == Failure(DivisionByZero) <==> pe == 0.0
    ensures r == Failure(NonPositiveFairValue) <==> pe != 0.0 && ExpectedFair(growth, dividendPct) <= 0.0
    ensures r == Failure(UnreasonablyHigh) <==>
      pe != 0.0 && 0.0 < ExpectedFair(growth, dividendPct) && ExpectedFair(growth, dividendPct) > 5.0 * price
    ensures r.Success? ==>
      && r.value == Valuation(r.value.fairValue, price, pe, Peg(pe, growth), growth, dividendPct, r.value.valuationRatio)
      && r.value.fairValue == ExpectedFair(growth, dividendPct)
      && 0.0 < r.value.fairValue <= 5.0 * price
      && r.value.valuationRatio * r.value.fairValue == price
  {
    var peg := Peg(pe, growth);
    if peg == 0.0 then Failure(DivisionByZero)
    else
      FairFormula(pe, growth, dividendPct);
      var fair := pe / peg * (growth + dividendPct);
      if fair <= 0.0 then Failure(NonPositiveFairValue)
      else if fair > price * 5.0 then Failure(UnreasonablyHigh)
      else Success(Valuation(fair, price, pe, peg, growth, dividendPct, price / fair))
  }

  /** The estimator. The price is the last daily close; then the P/E ratio, the growth rate and
      the dividend yield are resolved, in that order, and assessed. */
  function Estimate(symbol: string, q: Quote, root: (real, nat) -> real): (r: Result<Valuation, Error>)
    ensures q.dayClose.None? <==> r == Failure(NoPriceData)
    ensures r == Failure(NoPeRatio) <==> q.dayClose.Some? && PeRatio(q, q.dayClose.value).None?
    ensures q.dayClose.Some? && PeRatio(q, q.dayClose.value).Some? ==>
      r == Assess(q.dayClose.value, PeRatio(q, q.dayClose.value).value, EpsGrowth(q, root), DividendPct(symbol, q))
  {
    if q.dayClose.None? then Failure(NoPriceData)
    else
      var price := q.dayClose.value;
      var pe := PeRatio(q, price);
      if pe.None? then Failure(NoPeRatio)
      else Assess(price, pe.value, EpsGrowth(q, root), DividendPct(symbol, q))
  }

  /** Every estimate is a success or exactly one of the five errors, and a success exists exactly
      when the price and a non-zero P/E are known and the reduced fair value lies in
      `(0, 5 * price]`. */
  lemma SuccessExactlyWhenInBounds(symbol: string, q: Quote, root: (real, nat) -> real)
    ensures Estimate(symbol, q, root).Success? <==>
      q.dayClose.Some? && PeRatio(q, q.dayClose.value).Some? && PeRatio(q, q.dayClose.value).value != 0.0 &&
      0.0 < ExpectedFair(EpsGrowth(q, root), DividendPct(symbol, q)) <= 5.0 * q.dayClose.value
  {
  }

  /** Without earnings growth a successful fair value is just the growth rate plus the dividend
      yield; with growth the PEG ratio times the growth rate gives back the P/E. */
  lemma PegCases(price: real, pe: real, growth: real, dividendPct: real)
    requires Assess(price, pe, growth, dividendPct).Success?
    ensures var v := Assess(price, pe, growth, dividendPct).value;
      (v.epsGrowth <= 0.0 ==> v.pegRatio == v.peRatio && v.fairValue == v.epsGrowth + v.dividendYield) &&
      (v.epsGrowth > 0.0 ==>
         v.pegRatio * v.epsGrowth == v.peRatio && v.fairValue == v.epsGrowth * (v.epsGrowth + v.dividendYield))
  {
    if growth > 0.0 {
      DivideThenMultiply(pe, growth);
    }
  }

  lemma DivideThenMultiply(a: real, b: real)
    requires b != 0.0
    ensures a / b * b == a
  {
  }

  // ---------------------------------------------------------------------------------------
  // Valuation bands

  /** The band shown for a valuation ratio (price over fair value). */
  datatype Status = Over | Under | Fair

  function Classify(ratio: real): (r: Status)
    ensures r == Over <==> ratio > 1.1
    ensures r == Under <==> ratio < 0.9
    ensures r == Fair <==> 0.9 <= ratio <= 1.1
  {
    if ratio > 1.1 then Over
    else if ratio < 0.9 then Under
    else Fair
  }

  /** For a successful estimate the band compares the price with the fair value: overvalued when
      the price exceeds the fair value by more than 10%, undervalued when it falls short of it by
      more than 10%. */
  lemma BandAgainstPrice(v: Valuation)
    requires v.fairValue > 0.0 && v.valuationRatio * v.fairValue == v.currentPrice
    ensures Classify(v.valuationRatio) == Over <==> v.currentPrice > 1.1 * v.fairValue
    ensures Classify(v.valuationRatio) == Under <==> v.currentPrice < 0.9 * v.fairValue
  {
    var x, f, p := v.valuationRatio, v.fairValue, v.currentPrice;
    ScaledComparison(x, f, p, 1.1);
    ScaledComparison(x, f, p, 0.9);
  }

  /** Multiplying by a positive number keeps the order: `x` compares with `c` as `p = x * f`
      compares with `c * f`. */
  lemma ScaledComparison(x: real, f: real, p: real, c: real)
    requires f > 0.0 && x * f == p
    ensures x > c <==> p > c * f
    ensures x < c <==> p < c * f
  {
    assert p - c * f == (x - c) * f;
  }
}
