/** The FIRE (financial independence, retire early) projector (backend.py `fire_calculator`,
    lines 552-641). */
module Fire {
  import opened Powers
  import opened Annuity

  /** The assumed yearly return of invested money and of cash savings. */
  const InvestmentReturn: real := 0.07
  const SavingsReturn: real := 0.02

  /** The monthly rates the contribution formulas use. */
  const MonthlyInvestmentRate: real := InvestmentReturn / 12.0
  const MonthlySavingsRate: real := SavingsReturn / 12.0

  /** The share of the portfolio withdrawn each year (the 4% rule) and its inverse, the multiple
      of annual expenses the portfolio must reach. */
  const WithdrawalRate: real := 0.04
  const ExpenseMultiple: real := 25.0

  datatype FireResult = FireResult(
    currentPortfolio: real, currentCashSavings: real, currentDividendIncome: real,
    futurePortfolioValue: real, futureCashSavings: real, totalFutureValue: real,
    projectedDividendIncome: real, safeWithdrawalAmount: real, totalRetirementIncome: real,
    requiredPortfolio: real, shortfall: real, additionalMonthlyNeeded: real,
    yearsToFire: int, requiredMonthlyInvestment: real)

  /** The value of the starting balance after the years until retirement: compounded once a
      year, and shrunk for a negative number of years. */
  function Compound(balance: real, annualRate: real, years: int): (r: real)
    requires annualRate > -1.0
    ensures years >= 0 ==> r == balance * Pow(1.0 + annualRate, years)
    ensures years < 0 ==> r * Pow(1.0 + annualRate, -years) == balance
  {
    PowPositive(1.0 + annualRate, if years < 0 then -years else 0);
    balance * ZPow(1.0 + annualRate, years)
  }

  /** What the monthly contributions add: nothing unless retirement lies ahead, otherwise the
      closed form of depositing at the start of every month. */
  function Contributions(monthly: real, monthlyRate: real, years: int): real
    requires monthlyRate != 0.0
  {
    if years > 0 then DueClosedForm(monthly, monthlyRate, years * 12) else 0.0
  }

  /** Python's `max(0, x)`. */
  function NonNegativePart(x: real): (r: real)
    ensures r >= 0.0 && r >= x
    ensures r == x || r == 0.0
  {
    if x > 0.0 then x else 0.0
  }

  /** The extra monthly investment that closes a shortfall over the years left, treating the
      deposits as made at the end of each month; 0 when there is no shortfall or no time. */
  function AdditionalMonthly(shortfall: real, years: int): (r: real)
    requires shortfall >= 0.0
    ensures r >= 0.0
    ensures r > 0.0 <==> shortfall > 0.0 && years > 0
  {
    if shortfall > 0.0 && years > 0 then
      PaymentPositive(shortfall, MonthlyInvestmentRate, years * 12);
      Payment(shortfall, MonthlyInvestmentRate, years * 12)
    else 0.0
  }

  /** The projection. `currentPortfolio` is what the sheet reader reports (0 when it fails). */
  function FireCalculator(
    retirementAge: int, annualExpenses: real, currentAge: int, monthlyInvestment: real,
    monthlyCashSavings: real, currentCashSavings: real, dividendYield: real, currentPortfolio: real): (r: FireResult)
    ensures r.yearsToFire == retirementAge - currentAge
    ensures r.currentPortfolio == currentPortfolio && r.currentCashSavings == currentCashSavings
    ensures r.currentDividendIncome == currentPortfolio * dividendYield
    ensures r.futurePortfolioValue ==
      Compound(currentPortfolio, InvestmentReturn, r.yearsToFire) + Contributions(monthlyInvestment, MonthlyInvestmentRate, r.yearsToFire)
    ensures r.futureCashSavings ==
      Compound(currentCashSavings, SavingsReturn, r.yearsToFire) + Contributions(monthlyCashSavings, MonthlySavingsRate, r.yearsToFire)
    ensures r.projectedDividendIncome == r.futurePortfolioValue * dividendYield
    ensures r.safeWithdrawalAmount == r.futurePortfolioValue * WithdrawalRate
    ensures r.requiredPortfolio == annualExpenses * ExpenseMultiple
    ensures r.totalFutureValue == r.futurePortfolioValue + r.futureCashSavings
    ensures r.shortfall >= 0.0
    ensures r.shortfall > 0.0 <==> r.requiredPortfolio > r.totalFutureValue
    ensures r.shortfall > 0.0 ==> r.shortfall == r.requiredPortfolio - r.totalFutureValue
    ensures r.additionalMonthlyNeeded >= 0.0
    ensures r.additionalMonthlyNeeded > 0.0 <==> r.shortfall > 0.0 && r.yearsToFire > 0
    ensures r.requiredMonthlyInvestment == monthlyInvestment + r.additionalMonthlyNeeded
    ensures r.totalRetirementIncome == r.futurePortfolioValue * (WithdrawalRate + dividendYield)
    ensures retirementAge == currentAge ==>
      && r.futurePortfolioValue == currentPortfolio
      && r.futureCashSavings == currentCashSavings
      && r.additionalMonthlyNeeded == 0.0
      && r.requiredMonthlyInvestment == monthlyInvestment
  {
    var years := retirementAge - currentAge;
    var portfolio := Compound(currentPortfolio, InvestmentReturn, years) + Contributions(monthlyInvestment, MonthlyInvestmentRate, years);
    var cash := Compound(currentCashSavings, SavingsReturn, years) + Contributions(monthlyCashSavings, MonthlySavingsRate, years);
    var total := portfolio + cash;
    var required := annualExpenses * ExpenseMultiple;
    var shortfall := NonNegativePart(required - total);
    var additional := AdditionalMonthly(shortfall, years);
    FireResult(
      currentPortfolio, currentCashSavings, currentPortfolio * dividendYield,
      portfolio, cash, total,
      portfolio * dividendYield, portfolio * WithdrawalRate, portfolio * WithdrawalRate + portfolio * dividendYield,
      required, shortfall, additional,
      years, monthlyInvestment + additional)
  }

  /** A retirement age already passed discounts the starting balance instead of growing it. */
  lemma PastRetirementShrinks(
    retirementAge: int, annualExpenses: real, currentAge: int, monthlyInvestment: real,
    monthlyCashSavings: real, currentCashSavings: real, dividendYield: real, currentPortfolio: real)
    requires retirementAge < currentAge && currentPortfolio > 0.0
    ensures 0.0 < FireCalculator(retirementAge, annualExpenses, currentAge, monthlyInvestment,
      monthlyCashSavings, currentCashSavings, dividendYield, currentPortfolio).futurePortfolioValue < currentPortfolio
  {
    CompoundShrinks(currentPortfolio, InvestmentReturn, retirementAge - currentAge);
    assert Contributions(monthlyInvestment, MonthlyInvestmentRate, retirementAge - currentAge) == 0.0;
  }

  lemma CompoundShrinks(balance: real, annualRate: real, years: int)
    requires balance > 0.0 && annualRate > 0.0 && years < 0
    ensures 0.0 < Compound(balance, annualRate, years) < balance
  {
    NegativeExponentShrinks(1.0 + annualRate, years);
    ScaleBelow(balance, ZPow(1.0 + annualRate, years));
    assert Compound(balance, annualRate, years) == balance * ZPow(1.0 + annualRate, years);
    assert Compound(balance, annualRate, years) < balance;
  }

  lemma ScaleBelow(c: real, g: real)
    requires c > 0.0 && 0.0 < g < 1.0
    ensures 0.0 < c * g < c
  {
  }

  /** The projected contributions are the month-by-month balance of depositing at the start of
      every month. */
  lemma ContributionsAreMonthly(monthly: real, monthlyRate: real, years: int)
    requires monthlyRate != 0.0 && years > 0
    ensures Contributions(monthly, monthlyRate, years) == DueBalance(monthly, monthlyRate, years * 12)
  {
    DueClosedFormIsDueBalance(monthly, monthlyRate, years * 12);
  }

  /** The extra monthly amount closes the shortfall only as an ordinary annuity (deposits at the
      end of each month), while the projection itself deposits at the start: counted the
      projection's way, the extra amount overshoots the shortfall by one month's growth. */
  lemma AdditionalClosesShortfall(
    retirementAge: int, annualExpenses: real, currentAge: int, monthlyInvestment: real,
    monthlyCashSavings: real, currentCashSavings: real, dividendYield: real, currentPortfolio: real)
    ensures var r := FireCalculator(retirementAge, annualExpenses, currentAge, monthlyInvestment,
        monthlyCashSavings, currentCashSavings, dividendYield, currentPortfolio);
      var months := if r.yearsToFire > 0 then r.yearsToFire * 12 else 0;
      r.shortfall > 0.0 && r.yearsToFire > 0 ==>
        && OrdinaryBalance(r.additionalMonthlyNeeded, MonthlyInvestmentRate, months) == r.shortfall
        && DueBalance(r.additionalMonthlyNeeded, MonthlyInvestmentRate, months) == r.shortfall * MonthFactor(MonthlyInvestmentRate)
  {
    var r := FireCalculator(retirementAge, annualExpenses, currentAge, monthlyInvestment,
      monthlyCashSavings, currentCashSavings, dividendYield, currentPortfolio);
    if r.shortfall > 0.0 && r.yearsToFire > 0 {
      PaymentReachesTargetOrdinary(r.shortfall, MonthlyInvestmentRate, r.yearsToFire * 12);
      PaymentOvershootsAsDue(r.shortfall, MonthlyInvestmentRate, r.yearsToFire * 12);
    }
  }

  /** Saving more each month never raises the extra amount asked for. */
  lemma MoreSavingNeverHurts(
    retirementAge: int, annualExpenses: real, currentAge: int, monthlyInvestment: real,
    monthlyCashSavings: real, currentCashSavings: real, dividendYield: real, currentPortfolio: real, extra: real)
    requires extra >= 0.0
    ensures FireCalculator(retirementAge, annualExpenses, currentAge, monthlyInvestment + extra,
        monthlyCashSavings, currentCashSavings, dividendYield, currentPortfolio).shortfall <=
      FireCalculator(retirementAge, annualExpenses, currentAge, monthlyInvestment,
        monthlyCashSavings, currentCashSavings, dividendYield, currentPortfolio).shortfall
  {
    var years := retirementAge - currentAge;
    if years > 0 {
      PowAboveOne(MonthFactor(MonthlyInvestmentRate), years * 12);
      var f := FutureValueFactor(MonthlyInvestmentRate, years * 12);
      assert f >= 0.0;
      assert DueClosedForm(monthlyInvestment + extra, MonthlyInvestmentRate, years * 12) ==
        DueClosedForm(monthlyInvestment, MonthlyInvestmentRate, years * 12) + extra * f * MonthFactor(MonthlyInvestmentRate);
    }
  }
}
