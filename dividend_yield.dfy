/** The annual dividend yield of a ticker (a fraction, not a percentage), resolved by trying the
    provider's sources in a fixed order (backend.py `get_dividend_info`). */
module DividendYield {
  import opened Wrappers
  import opened Provider
  import opened Fallback

  /** Funds for which the one-year history is fetched a second time as a last resort. */
  const RetryFunds: seq<string> := ["VTI", "SCHD", "VXUS", "VIG"]

  /** Source 1 (and 4): dividends of the last year over the last close, when that close is
      positive. A zero dividend sum is still an answer. */
  function HistoryAttempt(h: Option<History>): Option<real>
  {
    if h.Some? && h.value.lastClose > 0.0 then Some(h.value.dividendSum / h.value.lastClose) else None
  }

  /** Source 2: the last dividend, if present and non-zero, times four over a positive last
      price. */
  function FastInfoAttempt(f: Option<FastInfo>): Option<real>
  {
    if f.Some? && f.value.lastDividend.Some? && f.value.lastDividend.value != 0.0 &&
       f.value.lastPrice.Some? && f.value.lastPrice.value > 0.0
    then Some(f.value.lastDividend.value * 4.0 / f.value.lastPrice.value)
    else None
  }

  /** Source 3: the summary's dividend yield, else its trailing annual yield, else its dividend
      rate over its market price (a zero price raises and counts as a failure). */
  function SummaryAttempt(i: Info): Option<real>
  {
    if i.dividendYield.Some? then i.dividendYield
    else if i.trailingAnnualDividendYield.Some? then i.trailingAnnualDividendYield
    else if i.dividendRate.Some? && i.regularMarketPrice.Some? && i.regularMarketPrice.value != 0.0
    then Some(i.dividendRate.value / i.regularMarketPrice.value)
    else None
  }

  /** Source 4: for the listed funds only, the second history request. */
  function RetryAttempt(symbol: string, h: Option<History>): Option<real>
  {
    if symbol in RetryFunds then HistoryAttempt(h) else None
  }

  /** The four sources in priority order. */
  function Attempts(symbol: string, q: Quote, i: Info): seq<Option<real>>
  {
    [HistoryAttempt(q.history), FastInfoAttempt(q.fastInfo), SummaryAttempt(i), RetryAttempt(symbol, q.historyRetry)]
  }

  /** The resolver. The summary record is requested before any source is tried and outside
      their error handlers, so when it is unavailable the whole resolution yields 0. Otherwise
      the first source that answers wins and 0 is the answer when none does. */
  function ResolveYield(symbol: string, q: Quote): (r: real)
    ensures q.info.None? ==> r == 0.0
    ensures q.info.Some? ==> r == FirstSome(Attempts(symbol, q, q.info.value)).GetOr(0.0)
  {
    match q.info
    case None => 0.0
    case Some(info) =>
      var a := Attempts(symbol, q, info);
      assert FirstSome(a) == if a[0].Some? then a[0] else if a[1].Some? then a[1] else if a[2].Some? then a[2] else a[3] by {
        var t1, t2, t3 := a[1..], a[1..][1..], a[1..][1..][1..];
        assert t3 == [a[3]] && t3[1..] == [];
        assert FirstSome(t3) == a[3];
        assert FirstSome(t2) == if a[2].Some? then a[2] else a[3];
        assert FirstSome(t1) == if a[1].Some? then a[1] else FirstSome(t2);
      }
      if q.history.Some? && q.history.value.lastClose > 0.0 then
        q.history.value.dividendSum / q.history.value.lastClose
      else if q.fastInfo.Some? && q.fastInfo.value.lastDividend.Some? && q.fastInfo.value.lastDividend.value != 0.0 &&
              q.fastInfo.value.lastPrice.Some? && q.fastInfo.value.lastPrice.value > 0.0 then
        q.fastInfo.value.lastDividend.value * 4.0 / q.fastInfo.value.lastPrice.value
      else if info.dividendYield.Some? then info.dividendYield.value
      else if info.trailingAnnualDividendYield.Some? then info.trailingAnnualDividendYield.value
      else if info.dividendRate.Some? && info.regularMarketPrice.Some? && info.regularMarketPrice.value != 0.0 then
        info.dividendRate.value / info.regularMarketPrice.value
      else if symbol in RetryFunds && q.historyRetry.Some? && q.historyRetry.value.lastClose > 0.0 then
        q.historyRetry.value.dividendSum / q.historyRetry.value.lastClose
      else 0.0
  }

  /** The resolved yield is either 0 or the answer of some source every earlier source of
      which failed. */
  lemma ResolvedFromFirstAnsweringSource(symbol: string, q: Quote)
    requires q.info.Some?
    ensures ResolveYield(symbol, q) == 0.0 ||
      exists k :: 0 <= k < 4 && Attempts(symbol, q, q.info.value)[k] == Some(ResolveYield(symbol, q)) &&
        forall j :: 0 <= j < k ==> Attempts(symbol, q, q.info.value)[j].None?
  {
    FirstSomeIsFirst(Attempts(symbol, q, q.info.value));
  }

  /** A one-year history with a positive close decides the yield even when no dividend was paid,
      whatever the later sources say. */
  lemma HistoryDecidesEvenAtZero(symbol: string, q: Quote, price: real)
    requires q.info.Some? && q.history == Some(History(0.0, price)) && price > 0.0
    ensures ResolveYield(symbol, q) == 0.0
    ensures forall f, r :: ResolveYield(symbol, q.(fastInfo := f, historyRetry := r)) == 0.0
  {
  }

  /** A summary yield is returned whenever it is present, once the first two sources failed. */
  lemma SummaryYieldReturnedWhenPresent(symbol: string, q: Quote)
    requires q.info.Some? && q.info.value.dividendYield.Some?
    requires HistoryAttempt(q.history).None? && FastInfoAttempt(q.fastInfo).None?
    ensures ResolveYield(symbol, q) == q.info.value.dividendYield.value
  {
  }

  /** When the second history request answers like the first, the fund retry never changes the
      outcome: the yield no longer depends on the symbol. */
  lemma RetryRedundantOnStableHistory(s1: string, s2: string, q: Quote)
    requires q.historyRetry == q.history
    ensures ResolveYield(s1, q) == ResolveYield(s2, q)
  {
  }

  /** Non-negative provider figures give a non-negative yield. */
  lemma ResolvedYieldNonNegative(symbol: string, q: Quote)
    requires q.history.Some? ==> q.history.value.dividendSum >= 0.0
    requires q.historyRetry.Some? ==> q.historyRetry.value.dividendSum >= 0.0
    requires q.fastInfo.Some? && q.fastInfo.value.lastDividend.Some? ==> q.fastInfo.value.lastDividend.value >= 0.0
    requires q.info.Some? ==> NonNegativeSummary(q.info.value)
    ensures ResolveYield(symbol, q) >= 0.0
  {
  }

  predicate NonNegativeSummary(i: Info) {
    && (i.dividendYield.Some? ==> i.dividendYield.value >= 0.0)
    && (i.trailingAnnualDividendYield.Some? ==> i.trailingAnnualDividendYield.value >= 0.0)
    && (i.dividendRate.Some? ==> i.dividendRate.value >= 0.0)
    && (i.regularMarketPrice.Some? ==> i.regularMarketPrice.value > 0.0)
  }
}
