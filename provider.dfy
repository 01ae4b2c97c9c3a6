/** What the market-data provider answered for one ticker. Every request the core makes is a
    field; `None` stands for a request that failed, came back empty or lacked the field. */
module Provider {
  import opened Wrappers

  /** A one-year daily history that came back non-empty with a dividends column: the sum of
      its dividends and the last close. */
  datatype History = History(dividendSum: real, lastClose: real)

  /** The provider's quick quote. */
  datatype FastInfo = FastInfo(lastDividend: Option<real>, lastPrice: Option<real>, trailingPE: Option<real>)

  /** The provider's summary record, one optional field per key the core reads. */
  datatype Info = Info(
    dividendYield: Option<real>,
    trailingAnnualDividendYield: Option<real>,
    dividendRate: Option<real>,
    regularMarketPrice: Option<real>,
    trailingPE: Option<real>,
    forwardPE: Option<real>,
    earningsGrowth: Option<real>,
    earningsQuarterlyGrowth: Option<real>)

  /** Everything fetched for one ticker. The two one-year history requests are separate calls
      and may answer differently. Earnings-per-share rows are newest first. */
  datatype Quote = Quote(
    info: Option<Info>,
    history: Option<History>,
    fastInfo: Option<FastInfo>,
    historyRetry: Option<History>,
    dayClose: Option<real>,
    annualEps: Option<seq<real>>,
    quarterlyEps: Option<seq<real>>)
}
