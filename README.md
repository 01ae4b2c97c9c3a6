# Portfolio modelling engine, in Dafny

This project models the quantitative core of a personal-finance dashboard that reads brokerage
holdings from spreadsheets. It proves properties of these parts:

- **Holding aggregation** (`Holdings`, `Aggregation`, `backend.py` `portfolio_analysis`).
  - Every account's rows except the final subtotal row are parsed into holding records.
  - Holdings of the same symbol are merged into one position per symbol, in order of first appearance. Equity, cost and gain/loss are summed and the return is recomputed. Name and dividend figures stay those of the first occurrence. The accounts label grows by substring test.
  - Every allocation is then recomputed as a share of the total equity.
  - The operation is imperative: a row loop, a dictionary updated in place and an allocation loop, each proved against specification functions.
- **Name cleaning** (`Text`, `NameCleaning`).
  - The reader's token filter drops every whitespace token holding a digit or `%`.
  - The aggregator's normalisation keeps the text before the first `%` and collapses whitespace.
  - Python's `split`, `join`, `strip`, `replace` and `in` are modelled over Unicode code points, with `isspace` and `isdigit` as Python defines them (Unicode 15.0).
- **Dividend-yield resolution** (`DividendYield`, `backend.py` `get_dividend_info`). Four provider sources are tried in a fixed order: the one-year history, the quick quote, the summary record and, for four listed funds, a second history request. The answer is 0 when none answers.
- **FIRE projector** (`Annuity`, `Fire`, `backend.py` `fire_calculator`). It gives future balances, the 25× expenses target, the shortfall, and the extra monthly investment that closes it. The annuity closed forms are proved equal to month-by-month balances.
- **Fair-value estimator** (`FairValue`, `backend.py` `calculate_fair_value`).
  - The P/E ratio, EPS growth and dividend yield are each resolved through ordered fallbacks.
  - The modified PEG fair value and its sanity bounds follow, with one error per failure.
  - The dashboard's Over/Under/Fair bands (`app.py` lines 680-685) are part of this module.
- **Compound-growth simulator** (`Growth`, `app.py` lines 474-515). The nested year/month loop is a method whose three recorded series are proved equal to specification functions. Compounding, annuity, monotonicity and inflation properties are proved about those functions.
- **Dashboard row normalisation** (`DisplayRows`, `app.py` lines 101-136 and 797-801). Each row is shown, skipped, or raises out of the whole table. The portfolio dividend yield shown beside the table is proved to be an equity-weighted average.

Each number is a Dafny `real`. Provider answers (the market-data library) are one `Quote` record of `Option` fields per ticker (`Provider`). Python's `float` on a cleaned string is a parameter `parse: string -> Option<real>`; like `float`, it rejects the text "None". The sheet reader's output is a list of `Account`s, each with a column mapping and rows of cells.

Where the code and the design description of the system disagree, the model follows the code:

- The FIRE projector compounds the present balances once a year (`1.07 ** years`), not monthly.
- A negative number of years until retirement shrinks the present balances rather than leaving them unchanged (`Fire.PastRetirementShrinks`).
- The extra monthly investment is inverted with the ordinary-annuity formula. The projector's own contributions use the annuity-due form. Counted that way, the extra amount overshoots the shortfall by one month's growth (`Fire.AdditionalClosesShortfall`).
- The growth simulator discounts the year-`y` real value by `(1 + i) ** (12y + 11)`, eleven months more than the `12y` elapsed (`Growth.DiscountRunsAheadByElevenMonths`).
- A money field that fails to parse drops the whole row: the row's handler catches the error. Only a missing cell reads as 0.
- A missing cell (the `None` that fills a row shorter than the sheet's widest row) prints as "None". A blank symbol cell therefore yields a holding under the symbol "None" (`Holdings.MissingSymbolKept`), and a blank dividend cell of the account with its own dividend columns sends the row to the resolved yield, since `float("None")` raises (`Holdings.MissingDividendCellUsesResolver`).
- Symbols are not upper-cased.
- A merged holding's accounts are a text label grown by a substring test, not a set.
- The EPS growth rate from annual figures takes the root over the number of figures, not the number of years between them (`FairValue.AnnualGrowthCompounds`).
- The fair value is compared with the price although it is a percentage figure (growth times growth plus yield).

## Model

| member | source | states |
|---|---|---|
| Fallback.FirstSome | backend.py:657-696 | the fallback chain yields nothing exactly when every attempt failed |
| Fallback.FirstSomeIsFirst | backend.py:657-696 | the value returned is an attempt's value and every earlier attempt failed |
| Fallback.FirstSomeAt | backend.py:657-696 | an answering attempt preceded only by failures is the one returned |
| DividendYield.ResolveYield | backend.py:32-84 | the yield is 0 when the summary record is unavailable; otherwise the first answering source's value, in the order history, quick quote, summary, fund retry; 0 when none answers |
| DividendYield.ResolvedFromFirstAnsweringSource | backend.py:38-81 | the resolved yield is 0 or the answer of a source all of whose predecessors failed |
| DividendYield.HistoryDecidesEvenAtZero | backend.py:39-44 | a history with a positive close and no dividends yields 0, whatever the later sources hold |
| DividendYield.SummaryYieldReturnedWhenPresent | backend.py:58-61 | once history and quick quote fail, a present summary yield is returned as is |
| DividendYield.RetryRedundantOnStableHistory | backend.py:69-78 | when the second history request answers like the first, the fund list cannot change the yield |
| DividendYield.ResolvedYieldNonNegative | backend.py:38-81 | non-negative provider figures give a non-negative yield |
| Text.WordsLayout | backend.py:183 | `str.split()` returns the maximal runs: the string is its words, in order, laid out between whitespace gaps, every gap between two words non-empty |
| Text.LayoutSpaceStep | backend.py:183 | a leading whitespace character extends the first gap of the layout |
| Text.LayoutWordStep | backend.py:183 | a leading token becomes the first word of the layout |
| Text.Words | backend.py:183 | `str.split()` yields non-empty tokens free of whitespace |
| Text.StripLeft | backend.py:256 | leading whitespace removed: a suffix of the input, every removed character whitespace, starting with a non-space |
| Text.StripRight | backend.py:256 | trailing whitespace removed: a prefix of the input, every removed character whitespace, ending with a non-space |
| Text.Remove | backend.py:262 | `replace(c, '')` removes every `c` and keeps every other character |
| Text.RemoveCount | backend.py:262 | `replace(c, '')` keeps every other character as often as it occurs and drops every `c` |
| Text.RemoveConcat | backend.py:262 | removal works piece by piece, so the kept characters stay in their order |
| Text.RemoveChar | backend.py:262 | a single character is dropped when it is `c` and kept otherwise |
| Text.RemoveAbsent | backend.py:262 | removing a character that does not occur changes nothing |
| Text.BeforeFirst | backend.py:271 | `split(c)[0]` is the longest prefix without `c`, followed by `c` when shorter than the input |
| Text.WordsOfJoin | backend.py:183 | splitting a single-space join of words gives the words back |
| Text.JoinSingleSpaced | backend.py:272 | joining words with one space gives a single-spaced string |
| Text.JoinChars | backend.py:183 | each character of a join is a space or comes from a word |
| Text.SubstringOfConcat | backend.py:349-350 | a substring of either part is a substring of the concatenation |
| Text.StripUnchanged | backend.py:271 | a string without surrounding whitespace is left alone by `strip` |
| Text.BeforeFirstAbsent | backend.py:271 | without the separator, `split(c)[0]` is the whole string |
| NameCleaning.KeptTokens | backend.py:183 | the kept tokens are exactly the tokens with no digit and no `%` |
| NameCleaning.KeptTokensCount | backend.py:183 | a kept token occurs as often as in the input, a dropped one not at all |
| NameCleaning.KeptTokensConcat | backend.py:183 | the filter works token by token, so the kept tokens stay in their order |
| NameCleaning.NonAsciiDigitsDropped | backend.py:183 | tokens holding a superscript or Arabic-Indic digit are dropped, as `isdigit` accepts them |
| NameCleaning.CleanTokens | backend.py:183 | the cleaned name holds no digit (any `isdigit` character) and no `%`, is single-spaced, and splits into the kept tokens of the input |
| NameCleaning.KeptTokensAllPass | backend.py:185 | filtering tokens that all pass changes nothing |
| NameCleaning.CleanTokensIdempotent | backend.py:183 | cleaning twice equals cleaning once |
| NameCleaning.NormalizeName | backend.py:271-272 | the normalised name holds no `%`, is single-spaced, and has the words of the text before the first `%` |
| NameCleaning.StripKeepsWords | backend.py:271-272 | `strip` never changes the words of a string |
| NameCleaning.NormalizeNameIdempotent | backend.py:271-272 | normalising twice equals normalising once |
| Powers.ZPow | backend.py:577 | an integer power agrees with the natural power for non-negative exponents |
| Powers.PowPositive | backend.py:577 | a non-zero base has a non-zero power, a positive base a positive one |
| Powers.PowAdd | app.py:510 | `x ** (m + n) == x ** m * x ** n` |
| Powers.PowAboveOne | backend.py:621 | a base above one has powers of at least one, above one for a positive exponent |
| Powers.NegativeExponentShrinks | backend.py:577 | a base above one to a negative power lies strictly between 0 and 1 |
| Annuity.FactorStep | backend.py:587-589 | the future-value factor of `n` months is that of `n - 1` months grown plus one |
| Annuity.OrdinaryClosedForm | backend.py:620-622 | end-of-month deposits reach `p * ((1 + r) ** n - 1) / r` |
| Annuity.DueIsOrdinaryGrown | backend.py:587-589 | start-of-month deposits reach the end-of-month balance grown by one month |
| Annuity.DueClosedFormIsDueBalance | backend.py:587-589 | the projector's closed form equals the month-by-month start-of-month balance |
| Annuity.PaymentReachesTargetOrdinary | backend.py:620-622 | the inverted payment reaches its target when deposited at month ends |
| Annuity.PaymentOvershootsAsDue | backend.py:620-622 | deposited at month starts, the payment reaches target times `1 + r`, above a positive target |
| Annuity.PaymentPositive | backend.py:619-622 | the payment is positive exactly when the target is |
| Fire.Compound | backend.py:577-580 | the start balance times `(1 + rate) ** years`, and for negative years the value that grows back to the balance |
| Fire.NonNegativePart | backend.py:616 | `max(0, x)` is non-negative, at least `x`, and either `x` or 0 |
| Fire.AdditionalMonthly | backend.py:619-624 | the extra amount is non-negative and positive exactly when there is a shortfall and time left |
| Fire.FireCalculator | backend.py:552-641 | the current figures and income; future portfolio and cash as compounded balance plus start-of-month contributions; totals, 25× target, shortfall `max(0, required - total)`, extra amount positive exactly when shortfall and years are, required investment, projected dividend income, safe withdrawal and retirement income; at retirement age nothing grows and nothing extra is needed |
| Fire.PastRetirementShrinks | backend.py:577 | a retirement age already passed shrinks a positive portfolio |
| Fire.CompoundShrinks | backend.py:577 | negative years at a positive rate shrink a positive balance |
| Fire.ContributionsAreMonthly | backend.py:583-598 | the projected contributions equal the month-by-month start-of-month balance |
| Fire.AdditionalClosesShortfall | backend.py:619-622 | the extra amount closes the shortfall as end-of-month deposits and overshoots it by one month's growth as start-of-month deposits |
| Fire.MoreSavingNeverHurts | backend.py:583-616 | a larger monthly investment never raises the shortfall |
| Growth.InflationFactor | app.py:510 | the inflation divisor is at least one for non-negative inflation |
| Growth.Discount | app.py:510 | the divisor after month `m` of year `y` has exponent `12y + m` and is at least one |
| Growth.Simulate | app.py:474-515 | three series of `period + 1` entries, entry 0 is `(initial, initial, 0)`, and entry `y` is the nominal, real and dividend value of year `y` |
| Growth.RecordedStep | app.py:512-515 | appending a year's values keeps every recorded entry equal to its year's values |
| Growth.SimulateYear | app.py:496-510 | twelve months take the previous year-end balance to this year's, and the real value kept is the last month's |
| Growth.AddMonth | app.py:497-507 | the month body adds the contribution, the interest and (when reinvesting) the dividends |
| Growth.PlainMonth | app.py:498-502 | without reinvesting, a month adds the contribution and applies `1 + r/1200` |
| Growth.PureCompounding | app.py:496-502 | with no contribution and no reinvestment, `k` months multiply the balance by `(1 + r/1200) ** k` |
| Growth.CompoundingMonth | app.py:498-502 | one more month keeps the pure compounding identity |
| Growth.YearlyFactor | app.py:494-512 | with no contribution and no reinvestment each recorded year multiplies the nominal value by `(1 + r/1200) ** 12` |
| Growth.YearCompounds | app.py:496-502 | a twelve-month run without contributions compounds twelve times |
| Growth.TenThousandAtTwelvePercent | app.py:482-512 | 10000 at 12% for one year gives `10000 * 1.01 ** 12` |
| Growth.ContributionsAsAnnuity | app.py:496-502 | without reinvestment, a run is the compounded start plus the contributions as start-of-month deposits |
| Growth.ContributionsAtStart | app.py:487-492 | before any month the run is the start value with no deposits |
| Growth.ContributionMonth | app.py:498-502 | one more month keeps the annuity identity |
| Growth.MonthGrows | app.py:498-507 | under non-negative inputs a month adds at least the contribution |
| Growth.RunGrows | app.py:496-507 | under non-negative inputs a run never ends below its start |
| Growth.NominalNonDecreasing | app.py:494-512 | under non-negative inputs the nominal series is non-negative and non-decreasing |
| Growth.RunIgnoresYield | app.py:505-507 | without reinvestment the dividend yield does not change a run |
| Growth.YieldIrrelevantWithoutReinvesting | app.py:505-512 | without reinvestment the dividend yield does not change the nominal series |
| Growth.NoInflationRealIsNominal | app.py:509-510 | with zero inflation the real value equals the nominal value |
| Growth.DiscountRunsAheadByElevenMonths | app.py:510 | under positive inflation the recorded real value is below the nominal value discounted by the `12y` elapsed months |
| Holdings.ReturnPct | backend.py:323 | the return times the cost is the gain times 100, and 0 for a zero cost |
| Holdings.PercentOf | backend.py:360 | the percentage times the whole is the part times 100, and 0 for a non-positive whole (allocations at line 360, portfolio yield at line 369) |
| Holdings.MoneyField | backend.py:262-264 | an absent column drops the row, a missing cell reads as 0, and a present cell is parsed with `$` and `,` removed |
| Holdings.NumberOrZero | backend.py:292-296 | empty text and "nan" read as 0, the text of a missing cell fails, anything else is parsed |
| Holdings.ExplicitDividend | backend.py:290-296 | the account's own dividend columns give figures exactly when both exist and read, and then the figures are the parsed texts |
| Holdings.MissingCellUnreadable | backend.py:290-300 | a missing cell reads as a number in neither dividend column |
| Holdings.MissingTextUnmarked | backend.py:262 | the text of a missing cell holds none of `%`, `$` and `,` |
| Holdings.FromResolvedYield | backend.py:302-304 | the percentage is the resolved fraction times 100 and the annual dividend is the equity at that percentage |
| Holdings.RowDividend | backend.py:290-304 | for the account with its own dividend columns, the figures read from them when they read; otherwise, and for every other account, the figures of the resolved yield |
| Holdings.MissingDividendCellUsesResolver | backend.py:290-300 | a missing cell in either dividend column sends the row to the resolved yield |
| Holdings.ParseRow | backend.py:252-331 | a row yields a holding exactly when its symbol (a missing cell printing as "None") is neither empty nor "nan", its money fields read and its name column exists; the holding is well formed and carries the account's name |
| Holdings.ParseRowFields | backend.py:256-328 | a kept row's holding carries the stripped symbol, the money fields, the normalised name, the row's dividend figures (outside the account with its own columns, the resolved yield times 100 and the income it implies), the allocation column and the account |
| Holdings.MissingSymbolKept | backend.py:256-260 | a blank symbol cell yields a holding under the symbol "None" when the other columns read |
| Holdings.MissingTextStripped | backend.py:256 | the text of a missing cell is left alone by `strip` |
| Holdings.MissingTextNotNan | backend.py:260 | the text of a missing cell is neither empty nor "nan" |
| Holdings.RowsHoldings | backend.py:252 | at most one holding per row |
| Holdings.RowsHoldingsFromAccount | backend.py:252-328 | every holding of an account's rows is well formed and names that account |
| Holdings.AccountHoldingsWellFormed | backend.py:252-328 | every holding of one account is well formed |
| Holdings.AllHoldingsWellFormed | backend.py:247-331 | every holding of every account is well formed |
| Holdings.SubtotalRowIgnored | backend.py:252 | the contents of an account's last row never matter |
| Holdings.RowsHoldingsPrefix | backend.py:252-331 | the holdings of the first `n` rows are a prefix of those of all rows |
| Holdings.FlattenConcat | backend.py:247-331 | the holdings of concatenated account lists are the two parts' holdings concatenated |
| Holdings.FlattenPermutation | backend.py:247-331 | reordering the accounts only reorders the flattened list |
| Holdings.AllHoldingsConcat | backend.py:247-331 | splitting the account list splits the holdings list |
| Holdings.AccountOrderPermutesHoldings | backend.py:247-331 | reordering the accounts yields the same multiset of holdings |
| Aggregation.FirstOf | backend.py:337-338 | the first holding of a symbol exists exactly when the symbol occurs, and carries that symbol |
| Aggregation.FirstOfIsFirst | backend.py:337-338 | no earlier holding has that symbol |
| Aggregation.Symbols | backend.py:334-353 | the merged keys are distinct and are exactly the symbols that occur |
| Aggregation.CollectHoldings | backend.py:247-331 | the row loop collects exactly the parsed holdings of every row but each account's last |
| Aggregation.CombineDuplicates | backend.py:334-350 | the dictionary holds one entry per symbol, in first-appearance order; each entry sums equity, cost and gain/loss over that symbol's rows, recomputes the return and keeps the first row's name, dividend figures and allocation |
| Aggregation.InsertNew | backend.py:337-338 | inserting a new symbol's copy keeps the merge invariant |
| Aggregation.MergeExisting | backend.py:339-350 | folding a repeated symbol into its entry keeps the merge invariant |
| Aggregation.Merge | backend.py:341-350 | money fields added, return recomputed from the sums, account appended unless already a substring, other fields kept |
| Aggregation.AssignAllocations | backend.py:356-360 | the total is the summed equity and every allocation becomes the holding's share of it |
| Aggregation.PortfolioAnalysis | backend.py:239-369 | one merged holding per symbol in first-appearance order; the total equity equals the total over all kept rows; every allocation is a share of that total; the portfolio yield is merged dividend income over total equity |
| Aggregation.SumAbsent | backend.py:334-348 | a symbol that does not occur sums to 0 |
| Aggregation.SumOverKeysAppend | backend.py:334-348 | one more row changes the sum over distinct keys by its own field only when its symbol is a key |
| Aggregation.SymbolsTotal | backend.py:334-356 | the per-symbol sums over the distinct symbols add up to the total over all rows |
| Aggregation.SymbolsTotalStep | backend.py:334-356 | one more row keeps the conservation identity |
| Aggregation.SumOfAppend | backend.py:341-343 | one more row adds its field to its own symbol's sum only |
| Aggregation.MergedTotal | backend.py:353-356 | the merged list's summed-field total is the sum over its keys |
| Aggregation.TotalIgnoresAllocation | backend.py:359-360 | rewriting allocations leaves the other totals alone |
| Aggregation.SumOfConcat | backend.py:334-348 | a symbol's sum over a concatenation is the sum of the parts' sums |
| Aggregation.SumOfPermutation | backend.py:334-348 | a symbol's sum does not depend on the order of the rows |
| Aggregation.SumOfWithout | backend.py:334-348 | taking one row out takes its field out of its own symbol's sum |
| Aggregation.MergedSumsOrderFree | backend.py:334-348 | a merged holding's equity, cost and gain/loss are the sums over its symbol's rows in any order |
| Aggregation.AllocationShares | backend.py:356-360 | allocations that are shares of a positive total add up to the equity's share of it |
| Aggregation.AllocationsSumTo100 | backend.py:356-360 | with a positive total equity the allocations sum to exactly 100 |
| Aggregation.LabelListsEveryAccount | backend.py:349-350 | the accounts label of a symbol contains the account of every row of that symbol |
| FairValue.PeRatio | backend.py:657-696 | there is no P/E exactly when all four sources fail |
| FairValue.QuickPeWins | backend.py:660-666 | a quick-quote P/E is used whatever the other sources say, even when zero or negative |
| FairValue.ZeroTrailingPeUsesForward | backend.py:666-671 | a zero trailing P/E in the summary falls through to the forward P/E |
| FairValue.EarningsPeOnlyFromPositiveEarnings | backend.py:674-693 | after the quote and summary fail, a P/E exists exactly when the newest annual or the trailing-twelve-month earnings are positive, and is the price over those earnings |
| FairValue.EpsGrowth | backend.py:698-732 | growth is 0 when no source answers; otherwise the answer of the first answering source |
| FairValue.GrowthSourceOrder | backend.py:698-729 | the annual figures decide when they answer, the quarterly figures only when the annual ones do not, the summary only when neither does |
| FairValue.AnnualGrowthCompounds | backend.py:702-707 | the annual-figure growth compounded once per figure turns the oldest earnings into the newest |
| FairValue.NoGrowthDataMeansZero | backend.py:731-732 | without any growth source the growth is 0 |
| FairValue.DividendPct | backend.py:735-749 | the resolved yield in percent when non-zero, else the summary's yield in percent when present, else 0 |
| FairValue.ZeroHistoryFallsBackToSummary | backend.py:738-749 | a dividend-free history makes the estimator use the summary's yield |
| FairValue.FairFormula | backend.py:752-758 | with a non-zero P/E the PEG is non-zero and `pe / peg * (growth + yield)` is growth plus yield, or growth times that, as growth is positive |
| FairValue.MessagesDistinct | backend.py:653-777 | different errors carry different messages, whichever division-by-zero text Python gives |
| FairValue.Assess | backend.py:751-774 | a zero P/E, a non-positive fair value and a fair value above five times the price are exactly the three failures; a success reports the inputs, the PEG, a fair value in `(0, 5 * price]` and the ratio price over fair value |
| FairValue.Estimate | backend.py:643-780 | no price data and no P/E are the first two failures, each exactly in its case; otherwise the assessment of the resolved figures |
| FairValue.SuccessExactlyWhenInBounds | backend.py:761-774 | a success exists exactly when a price and a non-zero P/E are known and the fair value lies in `(0, 5 * price]` |
| FairValue.PegCases | backend.py:752-758 | without growth the PEG is the P/E and the fair value growth plus yield; with growth PEG times growth is the P/E and the fair value growth times (growth plus yield) |
| FairValue.Classify | app.py:680-685 | Over exactly above 1.1, Under exactly below 0.9, Fair exactly in between |
| FairValue.BandAgainstPrice | app.py:680-685 | Over exactly when the price exceeds 1.1 fair values, Under exactly when it is below 0.9 fair values |
| DisplayRows.Money | app.py:114-116 | an absent column and a missing cell are errors; a present cell is parsed with `$` and `,` removed |
| DisplayRows.MissingMoneyUnreadable | app.py:114-116 | a missing money cell's text does not parse once `$` and `,` are removed |
| DisplayRows.AllocationCell | app.py:117 | an absent allocation column and a missing cell are errors; empty text reads as 0 and other text is parsed with `%` removed |
| DisplayRows.MissingAllocationUnreadable | app.py:117 | a missing allocation cell's text is neither empty nor a number once `%` is removed and it is stripped, so reading it fails |
| DisplayRows.NormalizeRow | app.py:107-136 | a row raises exactly when its symbol column is absent and is shown exactly when all its cells read (a missing money or allocation cell never does); a shown row's line is `ShownLine` |
| DisplayRows.ShownLine | app.py:112-132 | the line of a shown row carries the stripped symbol and name, the money fields, the gain percentage from equity minus cost, and the resolved yield for its symbol with the income that yield implies on its equity |
| DisplayRows.RowsDisplay | app.py:107-136 | at most one line per row, each with the income its yield implies |
| DisplayRows.AccountDisplay | app.py:106-136 | an account's lines carry the income their yields imply |
| DisplayRows.AllDisplay | app.py:101-136 | the table's lines carry the income their yields imply |
| DisplayRows.NormalizeAll | app.py:101-136 | the account loop builds exactly the table, or stops at the first row that raises |
| DisplayRows.NormalizeAccount | app.py:107-136 | the row loop builds exactly an account's lines, or stops at a row that raises |
| DisplayRows.RaisedStaysRaised | app.py:109 | once a row raised, later rows do not change the outcome |
| DisplayRows.RaisedAccountStaysRaised | app.py:102-109 | an account that raised makes the whole table raise |
| DisplayRows.SubtotalRowNeverShown | app.py:106-107 | the last row never reaches the table, whatever it holds |
| DisplayRows.MissingSymbolSkipped | app.py:109 | a row with a missing symbol cell is skipped and changes nothing |
| DisplayRows.MissingFigureSkipsRow | app.py:114-117 | a row with a missing money or allocation cell is skipped |
| DisplayRows.IncomeBetween | app.py:797-801 | 100 times the income lies between the smallest and the largest yield applied to the total equity |
| DisplayRows.IncomeStep | app.py:797-801 | one more line keeps the income between the bounds |
| DisplayRows.PortfolioYieldIsWeightedAverage | app.py:797-801 | with positive equity the portfolio yield lies between the smallest and the largest line yield |

## Left out

- The sheet reader's OAuth token handling and spreadsheet API calls (`backend.py` lines 87-237) are not part of this model. The model takes the list of accounts they produce, each with its rows and column mapping; header-named columns are assumed resolved to positions.
- All market-data library access is replaced by the `Quote` record of `Option` fields. A request that raises, comes back empty or lacks the field is `None`. The fair-value price request distinguishes no case beyond "no price" (`NoPriceData`).
- `stock_analysis` (beta and market-data download), the HTTP routes, the dashboard widgets, charts, currency formatting and stdout capture are not modelled: they are I/O and presentation.
- The printed tables and top-five sorting of `portfolio_analysis` (`backend.py` lines 371-427) are display only.
- The running totals at `backend.py` lines 306-307 are not modelled: both are overwritten at lines 356 and 368 before use.
- The first allocation read at `backend.py` lines 275-287 is not modelled: its value is overwritten at lines 310-314.
- The resolver's result cache (`lru_cache`) is not modelled: the resolver is a pure function of the provider snapshot.
- Floating point: every figure is an exact real. IEEE rounding, infinities and NaN are out of scope.
  - A quarterly figure of 0 five quarters back is treated as no answer, where numpy would produce an infinite or undefined growth.
  - A zero P/E is the `DivisionByZero` error, which the estimator reports as an error calculating the metrics. Whether Python's text is "float division by zero" or "division by zero" depends on the operand types, which the reals do not record; `FairValue.Message` takes it as a parameter.
- The fractional power `x ** (1 / n)` in the annual growth rate is a parameter `root`. `FairValue.AnnualGrowthCompounds` assumes it computes true roots.
- `FairValue.Estimate`: the outer "Error accessing stock data" failure (`backend.py` line 780) is not modelled. It needs the ticker object itself to fail to build.
- The dashboard's premium percentage formatting (`app.py` lines 688-692) is presentation only.
- The portfolio yield at `app.py` lines 797-801 re-parses the table's two-decimal text. `DisplayRows.PortfolioYield` sums the unrounded figures.
- The `years` x-axis list of the simulator (`app.py` line 479) is not modelled: it only labels the chart.
- `Growth.Simulate` requires non-negative inflation, as the growth simulator's inflation slider enforces (`app.py` lines 401-405).
- `Fire.FireCalculator` takes the sheet reader's portfolio value as a parameter, which is 0 when the reader fails. The keyword defaults of `fire_calculator` are explicit parameters.
