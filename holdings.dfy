/** Turning the reader's raw account rows into holding records (backend.py `portfolio_analysis`,
    the per-row part). */
module Holdings {
  import opened Wrappers
  import opened Text
  import opened Provider
  import NameCleaning
  import DividendYield

  /** A spreadsheet cell: its text, or the `None` that fills the missing cells of a row shorter
      than the sheet's widest row; it prints as "None". */
  datatype Cell = Value(text: string) | Missing

  type Row = seq<Cell>

  /** Where each field sits in an account's rows. Header-named columns are resolved to positions
      by the reader; the optional columns exist only for some accounts. */
  datatype ColumnMapping = ColumnMapping(
    symbol: nat, name: nat, equity: nat, cost: nat, gl: nat,
    allocation: Option<nat>, annualDiv: Option<nat>, divYield: Option<nat>)

  /** One account as delivered by the reader: its name, its mapping and its rows, the last of
      which is the account's subtotal. */
  datatype Account = Account(name: string, mapping: ColumnMapping, rows: seq<Row>)

  /** One position; after merging, possibly held in several accounts. Percentages are in
      percent. */
  datatype Holding = Holding(
    symbol: string, name: string, equity: real, cost: real, gainLoss: real, returnPct: real,
    dividendYield: real, annualDividend: real, account: string, allocation: real)

  /** Python's `float` on a cleaned string: the parse result, or `None` for a ValueError. Like
      `float`, it rejects the text "None" that a missing cell prints as. */
  type Parser = p: string -> Option<real> | p(MissingText).None? witness (s: string) => None

  /** Python's `str(None)`. */
  const MissingText: string := "None"

  /** The provider's answers for each symbol. */
  type Quotes = string -> Quote

  /** The account whose sheet carries its own dividend columns. */
  const ExplicitDividendAccount: string := "M1_Finance"

  /** Python's `str(cell)`. */
  function Str(c: Cell): string {
    match c
    case Value(s) => s
    case Missing => MissingText
  }

  /** Return on cost in percent; 0 for a zero cost. */
  function ReturnPct(gainLoss: real, cost: real): (r: real)
    ensures cost != 0.0 ==> r * cost == gainLoss * 100.0
    ensures cost == 0.0 ==> r == 0.0
  {
    if cost != 0.0 then gainLoss / cost * 100.0 else 0.0
  }

  /** `part` as a percentage of `whole`, or 0 when `whole` is not positive: an allocation's
      share of the portfolio, or dividend income over equity. */
  function PercentOf(part: real, whole: real): (r: real)
    ensures whole > 0.0 ==> r * whole == part * 100.0
    ensures whole <= 0.0 ==> r == 0.0
  {
    if whole > 0.0 then part / whole * 100.0 else 0.0
  }

  /** A money column: a missing cell reads as 0, otherwise `$` and `,` are removed and the rest
      parsed. `None` means the row is dropped: the column is absent or the text does not parse. */
  function MoneyField(row: Row, k: nat, parse: Parser): (r: Option<real>)
    ensures k >= |row| ==> r.None?
    ensures k < |row| && row[k].Missing? ==> r == Some(0.0)
    ensures k < |row| && row[k].Value? ==> r == parse(Remove(Remove(row[k].text, '$'), ','))
  {
    if k >= |row| then None
    else if row[k].Missing? then Some(0.0)
    else parse(Remove(Remove(row[k].text, '$'), ','))
  }

  /** An optional number: empty text or "nan" reads as 0, anything else is parsed. */
  function NumberOrZero(s: string, parse: Parser): (r: Option<real>)
    ensures s == "" || s == "nan" ==> r == Some(0.0)
    ensures s == MissingText ==> r.None?
    ensures s != "" && s != "nan" ==> r == parse(s)
  {
    if s == "" || s == "nan" then Some(0.0) else parse(s)
  }

  /** The dividend-yield cell's text: `%` removed, then stripped. */
  function YieldText(c: Cell): string {
    Strip(Remove(Str(c), '%'))
  }

  /** The annual-dividend cell's text: `$` and `,` removed, then stripped. */
  function AnnualText(c: Cell): string {
    Strip(Remove(Remove(Str(c), '$'), ','))
  }

  /** The dividend yield (percent) and annual dividend read from the account's own columns, or
      `None` when either column is absent or fails to parse. */
  function ExplicitDividend(m: ColumnMapping, row: Row, parse: Parser): (r: Option<(real, real)>)
    ensures r.Some? <==>
      && m.divYield.Some? && m.divYield.value < |row| && m.annualDiv.Some? && m.annualDiv.value < |row|
      && NumberOrZero(YieldText(row[m.divYield.value]), parse).Some?
      && NumberOrZero(AnnualText(row[m.annualDiv.value]), parse).Some?
    ensures r.Some? ==>
      && Some(r.value.0) == NumberOrZero(YieldText(row[m.divYield.value]), parse)
      && Some(r.value.1) == NumberOrZero(AnnualText(row[m.annualDiv.value]), parse)
  {
    if m.divYield.None? || m.divYield.value >= |row| || m.annualDiv.None? || m.annualDiv.value >= |row| then None
    else
      var y := NumberOrZero(YieldText(row[m.divYield.value]), parse);
      var a := NumberOrZero(AnnualText(row[m.annualDiv.value]), parse);
      if y.Some? && a.Some? then Some((y.value, a.value)) else None
  }

  /** A missing cell does not read as a number in either dividend column. */
  lemma MissingCellUnreadable(c: Cell, parse: Parser)
    requires c.Missing?
    ensures NumberOrZero(YieldText(c), parse).None?
    ensures NumberOrZero(AnnualText(c), parse).None?
  {
    var t := Str(c);
    assert t == MissingText;
    MissingTextUnmarked();
    MissingTextStripped();
    MissingTextNotNan();
    assert YieldText(c) == t;
    assert AnnualText(c) == t;
  }

  /** The text of a missing cell holds none of the characters the parsers remove. */
  lemma MissingTextUnmarked()
    ensures Remove(MissingText, '%') == MissingText
    ensures Remove(Remove(MissingText, '$'), ',') == MissingText
  {
    var t := MissingText;
    assert t == ['N', 'o', 'n', 'e'];
    assert '%' !in t && '$' !in t && ',' !in t;
    RemoveAbsent(t, '%');
    RemoveAbsent(t, '$');
    RemoveAbsent(t, ',');
  }

  /** A row's dividend figures: the yield in percent and the annual amount. */
  datatype Dividend = Dividend(yieldPct: real, annual: real)

  /** The annual dividend of a position of the given equity at the given yield (percent). */
  function AnnualDividend(equity: real, yieldPct: real): real {
    equity * (yieldPct / 100.0)
  }

  /** The figures that follow from a resolved yield (a fraction) and the position's equity. */
  function FromResolvedYield(fraction: real, equity: real): (r: Dividend)
    ensures r.yieldPct == fraction * 100.0
    ensures r.annual == AnnualDividend(equity, r.yieldPct)
  {
    var pct := fraction * 100.0;
    Dividend(pct, AnnualDividend(equity, pct))
  }

  /** The dividend figures of a row: the explicit columns for the account that has them when
      they read, otherwise the resolved yield applied to the equity. */
  function RowDividend(account: string, m: ColumnMapping, row: Row, symbol: string, equity: real, parse: Parser, quotes: Quotes): (r: Dividend)
    ensures account == ExplicitDividendAccount && ExplicitDividend(m, row, parse).Some? ==>
      (r.yieldPct, r.annual) == ExplicitDividend(m, row, parse).value
    ensures account != ExplicitDividendAccount || ExplicitDividend(m, row, parse).None? ==>
      r == FromResolvedYield(DividendYield.ResolveYield(symbol, quotes(symbol)), equity)
  {
    var explicit := if account == ExplicitDividendAccount then ExplicitDividend(m, row, parse) else None;
    if explicit.Some? then Dividend(explicit.value.0, explicit.value.1)
    else FromResolvedYield(DividendYield.ResolveYield(symbol, quotes(symbol)), equity)
  }

  /** A missing cell in either dividend column of the account with its own columns sends the
      row to the resolved yield, as the ValueError of `float("None")` does. */
  lemma MissingDividendCellUsesResolver(account: string, m: ColumnMapping, row: Row, symbol: string, equity: real, parse: Parser, quotes: Quotes)
    requires m.divYield.Some? && m.divYield.value < |row| && m.annualDiv.Some? && m.annualDiv.value < |row|
    requires row[m.divYield.value].Missing? || row[m.annualDiv.value].Missing?
    ensures RowDividend(account, m, row, symbol, equity, parse, quotes) ==
      FromResolvedYield(DividendYield.ResolveYield(symbol, quotes(symbol)), equity)
  {
    if row[m.divYield.value].Missing? {
      MissingCellUnreadable(row[m.divYield.value], parse);
    } else {
      MissingCellUnreadable(row[m.annualDiv.value], parse);
    }
  }

  /** The allocation column as the row reports it; anything unreadable is 0. */
  function RawAllocation(m: ColumnMapping, row: Row, parse: Parser): real
  {
    var s := if m.allocation.None? then "0"
             else if m.allocation.value >= |row| then ""
             else Strip(Remove(Str(row[m.allocation.value]), '%'));
    NumberOrZero(s, parse).GetOr(0.0)
  }

  /** Whether a row yields a holding: its symbol column exists and, stripped, is neither empty
      nor "nan"; its three money columns read; its name column exists. */
  predicate RowKept(m: ColumnMapping, row: Row, parse: Parser) {
    && m.symbol < |row|
    && Strip(Str(row[m.symbol])) != ""
    && Strip(Str(row[m.symbol])) != "nan"
    && MoneyField(row, m.equity, parse).Some?
    && MoneyField(row, m.cost, parse).Some?
    && MoneyField(row, m.gl, parse).Some?
    && m.name < |row|
  }

  /** A holding record that the row parser can produce. */
  predicate WellFormed(h: Holding) {
    && h.symbol != "" && h.symbol != "nan"
    && h.returnPct == ReturnPct(h.gainLoss, h.cost)
    && '%' !in h.name
  }

  /** One row of an account. */
  function ParseRow(account: string, m: ColumnMapping, row: Row, parse: Parser, quotes: Quotes): (r: Option<Holding>)
    ensures r.Some? <==> RowKept(m, row, parse)
    ensures r.Some? ==> WellFormed(r.value) && r.value.account == account
  {
    if !RowKept(m, row, parse) then None
    else
      var symbol := Strip(Str(row[m.symbol]));
      var equity := MoneyField(row, m.equity, parse).value;
      var cost := MoneyField(row, m.cost, parse).value;
      var gainLoss := MoneyField(row, m.gl, parse).value;
      var name := NameCleaning.NormalizeName(Str(row[m.name]));
      var dividend := RowDividend(account, m, row, symbol, equity, parse, quotes);
      var h := Holding(symbol, name, equity, cost, gainLoss, ReturnPct(gainLoss, cost), dividend.yieldPct, dividend.annual,
                       account, RawAllocation(m, row, parse));
      assert WellFormed(h);
      Some(h)
  }

  /** A kept row's holding carries the stripped symbol, the three money columns, the cleaned
      name and, outside the account with its own dividend columns, the annual dividend that
      its yield gives on its equity. */
  lemma ParseRowFields(account: string, m: ColumnMapping, row: Row, parse: Parser, quotes: Quotes)
    requires RowKept(m, row, parse)
    ensures var h := ParseRow(account, m, row, parse, quotes).value;
      && h.symbol == Strip(Str(row[m.symbol]))
      && Some(h.equity) == MoneyField(row, m.equity, parse)
      && Some(h.cost) == MoneyField(row, m.cost, parse)
      && Some(h.gainLoss) == MoneyField(row, m.gl, parse)
      && h.name == NameCleaning.NormalizeName(Str(row[m.name]))
      && Dividend(h.dividendYield, h.annualDividend) == RowDividend(account, m, row, h.symbol, h.equity, parse, quotes)
      && (account != ExplicitDividendAccount ==>
            && h.dividendYield == DividendYield.ResolveYield(h.symbol, quotes(h.symbol)) * 100.0
            && h.annualDividend == AnnualDividend(h.equity, h.dividendYield))
      && h.allocation == RawAllocation(m, row, parse)
      && h.account == account
  {
  }

  lemma MissingTextStripped()
    ensures Strip(MissingText) == MissingText
  {
    var t := MissingText;
    assert !IsSpace(t[0]) && !IsSpace(t[|t| - 1]);
    StripUnchanged(t);
  }

  lemma MissingTextNotNan()
    ensures MissingText != "" && MissingText != "nan"
  {
    assert |MissingText| == 4;
  }

  /** A blank symbol cell prints as "None", which is neither empty nor "nan": the row is kept
      under the symbol "None" whenever its money columns read and its name column exists. */
  lemma MissingSymbolKept(account: string, m: ColumnMapping, row: Row, parse: Parser, quotes: Quotes)
    requires m.symbol < |row| && row[m.symbol].Missing? && m.name < |row|
    requires MoneyField(row, m.equity, parse).Some? && MoneyField(row, m.cost, parse).Some?
    requires MoneyField(row, m.gl, parse).Some?
    ensures ParseRow(account, m, row, parse, quotes).Some?
    ensures ParseRow(account, m, row, parse, quotes).value.symbol == MissingText
  {
    MissingTextStripped();
    MissingTextNotNan();
    assert Strip(Str(row[m.symbol])) == MissingText;
    assert RowKept(m, row, parse);
    ParseRowFields(account, m, row, parse, quotes);
  }

  /** The holdings of the given rows of an account, in row order. */
  function RowsHoldings(account: string, m: ColumnMapping, rows: seq<Row>, parse: Parser, quotes: Quotes): (r: seq<Holding>)
    ensures |r| <= |rows|
  {
    if |rows| == 0 then []
    else
      var last := ParseRow(account, m, rows[|rows| - 1], parse, quotes);
      RowsHoldings(account, m, rows[..|rows| - 1], parse, quotes) + (if last.Some? then [last.value] else [])
  }

  /** Every holding of an account's rows is well formed and carries the account's name. */
  lemma {:induction false} RowsHoldingsFromAccount(account: string, m: ColumnMapping, rows: seq<Row>, parse: Parser, quotes: Quotes)
    ensures FromAccount(RowsHoldings(account, m, rows, parse, quotes), account)
  {
    if |rows| > 0 {
      var init := RowsHoldings(account, m, rows[..|rows| - 1], parse, quotes);
      var last := ParseRow(account, m, rows[|rows| - 1], parse, quotes);
      var tail := if last.Some? then [last.value] else [];
      assert RowsHoldings(account, m, rows, parse, quotes) == init + tail;
      RowsHoldingsFromAccount(account, m, rows[..|rows| - 1], parse, quotes);
      if last.Some? {
        SingleFromAccount(last.value, account);
      }
      FromAccountConcat(init, tail, account);
    }
  }

  lemma SingleFromAccount(h: Holding, account: string)
    requires WellFormed(h) && h.account == account
    ensures FromAccount([h], account)
  {
  }

  /** Well-formed holdings of one account. */
  predicate FromAccount(hs: seq<Holding>, account: string) {
    forall k :: 0 <= k < |hs| ==> WellFormed(hs[k]) && hs[k].account == account
  }

  lemma FromAccountConcat(a: seq<Holding>, b: seq<Holding>, account: string)
    requires FromAccount(a, account) && FromAccount(b, account)
    ensures FromAccount(a + b, account)
  {
    forall k | 0 <= k < |a + b| ensures WellFormed((a + b)[k]) && (a + b)[k].account == account {
      if k < |a| { assert (a + b)[k] == a[k]; } else { assert (a + b)[k] == b[k - |a|]; }
    }
  }

  /** The holdings of an account: every row but the final subtotal row. */
  function AccountHoldings(acct: Account, parse: Parser, quotes: Quotes): seq<Holding>
  {
    if |acct.rows| == 0 then [] else RowsHoldings(acct.name, acct.mapping, acct.rows[..|acct.rows| - 1], parse, quotes)
  }

  /** The holdings of one account, as a function of the account. */
  function HoldingsOf(parse: Parser, quotes: Quotes): Account -> seq<Holding> {
    acct => AccountHoldings(acct, parse, quotes)
  }

  /** The lists `f` gives for each element, concatenated in order. */
  function Flatten<A, B>(f: A -> seq<B>, xs: seq<A>): seq<B> {
    if |xs| == 0 then [] else Flatten(f, xs[..|xs| - 1]) + f(xs[|xs| - 1])
  }

  /** The holdings of all accounts, account after account. */
  function AllHoldings(accounts: seq<Account>, parse: Parser, quotes: Quotes): seq<Holding> {
    Flatten(HoldingsOf(parse, quotes), accounts)
  }

  predicate AllWellFormed(hs: seq<Holding>) {
    forall k :: 0 <= k < |hs| ==> WellFormed(hs[k])
  }

  /** Every holding of every account is well formed. */
  lemma {:induction false} AllHoldingsWellFormed(accounts: seq<Account>, parse: Parser, quotes: Quotes)
    ensures AllWellFormed(AllHoldings(accounts, parse, quotes))
  {
    if |accounts| > 0 {
      var init, last := accounts[..|accounts| - 1], accounts[|accounts| - 1];
      AllHoldingsWellFormed(init, parse, quotes);
      AccountHoldingsWellFormed(last, parse, quotes);
      AllWellFormedConcat(AllHoldings(init, parse, quotes), AccountHoldings(last, parse, quotes));
    }
  }

  lemma AccountHoldingsWellFormed(acct: Account, parse: Parser, quotes: Quotes)
    ensures AllWellFormed(AccountHoldings(acct, parse, quotes))
  {
    if |acct.rows| > 0 {
      RowsHoldingsFromAccount(acct.name, acct.mapping, acct.rows[..|acct.rows| - 1], parse, quotes);
    }
  }

  lemma AllWellFormedConcat(a: seq<Holding>, b: seq<Holding>)
    requires AllWellFormed(a) && AllWellFormed(b)
    ensures AllWellFormed(a + b)
  {
    forall k | 0 <= k < |a + b| ensures WellFormed((a + b)[k]) {
      if k < |a| { assert (a + b)[k] == a[k]; } else { assert (a + b)[k] == b[k - |a|]; }
    }
  }

  /** The subtotal row's contents never matter. */
  lemma SubtotalRowIgnored(acct: Account, rows: seq<Row>, t1: Row, t2: Row, parse: Parser, quotes: Quotes)
    ensures AccountHoldings(acct.(rows := rows + [t1]), parse, quotes) ==
            AccountHoldings(acct.(rows := rows + [t2]), parse, quotes)
  {
    assert (rows + [t1])[..|rows|] == rows;
    assert (rows + [t2])[..|rows|] == rows;
  }

  /** Every row but the last is looked at: the holdings of the first n rows are a prefix. */
  lemma {:induction false} RowsHoldingsPrefix(account: string, m: ColumnMapping, rows: seq<Row>, n: nat, parse: Parser, quotes: Quotes)
    requires n <= |rows|
    ensures RowsHoldings(account, m, rows[..n], parse, quotes) <= RowsHoldings(account, m, rows, parse, quotes)
    decreases |rows|
  {
    if n < |rows| {
      RowsHoldingsPrefix(account, m, rows[..|rows| - 1], n, parse, quotes);
      assert rows[..|rows| - 1][..n] == rows[..n];
    } else {
      assert rows[..n] == rows;
    }
  }

  /** Flattening a concatenation flattens the two parts. */
  lemma {:induction false} FlattenConcat<A, B>(f: A -> seq<B>, a: seq<A>, b: seq<A>)
    ensures Flatten(f, a + b) == Flatten(f, a) + Flatten(f, b)
    decreases |b|
  {
    if |b| == 0 {
      assert a + b == a;
    } else {
      var b', y := b[..|b| - 1], b[|b| - 1];
      assert (a + b)[..|a + b| - 1] == a + b';
      assert (a + b)[|a + b| - 1] == y;
      FlattenConcat(f, a, b');
      SeqAppendAssoc(Flatten(f, a), Flatten(f, b'), f(y));
    }
  }

  lemma SeqAppendAssoc<T>(x: seq<T>, y: seq<T>, z: seq<T>)
    ensures x + y + z == x + (y + z)
  {
  }

  /** Taking the element at `k` out of a list. */
  lemma RemoveAt<A>(b: seq<A>, k: nat)
    requires k < |b|
    ensures b == b[..k] + [b[k]] + b[k + 1..]
    ensures multiset(b[..k] + b[k + 1..]) == multiset(b) - multiset{b[k]}
  {
    assert b == b[..k] + [b[k]] + b[k + 1..];
  }

  /** Where the last element of `a` sits in a reordering `b` of it: taking it out of both lists
      leaves two reorderings of each other. */
  lemma MatchLast<A>(a: seq<A>, b: seq<A>) returns (k: nat)
    requires |a| > 0 && multiset(a) == multiset(b)
    ensures k < |b| && b[k] == a[|a| - 1]
    ensures multiset(a[..|a| - 1]) == multiset(b[..k] + b[k + 1..])
  {
    var x := a[|a| - 1];
    assert a == a[..|a| - 1] + [x];
    assert x in multiset(b);
    k :| 0 <= k < |b| && b[k] == x;
    RemoveAt(b, k);
  }

  /** Flattening around the element at `k`, with and without it. */
  lemma FlattenAround<A, B>(f: A -> seq<B>, b: seq<A>, k: nat)
    requires k < |b|
    ensures Flatten(f, b) == Flatten(f, b[..k]) + f(b[k]) + Flatten(f, b[k + 1..])
    ensures Flatten(f, b[..k] + b[k + 1..]) == Flatten(f, b[..k]) + Flatten(f, b[k + 1..])
  {
    var lo, x, hi := b[..k], b[k], b[k + 1..];
    RemoveAt(b, k);
    assert Flatten(f, [x]) == f(x) by { assert [x][..0] == []; }
    FlattenConcat(f, lo + [x], hi);
    FlattenConcat(f, lo, [x]);
    FlattenConcat(f, lo, hi);
  }

  /** Reordering the elements only reorders the flattened list. */
  lemma {:induction false} FlattenPermutation<A, B>(f: A -> seq<B>, a: seq<A>, b: seq<A>)
    requires multiset(a) == multiset(b)
    ensures multiset(Flatten(f, a)) == multiset(Flatten(f, b))
    decreases |a|
  {
    if |a| > 0 {
      var k := MatchLast(a, b);
      FlattenPermutation(f, a[..|a| - 1], b[..k] + b[k + 1..]);
      FlattenWithout(f, b, k);
      MultisetOfAppend(Flatten(f, a[..|a| - 1]), f(a[|a| - 1]));
    }
  }

  /** Flattening without the element at `k` loses exactly that element's list. */
  lemma FlattenWithout<A, B>(f: A -> seq<B>, b: seq<A>, k: nat)
    requires k < |b|
    ensures multiset(Flatten(f, b)) == multiset(Flatten(f, b[..k] + b[k + 1..])) + multiset(f(b[k]))
  {
    FlattenAround(f, b, k);
    MultisetOfSplit(Flatten(f, b[..k]), f(b[k]), Flatten(f, b[k + 1..]));
  }

  lemma MultisetOfSplit<B>(lo: seq<B>, mid: seq<B>, hi: seq<B>)
    ensures multiset(lo + mid + hi) == multiset(lo + hi) + multiset(mid)
  {
  }

  lemma MultisetOfAppend<B>(x: seq<B>, y: seq<B>)
    ensures multiset(x + y) == multiset(x) + multiset(y)
  {
  }

  /** The holdings of a list of accounts split at any point are those of the two parts. */
  lemma AllHoldingsConcat(a: seq<Account>, b: seq<Account>, parse: Parser, quotes: Quotes)
    ensures AllHoldings(a + b, parse, quotes) == AllHoldings(a, parse, quotes) + AllHoldings(b, parse, quotes)
  {
    FlattenConcat(HoldingsOf(parse, quotes), a, b);
  }

  /** Reordering the accounts only reorders the holdings. */
  lemma AccountOrderPermutesHoldings(a: seq<Account>, b: seq<Account>, parse: Parser, quotes: Quotes)
    requires multiset(a) == multiset(b)
    ensures multiset(AllHoldings(a, parse, quotes)) == multiset(AllHoldings(b, parse, quotes))
  {
    FlattenPermutation(HoldingsOf(parse, quotes), a, b);
  }
}
