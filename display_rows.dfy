/** The dashboard's own pass over the account rows (app.py, the "All Accounts" table, lines
    101-136) and the portfolio dividend yield it derives from that table (lines 797-801). */
module DisplayRows {
  import opened Wrappers
  import opened Text
  import opened Holdings
  import DividendYield

  /** One line of the holdings table, before its figures are formatted as text. */
  datatype DisplayRow = DisplayRow(
    symbol: string, name: string, equity: real, allocation: real, gainLoss: real,
    glPercent: real, dividendYield: real, annualDividend: real)

  /** What the loop body does with one row: shows it, skips it (missing symbol, or a
      ValueError/KeyError inside the handler), or raises out of the whole table (the symbol
      lookup sits outside the handler). */
  datatype Outcome = Shown(line: DisplayRow) | Skipped | Raised

  /** A money cell with no missing-value guard: `$` and `,` removed from its text and the rest
      parsed; an absent column is a KeyError, and a missing cell a ValueError, since `float`
      rejects its text (`MissingMoneyUnreadable`). */
  function Money(row: Row, k: nat, parse: Parser): (r: Option<real>)
    ensures r.Some? ==> k < |row| && row[k].Value?
    ensures k < |row| && row[k].Value? ==> r == parse(Remove(Remove(row[k].text, '$'), ','))
  {
    if k >= |row| || row[k].Missing? then None
    else parse(Remove(Remove(row[k].text, '$'), ','))
  }

  /** Reading a missing cell's text as money fails, as the model's `Money` has it. */
  lemma MissingMoneyUnreadable(c: Cell, parse: Parser)
    requires c.Missing?
    ensures parse(Remove(Remove(Str(c), '$'), ',')).None?
  {
    assert Str(c) == MissingText;
    MissingTextUnmarked();
  }

  /** The allocation cell's text: `%` removed, then stripped. */
  function AllocationText(c: Cell): string {
    Strip(Remove(Str(c), '%'))
  }

  /** The allocation cell: `%` removed and stripped; empty text reads as 0. An account without an
      allocation column, or a row too short for it, is a KeyError; a missing cell is a
      ValueError (`MissingAllocationUnreadable`). */
  function AllocationCell(m: ColumnMapping, row: Row, parse: Parser): (r: Option<real>)
    ensures r.Some? ==> m.allocation.Some? && m.allocation.value < |row| && row[m.allocation.value].Value?
    ensures m.allocation.Some? && m.allocation.value < |row| && row[m.allocation.value].Value? ==>
      var s := AllocationText(row[m.allocation.value]);
      (s == "" ==> r == Some(0.0)) && (s != "" ==> r == parse(s))
  {
    if m.allocation.None? || m.allocation.value >= |row| || row[m.allocation.value].Missing? then None
    else
      var s := AllocationText(row[m.allocation.value]);
      if s == "" then Some(0.0) else parse(s)
  }

  /** A missing cell's text is neither empty nor a number once `%` is removed and it is
      stripped, so `float` raises on it, as the model's `AllocationCell` has it. */
  lemma MissingAllocationUnreadable(c: Cell, parse: Parser)
    requires c.Missing?
    ensures AllocationText(c) != "" && parse(AllocationText(c)).None?
  {
    assert Str(c) == MissingText;
    MissingTextUnmarked();
    MissingTextStripped();
    MissingTextNotNan();
    assert AllocationText(c) == MissingText;
  }

  /** Whether a row with a present symbol makes it into the table. */
  predicate RowShown(m: ColumnMapping, row: Row, parse: Parser) {
    && m.symbol < |row| && row[m.symbol].Value?
    && m.name < |row|
    && Money(row, m.equity, parse).Some?
    && Money(row, m.cost, parse).Some?
    && Money(row, m.gl, parse).Some?
    && AllocationCell(m, row, parse).Some?
  }

  /** The loop body for one row. */
  function NormalizeRow(m: ColumnMapping, row: Row, parse: Parser, quotes: Quotes): (r: Outcome)
    ensures r.Raised? <==> m.symbol >= |row|
    ensures r.Shown? <==> RowShown(m, row, parse)
    ensures r.Shown? ==> r.line == ShownLine(m, row, parse, quotes)
  {
    if m.symbol >= |row| then Raised
    else if row[m.symbol].Missing? then Skipped
    else if !RowShown(m, row, parse) then Skipped
    else Shown(ShownLine(m, row, parse, quotes))
  }

  /** The line of a row that is shown: its figures read, its return and dividend derived. */
  function ShownLine(m: ColumnMapping, row: Row, parse: Parser, quotes: Quotes): (line: DisplayRow)
    requires RowShown(m, row, parse)
    ensures
      var equity, cost := Money(row, m.equity, parse).value, Money(row, m.cost, parse).value;
      && line.symbol == Strip(row[m.symbol].text)
      && line.name == Strip(Str(row[m.name]))
      && line.equity == equity
      && line.gainLoss == Money(row, m.gl, parse).value
      && line.allocation == AllocationCell(m, row, parse).value
      && line.glPercent == ReturnPct(equity - cost, cost)
      && line.dividendYield == DividendYield.ResolveYield(line.symbol, quotes(line.symbol)) * 100.0
      && line.annualDividend == AnnualDividend(equity, line.dividendYield)
  {
    var symbol := Strip(row[m.symbol].text);
    var equity := Money(row, m.equity, parse).value;
    var cost := Money(row, m.cost, parse).value;
    var d := FromResolvedYield(DividendYield.ResolveYield(symbol, quotes(symbol)), equity);
    DisplayRow(symbol, Strip(Str(row[m.name])), equity, AllocationCell(m, row, parse).value,
               Money(row, m.gl, parse).value, ReturnPct(equity - cost, cost), d.yieldPct, d.annual)
  }

  /** Every table line carries the dividend income implied by its own yield. */
  predicate Consistent(lines: seq<DisplayRow>) {
    forall k :: 0 <= k < |lines| ==> lines[k].annualDividend == AnnualDividend(lines[k].equity, lines[k].dividendYield)
  }

  /** The table lines of some rows of one account, or `None` once a row raises. */
  function RowsDisplay(m: ColumnMapping, rows: seq<Row>, parse: Parser, quotes: Quotes): (r: Option<seq<DisplayRow>>)
    ensures r.Some? ==> |r.value| <= |rows| && Consistent(r.value)
  {
    if |rows| == 0 then Some([])
    else
      var prev := RowsDisplay(m, rows[..|rows| - 1], parse, quotes);
      if prev.None? then None
      else
        match NormalizeRow(m, rows[|rows| - 1], parse, quotes)
        case Raised => None
        case Skipped => prev
        case Shown(line) => Some(prev.value + [line])
  }

  /** One account's lines: every row but the last, which is the subtotal. */
  function AccountDisplay(acct: Account, parse: Parser, quotes: Quotes): (r: Option<seq<DisplayRow>>)
    ensures r.Some? ==> Consistent(r.value)
  {
    if |acct.rows| == 0 then Some([]) else RowsDisplay(acct.mapping, acct.rows[..|acct.rows| - 1], parse, quotes)
  }

  /** The whole table, account after account, or `None` when a row raised. */
  function AllDisplay(accounts: seq<Account>, parse: Parser, quotes: Quotes): (r: Option<seq<DisplayRow>>)
    ensures r.Some? ==> Consistent(r.value)
  {
    if |accounts| == 0 then Some([])
    else
      var prev := AllDisplay(accounts[..|accounts| - 1], parse, quotes);
      var last := AccountDisplay(accounts[|accounts| - 1], parse, quotes);
      if prev.None? || last.None? then None else Some(prev.value + last.value)
  }

  /** The loop: the table lines of all accounts, or `None` when a symbol lookup raised. */
  method NormalizeAll(accounts: seq<Account>, parse: Parser, quotes: Quotes) returns (table: Option<seq<DisplayRow>>)
    ensures table == AllDisplay(accounts, parse, quotes)
  {
    var lines: seq<DisplayRow> := [];
    var a := 0;
    while a < |accounts|
      invariant 0 <= a <= |accounts|
      invariant AllDisplay(accounts[..a], parse, quotes) == Some(lines)
    {
      var part := NormalizeAccount(accounts[a], parse, quotes);
      if part.None? {
        RaisedAccountStaysRaised(accounts, a + 1, parse, quotes);
        return None;
      }
      assert accounts[..a + 1][..a] == accounts[..a];
      lines := lines + part.value;
      a := a + 1;
    }
    assert accounts[..a] == accounts;
    table := Some(lines);
  }

  /** The inner loop: one account's lines, every row but the subtotal. */
  method NormalizeAccount(acct: Account, parse: Parser, quotes: Quotes) returns (part: Option<seq<DisplayRow>>)
    ensures part == AccountDisplay(acct, parse, quotes)
  {
    var n := if |acct.rows| == 0 then 0 else |acct.rows| - 1;
    var lines: seq<DisplayRow> := [];
    var i := 0;
    while i < n
      invariant 0 <= i <= n
      invariant RowsDisplay(acct.mapping, acct.rows[..i], parse, quotes) == Some(lines)
    {
      var outcome := NormalizeRow(acct.mapping, acct.rows[i], parse, quotes);
      DisplayStep(acct.mapping, acct.rows, i, parse, quotes);
      if outcome.Raised? {
        assert acct.rows[..n][..i + 1] == acct.rows[..i + 1];
        RaisedStaysRaised(acct.mapping, acct.rows[..n], i + 1, parse, quotes);
        return None;
      }
      if outcome.Shown? {
        lines := lines + [outcome.line];
      }
      i := i + 1;
    }
    assert n > 0 ==> acct.rows[..i] == acct.rows[..|acct.rows| - 1];
    part := Some(lines);
  }

  lemma DisplayStep(m: ColumnMapping, rows: seq<Row>, i: nat, parse: Parser, quotes: Quotes)
    requires i < |rows|
    ensures RowsDisplay(m, rows[..i + 1], parse, quotes) ==
      var prev := RowsDisplay(m, rows[..i], parse, quotes);
      if prev.None? then None
      else match NormalizeRow(m, rows[i], parse, quotes)
        case Raised => None
        case Skipped => prev
        case Shown(line) => Some(prev.value + [line])
  {
    assert rows[..i + 1][..i] == rows[..i];
  }

  /** Once a row has raised, no later row changes the outcome. */
  lemma {:induction false} RaisedStaysRaised(m: ColumnMapping, rows: seq<Row>, i: nat, parse: Parser, quotes: Quotes)
    requires i <= |rows| && RowsDisplay(m, rows[..i], parse, quotes).None?
    ensures RowsDisplay(m, rows, parse, quotes).None?
  {
    if i < |rows| {
      assert rows[..|rows| - 1][..i] == rows[..i];
      RaisedStaysRaised(m, rows[..|rows| - 1], i, parse, quotes);
    } else {
      assert rows[..i] == rows;
    }
  }

  lemma {:induction false} RaisedAccountStaysRaised(accounts: seq<Account>, a: nat, parse: Parser, quotes: Quotes)
    requires 0 < a <= |accounts| && AccountDisplay(accounts[a - 1], parse, quotes).None?
    ensures AllDisplay(accounts, parse, quotes).None?
  {
    if a < |accounts| {
      RaisedAccountStaysRaised(accounts[..|accounts| - 1], a, parse, quotes);
    } else {
      assert accounts[..|accounts| - 1] + [accounts[a - 1]] == accounts;
    }
  }

  /** The subtotal row never reaches the table, whatever it holds. */
  lemma SubtotalRowNeverShown(acct: Account, rows: seq<Row>, subtotal: Row, parse: Parser, quotes: Quotes)
    ensures AccountDisplay(acct.(rows := rows + [subtotal]), parse, quotes) == RowsDisplay(acct.mapping, rows, parse, quotes)
  {
    assert (rows + [subtotal])[..|rows|] == rows;
  }

  /** A row whose symbol cell is missing is skipped and changes nothing. */
  lemma MissingSymbolSkipped(m: ColumnMapping, rows: seq<Row>, row: Row, parse: Parser, quotes: Quotes)
    requires m.symbol < |row| && row[m.symbol].Missing?
    ensures RowsDisplay(m, rows + [row], parse, quotes) == RowsDisplay(m, rows, parse, quotes)
  {
    assert (rows + [row])[..|rows|] == rows;
  }

  /** A row with a missing money or allocation cell is skipped: `float("None")` raises a
      ValueError inside the handler. */
  lemma MissingFigureSkipsRow(m: ColumnMapping, row: Row, parse: Parser, quotes: Quotes)
    requires m.symbol < |row|
    requires || (m.equity < |row| && row[m.equity].Missing?)
             || (m.cost < |row| && row[m.cost].Missing?)
             || (m.gl < |row| && row[m.gl].Missing?)
             || (m.allocation.Some? && m.allocation.value < |row| && row[m.allocation.value].Missing?)
    ensures NormalizeRow(m, row, parse, quotes) == Skipped
  {
  }

  /** Python's sum over a column of the table. */
  function SumEquity(lines: seq<DisplayRow>): real {
    if |lines| == 0 then 0.0 else SumEquity(lines[..|lines| - 1]) + lines[|lines| - 1].equity
  }

  function SumDividends(lines: seq<DisplayRow>): real {
    if |lines| == 0 then 0.0 else SumDividends(lines[..|lines| - 1]) + lines[|lines| - 1].annualDividend
  }

  /** The portfolio dividend yield shown beside the table: total dividend income over total
      equity, in percent, or 0 when the equity is not positive. */
  function PortfolioYield(lines: seq<DisplayRow>): real {
    PercentOf(SumDividends(lines), SumEquity(lines))
  }

  /** Between the equity-weighted bounds: 100 times the income lies between the lowest and the
      highest yield applied to the total equity. */
  lemma {:induction false} IncomeBetween(lines: seq<DisplayRow>, lo: real, hi: real)
    requires Consistent(lines)
    requires forall k :: 0 <= k < |lines| ==> lines[k].equity >= 0.0 && lo <= lines[k].dividendYield <= hi
    ensures lo * SumEquity(lines) <= SumDividends(lines) * 100.0 <= hi * SumEquity(lines)
  {
    if |lines| > 0 {
      var p, l := lines[..|lines| - 1], lines[|lines| - 1];
      assert forall k :: 0 <= k < |p| ==> p[k] == lines[k];
      IncomeBetween(p, lo, hi);
      assert l.annualDividend == AnnualDividend(l.equity, l.dividendYield);
      IncomeStep(SumEquity(p), SumDividends(p), l.equity, l.dividendYield, l.annualDividend,
                 SumEquity(lines), SumDividends(lines), lo, hi);
    } else {
      NoIncome(SumEquity(lines), SumDividends(lines), lo, hi);
    }
  }

  /** One more line keeps the income between the bounds. */
  lemma IncomeStep(total: real, income: real, e: real, y: real, a: real, total': real, income': real, lo: real, hi: real)
    requires lo * total <= income * 100.0 <= hi * total
    requires a == AnnualDividend(e, y) && e >= 0.0 && lo <= y <= hi
    requires total' == total + e && income' == income + a
    ensures lo * total' <= income' * 100.0 <= hi * total'
  {
    assert a * 100.0 == e * y;
    MultiplyBounds(e, lo, y, hi);
    assert lo * (total + e) == lo * total + lo * e;
    assert hi * (total + e) == hi * total + hi * e;
  }

  lemma NoIncome(total: real, income: real, lo: real, hi: real)
    requires total == 0.0 && income == 0.0
    ensures lo * total <= income * 100.0 <= hi * total
  {
  }

  lemma MultiplyBounds(e: real, lo: real, y: real, hi: real)
    requires e >= 0.0 && lo <= y <= hi
    ensures lo * e <= e * y <= hi * e
  {
  }

  /** The portfolio yield is an equity-weighted average: it lies between the smallest and the
      largest yield of the table's lines when the table holds positive equity. */
  lemma PortfolioYieldIsWeightedAverage(lines: seq<DisplayRow>, lo: real, hi: real)
    requires Consistent(lines)
    requires forall k :: 0 <= k < |lines| ==> lines[k].equity >= 0.0 && lo <= lines[k].dividendYield <= hi
    requires SumEquity(lines) > 0.0
    ensures lo <= PortfolioYield(lines) <= hi
  {
    IncomeBetween(lines, lo, hi);
    var e, y := SumEquity(lines), PortfolioYield(lines);
    assert y * e == SumDividends(lines) * 100.0;
    assert (y - lo) * e == y * e - lo * e;
    assert (hi - y) * e == hi * e - y * e;
    NonNegativeFactor(y - lo, e);
    NonNegativeFactor(hi - y, e);
  }

  lemma NonNegativeFactor(a: real, e: real)
    requires e > 0.0 && a * e >= 0.0
    ensures a >= 0.0
  {
    assert a == a * e / e;
  }
}
