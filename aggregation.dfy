/** Merging the holdings of all accounts into one position per symbol and recomputing the
    allocations (backend.py `portfolio_analysis`, lines 247-369). */
module Aggregation {
  import opened Wrappers
  import opened Text
  import opened Holdings

  /** The numeric fields that are summed or totalled. */
  datatype Field = Equity | Cost | GainLoss | AnnualDividend | Allocation

  function Get(h: Holding, f: Field): real {
    match f
    case Equity => h.equity
    case Cost => h.cost
    case GainLoss => h.gainLoss
    case AnnualDividend => h.annualDividend
    case Allocation => h.allocation
  }

  /** Python's `sum(h[f] for h in hs)`. */
  function Total(hs: seq<Holding>, f: Field): real {
    if |hs| == 0 then 0.0 else Total(hs[..|hs| - 1], f) + Get(hs[|hs| - 1], f)
  }

  /** The sum of a field over the holdings of one symbol. */
  function SumOf(hs: seq<Holding>, s: string, f: Field): real {
    if |hs| == 0 then 0.0
    else SumOf(hs[..|hs| - 1], s, f) + (if hs[|hs| - 1].symbol == s then Get(hs[|hs| - 1], f) else 0.0)
  }

  predicate HasSymbol(hs: seq<Holding>, s: string) {
    exists i :: 0 <= i < |hs| && hs[i].symbol == s
  }

  /** Index `i` holds the first holding of symbol `s`. */
  predicate IsFirstAt(hs: seq<Holding>, s: string, i: int) {
    0 <= i < |hs| && hs[i].symbol == s && forall j :: 0 <= j < i ==> hs[j].symbol != s
  }

  /** The first holding of a symbol. */
  function FirstOf(hs: seq<Holding>, s: string): (r: Option<Holding>)
    ensures r.Some? <==> HasSymbol(hs, s)
    ensures r.Some? ==> r.value.symbol == s
  {
    if |hs| == 0 then None
    else
      var p := hs[..|hs| - 1];
      var prev := FirstOf(p, s);
      if prev.Some? then
        assert HasSymbol(hs, s) by {
          var i :| 0 <= i < |p| && p[i].symbol == s;
          assert hs[i] == p[i];
        }
        prev
      else
        assert forall j :: 0 <= j < |p| ==> hs[j].symbol != s by {
          forall j | 0 <= j < |p| ensures hs[j].symbol != s {
            assert p[j] == hs[j];
          }
        }
        if hs[|hs| - 1].symbol == s then Some(hs[|hs| - 1]) else None
  }

  /** `FirstOf` finds the first holding of the symbol: every earlier holding has another symbol. */
  lemma {:induction false} FirstOfIsFirst(hs: seq<Holding>, s: string)
    requires HasSymbol(hs, s)
    ensures exists i :: IsFirstAt(hs, s, i) && hs[i] == FirstOf(hs, s).value
  {
    var p := hs[..|hs| - 1];
    if FirstOf(p, s).Some? {
      FirstOfIsFirst(p, s);
      var i :| IsFirstAt(p, s, i) && p[i] == FirstOf(p, s).value;
      FirstAtOfPrefix(hs, p, s, i);
      assert FirstOf(hs, s) == FirstOf(p, s);
    } else {
      forall j | 0 <= j < |p| ensures hs[j].symbol != s {
        assert p[j] == hs[j];
      }
      assert IsFirstAt(hs, s, |hs| - 1);
    }
  }

  /** The first holding of a symbol in a prefix is its first holding in the whole list. */
  lemma FirstAtOfPrefix(hs: seq<Holding>, p: seq<Holding>, s: string, i: int)
    requires p <= hs && IsFirstAt(p, s, i)
    ensures IsFirstAt(hs, s, i) && hs[i] == p[i]
  {
    forall j | 0 <= j < i ensures hs[j].symbol != s {
      assert hs[j] == p[j];
    }
  }

  /** The distinct symbols in order of first appearance (the keys of the merged dictionary, in
      insertion order). */
  function Symbols(hs: seq<Holding>): (r: seq<string>)
    ensures forall i, j :: 0 <= i < j < |r| ==> r[i] != r[j]
    ensures forall s :: s in r <==> HasSymbol(hs, s)
  {
    if |hs| == 0 then []
    else
      var prev := Symbols(hs[..|hs| - 1]);
      var s := hs[|hs| - 1].symbol;
      var r := if s in prev then prev else prev + [s];
      assert forall t :: t in r <==> HasSymbol(hs, t) by {
        forall t ensures t in r <==> HasSymbol(hs, t) {
          if HasSymbol(hs, t) && t != s {
            var i :| 0 <= i < |hs| && hs[i].symbol == t;
            assert hs[..|hs| - 1][i].symbol == t;
          }
          if t in prev {
            var i :| 0 <= i < |hs| - 1 && hs[..|hs| - 1][i].symbol == t;
            assert hs[i].symbol == t;
          }
        }
      }
      r
  }

  /** The accounts label of a merged holding: the first account, then every further account
      whose name is not already a substring of the label, joined by ", ". */
  function Label(hs: seq<Holding>, s: string): string {
    if |hs| == 0 then ""
    else
      var prev := Label(hs[..|hs| - 1], s);
      var h := hs[|hs| - 1];
      if h.symbol != s then prev
      else if FirstOf(hs[..|hs| - 1], s).None? then h.account
      else if IsSubstring(h.account, prev) then prev
      else prev + ", " + h.account
  }

  /** A merged holding of symbol `h.symbol` built from `hs`: money fields summed, return
      recomputed from the sums, name and dividend figures of the first occurrence, accounts
      label as above. */
  ghost predicate MergedHolding(h: Holding, hs: seq<Holding>) {
    && FirstOf(hs, h.symbol).Some?
    && h.equity == SumOf(hs, h.symbol, Equity)
    && h.cost == SumOf(hs, h.symbol, Cost)
    && h.gainLoss == SumOf(hs, h.symbol, GainLoss)
    && h.returnPct == ReturnPct(h.gainLoss, h.cost)
    && h.name == FirstOf(hs, h.symbol).value.name
    && h.dividendYield == FirstOf(hs, h.symbol).value.dividendYield
    && h.annualDividend == FirstOf(hs, h.symbol).value.annualDividend
    && h.account == Label(hs, h.symbol)
  }

  /** Each holding's return is computed from its own gain and cost, as the row parser does. */
  predicate ConsistentReturns(hs: seq<Holding>) {
    forall k :: 0 <= k < |hs| ==> hs[k].returnPct == ReturnPct(hs[k].gainLoss, hs[k].cost)
  }

  // ---------------------------------------------------------------------------------------
  // The operation, phase by phase

  /** Phase 1: parse every row but each account's last, in account and row order. */
  method CollectHoldings(accounts: seq<Account>, parse: Parser, quotes: Quotes) returns (all: seq<Holding>)
    ensures all == AllHoldings(accounts, parse, quotes)
  {
    all := [];
    var a := 0;
    while a < |accounts|
      invariant 0 <= a <= |accounts|
      invariant all == AllHoldings(accounts[..a], parse, quotes)
    {
      var acct := accounts[a];
      ghost var before := all;
      var i := 0;
      while i < |acct.rows| - 1
        invariant 0 <= i <= if |acct.rows| == 0 then 0 else |acct.rows| - 1
        invariant all == before + RowsHoldings(acct.name, acct.mapping, acct.rows[..i], parse, quotes)
      {
        ghost var done := RowsHoldings(acct.name, acct.mapping, acct.rows[..i], parse, quotes);
        var h := ParseRow(acct.name, acct.mapping, acct.rows[i], parse, quotes);
        RowsStep(acct.name, acct.mapping, acct.rows, i, parse, quotes);
        if h.Some? {
          SeqAppendAssoc(before, done, [h.value]);
          all := all + [h.value];
        }
        i := i + 1;
      }
      AccountsStep(accounts, a, parse, quotes);
      assert |acct.rows| > 0 ==> acct.rows[..i] == acct.rows[..|acct.rows| - 1];
      a := a + 1;
    }
    assert accounts[..a] == accounts;
  }

  /** Phase 2: merge holdings of the same symbol into a dictionary keyed by symbol, remembering
      the order in which the keys were inserted. */
  method CombineDuplicates(all: seq<Holding>) returns (combined: map<string, Holding>, order: seq<string>)
    requires ConsistentReturns(all)
    ensures order == Symbols(all)
    ensures forall s :: s in combined <==> s in order
    ensures forall s :: s in combined ==>
      combined[s].symbol == s && MergedHolding(combined[s], all) &&
      combined[s].allocation == FirstOf(all, s).value.allocation
  {
    combined, order := map[], [];
    var j := 0;
    while j < |all|
      invariant 0 <= j <= |all|
      invariant Combination(combined, order, all[..j])
    {
      var h := all[j];
      assert all[..j + 1] == all[..j] + [h];
      if h.symbol !in combined {
        InsertNew(combined, order, all[..j], h);
        combined := combined[h.symbol := h];
        order := order + [h.symbol];
      } else {
        MergeExisting(combined, order, all[..j], h);
        combined := combined[h.symbol := Merge(combined[h.symbol], h)];
      }
      assert Combination(combined, order, all[..j + 1]);
      j := j + 1;
    }
    assert all[..j] == all;
  }

  /** The state of the merge after the holdings `hs`. */
  ghost predicate Combination(combined: map<string, Holding>, order: seq<string>, hs: seq<Holding>) {
    && order == Symbols(hs)
    && (forall s :: s in combined <==> s in order)
    && (forall s :: s in combined ==>
         combined[s].symbol == s && MergedHolding(combined[s], hs) &&
         combined[s].allocation == FirstOf(hs, s).value.allocation)
  }

  lemma InsertNew(combined: map<string, Holding>, order: seq<string>, hs: seq<Holding>, h: Holding)
    requires Combination(combined, order, hs) && h.symbol !in combined
    requires h.returnPct == ReturnPct(h.gainLoss, h.cost)
    ensures Combination(combined[h.symbol := h], order + [h.symbol], hs + [h])
  {
    AppendFacts(hs, h);
    SumAbsent(hs, h.symbol);
    var c' := combined[h.symbol := h];
    forall s | s in c'
      ensures c'[s].symbol == s && MergedHolding(c'[s], hs + [h]) && c'[s].allocation == FirstOf(hs + [h], s).value.allocation
    {
      if s != h.symbol {
        assert c'[s] == combined[s];
      }
    }
  }

  lemma MergeExisting(combined: map<string, Holding>, order: seq<string>, hs: seq<Holding>, h: Holding)
    requires Combination(combined, order, hs) && h.symbol in combined
    ensures Combination(combined[h.symbol := Merge(combined[h.symbol], h)], order, hs + [h])
  {
    AppendFacts(hs, h);
    var c' := combined[h.symbol := Merge(combined[h.symbol], h)];
    forall s | s in c'
      ensures c'[s].symbol == s && MergedHolding(c'[s], hs + [h]) && c'[s].allocation == FirstOf(hs + [h], s).value.allocation
    {
      if s != h.symbol {
        assert c'[s] == combined[s];
      }
    }
  }

  /** Folding one more holding `h` into the merged holding `c` of its symbol: money fields added,
      return recomputed from the new sums, `h`'s account appended to the label unless the label
      already contains it; name, dividend figures and allocation stay those of `c`. */
  function Merge(c: Holding, h: Holding): (r: Holding)
    ensures r.symbol == c.symbol && r.name == c.name && r.allocation == c.allocation
    ensures r.dividendYield == c.dividendYield && r.annualDividend == c.annualDividend
    ensures r.equity == c.equity + h.equity && r.cost == c.cost + h.cost && r.gainLoss == c.gainLoss + h.gainLoss
    ensures r.returnPct == ReturnPct(r.gainLoss, r.cost)
    ensures IsSubstring(h.account, c.account) ==> r.account == c.account
    ensures !IsSubstring(h.account, c.account) ==> r.account == c.account + ", " + h.account
  {
    var equity := c.equity + h.equity;
    var cost := c.cost + h.cost;
    var gainLoss := c.gainLoss + h.gainLoss;
    var account := if IsSubstring(h.account, c.account) then c.account else c.account + ", " + h.account;
    c.(equity := equity, cost := cost, gainLoss := gainLoss, returnPct := ReturnPct(gainLoss, cost), account := account)
  }

  /** Phase 3: the merged dictionary's values in insertion order, every allocation replaced by the
      holding's share of the total equity. */
  method AssignAllocations(merged: seq<Holding>) returns (result: seq<Holding>, total: real)
    ensures total == Total(merged, Equity)
    ensures |result| == |merged|
    ensures forall i :: 0 <= i < |result| ==>
      result[i] == merged[i].(allocation := PercentOf(merged[i].equity, total))
  {
    total := Total(merged, Equity);
    result := merged;
    var i := 0;
    while i < |result|
      invariant 0 <= i <= |result| == |merged|
      invariant forall k :: 0 <= k < i ==> result[k] == merged[k].(allocation := PercentOf(merged[k].equity, total))
      invariant forall k :: i <= k < |result| ==> result[k] == merged[k]
    {
      result := result[i := result[i].(allocation := PercentOf(result[i].equity, total))];
      i := i + 1;
    }
  }

  /** The aggregation: one holding per symbol, in order of first appearance, each the merge of
      every kept row of that symbol; the total equity is conserved by merging; allocations are
      shares of that total; and the portfolio dividend yield is the merged dividend income over
      the total. */
  method PortfolioAnalysis(accounts: seq<Account>, parse: Parser, quotes: Quotes)
    returns (holdings: seq<Holding>, total: real, portfolioYield: real)
    ensures var kept := AllHoldings(accounts, parse, quotes);
      && |holdings| == |Symbols(kept)|
      && (forall i :: 0 <= i < |holdings| ==> holdings[i].symbol == Symbols(kept)[i] && MergedHolding(holdings[i], kept))
      && total == Total(kept, Equity)
      && total == Total(holdings, Equity)
      && (forall i :: 0 <= i < |holdings| ==> holdings[i].allocation == PercentOf(holdings[i].equity, total))
      && portfolioYield == PercentOf(Total(holdings, AnnualDividend), total)
  {
    var all := CollectHoldings(accounts, parse, quotes);
    AllHoldingsWellFormed(accounts, parse, quotes);
    var combined, order := CombineDuplicates(all);
    var merged := seq(|order|, i requires 0 <= i < |order| => combined[order[i]]);
    holdings, total := AssignAllocations(merged);
    MergedTotal(merged, order, all, Equity);
    SymbolsTotal(all, Equity);
    assert Total(holdings, Equity) == Total(merged, Equity) by {
      TotalIgnoresAllocation(holdings, merged, Equity);
    }
    portfolioYield := PercentOf(Total(holdings, AnnualDividend), total);
  }

  // ---------------------------------------------------------------------------------------
  // Facts about the specification functions

  /** Appending a holding changes only what concerns its own symbol. */
  lemma AppendFacts(hs: seq<Holding>, h: Holding)
    ensures (hs + [h])[..|hs|] == hs
    ensures forall t, f :: t != h.symbol ==> SumOf(hs + [h], t, f) == SumOf(hs, t, f)
    ensures forall f :: SumOf(hs + [h], h.symbol, f) == SumOf(hs, h.symbol, f) + Get(h, f)
    ensures forall t :: t != h.symbol ==> FirstOf(hs + [h], t) == FirstOf(hs, t) && Label(hs + [h], t) == Label(hs, t)
    ensures FirstOf(hs + [h], h.symbol) == if FirstOf(hs, h.symbol).Some? then FirstOf(hs, h.symbol) else Some(h)
    ensures Label(hs + [h], h.symbol) ==
      if FirstOf(hs, h.symbol).None? then h.account
      else if IsSubstring(h.account, Label(hs, h.symbol)) then Label(hs, h.symbol)
      else Label(hs, h.symbol) + ", " + h.account
  {
    assert (hs + [h])[..|hs|] == hs;
  }

  /** A symbol that does not occur sums to 0. */
  lemma {:induction false} SumAbsent(hs: seq<Holding>, s: string)
    requires !HasSymbol(hs, s)
    ensures forall f :: SumOf(hs, s, f) == 0.0
  {
    if |hs| > 0 {
      var p := hs[..|hs| - 1];
      assert !HasSymbol(p, s) by {
        forall i | 0 <= i < |p| ensures p[i].symbol != s {
          assert p[i] == hs[i];
        }
      }
      SumAbsent(p, s);
    }
  }

  /** The sum over a list of keys of the per-symbol sums. */
  function SumOverKeys(keys: seq<string>, hs: seq<Holding>, f: Field): real {
    if |keys| == 0 then 0.0 else SumOverKeys(keys[..|keys| - 1], hs, f) + SumOf(hs, keys[|keys| - 1], f)
  }

  lemma {:induction false} SumOverKeysAppend(keys: seq<string>, hs: seq<Holding>, h: Holding, f: Field)
    requires forall i, j :: 0 <= i < j < |keys| ==> keys[i] != keys[j]
    ensures SumOverKeys(keys, hs + [h], f) == SumOverKeys(keys, hs, f) + (if h.symbol in keys then Get(h, f) else 0.0)
  {
    if |keys| > 0 {
      var k' := keys[..|keys| - 1];
      SumOverKeysAppend(k', hs, h, f);
      SumOfAppend(hs, h, keys[|keys| - 1], f);
      assert h.symbol in keys <==> h.symbol in k' || h.symbol == keys[|keys| - 1];
      assert h.symbol in k' ==> h.symbol != keys[|keys| - 1];
    }
  }

  /** Conservation: summing each distinct symbol's total gives the total over all holdings. */
  lemma {:induction false} SymbolsTotal(hs: seq<Holding>, f: Field)
    ensures SumOverKeys(Symbols(hs), hs, f) == Total(hs, f)
  {
    if |hs| > 0 {
      SymbolsTotal(hs[..|hs| - 1], f);
      SymbolsTotalStep(hs[..|hs| - 1], hs[|hs| - 1], f);
      assert hs == hs[..|hs| - 1] + [hs[|hs| - 1]];
    }
  }

  lemma SymbolsTotalStep(p: seq<Holding>, h: Holding, f: Field)
    requires SumOverKeys(Symbols(p), p, f) == Total(p, f)
    ensures SumOverKeys(Symbols(p + [h]), p + [h], f) == Total(p + [h], f)
  {
    var keys := Symbols(p);
    assert (p + [h])[..|p|] == p;
    SumOverKeysAppend(keys, p, h, f);
    if h.symbol !in keys {
      SumOfAppend(p, h, h.symbol, f);
      SumAbsent(p, h.symbol);
      assert (keys + [h.symbol])[..|keys|] == keys;
    }
  }

  /** Appending a holding adds its field to its own symbol's sum only. */
  lemma SumOfAppend(hs: seq<Holding>, h: Holding, s: string, f: Field)
    ensures SumOf(hs + [h], s, f) == SumOf(hs, s, f) + (if h.symbol == s then Get(h, f) else 0.0)
  {
    assert (hs + [h])[..|hs|] == hs;
  }

  /** The merged list's total of a summed field is the sum over its keys. */
  lemma {:induction false} MergedTotal(merged: seq<Holding>, order: seq<string>, hs: seq<Holding>, f: Field)
    requires f == Equity || f == Cost || f == GainLoss
    requires |merged| == |order|
    requires forall i :: 0 <= i < |merged| ==> merged[i].symbol == order[i] && MergedHolding(merged[i], hs)
    ensures Total(merged, f) == SumOverKeys(order, hs, f)
  {
    if |merged| > 0 {
      MergedTotal(merged[..|merged| - 1], order[..|order| - 1], hs, f);
    }
  }

  /** Setting allocations leaves the other totals alone. */
  lemma {:induction false} TotalIgnoresAllocation(a: seq<Holding>, b: seq<Holding>, f: Field)
    requires f != Allocation
    requires |a| == |b| && forall i :: 0 <= i < |a| ==> a[i] == b[i].(allocation := a[i].allocation)
    ensures Total(a, f) == Total(b, f)
  {
    if |a| > 0 {
      TotalIgnoresAllocation(a[..|a| - 1], b[..|b| - 1], f);
    }
  }

  lemma RowsStep(account: string, m: ColumnMapping, rows: seq<Row>, i: nat, parse: Parser, quotes: Quotes)
    requires i < |rows|
    ensures var h := ParseRow(account, m, rows[i], parse, quotes);
      RowsHoldings(account, m, rows[..i + 1], parse, quotes) ==
      RowsHoldings(account, m, rows[..i], parse, quotes) + (if h.Some? then [h.value] else [])
  {
    assert rows[..i + 1][..i] == rows[..i];
  }

  lemma AccountsStep(accounts: seq<Account>, a: nat, parse: Parser, quotes: Quotes)
    requires a < |accounts|
    ensures AllHoldings(accounts[..a + 1], parse, quotes) ==
      AllHoldings(accounts[..a], parse, quotes) + AccountHoldings(accounts[a], parse, quotes)
  {
    assert accounts[..a + 1][..a] == accounts[..a];
  }

  // ---------------------------------------------------------------------------------------
  // Properties of the merge

  lemma {:induction false} SumOfConcat(a: seq<Holding>, b: seq<Holding>, s: string, f: Field)
    ensures SumOf(a + b, s, f) == SumOf(a, s, f) + SumOf(b, s, f)
  {
    if |b| == 0 {
      assert a + b == a;
    } else {
      assert (a + b)[..|a + b| - 1] == a + b[..|b| - 1];
      SumOfConcat(a, b[..|b| - 1], s, f);
    }
  }

  /** The per-symbol sums do not depend on the order of the rows. */
  lemma {:induction false} SumOfPermutation(a: seq<Holding>, b: seq<Holding>, s: string, f: Field)
    requires multiset(a) == multiset(b)
    ensures SumOf(a, s, f) == SumOf(b, s, f)
  {
    if |a| == 0 {
      assert |multiset(b)| == 0;
    } else {
      var k := MatchLast(a, b);
      SumOfPermutation(a[..|a| - 1], b[..k] + b[k + 1..], s, f);
      SumOfWithout(b, k, s, f);
    }
  }

  /** Taking the holding at `k` out of a list takes its field out of its symbol's sum. */
  lemma SumOfWithout(b: seq<Holding>, k: nat, s: string, f: Field)
    requires k < |b|
    ensures SumOf(b, s, f) == SumOf(b[..k] + b[k + 1..], s, f) + (if b[k].symbol == s then Get(b[k], f) else 0.0)
  {
    var lo, x, hi := b[..k], b[k], b[k + 1..];
    assert b == lo + [x] + hi;
    SumOfConcat(lo + [x], hi, s, f);
    SumOfAppend(lo, x, s, f);
    SumOfConcat(lo, hi, s, f);
  }

  /** A merged holding's money fields are the sums over the rows of its symbol in any order. */
  lemma MergedSumsOrderFree(h: Holding, a: seq<Holding>, b: seq<Holding>)
    requires MergedHolding(h, a) && multiset(a) == multiset(b)
    ensures h.equity == SumOf(b, h.symbol, Equity)
    ensures h.cost == SumOf(b, h.symbol, Cost)
    ensures h.gainLoss == SumOf(b, h.symbol, GainLoss)
  {
    SumOfPermutation(a, b, h.symbol, Equity);
    SumOfPermutation(a, b, h.symbol, Cost);
    SumOfPermutation(a, b, h.symbol, GainLoss);
  }

  /** Every allocation being a share of `total` makes the allocations add up to the equity's share. */
  lemma {:induction false} AllocationShares(hs: seq<Holding>, total: real)
    requires total > 0.0
    requires forall i :: 0 <= i < |hs| ==> hs[i].allocation == PercentOf(hs[i].equity, total)
    ensures Total(hs, Allocation) * total == Total(hs, Equity) * 100.0
  {
    if |hs| > 0 {
      var p, h := hs[..|hs| - 1], hs[|hs| - 1];
      AllocationShares(p, total);
      calc {
        Total(hs, Allocation) * total;
        (Total(p, Allocation) + h.allocation) * total;
        Total(p, Allocation) * total + h.allocation * total;
        Total(p, Equity) * 100.0 + h.equity * 100.0;
        Total(hs, Equity) * 100.0;
      }
    }
  }

  /** When the total equity is positive the allocations sum to exactly 100. */
  lemma AllocationsSumTo100(hs: seq<Holding>, total: real)
    requires total > 0.0 && total == Total(hs, Equity)
    requires forall i :: 0 <= i < |hs| ==> hs[i].allocation == PercentOf(hs[i].equity, total)
    ensures Total(hs, Allocation) == 100.0
  {
    AllocationShares(hs, total);
    assert (Total(hs, Allocation) - 100.0) * total == 0.0;
  }

  /** The accounts label of a symbol contains the account of every holding of that symbol. */
  lemma {:induction false} LabelListsEveryAccount(hs: seq<Holding>, s: string)
    ensures forall k :: 0 <= k < |hs| && hs[k].symbol == s ==> IsSubstring(hs[k].account, Label(hs, s))
  {
    if |hs| > 0 {
      var p, h := hs[..|hs| - 1], hs[|hs| - 1];
      LabelListsEveryAccount(p, s);
      var prev := Label(p, s);
      forall k | 0 <= k < |hs| && hs[k].symbol == s
        ensures IsSubstring(hs[k].account, Label(hs, s))
      {
        if k < |p| {
          assert hs[k] == p[k];
          SubstringOfConcat(hs[k].account, prev, ", " + h.account);
          assert prev + ", " + h.account == prev + (", " + h.account);
          assert p[k].symbol == s;
        } else {
          SubstringOfSelf(h.account);
          SubstringOfConcat(h.account, prev + ", ", h.account);
        }
      }
    }
  }
}
