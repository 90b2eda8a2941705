/**
  The totals aggregator (main.py:362-435). Rows are split into buy and sell
  sides, each side is grouped by company with null-skipping sums and the
  first non-null symbol, the two sides are outer-merged with zero fill and
  sorted by company, and companies whose buy total is below the
  materiality threshold are dropped.
 */
module Totals {
  import opened Wrappers
  import opened Text
  import opened Seqs
  import opened Sorting
  import opened Transactions

  const MATERIALITY_THRESHOLD: real := 9000000.0

  datatype Measure = Shares | Value | ShareholdingDelta

  function MeasureOf(t: Txn, m: Measure): Option<real> {
    match m
    case Shares => t.shares
    case Value => t.value
    case ShareholdingDelta => Delta(t)
  }

  /** What one row adds to company `c`'s sum: nothing for other companies or a null cell. */
  function Part(t: Txn, c: string, m: Measure): real {
    if t.company == Some(c) then MeasureOf(t, m).GetOr(0.0) else 0.0
  }

  /** The reference sum: company `c`'s non-null cells of measure `m`, added up. */
  function SumOf(rows: seq<Txn>, c: string, m: Measure): real {
    if |rows| == 0 then 0.0 else Part(rows[0], c, m) + SumOf(rows[1..], c, m)
  }

  lemma {:induction false} SumOfSnoc(rows: seq<Txn>, t: Txn, c: string, m: Measure)
    ensures SumOf(rows + [t], c, m) == SumOf(rows, c, m) + Part(t, c, m)
  {
    if |rows| > 0 {
      assert (rows + [t])[1..] == rows[1..] + [t];
      SumOfSnoc(rows[1..], t, c, m);
    }
  }

  /** The companies named in `rows`; a null company belongs to no group. */
  function Companies(rows: seq<Txn>): set<string> {
    set i | 0 <= i < |rows| && rows[i].company.Some? :: rows[i].company.value
  }

  lemma CompaniesSnoc(rows: seq<Txn>, t: Txn)
    ensures Companies(rows + [t]) == Companies(rows) + (if t.company.Some? then {t.company.value} else {})
  {
    var r := rows + [t];
    forall c | c in Companies(r) ensures c in Companies(rows) || t.company == Some(c) {
      var i :| 0 <= i < |r| && r[i].company == Some(c);
      if i < |rows| { assert rows[i] == r[i]; }
    }
    forall c | c in Companies(rows) ensures c in Companies(r) {
      var i :| 0 <= i < |rows| && rows[i].company == Some(c);
      assert r[i] == rows[i];
    }
    if t.company.Some? {
      assert r[|rows|] == t;
    }
  }

  lemma {:induction false} CompaniesConcat(a: seq<Txn>, b: seq<Txn>)
    ensures Companies(a + b) == Companies(a) + Companies(b)
  {
    var r := a + b;
    forall c | c in Companies(r) ensures c in Companies(a) || c in Companies(b) {
      var i :| 0 <= i < |r| && r[i].company == Some(c);
      if i < |a| { assert a[i] == r[i]; } else { assert b[i - |a|] == r[i]; }
    }
    forall c | c in Companies(a) ensures c in Companies(r) {
      var i :| 0 <= i < |a| && a[i].company == Some(c);
      assert r[i] == a[i];
    }
    forall c | c in Companies(b) ensures c in Companies(r) {
      var i :| 0 <= i < |b| && b[i].company == Some(c);
      assert r[|a| + i] == b[i];
    }
  }

  /** A company with no rows sums to zero on every measure. */
  lemma {:induction false} SumOfAbsent(rows: seq<Txn>, c: string, m: Measure)
    requires c !in Companies(rows)
    ensures SumOf(rows, c, m) == 0.0
  {
    if |rows| > 0 {
      assert rows[0].company != Some(c);
      assert Companies(rows[1..]) <= Companies(rows) by {
        forall x | x in Companies(rows[1..]) ensures x in Companies(rows) {
          var i :| 0 <= i < |rows[1..]| && rows[1..][i].company == Some(x);
          assert rows[i + 1] == rows[1..][i];
        }
      }
      SumOfAbsent(rows[1..], c, m);
    }
  }

  /** pandas `first`: the first non-null symbol among company `c`'s rows. */
  function FirstSymbol(rows: seq<Txn>, c: string): (r: Option<string>)
    ensures r.None? <==> forall i :: 0 <= i < |rows| && rows[i].company == Some(c) ==> rows[i].symbol.None?
    ensures r.Some? ==> exists i :: 0 <= i < |rows| && rows[i].company == Some(c) && rows[i].symbol == r
                          && forall j :: 0 <= j < i && rows[j].company == Some(c) ==> rows[j].symbol.None?
  {
    if |rows| == 0 then None
    else if rows[0].company == Some(c) && rows[0].symbol.Some? then rows[0].symbol
    else
      var r := FirstSymbol(rows[1..], c);
      assert forall i :: 0 < i < |rows| ==> rows[i] == rows[1..][i - 1];
      r
  }

  lemma {:induction false} FirstSymbolSnoc(rows: seq<Txn>, t: Txn, c: string)
    ensures FirstSymbol(rows + [t], c)
         == if FirstSymbol(rows, c).Some? then FirstSymbol(rows, c)
            else if t.company == Some(c) then t.symbol else None
  {
    if |rows| > 0 {
      assert (rows + [t])[0] == rows[0];
      assert (rows + [t])[1..] == rows[1..] + [t];
      FirstSymbolSnoc(rows[1..], t, c);
    } else {
      assert [] + [t] == [t];
      assert [t][1..] == [];
    }
  }

  /** One company's group in `groupby('COMPANY').agg(...)`. */
  datatype Agg = Agg(symbol: Option<string>, shares: real, value: real, delta: real)

  const EMPTY_AGG := Agg(None, 0.0, 0.0, 0.0)

  /** What the group-by should hold for company `c`. */
  function Expected(rows: seq<Txn>, c: string): Agg {
    Agg(FirstSymbol(rows, c), SumOf(rows, c, Shares), SumOf(rows, c, Value), SumOf(rows, c, ShareholdingDelta))
  }

  /** Folds one row into the running groups. */
  function Accumulate(groups: map<string, Agg>, t: Txn): map<string, Agg> {
    match t.company
    case None => groups
    case Some(c) =>
      var prev := if c in groups then groups[c] else EMPTY_AGG;
      groups[c := Agg(if prev.symbol.Some? then prev.symbol else t.symbol,
                      prev.shares + t.shares.GetOr(0.0),
                      prev.value + t.value.GetOr(0.0),
                      prev.delta + Delta(t).GetOr(0.0))]
  }

  /** `groupby('COMPANY')` with `first` / `sum` aggregation, scanning rows in order. */
  function GroupByCompany(rows: seq<Txn>): map<string, Agg> {
    if |rows| == 0 then map[] else Accumulate(GroupByCompany(rows[..|rows| - 1]), rows[|rows| - 1])
  }

  lemma ExpectedAbsent(rows: seq<Txn>, c: string)
    requires c !in Companies(rows)
    ensures Expected(rows, c) == EMPTY_AGG
  {
    SumOfAbsent(rows, c, Shares);
    SumOfAbsent(rows, c, Value);
    SumOfAbsent(rows, c, ShareholdingDelta);
  }

  /** One fold step keeps the group-by equal to the reference definition. */
  lemma AccumulateStep(g: map<string, Agg>, p: seq<Txn>, t: Txn, c: string)
    requires forall x :: x in g <==> x in Companies(p)
    requires forall x :: x in g ==> g[x] == Expected(p, x)
    requires c in Accumulate(g, t)
    ensures Accumulate(g, t)[c] == Expected(p + [t], c)
  {
    SumOfSnoc(p, t, c, Shares);
    SumOfSnoc(p, t, c, Value);
    SumOfSnoc(p, t, c, ShareholdingDelta);
    FirstSymbolSnoc(p, t, c);
    if t.company == Some(c) {
      var prev := if c in g then g[c] else EMPTY_AGG;
      if c !in g { ExpectedAbsent(p, c); }
      assert prev == Expected(p, c);
    } else {
      assert Accumulate(g, t)[c] == g[c];
    }
  }

  /**
    The group-by has one group per non-null company, and each group holds
    that company's first non-null symbol and its null-skipping sums.
   */
  lemma {:induction false} GroupByCompanyCorrect(rows: seq<Txn>)
    ensures forall c :: c in GroupByCompany(rows) <==> c in Companies(rows)
    ensures forall c :: c in GroupByCompany(rows) ==> GroupByCompany(rows)[c] == Expected(rows, c)
  {
    if |rows| > 0 {
      var p := rows[..|rows| - 1];
      var t := rows[|rows| - 1];
      assert rows == p + [t];
      GroupByCompanyCorrect(p);
      CompaniesSnoc(p, t);
      var g := GroupByCompany(p);
      assert GroupByCompany(rows) == Accumulate(g, t);
      forall c | c in Accumulate(g, t) ensures Accumulate(g, t)[c] == Expected(p + [t], c) {
        AccumulateStep(g, p, t, c);
      }
    }
  }

  /** A company's group, or the zero fill of the outer merge when it has none. */
  function AggOr(groups: map<string, Agg>, c: string): Agg {
    if c in groups then groups[c] else EMPTY_AGG
  }

  lemma AggOrCorrect(rows: seq<Txn>, c: string)
    ensures AggOr(GroupByCompany(rows), c) == Expected(rows, c)
  {
    GroupByCompanyCorrect(rows);
    if c !in Companies(rows) { ExpectedAbsent(rows, c); }
  }

  /** The non-null companies of `rows`, each once, in order of first appearance. */
  function DistinctCompanies(rows: seq<Txn>): (r: seq<string>)
    ensures NoDups(r)
    ensures forall c :: c in r <==> c in Companies(rows)
  {
    if |rows| == 0 then []
    else
      var p := rows[..|rows| - 1];
      var t := rows[|rows| - 1];
      assert rows == p + [t];
      CompaniesSnoc(p, t);
      var d := DistinctCompanies(p);
      if t.company.Some? && t.company.value !in d then d + [t.company.value] else d
  }

  /** `astype(int)`: truncation toward zero. */
  function Truncate(x: real): (n: int)
    ensures x >= 0.0 ==> n as real <= x < n as real + 1.0
    ensures x < 0.0 ==> n as real - 1.0 < x <= n as real
  {
    if x >= 0.0 then x.Floor else -((-x).Floor)
  }

  /** One row of the transactions summary. */
  datatype TotalsRecord = TotalsRecord(company: string, symbol: Option<string>,
                                       buyShares: int, buyValue: real, buyDelta: real,
                                       sellShares: int, sellValue: real, sellDelta: real)

  datatype TotalsTable = TotalsTable(columns: seq<string>, rows: seq<TotalsRecord>)

  /** Column order when the buy summary is the left side of the merge (or stands alone). */
  const BUY_FIRST_COLUMNS: seq<string> := [
    "COMPANY", "SYMBOL",
    "Total Share Buys", "Total Value of Share Buy", "Delta Shareholding Buy",
    "Total Share Sells", "Total Value of Share Sell", "Delta Shareholding Sell"
  ]

  /** Column order when only sell rows exist and the buy columns are appended. */
  const SELL_FIRST_COLUMNS: seq<string> := [
    "COMPANY", "SYMBOL",
    "Total Share Sells", "Total Value of Share Sell", "Delta Shareholding Sell",
    "Total Share Buys", "Total Value of Share Buy", "Delta Shareholding Buy"
  ]

  /**
    Where a summary row's symbol comes from: the buy summary, the sell
    summary, or the buy summary back-filled from the whole table, which the
    source does for every company as soon as one merged symbol is null.
   */
  datatype SymbolSource = BuySide | SellSide | BuySideBackfilled

  function SymbolOf(src: SymbolSource, all: seq<Txn>, buy: map<string, Agg>, sell: map<string, Agg>, c: string): Option<string> {
    match src
    case BuySide => AggOr(buy, c).symbol
    case SellSide => AggOr(sell, c).symbol
    case BuySideBackfilled =>
      var mapped := AggOr(GroupByCompany(all), c).symbol;
      if mapped.Some? then mapped else AggOr(buy, c).symbol
  }

  function MakeRecord(c: string, symbol: Option<string>, buy: Agg, sell: Agg): TotalsRecord {
    TotalsRecord(c, symbol, Truncate(buy.shares), buy.value, buy.delta, Truncate(sell.shares), sell.value, sell.delta)
  }

  function BuildRows(keys: seq<string>, src: SymbolSource, all: seq<Txn>,
                     buy: map<string, Agg>, sell: map<string, Agg>): (r: seq<TotalsRecord>)
    ensures |r| == |keys|
    ensures forall k :: 0 <= k < |keys| ==> r[k].company == keys[k]
  {
    seq(|keys|, k requires 0 <= k < |keys| =>
      MakeRecord(keys[k], SymbolOf(src, all, buy, sell, keys[k]), AggOr(buy, keys[k]), AggOr(sell, keys[k])))
  }

  function SymbolSourceFor(keys: seq<string>, all: seq<Txn>, buy: map<string, Agg>, sell: map<string, Agg>): SymbolSource {
    if |buy| > 0 && |sell| > 0 then
      (if exists k :: 0 <= k < |keys| && AggOr(buy, keys[k]).symbol.None? then BuySideBackfilled else BuySide)
    else if |buy| > 0 then BuySide
    else SellSide
  }

  predicate SortedByCompany(rows: seq<TotalsRecord>) {
    forall i, j :: 0 <= i < j < |rows| ==> Less(rows[i].company, rows[j].company)
  }

  /**
    The merged transactions summary (main.py:370-423), before the
    materiality threshold; `TotalsCorrect` states what it holds.
   */
  function SummarizeTotals(all: seq<Txn>): TotalsTable {
    var buyRows := SideRows(all, Buy);
    var sellRows := SideRows(all, Sell);
    var buy := GroupByCompany(buyRows);
    var sell := GroupByCompany(sellRows);
    var keys := Sort(DistinctCompanies(buyRows + sellRows));
    var src := SymbolSourceFor(keys, all, buy, sell);
    var rows := if |buy| > 0 || |sell| > 0 then BuildRows(keys, src, all, buy, sell) else [];
    TotalsTable(if |buy| == 0 && |sell| > 0 then SELL_FIRST_COLUMNS else BUY_FIRST_COLUMNS, rows)
  }

  /**
    The summary has one row per company named on either side, sorted by
    company; each side's totals are that side's null-skipping sums (zero
    for a company with no rows on that side), share totals truncated to
    integers, and the delta is the sum of per-row deltas.
   */
  lemma TotalsCorrect(all: seq<Txn>)
    ensures var r := SummarizeTotals(all);
      && (forall c :: (exists k :: 0 <= k < |r.rows| && r.rows[k].company == c)
                      <==> c in Companies(SideRows(all, Buy)) || c in Companies(SideRows(all, Sell)))
      && SortedByCompany(r.rows)
      && forall k :: 0 <= k < |r.rows| ==> SideTotalsAre(r.rows[k], SideRows(all, Buy), SideRows(all, Sell))
  {
    var buyRows := SideRows(all, Buy);
    var sellRows := SideRows(all, Sell);
    var keys := Sort(DistinctCompanies(buyRows + sellRows));
    var r := SummarizeTotals(all);
    KeysAreCompanies(buyRows, sellRows);
    GroupsEmptyIff(buyRows, sellRows);
    var src := SymbolSourceFor(keys, all, GroupByCompany(buyRows), GroupByCompany(sellRows));
    var built := BuildRows(keys, src, all, GroupByCompany(buyRows), GroupByCompany(sellRows));
    BuiltRowsTotals(built, keys, src, all, buyRows, sellRows);
    if |keys| > 0 {
      assert r.rows == built;
      RowsOfKeys(built, keys, buyRows, sellRows);
    } else {
      assert r.rows == [];
      RowsOfKeys([], keys, buyRows, sellRows);
    }
  }

  /** Rows that follow a strictly sorted key list one to one carry exactly those companies, in order. */
  lemma RowsOfKeys(rows: seq<TotalsRecord>, keys: seq<string>, buyRows: seq<Txn>, sellRows: seq<Txn>)
    requires |rows| == |keys|
    requires forall k :: 0 <= k < |rows| ==> rows[k].company == keys[k]
    requires StrictlySorted(keys)
    requires forall c :: c in keys <==> c in Companies(buyRows) || c in Companies(sellRows)
    requires forall k :: 0 <= k < |rows| ==> SideTotalsAre(rows[k], buyRows, sellRows)
    ensures forall c :: (exists k :: 0 <= k < |rows| && rows[k].company == c)
                      <==> c in Companies(buyRows) || c in Companies(sellRows)
    ensures SortedByCompany(rows)
  {
    forall c ensures (exists k :: 0 <= k < |rows| && rows[k].company == c) <==> c in keys {
      if c in keys {
        var k :| 0 <= k < |keys| && keys[k] == c;
        assert rows[k].company == c;
      }
    }
  }

  /** Both sides' totals of one record, stated against the reference sums. */
  predicate SideTotalsAre(r: TotalsRecord, buyRows: seq<Txn>, sellRows: seq<Txn>) {
    && r.buyShares == Truncate(SumOf(buyRows, r.company, Shares))
    && r.buyValue == SumOf(buyRows, r.company, Value)
    && r.buyDelta == SumOf(buyRows, r.company, ShareholdingDelta)
    && r.sellShares == Truncate(SumOf(sellRows, r.company, Shares))
    && r.sellValue == SumOf(sellRows, r.company, Value)
    && r.sellDelta == SumOf(sellRows, r.company, ShareholdingDelta)
  }

  lemma KeysAreCompanies(buyRows: seq<Txn>, sellRows: seq<Txn>)
    ensures var keys := Sort(DistinctCompanies(buyRows + sellRows));
      && StrictlySorted(keys)
      && forall c :: c in keys <==> c in Companies(buyRows) || c in Companies(sellRows)
  {
    var d := DistinctCompanies(buyRows + sellRows);
    CompaniesConcat(buyRows, sellRows);
    SortSameElements(d);
    SortedDistinctIsStrict(Sort(d));
  }

  lemma GroupsEmptyIff(buyRows: seq<Txn>, sellRows: seq<Txn>)
    ensures (|GroupByCompany(buyRows)| > 0 || |GroupByCompany(sellRows)| > 0)
            <==> |Sort(DistinctCompanies(buyRows + sellRows))| > 0
  {
    GroupByCompanyCorrect(buyRows);
    GroupByCompanyCorrect(sellRows);
    KeysAreCompanies(buyRows, sellRows);
    var keys := Sort(DistinctCompanies(buyRows + sellRows));
    if |keys| > 0 {
      assert keys[0] in keys;
      assert keys[0] in GroupByCompany(buyRows) || keys[0] in GroupByCompany(sellRows);
    }
    if |GroupByCompany(buyRows)| > 0 {
      var c :| c in GroupByCompany(buyRows);
      assert c in keys;
    }
    if |GroupByCompany(sellRows)| > 0 {
      var c :| c in GroupByCompany(sellRows);
      assert c in keys;
    }
  }

  lemma BuiltRowsTotals(rows: seq<TotalsRecord>, keys: seq<string>, src: SymbolSource, all: seq<Txn>,
                        buyRows: seq<Txn>, sellRows: seq<Txn>)
    requires rows == BuildRows(keys, src, all, GroupByCompany(buyRows), GroupByCompany(sellRows))
    ensures forall k :: 0 <= k < |rows| ==> SideTotalsAre(rows[k], buyRows, sellRows)
  {
    forall k | 0 <= k < |rows| ensures SideTotalsAre(rows[k], buyRows, sellRows) {
      AggOrCorrect(buyRows, keys[k]);
      AggOrCorrect(sellRows, keys[k]);
    }
  }

  /**
    The source back-fills symbols when both sides have groups and some
    merged row has a null symbol, that is, some company has no non-null
    symbol among its buy rows (sell-only companies included).
   */
  ghost predicate NeedsBackfill(all: seq<Txn>) {
    var buyRows := SideRows(all, Buy);
    var sellRows := SideRows(all, Sell);
    && Companies(buyRows) != {} && Companies(sellRows) != {}
    && exists c :: (c in Companies(buyRows) || c in Companies(sellRows)) && FirstSymbol(buyRows, c).None?
  }

  lemma SymbolOfCorrect(src: SymbolSource, all: seq<Txn>, buyRows: seq<Txn>, sellRows: seq<Txn>, c: string)
    ensures var s := SymbolOf(src, all, GroupByCompany(buyRows), GroupByCompany(sellRows), c);
      match src
      case BuySide => s == FirstSymbol(buyRows, c)
      case SellSide => s == FirstSymbol(sellRows, c)
      case BuySideBackfilled => s == (if FirstSymbol(all, c).Some? then FirstSymbol(all, c) else FirstSymbol(buyRows, c))
  {
    AggOrCorrect(buyRows, c);
    AggOrCorrect(sellRows, c);
    AggOrCorrect(all, c);
  }

  lemma NonEmptyGroups(rows: seq<Txn>)
    ensures |GroupByCompany(rows)| > 0 <==> Companies(rows) != {}
  {
    GroupByCompanyCorrect(rows);
    if Companies(rows) != {} {
      var x :| x in Companies(rows);
      assert x in GroupByCompany(rows);
    }
    if |GroupByCompany(rows)| > 0 {
      var x :| x in GroupByCompany(rows);
      assert x in Companies(rows);
    }
  }

  lemma NullSymbolIff(buyRows: seq<Txn>, sellRows: seq<Txn>)
    ensures var keys := Sort(DistinctCompanies(buyRows + sellRows));
      (exists k :: 0 <= k < |keys| && AggOr(GroupByCompany(buyRows), keys[k]).symbol.None?)
      <==> exists c :: (c in Companies(buyRows) || c in Companies(sellRows)) && FirstSymbol(buyRows, c).None?
  {
    var buy := GroupByCompany(buyRows);
    var keys := Sort(DistinctCompanies(buyRows + sellRows));
    KeysAreCompanies(buyRows, sellRows);
    if exists k :: 0 <= k < |keys| && AggOr(buy, keys[k]).symbol.None? {
      var k :| 0 <= k < |keys| && AggOr(buy, keys[k]).symbol.None?;
      AggOrCorrect(buyRows, keys[k]);
      assert keys[k] in keys;
    }
    if exists c :: (c in Companies(buyRows) || c in Companies(sellRows)) && FirstSymbol(buyRows, c).None? {
      var c :| (c in Companies(buyRows) || c in Companies(sellRows)) && FirstSymbol(buyRows, c).None?;
      AggOrCorrect(buyRows, c);
      var k :| 0 <= k < |keys| && keys[k] == c;
      assert AggOr(buy, keys[k]).symbol.None?;
    }
  }

  lemma SourceSelection(all: seq<Txn>)
    ensures var buyRows := SideRows(all, Buy);
      var sellRows := SideRows(all, Sell);
      var src := SymbolSourceFor(Sort(DistinctCompanies(buyRows + sellRows)), all,
                                 GroupByCompany(buyRows), GroupByCompany(sellRows));
      src == if Companies(buyRows) == {} then SellSide
             else if NeedsBackfill(all) then BuySideBackfilled
             else BuySide
  {
    NonEmptyGroups(SideRows(all, Buy));
    NonEmptyGroups(SideRows(all, Sell));
    NullSymbolIff(SideRows(all, Buy), SideRows(all, Sell));
  }

  /**
    The symbol of every summary row: the first non-null symbol among the
    company's buy rows, or among its sell rows when no buy group exists;
    when a back-fill happens, the company's first non-null symbol over all
    transaction rows takes precedence wherever one exists.
   */
  lemma TotalsSymbol(all: seq<Txn>, k: nat)
    requires k < |SummarizeTotals(all).rows|
    ensures var r := SummarizeTotals(all).rows[k];
      var buyRows := SideRows(all, Buy);
      r.symbol == if Companies(buyRows) == {} then FirstSymbol(SideRows(all, Sell), r.company)
                  else if NeedsBackfill(all) && FirstSymbol(all, r.company).Some? then FirstSymbol(all, r.company)
                  else FirstSymbol(buyRows, r.company)
  {
    var buyRows := SideRows(all, Buy);
    var sellRows := SideRows(all, Sell);
    var keys := Sort(DistinctCompanies(buyRows + sellRows));
    var src := SymbolSourceFor(keys, all, GroupByCompany(buyRows), GroupByCompany(sellRows));
    GroupsEmptyIff(buyRows, sellRows);
    SourceSelection(all);
    assert SummarizeTotals(all).rows == BuildRows(keys, src, all, GroupByCompany(buyRows), GroupByCompany(sellRows));
    SymbolOfCorrect(src, all, buyRows, sellRows, keys[k]);
  }

  /**
    `transactions_summary[... >= 9000000]`: the threshold is inclusive, and
    the kept rows stay in their order with every copy of a kept row.
   */
  function Material(rows: seq<TotalsRecord>): (r: seq<TotalsRecord>)
    ensures forall i :: 0 <= i < |r| ==> r[i].buyValue >= MATERIALITY_THRESHOLD && r[i] in rows
    ensures forall i :: 0 <= i < |rows| && rows[i].buyValue >= MATERIALITY_THRESHOLD ==> rows[i] in r
    ensures SortedByCompany(rows) ==> SortedByCompany(r)
    ensures IsSubseq(r, rows)
    ensures forall x {:trigger multiset(r)[x]} :: multiset(r)[x] == if x.buyValue >= MATERIALITY_THRESHOLD then multiset(rows)[x] else 0
  {
    var p := (t: TotalsRecord) => t.buyValue >= MATERIALITY_THRESHOLD;
    FilterKeepsCompanyOrder(p, rows);
    FilterIsSubseq(p, rows);
    FilterCounts(p, rows);
    Filter(p, rows)
  }

  lemma FilterKeepsCompanyOrder(p: TotalsRecord -> bool, rows: seq<TotalsRecord>)
    ensures SortedByCompany(rows) ==> SortedByCompany(Filter(p, rows))
  {
    if SortedByCompany(rows) {
      FilterPairwise(p, (x: TotalsRecord, y: TotalsRecord) => Less(x.company, y.company), rows);
    }
  }

  /** Exactly 9,000,000 is kept; 8,999,999.99 is not. */
  lemma ThresholdBoundary(r: TotalsRecord)
    ensures r.buyValue == 9000000.0 ==> Material([r]) == [r]
    ensures r.buyValue == 8999999.99 ==> Material([r]) == []
  {
  }

  function Txn0(company: string, kind: string, value: real, prior: real, post: real): Txn {
    Txn(Some(company), Some("X"), kind, Some(1.0), Some(value), Some(prior), Some(post), None)
  }

  /**
    Buy rows worth 100 and 200 and a sell row worth 50 give totals 300 and
    50; deltas (1.0 -> 1.5) and (1.5 -> 1.8) sum to 0.8, not 1.8 - 1.0.
   */
  lemma TotalsExample()
    ensures var rows := [Txn0("X", "BUY", 100.0, 1.0, 1.5), Txn0("X", "BUY", 200.0, 1.5, 1.8), Txn0("X", "SELL", 50.0, 0.0, 0.0)];
      && SumOf(SideRows(rows, Buy), "X", Value) == 300.0
      && SumOf(SideRows(rows, Sell), "X", Value) == 50.0
      && SumOf(SideRows(rows, Buy), "X", ShareholdingDelta) == 0.8
  {
    var rows := [Txn0("X", "BUY", 100.0, 1.0, 1.5), Txn0("X", "BUY", 200.0, 1.5, 1.8), Txn0("X", "SELL", 50.0, 0.0, 0.0)];
    assert SideRows(rows, Buy) == rows[..2];
    assert SideRows(rows, Sell) == rows[2..];
  }
}
