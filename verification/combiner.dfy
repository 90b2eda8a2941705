/**
  The combined table (main.py:579-652): the totals summary outer-merged
  with the max summary on COMPANY, the materiality threshold applied
  again, the per-share average of each side's max transaction, and the
  column ordering.
 */
module Combiner {
  import opened Wrappers
  import opened Text
  import opened Seqs
  import opened Sorting
  import opened Totals
  import opened MaxTransactions

  datatype CombinedRecord = CombinedRecord(totals: TotalsRecord, max: Option<MaxDisplay>,
                                           maxAvgBuy: real, maxAvgSell: real)

  /** The max record merged onto company `c`, when the max summary has one. */
  function FindMax(maxes: seq<MaxDisplay>, c: string): (r: Option<MaxDisplay>)
    ensures r.None? <==> forall k :: 0 <= k < |maxes| ==> maxes[k].company != Some(c)
    ensures r.Some? ==> r.value.company == Some(c)
    ensures r.Some? ==> exists k :: 0 <= k < |maxes| && maxes[k] == r.value
                          && forall l :: 0 <= l < k ==> maxes[l].company != Some(c)
  {
    if |maxes| == 0 then None
    else if maxes[0].company == Some(c) then Some(maxes[0])
    else
      var r := FindMax(maxes[1..], c);
      assert forall k :: 0 < k < |maxes| ==> maxes[k] == maxes[1..][k - 1];
      r
  }

  /** Max value over max shares, or 0 when the share count is not positive. */
  function MaxAvg(value: real, shares: int): (r: real)
    ensures shares > 0 ==> r * (shares as real) == value
    ensures shares <= 0 ==> r == 0.0
  {
    if shares > 0 then value / shares as real else 0.0
  }

  /** One merged row. Without a max record the share count is null and both averages are 0. */
  function Join(t: TotalsRecord, maxes: seq<MaxDisplay>): (r: CombinedRecord)
    ensures r.totals == t && r.max == FindMax(maxes, t.company)
    ensures r.max.None? ==> r.maxAvgBuy == 0.0 && r.maxAvgSell == 0.0
    ensures r.max.Some? ==> (r.maxAvgBuy == MaxAvg(r.max.value.buyValue, r.max.value.buyShares)
                             && r.maxAvgSell == MaxAvg(r.max.value.sellValue, r.max.value.sellShares))
  {
    var m := FindMax(maxes, t.company);
    match m
    case None => CombinedRecord(t, None, 0.0, 0.0)
    case Some(d) => CombinedRecord(t, m, MaxAvg(d.buyValue, d.buyShares), MaxAvg(d.sellValue, d.sellShares))
  }

  predicate SortedCombined(rows: seq<CombinedRecord>) {
    forall i, j :: 0 <= i < j < |rows| ==> Less(rows[i].totals.company, rows[j].totals.company)
  }

  /**
    The outer merge followed by the threshold. A company present only in
    the max summary has a null buy total, which fails `>= 9000000`, so
    exactly the totals rows at or above the threshold survive, each joined
    with its max record; built in totals order, the rows are already in
    the order `sort_values('COMPANY')` puts them.
   */
  function Combine(totals: seq<TotalsRecord>, maxes: seq<MaxDisplay>): (r: seq<CombinedRecord>)
    ensures forall k :: 0 <= k < |r| ==> r[k].totals in totals && r[k].totals.buyValue >= MATERIALITY_THRESHOLD
    ensures forall i :: 0 <= i < |totals| && totals[i].buyValue >= MATERIALITY_THRESHOLD ==>
              exists k :: 0 <= k < |r| && r[k].totals == totals[i]
    ensures forall k :: 0 <= k < |r| ==> r[k] == Join(r[k].totals, maxes)
    ensures SortedByCompany(totals) ==> SortedCombined(r)
  {
    var kept := Material(totals);
    var r := JoinAll(kept, maxes);
    forall i | 0 <= i < |totals| && totals[i].buyValue >= MATERIALITY_THRESHOLD
      ensures exists k :: 0 <= k < |r| && r[k].totals == totals[i] {
      var k :| 0 <= k < |kept| && kept[k] == totals[i];
      assert r[k].totals == kept[k];
    }
    r
  }

  /** Each kept totals row joined with its max record, in the same order. */
  function JoinAll(kept: seq<TotalsRecord>, maxes: seq<MaxDisplay>): (r: seq<CombinedRecord>)
    ensures |r| == |kept|
    ensures forall k :: 0 <= k < |r| ==> r[k].totals == kept[k] && r[k] == Join(kept[k], maxes)
    ensures SortedByCompany(kept) ==> SortedCombined(r)
  {
    seq(|kept|, k requires 0 <= k < |kept| => Join(kept[k], maxes))
  }

  /** The threshold is applied to the totals and again after the merge; the second pass removes nothing more. */
  lemma MaterialIdempotent(rows: seq<TotalsRecord>)
    ensures Material(Material(rows)) == Material(rows)
  {
    FilterAllPass((t: TotalsRecord) => t.buyValue >= MATERIALITY_THRESHOLD, Material(rows));
  }

  // ---------------------------------------------------------------------
  // Column order (main.py:611-652)

  const COMPANY := "COMPANY"
  const SYMBOL := "SYMBOL"

  const BUY_ORDER: seq<string> := [
    "Max Buy Date", "Max Buy Value", "Number of Max Buy Shares", "Max Avg Buy",
    "Delta Shareholding Buy", "Total Share Buys", "Total Value of Share Buy"
  ]

  const SELL_ORDER: seq<string> := [
    "Max Sell Date", "Max Sell Value", "Number of Max Sell Shares", "Max Avg Sell",
    "Delta Shareholding Sell", "Total Share Sells", "Total Value of Share Sell"
  ]

  predicate IsBuyColumn(c: string) {
    Contains(c, "Buy") || c == "Max Avg Buy"
  }

  predicate IsSellColumn(c: string) {
    Contains(c, "Sell") || c == "Max Avg Sell"
  }

  /**
    One side's columns: the present names of the fixed order, in that
    order, then the side's other columns in ascending order.
   */
  function SidePart(cols: seq<string>, isSide: string -> bool, order: seq<string>): seq<string> {
    var sideCols := Filter(isSide, cols);
    var fixed := Among(order, sideCols);
    fixed + Sort(Outside(sideCols, fixed))
  }

  /** `['COMPANY', 'SYMBOL'] + buy_cols_sorted + sell_cols_sorted + sorted(other_columns)` */
  function FullOrder(cols: seq<string>): seq<string> {
    var buyCols := Filter(IsBuyColumn, cols);
    var sellCols := Filter(IsSellColumn, cols);
    var others := Outside(cols, [COMPANY, SYMBOL] + buyCols + sellCols);
    [COMPANY, SYMBOL] + SidePart(cols, IsBuyColumn, BUY_ORDER)
      + SidePart(cols, IsSellColumn, SELL_ORDER) + Sort(others)
  }

  /** The combined table's column order, keeping only present columns; `ColumnOrderCorrect` states what it is. */
  function ColumnOrder(cols: seq<string>): seq<string> {
    Among(FullOrder(cols), cols)
  }

  /** A side column's place: its position in the fixed order, or after all of them. */
  function SideRank(c: string, order: seq<string>, base: nat): nat {
    if c in order then base + FirstIndex(order, c) else base + |order|
  }

  /**
    The group a column belongs to: COMPANY, SYMBOL, each fixed buy name,
    other buy columns, each fixed sell name, other sell columns, the rest.
   */
  function Rank(c: string): nat {
    if c == COMPANY then 0
    else if c == SYMBOL then 1
    else if IsBuyColumn(c) then SideRank(c, BUY_ORDER, 2)
    else if IsSellColumn(c) then SideRank(c, SELL_ORDER, 10)
    else 18
  }

  /** `x` comes before `y`: a lower group, or the same group and alphabetically first. */
  predicate Before(x: string, y: string) {
    Rank(x) < Rank(y) || (Rank(x) == Rank(y) && Less(x, y))
  }

  predicate RankOrdered(s: seq<string>) {
    forall i, j :: 0 <= i < j < |s| ==> Before(s[i], s[j])
  }

  /** No column is both a buy and a sell column; such a name would be listed twice. */
  predicate SidesDisjoint(cols: seq<string>) {
    forall i :: 0 <= i < |cols| ==> !(IsBuyColumn(cols[i]) && IsSellColumn(cols[i]))
  }

  lemma KeyColumnsHaveNoSide()
    ensures !IsBuyColumn(COMPANY) && !IsSellColumn(COMPANY)
    ensures !IsBuyColumn(SYMBOL) && !IsSellColumn(SYMBOL)
  {
    CompanyHasNoSide();
    SymbolHasNoSide();
  }

  lemma CompanyHasNoSide()
    ensures !IsBuyColumn(COMPANY) && !IsSellColumn(COMPANY)
  {
    var s := COMPANY;
    forall i | 0 <= i < |s| ensures s[i] != 'B' && s[i] != 'S' { }
    NotContainsHead(s, "Buy");
    NotContainsHead(s, "Sell");
  }

  lemma SymbolHasNoSide()
    ensures !IsBuyColumn(SYMBOL) && !IsSellColumn(SYMBOL)
  {
    var s := SYMBOL;
    forall i | 0 <= i < |s| - 1 ensures !(s[i] == 'B' && s[i + 1] == 'u') && !(s[i] == 'S' && s[i + 1] == 'e') { }
    NotContainsPair(s, "Buy");
    NotContainsPair(s, "Sell");
  }

  lemma OrdersDistinct()
    ensures NoDups(BUY_ORDER) && NoDups(SELL_ORDER)
  {
  }

  lemma RankOrderedNoDups(s: seq<string>)
    requires RankOrdered(s)
    ensures NoDups(s)
  {
    forall i, j | 0 <= i < j < |s| ensures s[i] != s[j] {
      if s[i] == s[j] { LessIrreflexive(s[i]); }
    }
  }

  predicate RanksIn(s: seq<string>, lo: nat, hi: nat) {
    forall i :: 0 <= i < |s| ==> lo <= Rank(s[i]) <= hi
  }

  lemma RankOrderedConcat(a: seq<string>, b: seq<string>, lo: nat, mid: nat, hi: nat)
    requires RankOrdered(a) && RankOrdered(b)
    requires lo <= mid < hi
    requires RanksIn(a, lo, mid) && RanksIn(b, mid + 1, hi)
    ensures RankOrdered(a + b) && RanksIn(a + b, lo, hi)
  {
    var s := a + b;
    forall i, j | 0 <= i < j < |s| ensures Before(s[i], s[j]) {
      if j < |a| {
        assert s[i] == a[i] && s[j] == a[j];
      } else if i < |a| {
        assert s[i] == a[i] && s[j] == b[j - |a|];
      } else {
        assert s[i] == b[i - |a|] && s[j] == b[j - |a|];
      }
    }
    forall i | 0 <= i < |s| ensures lo <= Rank(s[i]) <= hi {
      if i < |a| { assert s[i] == a[i]; } else { assert s[i] == b[i - |a|]; }
    }
  }

  /** A strictly increasing run of names of one group is ordered. */
  lemma SameRankOrdered(r: seq<string>, g: nat)
    requires StrictlySorted(r)
    requires forall i :: 0 <= i < |r| ==> Rank(r[i]) == g
    ensures RankOrdered(r)
  {
  }

  /** Sorted distinct names of one group are ordered. */
  lemma SortedGroupOrdered(s: seq<string>, g: nat)
    requires NoDups(s)
    requires forall x :: x in s ==> Rank(x) == g
    ensures RankOrdered(Sort(s))
  {
    SortedGroup(s);
    var r := Sort(s);
    forall i | 0 <= i < |r| ensures Rank(r[i]) == g {
      assert r[i] in s;
    }
    SameRankOrdered(r, g);
  }

  /** Side ranks of the fixed names follow the fixed order. */
  lemma FixedOrdered(order: seq<string>, pool: seq<string>, base: nat)
    requires NoDups(order)
    ensures forall i, j :: 0 <= i < j < |Among(order, pool)| ==>
      SideRank(Among(order, pool)[i], order, base) < SideRank(Among(order, pool)[j], order, base)
  {
    forall i | 0 <= i < |order| ensures FirstIndex(order, order[i]) == i {
      FirstIndexDistinct(order, i);
    }
    var p := (x: string) => x in pool;
    assert Among(order, pool) == Filter(p, order);
    FilterPairwise(p, (x: string, y: string) => SideRank(x, order, base) < SideRank(y, order, base), order);
  }

  /** Side-rank order of a side part: the fixed names by rank, then the rest alphabetically. */
  predicate SideOrdered(part: seq<string>, order: seq<string>, base: nat) {
    forall i, j :: 0 <= i < j < |part| ==>
      SideRank(part[i], order, base) < SideRank(part[j], order, base)
      || (SideRank(part[i], order, base) == SideRank(part[j], order, base) && Less(part[i], part[j]))
  }

  lemma PartOrdered(fixed: seq<string>, rest: seq<string>, order: seq<string>, base: nat)
    requires forall i, j :: 0 <= i < j < |fixed| ==> SideRank(fixed[i], order, base) < SideRank(fixed[j], order, base)
    requires forall i :: 0 <= i < |fixed| ==> fixed[i] in order
    requires forall i :: 0 <= i < |rest| ==> rest[i] !in order
    requires StrictlySorted(rest)
    ensures SideOrdered(fixed + rest, order, base)
    ensures forall i :: 0 <= i < |fixed + rest| ==> base <= SideRank((fixed + rest)[i], order, base) <= base + |order|
  {
    var part := fixed + rest;
    forall i | 0 <= i < |fixed| ensures SideRank(fixed[i], order, base) < base + |order| {
      var k := FirstIndex(order, fixed[i]);
    }
    forall i, j | 0 <= i < j < |part| ensures
        SideRank(part[i], order, base) < SideRank(part[j], order, base)
        || (SideRank(part[i], order, base) == SideRank(part[j], order, base) && Less(part[i], part[j])) {
      if j < |fixed| {
        assert part[i] == fixed[i] && part[j] == fixed[j];
      } else if i < |fixed| {
        assert part[i] == fixed[i] && part[j] == rest[j - |fixed|];
      } else {
        assert part[i] == rest[i - |fixed|] && part[j] == rest[j - |fixed|];
      }
    }
    forall i | 0 <= i < |part| ensures base <= SideRank(part[i], order, base) <= base + |order| {
      if i < |fixed| { assert part[i] == fixed[i]; } else { assert part[i] == rest[i - |fixed|]; }
    }
  }

  lemma PartMembers(sideCols: seq<string>, order: seq<string>)
    ensures var fixed := Among(order, sideCols);
      var rest := Sort(Outside(sideCols, fixed));
      && (forall c :: c in fixed + rest <==> c in sideCols)
      && (forall i :: 0 <= i < |rest| ==> rest[i] !in order)
  {
    var fixed := Among(order, sideCols);
    var restCols := Outside(sideCols, fixed);
    var rest := Sort(restCols);
    SortSameElements(restCols);
    forall c | c in sideCols ensures c in fixed + rest {
      var i :| 0 <= i < |sideCols| && sideCols[i] == c;
      if c in order {
        var k :| 0 <= k < |order| && order[k] == c;
      }
    }
    forall i | 0 <= i < |rest| ensures rest[i] !in order {
      assert rest[i] in restCols;
    }
  }

  /**
    One side's part: exactly that side's columns, each once, in the order
    of their side ranks (names of equal rank alphabetically).
   */
  lemma SidePartCorrect(cols: seq<string>, isSide: string -> bool, order: seq<string>, base: nat)
    requires NoDups(cols) && NoDups(order)
    ensures forall c :: c in SidePart(cols, isSide, order) <==> c in cols && isSide(c)
    ensures SideOrdered(SidePart(cols, isSide, order), order, base)
    ensures forall i :: 0 <= i < |SidePart(cols, isSide, order)| ==>
              base <= SideRank(SidePart(cols, isSide, order)[i], order, base) <= base + |order|
  {
    var sideCols := Filter(isSide, cols);
    var fixed := Among(order, sideCols);
    var restCols := Outside(sideCols, fixed);
    var rest := Sort(restCols);
    assert SidePart(cols, isSide, order) == fixed + rest;
    FilterNoDups(isSide, cols);
    SortSameElements(restCols);
    SortedDistinctIsStrict(rest);
    FixedOrdered(order, sideCols, base);
    PartMembers(sideCols, order);
    PartOrdered(fixed, rest, order, base);
  }

  lemma RankOfBuy(c: string)
    requires IsBuyColumn(c)
    ensures Rank(c) == SideRank(c, BUY_ORDER, 2)
  {
    KeyColumnsHaveNoSide();
    assert c != COMPANY && c != SYMBOL;
  }

  lemma RankOfSell(c: string)
    requires IsSellColumn(c) && !IsBuyColumn(c)
    ensures Rank(c) == SideRank(c, SELL_ORDER, 10)
  {
    KeyColumnsHaveNoSide();
    assert c != COMPANY && c != SYMBOL;
  }

  /** The `k`-th name of a duplicate-free fixed order is ranked `base + k`. */
  lemma SideRankAt(order: seq<string>, k: nat, base: nat)
    requires NoDups(order) && k < |order|
    ensures SideRank(order[k], order, base) == base + k
  {
    FirstIndexDistinct(order, k);
  }

  lemma SideRankOrdered(part: seq<string>, order: seq<string>, base: nat)
    requires SideOrdered(part, order, base)
    requires forall i :: 0 <= i < |part| ==> Rank(part[i]) == SideRank(part[i], order, base)
    ensures RankOrdered(part)
  {
    forall i, j | 0 <= i < j < |part| ensures Before(part[i], part[j]) {
    }
  }

  lemma BuyPartRanked(cols: seq<string>)
    requires NoDups(cols)
    ensures var part := SidePart(cols, IsBuyColumn, BUY_ORDER);
      && (forall c :: c in part <==> c in cols && IsBuyColumn(c))
      && RankOrdered(part) && RanksIn(part, 2, 9)
  {
    var part := SidePart(cols, IsBuyColumn, BUY_ORDER);
    OrdersDistinct();
    SidePartCorrect(cols, IsBuyColumn, BUY_ORDER, 2);
    KeyColumnsHaveNoSide();
    forall i | 0 <= i < |part| ensures Rank(part[i]) == SideRank(part[i], BUY_ORDER, 2) {
      assert part[i] in part;
      RankOfBuy(part[i]);
    }
    SideRankOrdered(part, BUY_ORDER, 2);
  }

  lemma SellPartRanked(cols: seq<string>)
    requires NoDups(cols) && SidesDisjoint(cols)
    ensures var part := SidePart(cols, IsSellColumn, SELL_ORDER);
      && (forall c :: c in part <==> c in cols && IsSellColumn(c))
      && RankOrdered(part) && RanksIn(part, 10, 17)
  {
    var part := SidePart(cols, IsSellColumn, SELL_ORDER);
    OrdersDistinct();
    SidePartCorrect(cols, IsSellColumn, SELL_ORDER, 10);
    KeyColumnsHaveNoSide();
    forall i | 0 <= i < |part| ensures Rank(part[i]) == SideRank(part[i], SELL_ORDER, 10) {
      assert part[i] in part;
      var k :| 0 <= k < |cols| && cols[k] == part[i];
      RankOfSell(part[i]);
    }
    SideRankOrdered(part, SELL_ORDER, 10);
  }

  lemma OthersRanked(cols: seq<string>)
    requires NoDups(cols)
    ensures var others := Outside(cols, [COMPANY, SYMBOL] + Filter(IsBuyColumn, cols) + Filter(IsSellColumn, cols));
      && (forall c :: c in others <==> c in cols && c != COMPANY && c != SYMBOL && !IsBuyColumn(c) && !IsSellColumn(c))
      && NoDups(others)
      && forall x :: x in others ==> Rank(x) == 18
  {
    var buyCols := Filter(IsBuyColumn, cols);
    var sellCols := Filter(IsSellColumn, cols);
    var taken := [COMPANY, SYMBOL] + buyCols + sellCols;
    var others := Outside(cols, taken);
    forall c | c in cols && c != COMPANY && c != SYMBOL && !IsBuyColumn(c) && !IsSellColumn(c) ensures c in others {
      var k :| 0 <= k < |cols| && cols[k] == c;
      assert c !in buyCols && c !in sellCols;
    }
    forall c | c in others ensures c != COMPANY && c != SYMBOL && !IsBuyColumn(c) && !IsSellColumn(c) {
      var k :| 0 <= k < |cols| && cols[k] == c;
      assert c !in taken;
    }
  }

  lemma HeadRanked()
    ensures RankOrdered([COMPANY, SYMBOL]) && RanksIn([COMPANY, SYMBOL], 0, 1)
  {
    assert Rank(COMPANY) == 0;
    assert Rank(SYMBOL) == 1;
    var head := [COMPANY, SYMBOL];
    assert head[0] == COMPANY && head[1] == SYMBOL;
  }

  lemma FullOrderRanked(cols: seq<string>)
    requires NoDups(cols) && SidesDisjoint(cols)
    ensures RankOrdered(FullOrder(cols))
  {
    var others := Outside(cols, [COMPANY, SYMBOL] + Filter(IsBuyColumn, cols) + Filter(IsSellColumn, cols));
    var head: seq<string> := [COMPANY, SYMBOL];
    var buyPart := SidePart(cols, IsBuyColumn, BUY_ORDER);
    var sellPart := SidePart(cols, IsSellColumn, SELL_ORDER);
    var rest := Sort(others);
    assert FullOrder(cols) == head + buyPart + sellPart + rest;
    BuyPartRanked(cols);
    SellPartRanked(cols);
    OthersRanked(cols);
    SortedGroupOrdered(others, 18);
    SortSameElements(others);
    HeadRanked();
    assert RanksIn(rest, 18, 18) by {
      forall i | 0 <= i < |rest| ensures Rank(rest[i]) == 18 { assert rest[i] in others; }
    }
    RankOrderedConcat(head, buyPart, 0, 1, 9);
    RankOrderedConcat(head + buyPart, sellPart, 0, 9, 17);
    RankOrderedConcat(head + buyPart + sellPart, rest, 0, 17, 18);
  }

  lemma FullOrderCovers(cols: seq<string>)
    requires NoDups(cols) && SidesDisjoint(cols)
    ensures forall i :: 0 <= i < |cols| ==> cols[i] in FullOrder(cols)
  {
    var taken := [COMPANY, SYMBOL] + Filter(IsBuyColumn, cols) + Filter(IsSellColumn, cols);
    var others := Outside(cols, taken);
    var buyPart := SidePart(cols, IsBuyColumn, BUY_ORDER);
    var sellPart := SidePart(cols, IsSellColumn, SELL_ORDER);
    var rest := Sort(others);
    assert FullOrder(cols) == [COMPANY, SYMBOL] + buyPart + sellPart + rest;
    OrdersDistinct();
    SidePartCorrect(cols, IsBuyColumn, BUY_ORDER, 2);
    SidePartCorrect(cols, IsSellColumn, SELL_ORDER, 10);
    SortSameElements(others);
    CoveredByParts(cols, taken, others, buyPart, sellPart, rest);
  }

  lemma CoveredByParts(cols: seq<string>, taken: seq<string>, others: seq<string>,
                       buyPart: seq<string>, sellPart: seq<string>, rest: seq<string>)
    requires taken == [COMPANY, SYMBOL] + Filter(IsBuyColumn, cols) + Filter(IsSellColumn, cols)
    requires forall i :: 0 <= i < |cols| && cols[i] !in taken ==> cols[i] in others
    requires forall c :: c in buyPart <==> c in cols && IsBuyColumn(c)
    requires forall c :: c in sellPart <==> c in cols && IsSellColumn(c)
    requires multiset(rest) == multiset(others)
    ensures forall i :: 0 <= i < |cols| ==> cols[i] in [COMPANY, SYMBOL] + buyPart + sellPart + rest
  {
    forall i | 0 <= i < |cols| ensures cols[i] in [COMPANY, SYMBOL] + buyPart + sellPart + rest {
      var c := cols[i];
      if c == COMPANY || c == SYMBOL {
        HeadCovered(c, buyPart, sellPart, rest);
      } else if IsBuyColumn(c) {
        assert c in buyPart;
      } else if IsSellColumn(c) {
        assert c in sellPart;
      } else {
        NotTaken(c, cols);
        assert c in multiset(rest);
      }
    }
  }

  lemma HeadCovered(c: string, a: seq<string>, b: seq<string>, d: seq<string>)
    requires c == COMPANY || c == SYMBOL
    ensures c in [COMPANY, SYMBOL] + a + b + d
  {
    var full := [COMPANY, SYMBOL] + a + b + d;
    assert full[0] == COMPANY && full[1] == SYMBOL;
  }

  /** A column that is neither a key nor on either side is one of the others. */
  lemma NotTaken(c: string, cols: seq<string>)
    requires c != COMPANY && c != SYMBOL && !IsBuyColumn(c) && !IsSellColumn(c)
    ensures c !in [COMPANY, SYMBOL] + Filter(IsBuyColumn, cols) + Filter(IsSellColumn, cols)
  {
    var b, s := Filter(IsBuyColumn, cols), Filter(IsSellColumn, cols);
    assert c !in b && c !in s;
    assert c !in [COMPANY, SYMBOL];
  }

  /**
    The combined table's columns are a rearrangement of the merged
    table's columns: COMPANY, then SYMBOL, then the buy columns (the
    present fixed names in their fixed order, then any other buy column
    alphabetically), then the sell columns likewise, then every remaining
    column alphabetically.
   */
  lemma ColumnOrderCorrect(cols: seq<string>)
    requires NoDups(cols) && SidesDisjoint(cols)
    ensures multiset(ColumnOrder(cols)) == multiset(cols)
    ensures RankOrdered(ColumnOrder(cols))
  {
    var order := FullOrder(cols);
    var r := ColumnOrder(cols);
    FullOrderRanked(cols);
    FullOrderCovers(cols);
    var inCols := (x: string) => x in cols;
    assert r == Filter(inCols, order);
    FilterPairwise(inCols, (x: string, y: string) => Before(x, y), order);
    RankOrderedNoDups(r);
    DistinctPermutation(r, cols);
  }

  // ---------------------------------------------------------------------
  // Which side each fixed column name belongs to

  lemma MaxBuyDateSide()
    ensures IsBuyColumn("Max Buy Date") && !IsSellColumn("Max Buy Date")
  {
    var s := "Max Buy Date";
    assert s[4..7] == "Buy";
    ContainsAt(s, "Buy", 4);
    forall i | 0 <= i < |s| - 1 ensures !(s[i] == 'S' && s[i + 1] == 'e') { }
    NotContainsPair(s, "Sell");
  }

  lemma MaxBuyValueSide()
    ensures IsBuyColumn("Max Buy Value") && !IsSellColumn("Max Buy Value")
  {
    var s := "Max Buy Value";
    assert s[4..7] == "Buy";
    ContainsAt(s, "Buy", 4);
    forall i | 0 <= i < |s| - 1 ensures !(s[i] == 'S' && s[i + 1] == 'e') { }
    NotContainsPair(s, "Sell");
  }

  lemma NumberOfMaxBuySharesSide()
    ensures IsBuyColumn("Number of Max Buy Shares") && !IsSellColumn("Number of Max Buy Shares")
  {
    var s := "Number of Max Buy Shares";
    assert s[14..17] == "Buy";
    ContainsAt(s, "Buy", 14);
    forall i | 0 <= i < |s| - 1 ensures !(s[i] == 'S' && s[i + 1] == 'e') { }
    NotContainsPair(s, "Sell");
  }

  lemma MaxAvgBuySide()
    ensures IsBuyColumn("Max Avg Buy") && !IsSellColumn("Max Avg Buy")
  {
    var s := "Max Avg Buy";
    assert s[8..11] == "Buy";
    ContainsAt(s, "Buy", 8);
    forall i | 0 <= i < |s| - 1 ensures !(s[i] == 'S' && s[i + 1] == 'e') { }
    NotContainsPair(s, "Sell");
  }

  lemma DeltaShareholdingBuySide()
    ensures IsBuyColumn("Delta Shareholding Buy") && !IsSellColumn("Delta Shareholding Buy")
  {
    var s := "Delta Shareholding Buy";
    assert s[19..22] == "Buy";
    ContainsAt(s, "Buy", 19);
    forall i | 0 <= i < |s| - 1 ensures !(s[i] == 'S' && s[i + 1] == 'e') { }
    NotContainsPair(s, "Sell");
  }

  lemma TotalShareBuysSide()
    ensures IsBuyColumn("Total Share Buys") && !IsSellColumn("Total Share Buys")
  {
    var s := "Total Share Buys";
    assert s[12..15] == "Buy";
    ContainsAt(s, "Buy", 12);
    forall i | 0 <= i < |s| - 1 ensures !(s[i] == 'S' && s[i + 1] == 'e') { }
    NotContainsPair(s, "Sell");
  }

  lemma TotalValueOfShareBuySide()
    ensures IsBuyColumn("Total Value of Share Buy") && !IsSellColumn("Total Value of Share Buy")
  {
    var s := "Total Value of Share Buy";
    assert s[21..24] == "Buy";
    ContainsAt(s, "Buy", 21);
    forall i | 0 <= i < |s| - 1 ensures !(s[i] == 'S' && s[i + 1] == 'e') { }
    NotContainsPair(s, "Sell");
  }

  lemma MaxSellDateSide()
    ensures IsSellColumn("Max Sell Date") && !IsBuyColumn("Max Sell Date")
  {
    var s := "Max Sell Date";
    assert s[4..8] == "Sell";
    ContainsAt(s, "Sell", 4);
    forall i | 0 <= i < |s| - 1 ensures !(s[i] == 'B' && s[i + 1] == 'u') { }
    NotContainsPair(s, "Buy");
  }

  lemma MaxSellValueSide()
    ensures IsSellColumn("Max Sell Value") && !IsBuyColumn("Max Sell Value")
  {
    var s := "Max Sell Value";
    assert s[4..8] == "Sell";
    ContainsAt(s, "Sell", 4);
    forall i | 0 <= i < |s| - 1 ensures !(s[i] == 'B' && s[i + 1] == 'u') { }
    NotContainsPair(s, "Buy");
  }

  lemma NumberOfMaxSellSharesSide()
    ensures IsSellColumn("Number of Max Sell Shares") && !IsBuyColumn("Number of Max Sell Shares")
  {
    var s := "Number of Max Sell Shares";
    assert s[14..18] == "Sell";
    ContainsAt(s, "Sell", 14);
    forall i | 0 <= i < |s| - 1 ensures !(s[i] == 'B' && s[i + 1] == 'u') { }
    NotContainsPair(s, "Buy");
  }

  lemma MaxAvgSellSide()
    ensures IsSellColumn("Max Avg Sell") && !IsBuyColumn("Max Avg Sell")
  {
    var s := "Max Avg Sell";
    assert s[8..12] == "Sell";
    ContainsAt(s, "Sell", 8);
    forall i | 0 <= i < |s| - 1 ensures !(s[i] == 'B' && s[i + 1] == 'u') { }
    NotContainsPair(s, "Buy");
  }

  lemma DeltaShareholdingSellSide()
    ensures IsSellColumn("Delta Shareholding Sell") && !IsBuyColumn("Delta Shareholding Sell")
  {
    var s := "Delta Shareholding Sell";
    assert s[19..23] == "Sell";
    ContainsAt(s, "Sell", 19);
    forall i | 0 <= i < |s| - 1 ensures !(s[i] == 'B' && s[i + 1] == 'u') { }
    NotContainsPair(s, "Buy");
  }

  lemma TotalShareSellsSide()
    ensures IsSellColumn("Total Share Sells") && !IsBuyColumn("Total Share Sells")
  {
    var s := "Total Share Sells";
    assert s[12..16] == "Sell";
    ContainsAt(s, "Sell", 12);
    forall i | 0 <= i < |s| - 1 ensures !(s[i] == 'B' && s[i + 1] == 'u') { }
    NotContainsPair(s, "Buy");
  }

  lemma TotalValueOfShareSellSide()
    ensures IsSellColumn("Total Value of Share Sell") && !IsBuyColumn("Total Value of Share Sell")
  {
    var s := "Total Value of Share Sell";
    assert s[21..25] == "Sell";
    ContainsAt(s, "Sell", 21);
    forall i | 0 <= i < |s| - 1 ensures !(s[i] == 'B' && s[i + 1] == 'u') { }
    NotContainsPair(s, "Buy");
  }


  lemma BuyOrderSides(k: nat)
    requires k < |BUY_ORDER|
    ensures IsBuyColumn(BUY_ORDER[k]) && !IsSellColumn(BUY_ORDER[k])
  {
    if k == 0 {
      assert BUY_ORDER[k] == "Max Buy Date";
      MaxBuyDateSide();
    } else if k == 1 {
      assert BUY_ORDER[k] == "Max Buy Value";
      MaxBuyValueSide();
    } else if k == 2 {
      assert BUY_ORDER[k] == "Number of Max Buy Shares";
      NumberOfMaxBuySharesSide();
    } else if k == 3 {
      assert BUY_ORDER[k] == "Max Avg Buy";
      MaxAvgBuySide();
    } else if k == 4 {
      assert BUY_ORDER[k] == "Delta Shareholding Buy";
      DeltaShareholdingBuySide();
    } else if k == 5 {
      assert BUY_ORDER[k] == "Total Share Buys";
      TotalShareBuysSide();
    } else {
      assert BUY_ORDER[k] == "Total Value of Share Buy";
      TotalValueOfShareBuySide();
    }
  }

  lemma BuyOrderRank(k: nat)
    requires k < |BUY_ORDER|
    ensures Rank(BUY_ORDER[k]) == 2 + k && !IsSellColumn(BUY_ORDER[k])
  {
    BuyOrderSides(k);
    OrdersDistinct();
    SideRankAt(BUY_ORDER, k, 2);
    RankOfBuy(BUY_ORDER[k]);
  }

  lemma SellOrderSides(k: nat)
    requires k < |SELL_ORDER|
    ensures IsSellColumn(SELL_ORDER[k]) && !IsBuyColumn(SELL_ORDER[k])
  {
    if k == 0 {
      assert SELL_ORDER[k] == "Max Sell Date";
      MaxSellDateSide();
    } else if k == 1 {
      assert SELL_ORDER[k] == "Max Sell Value";
      MaxSellValueSide();
    } else if k == 2 {
      assert SELL_ORDER[k] == "Number of Max Sell Shares";
      NumberOfMaxSellSharesSide();
    } else if k == 3 {
      assert SELL_ORDER[k] == "Max Avg Sell";
      MaxAvgSellSide();
    } else if k == 4 {
      assert SELL_ORDER[k] == "Delta Shareholding Sell";
      DeltaShareholdingSellSide();
    } else if k == 5 {
      assert SELL_ORDER[k] == "Total Share Sells";
      TotalShareSellsSide();
    } else {
      assert SELL_ORDER[k] == "Total Value of Share Sell";
      TotalValueOfShareSellSide();
    }
  }

  lemma SellOrderRank(k: nat)
    requires k < |SELL_ORDER|
    ensures Rank(SELL_ORDER[k]) == 10 + k && !IsBuyColumn(SELL_ORDER[k])
  {
    SellOrderSides(k);
    OrdersDistinct();
    SideRankAt(SELL_ORDER, k, 10);
    RankOfSell(SELL_ORDER[k]);
  }

  /** The combined table's columns as the pipeline produces them. */
  const COMBINED_COLUMNS: seq<string> := [COMPANY, SYMBOL] + BUY_ORDER + SELL_ORDER

  lemma CombinedColumnRank(i: nat)
    requires i < |COMBINED_COLUMNS|
    ensures Rank(COMBINED_COLUMNS[i]) == if i < 9 then i else i + 1
    ensures !(IsBuyColumn(COMBINED_COLUMNS[i]) && IsSellColumn(COMBINED_COLUMNS[i]))
  {
    if i < 2 {
      CombinedKeyRank(i);
    } else if i < 9 {
      CombinedBuyRank(i);
    } else {
      CombinedSellRank(i);
    }
  }

  lemma CombinedKeyRank(i: nat)
    requires i < 2
    ensures Rank(COMBINED_COLUMNS[i]) == i
    ensures !IsBuyColumn(COMBINED_COLUMNS[i]) && !IsSellColumn(COMBINED_COLUMNS[i])
  {
    KeyColumnsHaveNoSide();
    assert COMBINED_COLUMNS[0] == COMPANY && COMBINED_COLUMNS[1] == SYMBOL;
  }

  lemma CombinedBuyRank(i: nat)
    requires 2 <= i < 9
    ensures Rank(COMBINED_COLUMNS[i]) == i && !IsSellColumn(COMBINED_COLUMNS[i])
  {
    assert COMBINED_COLUMNS[i] == BUY_ORDER[i - 2];
    BuyOrderRank(i - 2);
  }

  lemma CombinedSellRank(i: nat)
    requires 9 <= i < 16
    ensures Rank(COMBINED_COLUMNS[i]) == i + 1 && !IsBuyColumn(COMBINED_COLUMNS[i])
  {
    assert COMBINED_COLUMNS[i] == SELL_ORDER[i - 9];
    SellOrderRank(i - 9);
  }

  lemma CombinedColumnsRanked()
    ensures RankOrdered(COMBINED_COLUMNS)
  {
    forall i, j | 0 <= i < j < |COMBINED_COLUMNS| ensures Before(COMBINED_COLUMNS[i], COMBINED_COLUMNS[j]) {
      CombinedColumnRank(i);
      CombinedColumnRank(j);
    }
  }

  /** Two rank-ordered sequences with the same elements are equal. */
  lemma {:induction false} RankOrderedUnique(a: seq<string>, b: seq<string>)
    requires RankOrdered(a) && RankOrdered(b)
    requires forall i :: 0 <= i < |a| ==> a[i] in b
    requires forall j :: 0 <= j < |b| ==> b[j] in a
    ensures a == b
  {
    if |a| > 0 {
      assert a[0] in b;
      RankOrderedHeads(a, b);
      RankOrderedTail(a);
      RankOrderedTail(b);
      TailsSameElements(a, b);
      RankOrderedUnique(a[1..], b[1..]);
      assert a == [a[0]] + a[1..] && b == [b[0]] + b[1..];
    }
  }

  lemma RankOrderedHeads(a: seq<string>, b: seq<string>)
    requires RankOrdered(a) && RankOrdered(b) && |a| > 0 && |b| > 0
    requires a[0] in b && b[0] in a
    ensures a[0] == b[0]
  {
    if a[0] != b[0] {
      var k :| 0 <= k < |b| && b[k] == a[0];
      var m :| 0 <= m < |a| && a[m] == b[0];
      assert Before(b[0], a[0]) && Before(a[0], b[0]);
      if Rank(a[0]) == Rank(b[0]) { LessAsymmetric(a[0], b[0]); }
    }
  }

  lemma RankOrderedTail(a: seq<string>)
    requires RankOrdered(a) && |a| > 0
    ensures RankOrdered(a[1..]) && NoDups(a)
  {
    RankOrderedNoDups(a);
    var a' := a[1..];
    forall i, j | 0 <= i < j < |a'| ensures Before(a'[i], a'[j]) { assert a'[i] == a[i + 1] && a'[j] == a[j + 1]; }
  }

  lemma TailsSameElements(a: seq<string>, b: seq<string>)
    requires NoDups(a) && NoDups(b) && |a| > 0 && |b| > 0 && a[0] == b[0]
    requires forall i :: 0 <= i < |a| ==> a[i] in b
    requires forall j :: 0 <= j < |b| ==> b[j] in a
    ensures forall i :: 0 <= i < |a[1..]| ==> a[1..][i] in b[1..]
    ensures forall j :: 0 <= j < |b[1..]| ==> b[1..][j] in a[1..]
  {
    var a', b' := a[1..], b[1..];
    forall i | 0 <= i < |a'| ensures a'[i] in b' {
      assert a'[i] == a[i + 1];
      var k :| 0 <= k < |b| && b[k] == a'[i];
      assert k != 0;
      assert b'[k - 1] == b[k];
    }
    forall j | 0 <= j < |b'| ensures b'[j] in a' {
      assert b'[j] == b[j + 1];
      var k :| 0 <= k < |a| && a[k] == b'[j];
      assert k != 0;
      assert a'[k - 1] == a[k];
    }
  }

  /** The max summary's columns after the merge key, in the order the records are built. */
  const MAX_COLUMNS: seq<string> := [
    "Max Buy Value", "Number of Max Buy Shares", "Max Buy Date",
    "Max Sell Value", "Number of Max Sell Shares", "Max Sell Date"
  ]

  const AVG_COLUMNS: seq<string> := ["Max Avg Buy", "Max Avg Sell"]

  /** The merged table's columns: the totals summary's, then the max summary's, then the two averages. */
  function MergedColumns(totalsColumns: seq<string>): seq<string> {
    totalsColumns + MAX_COLUMNS + AVG_COLUMNS
  }

  /** `m` lists the elements of `c` in the order `perm` gives, and `back` undoes `perm`. */
  lemma Permuted(m: seq<string>, c: seq<string>, perm: seq<nat>, back: seq<nat>)
    requires |perm| == |m| && |back| == |c| && NoDups(c)
    requires forall i :: 0 <= i < |m| ==> perm[i] < |c| && m[i] == c[perm[i]] && perm[i] < |back| && back[perm[i]] == i
    requires forall j :: 0 <= j < |c| ==> back[j] < |m| && m[back[j]] == c[j]
    ensures NoDups(m)
    ensures forall i :: 0 <= i < |m| ==> m[i] in c
    ensures forall j :: 0 <= j < |c| ==> c[j] in m
  {
  }

  /** The merged columns are a duplicate-free rearrangement of COMBINED_COLUMNS when `perm` maps them onto it. */
  lemma MergedFromPermutation(m: seq<string>, perm: seq<nat>, back: seq<nat>)
    requires |perm| == |m| && |back| == |COMBINED_COLUMNS|
    requires forall i :: 0 <= i < |m| ==> perm[i] < |COMBINED_COLUMNS| && m[i] == COMBINED_COLUMNS[perm[i]] && perm[i] < |back| && back[perm[i]] == i
    requires forall j :: 0 <= j < |COMBINED_COLUMNS| ==> back[j] < |m| && m[back[j]] == COMBINED_COLUMNS[j]
    ensures NoDups(m) && SidesDisjoint(m)
    ensures forall i :: 0 <= i < |m| ==> m[i] in COMBINED_COLUMNS
    ensures forall j :: 0 <= j < |COMBINED_COLUMNS| ==> COMBINED_COLUMNS[j] in m
  {
    CombinedColumnsRanked();
    RankOrderedNoDups(COMBINED_COLUMNS);
    Permuted(m, COMBINED_COLUMNS, perm, back);
    forall i | 0 <= i < |m| ensures !(IsBuyColumn(m[i]) && IsSellColumn(m[i])) {
      CombinedColumnRank(perm[i]);
    }
  }

  /** Where each merged column sits in COMBINED_COLUMNS when the totals summary leads with the buy side. */
  const BUY_FIRST_PERM: seq<nat> := [0, 1, 7, 8, 6, 14, 15, 13, 3, 4, 2, 10, 11, 9, 5, 12]
  const BUY_FIRST_BACK: seq<nat> := [0, 1, 10, 8, 9, 14, 4, 2, 3, 13, 11, 12, 15, 7, 5, 6]

  lemma BuyFirstForward()
    ensures forall i :: 0 <= i < 16 ==> BUY_FIRST_PERM[i] < 16 && MergedColumns(BUY_FIRST_COLUMNS)[i] == COMBINED_COLUMNS[BUY_FIRST_PERM[i]] && BUY_FIRST_BACK[BUY_FIRST_PERM[i]] == i
  {
    var m, c := MergedColumns(BUY_FIRST_COLUMNS), COMBINED_COLUMNS;
    forall i | 0 <= i < 16 ensures BUY_FIRST_PERM[i] < 16 && m[i] == c[BUY_FIRST_PERM[i]] && BUY_FIRST_BACK[BUY_FIRST_PERM[i]] == i {
      if i == 0 {
        assert m[0] == c[0];
      } else if i == 1 {
        assert m[1] == c[1];
      } else if i == 2 {
        assert m[2] == c[7];
      } else if i == 3 {
        assert m[3] == c[8];
      } else if i == 4 {
        assert m[4] == c[6];
      } else if i == 5 {
        assert m[5] == c[14];
      } else if i == 6 {
        assert m[6] == c[15];
      } else if i == 7 {
        assert m[7] == c[13];
      } else if i == 8 {
        assert m[8] == c[3];
      } else if i == 9 {
        assert m[9] == c[4];
      } else if i == 10 {
        assert m[10] == c[2];
      } else if i == 11 {
        assert m[11] == c[10];
      } else if i == 12 {
        assert m[12] == c[11];
      } else if i == 13 {
        assert m[13] == c[9];
      } else if i == 14 {
        assert m[14] == c[5];
      } else {
        assert m[15] == c[12];
      }
    }
  }

  lemma BuyFirstBackward()
    ensures forall j :: 0 <= j < 16 ==> BUY_FIRST_BACK[j] < 16 && MergedColumns(BUY_FIRST_COLUMNS)[BUY_FIRST_BACK[j]] == COMBINED_COLUMNS[j]
  {
    var m, c := MergedColumns(BUY_FIRST_COLUMNS), COMBINED_COLUMNS;
    forall j | 0 <= j < 16 ensures BUY_FIRST_BACK[j] < 16 && m[BUY_FIRST_BACK[j]] == c[j] {
      if j == 0 {
        assert m[0] == c[0];
      } else if j == 1 {
        assert m[1] == c[1];
      } else if j == 2 {
        assert m[10] == c[2];
      } else if j == 3 {
        assert m[8] == c[3];
      } else if j == 4 {
        assert m[9] == c[4];
      } else if j == 5 {
        assert m[14] == c[5];
      } else if j == 6 {
        assert m[4] == c[6];
      } else if j == 7 {
        assert m[2] == c[7];
      } else if j == 8 {
        assert m[3] == c[8];
      } else if j == 9 {
        assert m[13] == c[9];
      } else if j == 10 {
        assert m[11] == c[10];
      } else if j == 11 {
        assert m[12] == c[11];
      } else if j == 12 {
        assert m[15] == c[12];
      } else if j == 13 {
        assert m[7] == c[13];
      } else if j == 14 {
        assert m[5] == c[14];
      } else {
        assert m[6] == c[15];
      }
    }
  }

  lemma BuyFirstMerged()
    ensures var m := MergedColumns(BUY_FIRST_COLUMNS);
      && NoDups(m) && SidesDisjoint(m)
      && (forall i :: 0 <= i < |m| ==> m[i] in COMBINED_COLUMNS)
      && (forall j :: 0 <= j < |COMBINED_COLUMNS| ==> COMBINED_COLUMNS[j] in m)
  {
    BuyFirstForward();
    BuyFirstBackward();
    MergedFromPermutation(MergedColumns(BUY_FIRST_COLUMNS), BUY_FIRST_PERM, BUY_FIRST_BACK);
  }

  /** Where each merged column sits in COMBINED_COLUMNS when the totals summary leads with the sell side. */
  const SELL_FIRST_PERM: seq<nat> := [0, 1, 14, 15, 13, 7, 8, 6, 3, 4, 2, 10, 11, 9, 5, 12]
  const SELL_FIRST_BACK: seq<nat> := [0, 1, 10, 8, 9, 14, 7, 5, 6, 13, 11, 12, 15, 4, 2, 3]

  lemma SellFirstForward()
    ensures forall i :: 0 <= i < 16 ==> SELL_FIRST_PERM[i] < 16 && MergedColumns(SELL_FIRST_COLUMNS)[i] == COMBINED_COLUMNS[SELL_FIRST_PERM[i]] && SELL_FIRST_BACK[SELL_FIRST_PERM[i]] == i
  {
    var m, c := MergedColumns(SELL_FIRST_COLUMNS), COMBINED_COLUMNS;
    forall i | 0 <= i < 16 ensures SELL_FIRST_PERM[i] < 16 && m[i] == c[SELL_FIRST_PERM[i]] && SELL_FIRST_BACK[SELL_FIRST_PERM[i]] == i {
      if i == 0 {
        assert m[0] == c[0];
      } else if i == 1 {
        assert m[1] == c[1];
      } else if i == 2 {
        assert m[2] == c[14];
      } else if i == 3 {
        assert m[3] == c[15];
      } else if i == 4 {
        assert m[4] == c[13];
      } else if i == 5 {
        assert m[5] == c[7];
      } else if i == 6 {
        assert m[6] == c[8];
      } else if i == 7 {
        assert m[7] == c[6];
      } else if i == 8 {
        assert m[8] == c[3];
      } else if i == 9 {
        assert m[9] == c[4];
      } else if i == 10 {
        assert m[10] == c[2];
      } else if i == 11 {
        assert m[11] == c[10];
      } else if i == 12 {
        assert m[12] == c[11];
      } else if i == 13 {
        assert m[13] == c[9];
      } else if i == 14 {
        assert m[14] == c[5];
      } else {
        assert m[15] == c[12];
      }
    }
  }

  lemma SellFirstBackward()
    ensures forall j :: 0 <= j < 16 ==> SELL_FIRST_BACK[j] < 16 && MergedColumns(SELL_FIRST_COLUMNS)[SELL_FIRST_BACK[j]] == COMBINED_COLUMNS[j]
  {
    var m, c := MergedColumns(SELL_FIRST_COLUMNS), COMBINED_COLUMNS;
    forall j | 0 <= j < 16 ensures SELL_FIRST_BACK[j] < 16 && m[SELL_FIRST_BACK[j]] == c[j] {
      if j == 0 {
        assert m[0] == c[0];
      } else if j == 1 {
        assert m[1] == c[1];
      } else if j == 2 {
        assert m[10] == c[2];
      } else if j == 3 {
        assert m[8] == c[3];
      } else if j == 4 {
        assert m[9] == c[4];
      } else if j == 5 {
        assert m[14] == c[5];
      } else if j == 6 {
        assert m[7] == c[6];
      } else if j == 7 {
        assert m[5] == c[7];
      } else if j == 8 {
        assert m[6] == c[8];
      } else if j == 9 {
        assert m[13] == c[9];
      } else if j == 10 {
        assert m[11] == c[10];
      } else if j == 11 {
        assert m[12] == c[11];
      } else if j == 12 {
        assert m[15] == c[12];
      } else if j == 13 {
        assert m[4] == c[13];
      } else if j == 14 {
        assert m[2] == c[14];
      } else {
        assert m[3] == c[15];
      }
    }
  }

  lemma SellFirstMerged()
    ensures var m := MergedColumns(SELL_FIRST_COLUMNS);
      && NoDups(m) && SidesDisjoint(m)
      && (forall i :: 0 <= i < |m| ==> m[i] in COMBINED_COLUMNS)
      && (forall j :: 0 <= j < |COMBINED_COLUMNS| ==> COMBINED_COLUMNS[j] in m)
  {
    SellFirstForward();
    SellFirstBackward();
    MergedFromPermutation(MergedColumns(SELL_FIRST_COLUMNS), SELL_FIRST_PERM, SELL_FIRST_BACK);
  }

  /**
    Whichever side the totals summary leads with, the combined table's
    columns come out as COMPANY, SYMBOL, the seven buy columns in their
    fixed order and the seven sell columns in theirs.
   */
  lemma CombinedColumnOrder(totalsColumns: seq<string>)
    requires totalsColumns == BUY_FIRST_COLUMNS || totalsColumns == SELL_FIRST_COLUMNS
    ensures ColumnOrder(MergedColumns(totalsColumns)) == COMBINED_COLUMNS
  {
    if totalsColumns == BUY_FIRST_COLUMNS { BuyFirstMerged(); } else { SellFirstMerged(); }
    OrderOfCombinedSet(MergedColumns(totalsColumns));
  }

  /** Any duplicate-free column list holding exactly the combined table's names is ordered into `COMBINED_COLUMNS`. */
  lemma OrderOfCombinedSet(m: seq<string>)
    requires NoDups(m) && SidesDisjoint(m)
    requires forall i :: 0 <= i < |m| ==> m[i] in COMBINED_COLUMNS
    requires forall j :: 0 <= j < |COMBINED_COLUMNS| ==> COMBINED_COLUMNS[j] in m
    ensures ColumnOrder(m) == COMBINED_COLUMNS
  {
    ColumnOrderCorrect(m);
    CombinedColumnsRanked();
    var r := ColumnOrder(m);
    forall i | 0 <= i < |r| ensures r[i] in COMBINED_COLUMNS {
      assert r[i] in multiset(m);
    }
    forall j | 0 <= j < |COMBINED_COLUMNS| ensures COMBINED_COLUMNS[j] in r {
      assert COMBINED_COLUMNS[j] in multiset(r);
    }
    RankOrderedUnique(r, COMBINED_COLUMNS);
  }
}
