/**
  The max-transaction aggregator (main.py:439-576): for every distinct
  company, the largest buy and sell value and the largest buy and sell
  share count with its date, then the fill step that turns nulls into 0
  and "N/A".
 */
module MaxTransactions {
  import opened Wrappers
  import opened Text
  import opened Seqs
  import opened Sorting
  import opened Transactions
  import Totals

  /** `Series.max()`: the largest non-null entry, null when every entry is null. */
  function MaxPresent(xs: seq<Option<real>>): (r: Option<real>)
    ensures r.None? <==> forall i :: 0 <= i < |xs| ==> xs[i].None?
    ensures r.Some? ==> r in xs
    ensures r.Some? ==> forall i :: 0 <= i < |xs| && xs[i].Some? ==> xs[i].value <= r.value
  {
    if |xs| == 0 then None
    else
      var rest := MaxPresent(xs[1..]);
      assert forall i :: 0 < i < |xs| ==> xs[i] == xs[1..][i - 1];
      match xs[0]
      case None => rest
      case Some(x) => if rest.Some? && rest.value > x then rest else Some(x)
  }

  /** `Series.idxmax()`: the first position holding the largest non-null entry. */
  function IdxMax(xs: seq<Option<real>>): (i: Option<nat>)
    ensures i.None? <==> forall k :: 0 <= k < |xs| ==> xs[k].None?
    ensures i.Some? ==> i.value < |xs| && xs[i.value].Some?
    ensures i.Some? ==> forall k :: 0 <= k < |xs| && xs[k].Some? ==> xs[k].value <= xs[i.value].value
    ensures i.Some? ==> forall k :: 0 <= k < i.value && xs[k].Some? ==> xs[k].value < xs[i.value].value
  {
    var m := MaxPresent(xs);
    if m.None? then None else Some(FirstIndex(xs, m))
  }

  function Values(rows: seq<Txn>): (vs: seq<Option<real>>)
    ensures |vs| == |rows| && forall i :: 0 <= i < |rows| ==> vs[i] == rows[i].value
  {
    seq(|rows|, i requires 0 <= i < |rows| => rows[i].value)
  }

  function ShareCounts(rows: seq<Txn>): (ss: seq<Option<real>>)
    ensures |ss| == |rows| && forall i :: 0 <= i < |rows| ==> ss[i] == rows[i].shares
  {
    seq(|rows|, i requires 0 <= i < |rows| => rows[i].shares)
  }

  /** Row `i` has the largest non-null share count. */
  predicate TopShares(rows: seq<Txn>, i: nat)
    requires i < |rows|
  {
    rows[i].shares.Some? && forall j :: 0 <= j < |rows| && rows[j].shares.Some? ==> rows[j].shares.value <= rows[i].shares.value
  }

  /**
    Row `i` is the max-by-shares row: it has the top share count and a
    non-null value that is the greatest among the rows at that count, and
    no earlier row at that count has the same value.
   */
  predicate IsMaxSharesChoice(rows: seq<Txn>, i: nat)
    requires i < |rows|
  {
    && TopShares(rows, i)
    && rows[i].value.Some?
    && (forall j :: 0 <= j < |rows| && rows[j].shares == rows[i].shares && rows[j].value.Some? ==>
          rows[j].value.value <= rows[i].value.value)
    && forall j :: 0 <= j < i && rows[j].shares == rows[i].shares ==> rows[j].value != rows[i].value
  }

  /**
    The row the source picks for "Number of Max ... Shares" and "Max ...
    Date": none when every share count is null or every row at the top
    count has a null value.
   */
  function MaxSharesRow(rows: seq<Txn>): (r: Option<nat>)
    ensures r.Some? ==> r.value < |rows| && IsMaxSharesChoice(rows, r.value)
    ensures r.Some? ==> rows[r.value].shares == MaxPresent(ShareCounts(rows))
    ensures r.None? <==> forall i :: 0 <= i < |rows| && TopShares(rows, i) ==> rows[i].value.None?
  {
    var top := MaxPresent(ShareCounts(rows));
    if top.None? then None
    else
      var tied := seq(|rows|, i requires 0 <= i < |rows| => if rows[i].shares == top then rows[i].value else None);
      var best := MaxPresent(tied);
      if best.None? then
        forall i | 0 <= i < |rows| && TopShares(rows, i) ensures rows[i].value.None? {
          var k :| 0 <= k < |rows| && ShareCounts(rows)[k] == top;
          assert rows[i].shares == top;
          assert tied[i] == rows[i].value;
        }
        None
      else
        var i := FirstIndex(tied, best);
        assert rows[i].shares == top;
        forall j | 0 <= j < |rows| && rows[j].shares == top ensures tied[j] == rows[j].value { }
        assert TopShares(rows, i);
        Some(i)
  }

  /** At most one row satisfies the max-by-shares choice. */
  lemma MaxSharesChoiceUnique(rows: seq<Txn>, i: nat, j: nat)
    requires i < |rows| && j < |rows|
    requires IsMaxSharesChoice(rows, i) && IsMaxSharesChoice(rows, j)
    ensures i == j
  {
    assert rows[i].shares == rows[j].shares;
    assert rows[i].value == rows[j].value;
  }

  /** One side of a company's max record, before the fill step. */
  datatype SideMax = SideMax(value: Option<real>, shares: Option<real>, date: Option<string>)

  /**
    The max value is the largest non-null value; the share count is the
    largest non-null share count, reported with the date of the
    max-by-shares row, and both are null when there is no such row.
   */
  function SideMaxOf(rows: seq<Txn>): (r: SideMax)
    ensures r.value == MaxPresent(Values(rows))
    ensures r.shares.None? <==> forall i :: 0 <= i < |rows| && TopShares(rows, i) ==> rows[i].value.None?
    ensures r.shares.Some? ==> r.shares == MaxPresent(ShareCounts(rows))
    ensures r.shares.Some? ==> exists i :: 0 <= i < |rows| && IsMaxSharesChoice(rows, i)
                                 && r.shares == rows[i].shares && r.date == rows[i].date
    ensures r.shares.None? ==> r.date.None?
  {
    var v := IdxMax(Values(rows));
    var s := MaxSharesRow(rows);
    SideMax(if v.Some? then rows[v.value].value else None,
            if s.Some? then rows[s.value].shares else None,
            if s.Some? then rows[s.value].date else None)
  }

  /**
    `buy_data_max[buy_data_max['COMPANY'] == company]`: a null company
    compares unequal to everything, so it gets no rows.
   */
  function CompanySideRows(txns: seq<Txn>, side: Side, company: Option<string>): (r: seq<Txn>)
    ensures company.None? ==> r == []
    ensures forall i :: 0 <= i < |r| ==> r[i] in txns && OnSide(r[i], side) && r[i].company == company
    ensures company.Some? ==> forall i :: 0 <= i < |txns| && OnSide(txns[i], side) && txns[i].company == company ==> txns[i] in r
    ensures IsSubseq(r, txns)
    ensures forall x {:trigger multiset(r)[x]} :: multiset(r)[x] == if company.Some? && OnSide(x, side) && x.company == company then multiset(txns)[x] else 0
  {
    if company.None? then []
    else
      var sideRows := SideRows(txns, side);
      var mine := (t: Txn) => t.company == company;
      FilterIsSubseq(mine, sideRows);
      SubseqTrans(Filter(mine, sideRows), sideRows, txns);
      FilterCounts(mine, sideRows);
      Filter(mine, sideRows)
  }

  datatype MaxRecord = MaxRecord(company: Option<string>, buy: SideMax, sell: SideMax)

  /**
    `COMPANY.unique()` then `sort_values('COMPANY')`: every named company
    once in ascending order, followed by one null entry when some row has
    a null company (pandas sorts nulls last).
   */
  function MaxKeys(txns: seq<Txn>): (keys: seq<Option<string>>)
    ensures forall c :: Some(c) in keys <==> c in Totals.Companies(txns)
    ensures None in keys <==> exists i :: 0 <= i < |txns| && txns[i].company.None?
    ensures NoDups(keys)
    ensures None in keys ==> keys[|keys| - 1] == None
    ensures forall i, j :: 0 <= i < j < |keys| && keys[j].Some? ==> keys[i].Some? && Less(keys[i].value, keys[j].value)
  {
    var named := Sort(Totals.DistinctCompanies(txns));
    SortSameElements(Totals.DistinctCompanies(txns));
    SortedDistinctIsStrict(named);
    var some := seq(|named|, k requires 0 <= k < |named| => Some(named[k]));
    forall c | Some(c) in some ensures c in named {
      var k :| 0 <= k < |some| && some[k] == Some(c);
    }
    forall c | c in named ensures Some(c) in some {
      var k :| 0 <= k < |named| && named[k] == c;
      assert some[k] == Some(c);
    }
    var hasNull := exists i :: 0 <= i < |txns| && txns[i].company.None?;
    var keys := if hasNull then some + [None] else some;
    assert forall i :: 0 <= i < |some| ==> keys[i] == some[i];
    keys
  }

  function MaxRecordOf(txns: seq<Txn>, company: Option<string>): MaxRecord {
    MaxRecord(company, SideMaxOf(CompanySideRows(txns, Buy, company)), SideMaxOf(CompanySideRows(txns, Sell, company)))
  }

  /** A max record after the fill step (main.py:561-576). */
  datatype MaxDisplay = MaxDisplay(company: Option<string>,
                                   buyValue: real, buyShares: int, buyDate: string,
                                   sellValue: real, sellShares: int, sellDate: string)

  const NOT_AVAILABLE := "N/A"

  /** Null values and share counts become 0, share counts are cast to integers, null dates become "N/A". */
  function Fill(m: MaxRecord): (d: MaxDisplay)
    ensures d.company == m.company
    ensures m.buy.value.None? ==> d.buyValue == 0.0
    ensures m.buy.value.Some? ==> d.buyValue == m.buy.value.value
    ensures m.buy.shares.None? ==> d.buyShares == 0
    ensures m.buy.shares.Some? ==> d.buyShares == Totals.Truncate(m.buy.shares.value)
    ensures m.buy.date.None? ==> d.buyDate == NOT_AVAILABLE
    ensures m.buy.date.Some? ==> d.buyDate == m.buy.date.value
    ensures m.sell.value.None? ==> d.sellValue == 0.0
    ensures m.sell.value.Some? ==> d.sellValue == m.sell.value.value
    ensures m.sell.shares.None? ==> d.sellShares == 0
    ensures m.sell.shares.Some? ==> d.sellShares == Totals.Truncate(m.sell.shares.value)
    ensures m.sell.date.None? ==> d.sellDate == NOT_AVAILABLE
    ensures m.sell.date.Some? ==> d.sellDate == m.sell.date.value
  {
    MaxDisplay(m.company,
               m.buy.value.GetOr(0.0), Totals.Truncate(m.buy.shares.GetOr(0.0)), m.buy.date.GetOr(NOT_AVAILABLE),
               m.sell.value.GetOr(0.0), Totals.Truncate(m.sell.shares.GetOr(0.0)), m.sell.date.GetOr(NOT_AVAILABLE))
  }

  /** A max-by-shares row is chosen on some side, so its date cell is read. */
  predicate ReadsDate(m: MaxRecord) {
    m.buy.shares.Some? || m.sell.shares.Some?
  }

  /**
    The max summary. Reading the date of a chosen max-by-shares row when
    the table has no date column raises `KeyError`, which the source
    catches and answers with the totals summary alone.
   */
  function MaxAggregate(txns: seq<Txn>, hasDate: bool): (r: Result<seq<MaxDisplay>, string>)
    ensures r.Err? <==> !hasDate && exists c :: c in MaxKeys(txns) && ReadsDate(MaxRecordOf(txns, c))
    ensures r.Err? ==> r.error == DATE_COLUMN
    ensures r.Ok? ==> |r.value| == |MaxKeys(txns)|
    ensures r.Ok? ==> forall k :: 0 <= k < |r.value| ==> r.value[k] == Fill(MaxRecordOf(txns, MaxKeys(txns)[k]))
  {
    var keys := MaxKeys(txns);
    if !hasDate && exists k :: 0 <= k < |keys| && ReadsDate(MaxRecordOf(txns, keys[k])) then
      Err(DATE_COLUMN)
    else
      Ok(seq(|keys|, k requires 0 <= k < |keys| => Fill(MaxRecordOf(txns, keys[k]))))
  }

  /** Every distinct company, and the null company when present, has exactly one record, in sorted order. */
  lemma OneRecordPerCompany(txns: seq<Txn>, hasDate: bool)
    requires MaxAggregate(txns, hasDate).Ok?
    ensures var recs := MaxAggregate(txns, hasDate).value;
      && (forall c :: (exists k :: 0 <= k < |recs| && recs[k].company == Some(c)) <==> c in Totals.Companies(txns))
      && (forall i, j :: 0 <= i < j < |recs| ==> recs[i].company != recs[j].company)
      && (forall i, j :: 0 <= i < j < |recs| && recs[j].company.Some? ==>
            recs[i].company.Some? && Less(recs[i].company.value, recs[j].company.value))
  {
    var keys := MaxKeys(txns);
    var recs := MaxAggregate(txns, hasDate).value;
    forall k | 0 <= k < |recs| ensures recs[k].company == keys[k] {
      assert recs[k] == Fill(MaxRecordOf(txns, keys[k]));
    }
    RecordsFollowKeys(recs, keys, Totals.Companies(txns));
  }

  lemma RecordsFollowKeys(recs: seq<MaxDisplay>, keys: seq<Option<string>>, companies: set<string>)
    requires |recs| == |keys| && forall k :: 0 <= k < |recs| ==> recs[k].company == keys[k]
    requires forall c :: Some(c) in keys <==> c in companies
    requires NoDups(keys)
    requires forall i, j :: 0 <= i < j < |keys| && keys[j].Some? ==> keys[i].Some? && Less(keys[i].value, keys[j].value)
    ensures forall c :: (exists k :: 0 <= k < |recs| && recs[k].company == Some(c)) <==> c in companies
    ensures forall i, j :: 0 <= i < j < |recs| ==> recs[i].company != recs[j].company
    ensures forall i, j :: 0 <= i < j < |recs| && recs[j].company.Some? ==>
              recs[i].company.Some? && Less(recs[i].company.value, recs[j].company.value)
  {
    forall c ensures (exists k :: 0 <= k < |recs| && recs[k].company == Some(c)) <==> c in companies {
      if c in companies {
        var k :| 0 <= k < |keys| && keys[k] == Some(c);
        assert recs[k].company == Some(c);
      }
    }
  }

  /**
    A side with no rows reports null, and a row whose value is 0 reports
    Some(0): the two become the same 0 only in the fill step.
   */
  lemma NullVersusZero(t: Txn)
    requires t.value == Some(0.0)
    ensures SideMaxOf([]) == SideMax(None, None, None)
    ensures SideMaxOf([t]).value == Some(0.0)
    ensures Fill(MaxRecord(None, SideMaxOf([]), SideMaxOf([]))).buyValue == Fill(MaxRecord(None, SideMaxOf([t]), SideMaxOf([]))).buyValue
  {
    assert Values([t])[0] == Some(0.0);
  }

  function Row(shares: real, value: real, date: string): Txn {
    Txn(Some("X"), Some("X"), "BUY", Some(shares), Some(value), None, None, Some(date))
  }

  /** Whenever a row meets the max-by-shares choice, it is the one whose share count and date are reported. */
  lemma SideMaxOfChoice(rows: seq<Txn>, i: nat)
    requires i < |rows| && IsMaxSharesChoice(rows, i)
    ensures SideMaxOf(rows).shares == rows[i].shares && SideMaxOf(rows).date == rows[i].date
  {
    var r := SideMaxOf(rows);
    assert r.shares.Some?;
    var j :| 0 <= j < |rows| && IsMaxSharesChoice(rows, j) && r.shares == rows[j].shares && r.date == rows[j].date;
    MaxSharesChoiceUnique(rows, i, j);
  }

  /** Two rows of 500 shares worth 1000 and 2000: the 2000 row's date is reported. */
  lemma TieBreakExample()
    ensures SideMaxOf([Row(500.0, 1000.0, "d1"), Row(500.0, 2000.0, "d2")]) == SideMax(Some(2000.0), Some(500.0), Some("d2"))
  {
    var rows := [Row(500.0, 1000.0, "d1"), Row(500.0, 2000.0, "d2")];
    assert MaxPresent(Values(rows)) == Some(2000.0) by {
      assert Values(rows) == [Some(1000.0), Some(2000.0)];
    }
    assert IsMaxSharesChoice(rows, 1);
    SideMaxOfChoice(rows, 1);
  }

  /**
    The reported value and the reported share count can come from
    different rows: 100 shares worth 5000 and 900 shares worth 1000 give
    value 5000 with the date of the 900-share row.
   */
  lemma IndependentMaxima()
    ensures SideMaxOf([Row(100.0, 5000.0, "d1"), Row(900.0, 1000.0, "d2")]) == SideMax(Some(5000.0), Some(900.0), Some("d2"))
  {
    var rows := [Row(100.0, 5000.0, "d1"), Row(900.0, 1000.0, "d2")];
    assert MaxPresent(Values(rows)) == Some(5000.0) by {
      assert Values(rows) == [Some(5000.0), Some(1000.0)];
    }
    assert IsMaxSharesChoice(rows, 1);
    SideMaxOfChoice(rows, 1);
  }
}
