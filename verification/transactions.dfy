/**
  The input of both aggregators (main.py:321-368): the column check that
  precedes them, numeric coercion with `pd.to_numeric(errors='coerce')`,
  the per-row shareholding delta and the buy / sell classification by
  `upper(strip(type))`.
 */
module Transactions {
  import opened Wrappers
  import opened Text
  import opened Seqs
  import opened Schema
  import RowFilter

  const SHARES_COLUMN := "NO. OF SECURITIES (ACQUIRED/DISPLOSED)"
  const VALUE_COLUMN := "VALUE OF SECURITY (ACQUIRED/DISPLOSED)"
  const COMPANY_COLUMN := "COMPANY"
  const TYPE_COLUMN := "ACQUISITION/DISPOSAL TRANSACTION TYPE"
  const PRIOR_COLUMN := "% SHAREHOLDING (PRIOR)"
  const POST_COLUMN := "% POST"
  const SYMBOL_COLUMN := "SYMBOL"
  const DATE_COLUMN := "DATE OF ALLOTMENT/ACQUISITION FROM"

  /** The columns checked before the analytics, in the order they are checked. */
  const ANALYTICS_COLUMNS: seq<string> :=
    [SHARES_COLUMN, VALUE_COLUMN, COMPANY_COLUMN, TYPE_COLUMN, PRIOR_COLUMN, POST_COLUMN, SYMBOL_COLUMN]

  /**
    The first checked column that the table lacks; `None` when all are
    present. The source reports only that first one.
   */
  function FirstMissing(columns: seq<string>): (r: Option<string>)
    ensures r.None? <==> forall k :: 0 <= k < |ANALYTICS_COLUMNS| ==> ANALYTICS_COLUMNS[k] in columns
    ensures r.Some? ==> exists k :: 0 <= k < |ANALYTICS_COLUMNS| && ANALYTICS_COLUMNS[k] == r.value
                          && ANALYTICS_COLUMNS[k] !in columns
                          && forall l :: 0 <= l < k ==> ANALYTICS_COLUMNS[l] in columns
  {
    FirstMissingFrom(columns, 0)
  }

  function FirstMissingFrom(columns: seq<string>, j: nat): (r: Option<string>)
    requires j <= |ANALYTICS_COLUMNS|
    ensures r.None? <==> forall k :: j <= k < |ANALYTICS_COLUMNS| ==> ANALYTICS_COLUMNS[k] in columns
    ensures r.Some? ==> exists k :: j <= k < |ANALYTICS_COLUMNS| && ANALYTICS_COLUMNS[k] == r.value
                          && ANALYTICS_COLUMNS[k] !in columns
                          && forall l :: j <= l < k ==> ANALYTICS_COLUMNS[l] in columns
    decreases |ANALYTICS_COLUMNS| - j
  {
    if j == |ANALYTICS_COLUMNS| then None
    else if ANALYTICS_COLUMNS[j] !in columns then Some(ANALYTICS_COLUMNS[j])
    else FirstMissingFrom(columns, j + 1)
  }

  /** One filtered row, seen by the aggregators. Numbers are already coerced. */
  datatype Txn = Txn(company: Option<string>, symbol: Option<string>, kind: string,
                     shares: Option<real>, value: Option<real>,
                     prior: Option<real>, post: Option<real>, date: Option<string>)

  datatype Side = Buy | Sell

  /** The label a side is matched against after `upper(strip(...))`. */
  function SideLabel(side: Side): string {
    match side
    case Buy => "BUY"
    case Sell => "SELL"
  }

  predicate OnSide(t: Txn, side: Side) {
    t.kind == SideLabel(side)
  }

  /** `% POST - % SHAREHOLDING (PRIOR)`: null when either is null. */
  function Delta(t: Txn): (d: Option<real>)
    ensures d.Some? <==> t.prior.Some? && t.post.Some?
    ensures d.Some? ==> t.prior.value + d.value == t.post.value
  {
    if t.prior.Some? && t.post.Some? then Some(t.post.value - t.prior.value) else None
  }

  /** `pd.to_numeric(errors='coerce')`: text that `parse` rejects becomes null. */
  function ToNumber(parse: string -> Option<real>, c: Cell): Option<real> {
    match c
    case None => None
    case Some(s) => parse(s)
  }

  /** The side label of a transaction-type cell: `astype(str).str.strip().str.upper()`. */
  function Kind(c: Cell): string {
    Upper(Trim(RowFilter.AsText(c)))
  }

  function ToTxn(parse: string -> Option<real>, columns: seq<string>, r: Row): Txn {
    Txn(Get(columns, r, COMPANY_COLUMN),
        Get(columns, r, SYMBOL_COLUMN),
        Kind(Get(columns, r, TYPE_COLUMN)),
        ToNumber(parse, Get(columns, r, SHARES_COLUMN)),
        ToNumber(parse, Get(columns, r, VALUE_COLUMN)),
        ToNumber(parse, Get(columns, r, PRIOR_COLUMN)),
        ToNumber(parse, Get(columns, r, POST_COLUMN)),
        Get(columns, r, DATE_COLUMN))
  }

  function ToTxns(parse: string -> Option<real>, t: Table): (txns: seq<Txn>)
    ensures |txns| == |t.rows|
  {
    seq(|t.rows|, n requires 0 <= n < |t.rows| => ToTxn(parse, t.columns, t.rows[n]))
  }

  /** The rows of one side (`transactions_df[type_upper == 'BUY']`). */
  function SideRows(txns: seq<Txn>, side: Side): (r: seq<Txn>)
    ensures IsSubseq(r, txns)
    ensures forall i :: 0 <= i < |r| ==> OnSide(r[i], side) && r[i] in txns
    ensures forall i :: 0 <= i < |txns| && OnSide(txns[i], side) ==> txns[i] in r
    ensures forall x {:trigger multiset(r)[x]} :: multiset(r)[x] == if OnSide(x, side) then multiset(txns)[x] else 0
  {
    FilterIsSubseq((t: Txn) => OnSide(t, side), txns);
    FilterCounts((t: Txn) => OnSide(t, side), txns);
    Filter((t: Txn) => OnSide(t, side), txns)
  }

  lemma BuySellLabels()
    ensures Lower("buy") == "buy" && Upper("buy") == "BUY"
    ensures Lower("sell") == "sell" && Upper("sell") == "SELL"
  {
  }

  /**
    A transaction type the filter accepts ends up on exactly one side, and
    the one its lower-case form names: the filter's `lower()` and the
    aggregators' `upper()` agree.
   */
  lemma AcceptedTypeHasSide(c: Cell)
    requires RowFilter.Normalize(c) == "buy" || RowFilter.Normalize(c) == "sell"
    ensures Kind(c) == "BUY" <==> RowFilter.Normalize(c) == "buy"
    ensures Kind(c) == "SELL" <==> RowFilter.Normalize(c) == "sell"
  {
    var s := Trim(RowFilter.AsText(c));
    BuySellLabels();
    assert Lower(s) == Lower("buy") <==> Upper(s) == Upper("buy") by {
      CaseFoldAgree(s, "buy");
    }
    assert Lower(s) == Lower("sell") <==> Upper(s) == Upper("sell") by {
      CaseFoldAgree(s, "sell");
    }
  }

  lemma TrimPaddedBuy()
    ensures Trim(" buy ") == "buy"
  {
    var s := " buy ";
    assert LeadingSpace(s) == 1 by {
      assert LeadingSpace(s[1..]) == 0;
    }
    assert TrailingSpace(s[1..]) == 1 by {
      assert s[1..][..|s[1..]| - 1] == "buy";
      assert TrailingSpace("buy") == 0;
    }
  }

  lemma UpperBuySpellings()
    ensures Upper("Buy") == "BUY" && Upper("BUY") == "BUY" && Upper("buy") == "BUY"
  {
  }

  /** "Buy", "BUY" and " buy " are all classified as buy-side. */
  lemma CaseInsensitiveBuy()
    ensures Kind(Some("Buy")) == "BUY"
    ensures Kind(Some("BUY")) == "BUY"
    ensures Kind(Some(" buy ")) == "BUY"
  {
    TrimUnspaced("Buy");
    TrimUnspaced("BUY");
    TrimPaddedBuy();
    UpperBuySpellings();
  }
}
