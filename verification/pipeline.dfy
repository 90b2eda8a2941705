/**
  The whole data path of the upload page: schema check, five-stage row
  filter, column pruning, then the transactions analytics with their
  fallbacks (main.py:113-194, 307-815). Each branch of the analytics
  section becomes one case of `Analytics`; the page's widgets are left out.
 */
module Pipeline {
  import opened Wrappers
  import opened Seqs
  import opened Schema
  import opened RowFilter
  import opened Pruner
  import opened Transactions
  import opened Totals
  import opened MaxTransactions
  import opened Combiner

  /** What the analytics section shows. */
  datatype Analytics =
    | NoRows                                                     // no data available for the analysis
    | MissingColumn(name: string)                                // the first required analytics column that is absent
    | NoTransactions                                             // neither side has a named company
    | TotalsOnly(summaryColumns: seq<string>, summary: seq<TotalsRecord>)  // the max summary failed; totals shown alone
    | Combined(columns: seq<string>, rows: seq<CombinedRecord>)

  /**
    What the upload path (main.py:113-194) derives from one upload that
    passed the schema check; the analytics section is `Analyze` of `table`.
   */
  datatype Report = Report(ignored: set<string>, counts: StageCounts, table: Table)

  /**
    The analytics section run on the filtered, pruned table: nothing to
    analyse without rows, and the first absent analytics column stops it.
   */
  function Analyze(parse: string -> Option<real>, t: Table): (r: Analytics)
    ensures r.NoRows? <==> |t.rows| == 0
    ensures r.MissingColumn? <==> |t.rows| > 0 && exists k :: 0 <= k < |ANALYTICS_COLUMNS| && ANALYTICS_COLUMNS[k] !in t.columns
    ensures r.MissingColumn? ==> r.name in ANALYTICS_COLUMNS && r.name !in t.columns
    ensures r.MissingColumn? ==> FirstMissing(t.columns) == Some(r.name)
    ensures r.TotalsOnly? ==> DATE_COLUMN !in t.columns
  {
    if |t.rows| == 0 then NoRows
    else
      var missing := FirstMissing(t.columns);
      if missing.Some? then MissingColumn(missing.value)
      else Summaries(ToTxns(parse, t), DATE_COLUMN in t.columns)
  }

  /**
    The two summaries over the coerced rows. The emptiness test comes
    before the threshold, so a table whose every company falls below it is
    `Combined` with no rows, not `NoTransactions`. The max summary fails
    only when it must read a date cell from a table without the date
    column; then the totals are shown alone.
   */
  function Summaries(txns: seq<Txn>, hasDate: bool): (r: Analytics)
    ensures !r.NoRows? && !r.MissingColumn?
    ensures r.TotalsOnly? ==> !hasDate
    ensures r.TotalsOnly? ==> forall k :: 0 <= k < |r.summary| ==> r.summary[k].buyValue >= MATERIALITY_THRESHOLD
    ensures r.Combined? ==> forall k :: 0 <= k < |r.rows| ==> r.rows[k].totals.buyValue >= MATERIALITY_THRESHOLD
  {
    var totals := SummarizeTotals(txns);
    if |totals.rows| == 0 then NoTransactions
    else Present(totals, MaxAggregate(txns, hasDate))
  }

  /**
    What the page shows once both summaries are computed: the totals alone
    when the max summary failed (`ShowTotals`), otherwise the combined
    table (`ShowCombined`).
   */
  function Present(totals: TotalsTable, maxes: Result<seq<MaxDisplay>, string>): (r: Analytics)
    ensures r.TotalsOnly? <==> maxes.Err?
    ensures r.Combined? <==> maxes.Ok?
  {
    match maxes
    case Err(_) => ShowTotals(totals)
    case Ok(m) => ShowCombined(totals, m)
  }

  /** The fallback: the totals rows at or above the threshold, in their order. */
  function ShowTotals(totals: TotalsTable): (r: Analytics)
    ensures r.TotalsOnly? && r.summaryColumns == totals.columns
    ensures forall k :: 0 <= k < |r.summary| ==>
              r.summary[k] in totals.rows && r.summary[k].buyValue >= MATERIALITY_THRESHOLD
    ensures forall i :: 0 <= i < |totals.rows| && totals.rows[i].buyValue >= MATERIALITY_THRESHOLD ==>
              totals.rows[i] in r.summary
    ensures SortedByCompany(totals.rows) ==> SortedByCompany(r.summary)
    ensures IsSubseq(r.summary, totals.rows)
    ensures forall x {:trigger multiset(r.summary)[x]} :: multiset(r.summary)[x] == if x.buyValue >= MATERIALITY_THRESHOLD then multiset(totals.rows)[x] else 0
  {
    TotalsOnly(totals.columns, Material(totals.rows))
  }

  /** The combined table: the thresholded totals joined with the max records, in canonical column order. */
  function ShowCombined(totals: TotalsTable, maxes: seq<MaxDisplay>): (r: Analytics)
    ensures r.Combined?
    ensures (totals.columns == BUY_FIRST_COLUMNS || totals.columns == SELL_FIRST_COLUMNS) ==> r.columns == COMBINED_COLUMNS
    ensures forall k :: 0 <= k < |r.rows| ==>
              && r.rows[k].totals in totals.rows && r.rows[k].totals.buyValue >= MATERIALITY_THRESHOLD
              && r.rows[k] == Join(r.rows[k].totals, maxes)
    ensures forall i :: 0 <= i < |totals.rows| && totals.rows[i].buyValue >= MATERIALITY_THRESHOLD ==>
              exists k :: 0 <= k < |r.rows| && r.rows[k].totals == totals.rows[i]
    ensures SortedByCompany(totals.rows) ==> SortedCombined(r.rows)
  {
    var columns := ColumnOrder(MergedColumns(totals.columns));
    assert totals.columns == BUY_FIRST_COLUMNS || totals.columns == SELL_FIRST_COLUMNS ==> columns == COMBINED_COLUMNS by {
      if totals.columns == BUY_FIRST_COLUMNS || totals.columns == SELL_FIRST_COLUMNS {
        CombinedColumnOrder(totals.columns);
      }
    }
    Combined(columns, Combine(totals.rows, maxes))
  }

  /**
    The upload path, from the parsed file to the table the analytics read.
    It fails exactly when a required column is missing after trimming the
    headers, and the error names the missing set. Otherwise the row counts
    start from the upload's row count, and the analysed table has the
    canonical columns minus the ten pruned ones and holds, in order, the
    validated rows that pass all five stages.
   */
  function Run(raw: RawTable): (r: Result<Report, SchemaError>)
    ensures r.Err? <==> !HasAllRequired(TrimHeaders(raw.headers))
    ensures r.Err? ==> r.error.missing == RequiredSet() - PresentSet(raw.headers)
    ensures r.Ok? ==> r.value.ignored == PresentSet(raw.headers) - RequiredSet()
    ensures r.Ok? ==> r.value.counts.original == |raw.rows|
    ensures r.Ok? ==> Validate(raw).Ok? && Prepared(Validate(raw).value, r.value)
  {
    match Validate(raw)
    case Err(e) => Err(e)
    case Ok(v) => Ok(Prepare(v))
  }

  /**
    `rep` is what filtering and pruning make of the validated upload `v`:
    the same ignored names, counts from the validated row count down to the
    analysed one with each stage's count the number of rows passing every
    stage so far, the canonical columns minus the pruned ones, and, in
    order, exactly the validated rows that pass all five stages, each
    surviving column reading the cell that row held under that name.
   */
  predicate Prepared(v: Validated, rep: Report) {
    PreparedShape(v, rep) && PreparedCells(v, rep)
  }

  /** The names, counts, columns and row count of `Prepared`. */
  predicate PreparedShape(v: Validated, rep: Report) {
    && rep.ignored == v.ignored
    && rep.counts.original == |v.table.rows| && rep.counts.final == |rep.table.rows|
    && rep.counts.regulation == |PassingFirst(1, v.table)| && rep.counts.category == |PassingFirst(2, v.table)|
    && rep.counts.transaction == |PassingFirst(3, v.table)| && rep.counts.mode == |PassingFirst(4, v.table)|
    && rep.table.columns == Filter(Kept, v.table.columns)
    && |rep.table.rows| == |Selected(v.table)|
  }

  /** Row `n` of the analysed table reads, under each surviving column, the cell of the `n`-th selected row. */
  predicate PreparedCells(v: Validated, rep: Report)
    requires |rep.table.rows| == |Selected(v.table)|
  {
    forall n, c :: 0 <= n < |rep.table.rows| && c in rep.table.columns ==>
      Get(rep.table.columns, rep.table.rows[n], c) == Get(REQUIRED_COLUMNS, Selected(v.table)[n], c)
  }

  /** Filtering and pruning a validated upload. */
  function Prepare(v: Validated): (r: Report)
    requires v.table.columns == REQUIRED_COLUMNS
    ensures Prepared(v, r)
  {
    var f := FilterChain(v.table);
    var pruned := Prune(f.table);
    AnalysedRows(v.table, f, pruned);
    Report(v.ignored, f.counts, pruned)
  }

  /**
    After the schema check, the analysed table holds, in order, exactly the
    rows that pass all five stages, and each surviving column reads the
    cell that row held under that name.
   */
  lemma AnalysedRows(v: Table, f: Filtered, pruned: Table)
    requires v.columns == REQUIRED_COLUMNS && f == FilterChain(v) && pruned == Prune(f.table)
    ensures f.counts.final == |Selected(v)| && |pruned.rows| == |Selected(v)|
    ensures forall n, c :: 0 <= n < |pruned.rows| && c in pruned.columns ==>
      Get(pruned.columns, pruned.rows[n], c) == Get(REQUIRED_COLUMNS, Selected(v)[n], c)
  {
    RequiredColumnsDistinct();
    PruneKeepsAllNamedCells(f.table);
  }

  /** Every company of a side's rows is a company of the whole table. */
  lemma SideCompanies(txns: seq<Txn>, side: Side, c: string)
    requires c in Companies(SideRows(txns, side))
    ensures c in Companies(txns)
  {
    var rows := SideRows(txns, side);
    var i :| 0 <= i < |rows| && rows[i].company == Some(c);
    var j :| 0 <= j < |txns| && txns[j] == rows[i];
    assert txns[j].company.value == c;
  }

  /** A company of the totals summary has a record in the max summary. */
  lemma TotalsCompanyHasMax(txns: seq<Txn>, hasDate: bool, c: string)
    requires MaxAggregate(txns, hasDate).Ok?
    requires c in Companies(SideRows(txns, Buy)) || c in Companies(SideRows(txns, Sell))
    ensures FindMax(MaxAggregate(txns, hasDate).value, c).Some?
  {
    var maxes := MaxAggregate(txns, hasDate).value;
    if c in Companies(SideRows(txns, Buy)) { SideCompanies(txns, Buy, c); } else { SideCompanies(txns, Sell, c); }
    var keys := MaxKeys(txns);
    assert Some(c) in keys;
    var k :| 0 <= k < |keys| && keys[k] == Some(c);
    assert maxes[k] == Fill(MaxRecordOf(txns, keys[k]));
    assert maxes[k].company == Some(c);
  }

  /** A row on a side with a named company puts that company among the side's companies. */
  lemma SideCompanyOf(txns: seq<Txn>, side: Side, i: nat)
    requires i < |txns|
    ensures OnSide(txns[i], side) && txns[i].company.Some? ==> txns[i].company.value in Companies(SideRows(txns, side))
  {
    if OnSide(txns[i], side) && txns[i].company.Some? {
      var rows := SideRows(txns, side);
      var j :| 0 <= j < |rows| && rows[j] == txns[i];
      assert rows[j].company.value == txns[i].company.value;
    }
  }

  lemma TotalsEmptyIff(txns: seq<Txn>)
    ensures |SummarizeTotals(txns).rows| == 0 <==>
              Companies(SideRows(txns, Buy)) == {} && Companies(SideRows(txns, Sell)) == {}
  {
    TotalsCorrect(txns);
    var r := SummarizeTotals(txns);
    if |r.rows| > 0 {
      assert r.rows[0].company in Companies(SideRows(txns, Buy)) || r.rows[0].company in Companies(SideRows(txns, Sell));
    } else {
      forall c ensures c !in Companies(SideRows(txns, Buy)) && c !in Companies(SideRows(txns, Sell)) {
      }
    }
  }

  /** A side has no named company exactly when no row with a named company is on it. */
  lemma SideCompaniesEmptyIff(txns: seq<Txn>, side: Side)
    ensures Companies(SideRows(txns, side)) == {} <==>
              forall i :: 0 <= i < |txns| && txns[i].company.Some? ==> !OnSide(txns[i], side)
  {
    forall i | 0 <= i < |txns|
      ensures OnSide(txns[i], side) && txns[i].company.Some? ==> txns[i].company.value in Companies(SideRows(txns, side))
    {
      SideCompanyOf(txns, side, i);
    }
    if Companies(SideRows(txns, side)) != {} {
      var rows := SideRows(txns, side);
      var c :| c in Companies(rows);
      var j :| 0 <= j < |rows| && rows[j].company == Some(c);
      var i :| 0 <= i < |txns| && txns[i] == rows[j];
    }
  }

  /**
    The totals summary is empty exactly when no row with a named company
    is a buy or a sell.
   */
  lemma NoTransactionsIff(txns: seq<Txn>)
    ensures |SummarizeTotals(txns).rows| == 0 <==>
              forall i :: 0 <= i < |txns| && txns[i].company.Some? ==> !OnSide(txns[i], Buy) && !OnSide(txns[i], Sell)
  {
    TotalsEmptyIff(txns);
    SideCompaniesEmptyIff(txns, Buy);
    SideCompaniesEmptyIff(txns, Sell);
  }

  /** The totals summary leads with one side or the other. */
  lemma TotalsColumns(txns: seq<Txn>)
    ensures SummarizeTotals(txns).columns == BUY_FIRST_COLUMNS || SummarizeTotals(txns).columns == SELL_FIRST_COLUMNS
  {
  }

  /** The combined case, unfolded. */
  lemma SummariesCombined(txns: seq<Txn>, hasDate: bool)
    requires Summaries(txns, hasDate).Combined?
    ensures MaxAggregate(txns, hasDate).Ok?
    ensures Summaries(txns, hasDate) == Present(SummarizeTotals(txns), MaxAggregate(txns, hasDate))
  {
  }

  /** The companies of the totals summary are those with a row on either side. */
  lemma TotalsCompanies(txns: seq<Txn>)
    ensures forall c :: (exists k :: 0 <= k < |SummarizeTotals(txns).rows| && SummarizeTotals(txns).rows[k].company == c)
                          <==> c in Companies(SideRows(txns, Buy)) || c in Companies(SideRows(txns, Sell))
  {
    TotalsCorrect(txns);
  }

  lemma TotalsSorted(txns: seq<Txn>)
    ensures SortedByCompany(SummarizeTotals(txns).rows)
  {
    TotalsCorrect(txns);
  }

  /** Every merged row has a max record when every totals company has one. */
  lemma CombineHasMax(totals: seq<TotalsRecord>, maxes: seq<MaxDisplay>)
    requires forall i :: 0 <= i < |totals| ==> FindMax(maxes, totals[i].company).Some?
    ensures forall k :: 0 <= k < |Combine(totals, maxes)| ==> Combine(totals, maxes)[k].max.Some?
  {
    var r := Combine(totals, maxes);
    forall k | 0 <= k < |r| ensures r[k].max.Some? {
      var i :| 0 <= i < |totals| && totals[i] == r[k].totals;
    }
  }

  /** Every company of the totals summary has a record in a successful max summary. */
  lemma TotalsHaveMax(txns: seq<Txn>, hasDate: bool)
    requires MaxAggregate(txns, hasDate).Ok?
    ensures forall i :: 0 <= i < |SummarizeTotals(txns).rows| ==>
              FindMax(MaxAggregate(txns, hasDate).value, SummarizeTotals(txns).rows[i].company).Some?
  {
    var rows := SummarizeTotals(txns).rows;
    TotalsCompanies(txns);
    forall i | 0 <= i < |rows| ensures FindMax(MaxAggregate(txns, hasDate).value, rows[i].company).Some? {
      TotalsCompanyHasMax(txns, hasDate, rows[i].company);
    }
  }

  lemma CombinedColumns(txns: seq<Txn>, hasDate: bool)
    requires Summaries(txns, hasDate).Combined?
    ensures Summaries(txns, hasDate).columns == COMBINED_COLUMNS
  {
    SummariesCombined(txns, hasDate);
    TotalsColumns(txns);
    CombinedColumnOrder(SummarizeTotals(txns).columns);
  }

  lemma CombinedRows(txns: seq<Txn>, hasDate: bool)
    requires Summaries(txns, hasDate).Combined?
    ensures Summaries(txns, hasDate).rows == Combine(SummarizeTotals(txns).rows, MaxAggregate(txns, hasDate).value)
    ensures MaxAggregate(txns, hasDate).Ok?
  {
    SummariesCombined(txns, hasDate);
  }

  /**
    The combined table keeps exactly the totals rows at or above the
    threshold, in ascending company order.
   */
  lemma CombinedKeepsMaterial(txns: seq<Txn>, hasDate: bool)
    requires Summaries(txns, hasDate).Combined?
    ensures var r := Summaries(txns, hasDate).rows;
      && SortedCombined(r)
      && (forall k :: 0 <= k < |r| ==> r[k].totals in SummarizeTotals(txns).rows && r[k].totals.buyValue >= MATERIALITY_THRESHOLD)
      && (forall i :: 0 <= i < |SummarizeTotals(txns).rows| && SummarizeTotals(txns).rows[i].buyValue >= MATERIALITY_THRESHOLD ==>
            exists k :: 0 <= k < |r| && r[k].totals == SummarizeTotals(txns).rows[i])
  {
    CombinedRows(txns, hasDate);
    TotalsSorted(txns);
  }

  /** Every company of the combined table has a buy or a sell row. */
  lemma CombinedCompaniesTraded(txns: seq<Txn>, hasDate: bool)
    requires Summaries(txns, hasDate).Combined?
    ensures var r := Summaries(txns, hasDate).rows;
      forall k :: 0 <= k < |r| ==> r[k].totals.company in Companies(SideRows(txns, Buy)) + Companies(SideRows(txns, Sell))
  {
    CombinedRows(txns, hasDate);
    var r := Summaries(txns, hasDate).rows;
    var totals := SummarizeTotals(txns).rows;
    TotalsCompanies(txns);
    forall k | 0 <= k < |r| ensures r[k].totals.company in Companies(SideRows(txns, Buy)) + Companies(SideRows(txns, Sell)) {
      var i :| 0 <= i < |totals| && totals[i] == r[k].totals;
    }
  }

  /**
    Every row of the combined table found a max record: the max summary
    covers every named company of the filtered rows, so the zero averages
    of an unmatched row never appear.
   */
  lemma CombinedHasMax(txns: seq<Txn>, hasDate: bool)
    requires Summaries(txns, hasDate).Combined?
    ensures forall k :: 0 <= k < |Summaries(txns, hasDate).rows| ==> Summaries(txns, hasDate).rows[k].max.Some?
  {
    CombinedRows(txns, hasDate);
    TotalsHaveMax(txns, hasDate);
    CombineHasMax(SummarizeTotals(txns).rows, MaxAggregate(txns, hasDate).value);
  }

  /** A column the pruner does not remove is still there after it. */
  lemma KeptSurvives(s: seq<string>, i: nat)
    requires i < |s| && Kept(s[i])
    ensures s[i] in Filter(Kept, s)
  {
  }

  lemma SymbolColumnSurvives()
    ensures SYMBOL_COLUMN in Filter(Kept, REQUIRED_COLUMNS)
  {
    assert REQUIRED_COLUMNS[0] == SYMBOL_COLUMN;
    KeptSurvives(REQUIRED_COLUMNS, 0);
  }

  lemma CompanyColumnSurvives()
    ensures COMPANY_COLUMN in Filter(Kept, REQUIRED_COLUMNS)
  {
    assert REQUIRED_COLUMNS[1] == COMPANY_COLUMN;
    KeptSurvives(REQUIRED_COLUMNS, 1);
  }

  lemma PriorColumnSurvives()
    ensures PRIOR_COLUMN in Filter(Kept, REQUIRED_COLUMNS)
  {
    assert REQUIRED_COLUMNS[7] == PRIOR_COLUMN;
    KeptSurvives(REQUIRED_COLUMNS, 7);
  }

  lemma SharesColumnSurvives()
    ensures SHARES_COLUMN in Filter(Kept, REQUIRED_COLUMNS)
  {
    assert REQUIRED_COLUMNS[9] == SHARES_COLUMN;
    KeptSurvives(REQUIRED_COLUMNS, 9);
  }

  lemma ValueColumnSurvives()
    ensures VALUE_COLUMN in Filter(Kept, REQUIRED_COLUMNS)
  {
    assert REQUIRED_COLUMNS[10] == VALUE_COLUMN;
    KeptSurvives(REQUIRED_COLUMNS, 10);
  }

  lemma TypeColumnSurvives()
    ensures TYPE_COLUMN in Filter(Kept, REQUIRED_COLUMNS)
  {
    assert REQUIRED_COLUMNS[11] == TYPE_COLUMN;
    KeptSurvives(REQUIRED_COLUMNS, 11);
  }

  lemma PostColumnSurvives()
    ensures POST_COLUMN in Filter(Kept, REQUIRED_COLUMNS)
  {
    assert REQUIRED_COLUMNS[14] == POST_COLUMN;
    KeptSurvives(REQUIRED_COLUMNS, 14);
  }

  lemma DateColumnSurvives()
    ensures DATE_COLUMN in Filter(Kept, REQUIRED_COLUMNS)
  {
    assert REQUIRED_COLUMNS[15] == DATE_COLUMN;
    KeptSurvives(REQUIRED_COLUMNS, 15);
  }

  /** Every column the analytics read, the date column included, is among `columns`. */
  predicate HasAnalyticsColumns(columns: seq<string>) {
    && SHARES_COLUMN in columns && VALUE_COLUMN in columns && COMPANY_COLUMN in columns && TYPE_COLUMN in columns
    && PRIOR_COLUMN in columns && POST_COLUMN in columns && SYMBOL_COLUMN in columns && DATE_COLUMN in columns
  }

  /** After the schema check and the pruner, every column the analytics read is present. */
  lemma PrunedColumnsKeepAnalytics(schema: seq<string>, columns: seq<string>)
    requires schema == REQUIRED_COLUMNS && columns == Filter(Kept, schema)
    ensures HasAnalyticsColumns(columns)
  {
    SymbolColumnSurvives();
    CompanyColumnSurvives();
    PriorColumnSurvives();
    SharesColumnSurvives();
    ValueColumnSurvives();
    TypeColumnSurvives();
    PostColumnSurvives();
    DateColumnSurvives();
  }

  /** A table holding every analytics column passes the column check. */
  lemma AnalyticsColumnsPresent(columns: seq<string>)
    requires SHARES_COLUMN in columns && VALUE_COLUMN in columns && COMPANY_COLUMN in columns && TYPE_COLUMN in columns
    requires PRIOR_COLUMN in columns && POST_COLUMN in columns && SYMBOL_COLUMN in columns
    ensures FirstMissing(columns).None?
  {
  }

  /**
    On a table holding every column the analytics read, including the date
    column, the analytics never report a missing column and the max
    summary never fails.
   */
  lemma AnalyzeWithAllColumns(parse: string -> Option<real>, t: Table, n: nat)
    requires HasAnalyticsColumns(t.columns) && |t.rows| == n
    ensures Analyze(parse, t).NoRows? || Analyze(parse, t).NoTransactions? || Analyze(parse, t).Combined?
    ensures Analyze(parse, t).NoRows? <==> n == 0
  {
    AnalyticsColumnsPresent(t.columns);
  }

  /**
    On an upload that passes the schema check, the analytics never report
    a missing column and the max summary never fails: the outcome is no
    rows, no transactions, or the combined table.
   */
  lemma PipelineOutcomes(parse: string -> Option<real>, raw: RawTable)
    requires Run(raw).Ok?
    ensures var a := Analyze(parse, Run(raw).value.table); a.NoRows? || a.NoTransactions? || a.Combined?
  {
    var v, rep := Validate(raw).value, Run(raw).value;
    PrunedColumnsKeepAnalytics(v.table.columns, rep.table.columns);
    AnalyzeWithAllColumns(parse, rep.table, |rep.table.rows|);
  }

  /** On an upload that passes the schema check, the analytics show no rows exactly when no validated row passes the five stages. */
  lemma NoRowsExactly(parse: string -> Option<real>, raw: RawTable)
    requires Run(raw).Ok?
    ensures Analyze(parse, Run(raw).value.table).NoRows? <==> |Selected(Validate(raw).value.table)| == 0
  {
    var v, rep := Validate(raw).value, Run(raw).value;
    assert |rep.table.rows| == |Selected(v.table)|;
  }
}
