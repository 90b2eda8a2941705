/**
  The uploaded table and its schema check (main.py:13-43, 117-140): header
  names are trimmed, a missing required column is fatal and names the
  missing set, extra columns are reported and dropped, and the table is
  reordered into the 29 canonical columns.
 */
module Schema {
  import opened Wrappers
  import opened Text
  import opened Seqs

  /** A parsed cell: its text, or `None` for an empty / NaN cell. */
  type Cell = Option<string>

  type Row = seq<Cell>

  /** A parsed CSV file: the header line as written, then the data rows. */
  datatype RawTable = RawTable(headers: seq<string>, rows: seq<Row>)

  /** A table whose column names are final. */
  datatype Table = Table(columns: seq<string>, rows: seq<Row>)

  const REQUIRED_COLUMNS: seq<string> := [
    "SYMBOL",
    "COMPANY",
    "REGULATION",
    "NAME OF THE ACQUIRER/DISPOSER",
    "CATEGORY OF PERSON",
    "TYPE OF SECURITY (PRIOR)",
    "NO. OF SECURITY (PRIOR)",
    "% SHAREHOLDING (PRIOR)",
    "TYPE OF SECURITY (ACQUIRED/DISPLOSED)",
    "NO. OF SECURITIES (ACQUIRED/DISPLOSED)",
    "VALUE OF SECURITY (ACQUIRED/DISPLOSED)",
    "ACQUISITION/DISPOSAL TRANSACTION TYPE",
    "TYPE OF SECURITY (POST)",
    "NO. OF SECURITY (POST)",
    "% POST",
    "DATE OF ALLOTMENT/ACQUISITION FROM",
    "DATE OF ALLOTMENT/ACQUISITION TO",
    "DATE OF INITMATION TO COMPANY",
    "MODE OF ACQUISITION",
    "DERIVATIVE TYPE SECURITY",
    "DERIVATIVE CONTRACT SPECIFICATION",
    "NOTIONAL VALUE(BUY)",
    "NUMBER OF UNITS/CONTRACT LOT SIZE (BUY)",
    "NOTIONAL VALUE(SELL)",
    "NUMBER OF UNITS/CONTRACT LOT SIZE  (SELL)",
    "EXCHANGE",
    "REMARK",
    "BROADCASTE DATE AND TIME",
    "XBRL"
  ]

  function RequiredSet(): set<string> {
    set c | c in REQUIRED_COLUMNS
  }

  /** The canonical layout has 29 distinct column names. */
  lemma RequiredColumnsDistinct()
    ensures |REQUIRED_COLUMNS| == 29
    ensures NoDups(REQUIRED_COLUMNS)
  {
  }

  /** The position of the first `x` in `xs`, or `|xs|` when there is none. */
  function IndexOf(xs: seq<string>, x: string): (i: nat)
    ensures i <= |xs|
    ensures i < |xs| <==> x in xs
    ensures i < |xs| ==> xs[i] == x
    ensures forall k :: 0 <= k < i ==> xs[k] != x
  {
    if |xs| == 0 then 0
    else if xs[0] == x then 0
    else 1 + IndexOf(xs[1..], x)
  }

  /** The cell at position `i`, null past the end of a short row. */
  function CellAt(r: Row, i: nat): Cell {
    if i < |r| then r[i] else None
  }

  /** `row[name]`: the cell under the first column called `name`, null when there is none. */
  function Get(columns: seq<string>, r: Row, name: string): Cell {
    var i := IndexOf(columns, name);
    if i < |columns| then CellAt(r, i) else None
  }

  /** `df.columns.str.strip()`. */
  function TrimHeaders(headers: seq<string>): seq<string> {
    seq(|headers|, i requires 0 <= i < |headers| => Trim(headers[i]))
  }

  function PresentSet(headers: seq<string>): set<string> {
    set h | h in TrimHeaders(headers)
  }

  datatype SchemaError = MissingColumns(missing: set<string>)

  /** A table accepted by the schema check, and the extra columns it dropped. */
  datatype Validated = Validated(table: Table, ignored: set<string>)

  function Reorder(hs: seq<string>, r: Row): (out: Row)
    ensures |out| == |REQUIRED_COLUMNS|
    ensures forall k :: 0 <= k < |REQUIRED_COLUMNS| ==> Get(REQUIRED_COLUMNS, out, REQUIRED_COLUMNS[k]) == Get(hs, r, REQUIRED_COLUMNS[k])
  {
    var out := seq(|REQUIRED_COLUMNS|, k requires 0 <= k < |REQUIRED_COLUMNS| => Get(hs, r, REQUIRED_COLUMNS[k]));
    RequiredColumnsDistinct();
    assert forall k :: 0 <= k < |REQUIRED_COLUMNS| ==> IndexOf(REQUIRED_COLUMNS, REQUIRED_COLUMNS[k]) == k;
    out
  }

  /** Every required name is among the headers `hs`. */
  predicate HasAllRequired(hs: seq<string>) {
    forall k :: 0 <= k < |REQUIRED_COLUMNS| ==> REQUIRED_COLUMNS[k] in hs
  }

  lemma MissingIsEmptyIff(hs: seq<string>)
    ensures RequiredSet() - (set h | h in hs) == {} <==> HasAllRequired(hs)
  {
    if RequiredSet() - (set h | h in hs) == {} {
      forall k | 0 <= k < |REQUIRED_COLUMNS| ensures REQUIRED_COLUMNS[k] in hs {
        var c := REQUIRED_COLUMNS[k];
        assert c in RequiredSet();
        assert c !in RequiredSet() - (set h | h in hs);
        assert c in (set h | h in hs);
      }
    }
  }

  /**
    The schema check. It succeeds exactly when every required name is among
    the trimmed headers. On failure the error carries exactly the missing
    names. On success the table has exactly the canonical columns in
    canonical order, the same number of rows, and every required column
    holds, row by row, the cells of the uploaded column of that name.
   */
  function Validate(raw: RawTable): (r: Result<Validated, SchemaError>)
    ensures r.Ok? <==> HasAllRequired(TrimHeaders(raw.headers))
    ensures r.Err? ==> r.error.missing == RequiredSet() - PresentSet(raw.headers) && r.error.missing != {}
    ensures r.Ok? ==> r.value.table.columns == REQUIRED_COLUMNS
    ensures r.Ok? ==> r.value.ignored == PresentSet(raw.headers) - RequiredSet()
    ensures r.Ok? ==> |r.value.table.rows| == |raw.rows|
    ensures r.Ok? ==> forall n :: 0 <= n < |raw.rows| ==> |r.value.table.rows[n]| == |REQUIRED_COLUMNS|
    ensures r.Ok? ==> forall n, k :: 0 <= n < |raw.rows| && 0 <= k < |REQUIRED_COLUMNS| ==>
      Get(REQUIRED_COLUMNS, r.value.table.rows[n], REQUIRED_COLUMNS[k]) == Get(TrimHeaders(raw.headers), raw.rows[n], REQUIRED_COLUMNS[k])
  {
    var hs := TrimHeaders(raw.headers);
    var present := PresentSet(raw.headers);
    var missing := RequiredSet() - present;
    MissingIsEmptyIff(hs);
    if missing != {} then
      Err(MissingColumns(missing))
    else
      Ok(Validated(Table(REQUIRED_COLUMNS, seq(|raw.rows|, n requires 0 <= n < |raw.rows| => Reorder(hs, raw.rows[n]))),
                   present - RequiredSet()))
  }
}
