/**
  The column pruner (main.py:178-194): drops whichever of ten fixed columns
  are present and leaves every other column, their order and every row alone.
 */
module Pruner {
  import opened Wrappers
  import opened Seqs
  import opened Schema

  const COLUMNS_TO_REMOVE: seq<string> := [
    "DERIVATIVE TYPE SECURITY",
    "DERIVATIVE CONTRACT SPECIFICATION",
    "NOTIONAL VALUE(BUY)",
    "NUMBER OF UNITS/CONTRACT LOT SIZE (BUY)",
    "NOTIONAL VALUE(SELL)",
    "NUMBER OF UNITS/CONTRACT LOT SIZE  (SELL)",
    "REMARK",
    "BROADCASTE DATE AND TIME",
    "XBRL",
    "TYPE OF SECURITY (ACQUIRED/DISPLOSED)"
  ]

  predicate Kept(c: string) {
    c !in COLUMNS_TO_REMOVE
  }

  /** The positions from `j` on whose column is not removed, in increasing order. */
  function KeptFrom(columns: seq<string>, j: nat): (idx: seq<nat>)
    requires j <= |columns|
    ensures forall k :: 0 <= k < |idx| ==> j <= idx[k] < |columns| && Kept(columns[idx[k]])
    ensures forall k, l :: 0 <= k < l < |idx| ==> idx[k] < idx[l]
    ensures forall i :: j <= i < |columns| && Kept(columns[i]) ==> i in idx
    decreases |columns| - j
  {
    if j == |columns| then []
    else if Kept(columns[j]) then [j] + KeptFrom(columns, j + 1)
    else KeptFrom(columns, j + 1)
  }

  function Select(columns: seq<string>, idx: seq<nat>): seq<string>
    requires forall k :: 0 <= k < |idx| ==> idx[k] < |columns|
  {
    seq(|idx|, k requires 0 <= k < |idx| => columns[idx[k]])
  }

  function Project(r: Row, idx: seq<nat>): Row {
    seq(|idx|, k requires 0 <= k < |idx| => CellAt(r, idx[k]))
  }

  /**
    `df.drop(columns=existing)`. The column list loses exactly the removed
    names (those absent cause no error), the other names keep their order,
    the row count is unchanged, and in every row each kept column still holds
    the cell it held before.
   */
  function Prune(t: Table): (r: Table)
    ensures r.columns == Filter(Kept, t.columns)
    ensures |r.rows| == |t.rows|
    ensures |r.columns| == |KeptFrom(t.columns, 0)|
    ensures forall n :: 0 <= n < |t.rows| ==> |r.rows[n]| == |r.columns|
    ensures forall n, k :: 0 <= n < |t.rows| && 0 <= k < |r.columns| ==>
      r.rows[n][k] == CellAt(t.rows[n], KeptFrom(t.columns, 0)[k]) && r.columns[k] == t.columns[KeptFrom(t.columns, 0)[k]]
  {
    var idx := KeptFrom(t.columns, 0);
    SelectKeptIsFilter(t.columns, 0);
    assert t.columns[0..] == t.columns;
    Table(Select(t.columns, idx), seq(|t.rows|, n requires 0 <= n < |t.rows| => Project(t.rows[n], idx)))
  }

  lemma {:induction false} SelectKeptIsFilter(columns: seq<string>, j: nat)
    requires j <= |columns|
    ensures Select(columns, KeptFrom(columns, j)) == Filter(Kept, columns[j..])
    decreases |columns| - j
  {
    if j < |columns| {
      SelectKeptIsFilter(columns, j + 1);
      assert columns[j..][1..] == columns[j + 1..];
      FilterCons(Kept, columns[j..]);
      if Kept(columns[j]) {
        SelectCons(columns, j, KeptFrom(columns, j + 1));
      }
    }
  }

  lemma SelectCons(columns: seq<string>, j: nat, rest: seq<nat>)
    requires j < |columns| && forall k :: 0 <= k < |rest| ==> rest[k] < |columns|
    ensures Select(columns, [j] + rest) == [columns[j]] + Select(columns, rest)
  {
    var a := Select(columns, [j] + rest);
    var b := [columns[j]] + Select(columns, rest);
    assert |a| == |b|;
    forall k | 0 <= k < |a| ensures a[k] == b[k] {
      if k > 0 {
        assert ([j] + rest)[k] == rest[k - 1];
      }
    }
  }

  /** Every column that survives pruning reads, row by row, the cells it held before. */
  lemma PruneKeepsAllNamedCells(t: Table)
    requires NoDups(t.columns)
    ensures forall n, name :: 0 <= n < |t.rows| && name in Prune(t).columns ==>
      Get(Prune(t).columns, Prune(t).rows[n], name) == Get(t.columns, t.rows[n], name)
  {
    forall n, name | 0 <= n < |t.rows| && name in Prune(t).columns
      ensures Get(Prune(t).columns, Prune(t).rows[n], name) == Get(t.columns, t.rows[n], name)
    {
      PruneKeepsNamedCells(t, n, name);
    }
  }

  /**
    For a table whose column names are distinct, reading any kept column
    by name gives the same cell before and after pruning.
   */
  lemma PruneKeepsNamedCells(t: Table, n: nat, name: string)
    requires NoDups(t.columns)
    requires n < |t.rows| && Kept(name)
    ensures Get(Prune(t).columns, Prune(t).rows[n], name) == Get(t.columns, t.rows[n], name)
  {
    var r := Prune(t);
    var idx := KeptFrom(t.columns, 0);
    if name in t.columns {
      var i := IndexOf(t.columns, name);
      assert i in idx;
      var k :| 0 <= k < |idx| && idx[k] == i;
      assert r.columns[k] == name;
      var k' := IndexOf(r.columns, name);
      assert k' <= k;
      assert t.columns[idx[k']] == name;
      assert idx[k'] == i;
    }
  }
}
