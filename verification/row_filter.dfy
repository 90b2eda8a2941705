/**
  The five automatic row filters (main.py:146-175). Each stage looks at one
  cell after `astype(str)`, `strip()` and (stages 2-5) `lower()`; stages 2-5
  also reject a null cell, stage 1 does not, because a null cell becomes
  the text "nan".
 */
module RowFilter {
  import opened Wrappers
  import opened Text
  import opened Seqs
  import opened Schema

  const REGULATION := "REGULATION"
  const CATEGORY_OF_PERSON := "CATEGORY OF PERSON"
  const TRANSACTION_TYPE := "ACQUISITION/DISPOSAL TRANSACTION TYPE"
  const MODE_OF_ACQUISITION := "MODE OF ACQUISITION"
  const SECURITY_PRIOR := "TYPE OF SECURITY (PRIOR)"

  /** `astype(str)`: a null cell reads as "nan". */
  function AsText(c: Cell): string {
    match c
    case Some(s) => s
    case None => "nan"
  }

  /** `astype(str).str.strip().str.lower()`. */
  function Normalize(c: Cell): string {
    Lower(Trim(AsText(c)))
  }

  datatype Stage = Regulation | Category | TransactionType | Mode | SecurityPrior

  /** The order in which the source applies the stages. */
  const SOURCE_ORDER: seq<Stage> := [Regulation, Category, TransactionType, Mode, SecurityPrior]

  /** Whether row `r` of a table with these columns survives one stage. */
  predicate Passes(stage: Stage, columns: seq<string>, r: Row) {
    match stage
    case Regulation =>
      Trim(AsText(Get(columns, r, REGULATION))) != "7(3)"
    case Category =>
      var c := Get(columns, r, CATEGORY_OF_PERSON);
      c.Some? && (Normalize(c) == "promoter group" || Normalize(c) == "promoters")
    case TransactionType =>
      var c := Get(columns, r, TRANSACTION_TYPE);
      c.Some? && (Normalize(c) == "buy" || Normalize(c) == "sell")
    case Mode =>
      var c := Get(columns, r, MODE_OF_ACQUISITION);
      c.Some? && (Normalize(c) == "market sale" || Normalize(c) == "market purchase")
    case SecurityPrior =>
      var c := Get(columns, r, SECURITY_PRIOR);
      c.Some? && Contains(Normalize(c), "equity share")
  }

  /** Whether `r` survives every stage listed in `stages`. */
  predicate PassesAll(stages: seq<Stage>, columns: seq<string>, r: Row) {
    forall i :: 0 <= i < |stages| ==> Passes(stages[i], columns, r)
  }

  /** The rows of `t` that pass all five stages, every copy kept, in input order. */
  function Selected(t: Table): seq<Row> {
    Filter((row: Row) => PassesAll(SOURCE_ORDER, t.columns, row), t.rows)
  }

  /** The rows of `t` that pass the first `k` stages of the source order, every copy kept, in input order. */
  function PassingFirst(k: nat, t: Table): seq<Row>
    requires k <= |SOURCE_ORDER|
  {
    var stages := SOURCE_ORDER[..k];
    Filter((row: Row) => PassesAll(stages, t.columns, row), t.rows)
  }

  function ApplyStage(stage: Stage, t: Table): (r: Table)
    ensures r.columns == t.columns
  {
    Table(t.columns, Filter((row: Row) => Passes(stage, t.columns, row), t.rows))
  }

  /** Applies the stages one after the other, first to last. */
  function ApplyStages(stages: seq<Stage>, t: Table): (r: Table)
    ensures r.columns == t.columns
    decreases |stages|
  {
    if |stages| == 0 then t
    else ApplyStages(stages[1..], ApplyStage(stages[0], t))
  }

  /** Row counts recorded before the first and after every stage. */
  datatype StageCounts = StageCounts(original: nat, regulation: nat, category: nat,
                                     transaction: nat, mode: nat, final: nat)

  datatype Filtered = Filtered(table: Table, counts: StageCounts)

  /**
    The filter chain as the source runs it. The result keeps the columns,
    its rows are an order-preserving subsequence of the input, a row is kept
    exactly when it passes all five stages, and the count recorded after
    each stage is the number of rows passing every stage so far.
   */
  function FilterChain(t: Table): (r: Filtered)
    ensures r.table.columns == t.columns
    ensures IsSubseq(r.table.rows, t.rows)
    ensures forall i :: 0 <= i < |r.table.rows| ==> PassesAll(SOURCE_ORDER, t.columns, r.table.rows[i])
    ensures forall i :: 0 <= i < |t.rows| && PassesAll(SOURCE_ORDER, t.columns, t.rows[i]) ==> t.rows[i] in r.table.rows
    ensures forall i :: 0 <= i < |r.table.rows| ==> r.table.rows[i] in t.rows
    ensures r.table.rows == Selected(t)
    ensures forall x {:trigger multiset(r.table.rows)[x]} :: multiset(r.table.rows)[x] == if PassesAll(SOURCE_ORDER, t.columns, x) then multiset(t.rows)[x] else 0
    ensures r.counts.original == |t.rows| && r.counts.final == |r.table.rows|
    ensures r.counts.regulation == |PassingFirst(1, t)| && r.counts.category == |PassingFirst(2, t)|
    ensures r.counts.transaction == |PassingFirst(3, t)| && r.counts.mode == |PassingFirst(4, t)|
    ensures r.counts.original >= r.counts.regulation >= r.counts.category
            >= r.counts.transaction >= r.counts.mode >= r.counts.final
  {
    var t1 := ApplyStage(Regulation, t);
    var t2 := ApplyStage(Category, t1);
    var t3 := ApplyStage(TransactionType, t2);
    var t4 := ApplyStage(Mode, t3);
    var t5 := ApplyStage(SecurityPrior, t4);
    ChainSelects(t, t1, t2, t3, t4, t5);
    ChainPrefixes(t, t1, t2, t3, t4);
    SelectedRows(t, t5.rows);
    Filtered(t5, StageCounts(|t.rows|, |t1.rows|, |t2.rows|, |t3.rows|, |t4.rows|, |t5.rows|))
  }

  /** The five stages run one after another select `Selected(t)`, and no stage adds rows. */
  lemma ChainSelects(t: Table, t1: Table, t2: Table, t3: Table, t4: Table, t5: Table)
    requires t1 == ApplyStage(Regulation, t) && t2 == ApplyStage(Category, t1)
    requires t3 == ApplyStage(TransactionType, t2) && t4 == ApplyStage(Mode, t3)
    requires t5 == ApplyStage(SecurityPrior, t4)
    ensures t5.columns == t.columns && t5.rows == Selected(t)
    ensures |t.rows| >= |t1.rows| >= |t2.rows| >= |t3.rows| >= |t4.rows| >= |t5.rows|
  {
    SourceOrderUnfolds(t);
    SourceOrderSelects(t);
  }

  /** After each of the first four stages, the rows left are those passing every stage so far. */
  lemma ChainPrefixes(t: Table, t1: Table, t2: Table, t3: Table, t4: Table)
    requires t1 == ApplyStage(Regulation, t) && t2 == ApplyStage(Category, t1)
    requires t3 == ApplyStage(TransactionType, t2) && t4 == ApplyStage(Mode, t3)
    ensures t1.rows == PassingFirst(1, t) && t2.rows == PassingFirst(2, t)
    ensures t3.rows == PassingFirst(3, t) && t4.rows == PassingFirst(4, t)
  {
    EarlyPrefixes(t, t1, t2);
    LatePrefixes(t, t2, t3, t4);
  }

  lemma EarlyPrefixes(t: Table, t1: Table, t2: Table)
    requires t1 == ApplyStage(Regulation, t) && t2 == ApplyStage(Category, t1)
    ensures t1.rows == PassingFirst(1, t) && t2.rows == PassingFirst(2, t)
    ensures t2 == ApplyStages(SOURCE_ORDER[..2], t)
  {
    assert SOURCE_ORDER[..0] == [];
    assert SOURCE_ORDER[0] == Regulation && SOURCE_ORDER[1] == Category;
    PrefixNext(t, 0, 1, t, t1);
    PrefixNext(t, 1, 2, t1, t2);
  }

  lemma LatePrefixes(t: Table, t2: Table, t3: Table, t4: Table)
    requires t2 == ApplyStages(SOURCE_ORDER[..2], t)
    requires t3 == ApplyStage(TransactionType, t2) && t4 == ApplyStage(Mode, t3)
    ensures t3.rows == PassingFirst(3, t) && t4.rows == PassingFirst(4, t)
  {
    assert SOURCE_ORDER[2] == TransactionType && SOURCE_ORDER[3] == Mode;
    PrefixNext(t, 2, 3, t2, t3);
    PrefixNext(t, 3, 4, t3, t4);
  }

  /** The stage after the first `k` leaves the rows passing the first `k + 1`. */
  lemma PrefixNext(t: Table, k: nat, k1: nat, prev: Table, next: Table)
    requires k1 == k + 1 <= |SOURCE_ORDER| && prev == ApplyStages(SOURCE_ORDER[..k], t)
    requires next == ApplyStage(SOURCE_ORDER[k], prev)
    ensures next == ApplyStages(SOURCE_ORDER[..k1], t) && next.rows == PassingFirst(k1, t)
  {
    PrefixStep(SOURCE_ORDER, k, t);
    PrefixSelects(t, k1, next);
  }

  /** Running the stage after a prefix of `stages` is running the prefix one longer. */
  lemma PrefixStep(stages: seq<Stage>, k: nat, t: Table)
    requires k < |stages|
    ensures ApplyStage(stages[k], ApplyStages(stages[..k], t)) == ApplyStages(stages[..k + 1], t)
  {
    assert stages[..k + 1] == stages[..k] + [stages[k]];
    ApplyStagesSnoc(stages[..k], stages[k], t);
  }

  /** The rows left by the first `k` stages of the source order are `PassingFirst(k, t)`. */
  lemma PrefixSelects(t: Table, k: nat, tk: Table)
    requires k <= |SOURCE_ORDER| && tk == ApplyStages(SOURCE_ORDER[..k], t)
    ensures tk.rows == PassingFirst(k, t)
  {
    ApplyStagesIsConjunction(SOURCE_ORDER[..k], t);
  }

  /** Running a list of stages and then one more is running the extended list. */
  lemma {:induction false} ApplyStagesSnoc(stages: seq<Stage>, s: Stage, t: Table)
    ensures ApplyStages(stages + [s], t) == ApplyStage(s, ApplyStages(stages, t))
    decreases |stages|
  {
    if |stages| == 0 {
      assert [] + [s] == [s];
      assert [s][1..] == [];
    } else {
      assert (stages + [s])[1..] == stages[1..] + [s];
      ApplyStagesSnoc(stages[1..], s, ApplyStage(stages[0], t));
    }
  }

  lemma SourceOrderUnfolds(t: Table)
    ensures ApplyStages(SOURCE_ORDER, t)
         == ApplyStage(SecurityPrior, ApplyStage(Mode, ApplyStage(TransactionType, ApplyStage(Category, ApplyStage(Regulation, t)))))
  {
    assert SOURCE_ORDER[1..] == [Category, TransactionType, Mode, SecurityPrior];
    assert SOURCE_ORDER[1..][1..] == [TransactionType, Mode, SecurityPrior];
    assert SOURCE_ORDER[1..][1..][1..] == [Mode, SecurityPrior];
    assert SOURCE_ORDER[1..][1..][1..][1..] == [SecurityPrior];
    assert SOURCE_ORDER[1..][1..][1..][1..][1..] == [];
  }

  lemma SourceOrderSelects(t: Table)
    ensures ApplyStages(SOURCE_ORDER, t).rows == Selected(t)
  {
    ApplyStagesIsConjunction(SOURCE_ORDER, t);
  }

  /**
    The selected rows are an order-preserving subsequence holding exactly
    the rows that pass all five stages, each as often as in the input.
   */
  lemma SelectedRows(t: Table, f: seq<Row>)
    requires f == Selected(t)
    ensures IsSubseq(f, t.rows)
    ensures forall i :: 0 <= i < |f| ==> PassesAll(SOURCE_ORDER, t.columns, f[i])
    ensures forall i :: 0 <= i < |t.rows| && PassesAll(SOURCE_ORDER, t.columns, t.rows[i]) ==> t.rows[i] in f
    ensures forall i :: 0 <= i < |f| ==> f[i] in t.rows
    ensures forall x {:trigger multiset(f)[x]} :: multiset(f)[x] == if PassesAll(SOURCE_ORDER, t.columns, x) then multiset(t.rows)[x] else 0
  {
    FilterIsSubseq((row: Row) => PassesAll(SOURCE_ORDER, t.columns, row), t.rows);
    FilterCounts((row: Row) => PassesAll(SOURCE_ORDER, t.columns, row), t.rows);
  }

  /** Running a list of stages keeps exactly the rows that pass all of them, in order. */
  lemma {:induction false} ApplyStagesIsConjunction(stages: seq<Stage>, t: Table)
    ensures ApplyStages(stages, t).rows == Filter((row: Row) => PassesAll(stages, t.columns, row), t.rows)
    decreases |stages|
  {
    var all := (row: Row) => PassesAll(stages, t.columns, row);
    if |stages| == 0 {
      FilterAllPass(all, t.rows);
    } else {
      var first := (row: Row) => Passes(stages[0], t.columns, row);
      var rest := (row: Row) => PassesAll(stages[1..], t.columns, row);
      ApplyStagesIsConjunction(stages[1..], ApplyStage(stages[0], t));
      forall row ensures all(row) == (first(row) && rest(row)) {
        if first(row) && rest(row) {
          forall i | 0 <= i < |stages| ensures Passes(stages[i], t.columns, row) {
            if i > 0 { assert stages[i] == stages[1..][i - 1]; }
          }
        }
        if all(row) {
          forall i | 0 <= i < |stages[1..]| ensures Passes(stages[1..][i], t.columns, row) {
            assert stages[1..][i] == stages[i + 1];
          }
        }
      }
      FilterFuse(rest, first, all, t.rows);
    }
  }

  /**
    Applying the stages in any order (or any list naming the same stages)
    leaves the same rows as the source's chain: only the intermediate
    counts depend on the order.
   */
  lemma StageOrderIrrelevant(stages: seq<Stage>, t: Table)
    requires forall s :: s in stages <==> s in SOURCE_ORDER
    ensures ApplyStages(stages, t).rows == FilterChain(t).table.rows
  {
    StagesSelect(stages, t);
  }

  /** Any list naming the five stages selects the rows that pass all of them. */
  lemma StagesSelect(stages: seq<Stage>, t: Table)
    requires forall s :: s in stages <==> s in SOURCE_ORDER
    ensures ApplyStages(stages, t).rows == Selected(t)
  {
    SameStagesSelect(stages, SOURCE_ORDER, t);
    SourceOrderSelects(t);
  }

  /** Two lists naming the same stages keep the same rows. */
  lemma SameStagesSelect(a: seq<Stage>, b: seq<Stage>, t: Table)
    requires forall s :: s in a <==> s in b
    ensures ApplyStages(a, t).rows == ApplyStages(b, t).rows
  {
    ApplyStagesIsConjunction(a, t);
    ApplyStagesIsConjunction(b, t);
    var p := (row: Row) => PassesAll(a, t.columns, row);
    var q := (row: Row) => PassesAll(b, t.columns, row);
    forall i | 0 <= i < |t.rows| ensures p(t.rows[i]) == q(t.rows[i]) {
      SameStagesPass(a, b, t.columns, t.rows[i]);
      SameStagesPass(b, a, t.columns, t.rows[i]);
    }
    FilterAgree(p, q, t.rows);
  }

  /** A row passing every stage of `b` passes every stage of a list naming only stages of `b`. */
  lemma SameStagesPass(a: seq<Stage>, b: seq<Stage>, columns: seq<string>, row: Row)
    requires forall s :: s in a ==> s in b
    ensures PassesAll(b, columns, row) ==> PassesAll(a, columns, row)
  {
    if PassesAll(b, columns, row) {
      forall j | 0 <= j < |a| ensures Passes(a[j], columns, row) {
        assert a[j] in a;
        var k :| 0 <= k < |b| && b[k] == a[j];
        assert Passes(b[k], columns, row);
      }
    }
  }

  /** The filtered table is a fixed point of the chain. */
  lemma FilterChainIdempotent(t: Table)
    ensures FilterChain(FilterChain(t).table).table == FilterChain(t).table
  {
    var f := FilterChain(t).table;
    var q := (row: Row) => PassesAll(SOURCE_ORDER, f.columns, row);
    ApplyStagesIsConjunction(SOURCE_ORDER, f);
    FilterAllPass(q, f.rows);
    SourceOrderUnfolds(f);
  }

  /** A null regulation is not "7(3)" and so survives stage 1. */
  lemma NullRegulationPasses(columns: seq<string>, r: Row)
    requires Get(columns, r, REGULATION) == None
    ensures Passes(Regulation, columns, r)
  {
    TrimUnspaced("nan");
  }

  /** Stages 2-5 never keep a row whose examined cell is null. */
  lemma NullNeverKept(stage: Stage, columns: seq<string>, r: Row)
    requires stage != Regulation
    requires stage == Category ==> Get(columns, r, CATEGORY_OF_PERSON) == None
    requires stage == TransactionType ==> Get(columns, r, TRANSACTION_TYPE) == None
    requires stage == Mode ==> Get(columns, r, MODE_OF_ACQUISITION) == None
    requires stage == SecurityPrior ==> Get(columns, r, SECURITY_PRIOR) == None
    ensures !Passes(stage, columns, r)
  {
  }
}
