# NSE insider-trading table pipeline, modelled in Dafny

This project models the data path of a small Streamlit page (`main.py`).
The page takes an NSE "insider trading" CSV export, checks and reorders its
columns, filters the rows down to promoter market trades in equity shares,
and prunes unused columns. It then builds two per-company summaries: the
buy / sell totals, and the largest buy / sell transaction. Finally it merges
the two into one combined table: it applies the 9,000,000 materiality
threshold, adds the per-share average of each side's largest transaction,
and puts the columns in a fixed order.

Once the CSV is parsed, every step is a pure table transformation. The
model keeps each step as a pure Dafny function over immutable datatypes:

- A table is a list of column names plus rows of `Option<string>` cells.
  `None` is an empty or NaN cell.
- Numbers are exact `real`s.
- Error paths become `Result` values or cases of the `Analytics` datatype.

Modules follow the stages of the page:

| module | stage |
|---|---|
| `Schema` | header trimming, the 29 required columns, the schema check and reordering |
| `RowFilter` | the five automatic row filters and their row counts |
| `Pruner` | removal of the ten unused columns |
| `Transactions` | the column check before the analytics, numeric coercion, the shareholding delta, the buy / sell split |
| `Totals` | the group-by totals, the outer merge of the two sides with zero fill and the symbol rules, the threshold |
| `MaxTransactions` | the per-company max-value and max-shares search, and the null fill |
| `Combiner` | the merge with the max summary, the second threshold, Max Avg and the column order |
| `Pipeline` | the whole page from upload to the analytics outcome |
| `Text`, `Seqs`, `Sorting`, `Wrappers` | string normalisation, Python string order, order-preserving selection, insertion sort, `Option`/`Result` |

Where the documented behaviour and the code disagree, the model follows the
code:

- The max-by-value row has no date of its own. The single "Max ... Date" of
  a side is the date of the max-by-shares row (main.py:487-490).
- A null REGULATION cell is not rejected by the first filter, because it
  reads as the text "nan".

## Model

| member | source | states |
|---|---|---|
| Text.Trim | main.py:118 | the result is the input without its maximal run of leading and of trailing whitespace, and is otherwise a contiguous slice of it |
| Text.CaseFoldAgree | main.py:366 | comparing lower-cased strings (the filters) and comparing upper-cased strings (the buy / sell split) agree on every pair of strings |
| Text.ContainsIff | main.py:174 | `sub in s` holds exactly when `sub` occurs at some position of `s` |
| Text.LessTotal | main.py:424 | Python's string order relates any two distinct strings one way or the other |
| Text.LessTransitive | main.py:424 | Python's string order is transitive |
| Sorting.Sort | main.py:630 | `sorted(...)` returns an ascending permutation of its input, and keeps a duplicate-free input duplicate-free |
| Sorting.SortedUnique | main.py:630 | two ascending lists with the same elements are equal, so the sorted order is fully determined |
| Schema.Validate | main.py:117-140 | succeeds exactly when every required name is among the trimmed headers. On failure the error is exactly the missing set. On success the columns are exactly the 29 required names in canonical order, the ignored set is the extra names, the row count is kept, and each required column holds the uploaded cells of that name row by row |
| Schema.Reorder | main.py:137-140 | a reordered row has 29 cells, and each required name reads the same cell as in the uploaded row |
| RowFilter.FilterChain | main.py:143-175 | the kept rows are an order-preserving subsequence of the input. A row is kept exactly when it passes all five stages, and every copy of a kept row survives while no copy of a rejected one does. The columns are unchanged, and the recorded counts start at the input size, end at the output size and never increase, and the count after each stage is the number of rows passing every stage so far |
| RowFilter.ChainPrefixes | main.py:146-167 | after the regulation, category, transaction-type and mode stages, the table holds exactly the rows passing the first one, two, three and four stages of the source order |
| RowFilter.ChainSelects | main.py:146-175 | the five stages applied in the source order keep exactly the rows passing all of them, and each stage leaves at most as many rows as it received |
| RowFilter.SelectedRows | main.py:146-175 | the rows passing all five stages form an order-preserving subsequence of the input, holding each passing row as often as the input does and no failing row |
| RowFilter.ApplyStagesIsConjunction | main.py:146-175 | running any list of stages one after another keeps exactly the rows that pass every stage in the list, in input order |
| RowFilter.StageOrderIrrelevant | main.py:146-175 | any order of the five stages keeps the same rows as the source order |
| RowFilter.SameStagesSelect | main.py:146-175 | two lists naming the same stages keep the same rows, whatever their order or repetitions |
| RowFilter.FilterChainIdempotent | main.py:146-175 | filtering an already filtered table changes nothing |
| RowFilter.NullRegulationPasses | main.py:147 | a null REGULATION cell is never rejected by the first stage |
| RowFilter.NullNeverKept | main.py:153-174 | a null category, transaction type, mode or prior security type is rejected by its stage |
| Pruner.Prune | main.py:178-194 | the columns are exactly the input's minus the ten removed names (absent ones are no error), in their order. The row count is kept, and every kept column carries its original cells |
| Pruner.PruneKeepsNamedCells | main.py:191-194 | reading a kept column by name gives the same cell before and after pruning |
| Pruner.PruneKeepsAllNamedCells | main.py:191-194 | with distinct column names, every row reads under every surviving column the cell it held before pruning |
| Transactions.FirstMissing | main.py:321-343 | none exactly when all seven checked columns are present; otherwise the first absent one in checking order |
| Transactions.Delta | main.py:363 | the delta is present exactly when both percentages are, and prior + delta = post |
| Transactions.SideRows | main.py:366-368 | a side's rows are the order-preserving subsequence of rows whose normalised type is that side's label, holding each such row as often as the table does and no other row |
| Transactions.AcceptedTypeHasSide | main.py:366-368 | a type cell accepted by the transaction filter as "buy" (or "sell") lands on the BUY (or SELL) side, and only then |
| Transactions.CaseInsensitiveBuy | main.py:366-367 | "Buy", "BUY" and " buy " are all classified as BUY |
| Totals.FirstSymbol | main.py:373 | `first` is null exactly when all of the company's symbols are null; otherwise it is the first non-null one in row order |
| Totals.GroupByCompanyCorrect | main.py:372-377 | the group-by has one group per non-null company. Each group holds the first non-null symbol and the null-skipping sums of shares, value and per-row delta |
| Totals.SumOfAbsent | main.py:402-418 | a company without rows on a side sums to 0 there, the value the zero fill gives it |
| Totals.Truncate | main.py:427-428 | `astype(int)` rounds toward zero |
| Totals.TotalsCorrect | main.py:370-424 | the summary has one row per company named on either side, sorted by company. Each side's totals are that side's null-skipping sums (shares truncated), and 0 when the company has no rows there |
| Totals.SourceSelection | main.py:394-418 | the symbol comes from the sell summary when there are no buy rows. It is back-filled from the whole table when both sides exist and some merged symbol is null. Otherwise it comes from the buy summary |
| Totals.TotalsSymbol | main.py:394-418 | each summary row's symbol is the first non-null symbol of the side or table the merge rules pick for it |
| Totals.NullSymbolIff | main.py:406 | some merged row has a null symbol exactly when some company on either side has no non-null buy symbol |
| Totals.Material | main.py:435 | keeps exactly the rows whose buy total is at least 9,000,000, as an order-preserving subsequence holding each kept row as often as the input does, so sortedness is kept |
| Totals.ThresholdBoundary | main.py:435 | a buy total of exactly 9,000,000 is kept and one of 8,999,999.99 is dropped |
| Totals.TotalsExample | main.py:362-376 | two buys and one sell of one company: the buy value is 300, the sell value 50, and the buy delta is the sum of per-row deltas (0.8) |
| MaxTransactions.MaxPresent | main.py:475 | `max()` is null exactly when every entry is null; otherwise it is an entry no smaller than any non-null entry |
| MaxTransactions.IdxMax | main.py:464-467 | `idxmax()` points at a maximal non-null entry, and no earlier entry attains that maximum |
| MaxTransactions.MaxSharesRow | main.py:473-502 | the chosen row has the top share count and the greatest value among the rows at that count, and is the first such. There is none exactly when every row at the top count has a null value |
| MaxTransactions.MaxSharesChoiceUnique | main.py:486-488 | at most one row meets the max-by-shares choice, so the tie-break is deterministic |
| MaxTransactions.SideMaxOf | main.py:459-506 | the max value is the largest non-null value. The share count is the largest non-null count, reported with the date of the max-by-shares row. Both are null when there is no such row |
| MaxTransactions.SideMaxOfChoice | main.py:486-490 | whichever row meets the max-by-shares choice supplies the reported share count and date |
| MaxTransactions.CompanySideRows | main.py:453-454 | a company's side rows are an order-preserving subsequence of the table holding exactly that side's rows of that company, each as often as the table does; a null company gets none |
| MaxTransactions.MaxKeys | main.py:450-562 | every named company appears once, in ascending order, with one null key last exactly when some row has a null company |
| MaxTransactions.Fill | main.py:564-576 | null values and share counts become 0 and null dates become "N/A"; present values are kept, present share counts are truncated toward zero, and present dates are kept |
| MaxTransactions.MaxAggregate | main.py:447-576 | fails exactly when the table lacks the date column and some record must read a date. Otherwise it gives one filled record per key, in key order |
| MaxTransactions.OneRecordPerCompany | main.py:450-562 | the records name exactly the companies of the table, each once, in ascending order with the null company last |
| MaxTransactions.NullVersusZero | main.py:503-506 | a side without rows reports null and a zero-valued row reports 0; the fill step makes both 0 |
| MaxTransactions.TieBreakExample | main.py:473-490 | of two 500-share rows worth 1000 and 2000, the 2000 row's date is reported |
| MaxTransactions.IndependentMaxima | main.py:463-490 | the max value (5000, of 100 shares) and the max share count (900, worth 1000) can come from different rows, and the date follows the share count |
| Combiner.FindMax | main.py:579-584 | the merge finds the first max record of the company, and none exactly when there is no such record |
| Combiner.MaxAvg | main.py:593-608 | the average times the share count is the max value when the share count is positive, and the average is 0 otherwise |
| Combiner.Join | main.py:579-608 | a merged row carries its totals and its company's max record. Its averages come from that record, and are 0 when there is none |
| Combiner.Combine | main.py:579-591 | the rows are exactly the totals rows at or above the threshold, each joined with its max record, sorted by company when the totals are |
| Combiner.MaterialIdempotent | main.py:586-588 | the second threshold removes nothing the first kept |
| Combiner.SidePartCorrect | main.py:627-630 | a side's columns are exactly the present columns of that side, the fixed names first in their fixed order, then the rest ascending |
| Combiner.FullOrderCovers | main.py:611-648 | every merged column has a place in the full column order |
| Combiner.ColumnOrderCorrect | main.py:610-652 | the final columns are a permutation of the merged table's columns. COMPANY comes first, then SYMBOL, then the buy group in its fixed order with the others ascending, then the sell group likewise, then everything else ascending |
| Combiner.OrderOfCombinedSet | main.py:610-652 | any duplicate-free column list with exactly the combined names is reordered into the one canonical list |
| Combiner.CombinedColumnOrder | main.py:610-652 | whichever side the totals summary leads with, the combined columns come out as COMPANY, SYMBOL, the seven buy columns in fixed order and the seven sell columns in fixed order |
| Pipeline.Analyze | main.py:316-343 | no rows gives the no-data outcome. A missing checked column is reported exactly when the table has rows and one of the seven is absent, and it names the first absent one in checking order. A totals-only outcome happens only without the date column |
| Pipeline.Summaries | main.py:422-438 | the summaries never report missing columns. The totals-only fallback happens only without the date column. Every shown row, of either outcome, meets the threshold |
| Pipeline.Present | main.py:779-781 | the totals are shown alone exactly when the max summary fails, and the combined table exactly when it succeeds |
| Pipeline.ShowTotals | main.py:783-788 | the fallback shows the totals columns and exactly the totals rows meeting the threshold, in order and with every copy, sorted when the totals are |
| Pipeline.ShowCombined | main.py:578-652 | the combined table has the sixteen canonical columns whichever side the totals lead with. Its rows are exactly the totals rows meeting the threshold, each joined with its company's max record, sorted when the totals are |
| Pipeline.Run | main.py:113-194 | fails exactly when a required column is missing after trimming, naming exactly the missing set. Otherwise it reports the ignored extras, row counts from the upload size to the analysed size with each stage's count the number of rows passing every stage so far, and a table with the canonical columns minus the pruned ones that holds, in order, exactly the validated rows passing all five stages, each surviving column reading that row's cell |
| Pipeline.Prepare | main.py:143-194 | filtering and pruning a validated upload keeps its ignored names, counts from the validated row count down to the analysed one with each stage's count the number of rows passing every stage so far, and the selected rows in order with their cells under every surviving column |
| Pipeline.AnalysedRows | main.py:143-194 | after the schema check, the pruned table has one row per selected row and each surviving column reads the cell the selected row held under that name |
| Pipeline.NoTransactionsIff | main.py:370-422 | the totals are empty exactly when no row with a named company is on either side |
| Pipeline.TotalsCompanyHasMax | main.py:450-454 | every company of the totals summary has a max record |
| Pipeline.CombinedHasMax | main.py:579-584 | every combined row has found its max record |
| Pipeline.CombinedColumns | main.py:610-652 | the combined table always has exactly the sixteen canonical columns in canonical order |
| Pipeline.CombinedKeepsMaterial | main.py:586-591 | the combined rows are sorted by company and are exactly the totals rows meeting the threshold |
| Pipeline.CombinedCompaniesTraded | main.py:586-588 | every combined row's company traded on some side |
| Pipeline.PrunedColumnsKeepAnalytics | main.py:178-194 | pruning the canonical columns keeps all seven checked columns and the date column |
| Pipeline.AnalyzeWithAllColumns | main.py:321-343 | with all checked columns and the date column present, the outcome is no data (exactly when there are no rows), no transactions, or the combined table |
| Pipeline.PipelineOutcomes | main.py:113-343 | an upload that passes the schema check never reports a missing analytics column or falls back to the totals alone |
| Pipeline.NoRowsExactly | main.py:316 | on an upload that passes the schema check, the no-data outcome happens exactly when no validated row passes the five stages |

## Left out

- The Streamlit page itself is left out: page setup, banner, uploader, metrics, the ad-hoc multiselect / selectbox filters, the data preview, the statistics expander, the distinct-company caption and all messages (main.py:6-110, 199-314, 816-848). It is presentation only.
- CSV reading and writing (`read_csv`, `to_csv`, download buttons) is left out. The model starts from an already parsed table of text cells.
- Pandas resolution of duplicate header names is not modelled. A name reads the first column called that way.
- `pd.to_numeric(errors='coerce')` is an uninterpreted parameter `parse: string -> Option<real>`. Parsing text into numbers is library behaviour.
- Case mapping (`lower()` / `upper()`) is ASCII only, because the Unicode case tables are out of scope. Whitespace for `strip()` is Python's full `isspace` set.
- The CSS that groups the combined table's columns (main.py:654-759) is styling only.
- `parse` yields only finite reals, so the exception paths that an infinite or overflowing number would take are not modelled. In the source, `astype(int)` on an infinite total share count (main.py:427-428) raises into the outer handler (main.py:808), and on an infinite max share count (main.py:568, 572) it raises into the inner handler (main.py:779), which shows the totals alone even when the date column is present.
- Pipeline.Analyze: its clause that the totals-only outcome happens only without the date column holds only because `parse` yields finite reals; with infinite numbers the source also falls back at main.py:779.
- Pipeline.Summaries: the same holds for its clause that the totals-only outcome happens only without the date column.
- The broad exception handlers (main.py:779, 808) are otherwise modelled only through the `KeyError` for a missing date column, which becomes the totals-only outcome.
- Floating point is left out: numbers are exact reals, so sums have no rounding error.
- MaxTransactions.Fill: does not apply `round(2)` to max values; values are exact.
- Combiner.MaxAvg: does not apply `round(2)` to the average, because rounding a real is presentation only.
- Totals.Material: compares the exact buy total with 9,000,000, while the source compares the value after `round(2)`. The two differ only for totals within half a paisa below the threshold.
- Totals.TotalsCorrect: states value and delta totals without the `round(2)` / `round(4)` display rounding.
- Combined rows are built in the totals summary's order rather than re-sorted. `Combine` proves that this order is the company order that `sort_values` gives.
