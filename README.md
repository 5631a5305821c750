# Cost dashboard: loading, filtering and aggregation

This project models the data core of the Scania cost dashboard (`dashbord.py`).
The dashboard reads one consolidated sheet of supplier bills. Each bill has a
supplier, a dealer (`CATEGORIA_SCANIA`), a category, a document number and
type, an instalment count, issue and due dates, an amount (`VALOR`) and task
fields. From this sheet the dashboard does five things:

- `load_data` normalises the sheet. Its header mapping has 13 pairs, applied
  in mapping order: 12 rename a known header variant to its canonical name,
  and `VALOR` maps to itself. It coerces the two date columns and the
  amount, treating unparseable values as missing (NaT/NaN). When the due date
  is present it derives `ANO`, `MES`, `MES_ANO`, `MES_NOME` and `ANO_MES`. It
  drops the rows without an amount. Any exception, including the `KeyError` of
  `dropna` on a sheet without `VALOR`, gives an empty frame.
- `apply_filters` copies the frame and narrows it by up to seven optional
  masks, in this order:
  - the due-date range, when the column exists and the frame is not empty;
  - the year, unless "Todos" is chosen;
  - the dealer, category, document type, task name and consolidated-task
    multi-selects, each when something is selected and its column exists.
- `create_metrics` computes four headline figures: the total, the count, the
  mean (only when the count is positive) and the largest amount.
- The charts and tables group and sum the amounts:
  - per month, sorted by (`ANO`, `MES`);
  - per category;
  - per dealer, sorted ascending;
  - the 15 largest consolidated tasks, largest first;
  - a supplier ranking, largest first, with the number of its present
    document numbers.

The project has nine Dafny files:

- `Wrappers.dfy`: `Option`.
- `Records.dfy`: dates, the cell values of a sheet (`Blank` is pandas' NaN/NaT),
  the loaded record and the frame, which is a set of column labels plus ordered
  rows.
- `Loader.dfy`: the rename and coercion loops of `load_data`, as a method with
  loop invariants, proved against a function `Loaded`.
- `Filters.dfy`:
  - `apply_filters` as a method that reassigns a local row sequence mask by mask;
  - the masks as a `Pred` datatype;
  - the filter's meaning, `Satisfying`, with lemmas about order, membership,
    idempotence and the identity case.
- `Sorting.dfy`: `sort_values` as an insertion sort, specified by sortedness
  and permutation.
- `Grouping.dfy`: `groupby(...).sum()` as an association list, with
  conservation of totals.
- `Views.dfy`: the metrics and the five aggregates.
- `Dashboard.dfy`: the pipeline of `main`, loading then filtering then the
  metrics.
- `Examples.dfy`: three bills worked through the filters and the monthly view.

Amounts are whole centavos (`int`), so sums are exact. The mean is the exact
quotient (`real`).

The sidebar's empty multi-select lists behave as the code behaves: an empty
list switches its filter off, so every row passes it.

## Model

| member | source | states |
|---|---|---|
| Loader.Loaded | dashbord.py:96-132 | no contract of its own; specified by LoadedAmountsPresent, LoadedDerivedFromDueDate, LoadedColumnsAre and LoadedRowCount, and the function LoadData is proved against |
| Loader.LoadData | dashbord.py:96-132 | the rename loop, the date loop, the amount coercion, the derived columns, the `dropna` and its `KeyError` path give exactly `Loaded(sheet)` |
| Loader.MappingNeverChains | dashbord.py:79-93 | no canonical name of the mapping is a later variant, so no header is renamed twice |
| Loader.MappingNeverUndoes | dashbord.py:79-93 | no canonical name of the mapping is an earlier variant either |
| Loader.StepsAreLookup | dashbord.py:96-98 | without chains, applying the renames one by one equals looking the header up once in the mapping |
| Loader.RenameStepsPointwise | dashbord.py:96-98 | renaming keeps the number and positions of the headers, and each header is renamed on its own |
| Loader.RenameLoopIsCanonical | dashbord.py:96-98 | after the rename loop each header is the canonical name of the original header at that position |
| Loader.CanonicalRenamesOnlyVariants | dashbord.py:96-98 | a header that is no known variant keeps its name, and a variant gets the canonical name the mapping gives it |
| Loader.CanonicalIdempotent | dashbord.py:79-98 | renaming already-canonical headers changes nothing |
| Loader.KeepValuedHaveAmounts | dashbord.py:120 | every row kept by `dropna` has a numeric amount |
| Loader.LoadedAmountsPresent | dashbord.py:114-120 | no loaded row has a missing VALOR |
| Loader.LoadedDerivedFromDueDate | dashbord.py:107-112 | a loaded row has ANO and MES exactly when it has a due date, and then they are the due date's year and month |
| Loader.LoadedColumnsAre | dashbord.py:96-132 | without VALOR the result is the empty frame; otherwise every input header's canonical name is a column, and every column is a canonical header or a derived column |
| Loader.FieldOfCoerceRow | dashbord.py:101-117 | converting one column changes that column's cell only |
| Loader.CoerceDatesKeepsAmounts | dashbord.py:101-104 | the date loop keeps the row count and the amount cells |
| Loader.KeepValuedSameAmounts | dashbord.py:120 | `dropna` keeps as many rows of two tables whose amount cells are numeric at the same places |
| Loader.LoadedRowCount | dashbord.py:114-120 | the loaded rows are exactly as many as the sheet rows whose raw amount is a number |
| Filters.Keep | dashbord.py:269-297 | no contract of its own; one boolean mask, specified through Satisfying's lemmas |
| Filters.Satisfying | dashbord.py:265-299 | no contract of its own; the rows passing every mask, specified by SatisfyingMembership, SatisfyingIsSubsequence, SatisfyingIdempotent and SatisfyingAll |
| Filters.Filtered | dashbord.py:263-299 | no contract of its own; the function ApplyFilters is proved against, specified by FilterMembership, FilterPreservesOrder, FilterDueRange, FilterIdentity and FilterIdempotent |
| Filters.ApplyFilters | dashbord.py:263-299 | the frame after the seven optional narrowing steps has the input's columns and the rows of `Filtered(f, q)` |
| Filters.SatisfyingNothing | dashbord.py:265 | with no mask applied the copy holds every row |
| Filters.KeepExtends | dashbord.py:269-297 | one more mask on the survivors is the same as filtering by all the masks together |
| Filters.KeepOrSkip | dashbord.py:268-297 | an optional step narrows by its mask when it has one and leaves the rows alone otherwise |
| Filters.FilteredStepwise | dashbord.py:265-297 | the seven optional steps in source order leave exactly the rows of `Filtered` |
| Filters.AllHoldAppend | dashbord.py:268-297 | masks combine by logical AND |
| Filters.ActivePredsMeaning | dashbord.py:268-297 | a row passes every active mask iff it meets each filter whose condition for applying holds |
| Filters.SatisfyingMembership | dashbord.py:269-297 | a row survives iff it is an input row and passes every mask |
| Filters.SatisfyingCount | dashbord.py:269-297 | each row occurs among the survivors as often as in the input when it passes every mask, and not at all otherwise |
| Filters.SatisfyingIsSubsequence | dashbord.py:265-299 | filtering keeps a subsequence of the rows in their original order |
| Filters.SatisfyingIdempotent | dashbord.py:269-297 | filtering the survivors by the same masks again changes nothing |
| Filters.SatisfyingAll | dashbord.py:269-297 | when every row passes every mask the rows come back unchanged |
| Filters.SubsequenceShorter | dashbord.py:265-299 | a subsequence is no longer than the sequence |
| Filters.FilterPreservesOrder | dashbord.py:265-299 | apply_filters keeps the columns, never adds rows and returns a subsequence of the input rows |
| Filters.FilterMembership | dashbord.py:268-297 | a row is in the result iff it is an input row that meets every applicable filter (range, year, five multi-selects) |
| Filters.FilterCount | dashbord.py:263-299 | every copy of an admitted bill survives apply_filters and no copy of any other bill does: each row's multiplicity is kept when the selection admits it and is zero otherwise |
| Filters.FilterDueRange | dashbord.py:268-272 | with a due-date column every surviving row has a due date inside the inclusive range, so rows without one are removed |
| Filters.FilterSkipsEmptySelections | dashbord.py:274-297 | with "Todos" and every multi-select empty, only the date range narrows the frame |
| Filters.FilterIdentity | dashbord.py:263-299 | when every row meets every applicable filter the frame comes back unchanged |
| Filters.FilterIdempotent | dashbord.py:263-299 | applying the same selection to the filtered frame changes nothing |
| Sorting.SortBy | dashbord.py:474 | no contract of its own; specified by SortByCorrect (permutation, non-decreasing rank) and SortBySum |
| Sorting.InsertPermutes | dashbord.py:474 | inserting adds exactly one element |
| Sorting.InsertAscending | dashbord.py:474 | inserting into a sorted table keeps it sorted |
| Sorting.SortByPermutes | dashbord.py:474 | sorting is a permutation |
| Sorting.SortByAscending | dashbord.py:474 | sorting orders the rows by non-decreasing rank |
| Sorting.SortByCorrect | dashbord.py:474 | `sort_values` returns a permutation of its input in non-decreasing rank |
| Sorting.InsertSum | dashbord.py:474 | inserting adds the element's weight to the total |
| Sorting.SortBySum | dashbord.py:474 | sorting keeps the total of any measure |
| Sorting.SumBySplit | dashbord.py:524 | the total of two tables joined is the sum of their totals |
| Sorting.PrefixSplit | dashbord.py:524 | cutting a table after n rows keeps the total split between the two parts |
| Sorting.SumByPointwise | dashbord.py:588-595 | tables with equal weights position by position have equal totals |
| Grouping.GroupSum | dashbord.py:423 | no contract of its own; specified by GroupSumCorrect and GroupKeysAvoid |
| Grouping.Total | dashbord.py:309 | no contract of its own; `df['VALOR'].sum()`, tied to the grouped totals by SumKeyedAll |
| Grouping.AddLookup | dashbord.py:423 | adding v under k raises k's total by v and leaves every other key's total unchanged |
| Grouping.AddHasKey | dashbord.py:423 | after adding under k, the keys are the old keys plus k |
| Grouping.AddDistinct | dashbord.py:423 | adding keeps the keys distinct |
| Grouping.AddSum | dashbord.py:423 | adding v raises the grand total by v |
| Grouping.EntryIsLookup | dashbord.py:423 | with distinct keys an entry's total is its key's total |
| Grouping.GroupSumCorrect | dashbord.py:423 | groupby-sum has one entry per present key, exactly the keys of the rows, each total the sum over that key's rows, and all totals together the sum over the keyed rows |
| Grouping.SumKeyedAll | dashbord.py:309 | when every row has a key, the keyed total is the grand total `df['VALOR'].sum()` |
| Grouping.PermutationHasKey | dashbord.py:474 | reordering a table keeps its keys |
| Grouping.InsertDistinct | dashbord.py:474 | inserting a new key into a table with distinct keys keeps them distinct |
| Grouping.SortDistinct | dashbord.py:474 | sorting keeps the keys distinct |
| Grouping.GroupKeysAvoid | dashbord.py:423 | a key value that no row produces is never a group of the table |
| Grouping.RankedGroups | dashbord.py:473-474 | a sorted groupby-sum is sorted, has distinct keys, exactly the keys of the rows, each key's total, and the keyed total |
| Views.MaxValor | dashbord.py:346 | the maximum skipping NaN is missing iff every amount is, is at least every present amount, and is one of them |
| Views.HeadlineMetrics | dashbord.py:301-353 | the count is the row count; with rows and VALOR the total is the sum of the amounts, the maximum is the NaN-skipping maximum and the mean times the count is the total; otherwise total, mean and maximum are zero or absent; the maximum bounds every amount |
| Views.TotalAtMost | dashbord.py:309 | amounts each at most top sum to at most count times top |
| Views.MeanBound | dashbord.py:335 | a mean of values at most top is at most top |
| Views.MeanAtMostLargest | dashbord.py:326-346 | on a frame whose every amount is present, the mean card never exceeds the largest-expense card |
| Views.NoBlankGroups | dashbord.py:423 | the category, dealer, consolidated-task and supplier tables never hold a group for a NaN cell |
| Views.MonthlyView | dashbord.py:358-367 | no contract of its own; the view is specified by MonthlyViewFacts and MonthlyConservation |
| Views.CategoryView | dashbord.py:422-423 | no contract of its own; specified by CategoryViewFacts and CategoryConservation |
| Views.DealerView | dashbord.py:472-474 | no contract of its own; specified by DealerViewFacts and DealerConservation |
| Views.RankedTasks | dashbord.py:523-524 | no contract of its own; the full task ranking, specified through RankedGroups by RankedPrefixOrder and RankedPrefixTotals |
| Views.TaskView | dashbord.py:522-524 | no contract of its own; specified by TaskViewFacts, TaskViewComplete and TaskConservation |
| Views.SupplierView | dashbord.py:587-595 | no contract of its own; specified by SupplierViewFacts, SupplierViewTotal and SupplierConservation |
| Views.MonthIndexOrder | dashbord.py:367 | the month index orders months exactly as sorting by ANO then MES does |
| Views.MonthlyViewFacts | dashbord.py:365-367 | the monthly view is strictly ordered by (ANO, MES), holds each month's total and exactly the months of the rows, and sums to the total of the dated rows |
| Views.MonthlyConservation | dashbord.py:366-367 | when every row has a due month the monthly totals add up to the headline total |
| Views.CategoryViewFacts | dashbord.py:422-423 | one entry per category of the rows, each the category's total, together the total of the categorised rows |
| Views.CategoryConservation | dashbord.py:423 | when every row has a category the category totals add up to the headline total |
| Views.DealerViewFacts | dashbord.py:472-474 | the dealer view is sorted ascending, lists each dealer of the rows once with its total, and sums to the dealers' total |
| Views.DealerConservation | dashbord.py:473-474 | when every row has a dealer the dealer totals add up to the headline total |
| Views.DescendingPrefix | dashbord.py:524 | a prefix of a table sorted largest first is sorted that way, and nothing after it is larger |
| Views.RankedPrefixOrder | dashbord.py:524 | a prefix of the consolidated-task ranking is largest first and no omitted task is larger than a kept one |
| Views.RankedPrefixTotals | dashbord.py:523-524 | each kept task's entry is its total, and kept plus omitted totals are the keyed total |
| Views.TaskViewFacts | dashbord.py:518-524 | the consolidated-task view has at most 15 entries, is the head of the full ranking, is largest first, no omitted task exceeds a kept one, and kept plus omitted totals are conserved |
| Views.TaskViewComplete | dashbord.py:523-524 | with at most 15 tasks nothing is cut and the view sums to the keyed total |
| Views.TaskConservation | dashbord.py:523-524 | with at most 15 tasks and every row assigned one, the view adds up to the headline total |
| Views.DocumentCount | dashbord.py:588-591 | `count('DOCUMENTO')` for a supplier is the number of its rows with a present document number |
| Views.SupplierViewFacts | dashbord.py:587-595 | the ranking is sorted descending by total and lists each supplier of the rows exactly once and nothing else, with its total and its number of present document numbers |
| Views.SupplierViewTotal | dashbord.py:588-595 | the supplier totals add up to the total of the rows that name a supplier |
| Views.SupplierConservation | dashbord.py:588-595 | when every row names a supplier the ranking adds up to the headline total |
| Dashboard.FilteredMeanAtMostLargest | dashbord.py:665-689 | for any sheet and selection, a non-empty filtered frame has a largest amount and a mean that does not exceed it |
| Examples.SampleSatisfying | dashbord.py:269-297 | the three sample bills survive exactly as each satisfies the masks |
| Examples.YearExample | dashbord.py:275-276 | bills of 100 (2023-01), 200 (2023-02) and 50 (2024-01) filtered to 2023 total 300 |
| Examples.RangeExample | dashbord.py:268-272 | the same bills with a due range inside February 2023 total 200 |
| Examples.SampleMonths | dashbord.py:366 | the same bills fall into three months with totals 100, 200 and 50 |
| Examples.MonthlyExample | dashbord.py:366-367 | their monthly view has three entries adding up to 350 |

## Left out

- The Streamlit interface is not modelled: page setup, header, sidebar widgets, session state, caching, metric cards, tables and the download button. The sidebar's choices are the `Selection` parameter of the filter, and `create_filters` is not part of this model.
- The `print` of the loaded column names in `load_data` and the `st.error`, `st.info` and `st.warning` messages are output only and are not modelled.
- Plotly chart construction and styling are rendering through a foreign library, so they are left out.
- Excel I/O is not modelled. The sheet is the `Sheet` parameter of `LoadData`, and the export and re-import round trip cannot be stated without the file format.
- Text parsing is not modelled. This covers day-first date parsing and numeric parsing of text. A `Text` cell in a date or amount column is treated as unparseable, so it becomes missing. A number in a date column also becomes missing, whereas pandas would read it as an offset.
- `strftime` labels are not modelled. The monthly key is the pair (`ANO`, `MES`), and `MES_ANO`, `MES_NOME` and `ANO_MES` are that pair formatted.
- Currency formatting of the cards and tables is left out, and so is the clock in the export file name.
- Floating point is not modelled. Amounts are whole centavos and the mean is an exact quotient, so sums and conservation are exact where the source rounds.
- Tie order in `sort_values` is not specified, because pandas does not promise it. Only sortedness and permutation are stated.
- Views.CategoryViewFacts: states no order of the category entries. pandas orders groups by key, but the model lists them in order of first appearance. The pie chart does not depend on the order.
- Loader.LoadData: duplicate column labels are not modelled. A name lookup uses the first column with that name, and `dropna(how='all')` is modelled on that VALOR column alone.
- Loader.LoadData: raw `ANO` and `MES` columns in a sheet without `DATA VENCIMENTO` are read as missing, since records take the year and month only from the due date.
- The full-data table display of `create_tables` is not modelled: its reformatting and its descending due-date sort are presentation. The check in `main` for an empty loaded frame is not modelled either.
