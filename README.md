# SQL query runner — a Dafny model

The SQL query runner is a browser console that accepts SQL-like text. It
"executes" that text against three small, hard-coded tables: `employees`,
`sales` and `products`. It shows the result in a searchable, sortable and
paged table.

There is no SQL parser. The interpreter (`parseAndExecuteQuery`) works on the
lower-cased, trimmed query and runs a fixed pipeline:

- It picks the first catalog table whose name occurs in the text, or falls
  back to `employees`.
- It applies at most one of four hard-coded WHERE shapes.
- It keeps the declared columns that some comma-separated token of the
  SELECT list names or contains.
- It applies one of three hard-coded ORDER BY shapes with a stable sort.
- It cuts the result at 100 rows.

Around the interpreter, the page does the following:

- It classifies each query by keyword prefix.
- It holds create, delete and dump queries for confirmation. A dump needs the
  typed phrase `CONFIRM DUMP`.
- It keeps the last twenty runs, the saved queries and a running row total.
- It refuses to export an empty result.

The model consists of these modules:

- `Text`: the string operations the code uses, restricted to ASCII. These are
  case mapping, `trim`, `includes`/`indexOf`, `substring`, one-character
  `split` and `join`, digit runs and truncation.
- `Values`: cells (`VNum(real)` or `VStr(string)`) and rows (`map<string, Value>`).
- `Sequences`: `filter`, and `Array.prototype.sort` as the stable insertion
  sort `SortBy`. It proves that `SortBy` permutes, orders and is stable.
- `SampleData`: the catalog and its two lookups.
- `QuerySimulator`: the interpreter, as a function `Interpret` over the stages
  and as the imperative `ParseAndExecuteQuery`. The method's loops and stage
  methods are proved equal to `Interpret`. The module also holds the CSV text
  builder.
- `SampleQueryRun`: one complete run of the catalog's
  `SELECT name, salary FROM employees WHERE salary > 80000 ORDER BY salary DESC`,
  worked out stage by stage. In the catalog constant this query is written as
  four concatenated pieces so that proofs can index into it.
- `DataTable`: the result table's search, its comparator, its pagination, and
  the `Table` class holding the five view-state fields.
- `IndexPage`: query classification, the list rules, and the `Console` class
  whose handlers update the page state.
- `ConfirmationDialog`, `StatsCards`, `QueryHistory` and `SavedQueries`: the
  smaller components.

Foreign facilities are parameters:

- `localeCompare` is `collate` in the interpreter. It is a test meaning "the
  comparison is not positive".
- In the table, `localeCompare` is `locale`, a function to the comparison's
  integer result.
- JavaScript's number-to-string conversion is `fmt`.
- The random execution time is a whole number from 50 to 349.
- The clock-based ids are strings.

The page (src/pages/Index.tsx:39-47 and 126-127) and the result table
(src/components/DataTable.tsx:103-142) read an `operationType` and a
`message` from the interpreter's result. `parseAndExecuteQuery`
(src/utils/querySimulator.ts:143-147) never returns either, so the model
follows what the interpreter actually computes:

- The interpreter sends every query through the SELECT pipeline. There is no
  separate handling of CREATE, INSERT, UPDATE, DELETE, DROP or DUMP. There are
  no canned messages and no `unknown_table` or `/backup/dump.sql` fallback
  names. A "CREATE TABLE archive" query therefore returns the `employees` rows.
- Table search with an empty term keeps every row that has at least one cell.
  A row with no cells has no value that could contain the term, so the
  `some(...)` test drops it. Such rows arise when a projection requests none
  of the declared columns (`DataTable.EmptySearchTerm`).

## Model

| member | source | states |
|---|---|---|
| `QuerySimulator.Normalize` | src/utils/querySimulator.ts:29 | the normalised query has no white space at either end and no upper-case letter |
| `QuerySimulator.MentionedFrom` | src/utils/querySimulator.ts:34-39 | the scan from entry `i` returns the first later entry whose name the query contains, or -1 when none does |
| `QuerySimulator.ResolveDataset` | src/utils/querySimulator.ts:32-44 | the target is the first catalog entry (in catalog order) whose name occurs in the query, and the first entry when none does |
| `QuerySimulator.FindTargetDataset` | src/utils/querySimulator.ts:32-44 | the `for`/`break` scan returns exactly the entry `ResolveDataset` specifies |
| `QuerySimulator.OperandStart` | src/utils/querySimulator.ts:57 | after `field\s*op\s*` the operand starts strictly after the field name, inside the clause |
| `QuerySimulator.FirstMatchFrom` | src/utils/querySimulator.ts:57-71 | the regex match is the leftmost position where `field\s*op\s*digits` matches; no earlier position matches |
| `QuerySimulator.WhereKeepsAcceptedRowsInOrder` | src/utils/querySimulator.ts:50-83 | the WHERE stage keeps exactly the rows its shape accepts, as a subsequence in original order, with every copy of an accepted row and no copy of a rejected one; an unrecognised shape keeps every row |
| `QuerySimulator.NumericFiltersRejectMissingOrZero` | src/utils/querySimulator.ts:59-75 | a row whose salary, amount or stock_quantity is missing or 0 never passes the numeric filter (truthiness test) |
| `QuerySimulator.ThresholdDefaults` | src/utils/querySimulator.ts:55-75 | when the clause holds no digits the thresholds default to 0 (salary), 0 (amount) and 999 (stock), in the order salary, amount, stock |
| `QuerySimulator.OperandAfterPrefix` | src/utils/querySimulator.ts:57 | in a clause beginning `field op ` the operand begins right after the blank |
| `QuerySimulator.SalaryClauseRoundTrip` | src/utils/querySimulator.ts:55-61 | the clause `salary > N…` selects the salary filter with threshold exactly N (the digits read back to the number written) |
| `QuerySimulator.DecimalFrom` | src/utils/querySimulator.ts:63-65 | `\d+\.?\d*` after the operator reads `N.ds` back as N plus the decimal fraction ds |
| `QuerySimulator.AmountClauseRoundTrip` | src/utils/querySimulator.ts:62-68 | the clause `amount > N.ds…` (with no `salary >`) selects the amount filter with the decimal threshold N.ds |
| `QuerySimulator.EngineeringClause` | src/utils/querySimulator.ts:76-81 | the literal `department = 'engineering'` clause selects the engineering filter |
| `QuerySimulator.FilterWhere` | src/utils/querySimulator.ts:49-83 | the imperative WHERE stage returns exactly the specified filtered rows |
| `QuerySimulator.ProjectionKeepsDeclaredOrder` | src/utils/querySimulator.ts:102-107 | result columns are the declared columns, in declared order, that some token equals or contains |
| `QuerySimulator.ProjectRow` | src/utils/querySimulator.ts:110-118 | a rebuilt row has exactly the selected columns the original row defines, with their original values |
| `QuerySimulator.FilterRow` | src/utils/querySimulator.ts:111-117 | the `forEach` loop filling `filteredRow` builds exactly the projected row |
| `QuerySimulator.MapFilterRow` | src/utils/querySimulator.ts:110-118 | the `map` over the rows returns exactly the projected rows, one for one and in order |
| `QuerySimulator.ProjectRowHasExactly` | src/utils/querySimulator.ts:110-118 | a row with exactly the declared columns, projected on some of them, has exactly those |
| `QuerySimulator.ProjectRowIdempotent` | src/utils/querySimulator.ts:110-118 | projecting twice on the same columns is projecting once |
| `QuerySimulator.SelectColumns` | src/utils/querySimulator.ts:85-120 | the imperative SELECT stage leaves rows and columns alone unless the query projects, and otherwise returns the projected columns and rows |
| `QuerySimulator.DescendingIsPreorder` | src/utils/querySimulator.ts:128-130 | the `(b.x \|\| 0) - (a.x \|\| 0)` comparator is a total preorder on any rows |
| `QuerySimulator.DescendingSort` | src/utils/querySimulator.ts:127-130 | `salary desc` / `amount desc` give a permutation with non-increasing value (missing counted as 0), stable among equal values |
| `QuerySimulator.DescendingWithoutColumn` | src/utils/querySimulator.ts:127-130 | sorting on a column no row has (removed by projection) leaves the order unchanged |
| `QuerySimulator.NameSort` | src/utils/querySimulator.ts:131-134 | with a collation that is a total preorder on the rows' names, a `name` clause gives a permutation ascending by name, in which rows with equal names keep their order |
| `QuerySimulator.NameSortWithoutColumn` | src/utils/querySimulator.ts:131-134 | ordering by `name` when no row has a name leaves the order unchanged |
| `QuerySimulator.OrderPermutes` | src/utils/querySimulator.ts:123-136 | every ORDER BY shape, recognised or not, only rearranges the rows |
| `QuerySimulator.SortRows` | src/utils/querySimulator.ts:122-136 | the in-place sort stage returns exactly the specified ordering |
| `QuerySimulator.Cap` | src/utils/querySimulator.ts:139-141 | at most 100 rows remain, they are the first ones, and fewer are cut only when there were more than 100 |
| `QuerySimulator.ProjectStageShape` | src/utils/querySimulator.ts:85-120 | projection keeps the row count, yields a subsequence of the declared columns, and keeps every row's keys equal to the result columns |
| `QuerySimulator.OrderedAndCappedRows` | src/utils/querySimulator.ts:122-141 | after ordering and capping there are min(n, 100) rows, all taken from the input |
| `QuerySimulator.ResultShape` | src/utils/querySimulator.ts:26-148 | `rowCount` equals the number of rows, at most 100 and min(kept, 100); columns are a subsequence of the target's; without projection the columns are the target's and every row is one the WHERE stage kept; when the target's rows are complete every result row has exactly the result columns |
| `QuerySimulator.ParseAndExecuteQuery` | src/utils/querySimulator.ts:26-148 | the imperative interpreter returns exactly `Interpret` of the query |
| `QuerySimulator.Quoted` | src/utils/querySimulator.ts:153 | a cell is written as its string form between double quotes, with no escaping |
| `QuerySimulator.CsvHasOneLinePerRow` | src/utils/querySimulator.ts:151-154 | with no line break in names or values, the CSV text splits back into exactly rows + 1 lines and holds exactly `rows` line breaks |
| `QuerySimulator.RowLineFree` | src/utils/querySimulator.ts:153 | a row line holds a character other than `,` and `"` only if some value does |
| `QuerySimulator.RowLineFields` | src/utils/querySimulator.ts:153 | with no comma in the values, a row line splits on `,` back into its quoted cells |
| `SampleData.EmployeeRows` | src/data/sampleData.ts:14-79 | there is one employee row per record, each with exactly the declared columns |
| `SampleData.SaleRows` | src/data/sampleData.ts:97-162 | there is one sale row per record, each with exactly the declared columns |
| `SampleData.ProductRows` | src/data/sampleData.ts:174-245 | there is one product row per record, each with exactly the declared columns |
| `SampleData.FindByName` | src/data/sampleData.ts:254-256 | `find` returns the first entry whose name equals the argument exactly, and nothing when no name matches |
| `SampleData.FindListedName` | src/data/sampleData.ts:254-260 | with distinct names, looking up the i-th listed name gives the i-th entry |
| `SampleData.CatalogNames` | src/data/sampleData.ts:9-252 | the names are `employees`, `sales`, `products`, pairwise distinct |
| `SampleData.LookupListedName` | src/data/sampleData.ts:254-260 | `getDatasetByName(getAllDatasetNames()[i])` is `datasets[i]` |
| `SampleData.LookupIsCaseSensitive` | src/data/sampleData.ts:254-256 | the lookup is case-sensitive: `Employees` finds nothing, `employees` finds the table |
| `SampleData.RowsHaveDeclaredColumns` | src/data/sampleData.ts:9-252 | every row of every table has exactly that table's declared columns as keys |
| `SampleData.DefaultDataset` | src/data/sampleData.ts:10-79 | the fallback entry is `employees`, with 8 rows, 4 of which hold `department` "Engineering" |
| `SampleData.SampleQueriesPresent` | src/data/sampleData.ts:80-84 | every table has at least one sample query |
| `SampleQueryRun.NormalizedTopEarners` | src/data/sampleData.ts:82 | the sample query lower-cased and trimmed is the expected normalised text |
| `SampleQueryRun.TopEarnersDataset` | src/utils/querySimulator.ts:34-44 | the sample query targets `employees` |
| `SampleQueryRun.TopEarnersWhere` | src/utils/querySimulator.ts:50-61 | its WHERE clause selects the salary filter with threshold 80000 |
| `SampleQueryRun.TopEarnersKept` | src/utils/querySimulator.ts:59-61 | the filter keeps John Doe, Mike Johnson, David Brown and Lisa Anderson, in table order |
| `SampleQueryRun.TopEarnersSelected` | src/utils/querySimulator.ts:86-99 | its SELECT list is the tokens `name` and `salary` |
| `SampleQueryRun.TopEarnersColumns` | src/utils/querySimulator.ts:102-107 | of the employee columns exactly `name` and `salary` are kept |
| `SampleQueryRun.TopEarnersOrder` | src/utils/querySimulator.ts:123-128 | its ORDER BY clause is `salary desc` |
| `SampleQueryRun.TopEarnersSorted` | src/utils/querySimulator.ts:128 | the four projected rows sort to David, John, Lisa, Mike |
| `SampleQueryRun.TopEarnersResult` | src/utils/querySimulator.ts:26-148 | the whole run returns columns `[name, salary]` and rows David Brown 102000, John Doe 95000, Lisa Anderson 91000, Mike Johnson 88000, with rowCount 4 |
| `Sequences.SortByPermutes` | src/utils/querySimulator.ts:128-134 | sorting neither adds, drops nor duplicates rows |
| `Sequences.SortBySorted` | src/utils/querySimulator.ts:128-134 | with a total-preorder comparator the sorted sequence is ordered |
| `Sequences.SortByStable` | src/utils/querySimulator.ts:128-134 | the rows equivalent to any given row keep their relative order |
| `Sequences.FilterIsSubsequence` | src/utils/querySimulator.ts:59-81 | a filter's result is a subsequence of its input |
| `DataTable.SearchKeepsMatchingRowsInOrder` | src/components/DataTable.tsx:53-57 | search keeps exactly the rows with some cell whose lower-cased string contains the lower-cased term, as a subsequence, with every copy of a matching row and none of the others |
| `DataTable.EmptySearchTerm` | src/components/DataTable.tsx:53-57 | the empty term matches exactly the rows with at least one cell; if every row has one, all rows are kept |
| `DataTable.NumericColumnPreorder` | src/components/DataTable.tsx:59-76 | on a column holding only numbers (or nothing) the comparator is a total preorder in either direction |
| `DataTable.DirectionFlips` | src/components/DataTable.tsx:67-74 | between present cells, descending is ascending with the arguments swapped |
| `DataTable.TableSort` | src/components/DataTable.tsx:59-76 | whenever the compare function is a total preorder on the rows (a string column under a consistent `localeCompare`, or a numeric column), the sort is a permutation ordered by that compare function, rows missing the column come after all others in either direction, and rows comparing equal keep their order |
| `DataTable.NumericSort` | src/components/DataTable.tsx:59-76 | on a numeric column numbers are ordered in the chosen direction and missing cells come last |
| `DataTable.ViewRearrangesSearch` | src/components/DataTable.tsx:52-79 | the shown rows are a rearrangement of the search result, and exactly it without a sort column |
| `DataTable.TotalPages` | src/components/DataTable.tsx:81 | `ceil(n / pageSize)`: the pages hold all rows and the last page is not empty |
| `DataTable.Page` | src/components/DataTable.tsx:82-86 | a page holds at most `pageSize` rows |
| `DataTable.PagesUpToPrefix` | src/components/DataTable.tsx:82-86 | pages 1..k together are the first k·pageSize rows |
| `DataTable.PagesCoverRows` | src/components/DataTable.tsx:81-86 | pages 1..totalPages concatenate back to the full filtered list |
| `DataTable.ShowingRangeIsThePage` | src/components/DataTable.tsx:280-286 | on an existing page, "Showing a to b" is non-empty and names exactly the rows on it |
| `DataTable.Table.constructor` | src/components/DataTable.tsx:45-49 | the table starts with no search, no sort column, ascending, on page 1 of 25 |
| `DataTable.Table.HandleSort` | src/components/DataTable.tsx:88-96 | the same column toggles the direction, another column becomes the sort column ascending, and the page resets to 1 |
| `DataTable.Table.HandlePageSizeChange` | src/components/DataTable.tsx:98-101 | the size becomes one of 25, 50, 100, 500 and the page resets to 1 |
| `DataTable.Table.SetSearchTerm` | src/components/DataTable.tsx:195-199 | typing changes only the search term, not the page |
| `DataTable.Table.PreviousPage` | src/components/DataTable.tsx:289-295 | the page goes back one, never below 1 |
| `DataTable.Table.NextPage` | src/components/DataTable.tsx:305-314 | the page goes on one, never past the last page |
| `IndexPage.QueryTypeByPrefix` | src/pages/Index.tsx:76-94 | on the upper-cased trimmed text: create iff CREATE/INSERT/ALTER, delete iff DELETE/DROP, dump iff DUMP; UPDATE is normal |
| `IndexPage.QueryTypeIgnoresCase` | src/pages/Index.tsx:79 | the classification does not depend on letter case |
| `IndexPage.PushHistoryKeepsLatestTwenty` | src/pages/Index.tsx:137 | the new item is first, followed by the earlier ones in order, at most 20 in all |
| `IndexPage.DeleteHistoryItemRemovesId` | src/pages/Index.tsx:195-197 | deleting by id drops every item with that id and keeps every copy of the others, in order |
| `IndexPage.SaveEntryPrepends` | src/pages/Index.tsx:162-174 | an entry is prepended only when a non-empty name is given; otherwise nothing changes |
| `IndexPage.DeleteSavedQueryRemovesId` | src/pages/Index.tsx:206-208 | deleting a saved query by id drops every entry with that id and keeps every copy of the others, in order |
| `IndexPage.ExportGuard` | src/pages/Index.tsx:176-188 | export is refused exactly when there are no rows; otherwise the CSV has rows + 1 lines |
| `IndexPage.Console.constructor` | src/pages/Index.tsx:34-65 | the page starts with an empty result, history and saved list, a zero total and a closed dialog |
| `IndexPage.Console.LoadSampleQuery` | src/pages/Index.tsx:70-74 | choosing a table with sample queries loads the first one into the editor |
| `IndexPage.SimulateQueryExecution` | src/utils/querySimulator.ts:11-23 | the delayed run returns the interpreter's rows and columns over the sample catalog, stamped with the execution time |
| `IndexPage.Console.ShowResult` | src/pages/Index.tsx:122-140 | the success branch shows the result, pushes the run onto the history (still at most 20) and adds its rows to the total, touching nothing else |
| `IndexPage.Console.ExecuteQuery` | src/pages/Index.tsx:118-155 | the result is the interpreter's, the run is pushed onto the history, and the total grows by the row count |
| `IndexPage.Console.RunQuery` | src/pages/Index.tsx:96-116 | a blank query changes nothing shown; a create/delete/dump query only opens the dialog with that query and kind; any other query runs, and the page then shows the interpreter's rows and columns, pushes the history and adds the row count to the total |
| `IndexPage.Console.ConfirmQuery` | src/pages/Index.tsx:157-160 | confirming runs exactly the dialog's query: the page shows its result, the history and the total are updated, the dialog closes, and the editor and saved list are untouched |
| `IndexPage.Console.PressConfirm` | src/pages/Index.tsx:282-290 | the dialog's action runs the query (shown result, history and total updated) and closes the dialog exactly when the dialog allows confirming; otherwise result, total, history, dialog and typed text stay as they were |
| `IndexPage.Console.CloseDialog` | src/pages/Index.tsx:284-286 | dismissing the dialog closes it and runs nothing; every other field stays as it was |
| `IndexPage.Console.SaveQuery` | src/pages/Index.tsx:162-174 | the saved list follows `SaveEntry`; every other field stays as it was |
| `IndexPage.Console.ExportCsvFile` | src/pages/Index.tsx:176-188 | nothing is written for an empty result; otherwise the CSV of the current rows and columns |
| `IndexPage.Console.RemoveHistoryItem` | src/pages/Index.tsx:195-197 | the history becomes the list without that id, still at most 20; every other field stays as it was |
| `IndexPage.Console.ClearHistory` | src/pages/Index.tsx:199-204 | clearing empties the history; every other field stays as it was |
| `IndexPage.Console.RemoveSavedQuery` | src/pages/Index.tsx:206-208 | the saved list becomes the list without that id; every other field stays as it was |
| `ConfirmationDialog.ConfirmRule` | src/components/QueryConfirmationDialog.tsx:27-59 | create and delete can always be confirmed; dump iff the text is exactly `CONFIRM DUMP`, with no trimming and case-sensitive |
| `ConfirmationDialog.DialogContentDistinct` | src/components/QueryConfirmationDialog.tsx:29-55 | each kind has its own action text, and the dump description quotes the required phrase |
| `ConfirmationDialog.Dialog.constructor` | src/components/QueryConfirmationDialog.tsx:26 | the confirmation text starts empty |
| `ConfirmationDialog.Dialog.SetConfirmationText` | src/components/QueryConfirmationDialog.tsx:93-98 | typing sets the confirmation text |
| `ConfirmationDialog.Dialog.HandleConfirm` | src/components/QueryConfirmationDialog.tsx:61-67 | when allowed: confirm once, clear the text, close; otherwise nothing happens |
| `ConfirmationDialog.Dialog.HandleCancel` | src/components/QueryConfirmationDialog.tsx:69-72 | cancel clears the text and closes without confirming |
| `StatsCards.CardFigures` | src/components/StatsCards.tsx:19-88 | the query count is the history length, an absent total shows 0, and an empty history averages 0 |
| `StatsCards.TotalTimeBounds` | src/components/StatsCards.tsx:83-86 | the summed times lie between n·min and n·max |
| `StatsCards.RoundedQuotientBounds` | src/components/StatsCards.tsx:82-87 | rounding sum / n half up stays within the bounds of the times |
| `StatsCards.AverageWithinRange` | src/components/StatsCards.tsx:81-88 | the average speed lies between the fastest and the slowest run |
| `StatsCards.AverageOfEqualTimes` | src/components/StatsCards.tsx:81-88 | if every run took v ms, the average is v |
| `QueryHistory.TruncateQueryShape` | src/components/QueryHistory.tsx:30-34 | up to 60 characters unchanged, else the first 60 and `...`; at most 63 long, starts with the query's head, idempotent |
| `QueryHistory.ClearAllOrEmptyState` | src/components/QueryHistory.tsx:43-61 | "Clear All" is offered iff the history is non-empty, the empty state iff it is empty |
| `SavedQueries.TruncateQueryShape` | src/components/SavedQueries.tsx:24-28 | up to 50 characters unchanged, else the first 50 and `...`; at most 53 long, starts with the query's head, idempotent |
| `SavedQueries.EmptyStateIffNoneSaved` | src/components/SavedQueries.tsx:39-43 | the empty state is shown iff nothing is saved |

## Left out

- The simulated latency: the `Promise`/`setTimeout` delay and `Math.random` in `simulateQueryExecution`. The execution time is a parameter, a whole number from 50 to 349.
- Asynchrony: each handler runs to completion. `isLoading` is true only inside `ExecuteQuery`, and the failure branch of its `try` is left out because the interpreter never throws.
- File download: the Blob, URL and anchor work in `exportToCSV`, and all of `exportToJSON` (DOM and `JSON.stringify`). JSON export is not modelled. CSV export returns the text that would be written.
- Locale collation: `localeCompare` is a parameter. Sortedness lemmas assume it is consistent (a total preorder, or antisymmetric where stated).
- Number and date formatting: `String(n)` and template-literal numbers are the parameter `fmt`. Timestamps, `toLocaleTimeString` and `toLocaleString` are not modelled.
- Browser and clock calls: `prompt()` is the `name` parameter (`None` when dismissed). `Date.now()` ids are the `id` parameter, which is not assumed to be unique. Toast messages are not modelled.
- Unicode: case mapping covers ASCII letters only. `trim` removes the ASCII white space and a few Unicode spaces. Lengths count characters, not UTF-16 code units.
- The regex engine: `\s*`, `\d+` and `\d+\.?\d*` are a hand-written scanner over the WHERE clause.
- `parseInt`/`parseFloat` precision: thresholds are exact naturals and decimals, with no float rounding.
- QuerySimulator.Descending: the ORDER BY key of a `salary` or `amount` cell that holds a string is 0. The source computes `(b.x || 0) - (a.x || 0)`, which would turn a numeric string into its number and any other string into NaN. No catalog row holds such a string.
- QuerySimulator.Keeps: a string-valued salary, amount or stock field counts as 0. JavaScript would coerce it, but no catalog row has one. A non-string department fails the engineering test, where JavaScript would throw.
- DataTable.TableOrder: two missing cells compare as equal. The source's comparator returns 1 for that pair in both orders, which is inconsistent, and the engine's placement of such rows is unspecified.
- DataTable.Table.PreviousPage: a narrowing search can leave the current page beyond the last page, and the source does not reset it. The contract therefore bounds the new page by the page count only when the old page was within it.
- Rendering, theming, routing and context wiring: the layout, the dataset selector, the sample-query sidebar, the stats and dataset contexts, and the editor's own duplicate of the blank-query guard.
