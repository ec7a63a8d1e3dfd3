# Customer sales dashboard: filter and group-by model

A Dafny model of the computational core of a single-page customer sales
dashboard (`Salesapp.py`). The dashboard loads a spreadsheet of customer
records once. A sidebar lets the user pick genders, cities and an age range.
It then draws charts and tables from the filtered rows. What this model pins
down is the semantics of that pipeline:

- the **row filter** (Salesapp.py:25): a row is kept exactly when its gender is
  among the selected genders, its city among the selected cities, and its age
  in the closed range `[lo, hi]`; the kept rows stay in their original order;
- the **selection defaults** (Salesapp.py:20-22): both multiselects offer and
  preselect every distinct value of their column, and the slider ranges over
  `[min Age, max Age]`, starting at `(25, 45)`;
- the **group-by aggregations** feeding the tabs: the mean net sales and mean
  items purchased per (gender, city) (line 38), the mean net sales per city
  (line 56), the row count per acquisition channel shown as a pie (line 84),
  and the share of each satisfaction level within each channel (line 92).

Files, one module each:

- `sales_table.dfy` (`SalesTable`): the twelve-column `Record`, the table as
  `seq<Record>`, distinct column values, and the age bounds of the slider.
- `row_filter.dfy` (`RowFilter`): the selection, the mask, the filter, the
  index labels of the filtered frame, and the widget defaults.
- `grouping.dfy` (`Grouping`): generic group-by over any key column. It covers
  groups, the set of keys, counts, sums, means (as per-group sum and count),
  and normalised counts, with the partition lemmas.
- `views.dfy` (`Views`): four views from tabs 1, 2 and 4 (tab 3 draws only
  charts left out below), and one script run (`Render`).

Numbers are mathematical: ages are `int`, the decimal columns are `real`.
A group-by result is a `map` from group key to value. A sum over a map is
taken along any duplicate-free list of its keys (`Grouping.Enumerates`), so
each "adds up to" lemma holds for every order of the keys. The relation
"`q` is `num / den`" is the predicate `Grouping.IsQuotient` (`q * den == num`).

Three edge cases of the code, which the model follows as written:

- The slider's initial value is `(25, 45)`, a fixed pair. Salesapp.py:22 does
  not check it against `[min Age, max Age]`, so it need not lie inside.
  `RowFilter.InitialSelection` models the first render. The full range is
  `RowFilter.WidestSelection`.
- An inverted range (`lo > hi`) is neither swapped nor rejected. The inclusive
  range test is false for every row, so the result is empty
  (`RowFilter.EmptySelectionGivesEmptyTable`). The slider never produces such
  a pair itself (`RowFilter.ReachableSelection`).
- The code does not check that the expected columns exist; loading is not modelled.

## Model

| member | source | states |
|---|---|---|
| `SalesTable.Unique` | Salesapp.py:20-21 | the distinct values of a column: no duplicates, and a value is listed exactly when it occurs in the column |
| `SalesTable.AgeBounds` | Salesapp.py:22 | the slider's two ends: none on an empty table (where the source raises); otherwise `lo <= hi`, every age lies in `[lo, hi]`, and both ends are ages that occur |
| `RowFilter.Filter` | Salesapp.py:25 | every kept row is an input row passing all three tests (gender listed, city listed, `lo <= age <= hi`); every input row passing them is kept; the result is no longer than the input |
| `RowFilter.FilterIsMaskedSubsequence` | Salesapp.py:25 | the filtered frame is the subsequence of the input at strictly increasing positions, and a position is among them exactly when that row passes the mask: order and duplicates are kept |
| `RowFilter.FilterKeepsQualifyingTable` | Salesapp.py:25 | a table whose every row passes the mask comes back unchanged |
| `RowFilter.FilterIdempotent` | Salesapp.py:25 | filtering the filtered frame again with the same selection returns it unchanged |
| `RowFilter.EmptySelectionGivesEmptyTable` | Salesapp.py:25 | no gender selected, no city selected, or `lo > hi` gives the empty frame, not an error |
| `RowFilter.NarrowedFilter` | Salesapp.py:25 | filtering with a narrower selection equals filtering the wider selection's result with it |
| `RowFilter.WidestSelection` | Salesapp.py:20-22 | the widest widget state (all genders, all cities, slider at both ends) exists exactly when the table is non-empty |
| `RowFilter.OptionsAreColumnValues` | Salesapp.py:20-21 | a gender (city) is a multiselect option, hence preselected, exactly when some row has it |
| `RowFilter.WidestSelectionKeepsTable` | Salesapp.py:20-25 | with all genders, all cities and the slider at `[min Age, max Age]` the filter returns the whole table |
| `RowFilter.WidestSelectionIsReachable` | Salesapp.py:20-22 | the widest state is one the widgets accept, and every state they accept (options chosen from the columns, slider pair in order between its ends) narrows it |
| `RowFilter.InitialSelection` | Salesapp.py:20-22 | the first-display state exists exactly when the table is non-empty (on an empty table the bounds at line 22 raise); it holds exactly the genders and the cities that occur, and the age pair `(25, 45)` |
| `RowFilter.InitialSelectionIsReachable` | Salesapp.py:20-22 | when the ages span `[25, 45]`, the first-display state is one the widgets accept |
| `RowFilter.InitialSelectionFiltersAgeOnly` | Salesapp.py:20-25 | on first display of a non-empty table a row is kept exactly when its age lies in `[25, 45]` |
| `Grouping.Group` | Salesapp.py:38 | the rows of one group: only input rows with that key, every input row with that key, no longer than the table |
| `Grouping.GroupKeepsMultiplicity` | Salesapp.py:38 | a group holds each row with its key exactly as many times as the table does, and no other row |
| `Grouping.GroupOfConcat` | Salesapp.py:38 | the group of two concatenated tables is the first table's group followed by the second's, so groups keep table order |
| `Grouping.KeySet` | Salesapp.py:38 | a key is a group of the result exactly when its group has rows |
| `Grouping.GroupCounts` | Salesapp.py:84 | a count per occurring key and no other key; each count is positive and is its group's size |
| `Grouping.GroupSumIsMaskedTotal` | Salesapp.py:38 | a group's sum is the column total over the whole table with every other key's values masked to zero |
| `Grouping.GroupSums` | Salesapp.py:38 | a sum per occurring key and no other key, equal to the column total with the other keys' rows masked to zero |
| `Grouping.GroupMeans` | Salesapp.py:56 | means only for non-empty groups (an empty group is omitted, not zero); each mean is its group's sum over its group's size |
| `Grouping.Normalise` | Salesapp.py:92 | each positive count becomes a fraction in `(0, 1]` of the total, on the same keys |
| `Grouping.Shares` | Salesapp.py:92 | normalised counts: one per occurring key, in `(0, 1]`, each the group's size over the table's size |
| `Grouping.GroupsPartition` | Salesapp.py:38 | groups under distinct keys covering every row partition the table: sizes add up to the row count, sums to the column total |
| `Grouping.CountsSumToRowCount` | Salesapp.py:84 | the per-key counts, added over the keys, give the number of rows |
| `Grouping.GroupSumsAddUp` | Salesapp.py:38 | the per-group sums, added over the groups, give the column total |
| `Grouping.MeansTimesCountsAddUp` | Salesapp.py:56 | each group's mean times its size, added over the groups, gives the column total |
| `Grouping.QuotientsAddUp` | Salesapp.py:92 | fractions of one whole add up to the fraction of the summed parts |
| `Grouping.SharesSumToOne` | Salesapp.py:92 | the normalised counts of a non-empty table add up to 1 |
| `Views.SummaryByGenderCity` | Salesapp.py:38 | one row per occurring (gender, city); its two fields are that group's mean net sales and mean items purchased |
| `Views.AverageSalesByCity` | Salesapp.py:56 | a mean per occurring city, each the city's net sales over its row count |
| `Views.CityAveragesAddUpToTotalSales` | Salesapp.py:56 | city means weighted by city row counts add up to the table's total net sales |
| `Views.SummaryColumnsAreMeans` | Salesapp.py:38 | the overview table's two columns are the per-(gender, city) means of net sales and of items purchased |
| `Views.SummaryAddsUpToTotalSales` | Salesapp.py:38 | in the overview table, each row's mean net sales (and mean items purchased) times its group size, added over the rows, gives the total net sales (items purchased) |
| `Views.ChannelCounts` | Salesapp.py:84 | a positive count for each channel that occurs and for no other channel, equal to the channel's row count |
| `Views.ChannelCountsSumToRowCount` | Salesapp.py:84 | the pie's counts add up to the number of filtered rows |
| `Views.ChannelSharesSumToOne` | Salesapp.py:84 | on a non-empty table the pie's slice fractions add up to 1 |
| `Views.ChannelSatisfactionCounts` | Salesapp.py:92 | a positive count for each (channel, level) pair that occurs, equal to the pair's row count |
| `Views.NestedGroupIsPairGroup` | Salesapp.py:92 | the rows of a level within a channel's rows are exactly the rows of that (channel, level) pair, in order |
| `Views.SatisfactionByChannel` | Salesapp.py:92 | one row per occurring channel (a channel with no rows is omitted); its cells are the levels occurring in that channel, each in `(0, 1]` |
| `Views.PivotCellIsPairOverChannelCount` | Salesapp.py:92 | each pivot cell is the (channel, level) count over the channel count |
| `Views.SatisfactionSharesSumToOne` | Salesapp.py:92 | within each channel the satisfaction shares add up to 1 (before rounding) |
| `Views.Render` | Salesapp.py:25-92 | one script run, the filter followed by the four views; its contract adds only that every shown (gender, city) and city was selected and that the pie and the pivot show the same channels, the views' own contracts carry the rest |
| `Views.RenderedPieCoversFilteredRows` | Salesapp.py:84 | the pie of a run counts every row the filter kept exactly once |
| `Views.WidestSelectionRendersWholeTable` | Salesapp.py:20-92 | with every option and the slider at both ends, the page shows the views of the whole table |
| `Views.EmptySelectionRendersEmptyViews` | Salesapp.py:25-92 | with no gender, no city or an inverted range, every view is empty, with no division by zero |
| `Views.ThreeRowScenario` | Salesapp.py:25-56 | a three-row table: selecting gender M, both cities and ages 25 to 50 keeps rows 1 and 3, and the city means are NYC 100 and LA 150 |
| `Views.ScenarioAverages` | Salesapp.py:56 | for one NYC row with sales 100 and one LA row with sales 150, the city means are exactly those |

## Left out

- Loading the spreadsheet and its memoisation (Salesapp.py:12-16): file I/O and framework caching. The table is a parameter.
- The page configuration, the sidebar and tab layout, titles, markdown text and every rendering call: presentation only. Widget values are parameters (`RowFilter.Selection`).
- The widget framework's handling of its arguments, for example of a slider default outside `[min, max]`, which Salesapp.py:22 does not check: the framework's code is not part of this model.
- The histograms with their bin counts (Salesapp.py:41, 45, 71). Their bin edges are computed inside the charting library, in floating point.
- The box plots (Salesapp.py:60, 67, 88) for the same reason: their quartile rules live inside the charting library.
- The OLS trend line (Salesapp.py:52) for the same reason.
- The Pearson correlation matrix and heatmap (Salesapp.py:75-78): floating-point numerics inside pandas and seaborn.
- Rounding to two decimals (Salesapp.py:38, 92). The views hold the unrounded values as reals.
- Floating point in general: sums and means are exact reals, so "adds back to the total" holds exactly rather than within a rounding tolerance.
- Missing values (NaN): pandas drops NaN group keys and skips NaN values in means. Records here have no missing cells.
- The row order of a group-by result (pandas sorts by key): a map keeps no order. The data frame's index is modelled only for the filter (`RowFilter.MaskIndices`).
- RowFilter.WidestSelectionIsReachable: "state the widgets accept" (`RowFilter.ReachableSelection`) requires both slider ends inside `[min Age, max Age]`. Every slider pair with an end outside that range is not covered, including the first-display state `(25, 45)` when the ages do not span it. Salesapp.py:22 does not check the default against the data's bounds, and the framework's handling of that case is not modelled.
- SalesTable.Unique: does not state that the values come in order of first appearance (the definition builds them so); that order only decides how the multiselect lists its options.
- Views.SatisfactionByChannel: a pivot cell for a level that does not occur in a channel is NaN in pandas. Here it is an absent key.
