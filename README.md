# E-commerce dashboard: filter and aggregate pipeline

This project models the data pipeline inside the Streamlit e-commerce dashboard
`ecommerce.py`. The dashboard loads a table of orders. The user narrows it with
sidebar widgets: month, category and state multiselects, a review-score range and a
payment-type box. The dashboard then computes six KPIs and the aggregates behind its
charts. The model leaves out the widgets, charts and file access. What remains is
plain Dafny over values:

- `Orders`: the known columns, a row per order, and a table. A table is the set of
  columns the file has plus its rows in file order. Money is in integer cents.
- `Strings`: Python's `<` on `str` (lexicographic by code point) and the strictly
  sorted distinct-value lists that `sorted(col.unique())` produces, ascending or
  descending.
- `FilterOptions`: the option lists of the four selection widgets (lines 42-56), the
  review slider's range, and the widgets' initial selections.
- `Filters`: `apply_filters` (lines 59-76). It is a method that copies the rows and
  then narrows them in five guarded steps, as the source does. It is proved equal to
  the function `Filtered`, which keeps in one pass the rows meeting every active
  condition. The lemmas are stated about `Filtered`.
- `Kpis`: `calculate_kpis` (lines 78-89). Each mean is kept exactly as a (sum, count)
  pair.
- `Charts`: the group-by, `sort_values`, `head(10)` and `value_counts` chains that feed
  the charts (lines 117, 123, 132, 156, 171, 177).

Tables are values. "The source table is not modified" therefore holds by
construction: `ApplyFilters` returns a new table and cannot change its argument.

Chart titles and code disagree in two places, and the model follows the code. The
chart "Top 10 States by Sales" (line 123) and the chart "Top 10 States by Avg
Delivery Time" (line 156) both sort ascending before `head(10)`. They therefore
show the ten states with the LOWEST sales and the ten with the SHORTEST mean
delivery time. `StateSalesAreLowestTen` and `StateDeliveryTimesAreLowestTen`
state exactly that. Only the category chart (line 132) takes the ten largest
values: `value_counts` sorts descending, and the result is re-sorted ascending
for display.

## Model

| member | source | states |
|---|---|---|
| `Strings.Less` | ecommerce.py:42-56 | Python's `str` `<`: holds exactly when, at the first position where the strings differ, `a` has ended while `b` goes on or `a` has the smaller code point |
| `Strings.SortedUnique` | ecommerce.py:42 | `sorted(col.unique())` is strictly ascending in Python's string order, and holds exactly the values of the column |
| `Strings.SortedUniqueDescending` | ecommerce.py:45 | `sorted(col.unique(), reverse=True)` is strictly descending and holds exactly the values of the column |
| `Strings.AscendingUnique` | ecommerce.py:42 | two strictly ascending lists with the same elements are equal, so the sorted list does not depend on how it is computed |
| `Strings.AscendingHasNoDuplicates` | ecommerce.py:42 | a strictly sorted list has every value at most once |
| `FilterOptions.ColumnOptions` | ecommerce.py:42-56 | an option list is `'All'` followed by every distinct column value once, in the requested order, or just `['All']` when the column is missing |
| `FilterOptions.MonthOptions` | ecommerce.py:42 | the month list is `'All'` followed by the distinct months, ascending; `['All']` without the column |
| `FilterOptions.CategoryOptions` | ecommerce.py:45 | the category list is `'All'` followed by the distinct categories, descending; `['All']` without the column |
| `FilterOptions.StateOptions` | ecommerce.py:48 | the state list is `'All'` followed by the distinct states, descending; `['All']` without the column |
| `FilterOptions.PaymentOptions` | ecommerce.py:56 | the payment list is `'All'` followed by the distinct payment types, ascending; `['All']` without the column |
| `FilterOptions.OptionListIsUnique` | ecommerce.py:42-56 | the option-list property determines the list completely |
| `FilterOptions.MinScore` | ecommerce.py:52 | `review_score.min()` is a score that occurs and is at most every score |
| `FilterOptions.MaxScore` | ecommerce.py:52 | `review_score.max()` is a score that occurs and is at least every score |
| `FilterOptions.ReviewRange` | ecommerce.py:51-54 | the slider range is the column's (min, max), or (1, 5) without the column; with the column and no rows, `int(NaN)` raises (`None`) |
| `FilterOptions.InitialSelections` | ecommerce.py:43-57 | the widgets start at `['All']` in each multiselect, payment `'All'` and a review range that is exactly `ReviewRange` (the column's minimum and maximum, or 1 to 5); there are none exactly when the review column exists and the table is empty, the one case in which line 52 itself fails |
| `FilterOptions.InitialSelectionsKeepEveryRow` | ecommerce.py:42-76 | with the initial selections the filter returns the table unchanged |
| `Filters.Holds` | ecommerce.py:62-74 | each step's mask: `isin` on the month, category and state lists, the inclusive review-score bounds, and `==` on the payment type |
| `Filters.Where` | ecommerce.py:62-74 | boolean indexing `filtered_df[mask]` keeps at most as many rows; `WhereSelectsKeptIndices` and `WhereCounts` state which rows, in which order and how often |
| `Filters.ActiveConditions` | ecommerce.py:61-74 | the step for a widget is present exactly when its column exists and its selection is not `'All'` (the review step whenever its column exists), at most five steps, and no step other than these five |
| `Filters.Keep` | ecommerce.py:61-74 | the per-predicate reading of the filter: each predicate applies only when its column exists and its selection is not `'All'`; tied to the steps by `ActiveConditionsMeanKeep` |
| `Filters.Filtered` | ecommerce.py:59-76 | the filtered table keeps the input's columns and has at most as many rows |
| `Filters.ApplyFilters` | ecommerce.py:59-76 | the five guarded narrowing steps give exactly `Filtered(t, sel)`: same columns, rows passing every active condition |
| `Filters.KeptIndices` | ecommerce.py:62-74 | the kept positions are strictly increasing, and a position is kept if and only if its row passes every condition |
| `Filters.WhereSelectsKeptIndices` | ecommerce.py:62-74 | boolean indexing returns the rows at the kept positions, in order |
| `Filters.WhereCounts` | ecommerce.py:62-74 | a kept row value occurs as often as in the input; a rejected one does not occur |
| `Filters.WhereThenWhere` | ecommerce.py:61-74 | narrowing by one list of conditions and then another equals narrowing once by both lists |
| `Filters.WhereSameConditions` | ecommerce.py:61-74 | narrowing depends only on which conditions are present, not on their order or repetition |
| `Filters.ApplyEachIsWhere` | ecommerce.py:61-74 | applying conditions one step at a time equals applying them all at once |
| `Filters.ActiveConditionsMeanKeep` | ecommerce.py:61-74 | the active steps hold for a row if and only if every predicate whose column exists and whose selection is not `'All'` holds (`Keep`) |
| `Filters.KeptIffEveryActivePredicateHolds` | ecommerce.py:61-74 | a row is in the result if and only if it is in the input and satisfies `Keep`, and it keeps all its copies |
| `Filters.FilteredIsSubsequence` | ecommerce.py:59-76 | the result has the input's columns, and its rows are an order-preserving subsequence of the input rows |
| `Filters.FilterOrderIrrelevant` | ecommerce.py:61-74 | applying the active steps in any order gives the same rows |
| `Filters.FilterIdempotent` | ecommerce.py:59-76 | filtering the filtered table again with the same selections changes nothing |
| `Filters.UnrestrictedFilterIsIdentity` | ecommerce.py:61-74 | with `'All'` in every multiselect, payment `'All'` and a review range covering every score, the result is the input |
| `Filters.MultiselectWithoutSentinel` | ecommerce.py:61-68 | a multiselect without `'All'` keeps only rows whose value it lists, so an empty list on an existing column keeps no row |
| `Orders.Total` | ecommerce.py:84 | `.sum()` of a column is non-negative when every value is |
| `Orders.TotalAppend` | ecommerce.py:84 | the sum over two row lists put together is the sum of their sums |
| `Orders.TotalBounds` | ecommerce.py:84-88 | when every value lies in [lo, hi], the column sum lies in [lo * n, hi * n] |
| `Kpis.DistinctCustomers` | ecommerce.py:87 | the ids that `nunique()` counts: every row's id, and only ids some row has; empty exactly when there are no rows |
| `Kpis.ColumnMean` | ecommerce.py:85-88 | `.mean()` of a column times the row count is the column sum; 0 when the column is missing or the table is empty |
| `Kpis.MeanBounds` | ecommerce.py:85-88 | a mean whose sum lies in [lo * count, hi * count] lies in [lo, hi] |
| `Kpis.ColumnMeanBounds` | ecommerce.py:85-88 | a column mean lies between any lower and upper bound of the column's values |
| `Kpis.CalculateKpis` | ecommerce.py:78-89 | all six KPIs are 0 on an empty table; `total_orders` is the row count; `total_customers` is the number of distinct ids and at most `total_orders`; `total_revenue` is the sum of `total_order_value`; on a non-empty table `avg_rating`, `avg_freight_cost` and `avg_price` are the column's sum over the row count; a KPI whose column is missing is 0 |
| `Kpis.DistinctCustomersAtMostRows` | ecommerce.py:87 | `nunique()` of the customer ids is at most the number of rows |
| `Kpis.AverageRatingWithinSelectedRange` | ecommerce.py:85 | after filtering on [lo, hi], the average rating's sum lies between lo and hi times its count, and on a non-empty result the average rating itself lies in [lo, hi] |
| `Kpis.AbsentStateYieldsZeroKpis` | ecommerce.py:67-80 | selecting one state that no order has yields no rows and all-zero KPIs |
| `Charts.CountWhere` | ecommerce.py:171 | the number of rows with a given key is at most the row count, and 0 exactly when no row has that key |
| `Charts.SumWhere` | ecommerce.py:117 | the sum over the rows with a given key is 0 when no row has it, and 0 for `value_counts`, which sums nothing |
| `Charts.GroupBy` | ecommerce.py:117 | `groupby` yields one group per distinct key, keys ascending; each group's count is its number of rows (at least 1) and its total is the sum over its rows |
| `Charts.InsertGroup` | ecommerce.py:123 | inserting into an ordered list keeps it ordered and adds exactly that group |
| `Charts.SortGroups` | ecommerce.py:123 | `sort_values` returns an ordered permutation of the groups: same length, same groups |
| `Charts.Head` | ecommerce.py:123 | `head(n)` is the prefix of length min(n, length) |
| `Charts.HeadOfSorted` | ecommerce.py:123 | sort then `head(n)`: min(n, k) groups, ordered, taken from the input with no group kept more often than it occurs there, and none left out comes before a kept one |
| `Charts.HeadOfSortedResorted` | ecommerce.py:132 | sort, `head(n)`, sort ascending: the same groups as `HeadOfSorted`, now ascending |
| `Charts.GroupTotalsAddUp` | ecommerce.py:117 | the group sums of a column add up to the column total |
| `Charts.MonthlySales` | ecommerce.py:116-117 | the chart exists exactly when both columns do; its months are in ascending order and are exactly the months that occur, each with the sum of `total_order_value` over its rows and its row count (at least 1) |
| `Charts.StateSales` | ecommerce.py:122-123 | the chart exists exactly when both columns do, holds at most 10 states, ascending by sum |
| `Charts.TopCategories` | ecommerce.py:131-132 | the chart exists exactly when the category column does, holds at most 10 categories, ascending by count |
| `Charts.StateDeliveryTimes` | ecommerce.py:155-156 | the chart exists exactly when both columns do, holds at most 10 states, ascending by mean delivery time |
| `Charts.PaymentCounts` | ecommerce.py:170-171 | the chart exists exactly when the payment column does, largest count first |
| `Charts.PaymentReviewMeans` | ecommerce.py:176-177 | the chart exists exactly when both columns do, ascending by mean review score |
| `Charts.MonthlySalesAddUpToRevenue` | ecommerce.py:116-117 | the monthly sales chart exists exactly when both columns do, and its sums add up to the `total_revenue` KPI |
| `Charts.StateSalesAreLowestTen` | ecommerce.py:122-123 | state sales hold min(10, states) groups, ascending by sum, every one a real group kept at most as often as it occurs, none larger than a state left out |
| `Charts.TopCategoriesAreHighestTen` | ecommerce.py:131-132 | category counts hold min(10, categories) groups, ascending by count, every one a real group kept at most as often as it occurs, none smaller than a category left out |
| `Charts.StateDeliveryTimesAreLowestTen` | ecommerce.py:155-156 | mean delivery times hold min(10, states) groups, ascending by mean, every one a real group kept at most as often as it occurs, none larger than a state left out |
| `Charts.PaymentCountsCoverEveryType` | ecommerce.py:170-171 | payment counts are a permutation of the per-type groups, descending by count, each count the number of rows of that type |
| `Charts.PaymentReviewMeansCoverEveryType` | ecommerce.py:176-177 | mean review per payment type is a permutation of the per-type groups, ascending by mean, each with the sum and count of that type's scores |

## Left out

- Streamlit page setup, CSS, sidebar layout, metric display, status messages and the raw-data toggle (ecommerce.py:9-28, 91-107, 183-234). These are UI. The widget calls of lines 43-57 become the `Selections` parameter. Streamlit's own checks on widget values are not modelled: an option must come from the list, the slider clamps its range, and a slider whose minimum equals its maximum (every review score equal, as in a one-row file) may be refused by Streamlit at line 52, where `InitialSelections` still returns a selection.
- Plotly figure construction: line, bar, pie, box, scatter and histogram charts, the `nbins=30` binning and the OLS trendline. These are calls into a charting library. Only the aggregation feeding each chart is modelled. The box and scatter charts (lines 142-165) aggregate nothing.
- `pd.read_csv`, the missing-file message and the `@st.cache_data` memoisation (ecommerce.py:30-37). These are file I/O and a framework cache. A table is given as a value.
- CSV download, `datetime.now()` file names and `memory_usage` (ecommerce.py:203-205, 227). These are I/O, the clock and runtime introspection.
- Floating point. Monetary columns are integer cents. Each mean (`avg_rating`, `avg_freight_cost`, `avg_price`, mean delivery days, mean review per payment type) is an exact (sum, count) pair. Sorting by a mean uses the exact quotient, so means that differ only by float rounding may order differently than in pandas.
- Integer width. Sums are unbounded; pandas' int64 or float64 overflow and rounding are not modelled.
- Pandas missing-value (NaN) semantics. Every present column has a value in every row. NaN keys dropped by `groupby` and `isin` on missing values are not modelled. The one NaN the model does keep is `min()` of an empty review column: `int` then raises at line 52 (`ReviewRange` returns `None`).
- Tie order. `sort_values` and `value_counts` use an unstable sort by default, so the source does not fix the order of groups with equal aggregates. The model sorts stably, starting from the key-ascending `groupby` order. No proved property depends on the tie order.
- Column types. Every label column, `order_month` included, is a string compared with Python's `str` order. A file whose CSV parser infers another type for a column would sort it differently. `delivery_days` is an integer.
- Columns the dashboard never aggregates (`estimated_days`, `delivery_delay`) and any other columns of the file are not represented.
