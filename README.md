# Dashboard aggregation model

A Dafny model of the aggregation layer of `dashboard/dashboard.py`, a
Streamlit dashboard over an e-commerce order dataset. The layer derives
every table shown on the dashboard from two fact tables:

- the order lines: each order line joined with its customer, seller, payment
  and product;
- the satisfaction rows: a seller city, a review score and a delivery status.

The derivations are:

- the sidebar's date-range filter and the sort that precedes it;
- the daily-orders rollup (`create_daily_orders_df`) and its two totals;
- the product-quantity ranking (`create_sum_order_items_df`) with its best
  and worst five;
- distinct-customer counts per state and per city (`create_bystate_df` and
  the inline city and state charts);
- order-line counts per seller city, per product and per payment type;
- review-score sums and Late / On Time counts per seller city, each with its
  top and bottom ten;
- the RFM table in both of its variants: `create_rfm_df`, and the inline RFM
  section with its three top-five charts;
- the colour groups of the geospatial map (`pd.factorize(...) % len(colors)`).

A table is a `seq` of rows and a column is a function from a row to its
value. A grouped series is a `seq<Entry<K>>` of labels and aggregates.
Timestamps are whole seconds since the epoch. pandas' NaT and NaN are
`Option.None`. Money is integer cents.

Modules, in order of dependence:

- `Wrappers` (wrappers.dfy) holds `Option`, the missing value.
- `Frames` (frames.dfy) holds the pandas vocabulary. This covers boolean-mask
  selection, sums, distinct values, and `groupby` followed by
  `sum`/`count`/`nunique`. It also holds the specification lemmas for these.
- `Sorting` (sorting.dfy) holds `sort_values` and `head`, together with what
  a top-n and a bottom-n list are.
- `Records` (records.dfy) holds the two row types, calendar days, and
  `max()`/`min()` over approval times.
- `DateFilter` (date_filter.dfy) builds `all_df` sorted and `main_df`
  filtered.
- `DailyOrders` (daily_orders.dfy) holds the resampled rollup and its totals.
- `Rankings` (rankings.dfy) holds every grouped, sorted and truncated bar
  chart series.
- `Rfm` (rfm.dfy) holds the RFM table and its top-five lists.
- `ColorGroups` (color_groups.dfy) holds `factorize`-modulo bucketing. It
  includes a stepwise method with a first-seen map, proved equal to the
  functional definition.

## Model

| member | source | states |
|---|---|---|
| Frames.GroupSumSpec | dashboard/dashboard.py:27 | `groupby(key)[val].sum()` has exactly one entry per distinct label present, each holding the sum of val over that label's rows; the entries add up to the column total |
| Frames.GroupCountSpec | dashboard/dashboard.py:339 | `groupby(key)[col].count()` has one entry per label, each the number of its rows (at least 1); the counts add up to the row count |
| Frames.GroupDistinctSpec | dashboard/dashboard.py:32 | `groupby(key)[item].nunique()` has one entry per label, each the number of distinct items among its rows, between 1 and the row count; the counts add up to at least the number of distinct items, and exactly to it when no item appears under two labels |
| Sorting.SortBy | dashboard/dashboard.py:60 | `sort_values` returns a permutation of its input that is ordered by the column, with missing values last in either direction |
| Sorting.Head | dashboard/dashboard.py:123 | `head(n)` is the prefix of length min(n, size) |
| Sorting.HeadOfSorted | dashboard/dashboard.py:156-157 | the head of a sorted table is a sub-multiset of the table, is in order, and no row left out comes before a listed one |
| Sorting.Top | dashboard/dashboard.py:156 | `sort_values(ascending=False).head(n)` is a top-n list: min(n, size) entries of the series, non-increasing, none smaller than an entry left out |
| Sorting.Bottom | dashboard/dashboard.py:157 | `sort_values(ascending=True).head(n)` is a bottom-n list: min(n, size) entries, non-decreasing, none larger than an entry left out |
| Sorting.TopBottomDisjoint | dashboard/dashboard.py:123-131 | with at least 2n entries whose values all differ, no entry is both in the top n and in the bottom n |
| Records.LatestApproval | dashboard/dashboard.py:65 | `max()` skipping NaT: None exactly when no row is approved, otherwise an approval time of some row and no smaller than any other |
| Records.EarliestApproval | dashboard/dashboard.py:64 | `min()` skipping NaT: None exactly when no row is approved, otherwise an approval time of some row and no larger than any other |
| Records.DayBounds | dashboard/dashboard.py:47 | a timestamp lies between the midnight of its calendar day and the next midnight |
| DateFilter.SortByApproval | dashboard/dashboard.py:59-61 | the sorted table has the same rows; approved rows come in non-decreasing order of approval, and unapproved rows come last |
| DateFilter.FilterByDate | dashboard/dashboard.py:78-79 | a row is kept exactly when it is approved between the start day's midnight and the end day's midnight; an inverted window keeps nothing |
| DateFilter.FilterKeepsOrder | dashboard/dashboard.py:78-79 | the kept rows sit at strictly increasing positions of the input, and every position whose row is in the window is kept: the result is the input's in-window subsequence |
| DateFilter.FilterDays | dashboard/dashboard.py:78-79 | every kept row falls on a day from start to end; on the end day only a row approved exactly at midnight is kept |
| DateFilter.MainFrameSorted | dashboard/dashboard.py:59-79 | every row of `main_df` is approved, and the rows are in non-decreasing order of approval |
| DailyOrders.DailyOrdersEmpty | dashboard/dashboard.py:13 | the rollup is empty exactly when no row is approved |
| DailyOrders.DailyOrdersDays | dashboard/dashboard.py:13 | the rollup's days are consecutive and ascending, one bucket per day |
| DailyOrders.DailyOrdersEnds | dashboard/dashboard.py:13 | the rollup begins on the earliest approval day and ends on the latest approval day: each end holds an approved row |
| DailyOrders.DailyOrdersCovers | dashboard/dashboard.py:13 | the day of every approved row is a day of the rollup |
| DailyOrders.DailyOrdersBuckets | dashboard/dashboard.py:13-21 | each bucket holds the number of distinct `order_id` values and the sum of `price` over that day's rows; a day without rows gets 0 and 0 |
| DailyOrders.TotalRevenueSpec | dashboard/dashboard.py:100 | total revenue equals the sum of `price` over the approved rows |
| DailyOrders.TotalOrdersSpec | dashboard/dashboard.py:96 | total orders is at least the number of distinct approved orders, and equal to it when every order has all its approved rows on one day |
| DailyOrders.MainFrameTotals | dashboard/dashboard.py:96-100 | on `main_df`, total revenue is the sum of `price` over all its rows, and total orders is at least its number of distinct orders |
| DailyOrders.MainFrameDays | dashboard/dashboard.py:78-82 | every day of the rollup of `main_df` lies in the chosen window |
| Rankings.ProductQuantities | dashboard/dashboard.py:25-29 | one entry per product label, holding the sum of `order_item_id` over its rows, in non-increasing order; the quantities add up to the column total |
| Rankings.BestProducts | dashboard/dashboard.py:123 | the best list is a prefix of the ranking, and a top-5 list of it |
| Rankings.WorstProducts | dashboard/dashboard.py:131 | the worst list is a bottom-5 list of the ranking: at most 5 entries, non-decreasing, none larger than a product left out |
| Rankings.BestWorstDisjoint | dashboard/dashboard.py:123-131 | with at least ten products whose quantities all differ, no product is both among the best five and the worst five |
| Rankings.CustomersByState | dashboard/dashboard.py:31-37 | per state, the number of distinct customers among its rows, between 1 and the state's row count; one entry per state |
| Rankings.CustomersByStateTotal | dashboard/dashboard.py:31-37 | the state counts add up to at least the number of distinct customers, and exactly to it when every customer has one state |
| Rankings.StatesByCustomers | dashboard/dashboard.py:502 | the distinct-customer count per state, in non-increasing order |
| Rankings.CustomersByCity | dashboard/dashboard.py:478 | per customer city, the number of distinct customers among its rows |
| Rankings.TopCustomerCities | dashboard/dashboard.py:479 | a top-10 list of the city counts, each value being that city's distinct customers |
| Rankings.BottomCustomerCities | dashboard/dashboard.py:480 | a bottom-10 list of the city counts, each value being that city's distinct customers |
| Rankings.LinesBySellerCity | dashboard/dashboard.py:339 | per seller city, its number of order lines; the counts add up to the row count |
| Rankings.TopSellerCities | dashboard/dashboard.py:340 | a top-10 list of the seller-city counts |
| Rankings.BottomSellerCities | dashboard/dashboard.py:341 | a bottom-10 list of the seller-city counts |
| Rankings.LinesByProduct | dashboard/dashboard.py:398-399 | per product, its number of order lines; the counts add up to the row count |
| Rankings.TopProductsByLines | dashboard/dashboard.py:398 | a top-10 list of the product line counts |
| Rankings.BottomProductsByLines | dashboard/dashboard.py:399 | a bottom-10 list of the product line counts |
| Rankings.PaymentTypeCounts | dashboard/dashboard.py:549 | per payment type, its number of order lines, in non-increasing order; the counts add up to the row count |
| Rankings.ReviewScoreByCity | dashboard/dashboard.py:154 | per seller city, the sum of its review scores; the sums add up to the column total |
| Rankings.TopReviewCities | dashboard/dashboard.py:156 | a top-10 list of the review-score sums |
| Rankings.BottomReviewCities | dashboard/dashboard.py:157 | a bottom-10 list of the review-score sums |
| Rankings.StatusByCity | dashboard/dashboard.py:200-201 | exactly the cities with at least one delivery of the status, each with its number of such deliveries |
| Rankings.TopLateCities | dashboard/dashboard.py:200-202 | a top-10 list of the Late counts, each value being that city's number of Late rows |
| Rankings.BottomLateCities | dashboard/dashboard.py:204-206 | a bottom-10 list of the Late counts |
| Rankings.TopOnTimeCities | dashboard/dashboard.py:228-230 | a top-10 list of the On Time counts |
| Rankings.BottomOnTimeCities | dashboard/dashboard.py:232-234 | a bottom-10 list of the On Time counts |
| Rfm.RfmCustomers | dashboard/dashboard.py:40 | the RFM table has one row per distinct customer, with no customer listed twice |
| Rfm.RfmCoversCustomers | dashboard/dashboard.py:40 | the table's customers are exactly the customers of the input |
| Rfm.RfmMetrics | dashboard/dashboard.py:40-45 | frequency is the customer's number of distinct orders, between 1 and their row count; monetary is the sum of their `payment_value` |
| Rfm.RfmMonetaryTotal | dashboard/dashboard.py:43 | the monetary column adds up to the input's total `payment_value` |
| Rfm.RfmRecencyKnown | dashboard/dashboard.py:47-49 | recency is known exactly when the customer has an approved row, and is then never negative |
| Rfm.RfmRecencyValue | dashboard/dashboard.py:47-49 | a known recency is, in `create_rfm_df`, the table's latest approval day minus the customer's latest approval day; in the RFM section (line 579), the whole days of the time between the customer's latest approval and the table's |
| Rfm.RecencyExample | dashboard/dashboard.py:49 | a latest approval at 20:00 on 2023-01-02 against a reference at 01:00 on 2023-01-10 gives recency 8 by calendar days (line 49) and 7 by elapsed days (line 579) |
| Rfm.RecencyOf | dashboard/dashboard.py:47-49 | a known recency is measured up to the table's latest approval, which is no earlier than the customer's latest |
| Rfm.CalendarRecencyZero | dashboard/dashboard.py:47-49 | in `create_rfm_df`, recency is 0 exactly when the customer's latest approval falls on the calendar day of the table's latest approval |
| Rfm.ElapsedRecencyZero | dashboard/dashboard.py:576-579 | in the RFM section, recency is 0 exactly when the customer's latest approval is less than 86400 seconds before the table's latest approval |
| Rfm.TopByFrequency | dashboard/dashboard.py:617 | five customers of the table (fewer when it is smaller), in non-increasing frequency, none below a customer left out |
| Rfm.TopByMonetary | dashboard/dashboard.py:627 | five customers of the table, in non-increasing monetary value, none below a customer left out |
| Rfm.RecencyListAsWritten | dashboard/dashboard.py:607 | the recency chart as written lists five customers in non-increasing recency, each at least every known recency left out |
| Rfm.RecencyListMissesMostRecent | dashboard/dashboard.py:605-607 | a customer who ordered more recently than every other of more than five distinct customers is not on the chart as written |
| Rfm.StaleSample | dashboard/dashboard.py:605-607 | a six-customer table that meets the previous lemma's conditions |
| Rfm.StaleSampleFinding | dashboard/dashboard.py:605-607 | on the six-customer table, customer "a" (recency 0) is off the chart as written and on the corrected chart |
| Rfm.MostRecentCustomers | dashboard/dashboard.py:605-607 | the chart as its comment intends lists five customers in non-decreasing recency, each at most every known recency left out |
| Rfm.MostRecentListed | dashboard/dashboard.py:605-607 | the most recent customer is on the corrected chart |
| ColorGroups.Uniques | dashboard/dashboard.py:680 | `factorize`'s uniques are distinct and are exactly the present states |
| ColorGroups.ColorGroup | dashboard/dashboard.py:680 | a colour group is a valid palette index; a missing state gets the last group, and a state's group is its code while the code is below 8 |
| ColorGroups.RowColor | dashboard/dashboard.py:642-645 | every row's colour is one of the eight palette colours |
| ColorGroups.FirstOccurrenceCode | dashboard/dashboard.py:680 | a state seen for the first time gets as its code the number of distinct states seen before it |
| ColorGroups.FirstStateGroupZero | dashboard/dashboard.py:680 | the first row's state, when present, gets group 0 |
| ColorGroups.KthStateGroup | dashboard/dashboard.py:680 | a row holding the k-th distinct state (counting from 0) gets group k % 8 |
| ColorGroups.SameStateSameCode | dashboard/dashboard.py:680 | two present states get the same code exactly when they are equal |
| ColorGroups.SameStateSameGroup | dashboard/dashboard.py:680 | rows with equal states get equal groups |
| ColorGroups.AssignColorGroups | dashboard/dashboard.py:680 | the stepwise first-seen-map assignment gives every row the group of the functional definition |

## Left out

- Streamlit widgets, metrics and layout, and all matplotlib and seaborn plotting, are out of scope because they are user interface. This includes the per-colour plotting loop at dashboard/dashboard.py:690-693, which only selects subsets to draw. The date inputs are parameters of the model, as day numbers.
- Money as floating point is not modelled: `price` and `payment_value` are integer cents, so the rounding of pandas' float sums (revenue, monetary) is lost and every sum is exact.
- CSV loading and `pd.to_datetime` parsing are out of scope because they are I/O and library parsing. Timestamps arrive already parsed, as whole seconds; sub-second precision is not modelled.
- Geopandas points, the map-boundary fallback and its network fetch are out of scope; they are a foreign library and the network.
- `format_currency` and `fig_to_bytes` are out of scope; they are locale formatting and image encoding. Total revenue is modelled before formatting.
- The mean-based series are out of scope because they are floating-point with rounding. These are the average delivery time (177-180), the average installments (560) and the RFM averages (590-598).
- Group order: pandas sorts `groupby` labels, but the model keeps first-seen order. Every contract is stated independently of that order, and sorting follows.
- Tie order: pandas' default sort is not stable. The model uses a stable insertion sort, so entries with equal values may appear in another order. Top and bottom lists are specified only up to ties.
- In-place operations are modelled as values: the `inplace=True` sort and reindex of `all_df`, the renames and drops, and the `color_group` column. The frame is rebound, and no other reference to it exists.
- A missing `groupby` label is not modelled; every label column is a plain value. pandas drops rows whose label is NaN.
- `count()` is modelled on columns without missing values, so it counts rows.
- The daily rollup is dense, not sparse: `resample('D')` emits every day between the first approval and the last, and days without orders get 0 and 0. A reading in which the rollup omits empty days is not what the code does, and is not modelled.
- Rankings.BestWorstDisjoint: holds only when the quantities are all distinct and there are at least ten products. With tied quantities, the stable sort and pandas' sort can both list a product in both.
- Monetary sums `payment_value` over every order line of the customer, so an order with several lines counts its payment once per line. The model states this sum as computed and does not correct it.

## Findings

| source | as written | input that shows it | evidently intended | confidence | as-written member | corrected member |
|---|---|---|---|---|---|---|
| dashboard/dashboard.py:605-607 | the recency chart, commented "lowest values are better", sorts with `ascending=False` and so shows the five customers with the oldest last order | six distinct customers with recencies 0, 30, 31, 32, 33, 34: the customer with recency 0 is left off the chart | `ascending=True`: the five most recent customers | not executed | Rfm.RecencyListAsWritten, Rfm.RecencyListMissesMostRecent, Rfm.StaleSample, Rfm.StaleSampleFinding | Rfm.MostRecentCustomers, Rfm.MostRecentListed |
