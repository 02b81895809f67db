# Sales analytics dashboard: the aggregation core in Dafny

This project models the aggregation layer of a sales analytics dashboard
and the data shaping its charts do before drawing.

The back end is an ASP.NET Core API over four tables: Sales, Products,
Customers and Regions. Every endpoint starts from the sales, filters them
by an inclusive, optionally open date range, and aggregates them:

- a summary of totals, averages, distinct counts and the date span;
- revenue by month, by country (with each country's share of the total),
  by weekday and by hour;
- the most recent sales;
- a comparison of a month with the month before, with growth rates and a
  trend;
- the top customers and products by revenue, customer analytics, and row
  counts.

The front end turns three of these results into charts:

- a revenue trend over all months or over a six-month window moved by
  previous/next buttons;
- a pie of the five largest countries plus "Others";
- a bar chart of the top products, with long names shortened and the
  full name shown in the tooltip.

How the model is built:

- The store is a value (`Store.Db`): the sales in storage order, and the
  other tables as maps from primary key.
- Each query is a function built from the LINQ operators in
  `Aggregation`. Where, Sum, GroupBy, Distinct().Count(), Min/Max,
  OrderBy and Take are written there once.
- Money is in integer cents, as `decimal(10,2)` stores it.
- An average is the exact quotient `Ratio(sum, count)`.
- A value the API rounds with `Math.Round(x, 2)` (percentages, growth
  rates) is an integer number of hundredths, rounded half to even.
- `DateTime` is its calendar fields with the tick count they stand for.
  Comparing dates field by field is proved to be comparing ticks.
- The percentage loop of the by-region endpoint is a method over an array
  updated in place, proved against the function that specifies it.
- The trend chart's React state (the rows, the loading flag, the view
  mode and the selected month) is a class whose handlers are methods. The
  other two charts are pure functions.

Modules, one file each:

- `wrappers.dfy`: Option and Result.
- `numbers.dfy`: cents, exact averages, C# and JavaScript rounding.
- `calendar.dfy`: DateTime fields, ticks, weekdays, AddMonths and AddDays.
- `text.dfy`: integer to string and the "D2" format.
- `aggregation.dfy`: the LINQ operators.
- `store.dfy`: the tables and the date filter.
- `dtos.dfy`: the response records.
- `sales_controller.dfy`, `customer_controller.dfy`,
  `products_controller.dfy`: the three controllers.
- `js_arrays.dfy`: `Array.prototype.slice` and `Math.round`.
- `sales_trend_chart.dfy`, `regional_sales_chart.dfy`,
  `top_products_chart.dfy`: the three charts.

## Model

| member | source | states |
|---|---|---|
| Aggregation.Where | backend/SalesAnalytics.API/Controllers/SalesController.cs:32-36 | the kept elements are exactly the input elements satisfying the predicate, never more than the input |
| Aggregation.WhereWhere | backend/SalesAnalytics.API/Controllers/SalesController.cs:32-36 | two chained filters equal one filter by the conjunction |
| Aggregation.SumOfAppend | backend/SalesAnalytics.API/Controllers/SalesController.cs:40 | a sum over a concatenation is the sum of the parts |
| Aggregation.SumOfNonNegative | backend/SalesAnalytics.API/Controllers/SalesController.cs:133 | a sum of non-negative terms is non-negative |
| Aggregation.SumOfWhereBounded | backend/SalesAnalytics.API/Controllers/SalesController.cs:133-140 | with non-negative terms, the sum over a filtered subsequence lies between 0 and the sum over the whole |
| Aggregation.KeysOf | backend/SalesAnalytics.API/Controllers/SalesController.cs:136 | the group keys are distinct, at most one per element, and include the key of every element |
| Aggregation.KeyWitness | backend/SalesAnalytics.API/Controllers/SalesController.cs:136 | every group key is the key of some element |
| Aggregation.KeyGroupNonEmpty | backend/SalesAnalytics.API/Controllers/SalesController.cs:136-143 | the group of every key is non-empty |
| Aggregation.GroupSumBounded | backend/SalesAnalytics.API/Controllers/SalesController.cs:140 | with non-negative terms a group's sum lies between 0 and the whole sum |
| Aggregation.GroupsPartition | backend/SalesAnalytics.API/Controllers/SalesController.cs:136-141 | when every element's key occurs once in the key list, the per-group sums add up to the sum over all elements |
| Aggregation.SumOverRows | backend/SalesAnalytics.API/Controllers/SalesController.cs:136-141 | rows built one per key, each reporting its group's sum, add up to the per-group sums |
| Aggregation.DistinctCount | backend/SalesAnalytics.API/Controllers/SalesController.cs:43-44 | the count of distinct keys is at most the number of elements and is 0 exactly for no elements |
| Aggregation.DistinctCountIsImageSize | backend/SalesAnalytics.API/Controllers/SalesController.cs:43 | the count of distinct keys is the size of the set of keys |
| Aggregation.InjectiveImageCardinality | backend/SalesAnalytics.API/Controllers/CustomerController.cs:83-86 | an injective map keeps the size of a set |
| Aggregation.SubsetCardinality | backend/SalesAnalytics.API/Controllers/CustomerController.cs:128 | a subset is no larger than its superset |
| Aggregation.MinBy | backend/SalesAnalytics.API/Controllers/SalesController.cs:45 | the chosen element is in the input and no element scores lower |
| Aggregation.MaxBy | backend/SalesAnalytics.API/Controllers/SalesController.cs:46 | the chosen element is in the input and no element scores higher |
| Aggregation.SortDescending | backend/SalesAnalytics.API/Controllers/SalesController.cs:144 | the result is ordered by non-increasing score and is a permutation of the input |
| Aggregation.OrderByRank | backend/SalesAnalytics.API/Controllers/SalesController.cs:89-90 | distinct keys under a rank injective on them come out as a permutation in strictly increasing rank |
| Aggregation.Take | backend/SalesAnalytics.API/Controllers/SalesController.cs:145 | the result is the prefix of length min(max(n, 0), length) |
| Aggregation.TopN | backend/SalesAnalytics.API/Controllers/SalesController.cs:144-145 | OrderByDescending then Take: min(max(n, 0), length) elements, non-increasing, a sub-multiset of the input, and no element left out scores higher than one kept |
| Aggregation.TopNMembers | backend/SalesAnalytics.API/Controllers/SalesController.cs:144-145 | every element of the top n is an element of the input |
| Numbers.RoundHalfEven | backend/SalesAnalytics.API/Controllers/SalesController.cs:152 | Math.Round: the nearest integer, ties to the even neighbour |
| Numbers.RoundHalfEvenUnique | backend/SalesAnalytics.API/Controllers/SalesController.cs:152 | any integer that is nearest with ties to even is the rounded value |
| Numbers.RoundHalfEvenMonotone | backend/SalesAnalytics.API/Controllers/SalesController.cs:372 | rounding preserves order |
| Numbers.JsRound | frontend/src/components/SalesTrendChart.tsx:52 | Math.round: within half a unit, halves rounded up |
| Numbers.JsRoundOfCents | frontend/src/components/SalesTrendChart.tsx:52 | rounding an amount given in cents is (cents + 50) div 100 |
| Calendar.LessOrEqualIsTicksOrder | backend/SalesAnalytics.API/Controllers/SalesController.cs:33 | comparing two DateTimes field by field is comparing their tick counts |
| Calendar.TicksOrderIsLexicographic | backend/SalesAnalytics.API/Controllers/SalesController.cs:33 | an earlier (year, month, day, time) has fewer ticks |
| Calendar.DayNameInjective | backend/SalesAnalytics.API/Controllers/SalesController.cs:196 | distinct weekdays have distinct names |
| Calendar.FirstDayIsMonday | backend/SalesAnalytics.API/Controllers/SalesController.cs:193 | 0001-01-01 is a Monday, as DateTime.DayOfWeek gives it |
| Calendar.KnownWeekdays | backend/SalesAnalytics.API/Controllers/SalesController.cs:193 | 2024-01-15 is a Monday and 2010-12-01 a Wednesday, as DateTime.DayOfWeek gives them |
| Calendar.FirstOfMonth | backend/SalesAnalytics.API/Controllers/SalesController.cs:237 | new DateTime(year, month, 1) exists exactly for years 1..9999 and months 1..12 |
| Calendar.NextMonthFromFirst | backend/SalesAnalytics.API/Controllers/SalesController.cs:246 | AddMonths(1) from the first of a month is the first of the next month, failing only after December 9999 |
| Calendar.PreviousMonthFromFirst | backend/SalesAnalytics.API/Controllers/SalesController.cs:247 | AddMonths(-1) from the first of a month is the first of the previous month, failing only before January 0001 |
| Calendar.DayBeforeFirst | backend/SalesAnalytics.API/Controllers/SalesController.cs:248 | AddDays(-1) from the first of a month is the last day of the previous month |
| Calendar.MonthWindowMembers | backend/SalesAnalytics.API/Controllers/SalesController.cs:246-248 | a date lies between the first of a month and its last day at 00:00 exactly when it is in that month and not later than 00:00 on the last day |
| Calendar.PreviousDayIsOneDayEarlier | backend/SalesAnalytics.API/Controllers/SalesController.cs:248 | AddDays(-1) is exactly one day of ticks earlier and fails only on 0001-01-01 |
| Calendar.PreviousDayWeekday | backend/SalesAnalytics.API/Controllers/SalesController.cs:248 | the day before falls on the previous weekday |
| Text.NatToString | backend/SalesAnalytics.API/Controllers/SalesController.cs:97 | a non-empty digit string, one digit exactly below 10 |
| Text.ParseNatToString | backend/SalesAnalytics.API/Controllers/SalesController.cs:97 | the decimal string reads back as the number |
| Text.FormatD2OfMonth | backend/SalesAnalytics.API/Controllers/SalesController.cs:97 | ToString("D2") of a month is two digits that read back as the month |
| Text.FormatD2Examples | backend/SalesAnalytics.API/Controllers/SalesController.cs:97 | 3 renders as "03", 12 as "12" |
| Store.Earliest | backend/SalesAnalytics.API/Controllers/SalesController.cs:45 | MinAsync(InvoiceDate): a sale of the set whose date no other sale precedes |
| Store.Latest | backend/SalesAnalytics.API/Controllers/SalesController.cs:46 | MaxAsync(InvoiceDate): a sale of the set whose date no other sale follows |
| Store.DistinctCustomerIds | backend/SalesAnalytics.API/Controllers/SalesController.cs:43 | Select(CustomerId).Distinct().Count() is the number of distinct customer ids |
| Store.DistinctProductIds | backend/SalesAnalytics.API/Controllers/SalesController.cs:44 | Select(ProductId).Distinct().Count() is the number of distinct product ids |
| Store.InvoiceOrder | backend/SalesAnalytics.API/Controllers/SalesController.cs:330 | ordering sales by invoice date is ordering them by ticks |
| Store.FilterByDateIsOneWhere | backend/SalesAnalytics.API/Controllers/SalesController.cs:30-36 | adding a Where for each present bound gives the single inclusive-range filter |
| Store.FilterByDateMembership | backend/SalesAnalytics.API/Controllers/SalesController.cs:32-36 | a sale is kept exactly when its date lies within the inclusive range |
| Store.UnboundedFilterKeepsAll | backend/SalesAnalytics.API/Controllers/SalesController.cs:30 | without bounds the filter keeps every sale |
| SalesController.GetSummary | backend/SalesAnalytics.API/Controllers/SalesController.cs:38-53 | succeeds exactly when the filtered set is non-empty (AverageAsync throws otherwise) and then reports its summary; the error text is the endpoint's message |
| SalesController.SummaryDistinctCounts | backend/SalesAnalytics.API/Controllers/SalesController.cs:43-44 | unique customers and products are the sizes of the id sets, between 1 and the transaction count |
| SalesController.SummaryDateSpan | backend/SalesAnalytics.API/Controllers/SalesController.cs:45-46 | start and end dates are attained by sales, bound every sale's date, and start is not after end |
| SalesController.MonthKeys | backend/SalesAnalytics.API/Controllers/SalesController.cs:77-90 | the (year, month) groups: distinct, strictly increasing, covering every sale, each non-empty with a month in 1..12 |
| SalesController.GetSalesByMonth | backend/SalesAnalytics.API/Controllers/SalesController.cs:76-101 | one row per (year, month) group, in group order |
| SalesController.SalesByMonthRows | backend/SalesAnalytics.API/Controllers/SalesController.cs:94-100 | every month label is two digits reading back as a month 1..12, and every row has a sale |
| SalesController.MonthRankOrder | backend/SalesAnalytics.API/Controllers/SalesController.cs:89-90 | ordering by the rank is ordering by year then month |
| SalesController.SalesByMonthAscending | backend/SalesAnalytics.API/Controllers/SalesController.cs:89-90 | the rows are in strictly ascending (year, month) order |
| SalesController.SalesByMonthPartition | backend/SalesAnalytics.API/Controllers/SalesController.cs:85-86 | the month rows' revenues and transaction counts add up to the filtered totals |
| SalesController.Countries | backend/SalesAnalytics.API/Controllers/SalesController.cs:136 | the country groups: distinct, covering every sale's country, each non-empty |
| SalesController.RegionRows | backend/SalesAnalytics.API/Controllers/SalesController.cs:135-143 | one row per country group, percentage still 0 |
| SalesController.Percentage | backend/SalesAnalytics.API/Controllers/SalesController.cs:151-153 | 0 when the total is not positive, otherwise the exact share in percent rounded to the nearest hundredth, a tie going to the even one |
| SalesController.WithPercentages | backend/SalesAnalytics.API/Controllers/SalesController.cs:149-154 | only the percentage field of each row changes |
| SalesController.FillPercentages | backend/SalesAnalytics.API/Controllers/SalesController.cs:149-154 | the loop leaves the array equal to the rows with their percentages set |
| SalesController.ApplyPercentages | backend/SalesAnalytics.API/Controllers/SalesController.cs:146-154 | the listed rows after the percentage loop |
| SalesController.GetSalesByRegion | backend/SalesAnalytics.API/Controllers/SalesController.cs:133-156 | the endpoint's result is the ranked, cut rows with percentages of the whole filtered total |
| SalesController.SalesByRegionTop | backend/SalesAnalytics.API/Controllers/SalesController.cs:144-153 | at most top rows, revenue non-increasing, each a country group of the filtered sales, percentages of the whole filtered total |
| SalesController.SalesByRegionZeroTotal | backend/SalesAnalytics.API/Controllers/SalesController.cs:151-153 | with a non-positive total every percentage is 0 |
| SalesController.SalesByRegionPercentageBounds | backend/SalesAnalytics.API/Controllers/SalesController.cs:151-153 | with non-negative amounts every percentage lies in 0..100.00 |
| SalesController.RegionRevenueBounded | backend/SalesAnalytics.API/Controllers/SalesController.cs:140 | with non-negative amounts a country's revenue lies between 0 and the total |
| SalesController.PercentageBounds | backend/SalesAnalytics.API/Controllers/SalesController.cs:152 | a part of the total gets a percentage in 0..100.00 |
| SalesController.RegionRowsPartition | backend/SalesAnalytics.API/Controllers/SalesController.cs:140-141 | the country rows' revenues and transaction counts add up to the filtered totals |
| SalesController.SaleDaysMembership | backend/SalesAnalytics.API/Controllers/SalesController.cs:193 | a weekday has a group exactly when some sale falls on it |
| SalesController.DayRows | backend/SalesAnalytics.API/Controllers/SalesController.cs:192-201 | one row per weekday group, each group non-empty |
| SalesController.FirstNamed | backend/SalesAnalytics.API/Controllers/SalesController.cs:210 | FirstOrDefault by name: a row with that name if there is one, none exactly when no row has it |
| SalesController.MondayFirstOrder | backend/SalesAnalytics.API/Controllers/SalesController.cs:204-207 | the fixed order lists every weekday once, Monday first |
| SalesController.FirstNamedDay | backend/SalesAnalytics.API/Controllers/SalesController.cs:210 | looking a weekday up by name finds that weekday's group row exactly when it has sales |
| SalesController.PickInOrderIsPresentDays | backend/SalesAnalytics.API/Controllers/SalesController.cs:209-212 | the lookup in a given order, nulls dropped, yields the rows of the weekdays that have sales, in that order |
| SalesController.PresentDaysOrder | backend/SalesAnalytics.API/Controllers/SalesController.cs:204-212 | at most 7 weekdays, in Monday-first order, so none twice |
| SalesController.PresentDaysMembership | backend/SalesAnalytics.API/Controllers/SalesController.cs:204-212 | a weekday is reported exactly when some filtered sale falls on it |
| SalesController.SalesByDayOfWeekRows | backend/SalesAnalytics.API/Controllers/SalesController.cs:192-212 | one row per weekday with sales, Monday first, named by the weekday, counting that weekday's sales (at least one) |
| SalesController.SalesByDayOfWeekDistinct | backend/SalesAnalytics.API/Controllers/SalesController.cs:209-212 | no weekday is reported twice |
| SalesController.SaleHours | backend/SalesAnalytics.API/Controllers/SalesController.cs:299-307 | the hour groups: strictly increasing, covering every sale, each non-empty and within 0..23 |
| SalesController.GetSalesByHour | backend/SalesAnalytics.API/Controllers/SalesController.cs:298-308 | one row per hour group, in ascending hour order |
| SalesController.SalesByHourOrder | backend/SalesAnalytics.API/Controllers/SalesController.cs:298-308 | hours strictly increase and lie in 0..23, every row has at least one sale |
| SalesController.SalesByHourCoverage | backend/SalesAnalytics.API/Controllers/SalesController.cs:298-308 | every filtered sale's hour has a row |
| SalesController.SalesByHourPartition | backend/SalesAnalytics.API/Controllers/SalesController.cs:303-304 | the hour rows' revenues and transaction counts add up to the filtered totals |
| SalesController.GetRecentSales | backend/SalesAnalytics.API/Controllers/SalesController.cs:327-341 | one row per picked sale, in order |
| SalesController.RecentSalesNewestFirst | backend/SalesAnalytics.API/Controllers/SalesController.cs:330-331 | min(max(limit, 0), n) sales of the store, newest first, and none left out is newer than one kept |
| SalesController.RecentRowDescription | backend/SalesAnalytics.API/Controllers/SalesController.cs:336 | a missing product description reads "Unknown" |
| SalesController.AnchorOfRequestedMonth | backend/SalesAnalytics.API/Controllers/SalesController.cs:235-238 | a requested (year, month) anchors at its first day, and fails only for an impossible date |
| SalesController.AnchorOfLatestMonth | backend/SalesAnalytics.API/Controllers/SalesController.cs:239-244 | without both parameters the anchor is the first of the latest sale's month (no sale is in a later month); with no sales it fails |
| SalesController.WindowsOfMonthDefined | backend/SalesAnalytics.API/Controllers/SalesController.cs:246-248 | the windows exist for every month but December 9999 and January 0001 |
| SalesController.WindowsOfMonth | backend/SalesAnalytics.API/Controllers/SalesController.cs:246-248 | current window: first to last day of the month at 00:00; previous window: the same over the month before, December of the prior year for January |
| SalesController.WindowsAdjacent | backend/SalesAnalytics.API/Controllers/SalesController.cs:248 | the previous window ends exactly one day before the current one starts |
| SalesController.LastDayGap | backend/SalesAnalytics.API/Controllers/SalesController.cs:246-248 | a sale later than 00:00 on the month's last day is in neither window |
| SalesController.PeriodOf | backend/SalesAnalytics.API/Controllers/SalesController.cs:357-365 | the figures carry a well-defined average |
| SalesController.PeriodFigures | backend/SalesAnalytics.API/Controllers/SalesController.cs:357-365 | defined exactly when there is a sale; count, revenue, the average as revenue over count, distinct customers (between 1 and the count) and the reported dates |
| SalesController.Growth | backend/SalesAnalytics.API/Controllers/SalesController.cs:369-373 | 0 when the old value is 0, otherwise the relative change in percent rounded to the nearest hundredth, a tie going to the even one |
| SalesController.GrowthOfCounts | backend/SalesAnalytics.API/Controllers/SalesController.cs:375-379 | the integer overload agrees with the decimal one |
| SalesController.GrowthSign | backend/SalesAnalytics.API/Controllers/SalesController.cs:369-373 | with a positive old value growth has the sign of the change |
| SalesController.GrowthExamples | backend/SalesAnalytics.API/Controllers/SalesController.cs:369-379 | 100 to 150 is 50.00, 100 to 50 is -50.00, from 0 it is 0, 4 to 5 is 25.00 |
| SalesController.TrendCases | backend/SalesAnalytics.API/Controllers/SalesController.cs:263-264 | "up", "down" and "neutral" exactly when revenue rose, fell or stayed |
| SalesController.ComparisonOutcome | backend/SalesAnalytics.API/Controllers/SalesController.cs:225-278 | the comparison succeeds exactly when the anchor exists, its windows exist and both windows hold a sale |
| SalesController.ComparisonFigures | backend/SalesAnalytics.API/Controllers/SalesController.cs:251-272 | a successful comparison reports the two windows' figures, the four growth rates from the previous month (the old value) to the current one, 0 when the previous revenue is 0, and the revenue trend |
| SalesController.RequestedMonthAsWritten | backend/SalesAnalytics.API/Controllers/SalesController.cs:235-254 | for a requested month with windows, success exactly when both inclusive windows hold a sale |
| SalesController.MonthWindowAsWritten | backend/SalesAnalytics.API/Controllers/SalesController.cs:246-248 | a month's window is the month's sales minus those later than 00:00 on its last day |
| SalesController.WindowAgainstWholeMonth | backend/SalesAnalytics.API/Controllers/SalesController.cs:246-248 | the window never holds more than the month, and all of it exactly when no sale is late on the last day |
| SalesController.LateSaleMissed | backend/SalesAnalytics.API/Controllers/SalesController.cs:246-255 | with sales on 15 October 2011 12:00 and 30 November 2011 14:00, the November window is empty and the comparison fails |
| SalesController.WholeMonthsOutcome | backend/SalesAnalytics.API/Controllers/SalesController.cs:225-278 | the whole-month comparison succeeds exactly when the anchor and its windows exist and both calendar months have a sale |
| SalesController.WholeMonthsFigures | backend/SalesAnalytics.API/Controllers/SalesController.cs:251-254 | the whole-month comparison counts and sums every sale of each month |
| SalesController.RequestedMonthWhole | backend/SalesAnalytics.API/Controllers/SalesController.cs:235-254 | for a requested month with windows, the whole-month comparison succeeds exactly when both months have a sale, and counts all of them |
| SalesController.LateSaleCounted | backend/SalesAnalytics.API/Controllers/SalesController.cs:246-255 | in the same store the whole-month comparison succeeds with one sale in each month |
| CustomerController.CustomerCodes | backend/SalesAnalytics.API/Controllers/CustomerController.cs:41 | the customer-code groups: distinct, covering every sale, each non-empty |
| CustomerController.CustomerRows | backend/SalesAnalytics.API/Controllers/CustomerController.cs:40-50 | one row per customer-code group |
| CustomerController.CustomerRowFacts | backend/SalesAnalytics.API/Controllers/CustomerController.cs:44-49 | a row's revenue, order count (at least 1), average, and first and last purchase dates attained by and bounding the customer's sales |
| CustomerController.TopCustomersRanked | backend/SalesAnalytics.API/Controllers/CustomerController.cs:51-52 | at most top rows, revenue non-increasing, each a customer row, none left out with more revenue than one kept |
| CustomerController.CustomerRowsPartition | backend/SalesAnalytics.API/Controllers/CustomerController.cs:45-46 | the customer rows' revenues and order counts add up to the filtered totals |
| CustomerController.CustomerAnalyticsAverages | backend/SalesAnalytics.API/Controllers/CustomerController.cs:83-112 | total customers is the number of distinct customer ids (0 exactly with no sales); the averages are revenue and orders over it, 0 when there is none |
| CustomerController.CustomerAnalyticsTopTen | backend/SalesAnalytics.API/Controllers/CustomerController.cs:91-104 | the top list is the top-customers query with top 10 |
| CustomerController.OneRowPerCustomer | backend/SalesAnalytics.API/Controllers/CustomerController.cs:83-104 | with resolving keys and unique customer codes there is one top-customer group per distinct customer id |
| CustomerController.CodesOfIds | backend/SalesAnalytics.API/Controllers/CustomerController.cs:83-92 | distinct customer codes and distinct customer ids of the sales are equally many |
| CustomerController.CustomerCountBounds | backend/SalesAnalytics.API/Controllers/CustomerController.cs:128 | the customers with sales in any range are no more than the customer count |
| ProductsController.ProductKeys | backend/SalesAnalytics.API/Controllers/ProductsController.cs:41 | the (stock code, description) groups: distinct, covering every sale, each non-empty |
| ProductsController.ProductRows | backend/SalesAnalytics.API/Controllers/ProductsController.cs:40-49 | one row per product group |
| ProductsController.ProductRowFacts | backend/SalesAnalytics.API/Controllers/ProductsController.cs:44-48 | a row's stock code, description with "Unknown" for a missing one, revenue, units and count (at least 1) |
| ProductsController.TopProductsRanked | backend/SalesAnalytics.API/Controllers/ProductsController.cs:50-51 | at most top rows, revenue non-increasing, each a product row, none left out with more revenue than one kept |
| ProductsController.ProductRowsPartition | backend/SalesAnalytics.API/Controllers/ProductsController.cs:46-48 | the product rows' revenues, units and transaction counts add up to the filtered totals |
| ProductsController.OneRowPerProduct | backend/SalesAnalytics.API/Controllers/ProductsController.cs:41 | with resolving keys and unique stock codes no two product rows share a stock code |
| ProductsController.SameStockCodeSameKey | backend/SalesAnalytics.API/Controllers/ProductsController.cs:41 | two product groups with the same stock code are the same group |
| ProductsController.ProductCountBounds | backend/SalesAnalytics.API/Controllers/ProductsController.cs:70 | the products sold are no more than the product count |
| JsArrays.SliceBound | frontend/src/components/SalesTrendChart.tsx:58 | a normalised slice bound lies within the array |
| JsArrays.JsSlice | frontend/src/components/SalesTrendChart.tsx:58 | a slice is never longer than the array, and with bounds inside the array it is the subsequence between them |
| JsArrays.JsSliceFrom | frontend/src/components/RegionalSalesChart.tsx:40 | slice(k) with k >= 0 is the suffix from min(k, length) |
| JsArrays.RoundAmountOfCents | frontend/src/components/SalesTrendChart.tsx:52 | Math.round of an amount in cents is (cents + 50) div 100, within half a unit of the amount |
| TrendChart.LabelParts | frontend/src/components/SalesTrendChart.tsx:51 | the label is the month string, a slash and the year's digits |
| TrendChart.OverallChart | frontend/src/components/SalesTrendChart.tsx:49-53 | the overall view has one point per month, in order, labelled month/year with the rounded revenue |
| TrendChart.MonthChart | frontend/src/components/SalesTrendChart.tsx:55-61 | with a valid index the month view shows min(index + 1, 6) points, data[max(0, index - 5) + i], the selected month last |
| TrendChart.MonthWindow | frontend/src/components/SalesTrendChart.tsx:56-58 | the month view is the slice from max(0, index - 5) up to and including index |
| TrendChart.EmptyChart | frontend/src/components/SalesTrendChart.tsx:18-32 | with no months both views are empty at any index: the initial 0, 0 after a failed fetch, -1 after an empty one |
| TrendChart.StepsKeepIndexValid | frontend/src/components/SalesTrendChart.tsx:68-78 | both steps keep an index within 0..length - 1 |
| TrendChart.PrevStepsReach | frontend/src/components/SalesTrendChart.tsx:68-72 | k presses of previous from a valid index reach max(index - k, 0) |
| TrendChart.NextStepsReach | frontend/src/components/SalesTrendChart.tsx:74-78 | k presses of next reach min(index + k, length - 1) |
| TrendChart.SalesTrendChart.constructor | frontend/src/components/SalesTrendChart.tsx:18-21 | nothing loaded, loading, overall view, index 0 |
| TrendChart.SalesTrendChart.FetchSucceeded | frontend/src/components/SalesTrendChart.tsx:26-28 | keeps the rows and selects the last month, which is a valid index when there is a month |
| TrendChart.SalesTrendChart.FetchFailed | frontend/src/components/SalesTrendChart.tsx:29-33 | only the loading flag clears |
| TrendChart.SalesTrendChart.HandlePrevMonth | frontend/src/components/SalesTrendChart.tsx:68-72 | the index steps back unless at 0; nothing else changes; a valid index stays valid |
| TrendChart.SalesTrendChart.HandleNextMonth | frontend/src/components/SalesTrendChart.tsx:74-78 | the index steps forward unless at the last month; nothing else changes; a valid index stays valid |
| TrendChart.SalesTrendChart.SetViewMode | frontend/src/components/SalesTrendChart.tsx:127-137 | only the view mode changes |
| RegionalChart.SplitAtFive | frontend/src/components/RegionalSalesChart.tsx:39-40 | slice(0, 5) and slice(5) split the rows at min(n, 5) |
| RegionalChart.ChartShape | frontend/src/components/RegionalSalesChart.tsx:39-61 | min(n, 5) slices for the first rows in order, then "Others" over the rest exactly when n > 5; at most 6 slices |
| RegionalChart.OthersValue | frontend/src/components/RegionalSalesChart.tsx:42-43 | "Others" has the rounded sum of the remaining revenues and the sum of the remaining percentages |
| RegionalChart.SlicesPercentage | frontend/src/components/RegionalSalesChart.tsx:47-51 | mapping rows to slices keeps the percentage sum |
| RegionalChart.ChartKeepsPercentages | frontend/src/components/RegionalSalesChart.tsx:42-61 | the slices' percentages add up to the rows' percentages |
| RegionalChart.ColorsDistinct | frontend/src/components/RegionalSalesChart.tsx:6-13 | slice colours are taken by index mod 6, so the at most 6 slices all get different colours |
| ProductsChart.ShortenFacts | frontend/src/components/TopProductsChart.tsx:43-46 | a description over 35 characters becomes its first 30 and "...", 33 in all; one of at most 35 is unchanged |
| ProductsChart.BarEntriesFacts | frontend/src/components/TopProductsChart.tsx:42-50 | one entry per product, in order: shortened name, full description, units sold, rounded revenue |
| ProductsChart.FindByName | frontend/src/components/TopProductsChart.tsx:94 | find: the first entry with that name, none exactly when no entry has it |
| ProductsChart.UnknownLabel | frontend/src/components/TopProductsChart.tsx:93-96 | a label no entry carries is shown as it is |
| ProductsChart.FirstLabelShowsFullName | frontend/src/components/TopProductsChart.tsx:93-96 | an entry whose name no earlier entry shares shows its own full description |
| ProductsChart.SharedPrefixShowsFirst | frontend/src/components/TopProductsChart.tsx:43-46 | two long descriptions agreeing on 30 characters share a label, and the second bar's tooltip shows the first description |

## Left out

- Entity Framework, SQL translation, `async`/`await` and the HTTP layer are not modelled. Each endpoint is a function of the store and its query parameters, and a failure is `Error(message)` carrying the endpoint's message. The status code 500 and the exception text are not modelled.
- Exceptions are modelled only where the query itself throws. That is `AverageAsync`/`MinAsync` on an empty set (summary, comparison periods), `MaxAsync` on an empty store and `new DateTime` or `AddMonths` out of range (comparison). A failing database connection is not modelled.
- The summary, the by-month, by-hour and by-day averages, the customer averages and the period averages are exact quotients (`Ratio`). SQL's decimal scale and C#'s 28-digit decimal division are not modelled.
- SalesController.Percentage: the share is computed as an exact real before rounding, not as a decimal quotient cut to 28 significant digits. In rare cases of a tie the rounded hundredth can differ.
- SalesController.Growth: the relative change is exact before rounding, not a 28-digit decimal quotient. The same rare tie difference applies.
- Aggregation.TopN: revenue ties come back in whatever order the database returns them. The model fixes one order, and its contract promises only the order by revenue and which rows are kept.
- SalesController.RecentSalesNewestFirst: sales with equal invoice dates likewise come back in an unspecified order. The contract states only newest-first order and membership.
- 32-bit `int` overflow of counts, quantities and unit sums is not modelled. The integers are unbounded.
- SalesController.GetSalesByRegion, SalesController.GetRecentSales, CustomerController.GetTopCustomers and ProductsController.GetTopProducts: a negative `top` or `limit` gives an empty list here, as in-memory `Take` does. The source does not validate these parameters (`SalesController.cs:145`, `:331`, `CustomerController.cs:52`, `ProductsController.cs:51`). Its queries run through Entity Framework against SQL Server, which turns `Take` into `TOP`. SQL Server rejects a negative `TOP`, so the source most likely fails there and answers with its error response. The provider setup is not part of this model.
- `CreatedAt` and `UnitPrice` are never read by the modelled queries. `CreatedAt` is left out of the sale record.
- Front-end numbers are exact integers and rationals, not IEEE doubles. `Math.round` and the `reduce` sums are exact here. A float sum of many percentages can differ in its last bits.
- JavaScript string lengths and `substring` count UTF-16 code units. The model counts characters, so the two differ only for characters outside the Basic Multilingual Plane.
- Fetching the data (the `salesApi`/`productsApi` calls) is a method parameter: `FetchSucceeded` receives the rows. The pie and bar charts are modelled on the rows they receive.
- Rendering, the recharts components, tooltips' currency formatting, the loading skeletons and the header text of the trend chart are not modelled.
- The health controllers, the import script, `api.ts`, the hooks, JSON serialization and the other components (map chart, dashboard, header, KPI cards, region toggle) are outside this model.

## Findings

The comparison endpoint's windows end at 00:00 on the last day of each month. The date filter compares full `DateTime` values, so a sale later on that day is in neither month. The endpoint's own doc comment (`SalesController.cs:223`) says it compares two consecutive months, and the variables are named `currentMonthEnd` and `previousMonthEnd` (`SalesController.cs:246-248`), so each window is meant to cover its whole calendar month. The model keeps the endpoint as written (`SalesController.GetComparison`). Beside it, `SalesController.GetComparisonWholeMonths` compares whole calendar months.

| source | as written | input that shows it | evidently intended | confidence | as-written member | corrected member |
|---|---|---|---|---|---|---|
| backend/SalesAnalytics.API/Controllers/SalesController.cs:246-248 | `currentMonthEnd` and `previousMonthEnd` are the last day of the month at 00:00, with an inclusive `<=` filter | sales on 2011-10-15 12:00 and 2011-11-30 14:00, comparing November 2011: the November window is empty and the comparison fails | each window holds every sale dated in its calendar month | high, not executed | SalesController.LateSaleMissed | SalesController.WholeMonthsFigures |
