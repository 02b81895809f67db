/**
 * The /api/sales endpoints: summary KPIs, the monthly, regional, weekday and
 * hourly breakdowns, the most recent transactions and the month-over-month
 * comparison. Each endpoint is a function of the store; an endpoint whose
 * query would throw (an aggregate over no rows, an impossible date) yields
 * an Error, which the controller turns into status 500.
 */
module SalesController {
  import opened Wrappers
  import opened Numbers
  import opened Calendar
  import opened Text
  import opened Aggregation
  import opened Store
  import opened Dtos

  // ---------------------------------------------------------------------------
  // GET summary

  /**
   * The KPIs of a non-empty set of sales: revenue, count and average, the
   * numbers of distinct customers and products, and the earliest and latest
   * invoice dates.
   */
  function SummaryOf(f: seq<Sale>): SalesSummary
    requires f != []
  {
    SalesSummary(
      totalRevenue := SumOf(f, Amount),
      totalTransactions := |f|,
      averageOrderValue := Average(f, Amount),
      uniqueCustomers := DistinctCount(f, CustomerId),
      uniqueProducts := DistinctCount(f, ProductId),
      startDate := Earliest(f).invoiceDate,
      endDate := Latest(f).invoiceDate)
  }

  /** UniqueCustomers and UniqueProducts count distinct ids, at least one each. */
  lemma SummaryDistinctCounts(f: seq<Sale>)
    requires f != []
    ensures SummaryOf(f).uniqueCustomers == |set s | s in f :: s.customerId|
    ensures SummaryOf(f).uniqueProducts == |set s | s in f :: s.productId|
    ensures 1 <= SummaryOf(f).uniqueCustomers <= SummaryOf(f).totalTransactions
    ensures 1 <= SummaryOf(f).uniqueProducts <= SummaryOf(f).totalTransactions
  {
    DistinctCustomerIds(f);
    DistinctProductIds(f);
  }

  /** StartDate and EndDate are the earliest and the latest invoice dates. */
  lemma SummaryDateSpan(f: seq<Sale>)
    requires f != []
    ensures exists s :: s in f && s.invoiceDate == SummaryOf(f).startDate
    ensures exists s :: s in f && s.invoiceDate == SummaryOf(f).endDate
    ensures forall s :: s in f ==> LessOrEqual(SummaryOf(f).startDate, s.invoiceDate)
    ensures forall s :: s in f ==> LessOrEqual(s.invoiceDate, SummaryOf(f).endDate)
    ensures LessOrEqual(SummaryOf(f).startDate, SummaryOf(f).endDate)
  {
    var first := Earliest(f);
    assert first in f;
  }

  /**
   * GET summary. Average, Min and Max have no value on an empty set, so the
   * call fails exactly when the date filter keeps no sale.
   */
  function GetSummary(db: Db, range: DateRange): (r: Result<SalesSummary>)
    ensures r.Ok? <==> FilterByDate(db.sales, range) != []
    ensures r.Ok? ==> r.value == SummaryOf(FilterByDate(db.sales, range))
  {
    var query := FilterByDate(db.sales, range);
    if query == [] then Error("Error retrieving sales summary") else Ok(SummaryOf(query))
  }

  // ---------------------------------------------------------------------------
  // GET by-month

  datatype MonthKey = MonthKey(year: int, month: int)

  function MonthOf(s: Sale): MonthKey {
    MonthKey(s.invoiceDate.year, s.invoiceDate.month)
  }

  /** OrderBy(Year).ThenBy(Month) as one number. */
  function MonthRank(k: MonthKey): int {
    k.year * 12 + k.month - 1
  }

  /** The (year, month) groups of f, ascending. */
  function MonthKeys(f: seq<Sale>): (ks: seq<MonthKey>)
    ensures Distinct(ks)
    ensures StrictlyIncreasing(ks, MonthRank)
    ensures forall s :: s in f ==> MonthOf(s) in ks
    ensures forall k :: k in ks ==> Group(f, MonthOf, k) != []
    ensures forall k :: k in ks ==> 1 <= k.month <= 12
  {
    var keys := KeysOf(f, MonthOf);
    assert forall k :: k in keys ==> Group(f, MonthOf, k) != [] && 1 <= k.month <= 12 by {
      forall k | k in keys
        ensures Group(f, MonthOf, k) != [] && 1 <= k.month <= 12
      {
        var s := KeyWitness(f, MonthOf, k);
        assert s in Group(f, MonthOf, k);
      }
    }
    var ordered := OrderByRank(keys, MonthRank);
    DistinctPermutation(keys, ordered);
    MembersOfPermutation(keys, ordered);
    ordered
  }

  function MonthRow(f: seq<Sale>, k: MonthKey): MonthlySales
    requires Group(f, MonthOf, k) != []
  {
    var g := Group(f, MonthOf, k);
    MonthlySales(FormatD2(k.month), k.year, SumOf(g, Amount), |g|, Average(g, Amount))
  }

  function MonthRevenue(m: MonthlySales): int { m.revenue }

  function MonthTransactions(m: MonthlySales): int { m.transactionCount }

  /** One row per (year, month) of the filtered sales, oldest first. */
  function GetSalesByMonth(db: Db, range: DateRange): (rows: seq<MonthlySales>)
    ensures var ks := MonthKeys(FilterByDate(db.sales, range));
            |rows| == |ks| && forall i :: 0 <= i < |ks| ==> rows[i] == MonthRow(FilterByDate(db.sales, range), ks[i])
  {
    var f := FilterByDate(db.sales, range);
    var ks := MonthKeys(f);
    seq(|ks|, i requires 0 <= i < |ks| => MonthRow(f, ks[i]))
  }

  /** Each label is the two-digit month of its row, and every row has a sale. */
  lemma SalesByMonthRows(db: Db, range: DateRange)
    ensures var rows := GetSalesByMonth(db, range);
            forall i :: 0 <= i < |rows| ==>
              && |rows[i].month| == 2 && AllDigits(rows[i].month)
              && 1 <= ParseNat(rows[i].month) <= 12
              && rows[i].transactionCount >= 1
  {
    var f := FilterByDate(db.sales, range);
    var ks := MonthKeys(f);
    var rows := GetSalesByMonth(db, range);
    forall i | 0 <= i < |rows|
      ensures |rows[i].month| == 2 && AllDigits(rows[i].month)
      ensures 1 <= ParseNat(rows[i].month) <= 12
    {
      assert ks[i] in ks;
      FormatD2OfMonth(ks[i].month);
    }
  }

  lemma MonthRankOrder(a: MonthKey, b: MonthKey)
    requires 1 <= a.month <= 12 && 1 <= b.month <= 12
    requires MonthRank(a) < MonthRank(b)
    ensures a.year < b.year || (a.year == b.year && a.month < b.month)
  {
  }

  /** Row a's (year, month) label comes strictly before row b's. */
  predicate LabelBefore(a: MonthlySales, b: MonthlySales) {
    && AllDigits(a.month) && AllDigits(b.month)
    && (|| a.year < b.year
        || (a.year == b.year && ParseNat(a.month) < ParseNat(b.month)))
  }

  /** Rows are strictly ascending by (year, month), read back from their labels. */
  lemma SalesByMonthAscending(db: Db, range: DateRange)
    ensures var rows := GetSalesByMonth(db, range);
            forall i, j :: 0 <= i < j < |rows| ==> LabelBefore(rows[i], rows[j])
  {
    var f := FilterByDate(db.sales, range);
    var ks := MonthKeys(f);
    var rows := GetSalesByMonth(db, range);
    forall i, j | 0 <= i < j < |rows|
      ensures LabelBefore(rows[i], rows[j])
    {
      assert ks[i] in ks && ks[j] in ks;
      assert rows[i].month == FormatD2(ks[i].month) && rows[i].year == ks[i].year;
      assert rows[j].month == FormatD2(ks[j].month) && rows[j].year == ks[j].year;
      FormatD2OfMonth(ks[i].month);
      FormatD2OfMonth(ks[j].month);
      MonthRankOrder(ks[i], ks[j]);
    }
  }

  /**
   * The month groups partition the filtered sales: their revenues add up to
   * the filtered total and their counts to the number of filtered sales.
   */
  lemma SalesByMonthPartition(db: Db, range: DateRange)
    ensures var rows := GetSalesByMonth(db, range);
            var f := FilterByDate(db.sales, range);
            && SumOf(rows, MonthRevenue) == SumOf(f, Amount)
            && SumOf(rows, MonthTransactions) == |f|
  {
    var f := FilterByDate(db.sales, range);
    var ks := MonthKeys(f);
    var rows := GetSalesByMonth(db, range);
    SumOverRows(f, MonthOf, ks, Amount, rows, MonthRevenue);
    GroupsPartition(f, MonthOf, ks, Amount);
    forall i | 0 <= i < |ks|
      ensures MonthTransactions(rows[i]) == SumOf(Group(f, MonthOf, ks[i]), One)
    {
      SumOfOne(Group(f, MonthOf, ks[i]));
    }
    SumOverRows(f, MonthOf, ks, One, rows, MonthTransactions);
    GroupsPartition(f, MonthOf, ks, One);
    SumOfOne(f);
  }

  // ---------------------------------------------------------------------------
  // GET by-region

  function CountryKey(db: Db): Sale -> string {
    (s: Sale) => CountryOf(db, s)
  }

  function RegionRow(db: Db, f: seq<Sale>, country: string): RegionalSales
    requires Group(f, CountryKey(db), country) != []
  {
    var g := Group(f, CountryKey(db), country);
    RegionalSales(country, SumOf(g, Amount), |g|, 0)
  }

  /** The countries of f, in order of first appearance. */
  function Countries(db: Db, f: seq<Sale>): (cs: seq<string>)
    ensures Distinct(cs)
    ensures forall s :: s in f ==> CountryOf(db, s) in cs
    ensures forall c :: c in cs ==> Group(f, CountryKey(db), c) != []
  {
    var cs := KeysOf(f, CountryKey(db));
    assert forall c :: c in cs ==> Group(f, CountryKey(db), c) != [] by {
      forall c | c in cs
        ensures Group(f, CountryKey(db), c) != []
      {
        var s := KeyWitness(f, CountryKey(db), c);
        assert s in Group(f, CountryKey(db), c);
      }
    }
    cs
  }

  /** Every country group of f, before ordering and Take; Percentage still 0. */
  function RegionRows(db: Db, f: seq<Sale>): (rows: seq<RegionalSales>)
    ensures |rows| == |Countries(db, f)|
    ensures forall i :: 0 <= i < |rows| ==> rows[i] == RegionRow(db, f, Countries(db, f)[i])
  {
    var cs := Countries(db, f);
    seq(|cs|, i requires 0 <= i < |cs| => RegionRow(db, f, cs[i]))
  }

  function RegionRevenue(r: RegionalSales): int { r.revenue }

  function RegionTransactions(r: RegionalSales): int { r.transactionCount }

  /**
   * A region's share of the grand total in hundredths of a percent, rounded
   * half to even; 0 when the total is not positive.
   */
  function Percentage(revenue: Cents, totalRevenue: Cents): (p: int)
    ensures totalRevenue <= 0 ==> p == 0
    ensures totalRevenue > 0 ==>
      var exact := revenue as real / totalRevenue as real * 10000.0;
      && exact - 0.5 <= p as real <= exact + 0.5
      && ((p as real == exact - 0.5 || p as real == exact + 0.5) ==> p % 2 == 0)
  {
    if totalRevenue > 0 then Round2(revenue as real / totalRevenue as real * 100.0) else 0
  }

  /** The rows after the percentage loop: only Percentage changes. */
  function WithPercentages(rows: seq<RegionalSales>, totalRevenue: Cents): (r: seq<RegionalSales>)
    ensures |r| == |rows|
    ensures forall i :: 0 <= i < |r| ==>
              r[i] == rows[i].(percentage := Percentage(rows[i].revenue, totalRevenue))
  {
    seq(|rows|, i requires 0 <= i < |rows| => rows[i].(percentage := Percentage(rows[i].revenue, totalRevenue)))
  }

  /** What GET by-region returns. */
  function SalesByRegion(db: Db, range: DateRange, top: int): seq<RegionalSales> {
    var f := FilterByDate(db.sales, range);
    WithPercentages(TopN(RegionRows(db, f), RegionRevenue, top), SumOf(f, Amount))
  }

  /** The foreach that sets each row's Percentage, in place. */
  method FillPercentages(rows: array<RegionalSales>, totalRevenue: Cents)
    modifies rows
    ensures rows[..] == WithPercentages(old(rows[..]), totalRevenue)
  {
    var i := 0;
    while i < rows.Length
      invariant 0 <= i <= rows.Length
      invariant forall j :: 0 <= j < i ==>
                  rows[j] == old(rows[j]).(percentage := Percentage(old(rows[j]).revenue, totalRevenue))
      invariant forall j :: i <= j < rows.Length ==> rows[j] == old(rows[j])
    {
      rows[i] := rows[i].(percentage := Percentage(rows[i].revenue, totalRevenue));
      i := i + 1;
    }
  }

  /**
   * GET by-region: the grand total of the whole filtered set, the country
   * groups by revenue descending cut to `top`, then the percentage loop.
   */
  method GetSalesByRegion(db: Db, range: DateRange, top: int) returns (result: seq<RegionalSales>)
    ensures result == SalesByRegion(db, range, top)
  {
    var query := FilterByDate(db.sales, range);
    var totalRevenue := SumOf(query, Amount);
    var regionalSales := TopN(RegionRows(db, query), RegionRevenue, top);
    result := ApplyPercentages(regionalSales, totalRevenue);
  }

  /** The ToListAsync result as a fresh list, then the percentage loop over it. */
  method ApplyPercentages(regionalSales: seq<RegionalSales>, totalRevenue: Cents) returns (result: seq<RegionalSales>)
    ensures result == WithPercentages(regionalSales, totalRevenue)
  {
    var rows := new RegionalSales[|regionalSales|](i requires 0 <= i < |regionalSales| => regionalSales[i]);
    assert rows[..] == regionalSales;
    FillPercentages(rows, totalRevenue);
    result := rows[..];
  }

  /**
   * At most `top` rows, revenue non-increasing, each one a country group of
   * the filtered sales whose percentage is taken of the whole filtered total.
   */
  lemma SalesByRegionTop(db: Db, range: DateRange, top: int)
    ensures var r := SalesByRegion(db, range, top);
            var f := FilterByDate(db.sales, range);
            && |r| == Min(Max(top, 0), |Countries(db, f)|)
            && NonIncreasing(r, RegionRevenue)
            && (forall i :: 0 <= i < |r| ==> r[i].(percentage := 0) in RegionRows(db, f))
            && (forall i :: 0 <= i < |r| ==> r[i].percentage == Percentage(r[i].revenue, SumOf(f, Amount)))
  {
    var f := FilterByDate(db.sales, range);
    var all := RegionRows(db, f);
    var t := TopN(all, RegionRevenue, top);
    var r := SalesByRegion(db, range, top);
    TopNMembers(all, RegionRevenue, top);
    forall i | 0 <= i < |r|
      ensures r[i].(percentage := 0) in all
    {
      assert t[i] in t;
      var j :| 0 <= j < |all| && all[j] == t[i];
      assert t[i].percentage == 0;
    }
    forall i, j | 0 <= i < j < |r|
      ensures RegionRevenue(r[i]) >= RegionRevenue(r[j])
    {
      assert r[i].revenue == t[i].revenue && r[j].revenue == t[j].revenue;
    }
    forall i | 0 <= i < |r|
      ensures r[i].percentage == Percentage(r[i].revenue, SumOf(f, Amount))
    {
      assert r[i] == t[i].(percentage := Percentage(t[i].revenue, SumOf(f, Amount)));
    }
  }

  /** When the grand total is not positive, every percentage is 0. */
  lemma SalesByRegionZeroTotal(db: Db, range: DateRange, top: int)
    requires SumOf(FilterByDate(db.sales, range), Amount) <= 0
    ensures forall row :: row in SalesByRegion(db, range, top) ==> row.percentage == 0
  {
    var r := SalesByRegion(db, range, top);
    forall row | row in r
      ensures row.percentage == 0
    {
      var i :| 0 <= i < |r| && r[i] == row;
    }
  }

  /** With non-negative amounts every percentage lies between 0 and 100.00. */
  lemma SalesByRegionPercentageBounds(db: Db, range: DateRange, top: int)
    requires forall s :: s in db.sales ==> s.totalAmount >= 0
    ensures forall row :: row in SalesByRegion(db, range, top) ==> 0 <= row.percentage <= 10000
  {
    var f := FilterByDate(db.sales, range);
    var r := SalesByRegion(db, range, top);
    SalesByRegionTop(db, range, top);
    assert forall s :: s in f ==> s.totalAmount >= 0;
    forall row | row in r
      ensures 0 <= row.percentage <= 10000
    {
      var i :| 0 <= i < |r| && r[i] == row;
      RegionPercentageBounded(db, f, row);
    }
  }

  lemma RegionPercentageBounded(db: Db, f: seq<Sale>, row: RegionalSales)
    requires forall s :: s in f ==> s.totalAmount >= 0
    requires row.(percentage := 0) in RegionRows(db, f)
    requires row.percentage == Percentage(row.revenue, SumOf(f, Amount))
    ensures 0 <= row.percentage <= 10000
  {
    var all := RegionRows(db, f);
    var j :| 0 <= j < |all| && all[j] == row.(percentage := 0);
    var country := Countries(db, f)[j];
    RegionRevenueBounded(db, f, country);
    PercentageBounds(row.revenue, SumOf(f, Amount));
  }

  lemma RegionRevenueBounded(db: Db, f: seq<Sale>, country: string)
    requires forall s :: s in f ==> s.totalAmount >= 0
    requires Group(f, CountryKey(db), country) != []
    ensures 0 <= RegionRow(db, f, country).revenue <= SumOf(f, Amount)
  {
    GroupSumBounded(f, CountryKey(db), country, Amount);
  }

  lemma PercentageBounds(revenue: Cents, totalRevenue: Cents)
    requires 0 <= revenue <= totalRevenue
    ensures 0 <= Percentage(revenue, totalRevenue) <= 10000
  {
    if totalRevenue > 0 {
      var x := revenue as real / totalRevenue as real * 100.0 * 100.0;
      assert 0.0 <= x <= 10000.0;
      RoundHalfEvenMonotone(0.0, x);
      RoundHalfEvenMonotone(x, 10000.0);
      RoundHalfEvenOfInteger(0);
      RoundHalfEvenOfInteger(10000);
    }
  }

  /**
   * Before the cut to `top`, the country groups partition the filtered
   * sales: one row per country, revenues adding up to the filtered total.
   */
  lemma RegionRowsPartition(db: Db, range: DateRange)
    ensures var f := FilterByDate(db.sales, range);
            var rows := RegionRows(db, f);
            && (forall i, j :: 0 <= i < j < |rows| ==> rows[i].country != rows[j].country)
            && SumOf(rows, RegionRevenue) == SumOf(f, Amount)
            && SumOf(rows, RegionTransactions) == |f|
  {
    var f := FilterByDate(db.sales, range);
    var cs := Countries(db, f);
    var rows := RegionRows(db, f);
    SumOverRows(f, CountryKey(db), cs, Amount, rows, RegionRevenue);
    GroupsPartition(f, CountryKey(db), cs, Amount);
    forall i | 0 <= i < |cs|
      ensures RegionTransactions(rows[i]) == SumOf(Group(f, CountryKey(db), cs[i]), One)
    {
      SumOfOne(Group(f, CountryKey(db), cs[i]));
    }
    SumOverRows(f, CountryKey(db), cs, One, rows, RegionTransactions);
    GroupsPartition(f, CountryKey(db), cs, One);
    SumOfOne(f);
  }

  // ---------------------------------------------------------------------------
  // GET by-day-of-week

  function DayKey(s: Sale): DayOfWeek {
    DayOfWeekOf(s.invoiceDate)
  }

  /** The days of the week on which f has a sale, in order of first appearance. */
  function SaleDays(f: seq<Sale>): seq<DayOfWeek> {
    KeysOf(f, DayKey)
  }

  lemma SaleDaysMembership(f: seq<Sale>, w: DayOfWeek)
    ensures w in SaleDays(f) <==> exists s :: s in f && DayOfWeekOf(s.invoiceDate) == w
  {
    if w in SaleDays(f) {
      var s := KeyWitness(f, DayKey, w);
    }
  }

  function DayRow(f: seq<Sale>, w: DayOfWeek): DaySales
    requires Group(f, DayKey, w) != []
  {
    var g := Group(f, DayKey, w);
    DaySales(DayName(w), SumOf(g, Amount), |g|, Average(g, Amount))
  }

  /** The client-side GroupBy(DayOfWeek): one row per weekday of f, unordered. */
  function DayRows(f: seq<Sale>): (rows: seq<DaySales>)
    ensures |rows| == |SaleDays(f)|
    ensures forall i :: 0 <= i < |rows| ==>
              Group(f, DayKey, SaleDays(f)[i]) != [] && rows[i] == DayRow(f, SaleDays(f)[i])
  {
    var ws := SaleDays(f);
    assert forall i :: 0 <= i < |ws| ==> Group(f, DayKey, ws[i]) != [] by {
      forall i | 0 <= i < |ws|
        ensures Group(f, DayKey, ws[i]) != []
      {
        KeyGroupNonEmpty(f, DayKey, ws[i]);
      }
    }
    seq(|ws|, i requires 0 <= i < |ws| => DayRow(f, ws[i]))
  }

  /** FirstOrDefault(row => row.DayOfWeek == name). */
  function FirstNamed(rows: seq<DaySales>, name: string): (r: Option<DaySales>)
    ensures r.Some? ==> r.value in rows && r.value.dayOfWeek == name
    ensures r.None? <==> forall row :: row in rows ==> row.dayOfWeek != name
  {
    if rows == [] then None
    else if rows[0].dayOfWeek == name then Some(rows[0])
    else
      assert rows == [rows[0]] + rows[1..];
      FirstNamed(rows[1..], name)
  }

  /**
   * Looks each weekday of `days` up among the rows by its name, in the order
   * of `days`, and keeps only the weekdays that were found.
   */
  function PickInOrder(rows: seq<DaySales>, days: seq<DayOfWeek>): seq<DaySales> {
    if days == [] then []
    else
      var row := FirstNamed(rows, DayName(Last(days)));
      PickInOrder(rows, Init(days)) + (if row.Some? then [row.value] else [])
  }

  const MondayFirst: seq<DayOfWeek> := [Monday, Tuesday, Wednesday, Thursday, Friday, Saturday, Sunday]

  /** GET by-day-of-week: the weekday rows, Monday first, days without sales left out. */
  function GetSalesByDayOfWeek(db: Db, range: DateRange): seq<DaySales> {
    PickInOrder(DayRows(FilterByDate(db.sales, range)), MondayFirst)
  }

  /** A weekday's place in the Monday-first week. */
  function WeekdayPosition(w: DayOfWeek): int {
    match w
    case Monday => 0
    case Tuesday => 1
    case Wednesday => 2
    case Thursday => 3
    case Friday => 4
    case Saturday => 5
    case Sunday => 6
  }

  /** The fixed order lists every weekday once, Monday first. */
  lemma MondayFirstOrder()
    ensures StrictlyIncreasing(MondayFirst, WeekdayPosition)
    ensures forall w: DayOfWeek :: w in MondayFirst
  {
    forall i | 0 <= i < |MondayFirst|
      ensures WeekdayPosition(MondayFirst[i]) == i
    {
    }
    forall w: DayOfWeek
      ensures w in MondayFirst
    {
      assert MondayFirst[WeekdayPosition(w)] == w;
    }
  }

  function HasSalesOn(f: seq<Sale>): DayOfWeek -> bool {
    w => w in SaleDays(f)
  }

  /** The weekdays that have sales, in Monday-first order. */
  function PresentDays(f: seq<Sale>): seq<DayOfWeek> {
    Where(MondayFirst, HasSalesOn(f))
  }

  /** The row a weekday's lookup finds is that weekday's group, if it has one. */
  lemma FirstNamedDay(f: seq<Sale>, w: DayOfWeek)
    ensures var r := FirstNamed(DayRows(f), DayName(w));
            && (r.Some? <==> w in SaleDays(f))
            && (r.Some? ==> Group(f, DayKey, w) != [] && r.value == DayRow(f, w))
  {
    var rows, ws := DayRows(f), SaleDays(f);
    var r := FirstNamed(rows, DayName(w));
    if w in ws {
      var i :| 0 <= i < |ws| && ws[i] == w;
      assert rows[i].dayOfWeek == DayName(w);
      assert rows[i] in rows;
    }
    if r.Some? {
      var i :| 0 <= i < |rows| && rows[i] == r.value;
      assert rows[i].dayOfWeek == DayName(ws[i]);
      DayNameInjective(ws[i], w);
      assert ws[i] == w;
    }
  }

  /** Row i of `picked` is the group row of weekday i of `present`. */
  predicate RowsOfDays(f: seq<Sale>, picked: seq<DaySales>, present: seq<DayOfWeek>) {
    && |picked| == |present|
    && forall i :: 0 <= i < |present| ==>
         Group(f, DayKey, present[i]) != [] && picked[i] == DayRow(f, present[i])
  }

  lemma RowsOfDaysSnoc(f: seq<Sale>, picked: seq<DaySales>, present: seq<DayOfWeek>, w: DayOfWeek)
    requires RowsOfDays(f, picked, present)
    requires Group(f, DayKey, w) != []
    ensures RowsOfDays(f, picked + [DayRow(f, w)], present + [w])
  {
  }

  lemma {:induction false} PickInOrderIsPresentDays(f: seq<Sale>, days: seq<DayOfWeek>)
    ensures RowsOfDays(f, PickInOrder(DayRows(f), days), Where(days, HasSalesOn(f)))
  {
    if days != [] {
      var init, d := Init(days), Last(days);
      assert days == init + [d];
      PickInOrderIsPresentDays(f, init);
      WhereSnoc(init, d, HasSalesOn(f));
      FirstNamedDay(f, d);
      var rows := DayRows(f);
      var r := FirstNamed(rows, DayName(d));
      var picked, present := PickInOrder(rows, init), Where(init, HasSalesOn(f));
      if r.Some? {
        assert PickInOrder(rows, days) == picked + [DayRow(f, d)];
        assert Where(days, HasSalesOn(f)) == present + [d];
        RowsOfDaysSnoc(f, picked, present, d);
      } else {
        assert PickInOrder(rows, days) == picked;
        assert Where(days, HasSalesOn(f)) == present;
      }
    }
  }

  /** The weekdays reported are at most seven, in Monday-first order and so without repetition. */
  lemma PresentDaysOrder(f: seq<Sale>)
    ensures |PresentDays(f)| <= 7
    ensures StrictlyIncreasing(PresentDays(f), WeekdayPosition)
  {
    MondayFirstOrder();
    WhereStrictlyIncreasing(MondayFirst, HasSalesOn(f), WeekdayPosition);
  }

  /** A weekday is reported exactly when some sale falls on it. */
  lemma PresentDaysMembership(f: seq<Sale>, w: DayOfWeek)
    ensures w in PresentDays(f) <==> exists s :: s in f && DayOfWeekOf(s.invoiceDate) == w
  {
    SaleDaysMembership(f, w);
    if w in SaleDays(f) {
      assert MondayFirst[WeekdayPosition(w)] == w;
      assert HasSalesOn(f)(w);
    } else {
      assert !HasSalesOn(f)(w);
    }
  }

  /** Row i is the group of the i-th weekday with sales, named after it. */
  lemma SalesByDayOfWeekRows(db: Db, range: DateRange)
    ensures var f := FilterByDate(db.sales, range);
            var rows := GetSalesByDayOfWeek(db, range);
            var days := PresentDays(f);
            && |rows| == |days|
            && forall i :: 0 <= i < |rows| ==>
                 && rows[i].dayOfWeek == DayName(days[i])
                 && rows[i].transactionCount == |Group(f, DayKey, days[i])| >= 1
  {
    var f := FilterByDate(db.sales, range);
    var rows, days := GetSalesByDayOfWeek(db, range), PresentDays(f);
    PickInOrderIsPresentDays(f, MondayFirst);
    assert RowsOfDays(f, rows, days);
    forall i | 0 <= i < |rows|
      ensures rows[i].dayOfWeek == DayName(days[i])
      ensures rows[i].transactionCount == |Group(f, DayKey, days[i])| >= 1
    {
      assert rows[i] == DayRow(f, days[i]);
    }
  }

  /** No weekday is reported twice. */
  lemma SalesByDayOfWeekDistinct(db: Db, range: DateRange)
    ensures var rows := GetSalesByDayOfWeek(db, range);
            forall i, j :: 0 <= i < j < |rows| ==> rows[i].dayOfWeek != rows[j].dayOfWeek
  {
    var f := FilterByDate(db.sales, range);
    var rows, days := GetSalesByDayOfWeek(db, range), PresentDays(f);
    SalesByDayOfWeekRows(db, range);
    PresentDaysOrder(f);
    forall i, j | 0 <= i < j < |rows|
      ensures rows[i].dayOfWeek != rows[j].dayOfWeek
    {
      DayNameInjective(days[i], days[j]);
    }
  }

  // ---------------------------------------------------------------------------
  // GET by-hour

  function HourOf(s: Sale): int {
    s.invoiceDate.hour
  }

  function HourRank(h: int): int { h }

  /** The hours of f that have sales, ascending. */
  function SaleHours(f: seq<Sale>): (hs: seq<int>)
    ensures StrictlyIncreasing(hs, HourRank)
    ensures forall s :: s in f ==> HourOf(s) in hs
    ensures forall h :: h in hs ==> Group(f, HourOf, h) != [] && 0 <= h <= 23
  {
    var keys := KeysOf(f, HourOf);
    assert forall h :: h in keys ==> Group(f, HourOf, h) != [] && 0 <= h <= 23 by {
      forall h | h in keys
        ensures Group(f, HourOf, h) != [] && 0 <= h <= 23
      {
        var s := KeyWitness(f, HourOf, h);
        assert s in Group(f, HourOf, h);
      }
    }
    var ordered := OrderByRank(keys, HourRank);
    MembersOfPermutation(keys, ordered);
    ordered
  }

  function HourRow(f: seq<Sale>, h: int): HourlySales
    requires Group(f, HourOf, h) != []
  {
    var g := Group(f, HourOf, h);
    HourlySales(h, SumOf(g, Amount), |g|, Average(g, Amount))
  }

  function HourRevenue(r: HourlySales): int { r.revenue }

  function HourTransactions(r: HourlySales): int { r.transactionCount }

  /** GET by-hour: one row per hour of the day that has sales, ascending. */
  function GetSalesByHour(db: Db, range: DateRange): (rows: seq<HourlySales>)
    ensures var hs := SaleHours(FilterByDate(db.sales, range));
            |rows| == |hs| && forall i :: 0 <= i < |hs| ==> rows[i] == HourRow(FilterByDate(db.sales, range), hs[i])
  {
    var f := FilterByDate(db.sales, range);
    var hs := SaleHours(f);
    seq(|hs|, i requires 0 <= i < |hs| => HourRow(f, hs[i]))
  }

  /** The rows come in strictly ascending hour order, each a valid hour with a sale. */
  lemma SalesByHourOrder(db: Db, range: DateRange)
    ensures var rows := GetSalesByHour(db, range);
            && (forall i, j :: 0 <= i < j < |rows| ==> rows[i].hour < rows[j].hour)
            && (forall i :: 0 <= i < |rows| ==> 0 <= rows[i].hour <= 23 && rows[i].transactionCount >= 1)
  {
    var hs := SaleHours(FilterByDate(db.sales, range));
    var rows := GetSalesByHour(db, range);
    forall i | 0 <= i < |rows|
      ensures 0 <= rows[i].hour <= 23 && rows[i].transactionCount >= 1
    {
      assert hs[i] in hs;
    }
  }

  /** Every filtered sale's hour has a row. */
  lemma SalesByHourCoverage(db: Db, range: DateRange)
    ensures var rows := GetSalesByHour(db, range);
            forall s :: s in FilterByDate(db.sales, range) ==>
              exists i :: 0 <= i < |rows| && rows[i].hour == s.invoiceDate.hour
  {
    var f := FilterByDate(db.sales, range);
    var hs := SaleHours(f);
    var rows := GetSalesByHour(db, range);
    forall s | s in f
      ensures exists i :: 0 <= i < |rows| && rows[i].hour == s.invoiceDate.hour
    {
      var i :| 0 <= i < |hs| && hs[i] == HourOf(s);
      assert rows[i].hour == s.invoiceDate.hour;
    }
  }

  /** The hour groups partition the filtered sales. */
  lemma SalesByHourPartition(db: Db, range: DateRange)
    ensures var rows := GetSalesByHour(db, range);
            var f := FilterByDate(db.sales, range);
            && SumOf(rows, HourRevenue) == SumOf(f, Amount)
            && SumOf(rows, HourTransactions) == |f|
  {
    var f := FilterByDate(db.sales, range);
    var hs := SaleHours(f);
    var rows := GetSalesByHour(db, range);
    StrictlyIncreasingDistinct(hs, HourRank);
    SumOverRows(f, HourOf, hs, Amount, rows, HourRevenue);
    GroupsPartition(f, HourOf, hs, Amount);
    forall i | 0 <= i < |hs|
      ensures HourTransactions(rows[i]) == SumOf(Group(f, HourOf, hs[i]), One)
    {
      SumOfOne(Group(f, HourOf, hs[i]));
    }
    SumOverRows(f, HourOf, hs, One, rows, HourTransactions);
    GroupsPartition(f, HourOf, hs, One);
    SumOfOne(f);
  }

  // ---------------------------------------------------------------------------
  // GET recent

  function RecentRow(db: Db, s: Sale): RecentSale {
    RecentSale(s.invoiceNo, s.invoiceDate, ProductOf(db, s).description.GetOr("Unknown"),
               CountryOf(db, s), s.quantity, s.totalAmount)
  }

  /** The sales GET recent reports: OrderByDescending(InvoiceDate).Take(limit) over all sales. */
  function RecentSales(db: Db, limit: int): seq<Sale> {
    TopN(db.sales, InvoiceTicks, limit)
  }

  /** GET recent: the newest `limit` sales, newest first, joined with product and region. */
  function GetRecentSales(db: Db, limit: int): (rows: seq<RecentSale>)
    ensures |rows| == |RecentSales(db, limit)|
    ensures forall i :: 0 <= i < |rows| ==> rows[i] == RecentRow(db, RecentSales(db, limit)[i])
  {
    var picked := RecentSales(db, limit);
    seq(|picked|, i requires 0 <= i < |picked| => RecentRow(db, picked[i]))
  }

  /**
   * At most `limit` rows, dates never increasing, each row a sale of the
   * store, and no sale left out is newer than a sale reported.
   */
  lemma RecentSalesNewestFirst(db: Db, limit: int)
    ensures var picked := RecentSales(db, limit);
            && |picked| == Min(Max(limit, 0), |db.sales|)
            && (forall i, j :: 0 <= i < j < |picked| ==> LessOrEqual(picked[j].invoiceDate, picked[i].invoiceDate))
            && (forall s :: s in picked ==> s in db.sales)
            && (forall s, t :: s in db.sales && s !in picked && t in picked ==>
                  LessOrEqual(s.invoiceDate, t.invoiceDate))
  {
    var picked := RecentSales(db, limit);
    forall i, j | 0 <= i < j < |picked|
      ensures LessOrEqual(picked[j].invoiceDate, picked[i].invoiceDate)
    {
      InvoiceOrder(picked[j], picked[i]);
    }
    forall s | s in picked
      ensures s in db.sales
    {
      assert s in multiset(picked);
    }
    forall s, t | s in db.sales && s !in picked && t in picked
      ensures LessOrEqual(s.invoiceDate, t.invoiceDate)
    {
      InvoiceOrder(s, t);
    }
  }

  /** A product without a description is reported as "Unknown". */
  lemma RecentRowDescription(db: Db, s: Sale)
    ensures ProductOf(db, s).description.None? ==> RecentRow(db, s).productDescription == "Unknown"
    ensures ProductOf(db, s).description.Some? ==>
              RecentRow(db, s).productDescription == ProductOf(db, s).description.value
  {
  }

  // ---------------------------------------------------------------------------
  // GET comparison

  const ComparisonError := "Error retrieving comparison data"

  /**
   * The first day of the month to compare: the requested (year, month) when
   * both are given, else the month of the latest invoice date of all sales.
   */
  function AnchorMonth(db: Db, year: Option<int>, month: Option<int>): Result<DateTime> {
    if year.Some? && month.Some? then
      match FirstOfMonth(year.value, month.value)
      case Some(start) => Ok(start)
      case None => Error(ComparisonError)
    else if db.sales == [] then Error(ComparisonError)
    else
      var latest := Latest(db.sales).invoiceDate;
      Ok(FirstOfMonth(latest.year, latest.month).value)
  }

  /** A requested month is used as given; only an impossible date fails. */
  lemma AnchorOfRequestedMonth(db: Db, year: int, month: int)
    ensures var r := AnchorMonth(db, Some(year), Some(month));
            && (r.Ok? <==> MinYear <= year <= MaxYear && 1 <= month <= 12)
            && (r.Ok? ==> r.value == Midnight(year, month, 1))
  {
  }

  /**
   * Without both year and month, the anchor is the first of the month of the
   * latest sale: some sale falls in that month and none in a later one.
   */
  lemma AnchorOfLatestMonth(db: Db, year: Option<int>, month: Option<int>)
    requires year.None? || month.None?
    ensures var r := AnchorMonth(db, year, month);
            && (r.Ok? <==> db.sales != [])
            && (r.Ok? ==>
                  && r.value == Midnight(r.value.year, r.value.month, 1)
                  && (exists s :: s in db.sales && s.invoiceDate.year == r.value.year
                                                && s.invoiceDate.month == r.value.month)
                  && (forall s :: s in db.sales ==>
                        || s.invoiceDate.year < r.value.year
                        || (s.invoiceDate.year == r.value.year && s.invoiceDate.month <= r.value.month)))
  {
    if db.sales != [] {
      var last := Latest(db.sales);
      assert last in db.sales;
    }
  }

  /** The current and the previous month's windows, both ends inclusive. */
  datatype Windows = Windows(currentStart: DateTime, currentEnd: DateTime,
                             previousStart: DateTime, previousEnd: DateTime)

  /**
   * The window arithmetic: AddMonths(1).AddDays(-1), AddMonths(-1) and
   * AddDays(-1) from the anchor; None where a step leaves years 1..9999.
   */
  function WindowsOf(start: DateTime): Option<Windows> {
    var next := AddMonths(start, 1);
    var prev := AddMonths(start, -1);
    var before := PreviousDay(start);
    if next.None? || prev.None? || before.None? then None
    else
      match PreviousDay(next.value)
      case None => None
      case Some(currentEnd) => Some(Windows(start, currentEnd, prev.value, before.value))
  }

  /** The month before (y, m); January's is December of the year before. */
  function MonthBefore(y: int, m: int): MonthKey {
    if m == 1 then MonthKey(y - 1, 12) else MonthKey(y, m - 1)
  }

  /** Only December 9999 and January 0001 have no windows. */
  lemma WindowsOfMonthDefined(y: int, m: int)
    requires MinYear <= y <= MaxYear && 1 <= m <= 12
    ensures WindowsOf(Midnight(y, m, 1)).None? <==> (y == MaxYear && m == 12) || (y == MinYear && m == 1)
  {
    NextMonthFromFirst(y, m);
    PreviousMonthFromFirst(y, m);
    DayBeforeFirst(y, m);
    if m < 12 {
      DayBeforeFirst(y, m + 1);
    } else if y < MaxYear {
      DayBeforeFirst(y + 1, 1);
    }
  }

  /**
   * From the first of (y, m): the current window runs from the first to the
   * last day of the month at 00:00, the previous one likewise over the month
   * before.
   */
  lemma WindowsOfMonth(y: int, m: int)
    requires MinYear <= y <= MaxYear && 1 <= m <= 12
    requires WindowsOf(Midnight(y, m, 1)).Some?
    ensures var w := WindowsOf(Midnight(y, m, 1)).value;
            var p := MonthBefore(y, m);
            && 1 <= p.month <= 12
            && w.currentStart == Midnight(y, m, 1)
            && w.currentEnd == Midnight(y, m, DaysInMonth(y, m))
            && w.previousStart == Midnight(p.year, p.month, 1)
            && w.previousEnd == Midnight(p.year, p.month, DaysInMonth(p.year, p.month))
  {
    NextMonthFromFirst(y, m);
    PreviousMonthFromFirst(y, m);
    DayBeforeFirst(y, m);
    if m < 12 {
      DayBeforeFirst(y, m + 1);
    } else {
      DayBeforeFirst(y + 1, 1);
    }
  }

  /** The previous window ends the day before the current one starts. */
  lemma WindowsAdjacent(start: DateTime)
    requires WindowsOf(start).Some?
    ensures var w := WindowsOf(start).value;
            Ticks(w.previousEnd) == Ticks(w.currentStart) - TicksPerDay
  {
    PreviousDayIsOneDayEarlier(start);
  }

  /** The sales of one inclusive window. */
  function InWindow(sales: seq<Sale>, start: DateTime, end: DateTime): seq<Sale> {
    FilterByDate(sales, DateRange(Some(start), Some(end)))
  }

  /**
   * A sale later than 00:00 on the last day of the compared month is in
   * neither window.
   */
  lemma LastDayGap(y: int, m: int, s: Sale)
    requires MinYear <= y <= MaxYear && 1 <= m <= 12
    requires WindowsOf(Midnight(y, m, 1)).Some?
    requires s.invoiceDate.year == y && s.invoiceDate.month == m
    requires s.invoiceDate.day == DaysInMonth(y, m) && s.invoiceDate != Midnight(y, m, DaysInMonth(y, m))
    ensures var w := WindowsOf(Midnight(y, m, 1)).value;
            && !InRange(s.invoiceDate, DateRange(Some(w.currentStart), Some(w.currentEnd)))
            && !InRange(s.invoiceDate, DateRange(Some(w.previousStart), Some(w.previousEnd)))
  {
    WindowsOfMonth(y, m);
    var p := MonthBefore(y, m);
    MonthWindowMembers(y, m, s.invoiceDate);
    MonthWindowMembers(p.year, p.month, s.invoiceDate);
  }

  /** The figures of the sales q reported for [start, end]; AverageAsync throws on none. */
  function PeriodOf(q: seq<Sale>, start: DateTime, end: DateTime): (r: Result<PeriodData>)
    ensures r.Ok? ==> r.value.averageOrderValue.den > 0
  {
    if q == [] then Error(ComparisonError)
    else Ok(PeriodData(SumOf(q, Amount), |q|, Average(q, Amount), DistinctCount(q, CustomerId), start, end))
  }

  /**
   * Defined exactly when there is a sale: the count of the sales, their
   * revenue, and their number of distinct customers.
   */
  lemma PeriodFigures(q: seq<Sale>, start: DateTime, end: DateTime)
    ensures var r := PeriodOf(q, start, end);
            && (r.Ok? <==> q != [])
            && (r.Ok? ==>
                  && r.value.transactionCount == |q|
                  && r.value.revenue == SumOf(q, Amount)
                  && r.value.averageOrderValue == Ratio(r.value.revenue, r.value.transactionCount)
                  && r.value.uniqueCustomers == |set s | s in q :: s.customerId|
                  && 1 <= r.value.uniqueCustomers <= r.value.transactionCount
                  && r.value.startDate == start && r.value.endDate == end)
  {
    DistinctCustomerIds(q);
  }

  /** GetPeriodData: the figures of the sales in the inclusive window [start, end]. */
  function GetPeriodData(sales: seq<Sale>, start: DateTime, end: DateTime): Result<PeriodData> {
    PeriodOf(InWindow(sales, start, end), start, end)
  }

  /**
   * CalculateGrowth(decimal, decimal): the change relative to the old value,
   * in hundredths of a percent rounded half to even; 0 when the old value is 0.
   */
  function Growth(oldValue: real, newValue: real): (g: int)
    ensures oldValue == 0.0 ==> g == 0
    ensures oldValue != 0.0 ==>
              var exact := (newValue - oldValue) / oldValue * 10000.0;
              && exact - 0.5 <= g as real <= exact + 0.5
              && ((g as real == exact - 0.5 || g as real == exact + 0.5) ==> g % 2 == 0)
  {
    if oldValue == 0.0 then 0 else Round2((newValue - oldValue) / oldValue * 100.0)
  }

  /** CalculateGrowth(int, int) converts and agrees with the decimal overload. */
  function GrowthOfCounts(oldValue: int, newValue: int): (g: int)
    ensures g == Growth(oldValue as real, newValue as real)
  {
    if oldValue == 0 then 0 else Round2((newValue - oldValue) as real / oldValue as real * 100.0)
  }

  /** Growth has the sign of the change when the old value is positive. */
  lemma GrowthSign(oldValue: real, newValue: real)
    requires oldValue > 0.0
    ensures newValue >= oldValue ==> Growth(oldValue, newValue) >= 0
    ensures newValue <= oldValue ==> Growth(oldValue, newValue) <= 0
  {
    var x := (newValue - oldValue) / oldValue * 100.0 * 100.0;
    RoundHalfEvenOfInteger(0);
    if newValue >= oldValue {
      assert x >= 0.0;
      RoundHalfEvenMonotone(0.0, x);
    }
    if newValue <= oldValue {
      assert x <= 0.0;
      RoundHalfEvenMonotone(x, 0.0);
    }
  }

  lemma GrowthExamples()
    ensures Growth(100.0, 150.0) == 5000
    ensures Growth(100.0, 50.0) == -5000
    ensures Growth(0.0, 250.0) == 0
    ensures GrowthOfCounts(4, 5) == 2500
  {
    RoundHalfEvenOfInteger(5000);
    RoundHalfEvenOfInteger(-5000);
    RoundHalfEvenOfInteger(2500);
  }

  /** "up", "down" or "neutral" by the revenue of the two months. */
  function Trend(currentRevenue: Cents, previousRevenue: Cents): string {
    if currentRevenue > previousRevenue then "up"
    else if currentRevenue < previousRevenue then "down"
    else "neutral"
  }

  lemma TrendCases(currentRevenue: Cents, previousRevenue: Cents)
    ensures Trend(currentRevenue, previousRevenue) == "up" <==> currentRevenue > previousRevenue
    ensures Trend(currentRevenue, previousRevenue) == "down" <==> currentRevenue < previousRevenue
    ensures Trend(currentRevenue, previousRevenue) == "neutral" <==> currentRevenue == previousRevenue
  {
  }

  function GrowthOf(current: PeriodData, previous: PeriodData): GrowthMetrics
    requires current.averageOrderValue.den != 0 && previous.averageOrderValue.den != 0
  {
    GrowthMetrics(
      revenueGrowth := Growth(previous.revenue as real, current.revenue as real),
      transactionGrowth := GrowthOfCounts(previous.transactionCount, current.transactionCount),
      averageOrderGrowth := Growth(previous.averageOrderValue.Value(), current.averageOrderValue.Value()),
      customerGrowth := GrowthOfCounts(previous.uniqueCustomers, current.uniqueCustomers),
      trend := Trend(current.revenue, previous.revenue))
  }

  /** GET comparison: the two months' figures and the growth between them. */
  function GetComparison(db: Db, year: Option<int>, month: Option<int>): Result<SalesComparison> {
    var anchor := AnchorMonth(db, year, month);
    if anchor.Error? then Error(anchor.message)
    else
      match WindowsOf(anchor.value)
      case None => Error(ComparisonError)
      case Some(w) =>
        var current := GetPeriodData(db.sales, w.currentStart, w.currentEnd);
        var previous := GetPeriodData(db.sales, w.previousStart, w.previousEnd);
        if current.Error? || previous.Error? then Error(ComparisonError)
        else Ok(SalesComparison(current.value, previous.value, GrowthOf(current.value, previous.value)))
  }

  /**
   * The comparison succeeds exactly when the anchor month exists, its windows
   * exist and both hold a sale.
   */
  lemma ComparisonOutcome(db: Db, year: Option<int>, month: Option<int>)
    ensures var anchor := AnchorMonth(db, year, month);
            GetComparison(db, year, month).Ok? <==>
              && anchor.Ok? && WindowsOf(anchor.value).Some?
              && InWindow(db.sales, WindowsOf(anchor.value).value.currentStart,
                          WindowsOf(anchor.value).value.currentEnd) != []
              && InWindow(db.sales, WindowsOf(anchor.value).value.previousStart,
                          WindowsOf(anchor.value).value.previousEnd) != []
  {
  }

  /** A successful comparison reports the two windows' figures and the revenue trend. */
  lemma ComparisonFigures(db: Db, year: Option<int>, month: Option<int>)
    requires GetComparison(db, year, month).Ok?
    ensures var r := GetComparison(db, year, month).value;
            var w := WindowsOf(AnchorMonth(db, year, month).value).value;
            && r.currentPeriod == GetPeriodData(db.sales, w.currentStart, w.currentEnd).value
            && r.previousPeriod == GetPeriodData(db.sales, w.previousStart, w.previousEnd).value
            && r.growth.revenueGrowth == Growth(r.previousPeriod.revenue as real, r.currentPeriod.revenue as real)
            && r.growth.transactionGrowth == Growth(r.previousPeriod.transactionCount as real, r.currentPeriod.transactionCount as real)
            && r.growth.averageOrderGrowth == Growth(r.previousPeriod.averageOrderValue.Value(), r.currentPeriod.averageOrderValue.Value())
            && r.growth.customerGrowth == Growth(r.previousPeriod.uniqueCustomers as real, r.currentPeriod.uniqueCustomers as real)
            && (r.previousPeriod.revenue == 0 ==> r.growth.revenueGrowth == 0)
            && r.growth.trend == Trend(r.currentPeriod.revenue, r.previousPeriod.revenue)
  {
  }

  // ---------------------------------------------------------------------------
  // The windows against whole calendar months

  /** Dated in calendar month (y, m). */
  function InMonth(y: int, m: int): Sale -> bool {
    (s: Sale) => s.invoiceDate.year == y && s.invoiceDate.month == m
  }

  /** Not later than 00:00 on the last day of month (y, m). */
  function NotLateOnLastDay(y: int, m: int): Sale -> bool
    requires 1 <= m <= 12
  {
    (s: Sale) => s.invoiceDate.day < DaysInMonth(y, m) || s.invoiceDate == Midnight(y, m, DaysInMonth(y, m))
  }

  /** The sales dated in month (y, m), in storage order. */
  function MonthSales(sales: seq<Sale>, y: int, m: int): seq<Sale> {
    Where(sales, InMonth(y, m))
  }

  /**
   * As written, the window of a month is the month's sales minus those
   * later than 00:00 on its last day.
   */
  lemma MonthWindowAsWritten(sales: seq<Sale>, y: int, m: int)
    requires MinYear <= y <= MaxYear && 1 <= m <= 12
    ensures InWindow(sales, Midnight(y, m, 1), Midnight(y, m, DaysInMonth(y, m)))
            == Where(MonthSales(sales, y, m), NotLateOnLastDay(y, m))
  {
    var range := DateRange(Some(Midnight(y, m, 1)), Some(Midnight(y, m, DaysInMonth(y, m))));
    forall s: Sale
      ensures InRangeOf(range)(s) == (InMonth(y, m)(s) && NotLateOnLastDay(y, m)(s))
    {
      MonthWindowMembers(y, m, s.invoiceDate);
    }
    WhereWhere(sales, InMonth(y, m), NotLateOnLastDay(y, m), InRangeOf(range));
  }

  /**
   * The window never holds more than the month, and it holds the whole month
   * exactly when no sale of the month is later than 00:00 on its last day.
   */
  lemma WindowAgainstWholeMonth(sales: seq<Sale>, y: int, m: int)
    requires MinYear <= y <= MaxYear && 1 <= m <= 12
    ensures var window := InWindow(sales, Midnight(y, m, 1), Midnight(y, m, DaysInMonth(y, m)));
            var month := MonthSales(sales, y, m);
            && |window| <= |month|
            && (window == month <==> forall s :: s in month ==> NotLateOnLastDay(y, m)(s))
  {
    MonthWindowAsWritten(sales, y, m);
    var month := MonthSales(sales, y, m);
    if forall s :: s in month ==> NotLateOnLastDay(y, m)(s) {
      WhereAll(month, NotLateOnLastDay(y, m));
    }
  }

  /**
   * The comparison as intended, over whole calendar months: the same anchor
   * and reported dates, but each period counts every sale dated in its month.
   */
  function GetComparisonWholeMonths(db: Db, year: Option<int>, month: Option<int>): Result<SalesComparison> {
    var anchor := AnchorMonth(db, year, month);
    if anchor.Error? then Error(anchor.message)
    else
      match WindowsOf(anchor.value)
      case None => Error(ComparisonError)
      case Some(w) =>
        var a, p := anchor.value, MonthBefore(anchor.value.year, anchor.value.month);
        var current := PeriodOf(MonthSales(db.sales, a.year, a.month), w.currentStart, w.currentEnd);
        var previous := PeriodOf(MonthSales(db.sales, p.year, p.month), w.previousStart, w.previousEnd);
        if current.Error? || previous.Error? then Error(ComparisonError)
        else Ok(SalesComparison(current.value, previous.value, GrowthOf(current.value, previous.value)))
  }

  /** The corrected comparison succeeds exactly when both calendar months have a sale. */
  lemma WholeMonthsOutcome(db: Db, year: Option<int>, month: Option<int>)
    ensures var anchor := AnchorMonth(db, year, month);
            GetComparisonWholeMonths(db, year, month).Ok? <==>
              && anchor.Ok? && WindowsOf(anchor.value).Some?
              && MonthSales(db.sales, anchor.value.year, anchor.value.month) != []
              && MonthSales(db.sales, MonthBefore(anchor.value.year, anchor.value.month).year,
                            MonthBefore(anchor.value.year, anchor.value.month).month) != []
  {
  }

  /** A successful corrected comparison counts and sums every sale of each month. */
  lemma WholeMonthsFigures(db: Db, year: Option<int>, month: Option<int>)
    requires GetComparisonWholeMonths(db, year, month).Ok?
    ensures var r := GetComparisonWholeMonths(db, year, month).value;
            var a := AnchorMonth(db, year, month).value;
            var p := MonthBefore(a.year, a.month);
            && r.currentPeriod.transactionCount == |MonthSales(db.sales, a.year, a.month)|
            && r.currentPeriod.revenue == SumOf(MonthSales(db.sales, a.year, a.month), Amount)
            && r.previousPeriod.transactionCount == |MonthSales(db.sales, p.year, p.month)|
            && r.previousPeriod.revenue == SumOf(MonthSales(db.sales, p.year, p.month), Amount)
  {
    var a := AnchorMonth(db, year, month).value;
    var w := WindowsOf(a).value;
    var p := MonthBefore(a.year, a.month);
    PeriodFigures(MonthSales(db.sales, a.year, a.month), w.currentStart, w.currentEnd);
    PeriodFigures(MonthSales(db.sales, p.year, p.month), w.previousStart, w.previousEnd);
  }

  /**
   * For a requested month that has windows, the as-written comparison
   * succeeds exactly when both inclusive windows hold a sale.
   */
  lemma RequestedMonthAsWritten(db: Db, y: int, m: int)
    requires MinYear <= y <= MaxYear && 1 <= m <= 12
    requires !(y == MaxYear && m == 12) && !(y == MinYear && m == 1)
    ensures var p := MonthBefore(y, m);
            GetComparison(db, Some(y), Some(m)).Ok? <==>
              && InWindow(db.sales, Midnight(y, m, 1), Midnight(y, m, DaysInMonth(y, m))) != []
              && InWindow(db.sales, Midnight(p.year, p.month, 1), Midnight(p.year, p.month, DaysInMonth(p.year, p.month))) != []
  {
    AnchorOfRequestedMonth(db, y, m);
    WindowsOfMonthDefined(y, m);
    WindowsOfMonth(y, m);
    ComparisonOutcome(db, Some(y), Some(m));
  }

  /**
   * For a requested month that has windows, the corrected comparison
   * succeeds exactly when both calendar months have a sale.
   */
  lemma RequestedMonthWhole(db: Db, y: int, m: int)
    requires MinYear <= y <= MaxYear && 1 <= m <= 12
    requires !(y == MaxYear && m == 12) && !(y == MinYear && m == 1)
    ensures var p := MonthBefore(y, m);
            var r := GetComparisonWholeMonths(db, Some(y), Some(m));
            && (r.Ok? <==> MonthSales(db.sales, y, m) != [] && MonthSales(db.sales, p.year, p.month) != [])
            && (r.Ok? ==> && r.value.currentPeriod.transactionCount == |MonthSales(db.sales, y, m)|
                          && r.value.previousPeriod.transactionCount == |MonthSales(db.sales, p.year, p.month)|)
  {
    AnchorOfRequestedMonth(db, y, m);
    WindowsOfMonthDefined(y, m);
    WholeMonthsOutcome(db, Some(y), Some(m));
    if GetComparisonWholeMonths(db, Some(y), Some(m)).Ok? {
      WholeMonthsFigures(db, Some(y), Some(m));
    }
  }

  /** Two sales: 15 October 2011 at 12:00 and 30 November 2011 at 14:00. */
  function LateSaleDb(): Db {
    var october := Sale(1, "536365", 1, 1, 1, 1, 100, 100, Timestamp(2011, 10, 15, 12, 0, 0, 0));
    var november := Sale(2, "536366", 1, 1, 1, 1, 100, 100, Timestamp(2011, 11, 30, 14, 0, 0, 0));
    Db([october, november], map[], map[], map[])
  }

  lemma LateSaleMonths(sales: seq<Sale>)
    requires sales == LateSaleDb().sales
    ensures MonthSales(sales, 2011, 11) == [sales[1]]
    ensures MonthSales(sales, 2011, 10) == [sales[0]]
  {
    assert sales == [sales[0]] + [sales[1]];
    WhereSnoc([sales[0]], sales[1], InMonth(2011, 11));
    WhereSnoc([sales[0]], sales[1], InMonth(2011, 10));
  }

  /**
   * Comparing November 2011 in that store as written: the November window
   * misses the only November sale, so the comparison fails.
   */
  lemma LateSaleMissed()
    ensures InWindow(LateSaleDb().sales, Midnight(2011, 11, 1), Midnight(2011, 11, 30)) == []
    ensures GetComparison(LateSaleDb(), Some(2011), Some(11)).Error?
  {
    var sales := LateSaleDb().sales;
    LateSaleMonths(sales);
    MonthWindowAsWritten(sales, 2011, 11);
    WhereSnoc([], sales[1], NotLateOnLastDay(2011, 11));
    RequestedMonthAsWritten(LateSaleDb(), 2011, 11);
  }

  /** Over whole months the same comparison succeeds, with one sale in each month. */
  lemma LateSaleCounted()
    ensures var r := GetComparisonWholeMonths(LateSaleDb(), Some(2011), Some(11));
            r.Ok? && r.value.currentPeriod.transactionCount == 1 && r.value.previousPeriod.transactionCount == 1
  {
    LateSaleMonths(LateSaleDb().sales);
    RequestedMonthWhole(LateSaleDb(), 2011, 11);
  }
}
