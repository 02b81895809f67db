/**
 * The /api/customers endpoints: the customers ranked by revenue, the
 * customer analytics summary and the size of the Customers table.
 */
module CustomerController {
  import opened Numbers
  import opened Calendar
  import opened Aggregation
  import opened Store
  import opened Dtos

  function CustomerKey(db: Db): Sale -> string {
    (s: Sale) => CustomerCodeOf(db, s)
  }

  /** The customer codes of f, in order of first appearance. */
  function CustomerCodes(db: Db, f: seq<Sale>): (cs: seq<string>)
    ensures Distinct(cs)
    ensures forall s :: s in f ==> CustomerCodeOf(db, s) in cs
    ensures forall c :: c in cs ==> Group(f, CustomerKey(db), c) != []
  {
    var cs := KeysOf(f, CustomerKey(db));
    assert forall c :: c in cs ==> Group(f, CustomerKey(db), c) != [] by {
      forall c | c in cs
        ensures Group(f, CustomerKey(db), c) != []
      {
        KeyGroupNonEmpty(f, CustomerKey(db), c);
      }
    }
    cs
  }

  /** One customer's row: revenue, order count, average and first and last purchase. */
  function CustomerRow(db: Db, f: seq<Sale>, code: string): TopCustomer
    requires Group(f, CustomerKey(db), code) != []
  {
    var g := Group(f, CustomerKey(db), code);
    TopCustomer(code, SumOf(g, Amount), |g|, Average(g, Amount),
                Earliest(g).invoiceDate, Latest(g).invoiceDate)
  }

  /** Every customer group of f, before ordering and Take. */
  function CustomerRows(db: Db, f: seq<Sale>): (rows: seq<TopCustomer>)
    ensures |rows| == |CustomerCodes(db, f)|
    ensures forall i :: 0 <= i < |rows| ==> rows[i] == CustomerRow(db, f, CustomerCodes(db, f)[i])
  {
    var cs := CustomerCodes(db, f);
    seq(|cs|, i requires 0 <= i < |cs| => CustomerRow(db, f, cs[i]))
  }

  function TotalRevenue(c: TopCustomer): int { c.totalRevenue }

  function OrderCount(c: TopCustomer): int { c.orderCount }

  /** GET top: the customer groups by revenue descending, cut to `top`. */
  function GetTopCustomers(db: Db, top: int, range: DateRange): seq<TopCustomer> {
    TopN(CustomerRows(db, FilterByDate(db.sales, range)), TotalRevenue, top)
  }

  /**
   * At most `top` rows, revenue non-increasing, each a customer group of the
   * filtered sales, and no customer left out has more revenue than one kept.
   */
  lemma TopCustomersRanked(db: Db, top: int, range: DateRange)
    ensures var rows := CustomerRows(db, FilterByDate(db.sales, range));
            var r := GetTopCustomers(db, top, range);
            && |r| == Min(Max(top, 0), |rows|)
            && NonIncreasing(r, TotalRevenue)
            && (forall c :: c in r ==> c in rows)
            && (forall c, d :: c in rows && c !in r && d in r ==> TotalRevenue(c) <= TotalRevenue(d))
  {
    TopNMembers(CustomerRows(db, FilterByDate(db.sales, range)), TotalRevenue, top);
  }

  /**
   * A customer's row: at least one order, first purchase no later than the
   * last, revenue the sum of that customer's filtered sales, and the two
   * dates the earliest and latest of those sales.
   */
  lemma CustomerRowFacts(db: Db, f: seq<Sale>, code: string)
    requires Group(f, CustomerKey(db), code) != []
    ensures var row := CustomerRow(db, f, code);
            var g := Group(f, CustomerKey(db), code);
            && row.customerCode == code
            && row.orderCount == |g| >= 1
            && row.totalRevenue == SumOf(g, Amount)
            && LessOrEqual(row.firstPurchase, row.lastPurchase)
            && (forall s :: s in g ==> LessOrEqual(row.firstPurchase, s.invoiceDate))
            && (forall s :: s in g ==> LessOrEqual(s.invoiceDate, row.lastPurchase))
            && (forall s :: s in f ==> (s in g <==> CustomerCodeOf(db, s) == code))
  {
    var g := Group(f, CustomerKey(db), code);
    var last := Latest(g);
    assert last in g;
  }

  /**
   * Before the cut to `top`, the customer groups partition the filtered
   * sales: distinct codes, revenues adding up to the filtered total and
   * order counts to the number of filtered sales.
   */
  lemma CustomerRowsPartition(db: Db, range: DateRange)
    ensures var f := FilterByDate(db.sales, range);
            var rows := CustomerRows(db, f);
            && (forall i, j :: 0 <= i < j < |rows| ==> rows[i].customerCode != rows[j].customerCode)
            && SumOf(rows, TotalRevenue) == SumOf(f, Amount)
            && SumOf(rows, OrderCount) == |f|
  {
    var f := FilterByDate(db.sales, range);
    var cs := CustomerCodes(db, f);
    var rows := CustomerRows(db, f);
    SumOverRows(f, CustomerKey(db), cs, Amount, rows, TotalRevenue);
    GroupsPartition(f, CustomerKey(db), cs, Amount);
    forall i | 0 <= i < |cs|
      ensures OrderCount(rows[i]) == SumOf(Group(f, CustomerKey(db), cs[i]), One)
    {
      SumOfOne(Group(f, CustomerKey(db), cs[i]));
    }
    SumOverRows(f, CustomerKey(db), cs, One, rows, OrderCount);
    GroupsPartition(f, CustomerKey(db), cs, One);
    SumOfOne(f);
  }

  /** GET analytics: distinct customers, the two zero-guarded averages, and the top 10. */
  function GetCustomerAnalytics(db: Db, range: DateRange): CustomerAnalytics {
    var f := FilterByDate(db.sales, range);
    var totalCustomers := DistinctCount(f, CustomerId);
    var totalRevenue := SumOf(f, Amount);
    var totalOrders := |f|;
    CustomerAnalytics(
      totalCustomers := totalCustomers,
      averageCustomerValue := if totalCustomers > 0 then Ratio(totalRevenue, totalCustomers) else Ratio(0, 1),
      averageOrdersPerCustomer := if totalCustomers > 0 then Ratio(totalOrders, totalCustomers) else Ratio(0, 1),
      topCustomers := GetTopCustomers(db, 10, range))
  }

  /**
   * TotalCustomers counts the distinct customer ids of the filtered sales;
   * the averages are revenue and orders per customer, and both are 0 when
   * no sale is left.
   */
  lemma CustomerAnalyticsAverages(db: Db, range: DateRange)
    ensures var f := FilterByDate(db.sales, range);
            var a := GetCustomerAnalytics(db, range);
            && a.totalCustomers == |set s | s in f :: s.customerId|
            && (a.totalCustomers == 0 <==> f == [])
            && (a.totalCustomers > 0 ==>
                  && a.averageCustomerValue == Ratio(SumOf(f, Amount), a.totalCustomers)
                  && a.averageOrdersPerCustomer == Ratio(|f|, a.totalCustomers))
            && (a.totalCustomers == 0 ==>
                  a.averageCustomerValue.num == 0 && a.averageOrdersPerCustomer.num == 0)
  {
    DistinctCustomerIds(FilterByDate(db.sales, range));
  }

  /** The analytics list is the top-10 list, whatever the range. */
  lemma CustomerAnalyticsTopTen(db: Db, range: DateRange)
    ensures var a := GetCustomerAnalytics(db, range);
            && a.topCustomers == GetTopCustomers(db, 10, range)
            && |a.topCustomers| <= 10
  {
  }

  /**
   * With resolved references and unique customer codes, grouping by code
   * and counting distinct ids agree: one row per customer.
   */
  lemma OneRowPerCustomer(db: Db, range: DateRange)
    requires ReferencesResolve(db) && UniqueIndexes(db)
    ensures |CustomerRows(db, FilterByDate(db.sales, range))| == GetCustomerAnalytics(db, range).totalCustomers
  {
    var f := FilterByDate(db.sales, range);
    DistinctCustomerIds(f);
    DistinctCountIsImageSize(f, CustomerKey(db));
    CodesOfIds(db, f);
  }

  /** The codes of f's customers are as many as their ids. */
  lemma CodesOfIds(db: Db, f: seq<Sale>)
    requires ReferencesResolve(db) && UniqueIndexes(db)
    requires forall s :: s in f ==> s in db.sales
    ensures |Image(f, CustomerKey(db))| == |set s | s in f :: s.customerId|
  {
    var ids := set s | s in f :: s.customerId;
    var codeOf := (id: int) => if id in db.customers then db.customers[id].customerCode else "";
    var codes := set id | id in ids :: codeOf(id);
    forall c | c in Image(f, CustomerKey(db))
      ensures c in codes
    {
      var s :| s in f && CustomerKey(db)(s) == c;
      assert s.customerId in ids;
    }
    forall c | c in codes
      ensures c in Image(f, CustomerKey(db))
    {
      var id :| id in ids && codeOf(id) == c;
      var s :| s in f && s.customerId == id;
      assert CustomerKey(db)(s) == c;
    }
    assert Image(f, CustomerKey(db)) == codes;
    forall i, j | i in ids && j in ids && codeOf(i) == codeOf(j)
      ensures i == j
    {
      var si :| si in f && si.customerId == i;
      var sj :| sj in f && sj.customerId == j;
      assert si in db.sales && sj in db.sales;
    }
    InjectiveImageCardinality(ids, codeOf);
    assert MapSet(ids, codeOf) == codes;
  }

  /** GET count: the size of the Customers table, sales or not. */
  function GetCustomerCount(db: Db): nat {
    |db.customers|
  }

  /** Every customer who bought is in the table, so the count bounds any distinct-customer figure. */
  lemma CustomerCountBounds(db: Db, range: DateRange)
    requires ReferencesResolve(db)
    ensures GetCustomerAnalytics(db, range).totalCustomers <= GetCustomerCount(db)
  {
    var f := FilterByDate(db.sales, range);
    DistinctCustomerIds(f);
    SubsetCardinality(set s | s in f :: s.customerId, db.customers.Keys);
  }
}
