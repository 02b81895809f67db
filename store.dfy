/**
 * The four tables the API reads (Sales, Products, Customers, Regions) as
 * in-memory values, the navigation properties the controllers follow, and
 * the inclusive, optionally open date filter every endpoint starts with.
 */
module Store {
  import opened Wrappers
  import opened Numbers
  import opened Calendar
  import opened Aggregation

  /** A row of Sales. CreatedAt is never read by the API and is left out. */
  datatype Sale = Sale(
    saleId: int,
    invoiceNo: string,
    productId: int,
    customerId: int,
    regionId: int,
    quantity: int,
    unitPrice: Cents,
    totalAmount: Cents,
    invoiceDate: DateTime)

  datatype Product = Product(stockCode: string, description: Option<string>)

  datatype Customer = Customer(customerCode: string)

  datatype Region = Region(country: string)

  /** The database: the Sales table in its storage order, the others by primary key. */
  datatype Db = Db(
    sales: seq<Sale>,
    products: map<int, Product>,
    customers: map<int, Customer>,
    regions: map<int, Region>)

  /** Every foreign key of a sale names an existing row (enforced by the store). */
  predicate ReferencesResolve(db: Db) {
    forall s :: s in db.sales ==>
      s.productId in db.products && s.customerId in db.customers && s.regionId in db.regions
  }

  /** The unique indexes on StockCode, CustomerCode and Country. */
  predicate UniqueIndexes(db: Db) {
    && (forall i, j | i in db.products && j in db.products ::
          db.products[i].stockCode == db.products[j].stockCode ==> i == j)
    && (forall i, j | i in db.customers && j in db.customers ::
          db.customers[i].customerCode == db.customers[j].customerCode ==> i == j)
    && (forall i, j | i in db.regions && j in db.regions ::
          db.regions[i].country == db.regions[j].country ==> i == j)
  }

  // Navigation properties. The fallback values are never reached when
  // ReferencesResolve holds; they only keep the functions total.

  function ProductOf(db: Db, s: Sale): Product {
    if s.productId in db.products then db.products[s.productId] else Product("", None)
  }

  function CustomerCodeOf(db: Db, s: Sale): string {
    if s.customerId in db.customers then db.customers[s.customerId].customerCode else ""
  }

  function CountryOf(db: Db, s: Sale): string {
    if s.regionId in db.regions then db.regions[s.regionId].country else ""
  }

  // Column selectors, usable as function values.

  function Amount(s: Sale): Cents { s.totalAmount }

  function Quantity(s: Sale): int { s.quantity }

  function CustomerId(s: Sale): int { s.customerId }

  function ProductId(s: Sale): int { s.productId }

  function InvoiceTicks(s: Sale): int { Ticks(s.invoiceDate) }

  /** Select(CustomerId).Distinct().Count() is the number of distinct customer ids. */
  lemma DistinctCustomerIds(sales: seq<Sale>)
    ensures DistinctCount(sales, CustomerId) == |set s | s in sales :: s.customerId|
  {
    DistinctCountIsImageSize(sales, CustomerId);
    assert Image(sales, CustomerId) == (set s | s in sales :: s.customerId);
  }

  /** Select(ProductId).Distinct().Count() is the number of distinct product ids. */
  lemma DistinctProductIds(sales: seq<Sale>)
    ensures DistinctCount(sales, ProductId) == |set s | s in sales :: s.productId|
  {
    DistinctCountIsImageSize(sales, ProductId);
    assert Image(sales, ProductId) == (set s | s in sales :: s.productId);
  }

  lemma InvoiceOrder(s: Sale, t: Sale)
    ensures LessOrEqual(s.invoiceDate, t.invoiceDate) <==> InvoiceTicks(s) <= InvoiceTicks(t)
  {
    LessOrEqualIsTicksOrder(s.invoiceDate, t.invoiceDate);
  }

  /** The sale MinAsync(InvoiceDate) reads its date from: none is earlier. */
  function Earliest(sales: seq<Sale>): (first: Sale)
    requires sales != []
    ensures first in sales
    ensures forall s :: s in sales ==> LessOrEqual(first.invoiceDate, s.invoiceDate)
  {
    var first := MinBy(sales, InvoiceTicks);
    assert forall s :: s in sales ==> LessOrEqual(first.invoiceDate, s.invoiceDate) by {
      forall s | s in sales
        ensures LessOrEqual(first.invoiceDate, s.invoiceDate)
      {
        InvoiceOrder(first, s);
      }
    }
    first
  }

  /** The sale MaxAsync(InvoiceDate) reads its date from: none is later. */
  function Latest(sales: seq<Sale>): (last: Sale)
    requires sales != []
    ensures last in sales
    ensures forall s :: s in sales ==> LessOrEqual(s.invoiceDate, last.invoiceDate)
  {
    var last := MaxBy(sales, InvoiceTicks);
    assert forall s :: s in sales ==> LessOrEqual(s.invoiceDate, last.invoiceDate) by {
      forall s | s in sales
        ensures LessOrEqual(s.invoiceDate, last.invoiceDate)
      {
        InvoiceOrder(s, last);
      }
    }
    last
  }

  // ---------------------------------------------------------------------------
  // The date filter

  /** The optional startDate / endDate query parameters. */
  datatype DateRange = DateRange(startDate: Option<DateTime>, endDate: Option<DateTime>)

  /** startDate <= d <= endDate, where an absent bound imposes nothing. */
  predicate InRange(d: DateTime, range: DateRange) {
    && (range.startDate.Some? ==> LessOrEqual(range.startDate.value, d))
    && (range.endDate.Some? ==> LessOrEqual(d, range.endDate.value))
  }

  function InRangeOf(range: DateRange): Sale -> bool {
    (s: Sale) => InRange(s.invoiceDate, range)
  }

  function OnOrAfter(start: DateTime): Sale -> bool {
    (s: Sale) => LessOrEqual(start, s.invoiceDate)
  }

  function OnOrBefore(end: DateTime): Sale -> bool {
    (s: Sale) => LessOrEqual(s.invoiceDate, end)
  }

  /** The sales whose invoice date lies in the range, in storage order. */
  function FilterByDate(sales: seq<Sale>, range: DateRange): seq<Sale> {
    Where(sales, InRangeOf(range))
  }

  /**
   * The query every endpoint builds, step by step: start from all sales,
   * then add a Where for each bound that is present. It is the single Where
   * by the inclusive range.
   */
  lemma FilterByDateIsOneWhere(sales: seq<Sale>, range: DateRange)
    ensures var q0 := if range.startDate.Some? then Where(sales, OnOrAfter(range.startDate.value)) else sales;
            var q1 := if range.endDate.Some? then Where(q0, OnOrBefore(range.endDate.value)) else q0;
            q1 == FilterByDate(sales, range)
  {
    match (range.startDate, range.endDate)
    case (Some(a), Some(b)) =>
      WhereWhere(sales, OnOrAfter(a), OnOrBefore(b), InRangeOf(range));
    case (Some(a), None) =>
      WhereSame(sales, OnOrAfter(a), InRangeOf(range));
    case (None, Some(b)) =>
      WhereSame(sales, OnOrBefore(b), InRangeOf(range));
    case (None, None) =>
      WhereAll(sales, InRangeOf(range));
  }

  /** The filtered set keeps exactly the sales whose date lies in the range. */
  lemma FilterByDateMembership(sales: seq<Sale>, range: DateRange, s: Sale)
    ensures s in FilterByDate(sales, range) <==> s in sales && InRange(s.invoiceDate, range)
  {
  }

  /** With neither bound given, nothing is filtered out. */
  lemma UnboundedFilterKeepsAll(sales: seq<Sale>)
    ensures FilterByDate(sales, DateRange(None, None)) == sales
  {
    WhereAll(sales, InRangeOf(DateRange(None, None)));
  }
}
