/**
 * The /api/products endpoints: the products ranked by revenue and the size
 * of the Products table.
 */
module ProductsController {
  import opened Wrappers
  import opened Numbers
  import opened Aggregation
  import opened Store
  import opened Dtos

  /** The anonymous GroupBy key: the product's stock code and description. */
  datatype ProductKey = ProductKey(stockCode: string, description: Option<string>)

  function ProductKeyOf(db: Db): Sale -> ProductKey {
    (s: Sale) => ProductKey(ProductOf(db, s).stockCode, ProductOf(db, s).description)
  }

  /** The product keys of f, in order of first appearance. */
  function ProductKeys(db: Db, f: seq<Sale>): (ks: seq<ProductKey>)
    ensures Distinct(ks)
    ensures forall s :: s in f ==> ProductKeyOf(db)(s) in ks
    ensures forall k :: k in ks ==> Group(f, ProductKeyOf(db), k) != []
  {
    var ks := KeysOf(f, ProductKeyOf(db));
    assert forall k :: k in ks ==> Group(f, ProductKeyOf(db), k) != [] by {
      forall k | k in ks
        ensures Group(f, ProductKeyOf(db), k) != []
      {
        KeyGroupNonEmpty(f, ProductKeyOf(db), k);
      }
    }
    ks
  }

  /** One product's row; a missing description reads "Unknown". */
  function ProductRow(db: Db, f: seq<Sale>, k: ProductKey): TopProduct
    requires Group(f, ProductKeyOf(db), k) != []
  {
    var g := Group(f, ProductKeyOf(db), k);
    TopProduct(k.stockCode, k.description.GetOr("Unknown"), SumOf(g, Amount), SumOf(g, Quantity), |g|)
  }

  /** Every product group of f, before ordering and Take. */
  function ProductRows(db: Db, f: seq<Sale>): (rows: seq<TopProduct>)
    ensures |rows| == |ProductKeys(db, f)|
    ensures forall i :: 0 <= i < |rows| ==> rows[i] == ProductRow(db, f, ProductKeys(db, f)[i])
  {
    var ks := ProductKeys(db, f);
    seq(|ks|, i requires 0 <= i < |ks| => ProductRow(db, f, ks[i]))
  }

  function ProductRevenue(p: TopProduct): int { p.revenue }

  function UnitsSold(p: TopProduct): int { p.unitsSold }

  function ProductTransactions(p: TopProduct): int { p.transactionCount }

  /** GET top: the product groups by revenue descending, cut to `top`. */
  function GetTopProducts(db: Db, top: int, range: DateRange): seq<TopProduct> {
    TopN(ProductRows(db, FilterByDate(db.sales, range)), ProductRevenue, top)
  }

  /**
   * At most `top` rows, revenue non-increasing, each a product group of the
   * filtered sales, and no product left out has more revenue than one kept.
   */
  lemma TopProductsRanked(db: Db, top: int, range: DateRange)
    ensures var rows := ProductRows(db, FilterByDate(db.sales, range));
            var r := GetTopProducts(db, top, range);
            && |r| == Min(Max(top, 0), |rows|)
            && NonIncreasing(r, ProductRevenue)
            && (forall p :: p in r ==> p in rows)
            && (forall p, q :: p in rows && p !in r && q in r ==> ProductRevenue(p) <= ProductRevenue(q))
  {
    TopNMembers(ProductRows(db, FilterByDate(db.sales, range)), ProductRevenue, top);
  }

  /**
   * A product's row: units sold is the sum of the group's quantities, the
   * transaction count its size (at least 1), and a missing description is
   * reported as "Unknown".
   */
  lemma ProductRowFacts(db: Db, f: seq<Sale>, k: ProductKey)
    requires Group(f, ProductKeyOf(db), k) != []
    ensures var row := ProductRow(db, f, k);
            var g := Group(f, ProductKeyOf(db), k);
            && row.stockCode == k.stockCode
            && row.revenue == SumOf(g, Amount)
            && row.unitsSold == SumOf(g, Quantity)
            && row.transactionCount == |g| >= 1
            && (k.description.None? ==> row.description == "Unknown")
            && (k.description.Some? ==> row.description == k.description.value)
            && (forall s :: s in f ==> (s in g <==> ProductKeyOf(db)(s) == k))
  {
  }

  /**
   * Before the cut to `top`, the product groups partition the filtered
   * sales: revenues, units and transaction counts add up to the totals.
   */
  lemma ProductRowsPartition(db: Db, range: DateRange)
    ensures var f := FilterByDate(db.sales, range);
            var rows := ProductRows(db, f);
            && SumOf(rows, ProductRevenue) == SumOf(f, Amount)
            && SumOf(rows, UnitsSold) == SumOf(f, Quantity)
            && SumOf(rows, ProductTransactions) == |f|
  {
    var f := FilterByDate(db.sales, range);
    var ks := ProductKeys(db, f);
    var rows := ProductRows(db, f);
    SumOverRows(f, ProductKeyOf(db), ks, Amount, rows, ProductRevenue);
    GroupsPartition(f, ProductKeyOf(db), ks, Amount);
    SumOverRows(f, ProductKeyOf(db), ks, Quantity, rows, UnitsSold);
    GroupsPartition(f, ProductKeyOf(db), ks, Quantity);
    forall i | 0 <= i < |ks|
      ensures ProductTransactions(rows[i]) == SumOf(Group(f, ProductKeyOf(db), ks[i]), One)
    {
      SumOfOne(Group(f, ProductKeyOf(db), ks[i]));
    }
    SumOverRows(f, ProductKeyOf(db), ks, One, rows, ProductTransactions);
    GroupsPartition(f, ProductKeyOf(db), ks, One);
    SumOfOne(f);
  }

  /**
   * With resolved references and unique stock codes, a stock code fixes the
   * description too, so there is one row per product: no stock code twice.
   */
  lemma OneRowPerProduct(db: Db, range: DateRange)
    requires ReferencesResolve(db) && UniqueIndexes(db)
    ensures var rows := ProductRows(db, FilterByDate(db.sales, range));
            forall i, j :: 0 <= i < j < |rows| ==> rows[i].stockCode != rows[j].stockCode
  {
    var f := FilterByDate(db.sales, range);
    var ks := ProductKeys(db, f);
    var rows := ProductRows(db, f);
    forall i, j | 0 <= i < j < |rows|
      ensures rows[i].stockCode != rows[j].stockCode
    {
      SameStockCodeSameKey(db, f, ks[i], ks[j]);
    }
  }

  lemma SameStockCodeSameKey(db: Db, f: seq<Sale>, a: ProductKey, b: ProductKey)
    requires ReferencesResolve(db) && UniqueIndexes(db)
    requires forall s :: s in f ==> s in db.sales
    requires Group(f, ProductKeyOf(db), a) != [] && Group(f, ProductKeyOf(db), b) != []
    ensures a.stockCode == b.stockCode ==> a == b
  {
    var sa := Group(f, ProductKeyOf(db), a)[0];
    var sb := Group(f, ProductKeyOf(db), b)[0];
    assert sa in Group(f, ProductKeyOf(db), a) && sb in Group(f, ProductKeyOf(db), b);
    assert sa in db.sales && sb in db.sales;
  }

  /** GET count: the size of the Products table. */
  function GetProductCount(db: Db): nat {
    |db.products|
  }

  /** Every product sold is in the table, so the count bounds the distinct products sold. */
  lemma ProductCountBounds(db: Db)
    requires ReferencesResolve(db)
    ensures |set s | s in db.sales :: s.productId| <= GetProductCount(db)
  {
    SubsetCardinality(set s | s in db.sales :: s.productId, db.products.Keys);
  }
}
