/**
 * The pie chart of revenue by country: the five largest countries as their
 * own slices and everything after them folded into one "Others" slice.
 */
module RegionalChart {
  import opened Numbers
  import opened Aggregation
  import opened Dtos
  import opened JsArrays

  /** The slice palette, one colour per possible slice. */
  const Colors: seq<string> := ["#3b82f6", "#8b5cf6", "#ec4899", "#f59e0b", "#10b981", "#94a3b8"]

  /** A slice: its name, its revenue rounded to whole units, its percentage in hundredths. */
  datatype PieSlice = PieSlice(name: string, value: int, percentage: int)

  function RevenueOf(row: RegionalSales): int { row.revenue }

  function PercentageOf(row: RegionalSales): int { row.percentage }

  function SlicePercentage(slice: PieSlice): int { slice.percentage }

  function SliceOf(row: RegionalSales): PieSlice {
    PieSlice(row.country, RoundAmount(row.revenue), row.percentage)
  }

  /** The rows after the fifth, summed into one slice. */
  function Others(rest: seq<RegionalSales>): PieSlice {
    PieSlice("Others", RoundAmount(SumOf(rest, RevenueOf)), SumOf(rest, PercentageOf))
  }

  function Slices(rows: seq<RegionalSales>): seq<PieSlice> {
    seq(|rows|, i requires 0 <= i < |rows| => SliceOf(rows[i]))
  }

  /** chartData: the top five as slices, then "Others" when anything is left. */
  function ChartDataOf(data: seq<RegionalSales>): seq<PieSlice> {
    var top5 := JsSlice(data, 0, 5);
    var rest := JsSlice(data, 5, |data|);
    Slices(top5) + (if |rest| > 0 then [Others(rest)] else [])
  }

  /** The colour of the slice at `index`. */
  function SliceColor(index: nat): string {
    Colors[index % |Colors|]
  }

  lemma SplitAtFive(data: seq<RegionalSales>)
    ensures JsSlice(data, 0, 5) == data[..Min(|data|, 5)]
    ensures JsSlice(data, 5, |data|) == data[Min(|data|, 5)..]
  {
  }

  /**
   * min(n, 5) slices for the first rows in their order, then one more
   * ("Others", over the rest) exactly when there are more than five rows.
   */
  lemma ChartShape(data: seq<RegionalSales>)
    ensures var r := ChartDataOf(data);
            && |r| == Min(|data|, 5) + (if |data| > 5 then 1 else 0)
            && |r| <= 6
            && (forall i :: 0 <= i < Min(|data|, 5) ==> r[i] == SliceOf(data[i]))
            && (|data| > 5 ==> r[5] == Others(data[5..]))
  {
    SplitAtFive(data);
  }

  /** The "Others" value is the rounded sum of the remaining revenues. */
  lemma OthersValue(rest: seq<RegionalSales>)
    ensures Others(rest).value == (SumOf(rest, RevenueOf) + 50) / 100
    ensures Others(rest).percentage == SumOf(rest, PercentageOf)
  {
    RoundAmountOfCents(SumOf(rest, RevenueOf));
  }

  lemma {:induction false} SlicesPercentage(rows: seq<RegionalSales>)
    ensures SumOf(Slices(rows), SlicePercentage) == SumOf(rows, PercentageOf)
  {
    if rows != [] {
      var init := Init(rows);
      assert Slices(rows) == Slices(init) + [SliceOf(Last(rows))];
      SumOfSnoc(Slices(init), SliceOf(Last(rows)), SlicePercentage);
      SlicesPercentage(init);
    }
  }

  /** Folding the tail into "Others" loses no percentage: the slices add up to the rows. */
  lemma ChartKeepsPercentages(data: seq<RegionalSales>)
    ensures SumOf(ChartDataOf(data), SlicePercentage) == SumOf(data, PercentageOf)
  {
    SplitAtFive(data);
    var k := Min(|data|, 5);
    var top, rest := data[..k], data[k..];
    assert data == top + rest;
    SumOfAppend(top, rest, PercentageOf);
    SlicesPercentage(top);
    if |rest| > 0 {
      assert ChartDataOf(data) == Slices(top) + [Others(rest)];
      SumOfSnoc(Slices(top), Others(rest), SlicePercentage);
    } else {
      assert ChartDataOf(data) == Slices(top);
    }
  }

  /** Every slice the chart can have gets a colour of its own. */
  lemma ColorsDistinct(data: seq<RegionalSales>, i: nat, j: nat)
    requires i < j < |ChartDataOf(data)|
    ensures SliceColor(i) == Colors[i] && SliceColor(j) == Colors[j]
    ensures SliceColor(i) != SliceColor(j)
  {
    ChartShape(data);
  }
}
