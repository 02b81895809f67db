/**
 * The bar chart of the best-selling products: one bar per product labelled
 * with a shortened description, and the tooltip that maps a bar's label back
 * to the full description.
 */
module ProductsChart {
  import opened Wrappers
  import opened Dtos
  import opened JsArrays

  /** A bar: the axis label, the full description, rounded revenue and units. */
  datatype BarEntry = BarEntry(name: string, fullName: string, revenue: int, units: int)

  /** A description over 35 characters is cut to its first 30 and "...". */
  function Shorten(d: string): string {
    if |d| > 35 then d[..30] + "..." else d
  }

  lemma ShortenFacts(d: string)
    ensures |Shorten(d)| <= 35
    ensures Shorten(d) == d <==> |d| <= 35
    ensures |d| > 35 ==> |Shorten(d)| == 33 && Shorten(d)[..30] == d[..30] && Shorten(d)[30..] == "..."
  {
    if |d| > 35 {
      assert |Shorten(d)| != |d|;
    }
  }

  function EntryOf(p: TopProduct): BarEntry {
    BarEntry(Shorten(p.description), p.description, RoundAmount(p.revenue), p.unitsSold)
  }

  /** chartData: data.map(EntryOf). */
  function BarEntries(data: seq<TopProduct>): seq<BarEntry> {
    seq(|data|, i requires 0 <= i < |data| => EntryOf(data[i]))
  }

  /** One bar per product, in the same order, keeping the description and units. */
  lemma BarEntriesFacts(data: seq<TopProduct>)
    ensures var r := BarEntries(data);
            && |r| == |data|
            && forall i :: 0 <= i < |r| ==>
                 && r[i].name == Shorten(data[i].description)
                 && r[i].fullName == data[i].description
                 && r[i].units == data[i].unitsSold
                 && r[i].revenue == (data[i].revenue + 50) / 100
  {
    forall i | 0 <= i < |data|
      ensures RoundAmount(data[i].revenue) == (data[i].revenue + 50) / 100
    {
      RoundAmountOfCents(data[i].revenue);
    }
  }

  /** chartData.find(d => d.name === axisLabel), as the index of the entry found. */
  function FindByName(entries: seq<BarEntry>, axisLabel: string): (r: Option<nat>)
    ensures r.Some? ==> r.value < |entries| && entries[r.value].name == axisLabel
    ensures r.Some? ==> forall j :: 0 <= j < r.value ==> entries[j].name != axisLabel
    ensures r.None? <==> forall j :: 0 <= j < |entries| ==> entries[j].name != axisLabel
  {
    if entries == [] then None
    else if entries[0].name == axisLabel then Some(0)
    else match FindByName(entries[1..], axisLabel)
      case None => None
      case Some(i) => Some(i + 1)
  }

  /** item?.fullName || label: an empty full name also falls back to the label. */
  function LabelFormatter(entries: seq<BarEntry>, axisLabel: string): string {
    match FindByName(entries, axisLabel)
    case Some(i) => if entries[i].fullName != "" then entries[i].fullName else axisLabel
    case None => axisLabel
  }

  /** A label no bar carries is shown as it is. */
  lemma UnknownLabel(entries: seq<BarEntry>, axisLabel: string)
    requires forall j :: 0 <= j < |entries| ==> entries[j].name != axisLabel
    ensures LabelFormatter(entries, axisLabel) == axisLabel
  {
  }

  /** A bar whose label no earlier bar shares shows its own full description. */
  lemma FirstLabelShowsFullName(entries: seq<BarEntry>, i: nat)
    requires i < |entries|
    requires forall j :: 0 <= j < i ==> entries[j].name != entries[i].name
    requires entries[i].fullName != ""
    ensures LabelFormatter(entries, entries[i].name) == entries[i].fullName
  {
  }

  /**
   * Two long descriptions that agree on their first 30 characters get the
   * same label, and the tooltip of the second bar shows the first one's.
   */
  lemma SharedPrefixShowsFirst(p: TopProduct, q: TopProduct)
    requires |p.description| > 35 && |q.description| > 35
    requires p.description[..30] == q.description[..30]
    ensures var entries := BarEntries([p, q]);
            LabelFormatter(entries, entries[1].name) == p.description
  {
    var entries := BarEntries([p, q]);
    assert entries[0].name == entries[1].name;
  }
}
