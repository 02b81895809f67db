/**
 * The sales trend chart: the monthly rows it fetched, the view mode, and
 * the month the month view is centred on, with the pure function that
 * turns them into chart points.
 */
module TrendChart {
  import opened Numbers
  import opened Text
  import opened Dtos
  import opened JsArrays

  datatype ViewMode = Month | Overall

  /** A point of the line chart: its x-axis label and its rounded revenue. */
  datatype ChartPoint = ChartPoint(name: string, revenue: int)

  /** The `${month}/${year}` label. */
  function Label(m: MonthlySales): string {
    m.month + "/" + IntToString(m.year)
  }

  function PointOf(m: MonthlySales): ChartPoint {
    ChartPoint(Label(m), RoundAmount(m.revenue))
  }

  /** rows.map(item => point). */
  function Points(rows: seq<MonthlySales>): seq<ChartPoint> {
    seq(|rows|, i requires 0 <= i < |rows| => PointOf(rows[i]))
  }

  /** The first month the month view shows: at most five before the current one. */
  function WindowStart(index: int): int {
    Max(0, index - 5)
  }

  /** getChartData: every month, or the six-month window ending at `index`. */
  function ChartDataOf(data: seq<MonthlySales>, mode: ViewMode, index: int): seq<ChartPoint> {
    match mode
    case Overall => Points(data)
    case Month => Points(JsSlice(data, WindowStart(index), index + 1))
  }

  /** The label is the month string, a slash, and the year's digits. */
  lemma LabelParts(m: MonthlySales)
    ensures |Label(m)| > |m.month| + 1
    ensures Label(m)[..|m.month|] == m.month
    ensures Label(m)[|m.month|] == '/'
    ensures Label(m)[|m.month| + 1..] == IntToString(m.year)
  {
    assert Label(m) == m.month + ("/" + IntToString(m.year));
  }

  /** The overall view has one point per month, in the order received. */
  lemma OverallChart(data: seq<MonthlySales>, index: int)
    ensures var r := ChartDataOf(data, Overall, index);
            && |r| == |data|
            && forall i :: 0 <= i < |r| ==>
                 r[i].name == Label(data[i]) && r[i].revenue == (data[i].revenue + 50) / 100
  {
    forall i | 0 <= i < |data|
      ensures RoundAmount(data[i].revenue) == (data[i].revenue + 50) / 100
    {
      RoundAmountOfCents(data[i].revenue);
    }
  }

  /**
   * With a valid index the month view shows data[max(0, index - 5) .. index]:
   * at most six points, the selected month last.
   */
  lemma MonthChart(data: seq<MonthlySales>, index: int)
    requires 0 <= index < |data|
    ensures var r := ChartDataOf(data, Month, index);
            && |r| == Min(index + 1, 6)
            && 1 <= |r| <= 6
            && r[|r| - 1] == PointOf(data[index])
            && forall i :: 0 <= i < |r| ==> r[i] == PointOf(data[WindowStart(index) + i])
  {
    var w := data[WindowStart(index)..index + 1];
    MonthWindow(data, index);
    assert |w| == Min(index + 1, 6);
    assert forall i :: 0 <= i < |w| ==> w[i] == data[WindowStart(index) + i];
  }

  lemma MonthWindow(data: seq<MonthlySales>, index: int)
    requires 0 <= index < |data|
    ensures ChartDataOf(data, Month, index) == Points(data[WindowStart(index)..index + 1])
  {
    assert JsSlice(data, WindowStart(index), index + 1) == data[WindowStart(index)..index + 1];
  }

  /**
   * With no months, both views are empty whatever the index: before the
   * fetch or after a failed one (index 0) and after an empty fetch (index -1).
   */
  lemma EmptyChart(mode: ViewMode, index: int)
    ensures ChartDataOf([], mode, index) == []
  {
  }

  /** handlePrevMonth: step back unless at the first month. */
  function PrevIndex(index: int): int {
    if index > 0 then index - 1 else index
  }

  /** handleNextMonth: step forward unless at the last month. */
  function NextIndex(index: int, length: int): int {
    if index < length - 1 then index + 1 else index
  }

  /** Both steps keep a valid index valid. */
  lemma StepsKeepIndexValid(index: int, length: int)
    requires 0 <= index < length
    ensures 0 <= PrevIndex(index) < length
    ensures 0 <= NextIndex(index, length) < length
  {
  }

  function PrevSteps(index: int, k: nat): int {
    if k == 0 then index else PrevIndex(PrevSteps(index, k - 1))
  }

  function NextSteps(index: int, length: int, k: nat): int {
    if k == 0 then index else NextIndex(NextSteps(index, length, k - 1), length)
  }

  /** k presses of "previous" from a valid index land on max(index - k, 0). */
  lemma {:induction false} PrevStepsReach(index: int, k: nat)
    requires index >= 0
    ensures PrevSteps(index, k) == Max(index - k, 0)
  {
    if k > 0 {
      PrevStepsReach(index, k - 1);
    }
  }

  /** k presses of "next" from a valid index land on min(index + k, length - 1). */
  lemma {:induction false} NextStepsReach(index: int, length: int, k: nat)
    requires index <= length - 1
    ensures NextSteps(index, length, k) == Min(index + k, length - 1)
  {
    if k > 0 {
      NextStepsReach(index, length, k - 1);
    }
  }

  /** The component's state. */
  class SalesTrendChart {
    var data: seq<MonthlySales>
    var loading: bool
    var viewMode: ViewMode
    var currentMonthIndex: int

    /** The initial state: nothing loaded, overall view, index 0. */
    constructor()
      ensures data == [] && loading && viewMode == Overall && currentMonthIndex == 0
    {
      data := [];
      loading := true;
      viewMode := Overall;
      currentMonthIndex := 0;
    }

    predicate IndexValid()
      reads this
    {
      0 <= currentMonthIndex < |data|
    }

    /** The fetch succeeded: keep the rows and select the last month. */
    method FetchSucceeded(monthlyData: seq<MonthlySales>)
      modifies this
      ensures data == monthlyData && currentMonthIndex == |monthlyData| - 1
      ensures !loading && viewMode == old(viewMode)
      ensures monthlyData != [] ==> IndexValid()
    {
      data := monthlyData;
      currentMonthIndex := |monthlyData| - 1;
      loading := false;
    }

    /** The fetch failed: only the loading flag clears. */
    method FetchFailed()
      modifies this
      ensures !loading
      ensures data == old(data) && viewMode == old(viewMode) && currentMonthIndex == old(currentMonthIndex)
    {
      loading := false;
    }

    method HandlePrevMonth()
      modifies this
      ensures currentMonthIndex == PrevIndex(old(currentMonthIndex))
      ensures data == old(data) && viewMode == old(viewMode) && loading == old(loading)
      ensures old(IndexValid()) ==> IndexValid()
    {
      if currentMonthIndex > 0 {
        currentMonthIndex := currentMonthIndex - 1;
      }
    }

    method HandleNextMonth()
      modifies this
      ensures currentMonthIndex == NextIndex(old(currentMonthIndex), |data|)
      ensures data == old(data) && viewMode == old(viewMode) && loading == old(loading)
      ensures old(IndexValid()) ==> IndexValid()
    {
      if currentMonthIndex < |data| - 1 {
        currentMonthIndex := currentMonthIndex + 1;
      }
    }

    /** The Month / Overall toggle. */
    method SetViewMode(mode: ViewMode)
      modifies this
      ensures viewMode == mode
      ensures data == old(data) && currentMonthIndex == old(currentMonthIndex) && loading == old(loading)
    {
      viewMode := mode;
    }

    /** What the chart plots in the current state. */
    function ChartData(): seq<ChartPoint>
      reads this
    {
      ChartDataOf(data, viewMode, currentMonthIndex)
    }
  }
}
