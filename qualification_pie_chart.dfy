/**
 * The pie chart of candidates per qualification: the record's entries as
 * items sorted by count (largest first), their total in the centre, and slice
 * `i` in the `i`-th colour of a seven-colour palette, cyclically.
 */
module QualificationPieChart {
  import opened Wrappers
  import opened JsArray
  import opened Election
  import opened Charts

  const ChartColors: seq<string> := [
    "#06b6d4", "#2dd4bf", "#0891b2", "#14b8a6", "#64748b", "#0e7490", "#94a3b8"
  ]

  /** `Object.entries(data).map(([name, value]) => ({ name, value }))`. */
  function Items(data: Entries<int>): (items: seq<ChartDataItem>)
    ensures ItemsOf(items, data)
    ensures forall i :: 0 <= i < |items| ==> items[i].shortName == None
  {
    MapSeq(data, (e: (string, int)) => ChartDataItem(e.0, None, e.1))
  }

  /** `chartData`: the items sorted by count, largest first. */
  function ChartData(data: Entries<int>): seq<ChartDataItem> {
    SortDesc(Items(data), ValueOf)
  }

  /** `total`: `chartData.reduce((acc, item) => acc + item.value, 0)`. */
  function Total(data: Entries<int>): int {
    SumBy(ChartData(data), ValueOf)
  }

  /**
   * The slices are a permutation of the record's entries, ordered by count
   * with equal counts in entry order.
   */
  lemma ChartDataSortsEntries(data: Entries<int>)
    requires DistinctKeys(data)
    ensures multiset(ChartData(data)) == multiset(Items(data))
    ensures SortedDesc(ChartData(data), ValueOf)
    ensures forall v :: WithKey(ChartData(data), ValueOf, v) == WithKey(Items(data), ValueOf, v)
  {
    SortedItems(Items(data), data);
  }

  /** The centre total is the sum of the record's counts, whatever the sort did. */
  lemma TotalIsSumOfCounts(data: Entries<int>)
    ensures Total(data) == SumBy(data, EntryValue)
  {
    SortDescSum(Items(data), ValueOf);
    ItemsSum(Items(data), data);
  }

  /** Slice `index`'s fill: `CHART_COLORS[index % CHART_COLORS.length]`. */
  function SliceColor(index: nat): string {
    CycleColor(ChartColors, index)
  }

  /** Two slices share a colour exactly when their positions are congruent modulo 7. */
  lemma SliceColorsCycle(i: nat, j: nat)
    ensures SliceColor(i) == SliceColor(j) <==> i % 7 == j % 7
  {
    assert Distinct(ChartColors);
    CycleColorSame(ChartColors, i, j);
  }
}
