/**
 * The bar chart of candidates per party: the record's entries become items
 * with a short party name, are sorted by count (largest first) and cut to the
 * first `maxItems`; bar `i` takes the `i`-th colour of an eight-colour palette,
 * cyclically.
 */
module PartyBarChart {
  import opened Wrappers
  import opened JsArray
  import opened Election
  import opened Charts

  /** The `maxItems` prop when the caller gives none. */
  const DefaultMaxItems := 7

  const ChartColors: seq<string> := [
    "#6366f1", "#3b82f6", "#06b6d4", "#8b5cf6",
    "#2dd4bf", "#4f46e5", "#2563eb", "#7c3aed"
  ]

  /**
   * `Object.entries(data).map(([name, value]) => ({ name, shortName, value }))`,
   * where the short name comes from `getShortPartyName`, which is a parameter here.
   */
  function Items(data: Entries<int>, shortPartyName: string -> string): (items: seq<ChartDataItem>)
    ensures ItemsOf(items, data)
    ensures forall i :: 0 <= i < |items| ==> items[i].shortName == Some(shortPartyName(items[i].name))
  {
    MapSeq(data, (e: (string, int)) => ChartDataItem(e.0, Some(shortPartyName(e.0)), e.1))
  }

  /** `chartData`: the items sorted by count, largest first, then `.slice(0, maxItems)`. */
  function ChartData(data: Entries<int>, shortPartyName: string -> string, maxItems: int): seq<ChartDataItem> {
    Take(SortDesc(Items(data, shortPartyName), ValueOf), maxItems)
  }

  /**
   * The chart shows as many bars as `slice` allows: min(maxItems, |entries|)
   * for a non-negative `maxItems`.
   */
  lemma ChartDataLength(data: Entries<int>, shortPartyName: string -> string, maxItems: int)
    ensures |ChartData(data, shortPartyName, maxItems)| == SliceEnd(|data|, maxItems)
    ensures 0 <= maxItems ==>
      |ChartData(data, shortPartyName, maxItems)| == if maxItems < |data| then maxItems else |data|
  {
  }

  /**
   * The bars are the top of the ranking: ordered by count, largest first, and
   * every shown count is at least every count that the cut hid.
   */
  lemma ChartDataIsTopN(data: Entries<int>, shortPartyName: string -> string, maxItems: int)
    ensures var ranked := SortDesc(Items(data, shortPartyName), ValueOf);
      var bars := ChartData(data, shortPartyName, maxItems);
      && SortedDesc(bars, ValueOf)
      && bars <= ranked
      && forall i, j :: 0 <= i < |bars| <= j < |ranked| ==> bars[i].value >= ranked[j].value
  {
    SortDescCorrect(Items(data, shortPartyName), ValueOf);
  }

  /**
   * Each bar is a distinct entry of the record: its name and count are those
   * of an entry, its short name is `getShortPartyName(name)`, and no party
   * appears twice.
   */
  lemma ChartDataFromEntries(data: Entries<int>, shortPartyName: string -> string, maxItems: int)
    requires DistinctKeys(data)
    ensures var bars := ChartData(data, shortPartyName, maxItems);
      && (forall i :: 0 <= i < |bars| ==>
            exists k :: 0 <= k < |data| && data[k] == (bars[i].name, bars[i].value))
      && (forall i :: 0 <= i < |bars| ==> bars[i].shortName == Some(shortPartyName(bars[i].name)))
      && (forall i, j :: 0 <= i < j < |bars| ==> bars[i].name != bars[j].name)
  {
    var items := Items(data, shortPartyName);
    var bars := ChartData(data, shortPartyName, maxItems);
    SortedItems(items, data);
    var sorted := SortDesc(items, ValueOf);
    assert bars == sorted[..|bars|];
    forall i | 0 <= i < |bars|
      ensures exists k :: 0 <= k < |items| && items[k] == bars[i]
    {
      assert bars[i] == sorted[i];
      assert sorted[i] in multiset(items);
    }
    forall i, j | 0 <= i < j < |bars| ensures bars[i].name != bars[j].name {
      assert sorted[i] != sorted[j];
      assert sorted[i] in multiset(items) && sorted[j] in multiset(items);
      ItemsNamesDistinct(items, data, bars[i], bars[j]);
    }
  }

  /** Bar `index`'s fill: `CHART_COLORS[index % CHART_COLORS.length]`. */
  function BarColor(index: nat): string {
    CycleColor(ChartColors, index)
  }

  /** Two bars share a colour exactly when their positions are congruent modulo 8. */
  lemma BarColorsCycle(i: nat, j: nat)
    ensures BarColor(i) == BarColor(j) <==> i % 8 == j % 8
  {
    assert Distinct(ChartColors);
    CycleColorSame(ChartColors, i, j);
  }
}
