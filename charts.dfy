/**
 * What the four chart components share: the `ChartDataItem` shape, the total
 * of a `Record<string, number>`, and cyclic colour picking from a palette.
 */
module Charts {
  import opened Wrappers
  import opened JsArray
  import opened Election

  /** One bar or slice: the record key, an optional short label, and the count. */
  datatype ChartDataItem = ChartDataItem(name: string, shortName: Option<string>, value: int)

  /** The sort key of every chart: the item's count. */
  function ValueOf(item: ChartDataItem): int {
    item.value
  }

  /** The count stored in a record entry. */
  function EntryValue(e: (string, int)): int {
    e.1
  }

  /** A list of items made one for one from the entries, keeping name and count. */
  predicate ItemsOf(items: seq<ChartDataItem>, data: Entries<int>) {
    && |items| == |data|
    && forall i :: 0 <= i < |data| ==> items[i].name == data[i].0 && items[i].value == data[i].1
  }

  /** Items built one for one from the entries add up to the same total. */
  lemma {:induction false} ItemsSum(items: seq<ChartDataItem>, data: Entries<int>)
    requires ItemsOf(items, data)
    ensures SumBy(items, ValueOf) == SumBy(data, EntryValue)
  {
    if data != [] {
      ItemsSum(items[1..], data[1..]);
    }
  }

  /** Items built from a record with distinct keys have distinct names. */
  lemma ItemsDistinct(items: seq<ChartDataItem>, data: Entries<int>)
    requires ItemsOf(items, data) && DistinctKeys(data)
    ensures Distinct(items)
  {
    forall i, j | 0 <= i < j < |items| ensures items[i] != items[j] {
      assert items[i].name != items[j].name;
    }
  }

  /** Two different items built from a record with distinct keys carry different names. */
  lemma ItemsNamesDistinct(items: seq<ChartDataItem>, data: Entries<int>, x: ChartDataItem, y: ChartDataItem)
    requires ItemsOf(items, data) && DistinctKeys(data)
    requires x in items && y in items && x != y
    ensures x.name != y.name
  {
    var a :| 0 <= a < |items| && items[a] == x;
    var b :| 0 <= b < |items| && items[b] == y;
    if a < b { assert data[a].0 != data[b].0; } else if b < a { assert data[b].0 != data[a].0; }
  }

  /**
   * What the three sorting charts promise about `entries.map(...).sort(...)`:
   * a permutation of the items, largest count first, equal counts in entry order,
   * the same total, and no item twice.
   */
  lemma SortedItems(items: seq<ChartDataItem>, data: Entries<int>)
    requires ItemsOf(items, data) && DistinctKeys(data)
    ensures multiset(SortDesc(items, ValueOf)) == multiset(items)
    ensures SortedDesc(SortDesc(items, ValueOf), ValueOf)
    ensures forall v :: WithKey(SortDesc(items, ValueOf), ValueOf, v) == WithKey(items, ValueOf, v)
    ensures SumBy(SortDesc(items, ValueOf), ValueOf) == SumBy(data, EntryValue)
    ensures Distinct(SortDesc(items, ValueOf))
  {
    SortDescCorrect(items, ValueOf);
    forall v ensures WithKey(SortDesc(items, ValueOf), ValueOf, v) == WithKey(items, ValueOf, v) {
      SortDescStable(items, ValueOf, v);
    }
    SortDescSum(items, ValueOf);
    ItemsSum(items, data);
    ItemsDistinct(items, data);
    SortDescDistinct(items, ValueOf);
  }

  /** `palette[index % palette.length]`. */
  function CycleColor(palette: seq<string>, index: nat): string
    requires |palette| > 0
  {
    palette[index % |palette|]
  }

  /**
   * With a palette of distinct colours, two bars get the same colour exactly
   * when their positions agree modulo the palette size.
   */
  lemma CycleColorSame(palette: seq<string>, i: nat, j: nat)
    requires |palette| > 0 && Distinct(palette)
    ensures CycleColor(palette, i) == CycleColor(palette, j) <==> i % |palette| == j % |palette|
  {
    var a, b := i % |palette|, j % |palette|;
    if a < b {
      assert palette[a] != palette[b];
    } else if b < a {
      assert palette[b] != palette[a];
    }
  }
}
