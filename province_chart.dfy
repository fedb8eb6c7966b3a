/**
 * The bar chart of candidates per province: each entry becomes an item whose
 * short name drops the word " प्रदेश", the items are sorted by count (largest
 * first), and bar `i` takes the `i`-th colour of a seven-colour palette,
 * cyclically.
 */
module ProvinceChart {
  import opened Wrappers
  import opened JsString
  import opened JsArray
  import opened Election
  import opened Charts

  const ChartColors: seq<string> := [
    "#6366f1", "#3b82f6", "#06b6d4", "#14b8a6", "#10b981", "#f59e0b", "#ef4444"
  ]

  /** The word removed from province names for the axis labels (with its leading space). */
  const ProvinceWord := " प्रदेश"

  /**
   * `name.replace(" प्रदेश", "")`: the name with the first occurrence of the
   * word cut out, or the name itself when it does not contain the word.
   */
  function ShortName(name: string): (r: string)
    ensures (forall i :: !OccursAt(name, ProvinceWord, i)) ==> r == name
    ensures forall i :: OccursAt(name, ProvinceWord, i) && (forall j :: 0 <= j < i ==> !OccursAt(name, ProvinceWord, j)) ==>
              r == name[..i] + name[i + |ProvinceWord|..]
  {
    ReplaceFirst(name, ProvinceWord, "")
  }

  /** `Object.entries(data).map(([name, value]) => ({ name, shortName, value }))`. */
  function Items(data: Entries<int>): (items: seq<ChartDataItem>)
    ensures ItemsOf(items, data)
    ensures forall i :: 0 <= i < |items| ==> items[i].shortName == Some(ShortName(items[i].name))
  {
    MapSeq(data, (e: (string, int)) => ChartDataItem(e.0, Some(ShortName(e.0)), e.1))
  }

  /** `chartData`: the items sorted by count, largest first. */
  function ChartData(data: Entries<int>): seq<ChartDataItem> {
    SortDesc(Items(data), ValueOf)
  }

  /** The bars are a permutation of the record's entries, ordered by count. */
  lemma ChartDataSortsEntries(data: Entries<int>)
    requires DistinctKeys(data)
    ensures multiset(ChartData(data)) == multiset(Items(data))
    ensures SortedDesc(ChartData(data), ValueOf)
    ensures forall v :: WithKey(ChartData(data), ValueOf, v) == WithKey(Items(data), ValueOf, v)
  {
    SortedItems(Items(data), data);
  }

  /**
   * Two occurrences of the word never overlap: it is a space followed by no
   * other space, so a later occurrence starts after the earlier one ends.
   */
  lemma WordOccurrencesApart(name: string, i: int, j: int)
    requires 0 <= i <= j && OccursAt(name, ProvinceWord, i) && OccursAt(name, ProvinceWord, j)
    ensures i == j || i + |ProvinceWord| <= j
  {
    assert name[j..j + |ProvinceWord|][0] == name[j];
    assert i < j < i + |ProvinceWord| ==> name[i..i + |ProvinceWord|][j - i] == name[j];
    assert forall d :: 0 < d < |ProvinceWord| ==> ProvinceWord[d] != ' ';
  }

  /** A full province name loses exactly the word, so "कोशी प्रदेश" is shown as "कोशी". */
  lemma ShortNameOfProvince(base: string)
    requires !Includes(base, ProvinceWord)
    ensures ShortName(base + ProvinceWord) == base
  {
    var name := base + ProvinceWord;
    assert OccursAt(name, ProvinceWord, |base|);
    IncludesIff(name, ProvinceWord, |base|);
    var i := IndexOf(name, ProvinceWord);
    WordOccurrencesApart(name, i, |base|);
    if i + |ProvinceWord| <= |base| {
      assert name[i..i + |ProvinceWord|] == base[i..i + |ProvinceWord|];
      IncludesIff(base, ProvinceWord, i);
      assert false;
    }
    assert i == |base|;
    assert name[..i] == base;
    assert name[i + |ProvinceWord|..] == [];
  }

  /** Bar `index`'s fill: `CHART_COLORS[index % CHART_COLORS.length]`. */
  function BarColor(index: nat): string {
    CycleColor(ChartColors, index)
  }

  /** Two bars share a colour exactly when their positions are congruent modulo 7. */
  lemma BarColorsCycle(i: nat, j: nat)
    ensures BarColor(i) == BarColor(j) <==> i % 7 == j % 7
  {
    assert Distinct(ChartColors);
    CycleColorSame(ChartColors, i, j);
  }
}
