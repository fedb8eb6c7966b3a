/**
 * The gender bar chart: one bar per record entry in entry order (no sorting),
 * a total for the legend percentages, and a fixed colour per gender with a
 * cyan fallback.
 */
module GenderChart {
  import opened Wrappers
  import opened JsArray
  import opened Election
  import opened Charts

  /** `GENDER_COLORS`: male, female, other. */
  const GenderColors: Entries<string> := [
    ("पुरुष", "#3b82f6"),
    ("महिला", "#a855f7"),
    ("अन्य", "#64748b")
  ]

  /** The fill of a bar whose name is not in `GenderColors`. */
  const FallbackColor := "#0891b2"

  /** The item for one entry: no short name. */
  function EntryItem(e: (string, int)): ChartDataItem {
    ChartDataItem(e.0, None, e.1)
  }

  /** `Object.entries(data).map(([name, value]) => ({ name, value }))`. */
  function ChartData(data: Entries<int>): (items: seq<ChartDataItem>)
    ensures ItemsOf(items, data)
    ensures forall i :: 0 <= i < |items| ==> items[i].shortName == None
  {
    MapSeq(data, EntryItem)
  }

  /** `chartData.reduce((acc, item) => acc + item.value, 0)`. */
  function Total(data: Entries<int>): int {
    SumBy(ChartData(data), ValueOf)
  }

  /** The legend's denominator is the sum of the record's counts. */
  lemma TotalIsSumOfCounts(data: Entries<int>)
    ensures Total(data) == SumBy(data, EntryValue)
  {
    ItemsSum(ChartData(data), data);
  }

  /** `GENDER_COLORS[name] || "#0891b2"`, the bar fill and the legend dot. */
  function BarColor(name: string): (c: string)
    ensures name == "पुरुष" ==> c == "#3b82f6"
    ensures name == "महिला" ==> c == "#a855f7"
    ensures name == "अन्य" ==> c == "#64748b"
    ensures !HasKey(GenderColors, name) ==> c == FallbackColor
  {
    StrOr(Lookup(GenderColors, name), FallbackColor)
  }

  /** The three listed names are the keys of the colour table. */
  lemma GenderColorKeys(name: string)
    ensures HasKey(GenderColors, name) <==> name == "पुरुष" || name == "महिला" || name == "अन्य"
  {
    if HasKey(GenderColors, name) {
      var i :| 0 <= i < |GenderColors| && GenderColors[i].0 == name;
      assert i == 0 || i == 1 || i == 2;
    } else {
      assert GenderColors[0].0 == "पुरुष";
      assert GenderColors[1].0 == "महिला";
      assert GenderColors[2].0 == "अन्य";
    }
  }

  predicate IsHexDigit(c: char) {
    '0' <= c <= '9' || 'a' <= c <= 'f'
  }

  /** A CSS colour `#rrggbb` in lower-case hexadecimal. */
  predicate IsHexColor(s: string) {
    |s| == 7 && s[0] == '#' && forall i :: 1 <= i < 7 ==> IsHexDigit(s[i])
  }

  /** Every bar, whatever its name, is filled with a valid colour. */
  lemma BarColorIsHex(name: string)
    ensures IsHexColor(BarColor(name))
  {
    GenderColorKeys(name);
  }

  /** The prefix of the legend dot's box shadow, before the colour. */
  const GlowPrefix := "0 0 10px "

  /**
   * The legend dot's `boxShadow` as written: `0 0 10px ${GENDER_COLORS[item.name]}44`,
   * with no fallback, so an unlisted name interpolates `undefined`.
   */
  function LegendGlowAsWritten(name: string): string {
    var c := Lookup(GenderColors, name);
    GlowPrefix + (if c.Some? then c.value else "undefined") + "44"
  }

  /**
   * For a name outside the table the shadow colour is the text `undefined44`,
   * which is no CSS colour, while the dot itself is drawn in the fallback colour.
   */
  lemma LegendGlowAsWrittenUnlisted(name: string)
    requires !HasKey(GenderColors, name)
    ensures LegendGlowAsWritten(name) == "0 0 10px undefined44"
    ensures !IsHexColor(LegendGlowAsWritten(name)[|GlowPrefix|..|GlowPrefix| + 7])
    ensures BarColor(name) == FallbackColor
  {
    var g := LegendGlowAsWritten(name);
    assert g[|GlowPrefix|] == 'u';
  }

  /** The legend glow with the same fallback as the dot: the dot's colour at alpha 0x44. */
  function LegendGlow(name: string): string {
    GlowPrefix + BarColor(name) + "44"
  }

  /**
   * The corrected glow is always the dot's colour followed by an alpha byte,
   * and it agrees with the code as written on every listed name.
   */
  lemma LegendGlowIsDotColor(name: string)
    ensures var g := LegendGlow(name);
      && |g| == |GlowPrefix| + 9
      && g[..|GlowPrefix|] == GlowPrefix
      && g[|GlowPrefix|..|GlowPrefix| + 7] == BarColor(name)
      && IsHexColor(g[|GlowPrefix|..|GlowPrefix| + 7])
      && g[|GlowPrefix| + 7..] == "44"
    ensures HasKey(GenderColors, name) ==> LegendGlow(name) == LegendGlowAsWritten(name)
  {
    BarColorIsHex(name);
    GenderColorKeys(name);
    var g := LegendGlow(name);
    assert g == GlowPrefix + BarColor(name) + "44";
    assert g[|GlowPrefix|..|GlowPrefix| + 7] == BarColor(name);
    assert g[|GlowPrefix| + 7..] == "44";
  }
}
