# Chunab 2082 dashboard: the page and component logic, in Dafny

The dashboard shows the candidates of Nepal's 2082 House of Representatives
election. Users filter candidates by province, district, constituency, party,
qualification, gender and age. They search by name, district or party, in
Nepali or English. They page through result cards, open a candidate's details,
and read four charts and a countdown to polling day.

This project models the logic written in the page and component files. Each
source file becomes one module:

- **`CandidatesPage`** (`src/pages/CandidatesPage.tsx`): the free-text search.
  - The lowercased query is expanded with the Nepali names of every English
    district or party key that contains it. `BuildSearchTerms` is a method with
    one loop per synonym table.
  - The structured-filter result keeps the candidates whose name, district or
    party contains one of the terms.
  - The list is shown 24 cards per "load more" page.
  - The page counter lives in the class `PageState`.
- **`IndexPage`** (`src/pages/Index.tsx`): the landing page.
  - Its plain name-or-district search and the six-card preview.
  - The stat cards and the four charts, fed by the searched list.
  - The header count and the "see all" button, which look at the unsearched list.
- **`FilterPanel`** (`src/components/filters/FilterPanel.tsx`): the filter
  panel's handlers, each a function from the current `FilterState` to the
  next one.
  - `getKeywords`, the reverse lookup of synonym keys.
  - The combobox option lists.
  - The age slider and the select values.
- **`Combobox`** (`src/components/ui/combobox.tsx`):
  - the selected label;
  - the item search string;
  - the toggle-on-select rule and the check mark;
  - the popover's `open` flag, as the class `ComboboxState`.
- **`Countdown`** (`src/components/ui/Countdown.tsx`):
  - the clamped seconds and their split into days, hours, minutes and seconds;
  - two-digit padding and the Devanagari digit transliteration.
- **`PartyBarChart`, `QualificationPieChart`, `ProvinceChart`, `GenderChart`**
  (`src/components/charts/`):
  - records to items, the stable descending sort and the top-N cut;
  - totals, province short names and palette colours.
- **`TrendingBattles`, `CandidateCard`, `CandidateDetail`**: the display rules
  of the battle card, the candidate card and the detail dialog.

Shared vocabulary sits in a few support modules:

- `Election`: the candidate record, `FilterState`, and `Record<string, V>` as an
  ordered list of entries.
- `Charts`: the chart item shape.
- `JsString` and `JsArray`: the JavaScript built-ins the components call, with
  their own semantics. These include `includes`, `replace`, `split(c)[0]`,
  `trim`, `padStart`, stable `sort`, `slice` and `reduce`.
- `Wrappers`: `Option`.

The filtering hooks `useFilteredCandidates`, `useFilterOptions` and
`useAggregatedStats`, and the helper `getShortPartyName`, live in
`src/hooks/useElectionData`. That file is not part of this model. Their results
are parameters here: the structured-filter result, an `aggregate` function, and
a `shortPartyName` function. The synonym tables from `src/data/mappings` are
parameters too, as entry lists.

## Model

| member | source | states |
|---|---|---|
| Election.NoFilters | src/pages/Index.tsx:37-46 | The initial selection has all eight fields null |
| Election.Set | src/components/filters/FilterPanel.tsx:51-54 | The object spread with one key sets that key and copies every other field |
| Election.FilterStateExtensional | src/components/filters/FilterPanel.tsx:51-54 | Two selections that agree on all eight keys are equal |
| Election.Lookup | src/components/candidates/CandidateCard.tsx:24 | A record lookup is undefined exactly when the key is absent, and otherwise returns the value of an entry with that key |
| Election.LookupEntry | src/components/candidates/CandidateCard.tsx:12-20 | In a record with distinct keys, the lookup of an entry's key returns that entry's value |
| Election.PhotoUrlInjective | src/components/Tranding/TrandingBattles.tsx:26 | Different candidate IDs give different photo URLs |
| CandidatesPage.SearchTerms | src/pages/CandidatesPage.tsx:48-49 | The term list is never empty, and its first term is the lowercased query |
| CandidatesPage.SearchTermsComplete | src/pages/CandidatesPage.tsx:48-57 | A string is a term iff it is the query, or the Nepali name of a district or party entry whose English key contains the query |
| CandidatesPage.ExpansionsMembership | src/pages/CandidatesPage.tsx:51-57 | One table contributes a name iff some entry whose key contains the query maps to it |
| CandidatesPage.ExpansionsInOrder | src/pages/CandidatesPage.tsx:51-57 | A table's contributed names are the names of a subsequence of its entries, so they keep map order |
| CandidatesPage.BuildSearchTerms | src/pages/CandidatesPage.tsx:48-57 | The two `push` loops build exactly the query, then the district expansions, then the party expansions |
| CandidatesPage.BlankQueryKeepsAll | src/pages/CandidatesPage.tsx:47 | An empty or whitespace-only query returns the structured-filter result unchanged |
| CandidatesPage.SearchKeepsMatches | src/pages/CandidatesPage.tsx:46-67 | The result is an order-preserving subsequence. For a non-blank query a candidate is kept iff a term occurs in its lowercased name, district or party. The first term is the untrimmed lowercased query |
| CandidatesPage.SearchExtendsLandingSearch | src/pages/CandidatesPage.tsx:59-66 | Every candidate that the landing page's search keeps, this page's search keeps too |
| CandidatesPage.PaginationSpec | src/pages/CandidatesPage.tsx:69-74 | The shown cards are the first min(24·page, n). `hasMore` holds iff 24·page < n |
| CandidatesPage.PaginatedMonotone | src/pages/CandidatesPage.tsx:69-72 | A later page's cards extend an earlier page's cards |
| CandidatesPage.LastPage | src/pages/CandidatesPage.tsx:69-74 | Once 24·page ≥ n the whole list shows and "load more" is hidden |
| CandidatesPage.PageState.constructor | src/pages/CandidatesPage.tsx:21-33 | The page starts with no filters, an empty query and page 1 |
| CandidatesPage.PageState.LoadMore | src/pages/CandidatesPage.tsx:81-83 | `page` grows by exactly one, nothing else changes, and the shown prefix never shrinks |
| CandidatesPage.PageState.HandleFilterChange | src/pages/CandidatesPage.tsx:85-88 | The new filters are stored and `page` resets to 1 |
| CandidatesPage.PageState.EditQuery | src/pages/CandidatesPage.tsx:112-115 | The typed text is stored and `page` resets to 1 |
| CandidatesPage.PageState.ClearSearch | src/pages/CandidatesPage.tsx:163-165 | "Clear search" empties the query and leaves the page counter as it was |
| IndexPage.FinalCandidatesSpec | src/pages/Index.tsx:61-69 | A blank query leaves the list unchanged. Otherwise the result keeps, in order, exactly the candidates whose lowercased name or district contains the lowercased query |
| IndexPage.KeyCountDistinct | src/pages/Index.tsx:108-122 | Restates the record invariant: with distinct keys, a stat card's count is the number of entries and no key is listed twice |
| IndexPage.HeaderIgnoresQuery | src/pages/Index.tsx:246-270 | The header count and the "see all" button do not depend on the query. The button shows iff more than six candidates pass the filters |
| IndexPage.PreviewIsPrefix | src/pages/Index.tsx:75-77 | The preview is the first min(6, n) searched candidates |
| IndexPage.StatsFollowSearch | src/pages/Index.tsx:71-315 | The cards and all four charts (party, qualification, gender, province) are computed from the stats of the searched list. The party chart has min(7, parties) bars and the province chart one bar per province. A blank query aggregates the filtered list itself |
| FilterPanel.ClearFilters | src/components/filters/FilterPanel.tsx:37-48 | "Clear all" emits all eight fields null, whatever the input |
| FilterPanel.UpdateFilter | src/components/filters/FilterPanel.tsx:50-55 | Field `k` becomes the value, with `"all"` stored as null. Every other field is unchanged |
| FilterPanel.UpdateFilterWithCurrent | src/components/filters/FilterPanel.tsx:50-55 | Re-storing a field's current value changes nothing |
| FilterPanel.UpdateFilterTwice | src/components/filters/FilterPanel.tsx:50-55 | The last update of a field wins, and updates of different fields commute |
| FilterPanel.UpdateFilterAllClears | src/components/filters/FilterPanel.tsx:53 | Choosing `"all"` is the same update as clearing the field |
| FilterPanel.GetKeywords | src/components/filters/FilterPanel.tsx:57-61 | The keyword list is no longer than the table |
| FilterPanel.GetKeywordsMembership | src/components/filters/FilterPanel.tsx:57-61 | A key is returned iff some entry maps it to the value |
| FilterPanel.GetKeywordsInOrder | src/components/filters/FilterPanel.tsx:57-61 | The keys are returned in the table's entry order |
| FilterPanel.GetKeywordsEmpty | src/components/filters/FilterPanel.tsx:57-61 | The list is empty iff no entry maps to the value |
| FilterPanel.BuildOptions | src/components/filters/FilterPanel.tsx:63-79 | There is one option per input string, with label and value equal to that string and the string's synonyms as keywords |
| FilterPanel.OptionFoundBySynonym | src/components/filters/FilterPanel.tsx:63-79 | An option's search string contains every English key that maps to its value |
| FilterPanel.BuiltOptionLabel | src/components/filters/FilterPanel.tsx:63-79 | A selected value shows its own label iff it is one of the listed values |
| FilterPanel.OrNumber | src/components/filters/FilterPanel.tsx:185 | `field \|\| d` is the field when it is truthy, and the default otherwise |
| FilterPanel.AgeRangeDefaults | src/components/filters/FilterPanel.tsx:185-191 | Unset age bounds show as 25 and 70 |
| FilterPanel.OnAgeSlide | src/components/filters/FilterPanel.tsx:192-197 | `ageMin` is stored null iff min = 25, and `ageMax` null iff max = 70. All other fields are unchanged |
| FilterPanel.AgeSlideRoundTrip | src/components/filters/FilterPanel.tsx:185-197 | The stored bounds read back as the thumbs that were dropped |
| FilterPanel.ConstituencySelectValue | src/components/filters/FilterPanel.tsx:123 | The select shows `"all"` when the field is null, and otherwise the field's decimal text |
| FilterPanel.OnConstituencyChange | src/components/filters/FilterPanel.tsx:124 | `"all"` clears the field. An item's text is stored as the number it denotes. Other fields are unchanged |
| FilterPanel.ConstituencyRoundTrip | src/components/filters/FilterPanel.tsx:123-124 | Picking the item of constituency n, or `"all"`, selects that same item on the next render |
| FilterPanel.SelectValue | src/components/filters/FilterPanel.tsx:149 | A plain select shows `"all"` for a falsy field, and otherwise the field's text |
| FilterPanel.OnSelectChange | src/components/filters/FilterPanel.tsx:150 | A picked item is stored, or cleared if it is `"all"`. Nothing else changes |
| FilterPanel.SelectRoundTrip | src/components/filters/FilterPanel.tsx:148-150 | A picked item, `"all"` included, is the item the select shows next |
| FilterPanel.ComboSelectToggles | src/components/filters/FilterPanel.tsx:106-145 | Through a combobox: choosing the selected option clears the field, choosing another stores it, and choosing twice toggles back. Other fields are untouched |
| Combobox.FindIndex | src/components/ui/combobox.tsx:45 | `find` returns the first option with the value, or none when no option has it |
| Combobox.SelectedLabel | src/components/ui/combobox.tsx:43-46 | The label is null for a null value. Otherwise it is the label of the first option with that value, and absent iff no option has it |
| Combobox.TriggerText | src/components/ui/combobox.tsx:65 | The trigger shows the selected label whenever it is present and non-empty. Otherwise it shows the placeholder |
| Combobox.TriggerShowsLabel | src/components/ui/combobox.tsx:43-65 | Selecting a value shows the non-empty label of the first option carrying that value |
| Combobox.TriggerShowsPlaceholder | src/components/ui/combobox.tsx:43-65 | A null value, or a value no option carries, shows the placeholder |
| Combobox.SearchValue | src/components/ui/combobox.tsx:87 | The search string starts with the label and a space |
| Combobox.SearchValueIncludes | src/components/ui/combobox.tsx:87 | The search string contains the label and every keyword |
| Combobox.ToggledValue | src/components/ui/combobox.tsx:89 | Choosing the checked option emits null. Choosing any other emits its value |
| Combobox.ToggleFlipsCheck | src/components/ui/combobox.tsx:89-101 | Choosing an option flips its own check mark and clears every option with a different value |
| Combobox.ToggleTwice | src/components/ui/combobox.tsx:89 | Choosing the same option twice restores the selection |
| Combobox.SelectedLabelAfterChoice | src/components/ui/combobox.tsx:43-46 | After a choice the trigger shows the first label for the chosen value, or nothing if the choice cleared the selection |
| Combobox.ComboboxState.constructor | src/components/ui/combobox.tsx:41 | The popover starts closed |
| Combobox.ComboboxState.SetOpen | src/components/ui/combobox.tsx:49 | `onOpenChange` sets the flag |
| Combobox.ComboboxState.Choose | src/components/ui/combobox.tsx:88-91 | Choosing emits the toggled value and always closes the popover |
| Countdown.NepaliDigitsAreConsecutive | src/components/ui/Countdown.tsx:12-15 | The table maps digit d to the Devanagari digit U+0966 + d |
| Countdown.NepaliDigit | src/components/ui/Countdown.tsx:16 | An ASCII digit becomes its Devanagari digit. Any other character is kept |
| Countdown.ToNepaliNum | src/components/ui/Countdown.tsx:11-17 | The transliteration keeps the length and maps each character on its own |
| Countdown.ToNepaliNumDigits | src/components/ui/Countdown.tsx:16 | A result character is a Devanagari digit iff it came from a digit of either script |
| Countdown.ToNepaliNumIdempotent | src/components/ui/Countdown.tsx:16 | Transliterating twice is the same as transliterating once |
| Countdown.AsciiDigit | src/components/ui/Countdown.tsx:12-15 | The inverse of the table on Devanagari digits, and the identity elsewhere |
| Countdown.FromNepali | src/components/ui/Countdown.tsx:16 | Reading back keeps the length and works per character |
| Countdown.FromNepaliToNepaliNum | src/components/ui/Countdown.tsx:16 | Text without Devanagari digits is recovered from its transliteration |
| Countdown.TotalSeconds | src/components/ui/Countdown.tsx:34 | The seconds are never negative. They are 0 iff less than a second remains, and otherwise the whole seconds of the difference |
| Countdown.Decompose | src/components/ui/Countdown.tsx:35-38 | hours < 24, minutes < 60 and seconds < 60, and days·86400 + hours·3600 + minutes·60 + seconds is the total |
| Countdown.DecomposeSums | src/components/ui/Countdown.tsx:35-38 | The four div/mod expressions add back up to the total |
| Countdown.DecomposeUnique | src/components/ui/Countdown.tsx:35-38 | A normalised split is the only one with its total |
| Countdown.TimeLeftAtTarget | src/components/ui/Countdown.tsx:34-38 | Once the target is less than a second away or past, every unit reads zero |
| Countdown.TimeLeftBeforeTarget | src/components/ui/Countdown.tsx:34-38 | Before the target, the units add up to the whole seconds remaining |
| Countdown.PaddedDigits | src/components/ui/Countdown.tsx:46 | The padded text is decimal digits, at least two of them (exactly two below 100), denoting the value |
| Countdown.FromNepaliOfDigits | src/components/ui/Countdown.tsx:46 | Transliterated decimal text is all Devanagari digits and reads back to the same digits |
| Countdown.UnitTextLength | src/components/ui/Countdown.tsx:46 | Each unit shows at least two characters, exactly two below 100 |
| Countdown.UnitTextReadsBack | src/components/ui/Countdown.tsx:46 | Each unit is all Devanagari digits and reads back as its value |
| Charts.SortedItems | src/components/charts/QualificationPieChart.tsx:40-45 | Sorting gives a permutation, in descending order, with ties in entry order, the same total and no repeated item |
| Charts.CycleColorSame | src/components/charts/PartyBarChart.tsx:115 | With distinct palette colours, two positions share a colour iff they are congruent modulo the palette size |
| PartyBarChart.Items | src/components/charts/PartyBarChart.tsx:46-51 | One item per entry, with the same name and count, and the party's short name |
| PartyBarChart.ChartDataLength | src/components/charts/PartyBarChart.tsx:42-53 | The chart has as many bars as `slice(0, maxItems)` leaves: min(maxItems, entries) for maxItems ≥ 0, with a default of 7 |
| PartyBarChart.ChartDataIsTopN | src/components/charts/PartyBarChart.tsx:52-53 | The bars are in descending order and are a prefix of the ranking. Every shown count is at least every hidden count |
| PartyBarChart.ChartDataFromEntries | src/components/charts/PartyBarChart.tsx:46-53 | Each bar is an entry of the record with its short name, and no party appears twice |
| PartyBarChart.BarColorsCycle | src/components/charts/PartyBarChart.tsx:27-36 | Two bars share a colour iff their positions agree modulo 8 |
| QualificationPieChart.Items | src/components/charts/QualificationPieChart.tsx:40-45 | One item per entry, with the same name and count |
| QualificationPieChart.ChartDataSortsEntries | src/components/charts/QualificationPieChart.tsx:40-46 | The slices are a permutation of the entries, in descending order, with ties in entry order |
| QualificationPieChart.TotalIsSumOfCounts | src/components/charts/QualificationPieChart.tsx:48 | The centre total is the sum of the record's counts |
| QualificationPieChart.SliceColorsCycle | src/components/charts/QualificationPieChart.tsx:23-31 | Two slices share a colour iff their positions agree modulo 7 |
| ProvinceChart.ShortName | src/components/charts/ProvinceChart.tsx:44 | The first occurrence of " प्रदेश" is cut out, and a name without it is unchanged |
| ProvinceChart.ShortNameOfProvince | src/components/charts/ProvinceChart.tsx:44 | A full province name loses exactly the word |
| ProvinceChart.Items | src/components/charts/ProvinceChart.tsx:41-46 | One item per entry, with the same name and count, and the short name |
| ProvinceChart.ChartDataSortsEntries | src/components/charts/ProvinceChart.tsx:40-48 | The bars are a permutation of the entries, in descending order, with ties in entry order |
| ProvinceChart.BarColorsCycle | src/components/charts/ProvinceChart.tsx:24-32 | Two bars share a colour iff their positions agree modulo 7 |
| GenderChart.ChartData | src/components/charts/GenderChart.tsx:32-37 | One item per entry, in entry order, with the same name and count |
| GenderChart.TotalIsSumOfCounts | src/components/charts/GenderChart.tsx:39 | The legend's denominator is the sum of the counts |
| GenderChart.BarColor | src/components/charts/GenderChart.tsx:21-25 | The three listed genders get their colours, and any other name (other than an inherited object property) gets "#0891b2" |
| GenderChart.GenderColorKeys | src/components/charts/GenderChart.tsx:21-25 | The colour table's keys are exactly the three listed genders |
| GenderChart.BarColorIsHex | src/components/charts/GenderChart.tsx:91 | Every bar is filled with a valid `#rrggbb` colour, for lookups that see the table's own keys |
| GenderChart.LegendGlowAsWrittenUnlisted | src/components/charts/GenderChart.tsx:107 | As written, an unlisted name's glow is "0 0 10px undefined44", which is no colour |
| GenderChart.LegendGlowIsDotColor | src/components/charts/GenderChart.tsx:106-107 | With the fallback, the glow is always the dot's colour plus an alpha byte, and agrees with the code on the listed names |
| TrendingBattles.DisplayTruncation | src/components/Tranding/TrandingBattles.tsx:31-32 | The shown name is a prefix without spaces, ending just before the first space, and the whole name if there is none. The same holds for the party and `(` |
| TrendingBattles.DisplayTruncationIdempotent | src/components/Tranding/TrandingBattles.tsx:31-32 | Truncating a truncated text changes nothing |
| TrendingBattles.BattleSymmetric | src/components/Tranding/TrandingBattles.tsx:23-51 | Both sides follow the same rule, so swapping the candidates swaps the sides. Different IDs show different photos |
| CandidateCard.PartyColor | src/components/candidates/CandidateCard.tsx:24 | An unlisted party gets the default classes |
| CandidateCard.PartyColorListed | src/components/candidates/CandidateCard.tsx:12-24 | Each of the seven listed parties gets its own classes, never the default |
| CandidateCard.QualificationText | src/components/candidates/CandidateCard.tsx:84 | The qualification line is never empty. It is the record's text when there is one, and "साधारण लेखपढ" otherwise |
| CandidateCard.LocationLabelParts | src/components/candidates/CandidateCard.tsx:76 | The location line is the district, " - ", and digits that read back as the constituency number |
| CandidateCard.AgeLabelParts | src/components/candidates/CandidateCard.tsx:80 | The age line is digits reading back as the age, then " वर्ष". Equal lines mean equal ages |
| CandidateCard.Activates | src/components/candidates/CandidateCard.tsx:32-35 | Nothing runs without a handler |
| CandidateCard.EnterActsAsClick | src/components/candidates/CandidateCard.tsx:35 | Enter does what a click does, and no other key does anything |
| CandidateDetail.Rows | src/components/candidates/CandidateDetail.tsx:37-66 | Eight rows with the fixed labels, in order |
| CandidateDetail.Details | src/components/candidates/CandidateDetail.tsx:33-66 | A missing candidate gives nothing. A present one gives eight rows |
| CandidateDetail.DetailLabelsDistinct | src/components/candidates/CandidateDetail.tsx:37-66 | No two rows share a label |
| CandidateDetail.DetailsShowRecord | src/components/candidates/CandidateDetail.tsx:39-64 | Gender, party and district are shown verbatim. Institution, experience and address show their text, or "N/A" when missing or empty |
| CandidateDetail.OptionalRowsNotBlank | src/components/candidates/CandidateDetail.tsx:53-64 | The three optional rows are never blank |
| CandidateDetail.AgeRowReadsBack | src/components/candidates/CandidateDetail.tsx:38 | The age row is digits reading back as the age, then " Years" |
| CandidateDetail.QualificationRowBlank | src/components/candidates/CandidateDetail.tsx:48 | As written, an empty qualification leaves the dialog row blank while the card shows the fallback |
| CandidateDetail.DetailsWithFallback | src/components/candidates/CandidateDetail.tsx:33-66 | With the card's fallback: nothing for a missing candidate, and eight rows otherwise |
| CandidateDetail.DetailsWithFallbackAgreesWithCard | src/components/candidates/CandidateDetail.tsx:45-49 | With the fallback, the dialog and the card show the same non-empty qualification. Every other row is unchanged |

## Left out

- The hooks `useFilteredCandidates`, `useFilterOptions` and `useAggregatedStats`, and `getShortPartyName`, are not part of this model. Nor are the mapping tables and the candidate dataset. They enter as parameters, and no filtering, cascading or aggregation rule is assumed.
- Rendering is not modelled: JSX, Tailwind classes, recharts, Radix Select/Slider/Popover, the `Header`, `Layout` and `StatCard` components, and image `onError` hiding.
- The cmdk fuzzy matching of an item's search string is library behaviour. Only the search string itself is modelled.
- Countdown's clock and locale are not modelled: `setInterval`, `new Date()` and `toLocaleTimeString`. The millisecond difference is a parameter. The `title`/`subtitle` defaults and the transliterated clock line are not modelled.
- Floating-point percentages with `toFixed(1)` and every `toLocaleString` are left out.
- `ToLower` lowercases ASCII letters only. JavaScript's full Unicode case mapping is not modelled. Devanagari has no case.
- FilterPanel.OnConstituencyChange: requires its input to be `"all"` or a decimal digit string. The select only offers `"all"` and `constituency.toString()`. `parseInt` on any other text is not modelled.
- FilterPanel.AgeSlideRoundTrip: requires both thumbs to be non-zero. A stored 0 is falsy and reads back as the default. The slider never produces 0.
- CandidatesPage.Expansions: reads `MAP[enKey]` as the value of the entry whose key was tested. That is the same value whenever the table's keys are distinct, as an object's keys are.
- Election.Lookup: sees a record's own keys only. In JavaScript `GENDER_COLORS[name]` and `partyColorMap[name]` also find inherited `Object.prototype` names such as "constructor" or "toString", which are truthy and so skip the fallback. Those names are not modelled; no real party or gender name is one of them.
- Record enumeration order is the entry list's order. JavaScript's ordering of integer-like keys first is not modelled.
- The state that only toggles views is not modelled: `showFilters`, `selectedCandidate` and `detailOpen`.
- The commented-out battles block of `src/pages/Index.tsx` is not modelled.
- The tooltip and legend formatters of the charts are left out.
- Integers are unbounded. Counts, IDs and ages in the source are JavaScript numbers well inside the exact-integer range.

## Findings

| source | as written | input that shows it | evidently intended | confidence | as-written member | corrected member |
|---|---|---|---|---|---|---|
| src/components/charts/GenderChart.tsx:107 | The legend glow interpolates `GENDER_COLORS[item.name]` with no fallback | A gender name outside the three listed, such as "unknown", gives `0 0 10px undefined44` | The same `\|\| "#0891b2"` fallback as the dot on line 106, giving `0 0 10px #0891b244` | medium, not executed | GenderChart.LegendGlowAsWrittenUnlisted | GenderChart.LegendGlowIsDotColor |
| src/components/candidates/CandidateDetail.tsx:48 | The qualification row shows `QUALIFICATION` verbatim | A candidate with `QUALIFICATION == ""` gets a blank row, while the card (CandidateCard.tsx:84) shows "साधारण लेखपढ" | The card's fallback, as the other optional rows have "N/A" | medium, not executed | CandidateDetail.QualificationRowBlank | CandidateDetail.DetailsWithFallbackAgreesWithCard |
