/**
 * The filter panel's handlers. Each one builds a fresh `FilterState` from the
 * current one (`{ ...filters, [key]: value }`) and hands it to the parent; the
 * option lists of the three comboboxes carry the English synonym keys of each
 * localized value as search keywords.
 */
module FilterPanel {
  import opened Wrappers
  import opened JsString
  import opened JsArray
  import opened Election
  import opened Combobox

  /** The sentinel of the "all" entries of the selects. */
  const All := "all"

  /** The ends of the age slider; an end at its limit means "no bound". */
  const AgeFloor := 25
  const AgeCeiling := 70

  // ---------------------------------------------------------------------------
  // clearFilters, updateFilter
  // ---------------------------------------------------------------------------

  /** "Clear all": every field null, whatever the current selection. */
  function ClearFilters(f: FilterState): (r: FilterState)
    ensures forall k :: Get(r, k) == None
    ensures r == NoFilters()
  {
    NoFilters()
  }

  /** `updateFilter(key, value)`: field `k` becomes `value`, with `"all"` stored as null. */
  function UpdateFilter(f: FilterState, k: FilterKey, v: Option<Value>): (r: FilterState)
    ensures Get(r, k) == (if v == Some(Str(All)) then None else v)
    ensures forall k' :: k' != k ==> Get(r, k') == Get(f, k')
  {
    Set(f, k, if v == Some(Str(All)) then None else v)
  }

  /** Updating a field with what it already holds changes nothing. */
  lemma UpdateFilterWithCurrent(f: FilterState, k: FilterKey)
    requires Get(f, k) != Some(Str(All))
    ensures UpdateFilter(f, k, Get(f, k)) == f
  {
    FilterStateExtensional(UpdateFilter(f, k, Get(f, k)), f);
  }

  /** The last update of a field wins, and updates of different fields commute. */
  lemma UpdateFilterTwice(f: FilterState, k: FilterKey, j: FilterKey, v: Option<Value>, w: Option<Value>)
    ensures k == j ==> UpdateFilter(UpdateFilter(f, k, v), j, w) == UpdateFilter(f, j, w)
    ensures k != j ==> UpdateFilter(UpdateFilter(f, k, v), j, w) == UpdateFilter(UpdateFilter(f, j, w), k, v)
  {
    if k == j {
      FilterStateExtensional(UpdateFilter(UpdateFilter(f, k, v), j, w), UpdateFilter(f, j, w));
    } else {
      FilterStateExtensional(UpdateFilter(UpdateFilter(f, k, v), j, w), UpdateFilter(UpdateFilter(f, j, w), k, v));
    }
  }

  /** Choosing "all" and clearing the field are the same update. */
  lemma UpdateFilterAllClears(f: FilterState, k: FilterKey)
    ensures UpdateFilter(f, k, Some(Str(All))) == UpdateFilter(f, k, None)
  {
    FilterStateExtensional(UpdateFilter(f, k, Some(Str(All))), UpdateFilter(f, k, None));
  }

  // ---------------------------------------------------------------------------
  // getKeywords and the combobox option lists
  // ---------------------------------------------------------------------------

  /**
   * `getKeywords(value, map)`: the keys whose mapped value is `value`, in entry
   * order (`Object.entries(map).filter(([_, v]) => v === value).map(([k]) => k)`).
   */
  function GetKeywords(value: string, table: Entries<string>): (ks: seq<string>)
    ensures |ks| <= |table|
  {
    if table == [] then []
    else (if table[0].1 == value then [table[0].0] else []) + GetKeywords(value, table[1..])
  }

  /** A key is returned exactly when some entry maps it to the value. */
  lemma {:induction false} GetKeywordsMembership(value: string, table: Entries<string>, k: string)
    ensures k in GetKeywords(value, table) <==> (k, value) in table
  {
    if table != [] {
      GetKeywordsMembership(value, table[1..], k);
      assert table == [table[0]] + table[1..];
    }
  }

  /** The keys come in the order of the table's entries. */
  lemma {:induction false} GetKeywordsInOrder(value: string, table: Entries<string>)
    ensures IsSubsequence(GetKeywords(value, table), Keys(table))
  {
    if table != [] {
      GetKeywordsInOrder(value, table[1..]);
      assert Keys(table) == [table[0].0] + Keys(table[1..]);
      if table[0].1 == value {
        assert GetKeywords(value, table) == [table[0].0] + GetKeywords(value, table[1..]);
      } else {
        assert GetKeywords(value, table) == GetKeywords(value, table[1..]);
        if GetKeywords(value, table) != [] {
          SubsequenceOfTail(GetKeywords(value, table), Keys(table));
        }
      }
    }
  }

  /** No synonyms exactly when no entry maps to the value. */
  lemma GetKeywordsEmpty(value: string, table: Entries<string>)
    ensures GetKeywords(value, table) == [] <==> forall i :: 0 <= i < |table| ==> table[i].1 != value
  {
    if GetKeywords(value, table) == [] {
      forall i | 0 <= i < |table| ensures table[i].1 != value {
        GetKeywordsMembership(value, table, table[i].0);
        assert table[i] in table;
      }
    } else {
      var k := GetKeywords(value, table)[0];
      GetKeywordsMembership(value, table, k);
    }
  }

  /** The option for one localized value: label and value are the string itself. */
  function OptionFor(value: string, table: Entries<string>): ComboOption {
    ComboOption(Str(value), value, Some(GetKeywords(value, table)))
  }

  /** `options.provinces.map(p => ({ label: p, value: p, keywords: getKeywords(p, MAP) }))`. */
  function BuildOptions(values: seq<string>, table: Entries<string>): (opts: seq<ComboOption>)
    ensures |opts| == |values|
    ensures forall i :: 0 <= i < |values| ==>
      opts[i].value == Str(values[i]) && opts[i].labelText == values[i]
      && opts[i].keywords == Some(GetKeywords(values[i], table))
  {
    seq(|values|, i requires 0 <= i < |values| => OptionFor(values[i], table))
  }

  /** Typing an English key finds every option whose localized value it maps to. */
  lemma OptionFoundBySynonym(values: seq<string>, table: Entries<string>, i: int, k: string)
    requires 0 <= i < |values| && (k, values[i]) in table
    ensures Includes(SearchValue(BuildOptions(values, table)[i]), k)
  {
    var o := BuildOptions(values, table)[i];
    GetKeywordsMembership(values[i], table, k);
    var ks := GetKeywords(values[i], table);
    var j :| 0 <= j < |ks| && ks[j] == k;
    SearchValueIncludes(o);
  }

  /** A selected value shows as its own label exactly when it is one of the listed values. */
  lemma BuiltOptionLabel(values: seq<string>, table: Entries<string>, v: string)
    ensures SelectedLabel(BuildOptions(values, table), Some(Str(v))) == (if v in values then Some(v) else None)
  {
    var opts := BuildOptions(values, table);
    if v in values {
      var i :| 0 <= i < |values| && values[i] == v;
      assert opts[i].value == Str(v);
    }
  }

  // ---------------------------------------------------------------------------
  // The age slider
  // ---------------------------------------------------------------------------

  /** JavaScript truthiness of a field: set, and neither `""` nor `0`. */
  predicate Truthy(v: Option<Value>) {
    v.Some? && match v.value
      case Str(s) => s != ""
      case Num(n) => n != 0
  }

  /** `field || d`: the field when truthy, otherwise the default number. */
  function OrNumber(v: Option<Value>, d: int): (r: Value)
    ensures !Truthy(v) ==> r == Num(d)
    ensures Truthy(v) ==> Some(r) == v
  {
    if Truthy(v) then v.value else Num(d)
  }

  /** The label and the slider thumbs: `[filters.ageMin || 25, filters.ageMax || 70]`. */
  function AgeRange(f: FilterState): (Value, Value) {
    (OrNumber(f.ageMin, AgeFloor), OrNumber(f.ageMax, AgeCeiling))
  }

  /** Unset bounds show as the slider's ends. */
  lemma AgeRangeDefaults(f: FilterState)
    ensures f.ageMin == None ==> AgeRange(f).0 == Num(AgeFloor)
    ensures f.ageMax == None ==> AgeRange(f).1 == Num(AgeCeiling)
  {
  }

  /** The slider's `onValueChange([min, max])`: an end at its limit is stored as null. */
  function OnAgeSlide(f: FilterState, min: int, max: int): (r: FilterState)
    ensures r.ageMin == None <==> min == AgeFloor
    ensures r.ageMax == None <==> max == AgeCeiling
    ensures r.ageMin != None ==> r.ageMin == Some(Num(min))
    ensures r.ageMax != None ==> r.ageMax == Some(Num(max))
    ensures forall k :: k != AgeMin && k != AgeMax ==> Get(r, k) == Get(f, k)
  {
    f.(ageMin := if min == AgeFloor then None else Some(Num(min)),
       ageMax := if max == AgeCeiling then None else Some(Num(max)))
  }

  /** The thumbs stay where they were dropped: the stored bounds read back as the same range. */
  lemma AgeSlideRoundTrip(f: FilterState, min: int, max: int)
    requires min != 0 && max != 0
    ensures AgeRange(OnAgeSlide(f, min, max)) == (Num(min), Num(max))
  {
  }

  // ---------------------------------------------------------------------------
  // The plain selects
  // ---------------------------------------------------------------------------

  /** `String(v)` of a stored value. */
  function ValueToString(v: Value): string {
    match v
    case Str(s) => s
    case Num(n) => IntToString(n)
  }

  /** The constituency select's value: `filters.constituency?.toString() || "all"`. */
  function ConstituencySelectValue(f: FilterState): (r: string)
    ensures f.constituency == None ==> r == All
    ensures r != All ==> f.constituency != None && r == ValueToString(f.constituency.value)
    ensures f.constituency.Some? && ValueToString(f.constituency.value) != "" ==>
      r == ValueToString(f.constituency.value)
  {
    if f.constituency == None then All
    else
      var t := ValueToString(f.constituency.value);
      if t == "" then All else t
  }

  /**
   * `onValueChange` of the constituency select: `"all"` clears the field,
   * any other item (the decimal text of a constituency number) stores that number.
   */
  function OnConstituencyChange(f: FilterState, v: string): (r: FilterState)
    requires v == All || IsDigits(v)
    ensures v == All ==> r.constituency == None
    ensures v != All ==> r.constituency == Some(Num(DigitsValue(v)))
    ensures forall k :: k != Constituency ==> Get(r, k) == Get(f, k)
  {
    UpdateFilter(f, Constituency, if v == All then Some(Str(All)) else Some(Num(DigitsValue(v))))
  }

  /** Picking the item of constituency `n` selects that item again on the next render. */
  lemma ConstituencyRoundTrip(f: FilterState, n: nat)
    ensures ConstituencySelectValue(OnConstituencyChange(f, NatToString(n))) == NatToString(n)
    ensures ConstituencySelectValue(OnConstituencyChange(f, All)) == All
  {
    DigitsValueOfNatToString(n);
    assert NatToString(n) != All by {
      assert IsDigit(NatToString(n)[0]);
    }
  }

  /** The qualification and gender selects' value: `filters[key] || "all"`. */
  function SelectValue(f: FilterState, k: FilterKey): (r: string)
    ensures !Truthy(Get(f, k)) ==> r == All
    ensures Truthy(Get(f, k)) ==> r == ValueToString(Get(f, k).value)
  {
    if Truthy(Get(f, k)) then ValueToString(Get(f, k).value) else All
  }

  /** `onValueChange={(v) => updateFilter(key, v)}` of a plain select. */
  function OnSelectChange(f: FilterState, k: FilterKey, v: string): (r: FilterState)
    ensures Get(r, k) == (if v == All then None else Some(Str(v)))
    ensures forall k' :: k' != k ==> Get(r, k') == Get(f, k')
  {
    UpdateFilter(f, k, Some(Str(v)))
  }

  /** A picked item, "all" included, is the item the select shows next. */
  lemma SelectRoundTrip(f: FilterState, k: FilterKey, v: string)
    requires v != ""
    ensures SelectValue(OnSelectChange(f, k, v), k) == v
  {
  }

  // ---------------------------------------------------------------------------
  // A combobox wired to a field
  // ---------------------------------------------------------------------------

  /** `onSelect={(v) => updateFilter(key, v)}` when option `o` is chosen. */
  function OnComboSelect(f: FilterState, k: FilterKey, o: ComboOption): FilterState {
    UpdateFilter(f, k, ToggledValue(o, Get(f, k)))
  }

  /**
   * Choosing the selected option clears the field; choosing another stores its
   * value; choosing it again clears it; no other field changes.
   */
  lemma ComboSelectToggles(f: FilterState, k: FilterKey, o: ComboOption)
    requires o.value != Str(All)
    ensures Get(f, k) == Some(o.value) ==> Get(OnComboSelect(f, k, o), k) == None
    ensures Get(f, k) != Some(o.value) ==> Get(OnComboSelect(f, k, o), k) == Some(o.value)
    ensures Get(OnComboSelect(OnComboSelect(f, k, o), k, o), k) ==
      (if Get(f, k) == Some(o.value) then Some(o.value) else None)
    ensures forall k' :: k' != k ==> Get(OnComboSelect(f, k, o), k') == Get(f, k')
  {
  }
}
