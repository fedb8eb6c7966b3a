/**
 * The searchable select used by the filter panel: the trigger shows the label
 * of the selected option, each item carries a search string of its label and
 * keywords, choosing an item toggles the selection and closes the popover, and
 * the check mark marks the item whose value is the current one.
 */
module Combobox {
  import opened Wrappers
  import opened JsString
  import opened Election

  /** One entry of the `options` prop (`labelText` is its `label`); `keywords` may be absent. */
  datatype ComboOption = ComboOption(value: Value, labelText: string, keywords: Option<seq<string>>)

  /** The index of the first option whose value is `v` (`===`), or -1. */
  function FindIndex(options: seq<ComboOption>, v: Value): (r: int)
    ensures -1 <= r < |options|
    ensures r == -1 <==> forall i :: 0 <= i < |options| ==> options[i].value != v
    ensures r >= 0 ==> options[r].value == v && forall j :: 0 <= j < r ==> options[j].value != v
  {
    if options == [] then -1
    else if options[0].value == v then 0
    else
      var r := FindIndex(options[1..], v);
      assert forall j :: 0 < j < |options| ==> options[j] == options[1..][j - 1];
      if r == -1 then -1 else r + 1
  }

  /**
   * `selectedLabel`: nothing for a `null` value, otherwise the label of the first
   * option with that value, or nothing (`undefined`) when no option has it.
   */
  function SelectedLabel(options: seq<ComboOption>, value: Option<Value>): (r: Option<string>)
    ensures value == None ==> r == None
    ensures value != None ==>
      (r == None <==> forall i :: 0 <= i < |options| ==> options[i].value != value.value)
    ensures r != None ==> exists i :: 0 <= i < |options| && options[i].value == value.value
                                  && options[i].labelText == r.value
                                  && forall j :: 0 <= j < i ==> options[j].value != value.value
  {
    if value == None then None
    else
      var i := FindIndex(options, value.value);
      if i == -1 then None else Some(options[i].labelText)
  }

  /** The trigger's text: `selectedLabel || placeholder`. */
  function TriggerText(options: seq<ComboOption>, value: Option<Value>, placeholder: string): (r: string)
    ensures r == placeholder || SelectedLabel(options, value) == Some(r)
    ensures r != placeholder ==> r != ""
    ensures var l := SelectedLabel(options, value); l.Some? && l.value != "" ==> r == l.value
  {
    var l := SelectedLabel(options, value);
    if l.Some? && l.value != "" then l.value else placeholder
  }

  /** A selected value shows the label of the first option carrying it, when that label is non-empty. */
  lemma TriggerShowsLabel(options: seq<ComboOption>, v: Value, i: int, placeholder: string)
    requires 0 <= i < |options| && options[i].value == v && options[i].labelText != ""
    requires forall j :: 0 <= j < i ==> options[j].value != v
    ensures TriggerText(options, Some(v), placeholder) == options[i].labelText
  {
  }

  /** A null value, or one that no option carries, shows the placeholder. */
  lemma TriggerShowsPlaceholder(options: seq<ComboOption>, value: Option<Value>, placeholder: string)
    requires value == None || forall j :: 0 <= j < |options| ==> options[j].value != value.value
    ensures TriggerText(options, value, placeholder) == placeholder
  {
  }

  /** An item's search string: `${option.label} ${option.keywords?.join(" ") || ""}`. */
  function SearchValue(o: ComboOption): (r: string)
    ensures |r| > |o.labelText| && r[..|o.labelText| + 1] == o.labelText + " "
  {
    var kw := if o.keywords.Some? then Join(o.keywords.value, " ") else "";
    o.labelText + " " + kw
  }

  /** The search string contains the label and every keyword, so typing any of them finds the item. */
  lemma SearchValueIncludes(o: ComboOption)
    ensures Includes(SearchValue(o), o.labelText)
    ensures o.keywords.Some? ==>
      forall k :: 0 <= k < |o.keywords.value| ==> Includes(SearchValue(o), o.keywords.value[k])
  {
    var kw := if o.keywords.Some? then Join(o.keywords.value, " ") else "";
    assert SearchValue(o) == o.labelText + " " + kw;
    assert OccursAt(o.labelText, o.labelText, 0);
    OccursInContext([], o.labelText, " " + kw, o.labelText, 0);
    assert [] + o.labelText + (" " + kw) == SearchValue(o);
    IncludesIff(SearchValue(o), o.labelText, 0);
    if o.keywords.Some? {
      forall k | 0 <= k < |o.keywords.value| ensures Includes(SearchValue(o), o.keywords.value[k]) {
        JoinIncludesParts(o.keywords.value, " ", k);
        var p := IndexOf(kw, o.keywords.value[k]);
        IncludesIff(kw, o.keywords.value[k], p);
        OccursInContext(o.labelText + " ", kw, [], o.keywords.value[k], p);
        assert o.labelText + " " + kw + [] == SearchValue(o);
        IncludesIff(SearchValue(o), o.keywords.value[k], |o.labelText + " "| + p);
      }
    }
  }

  /** The check mark of option `o` is visible: `value === option.value`. */
  predicate ShowsCheck(o: ComboOption, value: Option<Value>) {
    value == Some(o.value)
  }

  /** What `onSelect` receives when `o` is chosen: `option.value === value ? null : option.value`. */
  function ToggledValue(o: ComboOption, value: Option<Value>): (r: Option<Value>)
    ensures r == None <==> ShowsCheck(o, value)
    ensures r != None ==> r == Some(o.value)
  {
    if value == Some(o.value) then None else Some(o.value)
  }

  /**
   * After choosing `o`, an option is checked exactly when it has `o`'s value
   * and `o` was not checked before: choosing flips `o`'s mark and clears every other.
   */
  lemma ToggleFlipsCheck(o: ComboOption, other: ComboOption, value: Option<Value>)
    ensures ShowsCheck(o, ToggledValue(o, value)) <==> !ShowsCheck(o, value)
    ensures ShowsCheck(other, ToggledValue(o, value)) <==>
      other.value == o.value && !ShowsCheck(o, value)
  {
  }

  /** Choosing the same option twice from nothing, or from itself, restores the selection. */
  lemma ToggleTwice(o: ComboOption, value: Option<Value>)
    requires value == None || ShowsCheck(o, value)
    ensures ToggledValue(o, ToggledValue(o, value)) == value
  {
  }

  /**
   * After choosing option `i`, the trigger shows the label of the first option
   * with its value (its own label when no earlier option shares it), or nothing
   * when the choice cleared the selection.
   */
  lemma SelectedLabelAfterChoice(options: seq<ComboOption>, i: int, value: Option<Value>)
    requires 0 <= i < |options|
    ensures var after := SelectedLabel(options, ToggledValue(options[i], value));
      && (ShowsCheck(options[i], value) ==> after == None)
      && (!ShowsCheck(options[i], value) ==>
            after == Some(options[FindIndex(options, options[i].value)].labelText))
      && (!ShowsCheck(options[i], value) && (forall j :: 0 <= j < i ==> options[j].value != options[i].value) ==>
            after == Some(options[i].labelText))
  {
    var k := FindIndex(options, options[i].value);
    if !ShowsCheck(options[i], value) && (forall j :: 0 <= j < i ==> options[j].value != options[i].value) {
      assert k == i;
    }
  }

  /** The popover's open flag, the component's only state. */
  class ComboboxState {
    var open: bool

    /** `useState(false)`: the popover starts closed. */
    constructor()
      ensures !open
    {
      open := false;
    }

    /** `onOpenChange={setOpen}`: the trigger or an outside click sets the flag. */
    method SetOpen(b: bool)
      modifies this
      ensures open == b
    {
      open := b;
    }

    /**
     * An item's `onSelect`: emits the toggled value to the parent and closes
     * the popover, whatever its state.
     */
    method Choose(o: ComboOption, value: Option<Value>) returns (emitted: Option<Value>)
      modifies this
      ensures !open
      ensures emitted == ToggledValue(o, value)
      ensures emitted == None <==> ShowsCheck(o, value)
    {
      emitted := if value == Some(o.value) then None else Some(o.value);
      open := false;
    }
  }
}
