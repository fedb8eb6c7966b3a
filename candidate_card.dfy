/**
 * The candidate card of the lists: a party badge coloured by a fixed table,
 * the location and age lines, the qualification with a fallback, and a click
 * or Enter key that opens the detail view.
 */
module CandidateCard {
  import opened Wrappers
  import opened JsString
  import opened Election

  /** `partyColorMap`: the badge classes of the seven parties it lists. */
  const PartyColorMap: Entries<string> := [
    ("नेपाली काँग्रेस", "bg-green-500/10 text-green-400 border-green-500/20"),
    ("नेपाल कम्युनिष्ट पार्टी (एकीकृत मार्क्सवादी लेनिनवादी)", "bg-red-500/10 text-red-400 border-red-500/20"),
    ("नेपाल कम्युनिष्ट पार्टी (माओवादी केन्द्र)", "bg-rose-500/10 text-rose-400 border-rose-500/20"),
    ("राष्ट्रिय स्वतन्त्र पार्टी", "bg-blue-500/10 text-blue-400 border-blue-500/20"),
    ("राष्ट्रिय प्रजातन्त्र पार्टी", "bg-purple-500/10 text-purple-400 border-purple-500/20"),
    ("जनता समाजवादी पार्टी, नेपाल", "bg-emerald-500/10 text-emerald-400 border-emerald-500/20"),
    ("स्वतन्त्र", "bg-cyan-500/10 text-cyan-400 border-cyan-500/20")
  ]

  /** The badge classes of every other party. */
  const DefaultPartyColor := "bg-cyan-900/20 text-cyan-300 border-cyan-800"

  /** `partyColorMap[PoliticalPartyName] || "bg-cyan-900/20 ..."`. */
  function PartyColor(party: string): (r: string)
    ensures !HasKey(PartyColorMap, party) ==> r == DefaultPartyColor
  {
    StrOr(Lookup(PartyColorMap, party), DefaultPartyColor)
  }

  /** Each listed party gets its own classes from the table. */
  lemma PartyColorListed(i: int)
    requires 0 <= i < |PartyColorMap|
    ensures PartyColor(PartyColorMap[i].0) == PartyColorMap[i].1
    ensures PartyColor(PartyColorMap[i].0) != DefaultPartyColor
  {
    assert DistinctKeys(PartyColorMap);
    LookupEntry(PartyColorMap, i);
  }

  /** The line shown when `QUALIFICATION` is empty. */
  const QualificationFallback := "साधारण लेखपढ"

  /** `QUALIFICATION || "साधारण लेखपढ"`: never empty, and the record's text whenever it has one. */
  function QualificationText(c: Candidate): (r: string)
    ensures r != ""
    ensures c.QUALIFICATION != "" ==> r == c.QUALIFICATION
    ensures c.QUALIFICATION == "" ==> r == QualificationFallback
  {
    StrOr(Some(c.QUALIFICATION), QualificationFallback)
  }

  /** `${DistrictName} - ${SCConstID}`. */
  function LocationLabel(c: Candidate): string {
    c.DistrictName + " - " + IntToString(c.SCConstID)
  }

  /** The location line starts with the district and ends with the constituency number, which reads back. */
  lemma LocationLabelParts(c: Candidate)
    requires c.SCConstID >= 0
    ensures var l := LocationLabel(c);
      && l[..|c.DistrictName|] == c.DistrictName
      && l[|c.DistrictName|..|c.DistrictName| + 3] == " - "
      && IsDigits(l[|c.DistrictName| + 3..])
      && DigitsValue(l[|c.DistrictName| + 3..]) == c.SCConstID
  {
    var l := LocationLabel(c);
    assert l[|c.DistrictName| + 3..] == NatToString(c.SCConstID);
    DigitsValueOfNatToString(c.SCConstID);
  }

  /** The unit after the age on the card. */
  const AgeUnit := " वर्ष"

  /** `${AGE_YR} वर्ष`. */
  function AgeLabel(c: Candidate): string {
    IntToString(c.AGE_YR) + AgeUnit
  }

  /** The age line is the age's digits followed by the unit, and different ages read differently. */
  lemma AgeLabelParts(c: Candidate, d: Candidate)
    requires c.AGE_YR >= 0
    ensures var a := AgeLabel(c);
      && |a| > |AgeUnit|
      && IsDigits(a[..|a| - |AgeUnit|])
      && DigitsValue(a[..|a| - |AgeUnit|]) == c.AGE_YR
      && a[|a| - |AgeUnit|..] == AgeUnit
    ensures AgeLabel(c) == AgeLabel(d) ==> c.AGE_YR == d.AGE_YR
  {
    var a := AgeLabel(c);
    assert a[..|a| - |AgeUnit|] == NatToString(c.AGE_YR);
    DigitsValueOfNatToString(c.AGE_YR);
    if AgeLabel(c) == AgeLabel(d) {
      var b := AgeLabel(d);
      assert b[..|b| - |AgeUnit|] == IntToString(d.AGE_YR);
      IntToStringInjective(c.AGE_YR, d.AGE_YR);
    }
  }

  /** What reaches the card: a click, or a key press with its `key`. */
  datatype Interaction = Click | KeyDown(key: string)

  /**
   * Whether the card's `onClick` runs: a click, or `e.key === "Enter" && onClick?.()`;
   * nothing runs when the card has no handler.
   */
  function Activates(i: Interaction, hasHandler: bool): (r: bool)
    ensures r ==> hasHandler
  {
    hasHandler && match i
      case Click => true
      case KeyDown(key) => key == "Enter"
  }

  /** The Enter key does what a click does, and no other key does anything. */
  lemma EnterActsAsClick(hasHandler: bool, key: string)
    ensures Activates(KeyDown("Enter"), hasHandler) == Activates(Click, hasHandler)
    ensures key != "Enter" ==> !Activates(KeyDown(key), hasHandler)
  {
  }
}
