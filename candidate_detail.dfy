/**
 * The candidate detail dialog: nothing for a missing candidate, otherwise a
 * fixed list of eight labelled rows, with `"N/A"` for the three biographical
 * fields when they are missing or empty.
 */
module CandidateDetail {
  import opened Wrappers
  import opened JsString
  import opened Election
  import CandidateCard

  /** One row of the dialog: its label and the text shown under it. */
  datatype DetailRow = DetailRow(title: string, text: string)

  /** The row labels, in display order. */
  const DetailLabels: seq<string> := [
    "उमेर (Age)",
    "लिङ्ग (Gender)",
    "पार्टी (Party)",
    "योग्यता (Qualification)",
    "शिक्षण संस्था (Institution)",
    "जिल्ला (District)",
    "अनुभव (Experience)",
    "ठेगाना (Address)"
  ]

  /** Row positions, named. */
  const AgeRow := 0
  const GenderRow := 1
  const PartyRow := 2
  const QualificationRow := 3
  const InstitutionRow := 4
  const DistrictRow := 5
  const ExperienceRow := 6
  const AddressRow := 7

  const NotAvailable := "N/A"

  /** `field || "N/A"`. */
  function OrNA(v: Option<string>): string {
    StrOr(v, NotAvailable)
  }

  /** The unit after the age in the dialog. */
  const YearsUnit := " Years"

  /** The eight rows for a candidate, with `qualification` as the qualification row's text. */
  function Rows(c: Candidate, qualification: string): (rows: seq<DetailRow>)
    ensures |rows| == |DetailLabels|
    ensures forall i :: 0 <= i < |rows| ==> rows[i].title == DetailLabels[i]
  {
    [
      DetailRow(DetailLabels[AgeRow], IntToString(c.AGE_YR) + YearsUnit),
      DetailRow(DetailLabels[GenderRow], c.Gender),
      DetailRow(DetailLabels[PartyRow], c.PoliticalPartyName),
      DetailRow(DetailLabels[QualificationRow], qualification),
      DetailRow(DetailLabels[InstitutionRow], OrNA(c.NAMEOFINST)),
      DetailRow(DetailLabels[DistrictRow], c.DistrictName),
      DetailRow(DetailLabels[ExperienceRow], OrNA(c.EXPERIENCE)),
      DetailRow(DetailLabels[AddressRow], OrNA(c.ADDRESS))
    ]
  }

  /**
   * `details` as written: `if (!candidate) return null`, otherwise the eight rows
   * with `QUALIFICATION` shown verbatim.
   */
  function Details(c: Option<Candidate>): (r: Option<seq<DetailRow>>)
    ensures r == None <==> c == None
    ensures r != None ==> |r.value| == 8
  {
    match c
    case None => None
    case Some(cand) => Some(Rows(cand, cand.QUALIFICATION))
  }

  /** No two rows share a label, so each field has exactly one place. */
  lemma DetailLabelsDistinct()
    ensures forall i, j :: 0 <= i < j < |DetailLabels| ==> DetailLabels[i] != DetailLabels[j]
  {
  }

  /**
   * The rows show the record: gender, party and district verbatim, and the
   * three optional fields as their text, or `"N/A"` when missing or empty.
   */
  lemma DetailsShowRecord(c: Candidate)
    ensures var rows := Details(Some(c)).value;
      && rows[GenderRow].text == c.Gender
      && rows[PartyRow].text == c.PoliticalPartyName
      && rows[DistrictRow].text == c.DistrictName
      && (c.NAMEOFINST.Some? && c.NAMEOFINST.value != "" ==> rows[InstitutionRow].text == c.NAMEOFINST.value)
      && (c.NAMEOFINST == None || c.NAMEOFINST.value == "" ==> rows[InstitutionRow].text == NotAvailable)
      && (c.EXPERIENCE.Some? && c.EXPERIENCE.value != "" ==> rows[ExperienceRow].text == c.EXPERIENCE.value)
      && (c.EXPERIENCE == None || c.EXPERIENCE.value == "" ==> rows[ExperienceRow].text == NotAvailable)
      && (c.ADDRESS.Some? && c.ADDRESS.value != "" ==> rows[AddressRow].text == c.ADDRESS.value)
      && (c.ADDRESS == None || c.ADDRESS.value == "" ==> rows[AddressRow].text == NotAvailable)
  {
  }

  /** The three optional rows are never blank. */
  lemma OptionalRowsNotBlank(c: Candidate)
    ensures var rows := Details(Some(c)).value;
      rows[InstitutionRow].text != "" && rows[ExperienceRow].text != "" && rows[AddressRow].text != ""
  {
  }

  /** The age row is the age's digits followed by `" Years"`, and reads back as the age. */
  lemma AgeRowReadsBack(c: Candidate)
    requires c.AGE_YR >= 0
    ensures var t := Details(Some(c)).value[AgeRow].text;
      && |t| > |YearsUnit|
      && t[|t| - |YearsUnit|..] == YearsUnit
      && IsDigits(t[..|t| - |YearsUnit|])
      && DigitsValue(t[..|t| - |YearsUnit|]) == c.AGE_YR
  {
    var t := Details(Some(c)).value[AgeRow].text;
    assert t[..|t| - |YearsUnit|] == NatToString(c.AGE_YR);
    DigitsValueOfNatToString(c.AGE_YR);
  }

  /**
   * As written, an empty `QUALIFICATION` leaves the dialog's qualification row
   * blank while the card of the same candidate shows `"साधारण लेखपढ"`.
   */
  lemma QualificationRowBlank(c: Candidate)
    requires c.QUALIFICATION == ""
    ensures Details(Some(c)).value[QualificationRow].text == ""
    ensures CandidateCard.QualificationText(c) == CandidateCard.QualificationFallback
    ensures Details(Some(c)).value[QualificationRow].text != CandidateCard.QualificationText(c)
  {
  }

  /** The details with the card's qualification fallback. */
  function DetailsWithFallback(c: Option<Candidate>): (r: Option<seq<DetailRow>>)
    ensures r == None <==> c == None
    ensures r != None ==> |r.value| == 8
  {
    match c
    case None => None
    case Some(cand) => Some(Rows(cand, CandidateCard.QualificationText(cand)))
  }

  /**
   * With the fallback the dialog and the card always show the same, non-empty
   * qualification, and every other row is unchanged.
   */
  lemma DetailsWithFallbackAgreesWithCard(c: Candidate)
    ensures var rows := DetailsWithFallback(Some(c)).value;
      && rows[QualificationRow].text == CandidateCard.QualificationText(c)
      && rows[QualificationRow].text != ""
      && (c.QUALIFICATION != "" ==> rows == Details(Some(c)).value)
      && forall i :: 0 <= i < 8 && i != QualificationRow ==> rows[i] == Details(Some(c)).value[i]
  {
  }
}
