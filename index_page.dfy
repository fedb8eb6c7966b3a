/**
 * The landing page: the structured-filter result (from the unseen filtering
 * hook, a parameter here) narrowed by a plain name-or-district search, a
 * six-card preview, the stat cards and charts of the narrowed list, and a
 * header count and "see all" button that look at the structured-only list.
 */
module IndexPage {
  import opened JsString
  import opened JsArray
  import opened Election
  import opened Charts
  import PartyBarChart
  import QualificationPieChart
  import GenderChart
  import ProvinceChart

  /** The number of candidates the preview shows. */
  const PreviewSize := 6

  /** Whether `c`'s lowercased name or district contains `query`. */
  predicate NameOrDistrictMatches(c: Candidate, query: string) {
    Includes(ToLower(c.CandidateName), query) || Includes(ToLower(c.DistrictName), query)
  }

  /** The callback passed to `filter`. */
  function NameOrDistrictMatcher(query: string): Candidate -> bool {
    c => NameOrDistrictMatches(c, query)
  }

  /**
   * `finalCandidates`: the structured result when the query is blank, otherwise
   * the candidates whose lowercased name or district contains the lowercased
   * query (untrimmed).
   */
  function FinalCandidates(filtered: seq<Candidate>, searchQuery: string): seq<Candidate> {
    if Trim(searchQuery) == "" then filtered
    else Filter(filtered, NameOrDistrictMatcher(ToLower(searchQuery)))
  }

  /**
   * A blank query changes nothing; any other keeps exactly the candidates whose
   * name or district contains it, in their original order; party and synonyms
   * play no part.
   */
  lemma FinalCandidatesSpec(filtered: seq<Candidate>, searchQuery: string, c: Candidate)
    ensures IsBlank(searchQuery) ==> FinalCandidates(filtered, searchQuery) == filtered
    ensures !IsBlank(searchQuery) ==>
      (c in FinalCandidates(filtered, searchQuery) <==>
         c in filtered && NameOrDistrictMatches(c, ToLower(searchQuery)))
    ensures IsSubsequence(FinalCandidates(filtered, searchQuery), filtered)
  {
    TrimEmptyIffBlank(searchQuery);
    if !IsBlank(searchQuery) {
      FilterMembership(filtered, NameOrDistrictMatcher(ToLower(searchQuery)), c);
      FilterIsSubsequence(filtered, NameOrDistrictMatcher(ToLower(searchQuery)));
    } else {
      SubsequenceReflexive(filtered);
    }
  }

  /** The aggregated statistics the page reads from the unseen hook. */
  datatype Stats = Stats(
    totalCandidates: int,
    byParty: Entries<int>,
    byDistrict: Entries<int>,
    byProvince: Entries<int>,
    byQualification: Entries<int>,
    byGender: Entries<int>
  )

  /** `Object.keys(record).length`. */
  function KeyCount(r: Entries<int>): nat {
    |Keys(r)|
  }

  /**
   * Only restates the record invariant: with distinct keys, `Object.keys` lists
   * each key once, so a card's count is the number of entries.
   */
  lemma KeyCountDistinct(r: Entries<int>)
    requires DistinctKeys(r)
    ensures KeyCount(r) == |r|
    ensures Distinct(Keys(r))
  {
  }

  /** What the page shows. */
  datatype View = View(
    headerCount: nat,
    seeAll: bool,
    preview: seq<Candidate>,
    totalCard: int,
    partyCard: nat,
    districtCard: nat,
    provinceCard: nat,
    partyBars: seq<ChartDataItem>,
    qualificationSlices: seq<ChartDataItem>,
    genderBars: seq<ChartDataItem>,
    provinceBars: seq<ChartDataItem>
  )

  /**
   * The page for a structured result and a query; `aggregate` stands for
   * `useAggregatedStats` and `shortPartyName` for `getShortPartyName`.
   */
  function ShowIndex(filtered: seq<Candidate>, searchQuery: string,
                     aggregate: seq<Candidate> -> Stats, shortPartyName: string -> string): View
  {
    var final := FinalCandidates(filtered, searchQuery);
    var stats := aggregate(final);
    View(
      |filtered|,
      |filtered| > PreviewSize,
      Take(final, PreviewSize),
      stats.totalCandidates,
      KeyCount(stats.byParty),
      KeyCount(stats.byDistrict),
      KeyCount(stats.byProvince),
      PartyBarChart.ChartData(stats.byParty, shortPartyName, PartyBarChart.DefaultMaxItems),
      QualificationPieChart.ChartData(stats.byQualification),
      GenderChart.ChartData(stats.byGender),
      ProvinceChart.ChartData(stats.byProvince)
    )
  }

  /**
   * The header count and the "see all" button follow the structured-only list,
   * whatever the query, and the button shows exactly when more than six match.
   */
  lemma HeaderIgnoresQuery(filtered: seq<Candidate>, q1: string, q2: string,
                           aggregate: seq<Candidate> -> Stats, shortPartyName: string -> string)
    ensures ShowIndex(filtered, q1, aggregate, shortPartyName).headerCount
         == ShowIndex(filtered, q2, aggregate, shortPartyName).headerCount
    ensures ShowIndex(filtered, q1, aggregate, shortPartyName).seeAll
         == ShowIndex(filtered, q2, aggregate, shortPartyName).seeAll
    ensures ShowIndex(filtered, q1, aggregate, shortPartyName).seeAll <==> |filtered| > PreviewSize
  {
  }

  /** The preview is the first min(6, n) candidates of the searched list. */
  lemma PreviewIsPrefix(filtered: seq<Candidate>, searchQuery: string,
                        aggregate: seq<Candidate> -> Stats, shortPartyName: string -> string)
    ensures var v := ShowIndex(filtered, searchQuery, aggregate, shortPartyName);
      var final := FinalCandidates(filtered, searchQuery);
      && v.preview <= final
      && |v.preview| == (if |final| < PreviewSize then |final| else PreviewSize)
  {
  }

  /**
   * The cards and charts come from the statistics of the searched list; with a
   * blank query that is the structured list itself, and the party chart shows
   * min(7, number of parties) bars.
   */
  lemma StatsFollowSearch(filtered: seq<Candidate>, searchQuery: string,
                          aggregate: seq<Candidate> -> Stats, shortPartyName: string -> string)
    ensures var v := ShowIndex(filtered, searchQuery, aggregate, shortPartyName);
      var stats := aggregate(FinalCandidates(filtered, searchQuery));
      && v.totalCard == stats.totalCandidates
      && v.partyCard == |stats.byParty|
      && v.districtCard == |stats.byDistrict|
      && v.provinceCard == |stats.byProvince|
      && |v.partyBars| == (if v.partyCard < PartyBarChart.DefaultMaxItems then v.partyCard else PartyBarChart.DefaultMaxItems)
      && |v.provinceBars| == v.provinceCard
      && v.partyBars == PartyBarChart.ChartData(stats.byParty, shortPartyName, PartyBarChart.DefaultMaxItems)
      && v.qualificationSlices == QualificationPieChart.ChartData(stats.byQualification)
      && v.genderBars == GenderChart.ChartData(stats.byGender)
      && v.provinceBars == ProvinceChart.ChartData(stats.byProvince)
    ensures IsBlank(searchQuery) ==>
      aggregate(FinalCandidates(filtered, searchQuery)) == aggregate(filtered)
  {
    var stats := aggregate(FinalCandidates(filtered, searchQuery));
    PartyBarChart.ChartDataLength(stats.byParty, shortPartyName, PartyBarChart.DefaultMaxItems);
    TrimEmptyIffBlank(searchQuery);
  }
}
