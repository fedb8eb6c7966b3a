/**
 * The candidate search page: the structured-filter result (from the unseen
 * filtering hook, a parameter here) is narrowed by a free-text search whose
 * lowercased query is expanded with the localized district and party names of
 * every English key containing it, then shown 24 cards per "load more" page.
 */
module CandidatesPage {
  import opened JsString
  import opened JsArray
  import opened Election
  import IndexPage

  /** `ITEMS_PER_PAGE`. */
  const ItemsPerPage := 24

  // ---------------------------------------------------------------------------
  // Search terms
  // ---------------------------------------------------------------------------

  /** Whether an English key of a synonym table contains the query. */
  function KeyContains(query: string): ((string, string)) -> bool {
    (e: (string, string)) => Includes(e.0, query)
  }

  /** The localized name of a synonym entry: `MAP[enKey]` for the entry's key. */
  function Localized(e: (string, string)): string {
    e.1
  }

  /**
   * The terms one table contributes: the localized names of the entries whose
   * key contains the query, in the table's order.
   */
  function Expansions(query: string, table: Entries<string>): seq<string> {
    MapSeq(Filter(table, KeyContains(query)), Localized)
  }

  /** A term is contributed exactly when some entry's key contains the query and maps to it. */
  lemma ExpansionsMembership(query: string, table: Entries<string>, t: string)
    ensures t in Expansions(query, table) <==>
      exists i :: 0 <= i < |table| && Includes(table[i].0, query) && table[i].1 == t
  {
    var kept := Filter(table, KeyContains(query));
    if t in Expansions(query, table) {
      var j :| 0 <= j < |kept| && kept[j].1 == t;
      FilterMembership(table, KeyContains(query), kept[j]);
      var i :| 0 <= i < |table| && table[i] == kept[j];
    } else {
      forall i | 0 <= i < |table| && Includes(table[i].0, query) ensures table[i].1 != t {
        FilterMembership(table, KeyContains(query), table[i]);
        var j :| 0 <= j < |kept| && kept[j] == table[i];
        assert Expansions(query, table)[j] == table[i].1;
      }
    }
  }

  /** The contributed terms follow the table's order: they are the names of a subsequence of its entries. */
  lemma ExpansionsInOrder(query: string, table: Entries<string>)
    ensures exists kept :: IsSubsequence(kept, table) && Expansions(query, table) == MapSeq(kept, Localized)
  {
    FilterIsSubsequence(table, KeyContains(query));
  }

  /** One more entry contributes its name at the end when its key contains the query. */
  lemma ExpansionsSnoc(query: string, table: Entries<string>, i: int)
    requires 0 <= i < |table|
    ensures Expansions(query, table[..i + 1]) ==
      Expansions(query, table[..i]) + (if Includes(table[i].0, query) then [table[i].1] else [])
  {
    assert table[..i + 1] == table[..i] + [table[i]];
    FilterSnoc(table[..i], table[i], KeyContains(query));
    var extra := if Includes(table[i].0, query) then [table[i]] else [];
    MapSeqAppend(Filter(table[..i], KeyContains(query)), extra, Localized);
  }

  /** `searchTerms`: the query, then the district names, then the party names. */
  function SearchTerms(query: string, districts: Entries<string>, parties: Entries<string>): (terms: seq<string>)
    ensures |terms| >= 1 && terms[0] == query
  {
    [query] + Expansions(query, districts) + Expansions(query, parties)
  }

  /**
   * The term list holds the query and exactly the localized names of the
   * district and party entries whose English key contains it.
   */
  lemma SearchTermsComplete(query: string, districts: Entries<string>, parties: Entries<string>, t: string)
    ensures query in SearchTerms(query, districts, parties)
    ensures t in SearchTerms(query, districts, parties) <==>
      || t == query
      || (exists i :: 0 <= i < |districts| && Includes(districts[i].0, query) && districts[i].1 == t)
      || (exists i :: 0 <= i < |parties| && Includes(parties[i].0, query) && parties[i].1 == t)
  {
    ExpansionsMembership(query, districts, t);
    ExpansionsMembership(query, parties, t);
  }

  /**
   * The `searchTerms` memo: `[query]`, then one `push` per district key that
   * contains the query, then one per party key.
   */
  method BuildSearchTerms(query: string, districts: Entries<string>, parties: Entries<string>)
    returns (terms: seq<string>)
    ensures terms == SearchTerms(query, districts, parties)
  {
    terms := [query];
    var i := 0;
    while i < |districts|
      invariant 0 <= i <= |districts|
      invariant terms == [query] + Expansions(query, districts[..i])
    {
      ExpansionsSnoc(query, districts, i);
      if Includes(districts[i].0, query) {
        terms := terms + [districts[i].1];
      }
      i := i + 1;
    }
    assert districts[..|districts|] == districts;
    var j := 0;
    while j < |parties|
      invariant 0 <= j <= |parties|
      invariant terms == [query] + Expansions(query, districts) + Expansions(query, parties[..j])
    {
      ExpansionsSnoc(query, parties, j);
      if Includes(parties[j].0, query) {
        terms := terms + [parties[j].1];
      }
      j := j + 1;
    }
    assert parties[..|parties|] == parties;
  }

  // ---------------------------------------------------------------------------
  // filteredCandidates
  // ---------------------------------------------------------------------------

  /** Whether `term` is in the lowercased name, district or party of `c`. */
  predicate MatchesTerm(c: Candidate, term: string) {
    || Includes(ToLower(c.CandidateName), term)
    || Includes(ToLower(c.DistrictName), term)
    || Includes(ToLower(c.PoliticalPartyName), term)
  }

  /** `searchTerms.some(term => ...)`. */
  predicate MatchesAny(c: Candidate, terms: seq<string>) {
    exists i :: 0 <= i < |terms| && MatchesTerm(c, terms[i])
  }

  /** The callback passed to `filter`. */
  function TermsMatcher(terms: seq<string>): Candidate -> bool {
    c => MatchesAny(c, terms)
  }

  /**
   * `filteredCandidates`: the structured result when the query is blank after
   * trimming, otherwise those of its candidates some term matches; the terms
   * come from the lowercased, untrimmed query.
   */
  function FilteredCandidates(filteredByFilters: seq<Candidate>, searchQuery: string,
                              districts: Entries<string>, parties: Entries<string>): seq<Candidate>
  {
    if Trim(searchQuery) == "" then filteredByFilters
    else Filter(filteredByFilters, TermsMatcher(SearchTerms(ToLower(searchQuery), districts, parties)))
  }

  /** An empty or whitespace-only query returns the structured result unchanged. */
  lemma BlankQueryKeepsAll(filteredByFilters: seq<Candidate>, searchQuery: string,
                           districts: Entries<string>, parties: Entries<string>)
    ensures IsBlank(searchQuery) <==> Trim(searchQuery) == ""
    ensures IsBlank(searchQuery) ==>
      FilteredCandidates(filteredByFilters, searchQuery, districts, parties) == filteredByFilters
  {
    TrimEmptyIffBlank(searchQuery);
  }

  /**
   * Any other query keeps exactly the candidates some term matches, in their
   * original order; the first term is the whole lowercased query, spaces included.
   */
  lemma SearchKeepsMatches(filteredByFilters: seq<Candidate>, searchQuery: string,
                           districts: Entries<string>, parties: Entries<string>, c: Candidate)
    ensures IsSubsequence(FilteredCandidates(filteredByFilters, searchQuery, districts, parties), filteredByFilters)
    ensures !IsBlank(searchQuery) ==>
      (c in FilteredCandidates(filteredByFilters, searchQuery, districts, parties) <==>
         c in filteredByFilters && MatchesAny(c, SearchTerms(ToLower(searchQuery), districts, parties)))
    ensures SearchTerms(ToLower(searchQuery), districts, parties)[0] == ToLower(searchQuery)
  {
    TrimEmptyIffBlank(searchQuery);
    var terms := SearchTerms(ToLower(searchQuery), districts, parties);
    if Trim(searchQuery) == "" {
      SubsequenceReflexive(filteredByFilters);
    } else {
      FilterIsSubsequence(filteredByFilters, TermsMatcher(terms));
      FilterMembership(filteredByFilters, TermsMatcher(terms), c);
    }
  }

  /**
   * Every candidate the landing page's search finds, this page's search finds
   * too: the query itself is a term, and name and district are both searched here.
   */
  lemma SearchExtendsLandingSearch(filteredByFilters: seq<Candidate>, searchQuery: string,
                                   districts: Entries<string>, parties: Entries<string>, c: Candidate)
    requires c in IndexPage.FinalCandidates(filteredByFilters, searchQuery)
    ensures c in FilteredCandidates(filteredByFilters, searchQuery, districts, parties)
  {
    IndexPage.FinalCandidatesSpec(filteredByFilters, searchQuery, c);
    SearchKeepsMatches(filteredByFilters, searchQuery, districts, parties, c);
    TrimEmptyIffBlank(searchQuery);
    if !IsBlank(searchQuery) {
      assert MatchesTerm(c, SearchTerms(ToLower(searchQuery), districts, parties)[0]);
    }
  }

  // ---------------------------------------------------------------------------
  // Pagination
  // ---------------------------------------------------------------------------

  /** `paginatedCandidates`: `filteredCandidates.slice(0, page * ITEMS_PER_PAGE)`. */
  function Paginated(list: seq<Candidate>, page: int): seq<Candidate> {
    Take(list, page * ItemsPerPage)
  }

  /** `hasMore`: the shown prefix is shorter than the list. */
  predicate HasMore(list: seq<Candidate>, page: int) {
    |Paginated(list, page)| < |list|
  }

  /**
   * For a page number of at least 1 the cards are the first min(24·page, n) of
   * the list, and "load more" shows exactly when the list is longer than 24·page.
   */
  lemma PaginationSpec(list: seq<Candidate>, page: int)
    requires page >= 1
    ensures Paginated(list, page) <= list
    ensures |Paginated(list, page)| == if page * ItemsPerPage < |list| then page * ItemsPerPage else |list|
    ensures HasMore(list, page) <==> page * ItemsPerPage < |list|
  {
  }

  /** A later page shows everything an earlier page showed, in the same places. */
  lemma PaginatedMonotone(list: seq<Candidate>, page: int, later: int)
    requires 1 <= page <= later
    ensures Paginated(list, page) <= Paginated(list, later)
  {
    assert page * ItemsPerPage <= later * ItemsPerPage;
  }

  /** Enough pages show the whole list and hide the button. */
  lemma LastPage(list: seq<Candidate>, page: int)
    requires page >= 1 && |list| <= page * ItemsPerPage
    ensures Paginated(list, page) == list
    ensures !HasMore(list, page)
  {
  }

  // ---------------------------------------------------------------------------
  // Page state
  // ---------------------------------------------------------------------------

  /** The page's state hooks that the search and the pagination read. */
  class PageState {
    var filters: FilterState
    var searchQuery: string
    var page: int

    /** The page counter starts at 1 and only ever grows or returns to 1. */
    predicate Valid()
      reads this
    {
      page >= 1
    }

    /** No filters, an empty query, page 1. */
    constructor()
      ensures Valid()
      ensures filters == NoFilters() && searchQuery == "" && page == 1
    {
      filters := NoFilters();
      searchQuery := "";
      page := 1;
    }

    /** `loadMore`: one more page; whatever the list, the cards already shown stay where they are. */
    method LoadMore()
      requires Valid()
      modifies this
      ensures Valid()
      ensures page == old(page) + 1
      ensures filters == old(filters) && searchQuery == old(searchQuery)
      ensures forall list :: Paginated(list, old(page)) <= Paginated(list, page)
    {
      page := page + 1;
      forall list ensures Paginated(list, page - 1) <= Paginated(list, page) {
        PaginatedMonotone(list, page - 1, page);
      }
    }

    /** `handleFilterChange`: the new selection, back to page 1. */
    method HandleFilterChange(newFilters: FilterState)
      requires Valid()
      modifies this
      ensures Valid()
      ensures filters == newFilters && page == 1
      ensures searchQuery == old(searchQuery)
    {
      filters := newFilters;
      page := 1;
    }

    /** The search box's `onChange`: the new text, back to page 1. */
    method EditQuery(value: string)
      requires Valid()
      modifies this
      ensures Valid()
      ensures searchQuery == value && page == 1
      ensures filters == old(filters)
    {
      searchQuery := value;
      page := 1;
    }

    /** "Clear search": the query becomes empty, and the page counter is left as it was. */
    method ClearSearch()
      requires Valid()
      modifies this
      ensures Valid()
      ensures searchQuery == "" && page == old(page)
      ensures filters == old(filters)
    {
      searchQuery := "";
    }
  }
}
