/**
 * The data the dashboard works on: candidate records, the eight-field filter
 * selection, and JavaScript `Record<string, X>` objects as their entries.
 */
module Election {
  import opened Wrappers
  import opened JsString

  /**
   * A candidate record, with the fields of the static dataset that the pages
   * and components read. The three biographical fields may be missing.
   */
  datatype Candidate = Candidate(
    CandidateID: int,
    CandidateName: string,
    PoliticalPartyName: string,
    SymbolName: string,
    DistrictName: string,
    SCConstID: int,
    AGE_YR: int,
    Gender: string,
    QUALIFICATION: string,
    NAMEOFINST: Option<string>,
    EXPERIENCE: Option<string>,
    ADDRESS: Option<string>
  )

  /**
   * A value stored in a filter field. The handlers pass `string | number`
   * through unchanged, so a field holds whichever kind it was given, and
   * `===` tells `"3"` from `3`.
   */
  datatype Value = Str(s: string) | Num(n: int)

  /** The keys of `FilterState`. */
  datatype FilterKey =
    | Province | District | Constituency | Party
    | Qualification | Gender | AgeMin | AgeMax

  /** The filter selection: every field is unset (`null`) or holds a value. */
  datatype FilterState = FilterState(
    province: Option<Value>,
    district: Option<Value>,
    constituency: Option<Value>,
    party: Option<Value>,
    qualification: Option<Value>,
    gender: Option<Value>,
    ageMin: Option<Value>,
    ageMax: Option<Value>
  )

  /** `filters[key]`. */
  function Get(f: FilterState, k: FilterKey): Option<Value> {
    match k
    case Province => f.province
    case District => f.district
    case Constituency => f.constituency
    case Party => f.party
    case Qualification => f.qualification
    case Gender => f.gender
    case AgeMin => f.ageMin
    case AgeMax => f.ageMax
  }

  /** `{ ...filters, [key]: v }`: field `k` holds `v` and every other field is copied. */
  function Set(f: FilterState, k: FilterKey, v: Option<Value>): (r: FilterState)
    ensures Get(r, k) == v
    ensures forall k' :: k' != k ==> Get(r, k') == Get(f, k')
  {
    match k
    case Province => f.(province := v)
    case District => f.(district := v)
    case Constituency => f.(constituency := v)
    case Party => f.(party := v)
    case Qualification => f.(qualification := v)
    case Gender => f.(gender := v)
    case AgeMin => f.(ageMin := v)
    case AgeMax => f.(ageMax := v)
  }

  /** Two selections that agree on every key are the same selection. */
  lemma FilterStateExtensional(a: FilterState, b: FilterState)
    requires forall k :: Get(a, k) == Get(b, k)
    ensures a == b
  {
    assert Get(a, Province) == Get(b, Province);
    assert Get(a, District) == Get(b, District);
    assert Get(a, Constituency) == Get(b, Constituency);
    assert Get(a, Party) == Get(b, Party);
    assert Get(a, Qualification) == Get(b, Qualification);
    assert Get(a, Gender) == Get(b, Gender);
    assert Get(a, AgeMin) == Get(b, AgeMin);
    assert Get(a, AgeMax) == Get(b, AgeMax);
  }

  /** The selection with no constraint: what both pages start with and "Clear all" emits. */
  function NoFilters(): (f: FilterState)
    ensures forall k :: Get(f, k) == None
  {
    FilterState(None, None, None, None, None, None, None, None)
  }

  /** A `Record<string, V>` as its entries, in enumeration order. */
  type Entries<V> = seq<(string, V)>

  /** The keys of a record, in enumeration order: `Object.keys(r)`. */
  function Keys<V>(r: Entries<V>): (ks: seq<string>)
    ensures |ks| == |r|
    ensures forall i :: 0 <= i < |r| ==> ks[i] == r[i].0
  {
    if r == [] then [] else [r[0].0] + Keys(r[1..])
  }

  /** A JavaScript object never holds the same key twice. */
  predicate DistinctKeys<V>(r: Entries<V>) {
    forall i, j :: 0 <= i < j < |r| ==> r[i].0 != r[j].0
  }

  /** `key in record`, for a key that was looked up. */
  predicate HasKey<V>(r: Entries<V>, key: string) {
    exists i :: 0 <= i < |r| && r[i].0 == key
  }

  /** `record[key]`: the value under `key`, or `undefined` (None) when absent. */
  function Lookup<V>(r: Entries<V>, key: string): (v: Option<V>)
    ensures v == None <==> !HasKey(r, key)
    ensures v != None ==> exists i :: 0 <= i < |r| && r[i] == (key, v.value)
  {
    if r == [] then None
    else if r[0].0 == key then Some(r[0].1)
    else
      var rest := Lookup(r[1..], key);
      assert forall i :: 0 < i < |r| ==> r[i] == r[1..][i - 1];
      rest
  }

  /** In a record the value found for an entry's key is that entry's value. */
  lemma {:induction false} LookupEntry<V>(r: Entries<V>, i: int)
    requires DistinctKeys(r) && 0 <= i < |r|
    ensures Lookup(r, r[i].0) == Some(r[i].1)
  {
    if i > 0 {
      assert r[0].0 != r[i].0;
      LookupEntry(r[1..], i - 1);
    }
  }

  /** JavaScript `v || d` for a string that may be missing: the fallback replaces a missing or empty one. */
  function StrOr(v: Option<string>, d: string): (r: string)
    ensures v.Some? && v.value != "" ==> r == v.value
    ensures v == None || v.value == "" ==> r == d
  {
    if v.Some? && v.value != "" then v.value else d
  }

  /** The address of a candidate's photo on the election commission's site. */
  const PhotoBase := "https://result.election.gov.np/Images/Candidate/"

  /** `https://result.election.gov.np/Images/Candidate/${CandidateID}.jpg`. */
  function PhotoUrl(id: int): string {
    PhotoBase + IntToString(id) + ".jpg"
  }

  /** Different candidate IDs give different photo addresses. */
  lemma PhotoUrlInjective(a: int, b: int)
    requires PhotoUrl(a) == PhotoUrl(b)
    ensures a == b
  {
    var u := PhotoUrl(a);
    assert u[|PhotoBase|..|u| - 4] == IntToString(a);
    assert PhotoUrl(b)[|PhotoBase|..|u| - 4] == IntToString(b);
    IntToStringInjective(a, b);
  }
}
