/**
 * A "trending battle" card: two candidates side by side, each shown by the
 * first word of the name, the party name up to its first parenthesis, and the
 * photo from the election commission's site.
 */
module TrendingBattles {
  import opened JsString
  import opened Election

  /** `CandidateName.split(' ')[0]`. */
  function FirstWord(name: string): string {
    SplitHead(name, ' ')
  }

  /** `PoliticalPartyName.split('(')[0]`. */
  function PartyHead(party: string): string {
    SplitHead(party, '(')
  }

  /**
   * The shown name is a prefix of the full name with no space in it, and it
   * is the whole name when there is no space; the shown party likewise for `(`.
   */
  lemma DisplayTruncation(c: Candidate)
    ensures FirstWord(c.CandidateName) <= c.CandidateName
    ensures ' ' !in FirstWord(c.CandidateName)
    ensures ' ' !in c.CandidateName ==> FirstWord(c.CandidateName) == c.CandidateName
    ensures |FirstWord(c.CandidateName)| < |c.CandidateName| ==> c.CandidateName[|FirstWord(c.CandidateName)|] == ' '
    ensures PartyHead(c.PoliticalPartyName) <= c.PoliticalPartyName
    ensures '(' !in PartyHead(c.PoliticalPartyName)
    ensures '(' !in c.PoliticalPartyName ==> PartyHead(c.PoliticalPartyName) == c.PoliticalPartyName
    ensures |PartyHead(c.PoliticalPartyName)| < |c.PoliticalPartyName| ==>
      c.PoliticalPartyName[|PartyHead(c.PoliticalPartyName)|] == '('
  {
    if ' ' !in c.CandidateName {
      SplitHeadWithoutSep(c.CandidateName, ' ');
    }
    if '(' !in c.PoliticalPartyName {
      SplitHeadWithoutSep(c.PoliticalPartyName, '(');
    }
  }

  /** Truncating an already truncated text changes nothing. */
  lemma DisplayTruncationIdempotent(name: string, party: string)
    ensures FirstWord(FirstWord(name)) == FirstWord(name)
    ensures PartyHead(PartyHead(party)) == PartyHead(party)
  {
    SplitHeadIdempotent(name, ' ');
    SplitHeadIdempotent(party, '(');
  }

  /** What one side of the card shows. */
  datatype Side = Side(photo: string, name: string, party: string)

  function ShowSide(c: Candidate): Side {
    Side(PhotoUrl(c.CandidateID), FirstWord(c.CandidateName), PartyHead(c.PoliticalPartyName))
  }

  /** The card: the constituency, then the first candidate's side and the second's. */
  datatype Card = Card(constituency: string, left: Side, right: Side)

  function Battle(c1: Candidate, c2: Candidate, constituencyName: string): Card {
    Card(constituencyName, ShowSide(c1), ShowSide(c2))
  }

  /**
   * Both sides follow the same rule: swapping the candidates swaps the sides,
   * and two candidates with different IDs never show the same photo.
   */
  lemma BattleSymmetric(c1: Candidate, c2: Candidate, constituencyName: string)
    ensures Battle(c2, c1, constituencyName).left == Battle(c1, c2, constituencyName).right
    ensures Battle(c2, c1, constituencyName).right == Battle(c1, c2, constituencyName).left
    ensures c1.CandidateID != c2.CandidateID ==>
      Battle(c1, c2, constituencyName).left.photo != Battle(c1, c2, constituencyName).right.photo
  {
    if PhotoUrl(c1.CandidateID) == PhotoUrl(c2.CandidateID) {
      PhotoUrlInjective(c1.CandidateID, c2.CandidateID);
    }
  }
}
