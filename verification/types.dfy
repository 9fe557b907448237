/** The domain types every caller of the analysis sees. */
module Types {
  import opened Wrappers

  /** The five kinds a relationship may have (the `type` field; `type` is a keyword in Dafny). */
  datatype RelationType = Family | Friend | Romance | Rival | Ally

  /** The JSON spelling of a relationship kind. */
  function TypeName(t: RelationType): string {
    match t
    case Family => "family"
    case Friend => "friend"
    case Romance => "romance"
    case Rival => "rival"
    case Ally => "ally"
  }

  /** Reads a relationship kind from its JSON spelling; any other string is no kind. */
  function ParseType(s: string): (r: Option<RelationType>)
    ensures r.Some? ==> TypeName(r.value) == s
  {
    if s == "family" then Some(Family)
    else if s == "friend" then Some(Friend)
    else if s == "romance" then Some(Romance)
    else if s == "rival" then Some(Rival)
    else if s == "ally" then Some(Ally)
    else None
  }

  /** Every kind is read back from its spelling, so the spellings are the recognised strings. */
  lemma {:induction false} ParseTypeName(t: RelationType)
    ensures ParseType(TypeName(t)) == Some(t)
  {
  }

  datatype Character = Character(
    id: string,
    name: string,
    role: string,
    description: string,
    traits: seq<string>)

  datatype Relationship = Relationship(
    id: string,
    source: string,
    target: string,
    kind: RelationType,
    description: string,
    significance: int)

  datatype BookAnalysis = BookAnalysis(themes: seq<string>, setting: string, timeframe: string)

  datatype AnalysisResult = AnalysisResult(
    summary: string,
    analysis: BookAnalysis,
    characters: seq<Character>,
    relationships: seq<Relationship>,
    rawOutput: Option<string>)

  datatype BookMetadata = BookMetadata(
    title: string,
    author: string,
    language: string,
    releaseDate: string,
    subjects: seq<string>)

  /** The ids of a list of characters. */
  function Ids(cs: seq<Character>): (r: seq<string>)
    ensures |r| == |cs| && forall i :: 0 <= i < |cs| ==> r[i] == cs[i].id
  {
    seq(|cs|, i requires 0 <= i < |cs| => cs[i].id)
  }

  /** The names of a list of characters. */
  function Names(cs: seq<Character>): (r: seq<string>)
    ensures |r| == |cs| && forall i :: 0 <= i < |cs| ==> r[i] == cs[i].name
  {
    seq(|cs|, i requires 0 <= i < |cs| => cs[i].name)
  }
}
