/**
  What `JSON.parse` makes of the model's reply before normalisation: records whose
  every field may be missing. JSON `null` and an absent key read the same way in the
  normalisers (`x || d`, `x?.f`), so both are `None` here.
*/
module Raw {
  import opened Wrappers

  /** A `significance` field: absent, a number, or some other JSON value. */
  datatype Significance = Missing | Number(n: int) | NotANumber

  datatype RawCharacter = RawCharacter(
    id: Option<string>,
    name: Option<string>,
    description: Option<string>,
    role: Option<string>,
    traits: Option<seq<string>>)

  datatype RawRelationship = RawRelationship(
    id: Option<string>,
    source: Option<string>,
    target: Option<string>,
    kind: Option<string>,
    description: Option<string>,
    significance: Significance)

  datatype RawBookAnalysis = RawBookAnalysis(
    themes: Option<seq<string>>,
    setting: Option<string>,
    timeframe: Option<string>)

  datatype RawAnalysis = RawAnalysis(
    summary: Option<string>,
    analysis: Option<RawBookAnalysis>,
    characters: Option<seq<RawCharacter>>,
    relationships: Option<seq<RawRelationship>>)

  /**
    A successfully parsed reply: the literal `null` (reading any field of it throws),
    or any other JSON value, whose fields are read as `data` (a number, string or
    array has none of the expected keys, so all of them are absent).
  */
  datatype JsonValue = Null | Value(data: RawAnalysis)

  /** `JSON.parse`, taken as given: `None` when it throws. */
  type Parser = string -> Option<JsonValue>

  /** A string field JavaScript treats as true: present and not empty. */
  predicate Truthy(field: Option<string>) {
    field.Some? && field.value != ""
  }

  /** JavaScript's `field || fallback` on a string field. */
  function Or(field: Option<string>, fallback: string): string {
    if Truthy(field) then field.value else fallback
  }

  /** A record with no fields at all, which is what `x?.f` reads from a missing object. */
  const NoAnalysis := RawBookAnalysis(None, None, None)
}
