/**
  The lenient normaliser of the analysis service: it turns whatever object the model
  returned into a well-formed `AnalysisResult`, defaulting every missing field,
  deriving character ids from names, resolving relationship endpoints given as names,
  coercing unknown relationship kinds to `ally` and clamping significance to [0, 10].
  The random id suffixes of `Math.random()` are parameters (`charSuffix`, `relSuffix`),
  indexed by the position of the entry in its array.
*/
module TextAnalysisService {
  import opened Wrappers
  import opened Seqs
  import opened Strings
  import opened JsonSpan
  import opened Types
  import opened Raw

  /** How much of the book text the prompt embeds. */
  const MaxTextLength: nat := 25000

  const UnknownName := "Unknown Character"
  const UnknownRole := "Unknown"

  /** Thrown when the reply does not parse; the outer handler replaces it. */
  const InvalidJsonMessage := "Failed to interpret the analysis from the AI. The response was not valid JSON."
  /** What every failure other than an HTTP-client error surfaces as. */
  const UnexpectedMessage := "An unexpected error occurred while analyzing the book text."

  // ---------------------------------------------------------------- prompt

  /**
    The prompt: the fixed instructions (`preamble`), the metadata as JSON, and a
    bounded prefix of the book text followed by an ellipsis.
  */
  function GetPrompt(text: string, metadata: BookMetadata, preamble: string, stringify: BookMetadata -> string): string {
    preamble + "Book metadata: " + stringify(metadata) + "\nBook text: " + Truncate(text, MaxTextLength) + "..."
  }

  /** The prompt ends with exactly the first min(|text|, 25000) characters of the text and "...". */
  lemma {:induction false} PromptEmbedsPrefix(text: string, metadata: BookMetadata, preamble: string, stringify: BookMetadata -> string)
    ensures var p := GetPrompt(text, metadata, preamble, stringify);
            var n := Min(|text|, MaxTextLength);
            |p| >= n + 3 && p[|p| - n - 3..] == text[..n] + "..."
  {
    var p := GetPrompt(text, metadata, preamble, stringify);
    var head := preamble + "Book metadata: " + stringify(metadata) + "\nBook text: ";
    var tail := Truncate(text, MaxTextLength) + "...";
    assert p == head + tail;
    assert p[|head|..] == tail;
  }

  /** Two texts give the same prompt exactly when they agree on their first 25000 characters. */
  lemma {:induction false} PromptSeesOnlyPrefix(t1: string, t2: string, metadata: BookMetadata, preamble: string, stringify: BookMetadata -> string)
    ensures GetPrompt(t1, metadata, preamble, stringify) == GetPrompt(t2, metadata, preamble, stringify)
        <==> Truncate(t1, MaxTextLength) == Truncate(t2, MaxTextLength)
  {
    var head := preamble + "Book metadata: " + stringify(metadata) + "\nBook text: ";
    var a, b := Truncate(t1, MaxTextLength), Truncate(t2, MaxTextLength);
    if head + a + "..." == head + b + "..." {
      assert |a| == |b|;
      forall k | 0 <= k < |a| ensures a[k] == b[k] {
        assert (head + a + "...")[|head| + k] == a[k];
        assert (head + b + "...")[|head| + k] == b[k];
      }
    }
  }

  // ------------------------------------------------------------ characters

  /**
    A character's id: the given id when it is not empty; otherwise the name with
    its whitespace removed when the name is not empty; otherwise `char_` and a random suffix.
  */
  function CharacterId(c: RawCharacter, suffix: string): string {
    if Truthy(c.id) then c.id.value
    else if Truthy(c.name) then StripWhitespace(c.name.value)
    else "char_" + suffix
  }

  /** One raw character with every missing field defaulted. */
  function NormalizeCharacter(c: RawCharacter, suffix: string): (r: Character)
    ensures r.name != "" && r.role != ""
  {
    Character(
      id := CharacterId(c, suffix),
      name := Or(c.name, UnknownName),
      role := Or(c.role, UnknownRole),
      description := Or(c.description, ""),
      traits := c.traits.GetOr([]))
  }

  /** The id is chosen in order: given id, whitespace-free name, `char_` fallback; it is empty only for a blank name. */
  lemma {:induction false} CharacterIdChoice(c: RawCharacter, suffix: string)
    ensures var id := NormalizeCharacter(c, suffix).id;
      && (Truthy(c.id) ==> id == c.id.value)
      && (!Truthy(c.id) && Truthy(c.name) ==> id == StripWhitespace(c.name.value) && NoWhitespace(id))
      && (!Truthy(c.id) && !Truthy(c.name) ==> |id| >= 5 && id[..5] == "char_")
      && (id == "" <==> !Truthy(c.id) && Truthy(c.name) && AllWhitespace(c.name.value))
  {
    if !Truthy(c.id) && Truthy(c.name) {
      StripEmptyIffBlank(c.name.value);
    }
  }

  /** Missing or empty fields take their defaults; present ones are kept. */
  lemma {:induction false} CharacterDefaults(c: RawCharacter, suffix: string)
    ensures var r := NormalizeCharacter(c, suffix);
      && r.name == (if Truthy(c.name) then c.name.value else "Unknown Character")
      && r.description == (if Truthy(c.description) then c.description.value else "")
      && r.role == (if Truthy(c.role) then c.role.value else "Unknown")
      && r.traits == (if c.traits.Some? then c.traits.value else [])
  {
  }

  /** `(parsedData.characters || []).map(...)`. */
  function NormalizeCharacters(raw: Option<seq<RawCharacter>>, charSuffix: nat -> string): (r: seq<Character>)
    ensures |r| == |raw.GetOr([])|
  {
    var cs := raw.GetOr([]);
    seq(|cs|, i requires 0 <= i < |cs| => NormalizeCharacter(cs[i], charSuffix(i)))
  }

  // -------------------------------------------------------- name -> id map

  /**
    The name -> id map after setting, in array order, the entry of every character
    with a non-empty name: a later character with the same name overwrites an earlier one.
  */
  function IdIndex(cs: seq<Character>): (m: map<string, string>)
    ensures "" !in m
  {
    if cs == [] then map[]
    else
      var c := cs[|cs| - 1];
      if c.name != "" then IdIndex(cs[..|cs| - 1])[c.name := c.id] else IdIndex(cs[..|cs| - 1])
  }

  /** The `forEach` that fills the map. */
  method BuildIdIndex(characters: seq<Character>) returns (index: map<string, string>)
    ensures index == IdIndex(characters)
  {
    index := map[];
    for i := 0 to |characters|
      invariant index == IdIndex(characters[..i])
    {
      var c := characters[i];
      if c.name != "" {
        index := index[c.name := c.id];
      }
      assert characters[..i + 1][..i] == characters[..i];
    }
    assert characters[..|characters|] == characters;
  }

  /** Last write wins: a non-empty name maps to the id of the last character carrying it. */
  lemma {:induction false} IdIndexLastWriteWins(cs: seq<Character>, name: string)
    ensures name in IdIndex(cs) <==> name != "" && name in Names(cs)
    ensures name in IdIndex(cs) ==> IdIndex(cs)[name] == cs[LastIndex(Names(cs), name).value].id
  {
    if cs != [] {
      var init := cs[..|cs| - 1];
      IdIndexLastWriteWins(init, name);
      assert Names(cs)[..|cs| - 1] == Names(init);
      assert Names(cs) == Names(init) + [cs[|cs| - 1].name];
    }
  }

  /** `characterIdMap.get(raw) || raw`. */
  function Resolve(index: map<string, string>, raw: string): string {
    if raw in index && index[raw] != "" then index[raw] else raw
  }

  /**
    An endpoint that names a character becomes the id of the last character with that
    name, unless that id is empty; any other endpoint is kept as it is.
  */
  lemma {:induction false} ResolveByName(cs: seq<Character>, raw: string)
    ensures var last := LastIndex(Names(cs), raw);
      Resolve(IdIndex(cs), raw)
        == if raw != "" && last.Some? && cs[last.value].id != "" then cs[last.value].id else raw
  {
    IdIndexLastWriteWins(cs, raw);
  }

  // --------------------------------------------------------- relationships

  /** The kind when it is one of the five spellings, `ally` otherwise (absent included). */
  function CoerceType(kind: Option<string>): (r: RelationType)
    ensures kind.Some? && ParseType(kind.value).Some? ==> TypeName(r) == kind.value
    ensures !(kind.Some? && ParseType(kind.value).Some?) ==> r == Ally
  {
    if Truthy(kind) && ParseType(kind.value).Some? then ParseType(kind.value).value else Ally
  }

  /** `max(0, min(10, s))` for a number, 0 for anything else. */
  function ClampSignificance(s: Significance): (r: int)
    ensures 0 <= r <= 10
    ensures s.Number? && 0 <= s.n <= 10 ==> r == s.n
    ensures s.Number? && s.n > 10 ==> r == 10
    ensures !(s.Number? && s.n > 0) ==> r == 0
  {
    if s.Number? then Max(0, Min(10, s.n)) else 0
  }

  /** The clamp on a few sample values. */
  lemma {:induction false} ClampExamples()
    ensures ClampSignificance(Number(-5)) == 0 && ClampSignificance(Number(0)) == 0
    ensures ClampSignificance(Number(7)) == 7 && ClampSignificance(Number(15)) == 10
    ensures ClampSignificance(NotANumber) == 0 && ClampSignificance(Missing) == 0
  {
  }

  function NormalizeRelationship(rel: RawRelationship, index: map<string, string>, suffix: string): Relationship {
    var source := Resolve(index, Or(rel.source, ""));
    var target := Resolve(index, Or(rel.target, ""));
    Relationship(
      id := Or(rel.id, "rel_" + source + "_" + target + "_" + suffix),
      source := source,
      target := target,
      kind := CoerceType(rel.kind),
      description := Or(rel.description, ""),
      significance := ClampSignificance(rel.significance))
  }

  /** `(parsedData.relationships || []).map(...)`. */
  function NormalizeRelationships(raw: Option<seq<RawRelationship>>, index: map<string, string>, relSuffix: nat -> string): (r: seq<Relationship>)
    ensures |r| == |raw.GetOr([])|
  {
    var rs := raw.GetOr([]);
    seq(|rs|, j requires 0 <= j < |rs| => NormalizeRelationship(rs[j], index, relSuffix(j)))
  }

  // ------------------------------------------------------------- the whole

  /** The normalised result, as a function of the parsed reply. */
  function Sanitize(data: RawAnalysis, charSuffix: nat -> string, relSuffix: nat -> string): AnalysisResult {
    var characters := NormalizeCharacters(data.characters, charSuffix);
    var analysis := data.analysis.GetOr(NoAnalysis);
    AnalysisResult(
      summary := Or(data.summary, ""),
      analysis := BookAnalysis(analysis.themes.GetOr([]), Or(analysis.setting, ""), Or(analysis.timeframe, "")),
      characters := characters,
      relationships := NormalizeRelationships(data.relationships, IdIndex(characters), relSuffix),
      rawOutput := None)
  }

  /** `sanitizeAnalysisResult`: map the characters, fill the name -> id map in a loop, map the relationships. */
  method SanitizeAnalysisResult(data: RawAnalysis, charSuffix: nat -> string, relSuffix: nat -> string)
    returns (result: AnalysisResult)
    ensures result == Sanitize(data, charSuffix, relSuffix)
  {
    var characters := NormalizeCharacters(data.characters, charSuffix);
    var index := BuildIdIndex(characters);
    var relationships := NormalizeRelationships(data.relationships, index, relSuffix);
    var analysis := data.analysis.GetOr(NoAnalysis);
    result := AnalysisResult(
      Or(data.summary, ""),
      BookAnalysis(analysis.themes.GetOr([]), Or(analysis.setting, ""), Or(analysis.timeframe, "")),
      characters,
      relationships,
      None);
  }

  /** Both arrays keep their length and order; an absent array becomes empty. */
  lemma {:induction false} SanitizeKeepsOrder(data: RawAnalysis, charSuffix: nat -> string, relSuffix: nat -> string)
    ensures var r := Sanitize(data, charSuffix, relSuffix);
      && |r.characters| == (if data.characters.Some? then |data.characters.value| else 0)
      && |r.relationships| == (if data.relationships.Some? then |data.relationships.value| else 0)
      && (forall i :: 0 <= i < |r.characters| ==>
            r.characters[i] == NormalizeCharacter(data.characters.value[i], charSuffix(i)))
      && (forall j :: 0 <= j < |r.relationships| ==>
            r.relationships[j] == NormalizeRelationship(data.relationships.value[j], IdIndex(r.characters), relSuffix(j)))
  {
  }

  /** Summary fields default to empty; nothing beyond the schema, `rawOutput` included, is carried over. */
  lemma {:induction false} SanitizeSummaryDefaults(data: RawAnalysis, charSuffix: nat -> string, relSuffix: nat -> string)
    ensures var r := Sanitize(data, charSuffix, relSuffix);
      var a := if data.analysis.Some? then data.analysis.value else NoAnalysis;
      && r.summary == (if Truthy(data.summary) then data.summary.value else "")
      && r.analysis.themes == (if a.themes.Some? then a.themes.value else [])
      && r.analysis.setting == (if Truthy(a.setting) then a.setting.value else "")
      && r.analysis.timeframe == (if Truthy(a.timeframe) then a.timeframe.value else "")
      && r.rawOutput.None?
  {
  }

  /** Every normalised character has a name, so every character's name is a key of the map. */
  lemma {:induction false} EveryCharacterIndexed(data: RawAnalysis, charSuffix: nat -> string, i: nat)
    requires i < |NormalizeCharacters(data.characters, charSuffix)|
    ensures var cs := NormalizeCharacters(data.characters, charSuffix);
      cs[i].name in IdIndex(cs)
  {
    var cs := NormalizeCharacters(data.characters, charSuffix);
    assert cs[i] == NormalizeCharacter(data.characters.value[i], charSuffix(i));
    assert Names(cs)[i] == cs[i].name;
    IdIndexLastWriteWins(cs, cs[i].name);
  }

  /**
    Endpoint resolution on the whole result: a `source` equal to a character's name
    becomes the id of the last character with that name when that id is non-empty;
    otherwise it stays the raw value, or "" when absent. The same holds for `target`.
  */
  lemma {:induction false} SanitizeResolvesEndpoints(data: RawAnalysis, charSuffix: nat -> string, relSuffix: nat -> string, j: nat)
    requires data.relationships.Some? && j < |data.relationships.value|
    ensures var r := Sanitize(data, charSuffix, relSuffix);
      var cs := r.characters;
      var raw := data.relationships.value[j];
      var src, tgt := Or(raw.source, ""), Or(raw.target, "");
      var ls, lt := LastIndex(Names(cs), src), LastIndex(Names(cs), tgt);
      && r.relationships[j].source == (if src != "" && ls.Some? && cs[ls.value].id != "" then cs[ls.value].id else src)
      && r.relationships[j].target == (if tgt != "" && lt.Some? && cs[lt.value].id != "" then cs[lt.value].id else tgt)
  {
    var r := Sanitize(data, charSuffix, relSuffix);
    var cs := r.characters;
    var raw := data.relationships.value[j];
    assert r.relationships[j] == NormalizeRelationship(raw, IdIndex(cs), relSuffix(j));
    ResolveByName(cs, Or(raw.source, ""));
    ResolveByName(cs, Or(raw.target, ""));
  }

  /** A source or target that names a character with a non-empty id resolves to the id of a character of the same result. */
  lemma {:induction false} NamedEndpointIsCharacterId(data: RawAnalysis, charSuffix: nat -> string, relSuffix: nat -> string, j: nat)
    requires data.relationships.Some? && j < |data.relationships.value|
    ensures var r := Sanitize(data, charSuffix, relSuffix);
      var cs := r.characters;
      var src := Or(data.relationships.value[j].source, "");
      src in Names(cs) && cs[LastIndex(Names(cs), src).value].id != "" ==>
        r.relationships[j].source in Ids(cs)
    ensures var r := Sanitize(data, charSuffix, relSuffix);
      var cs := r.characters;
      var tgt := Or(data.relationships.value[j].target, "");
      tgt in Names(cs) && cs[LastIndex(Names(cs), tgt).value].id != "" ==>
        r.relationships[j].target in Ids(cs)
  {
    SanitizeResolvesEndpoints(data, charSuffix, relSuffix, j);
    var r := Sanitize(data, charSuffix, relSuffix);
    var src := Or(data.relationships.value[j].source, "");
    var tgt := Or(data.relationships.value[j].target, "");
    var ls, lt := LastIndex(Names(r.characters), src), LastIndex(Names(r.characters), tgt);
    if ls.Some? {
      assert Ids(r.characters)[ls.value] == r.characters[ls.value].id;
    }
    if lt.Some? {
      assert Ids(r.characters)[lt.value] == r.characters[lt.value].id;
    }
  }

  /** Kind, significance, description and id of each normalised relationship. */
  lemma {:induction false} SanitizeRelationshipFields(data: RawAnalysis, charSuffix: nat -> string, relSuffix: nat -> string, j: nat)
    requires data.relationships.Some? && j < |data.relationships.value|
    ensures var out := Sanitize(data, charSuffix, relSuffix).relationships[j];
      var raw := data.relationships.value[j];
      && (out.kind == Ally <==> !(raw.kind.Some? && ParseType(raw.kind.value).Some?) || raw.kind == Some("ally"))
      && 0 <= out.significance <= 10
      && out.description == (if Truthy(raw.description) then raw.description.value else "")
      && (Truthy(raw.id) ==> out.id == raw.id.value)
      && (!Truthy(raw.id) ==> out.id == "rel_" + out.source + "_" + out.target + "_" + relSuffix(j))
  {
    var r := Sanitize(data, charSuffix, relSuffix);
    var raw := data.relationships.value[j];
    assert r.relationships[j] == NormalizeRelationship(raw, IdIndex(r.characters), relSuffix(j));
    if raw.kind.Some? && ParseType(raw.kind.value).Some? {
      var t := ParseType(raw.kind.value).value;
      ParseTypeName(Ally);
      assert TypeName(t) == raw.kind.value;
    }
  }

  /** A suffix source for the examples below (the suffix plays no part in them). */
  function NoSuffix(i: nat): string {
    ""
  }

  /**
    An endpoint that names no character passes through unchanged, so a
    relationship can point at a character that does not exist.
  */
  lemma {:induction false} PhantomEndpoint()
    ensures var data := RawAnalysis(None, None,
                                    Some([RawCharacter(Some("jane"), Some("Jane"), None, None, None)]),
                                    Some([RawRelationship(Some("r1"), Some("Jane"), Some("Nobody"), None, None, Missing)]));
      var r := Sanitize(data, NoSuffix, NoSuffix);
      r.relationships[0].source == "jane" && r.relationships[0].target == "Nobody"
      && "Nobody" !in Ids(r.characters)
  {
    var raw := RawCharacter(Some("jane"), Some("Jane"), None, None, None);
    var cs := NormalizeCharacters(Some([raw]), NoSuffix);
    assert cs[0] == NormalizeCharacter(raw, NoSuffix(0)) && NoSuffix(0) == "";
    assert cs == [Character("jane", "Jane", "Unknown", "", [])];
    assert cs[..0] == [];
    assert IdIndex(cs) == map["Jane" := "jane"];
    var rel := RawRelationship(Some("r1"), Some("Jane"), Some("Nobody"), None, None, Missing);
    var r := Sanitize(RawAnalysis(None, None, Some([raw]), Some([rel])), NoSuffix, NoSuffix);
    assert r.characters == cs;
    assert r.relationships[0] == NormalizeRelationship(rel, IdIndex(cs), NoSuffix(0));
    assert Ids(cs) == ["jane"];
  }

  /**
    A character without an id whose name is only whitespace gets the empty id, and a
    relationship naming it keeps the name, because the map's empty id reads as missing.
  */
  lemma {:induction false} BlankNameGivesEmptyId()
    ensures var data := RawAnalysis(None, None,
                                    Some([RawCharacter(None, Some(" "), None, None, None)]),
                                    Some([RawRelationship(Some("r1"), Some(" "), Some(" "), None, None, Missing)]));
      var r := Sanitize(data, NoSuffix, NoSuffix);
      r.characters[0].id == "" && r.relationships[0].source == " "
  {
    var raw := RawCharacter(None, Some(" "), None, None, None);
    var cs := NormalizeCharacters(Some([raw]), NoSuffix);
    assert StripWhitespace(" ") == "";
    assert cs[0] == NormalizeCharacter(raw, NoSuffix(0)) && NoSuffix(0) == "";
    assert cs == [Character("", " ", "Unknown", "", [])];
    assert cs[..0] == [];
    assert IdIndex(cs) == map[" " := ""];
    var rel := RawRelationship(Some("r1"), Some(" "), Some(" "), None, None, Missing);
    var r := Sanitize(RawAnalysis(None, None, Some([raw]), Some([rel])), NoSuffix, NoSuffix);
    assert r.characters == cs;
    assert r.relationships[0] == NormalizeRelationship(rel, IdIndex(cs), NoSuffix(0));
  }

  /**
    The worked scenario: one character with an id, one without whose name is two
    words (say "Jane Eyre"), and a relationship naming the second by its name and the
    first by its id. Both characters get distinct non-empty ids ("JaneEyre"), and
    both endpoints resolve to them.
  */
  lemma {:induction false} TwoCharacterScenario(givenId: string, otherName: string, first: string, last: string)
    requires givenId != "" && first != "" && NoWhitespace(first) && NoWhitespace(last)
    requires givenId != first + last
    requires otherName != "" && givenId != otherName && givenId != first + " " + last
    ensures var data := RawAnalysis(None, None,
                                    Some([RawCharacter(Some(givenId), Some(otherName), None, None, None),
                                          RawCharacter(None, Some(first + " " + last), None, None, None)]),
                                    Some([RawRelationship(None, Some(first + " " + last), Some(givenId), Some("romance"), None, Number(15))]));
      var r := Sanitize(data, NoSuffix, NoSuffix);
      && Ids(r.characters) == [givenId, first + last]
      && r.relationships[0].source == first + last && r.relationships[0].target == givenId
      && r.relationships[0].kind == Romance && r.relationships[0].significance == 10
      && r.relationships[0].id == "rel_" + (first + last) + "_" + givenId + "_"
  {
    var name := first + " " + last;
    var other := RawCharacter(Some(givenId), Some(otherName), None, None, None);
    var named := RawCharacter(None, Some(name), None, None, None);
    var cs := NormalizeCharacters(Some([other, named]), NoSuffix);
    StripOneSpace(first, last);
    assert cs[0] == NormalizeCharacter(other, NoSuffix(0));
    assert cs[1] == NormalizeCharacter(named, NoSuffix(1));
    assert cs[1].id == first + last && cs[1].name == name;
    assert cs[..1] == [cs[0]] && [cs[0]][..0] == [];
    assert cs[0].name == otherName;
    var index := IdIndex(cs);
    assert index == IdIndex([cs[0]])[name := first + last];
    assert IdIndex([cs[0]]) == map[otherName := givenId];
    assert givenId !in index;
    var rel := RawRelationship(None, Some(name), Some(givenId), Some("romance"), None, Number(15));
    var r := Sanitize(RawAnalysis(None, None, Some([other, named]), Some([rel])), NoSuffix, NoSuffix);
    assert r.characters == cs;
    assert r.relationships[0] == NormalizeRelationship(rel, index, NoSuffix(0));
    assert ParseType("romance") == Some(Romance);
  }

  // ------------------------------------------------------- parse and wrap

  /** The reply's JSON candidate handed to the parser; a parser exception becomes an error. */
  function ParseReply(parse: Parser, reply: string): Result<JsonValue, string> {
    match parse(JsonCandidate(reply))
    case None => Failure(InvalidJsonMessage)
    case Some(v) => Success(v)
  }

  /**
    `analyzeText` from the model's reply on: parse, then sanitize. The outer handler
    turns every error that is not an HTTP-client error into the one generic message:
    the parse error, and the TypeError of reading a field of `null`.
  */
  function Analyze(parse: Parser, reply: string, charSuffix: nat -> string, relSuffix: nat -> string): Result<AnalysisResult, string> {
    match ParseReply(parse, reply)
    case Failure(_) => Failure(UnexpectedMessage)
    case Success(Null) => Failure(UnexpectedMessage)
    case Success(Value(data)) => Success(Sanitize(data, charSuffix, relSuffix))
  }

  method AnalyzeText(parse: Parser, reply: string, charSuffix: nat -> string, relSuffix: nat -> string)
    returns (result: Result<AnalysisResult, string>)
    ensures result == Analyze(parse, reply, charSuffix, relSuffix)
  {
    var parsed := ParseReply(parse, reply);
    if parsed.Failure? {
      return Failure(UnexpectedMessage);
    }
    match parsed.value
    case Null =>
      result := Failure(UnexpectedMessage);
    case Value(data) =>
      var sanitized := SanitizeAnalysisResult(data, charSuffix, relSuffix);
      result := Success(sanitized);
  }

  /** The call fails exactly when the candidate does not parse or parses to `null`, always with the generic message. */
  lemma {:induction false} AnalyzeFailsOnlyOnBadJson(parse: Parser, reply: string, charSuffix: nat -> string, relSuffix: nat -> string)
    ensures var r := Analyze(parse, reply, charSuffix, relSuffix);
      var parsed := parse(JsonCandidate(reply));
      && (r.Failure? <==> parsed.None? || parsed == Some(Null))
      && (r.Failure? ==> r.error == UnexpectedMessage)
      && (r.Success? ==> r.value == Sanitize(parsed.value.data, charSuffix, relSuffix))
  {
  }

  /** Commentary around the object does not matter: only the braced span reaches the parser. */
  lemma {:induction false} CommentaryIgnored(parse: Parser, prose: string, obj: string, tail: string, charSuffix: nat -> string, relSuffix: nat -> string)
    requires '{' !in prose && '}' !in tail
    requires |obj| >= 2 && obj[0] == '{' && obj[|obj| - 1] == '}'
    ensures Analyze(parse, prose + obj + tail, charSuffix, relSuffix) == Analyze(parse, obj, charSuffix, relSuffix)
  {
    ExtractsEmbeddedObject(prose, obj, tail);
    ExtractsEmbeddedObject([], obj, []);
    assert [] + obj + [] == obj;
    assert ParseReply(parse, prose + obj + tail) == ParseReply(parse, obj);
  }
}
