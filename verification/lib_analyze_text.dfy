/**
  The older normaliser, the one the analyze-book route calls. It casts the parsed
  reply to the result type and repairs it in place: it stores the reply in
  `rawOutput`, gives every character an id, builds a name -> id map and rewrites
  relationship endpoints and ids. Unlike the newer normaliser it keeps every field as
  the model sent it, coerces and clamps nothing, builds deterministic relationship ids,
  and throws when an array or a needed name is missing.
*/
module LibAnalyzeText {
  import opened Wrappers
  import opened Seqs
  import opened Strings
  import opened JsonSpan
  import opened Types
  import opened Raw

  /** How much of the book text the prompt embeds. */
  const MaxTextLength: nat := 50000

  /** The one message every failure surfaces as. */
  const FailureMessage := "Failed to analyze book text"

  /** A character after the id repair: the id is now a string; every other field is as sent. */
  datatype LooseCharacter = LooseCharacter(
    id: string,
    name: Option<string>,
    description: Option<string>,
    role: Option<string>,
    traits: Option<seq<string>>)

  /** A relationship after the rewrite: id present, endpoints resolved, the rest as sent. */
  datatype LooseRelationship = LooseRelationship(
    id: string,
    source: Option<string>,
    target: Option<string>,
    kind: Option<string>,
    description: Option<string>,
    significance: Significance)

  /** The repaired object, still of the loose shape the reply had, plus `rawOutput`. */
  datatype LooseResult = LooseResult(
    summary: Option<string>,
    analysis: Option<RawBookAnalysis>,
    characters: seq<LooseCharacter>,
    relationships: seq<LooseRelationship>,
    rawOutput: string)

  /** The prompt: fixed instructions, the metadata as JSON, and a bounded prefix of the text. */
  function GetPrompt(metadata: BookMetadata, text: string, preamble: string, stringify: BookMetadata -> string): string {
    preamble + "Book metadata: " + stringify(metadata) + "\nBook text: " + Truncate(text, MaxTextLength) + "..."
  }

  /** The prompt ends with exactly the first min(|text|, 50000) characters of the text and "...". */
  lemma {:induction false} PromptEmbedsPrefix(metadata: BookMetadata, text: string, preamble: string, stringify: BookMetadata -> string)
    ensures var p := GetPrompt(metadata, text, preamble, stringify);
            var n := Min(|text|, MaxTextLength);
            |p| >= n + 3 && p[|p| - n - 3..] == text[..n] + "..."
  {
    var p := GetPrompt(metadata, text, preamble, stringify);
    var head := preamble + "Book metadata: " + stringify(metadata) + "\nBook text: ";
    var tail := Truncate(text, MaxTextLength) + "...";
    assert p == head + tail;
    assert p[|head|..] == tail;
  }

  // ------------------------------------------------------------ characters

  /** A character can be given an id: it has a non-empty id, or it has a name to derive one from. */
  predicate Identifiable(c: RawCharacter) {
    Truthy(c.id) || c.name.Some?
  }

  /** `{...character, id: character.id || character.name.replace(/\s+/g, '')}`; `None` where it throws. */
  function WithId(c: RawCharacter): (r: Option<LooseCharacter>)
    ensures r.Some? <==> Identifiable(c)
  {
    if Truthy(c.id) then Some(LooseCharacter(c.id.value, c.name, c.description, c.role, c.traits))
    else if c.name.Some? then Some(LooseCharacter(StripWhitespace(c.name.value), c.name, c.description, c.role, c.traits))
    else None
  }

  /** The characters' `map`: all repaired, or a throw at the first that cannot be. */
  function WithIds(cs: seq<RawCharacter>): (r: Option<seq<LooseCharacter>>)
    ensures r.Some? <==> forall i :: 0 <= i < |cs| ==> Identifiable(cs[i])
    ensures r.Some? ==> |r.value| == |cs| && forall i :: 0 <= i < |cs| ==> WithId(cs[i]) == Some(r.value[i])
  {
    if cs == [] then Some([])
    else
      match (WithId(cs[0]), WithIds(cs[1..]))
      case (Some(c), Some(rest)) =>
        assert forall i :: 1 <= i < |cs| ==> cs[i] == cs[1..][i - 1];
        Some([c] + rest)
      case (None, _) => None
      case (_, None) =>
        assert forall i :: 0 <= i < |cs[1..]| ==> cs[1..][i] == cs[i + 1];
        None
  }

  /** Each repaired character keeps every field; its id is the given one or the name without whitespace. */
  lemma {:induction false} WithIdKeepsFields(c: RawCharacter)
    requires Identifiable(c)
    ensures var r := WithId(c).value;
      && r.name == c.name && r.description == c.description && r.role == c.role && r.traits == c.traits
      && r.id == (if Truthy(c.id) then c.id.value else StripWhitespace(c.name.value))
      && (!Truthy(c.id) ==> NoWhitespace(r.id))
  {
  }

  // -------------------------------------------------------- name -> id map

  /** The names as sent, absent ones included: an absent name is a key too. */
  function LooseNames(cs: seq<LooseCharacter>): (r: seq<Option<string>>)
    ensures |r| == |cs| && forall i :: 0 <= i < |cs| ==> r[i] == cs[i].name
  {
    seq(|cs|, i requires 0 <= i < |cs| => cs[i].name)
  }

  /** The map after `set(character.name, character.id)` for every character in array order. */
  function NameIndex(cs: seq<LooseCharacter>): map<Option<string>, string> {
    if cs == [] then map[]
    else NameIndex(cs[..|cs| - 1])[cs[|cs| - 1].name := cs[|cs| - 1].id]
  }

  /** The `forEach` that fills the map. */
  method BuildNameIndex(characters: seq<LooseCharacter>) returns (index: map<Option<string>, string>)
    ensures index == NameIndex(characters)
  {
    index := map[];
    for i := 0 to |characters|
      invariant index == NameIndex(characters[..i])
    {
      index := index[characters[i].name := characters[i].id];
      assert characters[..i + 1][..i] == characters[..i];
    }
    assert characters[..|characters|] == characters;
  }

  /** Last write wins: every name sent is a key, and maps to the id of the last character carrying it. */
  lemma {:induction false} NameIndexLastWriteWins(cs: seq<LooseCharacter>, name: Option<string>)
    ensures name in NameIndex(cs) <==> name in LooseNames(cs)
    ensures name in NameIndex(cs) ==> NameIndex(cs)[name] == cs[LastIndex(LooseNames(cs), name).value].id
  {
    if cs != [] {
      var init := cs[..|cs| - 1];
      NameIndexLastWriteWins(init, name);
      assert LooseNames(cs)[..|cs| - 1] == LooseNames(init);
      assert LooseNames(cs) == LooseNames(init) + [cs[|cs| - 1].name];
    }
  }

  // --------------------------------------------------------- relationships

  /** `characterIdMap.get(endpoint) || endpoint`. */
  function ResolveEndpoint(index: map<Option<string>, string>, endpoint: Option<string>): Option<string> {
    if endpoint in index && index[endpoint] != "" then Some(index[endpoint]) else endpoint
  }

  /** What a template literal prints for a possibly absent string. */
  function Render(v: Option<string>): string {
    if v.Some? then v.value else "undefined"
  }

  /** `{...relationship, id: relationship.id || `rel_${sourceId}_${targetId}`, source, target}`. */
  function RewriteRelationship(rel: RawRelationship, index: map<Option<string>, string>): LooseRelationship {
    var source := ResolveEndpoint(index, rel.source);
    var target := ResolveEndpoint(index, rel.target);
    LooseRelationship(Or(rel.id, "rel_" + Render(source) + "_" + Render(target)), source, target,
                      rel.kind, rel.description, rel.significance)
  }

  /**
    An endpoint that some character carries as its name becomes the id of the last
    such character when that id is non-empty; otherwise it is kept as sent.
  */
  lemma {:induction false} ResolveByName(cs: seq<LooseCharacter>, endpoint: Option<string>)
    ensures var last := LastIndex(LooseNames(cs), endpoint);
      ResolveEndpoint(NameIndex(cs), endpoint)
        == if last.Some? && cs[last.value].id != "" then Some(cs[last.value].id) else endpoint
  {
    NameIndexLastWriteWins(cs, endpoint);
  }

  // ------------------------------------------------------------- the whole

  /**
    `analyzeText` from the model's reply on. Every throw inside (the parse, a field
    read on `null`, `map` on an absent array, `replace` on an absent name) is caught
    and rethrown as the one message.
  */
  function Analyze(parse: Parser, reply: string): Result<LooseResult, string> {
    match parse(JsonCandidate(reply))
    case None => Failure(FailureMessage)
    case Some(Null) => Failure(FailureMessage)
    case Some(Value(data)) =>
      if data.characters.None? then Failure(FailureMessage)
      else
        match WithIds(data.characters.value)
        case None => Failure(FailureMessage)
        case Some(characters) =>
          if data.relationships.None? then Failure(FailureMessage)
          else
            var index := NameIndex(characters);
            var rs := data.relationships.value;
            Success(LooseResult(data.summary, data.analysis, characters,
                                seq(|rs|, j requires 0 <= j < |rs| => RewriteRelationship(rs[j], index)),
                                reply))
  }

  /** The steps in the order the source takes them, each result field computed in turn. */
  method AnalyzeText(parse: Parser, reply: string) returns (result: Result<LooseResult, string>)
    ensures result == Analyze(parse, reply)
  {
    var parsed := parse(JsonCandidate(reply));
    if parsed.None? || parsed.value.Null? {
      return Failure(FailureMessage);
    }
    var data := parsed.value.data;
    var rawOutput := reply;
    if data.characters.None? {
      return Failure(FailureMessage);
    }
    var characters := WithIds(data.characters.value);
    if characters.None? {
      return Failure(FailureMessage);
    }
    var index := BuildNameIndex(characters.value);
    if data.relationships.None? {
      return Failure(FailureMessage);
    }
    var rs := data.relationships.value;
    var relationships := seq(|rs|, j requires 0 <= j < |rs| => RewriteRelationship(rs[j], index));
    result := Success(LooseResult(data.summary, data.analysis, characters.value, relationships, rawOutput));
  }

  /** The data the call succeeds on: an object with both arrays, every character identifiable. */
  predicate Accepted(parsed: Option<JsonValue>) {
    && parsed.Some? && parsed.value.Value?
    && parsed.value.data.characters.Some? && parsed.value.data.relationships.Some?
    && forall i :: 0 <= i < |parsed.value.data.characters.value| ==> Identifiable(parsed.value.data.characters.value[i])
  }

  /** The call fails exactly when the data is not accepted, and always with the one message. */
  lemma {:induction false} AnalyzeFailsExactly(parse: Parser, reply: string)
    ensures var r := Analyze(parse, reply);
      && (r.Success? <==> Accepted(parse(JsonCandidate(reply))))
      && (r.Failure? ==> r.error == FailureMessage)
  {
  }

  /**
    On success: `rawOutput` is the whole reply; summary and analysis are as sent;
    the characters are the repaired ones in order; every relationship is rewritten,
    in order, keeping kind, description and significance exactly as sent.
  */
  lemma {:induction false} AnalyzeResultShape(parse: Parser, reply: string)
    requires Analyze(parse, reply).Success?
    ensures var r := Analyze(parse, reply).value;
      var data := parse(JsonCandidate(reply)).value.data;
      var cs, rs := data.characters.value, data.relationships.value;
      && r.rawOutput == reply
      && r.summary == data.summary && r.analysis == data.analysis
      && |r.characters| == |cs| && |r.relationships| == |rs|
      && (forall i :: 0 <= i < |cs| ==> WithId(cs[i]) == Some(r.characters[i]))
      && (forall j :: 0 <= j < |rs| ==>
            && r.relationships[j].kind == rs[j].kind
            && r.relationships[j].description == rs[j].description
            && r.relationships[j].significance == rs[j].significance)
  {
  }

  /**
    On success, each relationship's endpoints resolve through the last character
    carrying them as a name, and its id is the one sent or exactly
    `rel_<source>_<target>`, with nothing random in it.
  */
  lemma {:induction false} AnalyzeRewritesRelationships(parse: Parser, reply: string, j: nat)
    requires Analyze(parse, reply).Success?
    requires j < |parse(JsonCandidate(reply)).value.data.relationships.value|
    ensures var r := Analyze(parse, reply).value;
      var raw := parse(JsonCandidate(reply)).value.data.relationships.value[j];
      var out := r.relationships[j];
      var cs := r.characters;
      var ls, lt := LastIndex(LooseNames(cs), raw.source), LastIndex(LooseNames(cs), raw.target);
      && out.source == (if ls.Some? && cs[ls.value].id != "" then Some(cs[ls.value].id) else raw.source)
      && out.target == (if lt.Some? && cs[lt.value].id != "" then Some(cs[lt.value].id) else raw.target)
      && out.id == (if Truthy(raw.id) then raw.id.value else "rel_" + Render(out.source) + "_" + Render(out.target))
  {
    var r := Analyze(parse, reply).value;
    var raw := parse(JsonCandidate(reply)).value.data.relationships.value[j];
    assert r.relationships[j] == RewriteRelationship(raw, NameIndex(r.characters));
    ResolveByName(r.characters, raw.source);
    ResolveByName(r.characters, raw.target);
  }

  /**
    A quirk of keeping absent names: a character with an id but no name puts the key
    `undefined` in the map, so a relationship without a `source` gets that id.
  */
  lemma {:induction false} AbsentSourceTakesNamelessId(parse: Parser, reply: string)
    requires parse(JsonCandidate(reply)) == Some(Value(RawAnalysis(None, None,
      Some([RawCharacter(Some("c1"), None, None, None, None)]),
      Some([RawRelationship(None, None, Some("c2"), None, None, Missing)]))))
    ensures Analyze(parse, reply).Success?
    ensures Analyze(parse, reply).value.relationships[0].source == Some("c1")
    ensures Analyze(parse, reply).value.relationships[0].id == "rel_c1_c2"
  {
    var raw := RawCharacter(Some("c1"), None, None, None, None);
    var c := LooseCharacter("c1", None, None, None, None);
    assert Identifiable([raw][0]);
    var ws := WithIds([raw]);
    assert WithId([raw][0]) == Some(ws.value[0]);
    assert ws.value == [c];
    assert [c][..0] == [];
    assert NameIndex([c]) == map[None := "c1"];
  }

  /** An absent endpoint that nothing resolves is printed as "undefined" in the generated id. */
  lemma {:induction false} AbsentTargetPrintsUndefined(parse: Parser, reply: string)
    requires parse(JsonCandidate(reply)) == Some(Value(RawAnalysis(None, None,
      Some([RawCharacter(Some("c1"), Some("Ann"), None, None, None)]),
      Some([RawRelationship(None, Some("Ann"), None, None, None, Missing)]))))
    ensures Analyze(parse, reply).Success?
    ensures Analyze(parse, reply).value.relationships[0].target == None
    ensures Analyze(parse, reply).value.relationships[0].id == "rel_c1_undefined"
  {
    var raw := RawCharacter(Some("c1"), Some("Ann"), None, None, None);
    var c := LooseCharacter("c1", Some("Ann"), None, None, None);
    assert Identifiable([raw][0]);
    var ws := WithIds([raw]);
    assert WithId([raw][0]) == Some(ws.value[0]);
    assert ws.value == [c];
    assert [c][..0] == [];
    assert NameIndex([c]) == map[Some("Ann") := "c1"];
  }
}
