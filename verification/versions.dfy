/**
  The two normalisers side by side. On replies where every character has a
  non-empty name, both assign the same ids, build maps with the same entries, and
  resolve every endpoint the same way. The newer one spells an absent endpoint ""
  where the older keeps it absent (and prints it as "undefined" in a generated id),
  and appends a random suffix to the ids it generates; when both endpoints are
  present, that suffix is the only difference between the generated ids.
*/
module Versions {
  import opened Wrappers
  import opened Raw
  import opened Types
  import opened JsonSpan
  import TextAnalysisService
  import LibAnalyzeText

  /** Characters of the two versions that agree on name and id, position by position. */
  predicate SameCharacters(ncs: seq<Character>, lcs: seq<LibAnalyzeText.LooseCharacter>) {
    && |ncs| == |lcs|
    && forall i :: 0 <= i < |ncs| ==> lcs[i].name == Some(ncs[i].name) && lcs[i].id == ncs[i].id && ncs[i].name != ""
  }

  /** Agreeing characters give maps with the same entries, and no entry for an absent name. */
  lemma {:induction false} IndexesAgree(ncs: seq<Character>, lcs: seq<LibAnalyzeText.LooseCharacter>, key: string)
    requires SameCharacters(ncs, lcs)
    ensures key in TextAnalysisService.IdIndex(ncs) <==> Some(key) in LibAnalyzeText.NameIndex(lcs)
    ensures key in TextAnalysisService.IdIndex(ncs) ==>
              TextAnalysisService.IdIndex(ncs)[key] == LibAnalyzeText.NameIndex(lcs)[Some(key)]
    ensures None !in LibAnalyzeText.NameIndex(lcs)
  {
    if ncs != [] {
      var n := |ncs|;
      assert SameCharacters(ncs[..n - 1], lcs[..n - 1]);
      IndexesAgree(ncs[..n - 1], lcs[..n - 1], key);
    }
  }

  /** On characters that all have a non-empty name, both versions assign the same names and ids. */
  lemma {:induction false} CharactersAgree(cs: seq<RawCharacter>, charSuffix: nat -> string)
    requires forall i :: 0 <= i < |cs| ==> Truthy(cs[i].name)
    ensures LibAnalyzeText.WithIds(cs).Some?
    ensures SameCharacters(TextAnalysisService.NormalizeCharacters(Some(cs), charSuffix), LibAnalyzeText.WithIds(cs).value)
  {
    var ncs := TextAnalysisService.NormalizeCharacters(Some(cs), charSuffix);
    var lcs := LibAnalyzeText.WithIds(cs).value;
    forall i | 0 <= i < |cs| ensures lcs[i].name == Some(ncs[i].name) && lcs[i].id == ncs[i].id && ncs[i].name != "" {
      assert ncs[i] == TextAnalysisService.NormalizeCharacter(cs[i], charSuffix(i));
      assert LibAnalyzeText.WithId(cs[i]) == Some(lcs[i]);
    }
  }

  /** One endpoint, resolved by both versions over agreeing characters. */
  lemma {:induction false} EndpointAgrees(endpoint: Option<string>, ncs: seq<Character>, lcs: seq<LibAnalyzeText.LooseCharacter>)
    requires SameCharacters(ncs, lcs)
    ensures LibAnalyzeText.ResolveEndpoint(LibAnalyzeText.NameIndex(lcs), endpoint).GetOr("")
              == TextAnalysisService.Resolve(TextAnalysisService.IdIndex(ncs), Or(endpoint, ""))
  {
    match endpoint
    case None =>
      IndexesAgree(ncs, lcs, "");
    case Some(name) =>
      IndexesAgree(ncs, lcs, name);
  }

  /**
    Over agreeing characters, a relationship gets the same endpoints in both versions
    (an absent one is "" in the newer). A given id is kept by both; a generated one is
    built by the newer from the same endpoints with "" for an absent one, and so, when
    both endpoints are present, differs from the older only by the random suffix.
  */
  lemma {:induction false} RelationshipAgrees(rel: RawRelationship, ncs: seq<Character>, lcs: seq<LibAnalyzeText.LooseCharacter>, suffix: string)
    requires SameCharacters(ncs, lcs)
    ensures var newer := TextAnalysisService.NormalizeRelationship(rel, TextAnalysisService.IdIndex(ncs), suffix);
      var older := LibAnalyzeText.RewriteRelationship(rel, LibAnalyzeText.NameIndex(lcs));
      && older.source.GetOr("") == newer.source
      && older.target.GetOr("") == newer.target
      && (Truthy(rel.id) ==> newer.id == older.id)
      && (!Truthy(rel.id) ==> newer.id == "rel_" + older.source.GetOr("") + "_" + older.target.GetOr("") + "_" + suffix)
      && (rel.source.Some? && rel.target.Some? && !Truthy(rel.id) ==> newer.id == older.id + "_" + suffix)
  {
    EndpointAgrees(rel.source, ncs, lcs);
    EndpointAgrees(rel.target, ncs, lcs);
  }

  /** Both versions, run on the same reply with the same parser. */
  lemma {:induction false} VersionsAgree(parse: Parser, reply: string, charSuffix: nat -> string, relSuffix: nat -> string)
    requires var parsed := parse(JsonCandidate(reply));
      && parsed.Some? && parsed.value.Value?
      && parsed.value.data.characters.Some? && parsed.value.data.relationships.Some?
      && forall i :: 0 <= i < |parsed.value.data.characters.value| ==> Truthy(parsed.value.data.characters.value[i].name)
    ensures var newer := TextAnalysisService.Analyze(parse, reply, charSuffix, relSuffix);
      var older := LibAnalyzeText.Analyze(parse, reply);
      var rs := parse(JsonCandidate(reply)).value.data.relationships.value;
      && newer.Success? && older.Success?
      && SameCharacters(newer.value.characters, older.value.characters)
      && |newer.value.relationships| == |older.value.relationships| == |rs|
      && forall j :: 0 <= j < |rs| ==>
           && older.value.relationships[j].source.GetOr("") == newer.value.relationships[j].source
           && older.value.relationships[j].target.GetOr("") == newer.value.relationships[j].target
           && (Truthy(rs[j].id) ==> newer.value.relationships[j].id == older.value.relationships[j].id)
           && (!Truthy(rs[j].id) ==>
                 newer.value.relationships[j].id
                   == "rel_" + older.value.relationships[j].source.GetOr("") + "_"
                      + older.value.relationships[j].target.GetOr("") + "_" + relSuffix(j))
           && (rs[j].source.Some? && rs[j].target.Some? && !Truthy(rs[j].id) ==>
                 newer.value.relationships[j].id == older.value.relationships[j].id + "_" + relSuffix(j))
  {
    var data := parse(JsonCandidate(reply)).value.data;
    var cs, rs := data.characters.value, data.relationships.value;
    CharactersAgree(cs, charSuffix);
    var newer := TextAnalysisService.Sanitize(data, charSuffix, relSuffix);
    var older := LibAnalyzeText.Analyze(parse, reply).value;
    var ncs, lcs := newer.characters, older.characters;
    assert SameCharacters(ncs, lcs);
    forall j | 0 <= j < |rs|
      ensures older.relationships[j].source.GetOr("") == newer.relationships[j].source
      ensures older.relationships[j].target.GetOr("") == newer.relationships[j].target
      ensures Truthy(rs[j].id) ==> newer.relationships[j].id == older.relationships[j].id
      ensures !Truthy(rs[j].id) ==>
                newer.relationships[j].id
                  == "rel_" + older.relationships[j].source.GetOr("") + "_" + older.relationships[j].target.GetOr("") + "_" + relSuffix(j)
      ensures rs[j].source.Some? && rs[j].target.Some? && !Truthy(rs[j].id) ==>
                newer.relationships[j].id == older.relationships[j].id + "_" + relSuffix(j)
    {
      assert newer.relationships[j] == TextAnalysisService.NormalizeRelationship(rs[j], TextAnalysisService.IdIndex(ncs), relSuffix(j));
      assert older.relationships[j] == LibAnalyzeText.RewriteRelationship(rs[j], LibAnalyzeText.NameIndex(lcs));
      RelationshipAgrees(rs[j], ncs, lcs, relSuffix(j));
    }
  }
}
