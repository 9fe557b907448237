# Book analysis normalisers

This project models how a book-analysis web app turns a language model's free-text
reply into the structured `AnalysisResult` its pages draw. The result holds a summary,
themes and setting, a list of characters and a list of relationships between them.
Two versions of that step exist in the repository, and both are modelled:

- **`TextAnalysisService`** (`app/services/textAnalysisService.ts`) is the newer, lenient one.
  - It cuts the JSON object out of the reply and parses it.
  - It then runs `sanitizeAnalysisResult`: every missing field is defaulted and character ids are derived from names.
  - Relationship endpoints given as character names are resolved to ids through a name → id map.
  - Unknown relationship kinds become `ally`, and significance is clamped to [0, 10].
  - Every failure after the reply arrives surfaces as one generic message.
  - The prompt embeds at most 25000 characters of the book text.
- **`LibAnalyzeText`** (`app/lib/analyzeText.ts`) is the older one.
  - It casts the parsed reply to the result type and repairs it in place.
  - It stores the raw reply in `rawOutput` and gives characters ids.
  - It rewrites relationship endpoints and ids, and leaves every other field as sent.
  - It fails, with one message, when an array or a needed name is missing.
  - The prompt embeds at most 50000 characters.

The supporting modules are:

- `Seqs`: first and last index of an element.
- `Strings`: JavaScript's `\s` whitespace class, `replace(/\s+/g, '')` and `substring`.
- `JsonSpan`: the regular expression `/\{[\s\S]*\}/`, whose match is the span from the first `{` to the last `}`.
- `Types`: the domain types of `app/common/types.ts`.
- `Raw`: the reply as parsed, with every field optional. It also holds JavaScript's `||` on strings, where `""` counts as missing.
- `Versions`: relates the two normalisers to each other.

Four things the code depends on are parameters of the model:

- `JSON.parse` is a `Parser`. It returns `None` where the parse throws, `Some(Null)` for the literal `null`, and `Some(Value(data))` for any other value.
- The `Math.random()` id suffixes are `charSuffix` and `relSuffix`, indexed by the entry's position in its array.
- `JSON.stringify` of the metadata is `stringify`.
- The fixed wording of the prompt is `preamble`.

Each name → id map is built by a loop method (`BuildIdIndex`, `BuildNameIndex`). The loop is proved equal to a fold over the characters in which the last write wins.
`SanitizeAnalysisResult` and both `AnalyzeText` methods are proved equal to the functions `Sanitize` and `Analyze`, and the lemmas are stated about those functions.

Two behaviours of the code are worth stating outright:

- A character id is not always non-empty. A character without an id whose name is only whitespace gets the empty id (`BlankNameGivesEmptyId`).
- Relationship endpoints are not guaranteed to name existing characters. An endpoint that matches no name passes through unchanged (`PhantomEndpoint`).

## Model

| member | source | states |
|---|---|---|
| Strings.StripWhitespace | app/services/textAnalysisService.ts:139 | removing whitespace leaves no whitespace and never lengthens the string |
| Strings.StripConcat | app/services/textAnalysisService.ts:139 | removing whitespace commutes with concatenation |
| Strings.StripKeepsClean | app/services/textAnalysisService.ts:139 | a name without whitespace is its own id |
| Strings.StripEmptyIffBlank | app/services/textAnalysisService.ts:139 | the derived id is empty exactly when the name is all whitespace |
| Strings.StripIdempotent | app/services/textAnalysisService.ts:139 | deriving an id from a derived id changes nothing |
| Strings.StripOneSpace | app/services/textAnalysisService.ts:139 | two words joined by a space become the two words joined ("Jane Eyre" to "JaneEyre") |
| Strings.Truncate | app/services/textAnalysisService.ts:98 | `substring(0, n)` is the prefix of length min(length, n) |
| JsonSpan.JsonCandidate | app/services/textAnalysisService.ts:35-36 | with a `{` before a `}` the candidate starts with `{`, ends with `}` and is no longer than the reply; otherwise it is the whole reply |
| JsonSpan.CandidateIsOutermostSpan | app/services/textAnalysisService.ts:35-36 | the candidate is exactly the span from the first `{` to the last `}` |
| JsonSpan.ExtractsEmbeddedObject | app/lib/analyzeText.ts:33-35 | commentary without braces around an object is cut away, leaving exactly the object |
| JsonSpan.CandidateIdempotent | app/services/textAnalysisService.ts:35-36 | extracting from an extracted candidate changes nothing |
| Types.ParseType | app/common/types.ts:29 | a recognised kind is spelled exactly as the string read |
| Types.ParseTypeName | app/common/types.ts:29 | each of the five kinds is recognised from its own spelling |
| TextAnalysisService.PromptEmbedsPrefix | app/services/textAnalysisService.ts:97-98 | the prompt ends with the first min(length, 25000) characters of the text and "..." |
| TextAnalysisService.PromptSeesOnlyPrefix | app/services/textAnalysisService.ts:98 | two texts give the same prompt if and only if their first 25000 characters agree |
| TextAnalysisService.NormalizeCharacter | app/services/textAnalysisService.ts:138-144 | every normalised character has a non-empty name and a non-empty role |
| TextAnalysisService.CharacterIdChoice | app/services/textAnalysisService.ts:139 | the id is the given id, else the whitespace-free name, else `char_` and a suffix; it is empty if and only if there is no id and the name is all whitespace |
| TextAnalysisService.CharacterDefaults | app/services/textAnalysisService.ts:140-143 | missing or empty name, description and role take "Unknown Character", "" and "Unknown"; missing traits become [] |
| TextAnalysisService.NormalizeCharacters | app/services/textAnalysisService.ts:138 | an absent character array becomes empty; otherwise its length is kept |
| TextAnalysisService.IdIndex | app/services/textAnalysisService.ts:146-149 | the empty name is never a key of the name → id map |
| TextAnalysisService.BuildIdIndex | app/services/textAnalysisService.ts:146-149 | the `forEach` loop builds exactly the last-write-wins map |
| TextAnalysisService.IdIndexLastWriteWins | app/services/textAnalysisService.ts:146-149 | a string is a key if and only if it is a non-empty character name, and it maps to the id of the last character with that name |
| TextAnalysisService.ResolveByName | app/services/textAnalysisService.ts:155-159 | an endpoint naming a character becomes the id of the last character with that name unless that id is empty; anything else is kept |
| TextAnalysisService.CoerceType | app/services/textAnalysisService.ts:162-166 | a recognised kind is kept; any other or missing kind becomes `ally` |
| TextAnalysisService.ClampSignificance | app/services/textAnalysisService.ts:174 | significance lies in [0, 10]; a number in range is kept, above 10 gives 10, non-positive or non-number gives 0 |
| TextAnalysisService.ClampExamples | app/services/textAnalysisService.ts:174 | -5, 0, 7, 15, a non-number and a missing value give 0, 0, 7, 10, 0, 0 |
| TextAnalysisService.NormalizeRelationships | app/services/textAnalysisService.ts:152 | an absent relationship array becomes empty; otherwise its length is kept |
| TextAnalysisService.SanitizeAnalysisResult | app/services/textAnalysisService.ts:136-188 | the method, map loop included, computes exactly the normalised result `Sanitize` |
| TextAnalysisService.SanitizeKeepsOrder | app/services/textAnalysisService.ts:138-152 | both arrays keep length and order, entry i being the normalisation of raw entry i |
| TextAnalysisService.SanitizeSummaryDefaults | app/services/textAnalysisService.ts:178-187 | summary, themes, setting and timeframe default to empty, and no `rawOutput` is carried over |
| TextAnalysisService.EveryCharacterIndexed | app/services/textAnalysisService.ts:146-149 | every normalised character's name is a key of the map |
| TextAnalysisService.SanitizeResolvesEndpoints | app/services/textAnalysisService.ts:152-159 | on the whole result, source and target resolve through the last character carrying them as a name, or stay as sent ("" when absent) |
| TextAnalysisService.NamedEndpointIsCharacterId | app/services/textAnalysisService.ts:155-170 | a source or target naming a character whose last carrier has a non-empty id becomes the id of a character of the result |
| TextAnalysisService.SanitizeRelationshipFields | app/services/textAnalysisService.ts:161-175 | the kind is `ally` if and only if the kind was unrecognised or "ally"; significance is in [0, 10]; the description defaults to ""; the id is the given one or `rel_<source>_<target>_<suffix>` |
| TextAnalysisService.PhantomEndpoint | app/services/textAnalysisService.ts:155-159 | an endpoint that names no character passes through, so it can point at no character of the result |
| TextAnalysisService.BlankNameGivesEmptyId | app/services/textAnalysisService.ts:139-158 | a whitespace-only name without an id gives the empty id, and a relationship naming it keeps the name |
| TextAnalysisService.TwoCharacterScenario | app/services/textAnalysisService.ts:136-188 | two characters (one with an id, one named "First Last") get the ids given and "FirstLast"; a relationship naming them resolves to both, has kind `romance`, clamps 15 to 10 and gets the generated id |
| TextAnalysisService.AnalyzeText | app/services/textAnalysisService.ts:34-51 | the method computes `Analyze`: parse the candidate, then sanitize |
| TextAnalysisService.AnalyzeFailsOnlyOnBadJson | app/services/textAnalysisService.ts:34-51 | the call fails if and only if the candidate does not parse or parses to `null`, always with the generic message; otherwise it returns the normalised result |
| TextAnalysisService.CommentaryIgnored | app/services/textAnalysisService.ts:35-37 | commentary without braces before and after the object does not change the outcome |
| LibAnalyzeText.PromptEmbedsPrefix | app/lib/analyzeText.ts:118-119 | the prompt ends with the first min(length, 50000) characters of the text and "..." |
| LibAnalyzeText.WithId | app/lib/analyzeText.ts:42-45 | a character can be repaired if and only if it has a non-empty id or a name |
| LibAnalyzeText.WithIds | app/lib/analyzeText.ts:42-45 | the array is repaired if and only if every character can be; then length and order are kept, position by position |
| LibAnalyzeText.WithIdKeepsFields | app/lib/analyzeText.ts:42-45 | a repaired character keeps every field as sent; its id is the given one or the whitespace-free name |
| LibAnalyzeText.BuildNameIndex | app/lib/analyzeText.ts:48-51 | the `forEach` loop builds exactly the last-write-wins map, an absent name included |
| LibAnalyzeText.NameIndexLastWriteWins | app/lib/analyzeText.ts:48-51 | a name, absent included, is a key if and only if some character carries it, and it maps to the id of the last such character |
| LibAnalyzeText.ResolveByName | app/lib/analyzeText.ts:55-56 | an endpoint carried as a name becomes the id of the last character carrying it unless that id is empty; otherwise it is kept as sent |
| LibAnalyzeText.AnalyzeText | app/lib/analyzeText.ts:32-74 | the method, map loop included, computes `Analyze` |
| LibAnalyzeText.AnalyzeFailsExactly | app/lib/analyzeText.ts:32-74 | the call succeeds if and only if the reply parses to an object with both arrays and every character has an id or a name; failures carry the one message |
| LibAnalyzeText.AnalyzeResultShape | app/lib/analyzeText.ts:36-64 | on success `rawOutput` is the reply; summary, analysis, kind, description and significance are as sent; characters are the repaired ones in order |
| LibAnalyzeText.AnalyzeRewritesRelationships | app/lib/analyzeText.ts:53-64 | endpoints resolve through the last character carrying them as a name; the id is the given one or exactly `rel_<source>_<target>` |
| LibAnalyzeText.AbsentSourceTakesNamelessId | app/lib/analyzeText.ts:48-60 | a character with an id but no name makes an absent source resolve to that id |
| LibAnalyzeText.AbsentTargetPrintsUndefined | app/lib/analyzeText.ts:55-60 | an absent target stays absent and is printed as "undefined" in the generated id |
| Versions.IndexesAgree | app/services/textAnalysisService.ts:146-149 | over characters agreeing on names and ids, the two versions' maps have the same keys and values, and the older has no entry for an absent name |
| Versions.CharactersAgree | app/services/textAnalysisService.ts:138-144 | when every character has a non-empty name, both versions accept the characters and assign the same names and ids |
| Versions.EndpointAgrees | app/services/textAnalysisService.ts:155-159 | over agreeing characters both versions resolve an endpoint the same way, an absent one being "" in the newer |
| Versions.RelationshipAgrees | app/services/textAnalysisService.ts:152-176 | both versions give a relationship the same endpoints (an absent one is "" in the newer); a given id is kept by both; a generated newer id is `rel_<source>_<target>_<suffix>` over the older's endpoints with "" for an absent one, so it is the older id, "_" and the suffix only when both endpoints are present (the older prints an absent one as "undefined") |
| Versions.VersionsAgree | app/services/textAnalysisService.ts:136-188 | on a parsed reply whose characters all have names, both versions succeed and agree on characters and endpoints; given relationship ids agree; a generated newer id is built from the older's endpoints, so it differs from the older id only by the suffix when both endpoints are present |

## Left out

- The HTTP call to the model provider and reading the response envelope are not modelled: axios, the API key, the model name and `response.data.choices[0].message.content`. The model starts from the reply text.
- TextAnalysisService.AnalyzeText: the HTTP-client error path, which rethrows with the client's message, is not modelled, because the HTTP client is not part of this model.
- The JSON parser is a parameter, not a model of `JSON.parse`.
- `Math.random()` suffixes are parameters. Their base-36 form and length (9 and 5 characters) are not modelled.
- `JSON.stringify` of the metadata and the fixed instruction wording of the prompts are parameters. Only the final line, which embeds the truncated text, is modelled.
- Logging with `console.log` and `console.error` is left out, because it does not affect results.
- A JSON `null` field and an absent field are both `None`. The older map would keep `null` and `undefined` as distinct keys, and the model merges them.
- Field values of the wrong JSON type are not modelled: a numeric `name`, a non-object array element, a non-array `traits`. Each field is either absent or of its declared type.
- Fields the model invents beyond the schema are not modelled. The older version would keep them through its object spreads.
- Significance is an integer. Fractional values are not modelled.
- Strings are sequences of Unicode characters. `substring` counts UTF-16 code units, so the two differ on characters outside the Basic Multilingual Plane.
- The API route, book fetching, metadata and text services, React hooks and components, the graph configuration and the cache are not part of this model.
