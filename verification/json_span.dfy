/**
  Locating the JSON object inside the model's reply. Both normalisers run the
  regular expression `/\{[\s\S]*\}/` over the reply: leftmost match, greedy body.
  The leftmost place where a match can start is the first `{`, and the greedy body
  then stretches to the last `}` after it; when no `}` follows the first `{`, none
  follows any later `{` either, so there is no match and the whole reply is used.
*/
module JsonSpan {
  import opened Wrappers
  import opened Seqs

  /** Some `{` comes before some `}` in `text`. */
  predicate HasSpan(text: string) {
    exists i, j :: 0 <= i < j < |text| && text[i] == '{' && text[j] == '}'
  }

  /** The candidate handed to `JSON.parse`: the match of the regular expression, or the whole text. */
  function JsonCandidate(text: string): (r: string)
    ensures !HasSpan(text) ==> r == text
    ensures HasSpan(text) ==> 2 <= |r| <= |text| && r[0] == '{' && r[|r| - 1] == '}'
  {
    match (FirstIndex(text, '{'), LastIndex(text, '}'))
    case (Some(i), Some(j)) => if i < j then text[i..j + 1] else text
    case _ => text
  }

  /**
    The candidate is the outermost braced span: it starts at the first `{` of the
    text and ends at the last `}`.
  */
  lemma {:induction false} CandidateIsOutermostSpan(text: string, i: nat, j: nat)
    requires i < j < |text| && text[i] == '{' && text[j] == '}'
    requires forall k :: 0 <= k < i ==> text[k] != '{'
    requires forall k :: j < k < |text| ==> text[k] != '}'
    ensures JsonCandidate(text) == text[i..j + 1]
  {
    var f := FirstIndex(text, '{');
    var l := LastIndex(text, '}');
    assert f.Some? && l.Some?;
  }

  /**
    A reply made of commentary without `{`, then a braced object, then commentary
    without `}` yields exactly the object.
  */
  lemma {:induction false} ExtractsEmbeddedObject(prose: string, obj: string, tail: string)
    requires '{' !in prose && '}' !in tail
    requires |obj| >= 2 && obj[0] == '{' && obj[|obj| - 1] == '}'
    ensures JsonCandidate(prose + obj + tail) == obj
  {
    var text := prose + obj + tail;
    var i, j := |prose|, |prose| + |obj| - 1;
    assert text[i] == obj[0] && text[j] == obj[|obj| - 1];
    forall k | 0 <= k < i ensures text[k] != '{' {
      assert text[k] == prose[k];
    }
    forall k | j < k < |text| ensures text[k] != '}' {
      assert text[k] == tail[k - |prose| - |obj|];
    }
    CandidateIsOutermostSpan(text, i, j);
    assert text[i..j + 1] == obj;
  }

  /** Extracting from an extracted candidate changes nothing. */
  lemma {:induction false} CandidateIdempotent(text: string)
    ensures JsonCandidate(JsonCandidate(text)) == JsonCandidate(text)
  {
    var r := JsonCandidate(text);
    if HasSpan(text) {
      CandidateIsOutermostSpan(r, 0, |r| - 1);
      assert r[0..|r|] == r;
    }
  }
}
