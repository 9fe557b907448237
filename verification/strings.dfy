/**
  The string operations the normalisers use: JavaScript's `\s` character class,
  `replace(/\s+/g, '')` and `substring(0, n)`.
*/
module Strings {

  /** The characters JavaScript's regular-expression class `\s` matches. */
  predicate IsWhitespace(c: char) {
    || c == ' ' || c == '\t' || c == '\n' || c == '\r'
    || c == '\U{000B}' || c == '\U{000C}' || c == '\U{00A0}' || c == '\U{1680}'
    || ('\U{2000}' <= c <= '\U{200A}')
    || c == '\U{2028}' || c == '\U{2029}' || c == '\U{202F}' || c == '\U{205F}'
    || c == '\U{3000}' || c == '\U{FEFF}'
  }

  predicate NoWhitespace(s: string) {
    forall i :: 0 <= i < |s| ==> !IsWhitespace(s[i])
  }

  predicate AllWhitespace(s: string) {
    forall i :: 0 <= i < |s| ==> IsWhitespace(s[i])
  }

  /** `s.replace(/\s+/g, '')`: every whitespace run removed, everything else kept in order. */
  function StripWhitespace(s: string): (r: string)
    ensures NoWhitespace(r)
    ensures |r| <= |s|
  {
    if s == [] then []
    else (if IsWhitespace(s[0]) then [] else [s[0]]) + StripWhitespace(s[1..])
  }

  /** Stripping works piece by piece: it commutes with concatenation. */
  lemma {:induction false} StripConcat(a: string, b: string)
    ensures StripWhitespace(a + b) == StripWhitespace(a) + StripWhitespace(b)
  {
    if a == [] {
      assert a + b == b;
    } else {
      assert (a + b)[0] == a[0] && (a + b)[1..] == a[1..] + b;
      StripConcat(a[1..], b);
    }
  }

  /** A string without whitespace is left as it is. */
  lemma {:induction false} StripKeepsClean(s: string)
    requires NoWhitespace(s)
    ensures StripWhitespace(s) == s
  {
    if s != [] {
      StripKeepsClean(s[1..]);
    }
  }

  /** Stripping yields the empty string exactly when the input is all whitespace. */
  lemma {:induction false} StripEmptyIffBlank(s: string)
    ensures StripWhitespace(s) == "" <==> AllWhitespace(s)
  {
    if s != [] {
      StripEmptyIffBlank(s[1..]);
      assert AllWhitespace(s) <==> IsWhitespace(s[0]) && AllWhitespace(s[1..]);
    }
  }

  /** Stripping twice is stripping once. */
  lemma {:induction false} StripIdempotent(s: string)
    ensures StripWhitespace(StripWhitespace(s)) == StripWhitespace(s)
  {
    StripKeepsClean(StripWhitespace(s));
  }

  /** Two whitespace-free words joined by one space are joined without it ("Jane Eyre" becomes "JaneEyre"). */
  lemma {:induction false} StripOneSpace(a: string, b: string)
    requires NoWhitespace(a) && NoWhitespace(b)
    ensures StripWhitespace(a + " " + b) == a + b
  {
    var spaced := [' '] + b;
    assert a + " " + b == a + spaced;
    StripConcat(a, spaced);
    assert spaced[0] == ' ' && spaced[1..] == b;
    assert IsWhitespace(' ');
    assert StripWhitespace(spaced) == StripWhitespace(b);
    StripKeepsClean(a);
    StripKeepsClean(b);
  }

  function Min(a: int, b: int): int {
    if a <= b then a else b
  }

  function Max(a: int, b: int): int {
    if a >= b then a else b
  }

  /** `s.substring(0, n)`: the first `n` characters, or all of `s` when it is shorter. */
  function Truncate(s: string, n: nat): (r: string)
    ensures |r| == Min(|s|, n)
    ensures r <= s
  {
    s[..Min(|s|, n)]
  }
}
