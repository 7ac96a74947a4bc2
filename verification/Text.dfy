// White space as the two languages see it, and Go's strings.TrimSpace.
module Text {

  predicate WideSpace(c: char) {
    c == '\U{00A0}' || c == '\U{1680}' || '\U{2000}' <= c <= '\U{200A}' || c == '\U{2028}' || c == '\U{2029}' ||
    c == '\U{202F}' || c == '\U{205F}' || c == '\U{3000}'
  }

  // Go: unicode.IsSpace.
  predicate IsSpace(c: char) {
    '\U{0009}' <= c <= '\U{000D}' || c == ' ' || c == '\U{0085}' || WideSpace(c)
  }

  // Kotlin: Char.isWhitespace.
  predicate IsWhitespace(c: char) {
    '\U{0009}' <= c <= '\U{000D}' || '\U{001C}' <= c <= ' ' || WideSpace(c)
  }

  // Kotlin: CharSequence.isBlank.
  predicate IsBlank(s: string) {
    forall i :: 0 <= i < |s| ==> IsWhitespace(s[i])
  }

  function TrimLeft(s: string): string {
    if s != "" && IsSpace(s[0]) then TrimLeft(s[1..]) else s
  }

  function TrimRight(s: string): string {
    if s != "" && IsSpace(s[|s| - 1]) then TrimRight(s[..|s| - 1]) else s
  }

  function TrimSpace(s: string): string {
    TrimRight(TrimLeft(s))
  }

  lemma {:induction false} TrimLeftEnd(s: string)
    ensures var r := TrimLeft(s); r != "" ==> !IsSpace(r[0])
  {
    if s != "" && IsSpace(s[0]) { TrimLeftEnd(s[1..]); }
  }

  lemma {:induction false} TrimRightEnd(s: string)
    ensures var r := TrimRight(s); r != "" ==> !IsSpace(r[|r| - 1]) && s != "" && r[0] == s[0]
  {
    if s != "" && IsSpace(s[|s| - 1]) { TrimRightEnd(s[..|s| - 1]); }
  }

  lemma {:induction false} TrimLeftSuffix(s: string)
    ensures |TrimLeft(s)| <= |s| && TrimLeft(s) == s[|s| - |TrimLeft(s)|..]
  {
    if s != "" && IsSpace(s[0]) { TrimLeftSuffix(s[1..]); }
  }

  lemma {:induction false} TrimRightPrefix(s: string)
    ensures |TrimRight(s)| <= |s| && TrimRight(s) == s[..|TrimRight(s)|]
    ensures forall i :: |TrimRight(s)| <= i < |s| ==> IsSpace(s[i])
  {
    if s != "" && IsSpace(s[|s| - 1]) { TrimRightPrefix(s[..|s| - 1]); }
  }

  lemma {:induction false} TrimLeftSpaces(s: string)
    ensures |TrimLeft(s)| <= |s| && forall i :: 0 <= i < |s| - |TrimLeft(s)| ==> IsSpace(s[i])
  {
    if s != "" && IsSpace(s[0]) { TrimLeftSpaces(s[1..]); }
  }

  // What trimming takes away is white space, from the two ends only.
  lemma TrimTakes(s: string) returns (before: string, after: string)
    ensures s == before + TrimSpace(s) + after
    ensures forall i :: 0 <= i < |before| ==> IsSpace(before[i])
    ensures forall i :: 0 <= i < |after| ==> IsSpace(after[i])
  {
    var t := TrimLeft(s);
    TrimLeftSuffix(s);
    TrimLeftSpaces(s);
    TrimRightPrefix(t);
    before, after := s[..|s| - |t|], t[|TrimRight(t)|..];
  }

  // Where a text ends without space, trimming only shortens it from the left.
  lemma TrimSuffix(s: string)
    requires s != "" ==> !IsSpace(s[|s| - 1])
    ensures |TrimSpace(s)| <= |s| && TrimSpace(s) == s[|s| - |TrimSpace(s)|..]
  {
    TrimLeftSuffix(s);
  }

  // A trimmed text has no space at either end, so trimming it again changes nothing.
  lemma TrimIdempotent(s: string)
    ensures TrimSpace(TrimSpace(s)) == TrimSpace(s)
    ensures TrimSpace(s) == "" || (!IsSpace(TrimSpace(s)[0]) && !IsSpace(TrimSpace(s)[|TrimSpace(s)| - 1]))
  {
    TrimLeftEnd(s);
    TrimRightEnd(TrimLeft(s));
  }
}
