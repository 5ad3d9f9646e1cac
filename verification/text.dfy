/**
 * Character classes and trimming as JavaScript's string methods define them.
 */
module Text {

  /** ECMAScript LineTerminator: the characters `.` in a regular expression without the `s` flag does not match. */
  predicate IsLineTerminator(c: char) {
    c == '\n' || c == '\r' || c == '\U{2028}' || c == '\U{2029}'
  }

  /** ECMAScript WhiteSpace (the Unicode space separators included) or LineTerminator: what `String.prototype.trim` strips. */
  predicate IsWhitespace(c: char) {
    IsLineTerminator(c) || c == '\t' || c == '\U{000B}' || c == '\U{000C}' || c == ' '
    || c == '\U{00A0}' || c == '\U{FEFF}' || c == '\U{1680}' || ('\U{2000}' <= c <= '\U{200A}')
    || c == '\U{202F}' || c == '\U{205F}' || c == '\U{3000}'
  }

  /** The number of whitespace characters `s` starts with. */
  function LeadingSpace(s: string): (n: nat)
    ensures n <= |s|
    ensures forall i :: 0 <= i < n ==> IsWhitespace(s[i])
    ensures n == |s| || !IsWhitespace(s[n])
  {
    if s != [] && IsWhitespace(s[0]) then 1 + LeadingSpace(s[1..]) else 0
  }

  /** `s` without its trailing whitespace. */
  function TrimEnd(s: string): (r: string)
    ensures |r| <= |s| && r == s[..|r|]
    ensures r == [] || !IsWhitespace(r[|r| - 1])
    ensures forall i :: |r| <= i < |s| ==> IsWhitespace(s[i])
  {
    if s != [] && IsWhitespace(s[|s| - 1]) then TrimEnd(s[..|s| - 1]) else s
  }

  /** `String.prototype.trim`: the longest slice of `s` that neither starts nor ends with whitespace,
      with only whitespace around it. */
  function Trim(s: string): (r: string)
    ensures LeadingSpace(s) + |r| <= |s|
    ensures r == s[LeadingSpace(s)..LeadingSpace(s) + |r|]
    ensures r == [] || (!IsWhitespace(r[0]) && !IsWhitespace(r[|r| - 1]))
    ensures forall i :: LeadingSpace(s) + |r| <= i < |s| ==> IsWhitespace(s[i])
  {
    TrimEnd(s[LeadingSpace(s)..])
  }

  /** `s` holds the two-character string "* " (a bullet marker) at position `i`. */
  predicate BulletAt(s: string, i: int) {
    0 <= i && i + 1 < |s| && s[i] == '*' && s[i + 1] == ' '
  }

  predicate HasBullet(s: string) {
    exists i :: 0 <= i < |s| && BulletAt(s, i)
  }

  /** A slice of a text without bullet markers has none either. */
  lemma SliceHasNoBullet(s: string, a: nat, b: nat)
    requires a <= b <= |s| && !HasBullet(s)
    ensures !HasBullet(s[a..b])
  {
    if HasBullet(s[a..b]) {
      var i :| 0 <= i < b - a && BulletAt(s[a..b], i);
      assert BulletAt(s, a + i);
    }
  }
}
