/** Text helpers shared by the chat modules: optional values, prefixes and C-locale character classes. */
module Text {
  datatype Option<+T> = None | Some(value: T)

  datatype Result<+T, +E> = Ok(value: T) | Err(error: E)

  // std::isspace in the C locale
  predicate IsSpace(c: char) {
    c == ' ' || c == '\t' || c == '\n' || c == '\r' || c == '\U{0B}' || c == '\U{0C}'
  }

  predicate IsDigit(c: char) {
    '0' <= c <= '9'
  }

  // std::isalnum in the C locale, or an underscore
  predicate IsWordChar(c: char) {
    IsDigit(c) || 'a' <= c <= 'z' || 'A' <= c <= 'Z' || c == '_'
  }

  // Length of the longest prefix of s made of word characters.
  function WordLen(s: string): (n: nat)
    ensures n <= |s|
    ensures forall i :: 0 <= i < n ==> IsWordChar(s[i])
    ensures n < |s| ==> !IsWordChar(s[n])
  {
    if s == "" || !IsWordChar(s[0]) then 0 else 1 + WordLen(s[1..])
  }

  // Drops all trailing white space.
  function TrimTrailing(s: string): (r: string)
    ensures r <= s
    ensures r != "" ==> !IsSpace(r[|r| - 1])
    ensures forall i :: |r| <= i < |s| ==> IsSpace(s[i])
  {
    if s == "" || !IsSpace(s[|s| - 1]) then s else TrimTrailing(s[..|s| - 1])
  }

  // Drops at most one leading white-space character, then all trailing ones.
  function Trim(s: string): string {
    TrimTrailing(if s != "" && IsSpace(s[0]) then s[1..] else s)
  }

  // What is left begins behind one leading white-space character at most, and only white space follows it.
  lemma TrimIs(s: string)
    ensures var r, k := Trim(s), if s != "" && IsSpace(s[0]) then 1 else 0;
      && k + |r| <= |s| && r == s[k..k + |r|] && (r != "" ==> !IsSpace(r[|r| - 1]))
      && forall i :: k + |r| <= i < |s| ==> IsSpace(s[i])
  {
    if s != "" && IsSpace(s[0]) {
      assert forall i :: 1 <= i < |s| ==> s[i] == s[1..][i - 1];
    }
  }

  // Trimming the end of a text that is still growing never takes back what was already shown.
  lemma {:induction false} TrimTrailingMonotone(p: string, s: string)
    requires p <= s
    ensures TrimTrailing(p) <= TrimTrailing(s)
  {
    var a, b := TrimTrailing(p), TrimTrailing(s);
    if a != "" {
      assert !IsSpace(s[|a| - 1]);
    }
  }
}
