/** Matching file paths against glob patterns. */
module Glob {
  import opened Text

  // ---------- patterns ----------

  datatype Token =
    | Deep                  // ** : any text
    | Segment               // *  : any text without a slash
    | One                   // ?  : one character that is no slash
    | Class(body: string)   // [body]
    | Lit(c: char)

  // The index of the bracket that closes a class starting at p[0], if there is one. A bracket or a dash right behind
  // the opening bracket stands for itself.
  function ClassEnd(p: string): Option<nat>
    requires p != "" && p[0] == '['
    ensures ClassEnd(p).Some? ==> 2 <= ClassEnd(p).value < |p|
  {
    if |p| > 1 && (p[1] == ']' || p[1] == '-') then FindBracket(p, 2) else FindBracket(p, 1)
  }

  function FindBracket(p: string, i: nat): (r: Option<nat>)
    requires i <= |p|
    ensures r.Some? ==> i <= r.value < |p| && p[r.value] == ']' && forall j :: i <= j < r.value ==> p[j] != ']'
    ensures r.None? ==> forall j :: i <= j < |p| ==> p[j] != ']'
    decreases |p| - i
  {
    if i == |p| then None else if p[i] == ']' then Some(i) else FindBracket(p, i + 1)
  }

  function Tokens(p: string): seq<Token>
    decreases |p|
  {
    if p == "" then []
    else if p[0] == '*' then
      if |p| > 1 && p[1] == '*' then [Deep] + Tokens(p[2..]) else [Segment] + Tokens(p[1..])
    else if p[0] == '?' then [One] + Tokens(p[1..])
    else if p[0] == '[' then
      var e := ClassEnd(p);
      if e.Some? then [Class(p[1..e.value])] + Tokens(p[e.value + 1..]) else [Lit('[')] + Tokens(p[1..])
    else [Lit(p[0])] + Tokens(p[1..])
  }

  // ---------- character classes ----------

  datatype CharRange = CharRange(lo: char, hi: char)

  // The members listed from some point of a class on: single characters and ranges.
  function Ranges(body: string): seq<CharRange>
    decreases |body|
  {
    if body == "" then []
    else if |body| > 2 && body[1] == '-' && body[2] != ']' then [CharRange(body[0], body[2])] + Ranges(body[3..])
    else [CharRange(body[0], body[0])] + Ranges(body[1..])
  }

  predicate IsNegated(body: string) {
    body != "" && body[0] == '!'
  }

  // All members of a class. A bracket or dash at the start is an ordinary member.
  function Members(body: string): seq<CharRange> {
    var b := if IsNegated(body) then body[1..] else body;
    if b != "" && (b[0] == ']' || b[0] == '-') then [CharRange(b[0], b[0])] + Ranges(b[1..]) else Ranges(b)
  }

  // Characters are signed bytes: those beyond ASCII come before the others.
  function Signed(c: char): int {
    if 128 <= c as int < 256 then c as int - 256 else c as int
  }

  predicate Covers(r: CharRange, c: char) {
    Signed(r.lo) <= Signed(c) <= Signed(r.hi)
  }

  predicate Lists(rs: seq<CharRange>, c: char) {
    exists i :: 0 <= i < |rs| && Covers(rs[i], c)
  }

  predicate InClass(body: string, c: char) {
    Lists(Members(body), c) != IsNegated(body)
  }

  lemma ListsFirst(r: CharRange, rs: seq<CharRange>, c: char)
    ensures Lists([r] + rs, c) <==> Covers(r, c) || Lists(rs, c)
  {
    var all := [r] + rs;
    if Lists(rs, c) {
      var i :| 0 <= i < |rs| && Covers(rs[i], c);
      assert all[i + 1] == rs[i];
    }
    if Covers(r, c) {
      assert all[0] == r;
    }
    if Lists(all, c) {
      var i :| 0 <= i < |all| && Covers(all[i], c);
      assert i > 0 ==> all[i] == rs[i - 1];
    }
  }

  method ClassMatch(c: char, body: string) returns (r: bool)
    requires body != ""
    ensures r == InClass(body, c)
  {
    hide Lists, Ranges;
    var i := 0;
    var negated := false;
    if body[0] == '!' {
      negated := true;
      i := 1;
    }
    ghost var b := body[i..];
    assert b == if IsNegated(body) then body[1..] else body;
    if i < |body| && (body[i] == ']' || body[i] == '-') {
      ListsFirst(CharRange(b[0], b[0]), Ranges(b[1..]), c);
      if body[i] == c {
        return !negated;
      }
      assert body[i + 1..] == b[1..];
      i := i + 1;
    }
    var matched := ScanClass(c, body, i);
    return if negated then !matched else matched;
  }

  // The scanning loop, from the first member that has no special place.
  method ScanClass(c: char, body: string, start: nat) returns (matched: bool)
    requires start <= |body|
    ensures matched == Lists(Ranges(body[start..]), c)
  {
    hide Lists;
    var i := start;
    matched := false;
    while i < |body| && !matched
      invariant start <= i <= |body|
      invariant !matched ==> Lists(Ranges(body[start..]), c) == Lists(Ranges(body[i..]), c)
      invariant matched ==> Lists(Ranges(body[start..]), c)
      decreases |body| - i, !matched
    {
      ghost var rest := body[i..];
      if i + 2 < |body| && body[i + 1] == '-' && body[i + 2] != ']' {
        assert rest[3..] == body[i + 3..];
        ListsFirst(CharRange(rest[0], rest[2]), Ranges(rest[3..]), c);
        matched := Signed(body[i]) <= Signed(c) <= Signed(body[i + 2]);
        i := if matched then i else i + 3;
      } else {
        assert rest[1..] == body[i + 1..];
        ListsFirst(CharRange(rest[0], rest[0]), Ranges(rest[1..]), c);
        matched := body[i] == c;
        i := if matched then i else i + 1;
      }
    }
    if !matched {
      assert body[i..] == "";
      NothingListed(c);
    }
  }

  lemma NothingListed(c: char)
    ensures !Lists(Ranges(""), c)
  {
  }

  // ---------- what a pattern means ----------

  ghost predicate TokenMatches(t: Token, s: string) {
    match t
    case Deep => true
    case Segment => '/' !in s
    case One => |s| == 1 && s[0] != '/'
    case Class(body) => |s| == 1 && InClass(body, s[0])
    case Lit(c) => s == [c]
  }

  function Flatten(parts: seq<string>): string {
    if parts == [] then "" else parts[0] + Flatten(parts[1..])
  }

  // The text can be cut into one part per token.
  ghost predicate Matches(ts: seq<Token>, s: string) {
    exists parts :: IsCut(ts, s, parts)
  }

  ghost predicate IsCut(ts: seq<Token>, s: string, parts: seq<string>) {
    |parts| == |ts| && Flatten(parts) == s && forall i :: 0 <= i < |ts| ==> TokenMatches(ts[i], parts[i])
  }

  // A match is a match of the first token and a match of the rest.
  lemma {:induction false} FirstToken(t: Token, ts: seq<Token>, s: string)
    ensures Matches([t] + ts, s) <==> exists k :: 0 <= k <= |s| && TokenMatches(t, s[..k]) && Matches(ts, s[k..])
  {
    hide TokenMatches;
    if Matches([t] + ts, s) {
      var parts :| IsCut([t] + ts, s, parts);
      var k := |parts[0]|;
      assert s[..k] == parts[0] && s[k..] == Flatten(parts[1..]);
      assert TokenMatches(([t] + ts)[0], parts[0]);
      forall i | 0 <= i < |ts| ensures TokenMatches(ts[i], parts[1..][i]) {
        assert TokenMatches(([t] + ts)[i + 1], parts[i + 1]);
      }
      assert IsCut(ts, s[k..], parts[1..]);
    }
    if exists k :: 0 <= k <= |s| && TokenMatches(t, s[..k]) && Matches(ts, s[k..]) {
      var k :| 0 <= k <= |s| && TokenMatches(t, s[..k]) && Matches(ts, s[k..]);
      var parts :| IsCut(ts, s[k..], parts);
      var all := [s[..k]] + parts;
      assert all[1..] == parts && s[..k] + s[k..] == s;
      assert IsCut([t] + ts, s, all);
    }
  }

  lemma EmptyPattern(s: string)
    ensures Matches([], s) <==> s == ""
  {
    if s == "" {
      assert IsCut([], s, []);
    }
  }

  // A token for exactly one character.
  lemma {:induction false} OneCharToken(t: Token, ts: seq<Token>, s: string)
    requires t.One? || t.Class? || t.Lit?
    ensures Matches([t] + ts, s) <==> s != "" && TokenMatches(t, s[..1]) && Matches(ts, s[1..])
  {
    FirstToken(t, ts, s);
  }

  lemma {:induction false} DeepToken(ts: seq<Token>, s: string)
    ensures Matches([Deep] + ts, s) <==> Matches(ts, s) || (s != "" && Matches([Deep] + ts, s[1..]))
  {
    hide Matches;
    FirstToken(Deep, ts, s);
    assert s[0..] == s;
    if s != "" {
      FirstToken(Deep, ts, s[1..]);
      forall k | 1 <= k <= |s| ensures s[k..] == s[1..][k - 1..] {
      }
    }
  }

  /** The matcher decides exactly whether the text can be cut along the tokens of the pattern. */
  method GlobMatch(p: string, s: string) returns (r: bool)
    ensures r <==> Matches(Tokens(p), s)
    decreases |p|, |s|, 1
  {
    hide Matches, TokenMatches, InClass;
    if p == "" {
      EmptyPattern(s);
      return s == "";
    }
    if p[0] == '*' && |p| > 1 && p[1] == '*' {
      DeepToken(Tokens(p[2..]), s);
      var b := GlobMatch(p[2..], s);
      if b {
        return true;
      }
      if s != "" {
        r := GlobMatch(p, s[1..]);
        return r;
      }
      return false;
    }
    if p[0] == '*' {
      r := MatchSegment(p[1..], s);
      return r;
    }
    if p[0] == '[' && ClassEnd(p).Some? {
      r := MatchClass(p, s);
      return r;
    }
    r := MatchChar(p, s);
  }

  // A single star: the rest of the pattern is tried behind every prefix without a slash.
  method MatchSegment(p: string, s: string) returns (r: bool)
    ensures r <==> Matches([Segment] + Tokens(p), s)
    decreases |p|, |s| + 1, 0
  {
    var ts := Tokens(p);
    hide Matches, Tokens;
    FirstToken(Segment, ts, s);
    var i := 0;
    while i < |s| && s[i] != '/'
      invariant i <= |s| && '/' !in s[..i]
      invariant forall k :: 0 <= k < i ==> !Matches(ts, s[k..])
    {
      var b := GlobMatch(p, s[i..]);
      if b {
        return true;
      }
      assert s[..i + 1] == s[..i] + [s[i]];
      i := i + 1;
    }
    r := GlobMatch(p, s[i..]);
    if !r {
      forall k | 0 <= k <= |s| && TokenMatches(Segment, s[..k]) ensures !Matches(ts, s[k..]) {
        if k > i {
          assert s[..k][i] == '/';
        }
      }
    }
  }

  method MatchClass(p: string, s: string) returns (r: bool)
    requires p != "" && p[0] == '[' && ClassEnd(p).Some?
    ensures r <==> Matches(Tokens(p), s)
    decreases |p|, |s|, 0
  {
    var e := ClassEnd(p).value;
    OneCharToken(Class(p[1..e]), Tokens(p[e + 1..]), s);
    hide Matches, InClass, Tokens;
    if s == "" {
      return false;
    }
    var matched := ClassMatch(s[0], p[1..e]);
    if !matched {
      return false;
    }
    r := GlobMatch(p[e + 1..], s[1..]);
  }

  // A question mark, a literal character, or a bracket that opens no class.
  method MatchChar(p: string, s: string) returns (r: bool)
    requires p != "" && p[0] != '*' && (p[0] == '[' ==> ClassEnd(p).None?)
    ensures r <==> Matches(Tokens(p), s)
    decreases |p|, |s|, 0
  {
    var t := if p[0] == '?' then One else Lit(p[0]);
    assert Tokens(p) == [t] + Tokens(p[1..]);
    OneCharToken(t, Tokens(p[1..]), s);
    hide Matches, Tokens;
    if p[0] == '?' && s != "" && s[0] != '/' {
      r := GlobMatch(p[1..], s[1..]);
      return r;
    }
    if s != "" && p[0] == s[0] {
      assert p[0] != '?';
      r := GlobMatch(p[1..], s[1..]);
      return r;
    }
    return false;
  }

  // ---------- slashes ----------

  function Slashes(s: string): nat {
    if s == "" then 0 else (if s[0] == '/' then 1 else 0) + Slashes(s[1..])
  }

  lemma {:induction false} SlashesConcat(a: string, b: string)
    ensures Slashes(a + b) == Slashes(a) + Slashes(b)
  {
    if a == "" {
      assert a + b == b;
    } else {
      assert (a + b)[1..] == a[1..] + b;
      SlashesConcat(a[1..], b);
    }
  }

  lemma {:induction false} NoSlash(s: string)
    requires '/' !in s
    ensures Slashes(s) == 0
  {
    if s != "" {
      NoSlash(s[1..]);
    }
  }

  predicate IsSimple(ts: seq<Token>) {
    forall i :: 0 <= i < |ts| ==> !ts[i].Deep? && !ts[i].Class?
  }

  lemma {:induction false} SlashesOfCut(p: string, s: string, parts: seq<string>)
    requires IsSimple(Tokens(p)) && IsCut(Tokens(p), s, parts)
    ensures Slashes(s) == Slashes(p)
    decreases |p|
  {
    var ts := Tokens(p);
    if p != "" {
      assert !ts[0].Deep? && !ts[0].Class?;
      var rest := Tokens(p[1..]);
      assert ts[1..] == rest;
      forall i | 0 <= i < |rest|
        ensures !rest[i].Deep? && !rest[i].Class? && TokenMatches(rest[i], parts[1..][i])
      {
        assert rest[i] == ts[i + 1];
      }
      SlashesOfCut(p[1..], Flatten(parts[1..]), parts[1..]);
      SlashesConcat(parts[0], Flatten(parts[1..]));
      assert TokenMatches(ts[0], parts[0]);
      if ts[0].Segment? {
        NoSlash(parts[0]);
      } else {
        assert parts[0][1..] == "";
      }
    }
  }

  /** Without ** and classes, a path only matches a pattern with as many slashes. */
  lemma SameSlashes(p: string, s: string)
    requires IsSimple(Tokens(p)) && Matches(Tokens(p), s)
    ensures Slashes(s) == Slashes(p)
  {
    var parts :| IsCut(Tokens(p), s, parts);
    SlashesOfCut(p, s, parts);
  }

  // The interface takes strings that may contain NUL characters; matching stops at the first one.
  function CString(s: string): (r: string)
    ensures r <= s && '\0' !in r && (|r| < |s| ==> s[|r|] == '\0')
  {
    if s == "" || s[0] == '\0' then "" else [s[0]] + CString(s[1..])
  }

  method GlobMatchStrings(pattern: string, str: string) returns (r: bool)
    ensures r <==> Matches(Tokens(CString(pattern)), CString(str))
  {
    r := GlobMatch(CString(pattern), CString(str));
  }

  // ---------- how tokens are written ----------

  /** Stars and plain characters, whatever the text s behind them. */
  lemma StarsLook(s: string)
    ensures Tokens("**" + s) == [Deep] + Tokens(s)
    ensures s == "" || s[0] != '*' ==> Tokens("*" + s) == [Segment] + Tokens(s)
  {
    var two, one := "**" + s, "*" + s;
    assert two[2..] == s && one[1..] == s && (s != "" ==> one[1] == s[0]);
    hide ClassEnd;
  }

  lemma CharLooks(c: char, s: string)
    requires c != '*' && c != '['
    ensures Tokens([c] + s) == [if c == '?' then One else Lit(c)] + Tokens(s)
  {
    var p := [c] + s;
    assert p[1..] == s;
    hide ClassEnd;
  }

  /** A class ends at the first closing bracket that is not its first character. */
  lemma ClassLooks(b: string, s: string)
    requires b != "" && ']' !in b[1..]
    ensures Tokens("[" + (b + ("]" + s))) == [Class(b)] + Tokens(s)
  {
    var p := "[" + (b + ("]" + s));
    var n := |b| + 1;
    assert p[1] == b[0] && p[n] == ']' && p[1..n] == b && p[n + 1..] == s;
    forall j | 2 <= j < n ensures p[j] != ']' {
      assert p[j] == b[1..][j - 2];
    }
    assert ClassEnd(p) == Some(n);
  }

  // Two classes: all but a range, and two characters of which one is a bracket.
  lemma ClassExamples()
    ensures forall c :: InClass("!a-c", c) <==> !('a' <= c <= 'c')
    ensures forall c :: InClass("]x", c) <==> c == ']' || c == 'x'
  {
    assert "!a-c"[1..] == "a-c" && "a-c"[3..] == "";
    assert Ranges("") == [];
    assert Ranges("a-c") == [CharRange('a', 'c')];
    assert Members("!a-c") == [CharRange('a', 'c')];
    assert "]x"[1..] == "x" && "x"[1..] == "";
    assert Ranges("x") == [CharRange('x', 'x')];
    assert Members("]x") == [CharRange(']', ']'), CharRange('x', 'x')];
    hide Members;
    forall c ensures InClass("!a-c", c) <==> !('a' <= c <= 'c') {
      assert [CharRange('a', 'c')][0] == CharRange('a', 'c');
    }
    forall c ensures InClass("]x", c) <==> c == ']' || c == 'x' {
      assert [CharRange(']', ']'), CharRange('x', 'x')][0] == CharRange(']', ']');
      assert [CharRange(']', ']'), CharRange('x', 'x')][1] == CharRange('x', 'x');
    }
  }
}
