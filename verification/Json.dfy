/** Reading of JSON text (RFC 8259) and of the Python-literal text that the chat grammars accept.

    Both notations are read in two layers: a lexer, which depends on the notation, and one grammar over
    the resulting tokens, which does not. */
module Json {
  import opened Text

  datatype Value =
    | Null
    | Bool(b: bool)
    | Number(text: string)  // a number is denoted by its spelling
    | String(s: string)
    | Array(elems: seq<Value>)
    | Object(members: seq<(string, Value)>)

  datatype Token = Punct(c: char) | Scalar(v: Value)

  datatype Notation = JsonText | PythonText

  // ---------- characters ----------

  predicate IsJsonSpace(c: char) {
    c == ' ' || c == '\t' || c == '\n' || c == '\r'
  }

  predicate IsPunct(c: char) {
    c == '{' || c == '}' || c == '[' || c == ']' || c == ':' || c == ','
  }

  // Characters of numbers and bare words; a run of them is read as one token.
  predicate IsRunChar(c: char) {
    IsWordChar(c) || c == '+' || c == '-' || c == '.'
  }

  predicate IsQuote(n: Notation, c: char) {
    c == '"' || (n == PythonText && c == '\'')
  }

  function HexDigit(c: char): Option<nat> {
    if '0' <= c <= '9' then Some(c as int - '0' as int)
    else if 'a' <= c <= 'f' then Some(c as int - 'a' as int + 10)
    else if 'A' <= c <= 'F' then Some(c as int - 'A' as int + 10)
    else None
  }

  // The character named by four hexadecimal digits. Surrogate halves name no character.
  function HexChar(s: string): Option<char>
    requires |s| == 4
  {
    match (HexDigit(s[0]), HexDigit(s[1]), HexDigit(s[2]), HexDigit(s[3]))
    case (Some(a), Some(b), Some(c), Some(d)) =>
      var v := ((a * 16 + b) * 16 + c) * 16 + d;
      if v < 0xD800 || 0xE000 <= v < 0x10000 then Some(v as char) else None
    case _ => None
  }

  // What a backslash followed by e denotes inside a string delimited by q, for the one-character escapes.
  function SimpleEscape(n: Notation, q: char, e: char): Option<char> {
    if e == '\\' then Some('\\')
    else if e == '"' then Some('"')
    else if e == 'b' then Some('\U{08}')
    else if e == 'f' then Some('\U{0C}')
    else if e == 'n' then Some('\n')
    else if e == 'r' then Some('\r')
    else if e == 't' then Some('\t')
    else if e == '/' && n == JsonText then Some('/')
    else if e == '\'' && n == PythonText && q == '\'' then Some('\'')
    else None
  }

  // ---------- lexer ----------

  // The denoted characters of a string whose opening quote q was just read, and the text after its closing quote.
  function ReadString(n: Notation, q: char, s: string): (r: Option<(string, string)>)
    ensures r.Some? ==> |r.value.1| < |s|
  {
    if s == "" then None
    else if s[0] == q then Some(("", s[1..]))
    else if s[0] == '\\' then
      if |s| < 2 then None
      else if s[1] == 'u' then
        if |s| < 6 || HexChar(s[2..6]).None? then None
        else Cons(HexChar(s[2..6]).value, ReadString(n, q, s[6..]))
      else if SimpleEscape(n, q, s[1]).None? then None
      else Cons(SimpleEscape(n, q, s[1]).value, ReadString(n, q, s[2..]))
    else if s[0] < ' ' then None
    else Cons(s[0], ReadString(n, q, s[1..]))
  }

  function Cons(c: char, r: Option<(string, string)>): Option<(string, string)> {
    if r.None? then None else Some(([c] + r.value.0, r.value.1))
  }

  function RunLen(s: string): (n: nat)
    ensures n <= |s|
    ensures forall i :: 0 <= i < n ==> IsRunChar(s[i])
    ensures n < |s| ==> !IsRunChar(s[n])
  {
    if s == "" || !IsRunChar(s[0]) then 0 else 1 + RunLen(s[1..])
  }

  function DigitsLen(s: string): (n: nat)
    ensures n <= |s|
    ensures forall i :: 0 <= i < n ==> IsDigit(s[i])
  {
    if s == "" || !IsDigit(s[0]) then 0 else 1 + DigitsLen(s[1..])
  }

  // The number syntax of section 6 of RFC 8259, which the Python-literal grammar shares.
  predicate IsNumber(s: string) {
    IsUnsigned(if s != "" && s[0] == '-' then s[1..] else s)
  }

  predicate IsUnsigned(s: string) {
    var n := DigitsLen(s);
    n > 0 && (s[0] == '0' ==> n == 1) && IsFraction(s[n..])
  }

  predicate IsFraction(s: string) {
    if s != "" && s[0] == '.' then
      var n := DigitsLen(s[1..]);
      n > 0 && IsExponent(s[1..][n..])
    else IsExponent(s)
  }

  predicate IsExponent(s: string) {
    s == "" ||
    ((s[0] == 'e' || s[0] == 'E') &&
     var t := if |s| > 1 && (s[1] == '+' || s[1] == '-') then s[2..] else s[1..];
     t != "" && DigitsLen(t) == |t|)
  }

  function ReadWord(n: Notation, w: string): Option<Value> {
    if IsNumber(w) then Some(Number(w))
    else if w == "true" then Some(Bool(true))
    else if w == "false" then Some(Bool(false))
    else if w == "null" then Some(Null)
    else if n == PythonText && w == "True" then Some(Bool(true))
    else if n == PythonText && w == "False" then Some(Bool(false))
    else if n == PythonText && w == "None" then Some(Null)
    else None
  }

  function Prepend(t: Token, r: Option<seq<Token>>): Option<seq<Token>> {
    if r.None? then None else Some([t] + r.value)
  }

  function Lex(n: Notation, s: string): Option<seq<Token>>
    decreases |s|
  {
    if s == "" then Some([])
    else if IsJsonSpace(s[0]) then Lex(n, s[1..])
    else if IsPunct(s[0]) then Prepend(Punct(s[0]), Lex(n, s[1..]))
    else if IsQuote(n, s[0]) then
      var r := ReadString(n, s[0], s[1..]);
      if r.None? then None else Prepend(Scalar(String(r.value.0)), Lex(n, r.value.1))
    else if IsRunChar(s[0]) then
      var k := RunLen(s);
      var w := ReadWord(n, s[..k]);
      if w.None? then None else Prepend(Scalar(w.value), Lex(n, s[k..]))
    else None
  }

  // ---------- grammar over tokens ----------

  type Parsed<T> = Option<(T, seq<Token>)>

  function ParseValue(ts: seq<Token>): (r: Parsed<Value>)
    ensures r.Some? ==> |r.value.1| < |ts|
    decreases |ts|, 0
  {
    if ts == [] then None
    else match ts[0]
      case Scalar(v) => Some((v, ts[1..]))
      case Punct('{') =>
        if |ts| > 1 && ts[1] == Punct('}') then Some((Object([]), ts[2..]))
        else
          var r := ParseMembers(ts[1..]);
          if r.None? then None else Some((Object(r.value.0), r.value.1))
      case Punct('[') =>
        if |ts| > 1 && ts[1] == Punct(']') then Some((Array([]), ts[2..]))
        else
          var r := ParseElems(ts[1..]);
          if r.None? then None else Some((Array(r.value.0), r.value.1))
      case _ => None
  }

  // One or more members and the closing brace.
  function ParseMembers(ts: seq<Token>): (r: Parsed<seq<(string, Value)>>)
    ensures r.Some? ==> |r.value.1| < |ts|
    decreases |ts|, 1
  {
    if |ts| < 2 || !(ts[0].Scalar? && ts[0].v.String?) || ts[1] != Punct(':') then None
    else
      var v := ParseValue(ts[2..]);
      if v.None? || v.value.1 == [] then None
      else
        var rest := v.value.1;
        if rest[0] == Punct('}') then Some(([(ts[0].v.s, v.value.0)], rest[1..]))
        else if rest[0] != Punct(',') then None
        else
          var more := ParseMembers(rest[1..]);
          if more.None? then None
          else Some(([(ts[0].v.s, v.value.0)] + more.value.0, more.value.1))
  }

  // One or more elements and the closing bracket.
  function ParseElems(ts: seq<Token>): (r: Parsed<seq<Value>>)
    ensures r.Some? ==> |r.value.1| < |ts|
    decreases |ts|, 1
  {
    var v := ParseValue(ts);
    if v.None? || v.value.1 == [] then None
    else
      var rest := v.value.1;
      if rest[0] == Punct(']') then Some(([v.value.0], rest[1..]))
      else if rest[0] != Punct(',') then None
      else
        var more := ParseElems(rest[1..]);
        if more.None? then None else Some(([v.value.0] + more.value.0, more.value.1))
  }

  // The value that a whole text denotes, if it is one value in the given notation.
  function Read(n: Notation, s: string): Option<Value> {
    var ts := Lex(n, s);
    if ts.None? then None
    else
      var r := ParseValue(ts.value);
      if r.Some? && r.value.1 == [] then Some(r.value.0) else None
  }

  // ---------- writing strings ----------

  function HexLower(v: nat): char
    requires v < 16
  {
    if v < 10 then (v + '0' as int) as char else (v - 10 + 'a' as int) as char
  }

  // How the JSON library writes one character inside a string.
  function EscapeChar(c: char): string {
    if c == '\U{08}' then "\\b"
    else if c == '\t' then "\\t"
    else if c == '\n' then "\\n"
    else if c == '\U{0C}' then "\\f"
    else if c == '\r' then "\\r"
    else if c == '"' then "\\\""
    else if c == '\\' then "\\\\"
    else if c < ' ' then ['\\', 'u', '0', '0', HexLower(c as int / 16), HexLower(c as int % 16)]
    else [c]
  }

  function Escape(s: string): string {
    if s == "" then "" else EscapeChar(s[0]) + Escape(s[1..])
  }

  function Quote(s: string): string {
    "\"" + Escape(s) + "\""
  }

  // ---------- facts ----------

  predicate NumberChar(c: char) {
    IsDigit(c) || c == '-' || c == '+' || c == '.' || c == 'e' || c == 'E'
  }

  lemma {:induction false} ExponentChars(s: string)
    requires IsExponent(s)
    ensures forall i :: 0 <= i < |s| ==> NumberChar(s[i])
  {
    if s != "" {
      var k := if |s| > 1 && (s[1] == '+' || s[1] == '-') then 2 else 1;
      var t := s[k..];
      assert forall i :: k <= i < |s| ==> s[i] == t[i - k];
    }
  }

  lemma {:induction false} FractionChars(s: string)
    requires IsFraction(s)
    ensures forall i :: 0 <= i < |s| ==> NumberChar(s[i])
  {
    if s != "" && s[0] == '.' {
      var n := DigitsLen(s[1..]);
      ExponentChars(s[1..][n..]);
      assert forall i :: 1 <= i < 1 + n ==> s[i] == s[1..][i - 1];
      assert forall i :: 1 + n <= i < |s| ==> s[i] == s[1..][n..][i - 1 - n];
    } else {
      ExponentChars(s);
    }
  }

  lemma {:induction false} UnsignedChars(s: string)
    requires IsUnsigned(s)
    ensures forall i :: 0 <= i < |s| ==> NumberChar(s[i])
  {
    var n := DigitsLen(s);
    FractionChars(s[n..]);
    assert forall i :: n <= i < |s| ==> s[i] == s[n..][i - n];
  }

  // No letter of a number starts a Python literal, so numbers pass through the rewriting untouched.
  lemma {:induction false} NumberChars(s: string)
    requires IsNumber(s)
    ensures forall i :: 0 <= i < |s| ==> NumberChar(s[i])
  {
    if s != "" && s[0] == '-' {
      UnsignedChars(s[1..]);
      assert forall i :: 1 <= i < |s| ==> s[i] == s[1..][i - 1];
    } else {
      UnsignedChars(s);
    }
  }

  // One escaped character is read back as that character.
  lemma {:induction false} ReadEscapedChar(c: char, tail: string)
    ensures ReadString(JsonText, '"', EscapeChar(c) + tail) == Cons(c, ReadString(JsonText, '"', tail))
  {
    var e := EscapeChar(c);
    var text := e + tail;
    assert text[|e|..] == tail;
    if |e| == 6 {
      ReadEscapedControl(c);
      assert text[2..6] == e[2..6];
    }
  }

  lemma {:induction false} ReadEscapedControl(c: char)
    requires |EscapeChar(c)| == 6
    ensures EscapeChar(c)[0] == '\\' && EscapeChar(c)[1] == 'u'
    ensures HexChar(EscapeChar(c)[2..6]) == Some(c)
  {
    var e := EscapeChar(c);
    assert HexDigit(e[4]) == Some(c as int / 16);
    assert HexDigit(e[5]) == Some(c as int % 16);
  }

  // Writing a string and reading it back gives the string, whatever follows the closing quote.
  lemma {:induction false} ReadEscaped(s: string, rest: string)
    ensures ReadString(JsonText, '"', Escape(s) + "\"" + rest) == Some((s, rest))
  {
    if s == "" {
      assert Escape(s) + "\"" + rest == "\"" + rest;
    } else {
      var tail := Escape(s[1..]) + "\"" + rest;
      assert Escape(s) + "\"" + rest == EscapeChar(s[0]) + tail;
      ReadEscaped(s[1..], rest);
      ReadEscapedChar(s[0], tail);
      assert [s[0]] + s[1..] == s;
    }
  }
}
