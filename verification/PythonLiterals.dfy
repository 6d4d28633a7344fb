/** Rewriting of Python literals to JSON, character by character, as it happens while a tool call streams in. */
module PythonLiterals {
  import opened Text
  import opened Json
  import opened BraceDepth

  datatype Mode = Outside | InSingle | InDouble

  // The JSON spelling of a (possibly still incomplete) True, False or None.
  function Literal(w: string): Option<string> {
    if w == "" then None
    else if w <= "True" then Some("true"[..|w|])
    else if w <= "False" then Some("false"[..|w|])
    else if w <= "None" then Some("null"[..|w|])
    else None
  }

  predicate StartsLiteral(m: Mode, afterWord: bool, c: char) {
    m == Outside && (c == 'T' || c == 'F' || c == 'N') && !afterWord
  }

  // What one step consumes from a non-empty s: the output, the number of characters and the mode afterwards.
  // Whether the step was preceded by a word character only matters outside strings.
  datatype Chunk = Chunk(out: string, len: nat, mode: Mode)

  function Next(m: Mode, afterWord: bool, s: string): (r: Chunk)
    requires s != ""
    ensures 1 <= r.len <= |s|
  {
    var c := s[0];
    if c == '\\' && |s| > 1 then
      match m
      case InSingle => Chunk(if s[1] == '\'' then "'" else s[..2], 2, m)
      case InDouble => Chunk(s[..2], 2, m)
      case Outside => Chunk("\\", 1, m)
    else if c == '"' then
      match m
      case InSingle => Chunk("\\\"", 1, m)
      case InDouble => Chunk("\"", 1, Outside)
      case Outside => Chunk("\"", 1, InDouble)
    else if c == '\'' then
      match m
      case InSingle => Chunk("\"", 1, Outside)
      case InDouble => Chunk("'", 1, m)
      case Outside => Chunk("\"", 1, InSingle)
    else if StartsLiteral(m, afterWord, c) && Literal(s[..WordLen(s)]).Some? then
      Chunk(Literal(s[..WordLen(s)]).value, WordLen(s), m)
    else Chunk([c], 1, m)
  }

  function Rewrite(m: Mode, afterWord: bool, s: string): string
    decreases |s|
  {
    if s == "" then ""
    else
      var k := Next(m, afterWord, s);
      k.out + Rewrite(k.mode, IsWordChar(s[k.len - 1]), s[k.len..])
  }

  function Normalized(s: string): string {
    Rewrite(Outside, false, s)
  }

  method NormalizeQuotesToJson(input: string) returns (result: string)
    ensures result == Normalized(input)
  {
    hide WordLen, Literal, Rewrite;
    result := "";
    assert input[0..] == input && "" + Normalized(input) == Normalized(input);
    var inSingle, inDouble := false, false;
    var i := 0;
    while i < |input|
      invariant 0 <= i <= |input| && !(inSingle && inDouble)
      invariant Normalized(input)
             == result + Rewrite(ModeOf(inSingle, inDouble), i > 0 && IsWordChar(input[i - 1]), input[i..])
    {
      ghost var m := ModeOf(inSingle, inDouble);
      ghost var afterWord := i > 0 && IsWordChar(input[i - 1]);
      ghost var done, start := result, i;
      var c := input[i];
      if c == '\\' && i + 1 < |input| {
        var next := input[i + 1];
        if inSingle {
          if next == '\'' {
            result := result + "'";
          } else if next == '"' {
            result := result + "\\\"";
          } else {
            result := result + [c] + [next];
          }
          i := i + 1;
        } else if inDouble {
          result := result + [c] + [next];
          i := i + 1;
        } else {
          result := result + [c];
        }
      } else if c == '"' {
        if inSingle {
          result := result + "\\\"";
        } else {
          inDouble := !inDouble;
          result := result + [c];
        }
      } else if c == '\'' {
        if inDouble {
          result := result + [c];
        } else if inSingle {
          inSingle := false;
          result := result + "\"";
        } else {
          inSingle := true;
          result := result + "\"";
        }
      } else if !inSingle && !inDouble && (c == 'T' || c == 'F' || c == 'N') && (i == 0 || !IsWordChar(input[i - 1])) {
        var n := WordLen(input[i..]);
        var js := Literal(input[i..i + n]);
        assert input[i..][..n] == input[i..i + n];
        if js.Some? {
          result := result + js.value;
          i := i + n - 1;
        } else {
          result := result + [c];
        }
      } else {
        result := result + [c];
      }
      i := i + 1;
      ghost var k := Next(m, afterWord, input[start..]);
      assert k.len == i - start && k.mode == ModeOf(inSingle, inDouble);
      assert result == done + k.out;
      RewriteStep(m, afterWord, input, start, done);
    }
    RewriteEnd(ModeOf(inSingle, inDouble), i > 0 && IsWordChar(input[i - 1]), input[i..]);
  }

  lemma RewriteEnd(m: Mode, afterWord: bool, s: string)
    requires s == ""
    ensures Rewrite(m, afterWord, s) == ""
  {
  }

  lemma {:induction false} RewriteStep(m: Mode, afterWord: bool, input: string, i: nat, done: string)
    requires i < |input|
    ensures var k := Next(m, afterWord, input[i..]);
      done + Rewrite(m, afterWord, input[i..])
      == done + k.out + Rewrite(k.mode, IsWordChar(input[i + k.len - 1]), input[i + k.len..])
  {
    hide Next;
    var k := Next(m, afterWord, input[i..]);
    assert input[i..][k.len..] == input[i + k.len..];
  }

  function ModeOf(inSingle: bool, inDouble: bool): Mode {
    if inSingle then InSingle else if inDouble then InDouble else Outside
  }

  // ---------- meaning ----------

  // The body of a Python string becomes the body of a JSON string with the same characters.
  lemma {:induction false} StringPreserved(m: Mode, afterWord: bool, s: string)
    requires m != Outside
    requires ReadString(PythonText, QuoteOf(m), s).Some?
    ensures var r := ReadString(PythonText, QuoteOf(m), s).value;
      ReadString(JsonText, '"', Rewrite(m, afterWord, s)) == Some((r.0, Rewrite(Outside, false, r.1)))
    decreases |s|
  {
    hide Literal, WordLen, HexChar;
    var q := QuoteOf(m);
    var k := Next(m, afterWord, s);
    var w := IsWordChar(s[k.len - 1]);
    var tail := Rewrite(k.mode, w, s[k.len..]);
    var out := Rewrite(m, afterWord, s);
    assert out == k.out + tail;
    if s[0] == q {
      assert out[1..] == tail;
    } else if s[0] == '\\' && s[1] == 'u' {
      UnicodePreserved(m, afterWord, s);
      StringPreserved(m, IsWordChar(s[5]), s[6..]);
    } else {
      StringPreserved(m, w, s[k.len..]);
      CharPreserved(m, afterWord, s, tail);
    }
  }

  // One character of a string body, other than the closing quote and \u, means the same after rewriting.
  lemma {:induction false} CharPreserved(m: Mode, afterWord: bool, s: string, tail: string)
    requires m != Outside && s != "" && s[0] != QuoteOf(m) && ReadString(PythonText, QuoteOf(m), s).Some?
    requires s[0] == '\\' ==> s[1] != 'u'
    ensures var k := Next(m, afterWord, s);
      var c := if k.len == 2 then SimpleEscape(PythonText, QuoteOf(m), s[1]).value else s[0];
      && k.mode == m
      && k.len == (if s[0] == '\\' then 2 else 1)
      && ReadString(PythonText, QuoteOf(m), s) == Cons(c, ReadString(PythonText, QuoteOf(m), s[k.len..]))
      && ReadString(JsonText, '"', k.out + tail) == Cons(c, ReadString(JsonText, '"', tail))
  {
    hide Literal, WordLen, HexChar;
    var k := Next(m, afterWord, s);
    var t := k.out + tail;
    assert t[|k.out|..] == tail;
  }

  function QuoteOf(m: Mode): char
    requires m != Outside
  {
    if m == InSingle then '\'' else '"'
  }

  lemma {:induction false} UnicodePreserved(m: Mode, afterWord: bool, s: string)
    requires m != Outside && |s| >= 6 && s[0] == '\\' && s[1] == 'u' && HexChar(s[2..6]).Some?
    ensures Rewrite(m, afterWord, s) == s[..6] + Rewrite(m, IsWordChar(s[5]), s[6..])
    ensures forall tail :: ReadString(JsonText, '"', s[..6] + tail)
                        == Cons(HexChar(s[2..6]).value, ReadString(JsonText, '"', tail))
  {
    hide Rewrite, HexChar, ReadString;
    EscapeStep(m, afterWord, s);
    HexRun(s[2..6]);
    assert forall i :: 0 <= i < 4 ==> s[2..][i] == s[2..6][i] && IsWordChar(s[2..6][i]);
    PlainRun(m, IsWordChar(s[1]), s[2..], 4);
    assert s[2..][4..] == s[6..];
    assert s[2..][..4] == s[2..6];
    assert s[..6] == s[..2] + s[2..6];
    assert s[..6][2..6] == s[2..6];
    forall tail
      ensures ReadString(JsonText, '"', s[..6] + tail) == Cons(HexChar(s[2..6]).value, ReadString(JsonText, '"', tail))
    {
      ReadUnicode(s[..6], tail);
    }
  }

  lemma ReadUnicode(u: string, tail: string)
    requires |u| == 6 && u[0] == '\\' && u[1] == 'u' && HexChar(u[2..6]).Some?
    ensures ReadString(JsonText, '"', u + tail) == Cons(HexChar(u[2..6]).value, ReadString(JsonText, '"', tail))
  {
    hide HexChar, SimpleEscape;
    var t := u + tail;
    assert t[2..6] == u[2..6] && t[6..] == tail;
  }

  lemma HexRun(h: string)
    requires |h| == 4 && HexChar(h).Some?
    ensures forall i :: 0 <= i < 4 ==> IsWordChar(h[i])
  {
  }

  lemma EscapeStep(m: Mode, afterWord: bool, s: string)
    requires m != Outside && |s| > 1 && s[0] == '\\' && s[1] != '\''
    ensures Rewrite(m, afterWord, s) == s[..2] + Rewrite(m, IsWordChar(s[1]), s[2..])
  {
    hide WordLen, Literal;
  }

  // Characters that are neither quotes nor backslashes, and do not start a literal, are copied.
  lemma {:induction false} PlainRun(m: Mode, afterWord: bool, s: string, n: nat)
    requires 0 < n <= |s|
    requires forall i :: 0 <= i < n ==> s[i] != '\\' && s[i] != '"' && s[i] != '\''
    requires m == Outside ==> forall i :: 0 <= i < n ==> s[i] != 'T' && s[i] != 'F' && s[i] != 'N'
    ensures Rewrite(m, afterWord, s) == s[..n] + Rewrite(m, IsWordChar(s[n - 1]), s[n..])
    decreases n
  {
    hide Rewrite;
    PlainStep(m, afterWord, s);
    if n > 1 {
      PlainRun(m, IsWordChar(s[0]), s[1..], n - 1);
      assert s[1..][n - 1..] == s[n..];
      assert s[..n] == [s[0]] + s[1..][..n - 1];
    } else {
      assert s[..n] == [s[0]];
    }
  }

  lemma {:induction false} PlainStep(m: Mode, afterWord: bool, s: string)
    requires s != "" && s[0] != '\\' && s[0] != '"' && s[0] != '\''
    requires m == Outside ==> s[0] != 'T' && s[0] != 'F' && s[0] != 'N'
    ensures Rewrite(m, afterWord, s) == [s[0]] + Rewrite(m, IsWordChar(s[0]), s[1..])
  {
    hide WordLen, Literal;
  }

  // The rewriting starts its output with a run character only where the input has one.
  lemma {:induction false} BorderPreserved(afterWord: bool, s: string)
    requires s == "" || !IsRunChar(s[0])
    ensures var out := Rewrite(Outside, afterWord, s); out == "" || !IsRunChar(out[0])
  {
  }

  // Outside strings, the output has the same JSON tokens as the input has Python tokens.
  lemma {:induction false} TokensPreserved(afterWord: bool, s: string)
    requires Lex(PythonText, s).Some?
    requires afterWord ==> s == "" || !IsRunChar(s[0])
    ensures Lex(JsonText, Rewrite(Outside, afterWord, s)) == Lex(PythonText, s)
    decreases |s|
  {
    hide Rewrite, ReadWord, RunLen, ReadString;
    var out := Rewrite(Outside, afterWord, s);
    if s == "" {
      RewriteEnd(Outside, afterWord, s);
    } else if IsJsonSpace(s[0]) || IsPunct(s[0]) {
      PlainStep(Outside, afterWord, s);
      TokensPreserved(false, s[1..]);
      assert out[1..] == Rewrite(Outside, false, s[1..]);
    } else if IsQuote(PythonText, s[0]) {
      var m := if s[0] == '"' then InDouble else InSingle;
      OpenQuoteStep(afterWord, s, m);
      StringPreserved(m, false, s[1..]);
      assert out[1..] == Rewrite(m, false, s[1..]);
      TokensPreserved(false, ReadString(PythonText, s[0], s[1..]).value.1);
    } else {
      WordPreserved(afterWord, s);
    }
  }

  lemma {:induction false} OpenQuoteStep(afterWord: bool, s: string, m: Mode)
    requires s != "" && IsQuote(PythonText, s[0]) && m == (if s[0] == '"' then InDouble else InSingle)
    ensures Rewrite(Outside, afterWord, s) == "\"" + Rewrite(m, false, s[1..])
  {
    hide WordLen, Literal;
  }

  lemma {:induction false} WordPreserved(afterWord: bool, s: string)
    requires Lex(PythonText, s).Some? && s != "" && IsRunChar(s[0]) && !afterWord
    ensures Lex(JsonText, Rewrite(Outside, afterWord, s)) == Lex(PythonText, s)
    decreases |s|, 0
  {
    hide Rewrite, ReadWord;
    var n := RunLen(s);
    var tail := Rewrite(Outside, IsWordChar(s[n - 1]), s[n..]);
    BorderPreserved(IsWordChar(s[n - 1]), s[n..]);
    TokensPreserved(IsWordChar(s[n - 1]), s[n..]);
    var out := WordOutput(afterWord, s);
    WordThen(out, tail);
    assert s[..n] != "";
  }

  // A word or number is written as one JSON word or number with the same value.
  lemma {:induction false} WordOutput(afterWord: bool, s: string) returns (out: string)
    requires s != "" && IsRunChar(s[0]) && !afterWord && ReadWord(PythonText, s[..RunLen(s)]).Some?
    ensures RunLen(s) > 0 && out != "" && forall i :: 0 <= i < |out| ==> IsRunChar(out[i])
    ensures ReadWord(JsonText, out) == ReadWord(PythonText, s[..RunLen(s)])
    ensures var n := RunLen(s); Rewrite(Outside, afterWord, s) == out + Rewrite(Outside, IsWordChar(s[n - 1]), s[n..])
  {
    hide Rewrite, ReadWord;
    var n := RunLen(s);
    var w := s[..n];
    if w == "True" || w == "False" || w == "None" {
      LiteralStep(s, n);
      LiteralValue(w);
      out := Literal(w).value;
    } else {
      out := w;
      PlainWord(w);
      assert forall i :: 0 <= i < n ==> s[i] == w[i];
      PlainRun(Outside, afterWord, s, n);
    }
  }

  lemma LiteralValue(w: string)
    requires w == "True" || w == "False" || w == "None"
    ensures Literal(w).Some?
    ensures var out := Literal(w).value;
      && out != "" && (forall i :: 0 <= i < |out| ==> IsRunChar(out[i]))
      && ReadWord(JsonText, out) == ReadWord(PythonText, w)
  {
    hide IsNumber;
    NotNumber(w);
    NotNumber(Literal(w).value);
  }

  lemma PlainWord(w: string)
    requires ReadWord(PythonText, w).Some? && w != "True" && w != "False" && w != "None"
    ensures ReadWord(JsonText, w) == ReadWord(PythonText, w)
    ensures forall i :: 0 <= i < |w| ==> w[i] != 'T' && w[i] != 'F' && w[i] != 'N'
  {
    hide IsNumber;
    if IsNumber(w) {
      NumberChars(w);
    }
  }

  lemma NotNumber(w: string)
    requires w != "" && w[0] != '-' && !IsDigit(w[0])
    ensures !IsNumber(w)
  {
  }

  lemma WordLenIs(s: string, n: nat)
    requires n <= |s| && (forall i :: 0 <= i < n ==> IsWordChar(s[i])) && (n < |s| ==> !IsWordChar(s[n]))
    ensures WordLen(s) == n
  {
    hide WordLen;
  }

  lemma {:induction false} LiteralStep(s: string, n: nat)
    requires n <= |s| && (s[..n] == "True" || s[..n] == "False" || s[..n] == "None")
    requires n < |s| ==> !IsWordChar(s[n])
    ensures Literal(s[..n]).Some?
    ensures Rewrite(Outside, false, s) == Literal(s[..n]).value + Rewrite(Outside, IsWordChar(s[n - 1]), s[n..])
  {
    hide Literal, WordLen, Rewrite;
    var w := s[..n];
    assert forall i :: 0 <= i < n ==> s[i] == w[i];
    assert forall i :: 0 <= i < n ==> IsWordChar(s[i]);
    WordLenIs(s, n);
    LiteralValue(w);
    LiteralTaken(s);
  }

  lemma LiteralTaken(s: string)
    requires s != "" && (s[0] == 'T' || s[0] == 'F' || s[0] == 'N') && Literal(s[..WordLen(s)]).Some?
    ensures var n := WordLen(s);
      Rewrite(Outside, false, s) == Literal(s[..n]).value + Rewrite(Outside, IsWordChar(s[n - 1]), s[n..])
  {
    hide Literal;
  }

  lemma {:induction false} WordThen(out: string, tail: string)
    requires out != "" && forall i :: 0 <= i < |out| ==> IsRunChar(out[i])
    requires tail == "" || !IsRunChar(tail[0])
    requires ReadWord(JsonText, out).Some?
    ensures Lex(JsonText, out + tail) == Prepend(Scalar(ReadWord(JsonText, out).value), Lex(JsonText, tail))
  {
    hide ReadWord, ReadString, RunLen;
    var t := out + tail;
    assert forall i :: 0 <= i < |out| ==> t[i] == out[i];
    assert t[|out|..] == tail && t[..|out|] == out;
    RunLenIs(t, |out|);
  }

  lemma RunLenIs(s: string, n: nat)
    requires n <= |s| && (forall i :: 0 <= i < n ==> IsRunChar(s[i])) && (n < |s| ==> !IsRunChar(s[n]))
    ensures RunLen(s) == n
  {
    hide RunLen;
  }

  /** Whatever Python value a text denotes, the rewritten text denotes the same value as JSON and is balanced. */
  lemma {:induction false} NormalizePreservesMeaning(s: string)
    requires Read(PythonText, s).Some?
    ensures Read(JsonText, Normalized(s)) == Read(PythonText, s)
    ensures Balanced(Normalized(s))
  {
    TokensPreserved(false, s);
    ValueBalanced(Normalized(s));
  }
}
