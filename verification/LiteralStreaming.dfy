/** When the rewriting of a text that was cut short is a prefix of the rewriting of the whole text. */
module LiteralStreaming {
  import opened Text
  import opened PythonLiterals

  // What the end of a cut text leaves undecided: nothing, an escape whose second character is missing,
  // or a word outside strings that may grow into (or out of) a literal.
  datatype Tail = Clean | Backslash(mode: Mode) | Word(w: string)

  function TailOf(m: Mode, afterWord: bool, p: string): Tail
    decreases |p|
  {
    if p == "" then Clean
    else if p == "\\" then Backslash(m)
    else if StartsLiteral(m, afterWord, p[0]) && WordLen(p) == |p| then Word(p)
    else
      var k := Next(m, afterWord, p);
      TailOf(k.mode, IsWordChar(p[k.len - 1]), p[k.len..])
  }

  // Whether cutting the text p + t after p keeps the output a prefix.
  predicate SafeCut(tail: Tail, t: string) {
    t == "" ||
    match tail
    case Clean => true
    case Backslash(m) => !(m == InSingle && t[0] == '\'')
    case Word(w) => Literal(w).Some? ==> Literal(w + t[..WordLen(t)]).Some?
  }

  lemma {:induction false} WordLenConcat(p: string, t: string)
    ensures WordLen(p + t) == if WordLen(p) == |p| then |p| + WordLen(t) else WordLen(p)
  {
    var n := if WordLen(p) == |p| then |p| + WordLen(t) else WordLen(p);
    assert forall i :: 0 <= i < n ==> IsWordChar((p + t)[i]);
    WordLenIs(p + t, n);
  }

  // Away from the cut the first step does not see it.
  lemma {:induction false} NextSame(m: Mode, afterWord: bool, p: string, t: string)
    requires p != "" && p != "\\" && !(StartsLiteral(m, afterWord, p[0]) && WordLen(p) == |p|)
    ensures Next(m, afterWord, p + t) == Next(m, afterWord, p)
  {
    hide Literal;
    WordLenConcat(p, t);
    var s := p + t;
    if WordLen(p) < |p| {
      assert s[..WordLen(p)] == p[..WordLen(p)];
    }
    if |p| > 1 {
      assert s[..2] == p[..2];
    }
  }

  // After a word character no literal starts, so word characters are copied.
  lemma {:induction false} WordCopied(s: string, n: nat)
    requires n <= |s| && forall i :: 0 <= i < n ==> IsWordChar(s[i])
    ensures Rewrite(Outside, true, s) == s[..n] + Rewrite(Outside, true, s[n..])
    decreases n
  {
    hide Rewrite;
    if n == 0 {
      assert s[0..] == s;
    } else {
      WordStep(true, s);
      WordCopied(s[1..], n - 1);
      assert s[1..][n - 1..] == s[n..];
      assert s[..n] == [s[0]] + s[1..][..n - 1];
    }
  }

  lemma WordStep(afterWord: bool, s: string)
    requires s != "" && IsWordChar(s[0])
    requires StartsLiteral(Outside, afterWord, s[0]) ==> Literal(s[..WordLen(s)]).None?
    ensures Rewrite(Outside, afterWord, s) == [s[0]] + Rewrite(Outside, true, s[1..])
  {
    hide Literal, WordLen;
  }

  lemma {:induction false} LiteralPrefixes(w: string, v: string)
    requires w != "" && w <= v
    ensures Literal(v).Some? ==> Literal(w).Some? && Literal(w).value <= Literal(v).value
    ensures Literal(w).Some? && Literal(v).None? ==> Literal(w).value != "" && Literal(w).value[0] != v[0]
  {
    assert w[0] == v[0];
    if w <= "True" {
      assert w[0] == 'T';
    } else if w <= "False" {
      assert w[0] == 'F';
    } else if w <= "None" {
      assert w[0] == 'N';
    }
  }

  // The word at the cut: copied in both texts, turned into a literal in both, or turned in the cut text only.
  lemma {:induction false} WordCut(p: string, t: string)
    requires p != "" && StartsLiteral(Outside, false, p[0]) && WordLen(p) == |p|
    ensures Rewrite(Outside, false, p) <= Rewrite(Outside, false, p + t) <==> SafeCut(Word(p), t)
  {
    hide Literal, WordLen, Rewrite;
    var s := p + t;
    if t == "" {
      assert s == p;
    } else {
      WordLenConcat(p, t);
      var v := p + t[..WordLen(t)];
      assert s[..|v|] == v;
      LiteralPrefixes(p, v);
      assert p[..|p|] == p;
      if Literal(p).None? {
        WordStep(false, p);
        WordStep(false, s);
        WordCopied(p[1..], |p| - 1);
        WordCopied(s[1..], |p| - 1);
        RewriteEnd(Outside, true, p[1..][|p| - 1..]);
        assert s[1..][..|p| - 1] == p[1..];
        assert [p[0]] + p[1..] == p && [s[0]] + p[1..] == p;
      } else {
        LiteralChunk(p, |p|);
        if Literal(v).Some? {
          LiteralChunk(s, |v|);
        } else {
          WordStep(false, s);
        }
      }
    }
  }

  lemma {:induction false} LiteralChunk(s: string, n: nat)
    requires s != "" && StartsLiteral(Outside, false, s[0]) && WordLen(s) == n && Literal(s[..n]).Some?
    ensures n == |s| ==> Rewrite(Outside, false, s) == Literal(s[..n]).value
    ensures Literal(s[..n]).value <= Rewrite(Outside, false, s)
  {
    hide Literal;
    if n == |s| {
      RewriteEnd(Outside, IsWordChar(s[n - 1]), s[n..]);
    }
  }

  lemma {:induction false} CutIff(m: Mode, afterWord: bool, p: string, t: string)
    ensures Rewrite(m, afterWord, p) <= Rewrite(m, afterWord, p + t) <==> SafeCut(TailOf(m, afterWord, p), t)
    decreases |p|
  {
    hide Next, Rewrite, WordLen, Literal;
    if p == "" {
      RewriteEnd(m, afterWord, p);
    } else if p == "\\" {
      BackslashCut(m, afterWord, t);
    } else if StartsLiteral(m, afterWord, p[0]) && WordLen(p) == |p| {
      WordCut(p, t);
    } else {
      NextSame(m, afterWord, p, t);
      var k := Next(m, afterWord, p);
      var w := IsWordChar(p[k.len - 1]);
      CutIff(k.mode, w, p[k.len..], t);
      assert (p + t)[k.len..] == p[k.len..] + t;
      Unfold(m, afterWord, p);
      Unfold(m, afterWord, p + t);
      PrefixTail(k.out, Rewrite(k.mode, w, p[k.len..]), Rewrite(k.mode, w, (p + t)[k.len..]));
    }
  }

  lemma Unfold(m: Mode, afterWord: bool, s: string)
    requires s != ""
    ensures var k := Next(m, afterWord, s);
      Rewrite(m, afterWord, s) == k.out + Rewrite(k.mode, IsWordChar(s[k.len - 1]), s[k.len..])
  {
    hide Next;
  }

  lemma PrefixTail(a: string, x: string, y: string)
    ensures a + x <= a + y <==> x <= y
  {
    if a + x <= a + y {
      assert x == (a + x)[|a|..] && y == (a + y)[|a|..];
      assert forall i :: 0 <= i < |x| ==> x[i] == (a + x)[|a| + i] && y[i] == (a + y)[|a| + i];
    }
  }

  lemma {:induction false} BackslashCut(m: Mode, afterWord: bool, t: string)
    ensures Rewrite(m, afterWord, "\\") <= Rewrite(m, afterWord, "\\" + t) <==> SafeCut(Backslash(m), t)
  {
    var s := "\\" + t;
    var k := Next(m, afterWord, s);
    assert Rewrite(m, afterWord, "\\") == "\\";
    if t != "" {
      assert s[1] == t[0];
      assert k.out[0] == Rewrite(m, afterWord, s)[0];
    }
  }

  // A word that was turned into a literal in the cut text only begins with another character.
  lemma {:induction false} WordDiffers(p: string, t: string)
    requires p != "" && StartsLiteral(Outside, false, p[0]) && WordLen(p) == |p| && !SafeCut(Word(p), t)
    ensures !(Rewrite(Outside, false, p + t) <= Rewrite(Outside, false, p))
  {
    hide Literal, WordLen, Rewrite;
    WordLenConcat(p, t);
    var s, v := p + t, p + t[..WordLen(t)];
    assert s[..|v|] == v && p[..|p|] == p;
    LiteralPrefixes(p, v);
    LiteralChunk(p, |p|);
    WordStep(false, s);
  }

  // Where the output is taken back, what was shown and what should be shown differ in some character.
  lemma {:induction false} CutDiffers(m: Mode, afterWord: bool, p: string, t: string)
    requires !SafeCut(TailOf(m, afterWord, p), t)
    ensures !(Rewrite(m, afterWord, p + t) <= Rewrite(m, afterWord, p))
    decreases |p|
  {
    hide Next, Rewrite, WordLen, Literal;
    if p == "\\" {
      BackslashDiffers(m, afterWord, t);
    } else if StartsLiteral(m, afterWord, p[0]) && WordLen(p) == |p| {
      WordDiffers(p, t);
    } else {
      NextSame(m, afterWord, p, t);
      var k := Next(m, afterWord, p);
      var w := IsWordChar(p[k.len - 1]);
      CutDiffers(k.mode, w, p[k.len..], t);
      assert (p + t)[k.len..] == p[k.len..] + t;
      Unfold(m, afterWord, p);
      Unfold(m, afterWord, p + t);
      PrefixTail(k.out, Rewrite(k.mode, w, (p + t)[k.len..]), Rewrite(k.mode, w, p[k.len..]));
    }
  }

  lemma {:induction false} BackslashDiffers(m: Mode, afterWord: bool, t: string)
    requires !SafeCut(Backslash(m), t)
    ensures !(Rewrite(m, afterWord, "\\" + t) <= Rewrite(m, afterWord, "\\"))
  {
    var s := "\\" + t;
    var k := Next(m, afterWord, s);
    assert Rewrite(m, afterWord, "\\") == "\\";
    assert s[1] == t[0];
    assert k.out[0] == Rewrite(m, afterWord, s)[0];
  }

  /** A streamed value only ever grows, exactly when the cut does not split an escaped single quote inside a
      single-quoted string and does not end in a word that looks like a literal but turns out not to be one. In that
      case neither text is a prefix of the other. */
  lemma NormalizeMonotoneIff(p: string, t: string)
    ensures Normalized(p) <= Normalized(p + t) <==> SafeCut(TailOf(Outside, false, p), t)
    ensures Normalized(p) <= Normalized(p + t) || Normalized(p + t) <= Normalized(p)
            <==> SafeCut(TailOf(Outside, false, p), t)
  {
    CutIff(Outside, false, p, t);
    if !SafeCut(TailOf(Outside, false, p), t) {
      CutDiffers(Outside, false, p, t);
    }
  }

  // Two cuts after which output has to be taken back: before an escaped quote, and inside a word.
  lemma QuoteTakenBack()
    ensures !(Normalized("'\\") <= Normalized("'\\" + "'"))
  {
    hide Normalized, Next;
    NormalizeMonotoneIff("'\\", "'");
    assert Next(Outside, false, "'\\") == Chunk("\"", 1, InSingle) by {
      OpenQuote("'\\");
    }
    assert "'\\"[1..] == "\\";
    assert TailOf(InSingle, false, "\\") == Backslash(InSingle);
  }

  lemma OpenQuote(s: string)
    requires s != "" && s[0] == '\''
    ensures Next(Outside, false, s) == Chunk("\"", 1, InSingle)
  {
  }

  lemma WordTakenBack()
    ensures !(Normalized("T") <= Normalized("T" + "o"))
  {
    hide Normalized, Next, WordLen;
    NormalizeMonotoneIff("T", "o");
    WordLenIs("T", 1);
    WordLenIs("o", 1);
    assert "T" + "o"[..1] == "To";
    assert "To"[1] != "True"[1];
    assert "To"[0] != "False"[0] && "To"[0] != "None"[0];
    assert Literal("To").None?;
  }

  // ---------- how much is shown ----------

  /** A word that is the beginning of a literal shows as many characters of its JSON spelling. */
  lemma CutWordShown(w: string)
    requires w != ""
    ensures w <= "True" ==> Normalized(w) == "true"[..|w|]
    ensures w <= "False" ==> Normalized(w) == "false"[..|w|]
    ensures w <= "None" ==> Normalized(w) == "null"[..|w|]
  {
    if w <= "True" || w <= "False" || w <= "None" {
      assert w[0] == 'T' || w[0] == 'F' || w[0] == 'N';
      assert forall i :: 0 <= i < |w| ==> IsWordChar(w[i]);
      assert WordLen(w) == |w| && w[..|w|] == w && w[|w|..] == "";
      hide WordLen;
      var n := Next(Outside, false, w);
      assert n == Chunk(Literal(w).value, |w|, Outside);
      assert Rewrite(Outside, false, w) == n.out + "" == n.out;
    }
  }

  // The places where a backslash stands in front of a single quote.
  function QuoteEscapes(s: string): nat {
    if |s| < 2 then 0 else (if s[0] == '\\' && s[1] == '\'' then 1 else 0) + QuoteEscapes(s[1..])
  }

  lemma StepShown(m: Mode, afterWord: bool, s: string)
    requires s != ""
    ensures var k := Next(m, afterWord, s);
      |k.out| + (if QuoteEscape(s, k.len) then 1 else 0) >= k.len
  {
    hide WordLen;
  }

  lemma {:induction false} EscapesBehind(s: string, n: nat)
    requires n <= |s|
    ensures QuoteEscapes(s[n..]) <= QuoteEscapes(s)
  {
    if n > 0 {
      assert s[1..][n - 1..] == s[n..];
      EscapesBehind(s[1..], n - 1);
    } else {
      assert s[n..] == s;
    }
  }

  predicate QuoteEscape(s: string, n: nat) {
    n == 2 <= |s| && s[0] == '\\' && s[1] == '\''
  }

  lemma EscapesFirst(s: string, n: nat)
    requires 0 < n <= |s|
    ensures QuoteEscapes(s) >= (if QuoteEscape(s, n) then 1 else 0) + QuoteEscapes(s[n..])
  {
    if QuoteEscape(s, n) {
      assert s[1..][1..] == s[2..];
      EscapesBehind(s[1..], 1);
    } else {
      EscapesBehind(s, n);
    }
  }

  lemma {:induction false} RewriteShows(m: Mode, afterWord: bool, s: string)
    ensures |Rewrite(m, afterWord, s)| + QuoteEscapes(s) >= |s|
    decreases |s|
  {
    hide Next, QuoteEscapes, WordLen;
    if s != "" {
      var k := Next(m, afterWord, s);
      StepShown(m, afterWord, s);
      EscapesFirst(s, k.len);
      RewriteShows(k.mode, IsWordChar(s[k.len - 1]), s[k.len..]);
    }
  }

  /** Nothing is held back: the output for a text is as long as the text, but for one character for each single quote
      that loses its backslash. */
  lemma NormalizedShows(s: string)
    ensures |Normalized(s)| + QuoteEscapes(s) >= |s|
  {
    hide Rewrite;
    RewriteShows(Outside, false, s);
  }

  // The three words, and what they stand for in either notation.
  lemma LiteralWords()
    ensures Literal("True") == Some("true") && Literal("False") == Some("false") && Literal("None") == Some("null")
    ensures Json.ReadWord(Json.PythonText, "True") == Json.ReadWord(Json.JsonText, "true") == Some(Json.Bool(true))
    ensures Json.ReadWord(Json.PythonText, "False") == Json.ReadWord(Json.JsonText, "false") == Some(Json.Bool(false))
    ensures Json.ReadWord(Json.PythonText, "None") == Json.ReadWord(Json.JsonText, "null") == Some(Json.Null)
  {
    assert "True"[..4] == "True" && "true"[..4] == "true" && "false"[..5] == "false" && "null"[..4] == "null";
    assert "False"[0] != "True"[0] && "None"[0] != "True"[0] && "None"[0] != "False"[0];
  }
}
