/** Facts about reading JSON that relate a text to its parts. */
module JsonFacts {
  import opened Text
  import opened Json

  lemma {:induction false} EscapeConcat(a: string, b: string)
    ensures Escape(a + b) == Escape(a) + Escape(b)
  {
    hide EscapeChar;
    if a == "" {
      assert a + b == b;
    } else {
      assert (a + b)[1..] == a[1..] + b;
      EscapeConcat(a[1..], b);
      assert EscapeChar(a[0]) + (Escape(a[1..]) + Escape(b)) == EscapeChar(a[0]) + Escape(a[1..]) + Escape(b);
    }
  }

  lemma {:induction false} LexQuote(s: string, rest: string)
    ensures Lex(JsonText, Quote(s) + rest) == Prepend(Scalar(String(s)), Lex(JsonText, rest))
  {
    var text := Quote(s) + rest;
    assert text[0] == '"' && text[1..] == Escape(s) + "\"" + rest;
    ReadEscaped(s, rest);
    assert ReadString(JsonText, text[0], text[1..]) == Some((s, rest));
    assert !IsJsonSpace(text[0]) && !IsPunct(text[0]);
  }

  lemma {:induction false} LexEmpty()
    ensures Lex(JsonText, "") == Some([])
    ensures Lex(JsonText, "}") == Some([Punct('}')])
  {
    assert "}"[1..] == "" && [Punct('}')] + [] == [Punct('}')];
  }

  // Text after the closing quote does not change what a string denotes.
  lemma {:induction false} ReadStringExtends(n: Notation, q: char, s: string, x: string)
    requires ReadString(n, q, s).Some?
    ensures ReadString(n, q, s + x) == Some((ReadString(n, q, s).value.0, ReadString(n, q, s).value.1 + x))
    decreases |s|
  {
    var t := s + x;
    if s[0] == q {
      assert t[1..] == s[1..] + x;
    } else if s[0] == '\\' && s[1] == 'u' {
      assert t[2..6] == s[2..6];
      assert t[6..] == s[6..] + x;
      ReadStringExtends(n, q, s[6..], x);
    } else if s[0] == '\\' {
      assert t[2..] == s[2..] + x;
      ReadStringExtends(n, q, s[2..], x);
    } else {
      assert t[1..] == s[1..] + x;
      ReadStringExtends(n, q, s[1..], x);
    }
  }

  lemma {:induction false} RunLenExtends(s: string, x: string)
    requires x == "" || !IsRunChar(x[0])
    ensures RunLen(s + x) == RunLen(s)
  {
    if s == "" {
      assert s + x == x;
    } else if IsRunChar(s[0]) {
      assert (s + x)[1..] == s[1..] + x;
      RunLenExtends(s[1..], x);
    }
  }

  // The tokens of a concatenation are the tokens of the parts, unless a word or number runs over the border.
  lemma {:induction false} LexConcat(n: Notation, a: string, b: string)
    requires Lex(n, a).Some? && Lex(n, b).Some?
    requires b == "" || !IsRunChar(b[0])
    ensures Lex(n, a + b) == Some(Lex(n, a).value + Lex(n, b).value)
    decreases |a|
  {
    hide ReadWord, ReadString, RunLen;
    var t := a + b;
    if a == "" {
      assert t == b;
      assert [] + Lex(n, b).value == Lex(n, b).value;
    } else if IsJsonSpace(a[0]) {
      assert t[1..] == a[1..] + b;
      LexConcat(n, a[1..], b);
    } else if IsPunct(a[0]) {
      assert t[1..] == a[1..] + b;
      LexConcat(n, a[1..], b);
      PrependConcat(Punct(a[0]), Lex(n, a[1..]).value, Lex(n, b).value);
    } else if IsQuote(n, a[0]) {
      assert t[1..] == a[1..] + b;
      ReadStringExtends(n, a[0], a[1..], b);
      var r := ReadString(n, a[0], a[1..]).value;
      LexConcat(n, r.1, b);
      PrependConcat(Scalar(String(r.0)), Lex(n, r.1).value, Lex(n, b).value);
    } else {
      RunLenExtends(a, b);
      var k := RunLen(a);
      assert t[..k] == a[..k];
      assert t[k..] == a[k..] + b;
      LexConcat(n, a[k..], b);
      PrependConcat(Scalar(ReadWord(n, a[..k]).value), Lex(n, a[k..]).value, Lex(n, b).value);
    }
  }

  lemma PrependConcat(t: Token, x: seq<Token>, y: seq<Token>)
    ensures Prepend(t, Some(x + y)) == Some(Prepend(t, Some(x)).value + y)
  {
    assert [t] + (x + y) == [t] + x + y;
  }

  // Tokens after a complete value do not change how the value is read.
  lemma {:induction false} ParseValueExtends(ts: seq<Token>, x: seq<Token>)
    requires ParseValue(ts).Some?
    ensures ParseValue(ts + x) == Some((ParseValue(ts).value.0, ParseValue(ts).value.1 + x))
    decreases |ts|, 0
  {
    var t := ts + x;
    assert t[1..] == ts[1..] + x;
    match ts[0]
    case Scalar(_) =>
    case Punct('{') =>
      if |ts| > 1 && ts[1] == Punct('}') {
        assert t[2..] == ts[2..] + x;
      } else {
        ParseMembersExtends(ts[1..], x);
      }
    case Punct('[') =>
      if |ts| > 1 && ts[1] == Punct(']') {
        assert t[2..] == ts[2..] + x;
      } else {
        ParseElemsExtends(ts[1..], x);
      }
    case _ =>
  }

  lemma {:induction false} ParseMembersExtends(ts: seq<Token>, x: seq<Token>)
    requires ParseMembers(ts).Some?
    ensures ParseMembers(ts + x) == Some((ParseMembers(ts).value.0, ParseMembers(ts).value.1 + x))
    decreases |ts|, 1
  {
    assert (ts + x)[2..] == ts[2..] + x;
    ParseValueExtends(ts[2..], x);
    var rest := ParseValue(ts[2..]).value.1;
    assert (rest + x)[1..] == rest[1..] + x;
    if rest[0] == Punct(',') {
      ParseMembersExtends(rest[1..], x);
    }
  }

  lemma {:induction false} ParseElemsExtends(ts: seq<Token>, x: seq<Token>)
    requires ParseElems(ts).Some?
    ensures ParseElems(ts + x) == Some((ParseElems(ts).value.0, ParseElems(ts).value.1 + x))
    decreases |ts|, 1
  {
    ParseValueExtends(ts, x);
    var rest := ParseValue(ts).value.1;
    assert (rest + x)[1..] == rest[1..] + x;
    if rest[0] == Punct(',') {
      ParseElemsExtends(rest[1..], x);
    }
  }

  // One member in front of the others, or of the closing brace.
  lemma ParseMember(name: string, v: Value, value: seq<Token>, more: seq<Token>, ms: seq<(string, Value)>)
    requires ParseValue(value + more) == Some((v, more)) && more != []
    requires if ms == [] then more == [Punct('}')]
             else more[0] == Punct(',') && ParseMembers(more[1..]) == Some((ms, []))
    ensures ParseMembers([Scalar(String(name)), Punct(':')] + value + more) == Some(([(name, v)] + ms, []))
  {
    hide ParseValue;
    var ts := [Scalar(String(name)), Punct(':')] + value + more;
    assert ts[2..] == value + more;
    if ms == [] {
      assert more[1..] == [] && [(name, v)] + ms == [(name, v)];
    }
  }

  // ---------- the escapes of section 7 of RFC 8259 ----------

  /** Which character each of the eight short escapes stands for, and that they are written for it, a slash excepted. */
  lemma EscapeTable(k: nat)
    requires k < 8
    ensures var e, c := "\"\\/bfnrt"[k], "\"\\/\U{08}\U{0C}\n\r\t"[k];
      && ReadString(JsonText, '"', ['\\', e] + "\"") == Some(([c], ""))
      && (k != 2 ==> Escape([c]) == ['\\', e])
  {
    var e, c := "\"\\/bfnrt"[k], "\"\\/\U{08}\U{0C}\n\r\t"[k];
    var s := ['\\', e] + "\"";
    assert s[2..] == "\"" && "\""[1..] == "";
    assert ReadString(JsonText, '"', "\"") == Some(("", ""));
    assert [c] + "" == [c];
    assert [c][1..] == "";
  }

  lemma HexTable(v: nat)
    requires v < 16
    ensures HexLower(v) == "0123456789abcdef"[v]
    ensures HexDigit("0123456789abcdef"[v]) == Some(v) && HexDigit("0123456789ABCDEF"[v]) == Some(v)
  {
  }

  // ---------- what JSON looks like ----------

  lemma PunctFirst(c: char, s: string)
    requires IsPunct(c)
    ensures Lex(JsonText, [c] + s) == Prepend(Punct(c), Lex(JsonText, s))
  {
    assert ([c] + s)[1..] == s;
  }

  // What an object with one list in it looks like.
  lemma ObjectLooks(a: string, b: string)
    ensures Read(JsonText, "{" + (Quote(a) + (":" + ("[" + (Quote(b) + ("]" + "}")))))) ==
            Some(Object([(a, Array([String(b)]))]))
  {
    var end := [Punct(']'), Punct('}')];
    var ts := [Punct('{'), Scalar(String(a)), Punct(':'), Punct('['), Scalar(String(b))] + end;
    hide Lex, Quote, ParseValue, ParseElems, ParseMembers;
    LexEmpty();
    PunctFirst(']', "}");
    assert [']'] + "}" == "]" + "}";
    LexQuote(b, "]" + "}");
    PunctFirst('[', Quote(b) + ("]" + "}"));
    PunctFirst(':', "[" + (Quote(b) + ("]" + "}")));
    LexQuote(a, ":" + ("[" + (Quote(b) + ("]" + "}"))));
    PunctFirst('{', Quote(a) + (":" + ("[" + (Quote(b) + ("]" + "}")))));
    assert [Punct(']')] + [Punct('}')] == end;
    assert [Scalar(String(b))] + end == ts[4..] && [Punct('[')] + ts[4..] == ts[3..];
    assert [Punct(':')] + ts[3..] == ts[2..] && [Scalar(String(a))] + ts[2..] == ts[1..];
    assert [Punct('{')] + ts[1..] == ts;
    TokensLook(a, b, ts);
  }

  lemma TokensLook(a: string, b: string, ts: seq<Token>)
    requires ts == [Punct('{'), Scalar(String(a)), Punct(':'), Punct('['), Scalar(String(b)), Punct(']'), Punct('}')]
    ensures ParseValue(ts) == Some((Object([(a, Array([String(b)]))]), []))
  {
    assert ts[4..][1..] == ts[5..] && ts[5..][1..] == ts[6..] && ts[6..][1..] == [];
    assert ParseValue(ts[4..]) == Some((String(b), ts[5..]));
    assert ParseElems(ts[4..]) == Some(([String(b)], ts[6..]));
    assert ts[3..][1..] == ts[4..] && ts[1..][2..] == ts[3..];
    assert ParseValue(ts[3..]) == Some((Array([String(b)]), ts[6..]));
    assert ParseMembers(ts[1..]) == Some(([(a, Array([String(b)]))], []));
  }
}
