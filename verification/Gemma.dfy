/** From the syntax tree of a Gemma 4 tool call to JSON, while the tree is still growing. */
module Gemma {
  import opened Text
  import opened Json
  import JsonFacts

  datatype Rule =
    | NumberRule | BoolRule | NullRule
    | StringContent | StringRule
    | ArrayRule
    | DictKeyName | DictKey | DictKv | DictRule
    | ValueRule
    | OtherRule

  datatype Tag = Reasoning | Content | Tool | ToolName | ToolArgs | Untagged

  // A node is partial when the text ended before the rule did.
  datatype Node = Node(rule: Rule, tag: Tag, text: string, partial: bool, children: seq<Node>)

  // ---------- rendering ----------

  function Render(n: Node): string
    decreases n
  {
    if n.text == "" then ""
    else match n.rule
      case NumberRule => n.text
      case BoolRule => n.text
      case NullRule => n.text
      case StringContent => Escape(n.text)
      case StringRule =>
        if n.children == [] then "\"" else "\"" + Render(n.children[0]) + (if n.partial then "" else "\"")
      case ArrayRule => "[" + Listed(n.children) + (if n.partial then "" else "]")
      case DictKeyName => n.text
      case DictKey =>
        "\"" + (if n.children == [] then "" else Escape(Render(n.children[0]))) + (if n.partial then "" else "\":")
      case DictKv => Concatenated(n.children)
      case DictRule => "{" + Listed(n.children) + (if n.partial then "" else "}")
      case ValueRule => if n.children == [] then "" else Render(n.children[0])
      case OtherRule => ""
  }

  function Listed(ns: seq<Node>): string
    decreases ns
  {
    if ns == [] then "" else Render(ns[0]) + MoreListed(ns[1..])
  }

  function MoreListed(ns: seq<Node>): string
    decreases ns
  {
    if ns == [] then "" else "," + (Render(ns[0]) + MoreListed(ns[1..]))
  }

  function Concatenated(ns: seq<Node>): string
    decreases ns
  {
    if ns == [] then "" else Render(ns[0]) + Concatenated(ns[1..])
  }

  // ---------- a tree cut short ----------

  // Nodes that are closed by something behind their children. If they are cut, the parser has seen no end of them and
  // marks them; it does not mark a cut key name, string content before a false start of the quote, or a pair.
  predicate HasEnd(n: Node) {
    n.rule == StringRule || n.rule == ArrayRule || n.rule == DictRule || n.rule == DictKey || n.tag == ToolName
  }

  predicate NoTags(ns: seq<Node>)
    decreases ns
  {
    ns == [] || (ns[0].tag == Untagged && NoTags(ns[0].children) && NoTags(ns[1..]))
  }

  // Nothing of the node has been seen. What the parser expects there, a string for every value, is a guess.
  predicate IsGuess(n: Node) {
    n.text == "" && n.tag == Untagged && NoTags(n.children)
  }

  // a is what a parse sees of b before the text is complete: everything on the right edge may be cut or guessed.
  predicate Cut(a: Node, b: Node)
    decreases a
  {
    || a == b
    || IsGuess(a)
    || (&& a.rule == b.rule && a.tag == b.tag && a.text <= b.text && (HasEnd(a) ==> a.partial)
        && CutList(a.children, b.children))
  }

  predicate CutList(xs: seq<Node>, ys: seq<Node>)
    decreases xs
  {
    xs == [] ||
    (ys != [] && if |xs| == 1 then Cut(xs[0], ys[0]) else xs[0] == ys[0] && CutList(xs[1..], ys[1..]))
  }

  lemma EscapeGrows(a: string, b: string)
    requires a <= b
    ensures Escape(a) <= Escape(b)
  {
    assert b == a + b[|a|..];
    JsonFacts.EscapeConcat(a, b[|a|..]);
  }

  lemma {:induction false} ListedGrows(xs: seq<Node>, ys: seq<Node>)
    requires CutList(xs, ys)
    ensures Listed(xs) <= Listed(ys) && MoreListed(xs) <= MoreListed(ys) && Concatenated(xs) <= Concatenated(ys)
    decreases xs
  {
    if xs != [] {
      if |xs| == 1 {
        RenderGrows(xs[0], ys[0]);
        assert xs[1..] == [];
      } else {
        ListedGrows(xs[1..], ys[1..]);
      }
    }
  }

  /** What is rendered of a tree that was cut short is the beginning of what the whole tree renders to. */
  lemma {:induction false} RenderGrows(a: Node, b: Node)
    requires Cut(a, b)
    ensures Render(a) <= Render(b)
    decreases a
  {
    hide Escape;
    if a != b && a.text != "" {
      assert CutList(a.children, b.children);
      match a.rule {
        case StringContent => EscapeGrows(a.text, b.text);
        case ArrayRule => ListedGrows(a.children, b.children);
        case DictRule => ListedGrows(a.children, b.children);
        case DictKv => ListedGrows(a.children, b.children);
        case DictKey =>
          if a.children != [] {
            FirstGrows(a.children, b.children);
            EscapeGrows(Render(a.children[0]), Render(b.children[0]));
          }
        case StringRule =>
          if a.children != [] {
            FirstGrows(a.children, b.children);
          }
        case ValueRule =>
          if a.children != [] {
            FirstGrows(a.children, b.children);
          }
        case _ =>
      }
    }
  }

  lemma {:induction false} FirstGrows(xs: seq<Node>, ys: seq<Node>)
    requires xs != [] && CutList(xs, ys)
    ensures Render(xs[0]) <= Render(ys[0])
    decreases xs, 0
  {
    if |xs| == 1 {
      RenderGrows(xs[0], ys[0]);
    }
  }

  // ---------- complete trees ----------

  predicate Whole(n: Node, rule: Rule) {
    n.rule == rule && n.text != "" && !n.partial
  }

  // A value as the grammar builds it when the text is complete.
  predicate IsValue(n: Node)
    decreases n
  {
    && Whole(n, ValueRule) && |n.children| == 1
    && var c := n.children[0];
       match c.rule
       case NumberRule => IsNumber(c.text)
       case BoolRule => c.text == "true" || c.text == "false"
       case NullRule => c.text == "null"
       case StringRule => Whole(c, StringRule) && |c.children| == 1 && c.children[0].rule == StringContent
       case ArrayRule => Whole(c, ArrayRule) && AreValues(c.children)
       case DictRule => Whole(c, DictRule) && AreMembers(c.children)
       case _ => false
  }

  predicate AreValues(ns: seq<Node>)
    decreases ns
  {
    ns == [] || (IsValue(ns[0]) && AreValues(ns[1..]))
  }

  predicate IsKey(n: Node) {
    Whole(n, DictKey) && |n.children| == 1 && n.children[0].rule == DictKeyName
  }

  predicate AreMembers(ns: seq<Node>)
    decreases ns
  {
    ns == [] ||
    (&& Whole(ns[0], DictKv) && |ns[0].children| == 2 && IsKey(ns[0].children[0]) && IsValue(ns[0].children[1])
     && AreMembers(ns[1..]))
  }

  function ValueOf(n: Node): Value
    requires IsValue(n)
    decreases n
  {
    var c := n.children[0];
    match c.rule
    case NumberRule => Number(c.text)
    case BoolRule => Bool(c.text == "true")
    case StringRule => String(c.children[0].text)
    case ArrayRule => Array(ValuesOf(c.children))
    case DictRule => Object(MembersOf(c.children))
    case _ => Null
  }

  function ValuesOf(ns: seq<Node>): seq<Value>
    requires AreValues(ns)
    decreases ns
  {
    if ns == [] then [] else [ValueOf(ns[0])] + ValuesOf(ns[1..])
  }

  function MembersOf(ns: seq<Node>): seq<(string, Value)>
    requires AreMembers(ns)
    decreases ns
  {
    if ns == [] then []
    else [(ns[0].children[0].children[0].text, ValueOf(ns[0].children[1]))] + MembersOf(ns[1..])
  }

  // ---------- complete trees are read as the values they stand for ----------

  // The text is lexed to tokens that parse to the value, with nothing left over.
  predicate Reads(s: string, ts: seq<Token>, v: Value) {
    Lex(JsonText, s) == Some(ts) && ParseValue(ts) == Some((v, []))
  }

  lemma LexPunct(c: char, s: string)
    requires IsPunct(c)
    ensures Lex(JsonText, [c] + s) == Prepend(Punct(c), Lex(JsonText, s))
  {
    assert ([c] + s)[1..] == s;
  }

  lemma QuoteReads(s: string, rest: string)
    ensures Lex(JsonText, "\"" + (Escape(s) + ("\"" + rest))) == Prepend(Scalar(String(s)), Lex(JsonText, rest))
  {
    hide Lex, Escape, ReadString;
    JsonFacts.LexQuote(s, rest);
    assert Quote(s) + rest == "\"" + (Escape(s) + ("\"" + rest));
  }

  lemma PrependNothing(t: Token)
    ensures Prepend(t, Some([])) == Some([t])
  {
    assert [t] + [] == [t];
  }

  lemma OneToken(v: Value)
    ensures ParseValue([Scalar(v)]) == Some((v, []))
  {
    assert [Scalar(v)][1..] == [];
  }

  lemma LexWord(w: string)
    requires w != "" && IsRunChar(w[0]) && RunLen(w) == |w| && ReadWord(JsonText, w).Some?
    ensures Reads(w, [Scalar(ReadWord(JsonText, w).value)], ReadWord(JsonText, w).value)
  {
    hide RunLen, ReadWord, ReadString, ParseValue;
    assert !IsJsonSpace(w[0]) && !IsPunct(w[0]) && !IsQuote(JsonText, w[0]);
    var k := RunLen(w);
    assert w[..k] == w && w[k..] == "";
    JsonFacts.LexEmpty();
    PrependNothing(Scalar(ReadWord(JsonText, w).value));
    OneToken(ReadWord(JsonText, w).value);
  }

  lemma {:induction false} RunOfNumber(w: string)
    requires forall i :: 0 <= i < |w| ==> IsRunChar(w[i])
    ensures RunLen(w) == |w|
  {
    if w != "" {
      RunOfNumber(w[1..]);
    }
  }

  // A scalar: a number, a bool, null or a string.
  lemma {:induction false} ScalarReads(n: Node) returns (ts: seq<Token>)
    requires IsValue(n) && !n.children[0].rule.ArrayRule? && !n.children[0].rule.DictRule?
    ensures Reads(Render(n), ts, ValueOf(n))
  {
    var c := n.children[0];
    assert Render(n) == Render(c);
    ts := [Scalar(ValueOf(n))];
    OneToken(ValueOf(n));
    if c.rule == StringRule {
      var s := c.children[0].text;
      assert ValueOf(n) == String(s);
      StringText(c);
      hide Lex, Escape, ParseValue, IsValue, ValueOf, Render;
      QuoteReads(s, "");
      JsonFacts.LexEmpty();
      PrependNothing(Scalar(String(s)));
    } else {
      WordReads(c);
      assert Render(c) == c.text;
    }
  }

  lemma StringText(c: Node)
    requires Whole(c, StringRule) && |c.children| == 1 && c.children[0].rule == StringContent
    ensures Render(c) == "\"" + (Escape(c.children[0].text) + ("\"" + ""))
  {
    EscapeEmpty();
    hide Escape;
  }

  lemma WordReads(c: Node)
    requires c.rule == NumberRule ==> IsNumber(c.text)
    requires c.rule == BoolRule ==> c.text == "true" || c.text == "false"
    requires c.rule == NullRule ==> c.text == "null"
    requires c.rule == NumberRule || c.rule == BoolRule || c.rule == NullRule
    ensures var v :=
      if c.rule == NumberRule then Number(c.text) else if c.rule == BoolRule then Bool(c.text == "true") else Null;
            Reads(c.text, [Scalar(v)], v)
    ensures c.text != ""
  {
    if c.rule == NumberRule {
      NumberIsWord(c.text);
    } else {
      ScalarWords(c.text);
    }
    hide IsNumber, Lex, ParseValue;
    RunOfNumber(c.text);
    LexWord(c.text);
  }

  lemma EscapeEmpty()
    ensures Escape("") == ""
  {
  }

  lemma NumberIsWord(w: string)
    requires IsNumber(w)
    ensures w != "" && forall i :: 0 <= i < |w| ==> IsRunChar(w[i])
  {
    NumberChars(w);
  }

  lemma ScalarWords(w: string)
    requires w == "true" || w == "false" || w == "null"
    ensures w != "" && forall i :: 0 <= i < |w| ==> IsRunChar(w[i])
    ensures ReadWord(JsonText, w) == Some(if w == "null" then Null else Bool(w == "true"))
  {
    assert w[0] == 't' || w[0] == 'f' || w[0] == 'n';
    assert DigitsLen(w) == 0;
  }

  // ---------- arrays and objects ----------

  // The rest of a list after one entry, with the bracket or brace that closes it.
  lemma LexEnd(ns: seq<Node>, c: char, more: seq<Token>)
    requires c == ']' || c == '}'
    requires ns != [] ==> Lex(JsonText, Listed(ns) + [c]) == Some(more)
    ensures var end := MoreListed(ns) + [c];
            && !IsRunChar(end[0])
            && Lex(JsonText, end) == Some(if ns == [] then [Punct(c)] else [Punct(',')] + more)
  {
    hide Lex, Render;
    if ns == [] {
      assert MoreListed(ns) + [c] == [c] + "";
      LexPunct(c, "");
      JsonFacts.LexEmpty();
      PrependNothing(Punct(c));
    } else {
      assert MoreListed(ns) + [c] == [','] + (Listed(ns) + [c]);
      LexPunct(',', Listed(ns) + [c]);
    }
  }

  lemma OneElem(first: seq<Token>, v: Value, rest: seq<Token>, vs: seq<Value>)
    requires ParseValue(first) == Some((v, [])) && rest != []
    requires if vs == [] then rest == [Punct(']')] else rest[0] == Punct(',') && ParseElems(rest[1..]) == Some((vs, []))
    ensures ParseElems(first + rest) == Some(([v] + vs, []))
  {
    hide ParseValue;
    JsonFacts.ParseValueExtends(first, rest);
    assert [] + rest == rest;
    if vs == [] {
      assert rest[1..] == [] && [v] + vs == [v];
    }
  }

  lemma ListedFirst(ns: seq<Node>, c: char)
    requires ns != []
    ensures Listed(ns) + [c] == Render(ns[0]) + (MoreListed(ns[1..]) + [c])
  {
    hide Render;
  }

  lemma {:induction false} ElemsRead(ns: seq<Node>) returns (ts: seq<Token>)
    requires ns != [] && AreValues(ns)
    ensures Lex(JsonText, Listed(ns) + [']']) == Some(ts)
    ensures ParseElems(ts) == Some((ValuesOf(ns), []))
    decreases ns, 1
  {
    var first := ValueReads(ns[0]);
    var vs := ValuesOf(ns[1..]);
    assert ValuesOf(ns) == [ValueOf(ns[0])] + vs && (vs == [] <==> ns[1..] == []);
    var more := [];
    if |ns| > 1 {
      more := ElemsRead(ns[1..]);
    }
    hide Lex, ParseValue, ParseElems, Render, IsValue, ValueOf, ValuesOf, Listed, MoreListed, AreValues;
    LexEnd(ns[1..], ']', more);
    ListedFirst(ns, ']');
    var rest := if |ns| == 1 then [Punct(']')] else [Punct(',')] + more;
    assert |ns| > 1 ==> rest[1..] == more;
    JsonFacts.LexConcat(JsonText, Render(ns[0]), MoreListed(ns[1..]) + [']']);
    OneElem(first, ValueOf(ns[0]), rest, vs);
    ts := first + rest;
  }

  predicate IsMember(n: Node) {
    Whole(n, DictKv) && |n.children| == 2 && IsKey(n.children[0]) && IsValue(n.children[1])
  }

  lemma KeyText(key: Node)
    requires IsKey(key)
    ensures Render(key) == "\"" + Escape(key.children[0].text) + "\":"
  {
    EscapeEmpty();
    hide Escape;
  }

  lemma MemberText(n: Node, rest: string)
    requires IsMember(n)
    ensures Render(n) + rest ==
            "\"" + (Escape(n.children[0].children[0].text) + ("\"" + ([':'] + (Render(n.children[1]) + rest))))
  {
    var key, value := n.children[0], n.children[1];
    var tail := n.children[1..];
    assert tail[0] == value && tail[1..] == [];
    assert Concatenated(tail) == Render(value) + Concatenated(tail[1..]);
    assert Render(n) == Render(key) + (Render(value) + "");
    KeyText(key);
    hide *;
    Reassociate(Escape(key.children[0].text), Render(value), rest);
  }

  lemma Reassociate(e: string, v: string, rest: string)
    ensures ("\"" + e + "\":") + (v + "") + rest == "\"" + (e + ("\"" + ([':'] + (v + rest))))
  {
  }

  // One member in front of the rest of the object.
  lemma LexMember(n: Node, vs: seq<Token>, end: string, rest: seq<Token>)
    requires IsMember(n) && Lex(JsonText, Render(n.children[1])) == Some(vs)
    requires end != "" && !IsRunChar(end[0]) && Lex(JsonText, end) == Some(rest)
    ensures Lex(JsonText, Render(n) + end) ==
            Some([Scalar(String(n.children[0].children[0].text)), Punct(':')] + vs + rest)
  {
    var name, text := n.children[0].children[0].text, Render(n.children[1]);
    hide *;
    MemberText(n, end);
    JsonFacts.LexConcat(JsonText, text, end);
    PunctMayStart(':');
    LexPunct(':', text + end);
    QuoteReads(name, [':'] + (text + end));
    TwoMore(Scalar(String(name)), Punct(':'), vs, rest);
  }

  lemma PunctMayStart(c: char)
    requires c == ':'
    ensures IsPunct(c)
  {
  }

  lemma TwoMore(s: Token, t: Token, x: seq<Token>, y: seq<Token>)
    ensures Prepend(s, Prepend(t, Some(x + y))) == Some([s, t] + x + y)
  {
    assert [s] + ([t] + (x + y)) == [s, t] + x + y;
  }

  lemma {:induction false} MembersRead(ns: seq<Node>) returns (ts: seq<Token>)
    requires ns != [] && AreMembers(ns)
    ensures Lex(JsonText, Listed(ns) + ['}']) == Some(ts)
    ensures ts != [] && ts[0].Scalar? && ParseMembers(ts) == Some((MembersOf(ns), []))
    decreases ns, 1
  {
    var name, value := ns[0].children[0].children[0].text, ns[0].children[1];
    var vs := ValueReads(value);
    var ms := MembersOf(ns[1..]);
    assert MembersOf(ns) == [(name, ValueOf(value))] + ms && (ms == [] <==> ns[1..] == []);
    assert IsMember(ns[0]);
    var more := [];
    if |ns| > 1 {
      more := MembersRead(ns[1..]);
    }
    hide Lex, ParseValue, ParseMembers, Render, IsValue, ValueOf, MembersOf, Listed, MoreListed, AreMembers, IsMember;
    LexEnd(ns[1..], '}', more);
    ListedFirst(ns, '}');
    var rest := if |ns| == 1 then [Punct('}')] else [Punct(',')] + more;
    assert |ns| > 1 ==> rest[1..] == more;
    LexMember(ns[0], vs, MoreListed(ns[1..]) + ['}'], rest);
    JsonFacts.ParseValueExtends(vs, rest);
    assert [] + rest == rest;
    JsonFacts.ParseMember(name, ValueOf(value), vs, rest, ms);
    ts := [Scalar(String(name)), Punct(':')] + vs + rest;
  }

  /** What a complete value renders to is JSON for that value. */
  lemma {:induction false} ValueReads(n: Node) returns (ts: seq<Token>)
    requires IsValue(n)
    ensures Reads(Render(n), ts, ValueOf(n))
    decreases n
  {
    var c := n.children[0];
    if c.rule == ArrayRule {
      ts := ArrayReads(n);
    } else if c.rule == DictRule {
      ts := DictReads(n);
    } else {
      ts := ScalarReads(n);
    }
  }

  lemma {:induction false} ArrayReads(n: Node) returns (ts: seq<Token>)
    requires IsValue(n) && n.children[0].rule == ArrayRule
    ensures Reads(Render(n), ts, ValueOf(n))
    decreases n, 0
  {
    var c := n.children[0];
    assert Render(n) == Render(c) == ['['] + (Listed(c.children) + "]");
    assert ValueOf(n) == Array(ValuesOf(c.children));
    if c.children == [] {
      hide Lex, Render, IsValue, ValueOf;
      assert Listed([]) + "]" == [']'] + "";
      LexPunct('[', [']'] + "");
      LexPunct(']', "");
      JsonFacts.LexEmpty();
      ts := [Punct('['), Punct(']')];
      PrependNothing(Punct(']'));
      assert [Punct('[')] + [Punct(']')] == ts && ts[2..] == [];
    } else {
      var more := ElemsRead(c.children);
      hide Lex, Render, IsValue, ValueOf, Listed;
      LexPunct('[', Listed(c.children) + "]");
      ts := [Punct('[')] + more;
      ElemsInBrackets(more, ValuesOf(c.children));
    }
  }

  lemma ElemsInBrackets(more: seq<Token>, vs: seq<Value>)
    requires ParseElems(more) == Some((vs, []))
    ensures ParseValue([Punct('[')] + more) == Some((Array(vs), []))
  {
    assert ([Punct('[')] + more)[1..] == more;
    assert ParseValue(more).Some? && more[0] != Punct(']');
  }

  lemma {:induction false} DictReads(n: Node) returns (ts: seq<Token>)
    requires IsValue(n) && n.children[0].rule == DictRule
    ensures Reads(Render(n), ts, ValueOf(n))
    decreases n, 0
  {
    var c := n.children[0];
    assert Render(n) == Render(c) == ['{'] + (Listed(c.children) + "}");
    assert ValueOf(n) == Object(MembersOf(c.children));
    if c.children == [] {
      hide Lex, Render, IsValue, ValueOf;
      assert Listed([]) + "}" == ['}'] + "";
      LexPunct('{', ['}'] + "");
      LexPunct('}', "");
      JsonFacts.LexEmpty();
      ts := [Punct('{'), Punct('}')];
      PrependNothing(Punct('}'));
      assert [Punct('{')] + [Punct('}')] == ts && ts[2..] == [];
    } else {
      var more := MembersRead(c.children);
      hide Lex, Render, IsValue, ValueOf, Listed;
      LexPunct('{', Listed(c.children) + "}");
      ts := [Punct('{')] + more;
      MembersInBraces(more, MembersOf(c.children));
    }
  }

  lemma MembersInBraces(more: seq<Token>, ms: seq<(string, Value)>)
    requires ParseMembers(more) == Some((ms, [])) && more[0].Scalar?
    ensures ParseValue([Punct('{')] + more) == Some((Object(ms), []))
  {
    assert ([Punct('{')] + more)[1..] == more;
  }

  /** While a value is parsed, what is rendered of it grows towards JSON that denotes the value. */
  lemma RenderedValue(a: Node, n: Node)
    requires IsValue(n) && Cut(a, n)
    ensures Read(JsonText, Render(n)) == Some(ValueOf(n))
    ensures Render(a) <= Render(n)
  {
    hide Render, Lex, ParseValue, ValueOf;
    RenderGrows(a, n);
    var ts := ValueReads(n);
  }
}
