/** How much is shown of the arguments of a Gemma 4 tool call while they are read: all that has been read of them. */
module GemmaSoFar {
  import opened Text
  import opened Gemma
  import opened GemmaParser
  import opened GemmaTrees
  import Json

  // ---------- trees of a text that has not ended ----------

  // A number that ends in a sign, a dot or the mark of an exponent lacks a digit.
  function NumberSoFar(w: string): string {
    if Json.IsNumber(w) then w else w + "0"
  }

  // A value in which the text ended, or in front of which it ended.
  predicate IsOpen(n: Node)
    decreases n, 0
  {
    n.rule == ValueRule && n.partial && (n.text == "" || (|n.children| == 1 && OpenBody(n.children[0])))
  }

  predicate OpenBody(c: Node)
    decreases c
  {
    && c.text != "" && c.partial
    && match c.rule
       case NumberRule => Json.IsNumber(NumberSoFar(c.text))
       case BoolRule => c.text <= "true" || c.text <= "false"
       case NullRule => c.text <= "null"
       case StringRule => c.children == [] || (|c.children| == 1 && c.children[0].rule == StringContent)
       case ArrayRule => OpenItems(InArray, c.children)
       case DictRule => OpenItems(InDict, c.children)
       case _ => false
  }

  // Entries or members of which at most the last one is open.
  predicate OpenItems(kind: Kind, ns: seq<Node>)
    decreases ns
  {
    || ns == []
    || (|ns| == 1 && IsItem(kind, ns[0]))
    || (|ns| == 1 && if kind.InArray? then IsOpen(ns[0]) else OpenMember(ns[0]))
    || (|ns| > 1 && IsItem(kind, ns[0]) && OpenItems(kind, ns[1..]))
  }

  // The text ended in front of a member, in its name or in its value.
  predicate OpenMember(n: Node)
    decreases n, 0
  {
    && n.rule == DictKv && n.partial
    && (|| n.text == ""
        || (|n.children| == 1 && OpenKey(n.children[0]))
        || (|n.children| == 2 && IsKey(n.children[0]) && IsOpen(n.children[1])))
  }

  predicate OpenKey(k: Node) {
    k.rule == DictKey && k.text != "" && k.partial && |k.children| == 1 && k.children[0].rule == DictKeyName
  }

  predicate SoFar(n: Node) {
    IsValue(n) || IsOpen(n)
  }

  predicate MemberAsFar(n: Node) {
    IsMember(n) || OpenMember(n)
  }

  // ---------- what has been read ----------

  // The value as far as it has been read; where nothing of it has been seen, the parser expects a string.
  function ValueSoFar(n: Node): Json.Value
    requires SoFar(n)
    decreases n
  {
    if !n.partial then ValueOf(n) else if n.text == "" then Json.String("") else BodySoFar(n.children[0])
  }

  function BodySoFar(c: Node): Json.Value
    requires OpenBody(c)
    decreases c
  {
    match c.rule
    case NumberRule => Json.Number(NumberSoFar(c.text))
    case BoolRule => Json.Bool(c.text <= "true")
    case StringRule => Json.String(if c.children == [] then "" else c.children[0].text)
    case ArrayRule => Json.Array(ElemsSoFar(c.children))
    case DictRule => Json.Object(MembersSoFar(c.children))
    case _ => Json.Null
  }

  function ElemsSoFar(ns: seq<Node>): seq<Json.Value>
    requires OpenItems(InArray, ns)
    decreases ns
  {
    if ns == [] then [] else [ValueSoFar(ns[0])] + ElemsSoFar(ns[1..])
  }

  function MembersSoFar(ns: seq<Node>): seq<(string, Json.Value)>
    requires OpenItems(InDict, ns)
    decreases ns
  {
    if ns == [] then [] else [MemberSoFar(ns[0])] + MembersSoFar(ns[1..])
  }

  function MemberSoFar(n: Node): (string, Json.Value)
    requires MemberAsFar(n)
    decreases n
  {
    if n.text == "" then ("", Json.String(""))
    else (n.children[0].children[0].text, if |n.children| == 1 then Json.String("") else ValueSoFar(n.children[1]))
  }

  // ---------- what is still to come ----------

  // The quotes, colons, brackets and braces that the open nodes lack, from the inside out.
  function Closers(n: Node): string
    requires SoFar(n)
    decreases n
  {
    if !n.partial then "" else if n.text == "" then "\"\"" else BodyClosers(n.children[0])
  }

  function BodyClosers(c: Node): string
    requires OpenBody(c)
    decreases c
  {
    match c.rule
    case NumberRule => NumberSoFar(c.text)[|c.text|..]
    case BoolRule => if c.text <= "true" then "true"[|c.text|..] else "false"[|c.text|..]
    case StringRule => "\""
    case ArrayRule => ItemClosers(InArray, c.children) + "]"
    case DictRule => ItemClosers(InDict, c.children) + "}"
    case NullRule => "null"[|c.text|..]
    case _ => ""
  }

  function ItemClosers(kind: Kind, ns: seq<Node>): string
    requires OpenItems(kind, ns)
    decreases ns
  {
    if ns == [] then ""
    else if |ns| > 1 then ItemClosers(kind, ns[1..])
    else if kind.InArray? then Closers(ns[0])
    else MemberClosers(ns[0])
  }

  function MemberClosers(n: Node): string
    requires MemberAsFar(n)
    decreases n
  {
    if n.text == "" then "\"\":\"\"" else if |n.children| == 1 then "\":\"\"" else Closers(n.children[1])
  }

  // ---------- the tree with its closers ----------

  function Leaf(rule: Rule, w: string): Node {
    Node(rule, Untagged, w, false, [])
  }

  function Around(rule: Rule, ns: seq<Node>): Node {
    Node(rule, Untagged, "-", false, ns)
  }

  function Closed(n: Node): Node
    requires SoFar(n)
    decreases n
  {
    if !n.partial then n
    else if n.text == "" then Around(ValueRule, [Around(StringRule, [Leaf(StringContent, "")])])
    else Around(ValueRule, [ClosedBody(n.children[0])])
  }

  function ClosedBody(c: Node): Node
    requires OpenBody(c)
    decreases c
  {
    match c.rule
    case StringRule => Around(StringRule, [if c.children == [] then Leaf(StringContent, "") else c.children[0]])
    case ArrayRule => Around(ArrayRule, ClosedItems(InArray, c.children))
    case DictRule => Around(DictRule, ClosedItems(InDict, c.children))
    case _ => Leaf(c.rule, c.text + BodyClosers(c))
  }

  function ClosedItems(kind: Kind, ns: seq<Node>): seq<Node>
    requires OpenItems(kind, ns)
    decreases ns
  {
    if ns == [] then []
    else [if kind.InArray? then Closed(ns[0]) else ClosedMember(ns[0])] + ClosedItems(kind, ns[1..])
  }

  function ClosedMember(n: Node): Node
    requires MemberAsFar(n)
    decreases n
  {
    if !n.partial then n
    else
      var m := MemberSoFar(n);
      var key := Around(DictKey, [Leaf(DictKeyName, m.0)]);
      if n.text == "" || |n.children| == 1 then
        Around(DictKv, [key, Around(ValueRule, [Around(StringRule, [Leaf(StringContent, "")])])])
      else Around(DictKv, [key, Closed(n.children[1])])
  }

  // ---------- the closed tree is complete ----------

  // A complete value c' in place of what is open in c: what is shown of c, and the closers behind it.
  predicate Closes(c: Node, w: string, v: Json.Value, r: Node) {
    IsBody(r) && ValueOf(Around(ValueRule, [r])) == v && Render(r) == Render(c) + w
  }

  lemma BodyIsValue(r: Node)
    ensures IsBody(r) <==> IsValue(Around(ValueRule, [r]))
  {
  }

  lemma WordRest(w: string, lit: string)
    requires w <= lit
    ensures w + lit[|w|..] == lit
  {
  }

  lemma NumberStarts(w: string)
    ensures w <= NumberSoFar(w)
  {
  }

  // The text of a word with what is missing of it.
  lemma WordSoFar(c: Node)
    requires OpenBody(c) && (c.rule == NumberRule || c.rule == BoolRule || c.rule == NullRule)
    ensures c.text + BodyClosers(c) ==
      if c.rule == NumberRule then NumberSoFar(c.text)
      else if c.rule == NullRule then "null" else if c.text <= "true" then "true" else "false"
  {
    if c.rule == NumberRule {
      NumberStarts(c.text);
      WordRest(c.text, NumberSoFar(c.text));
    } else if c.rule == NullRule {
      WordRest(c.text, "null");
    } else if c.text <= "true" {
      WordRest(c.text, "true");
    } else {
      WordRest(c.text, "false");
    }
  }

  lemma WordIsBody(rule: Rule, w: string)
    requires w != ""
    requires rule == NumberRule ==> Json.IsNumber(w)
    requires rule == BoolRule ==> w == "true" || w == "false"
    requires rule == NullRule ==> w == "null"
    requires rule == NumberRule || rule == BoolRule || rule == NullRule
    ensures IsBody(Leaf(rule, w)) && Render(Leaf(rule, w)) == w
    ensures ValueOf(Around(ValueRule, [Leaf(rule, w)])) ==
      if rule == NumberRule then Json.Number(w) else if rule == BoolRule then Json.Bool(w == "true") else Json.Null
  {
    hide Json.IsNumber;
    assert Around(ValueRule, [Leaf(rule, w)]).children[0] == Leaf(rule, w);
  }

  lemma WordRenders(c: Node)
    requires c.rule == NumberRule || c.rule == BoolRule || c.rule == NullRule
    ensures Render(c) == c.text
  {
  }

  lemma WordCloses(c: Node)
    requires OpenBody(c) && (c.rule == NumberRule || c.rule == BoolRule || c.rule == NullRule)
    ensures Closes(c, BodyClosers(c), BodySoFar(c), ClosedBody(c))
  {
    WordSoFar(c);
    WordRenders(c);
    var w := c.text + BodyClosers(c);
    assert c.rule == BoolRule ==> (w == "true" <==> c.text <= "true") by {
      assert "false"[0] != "true"[0];
    }
    assert ClosedBody(c) == Leaf(c.rule, w);
    assert BodySoFar(c) ==
      if c.rule == NumberRule then Json.Number(w)
      else if c.rule == BoolRule then Json.Bool(w == "true") else Json.Null;
    assert c.rule == NumberRule ==> Json.IsNumber(w);
    hide *;
    WordIsBody(c.rule, w);
    ClosesIs(c, BodyClosers(c), BodySoFar(c), ClosedBody(c));
  }

  lemma ClosesIs(c: Node, w: string, v: Json.Value, r: Node)
    requires IsBody(r) && ValueOf(Around(ValueRule, [r])) == v && Render(r) == Render(c) + w
    ensures Closes(c, w, v, r)
  {
    hide ValueOf, Render;
  }

  // A string with its quotes, whatever its content.
  lemma StringIsBody(content: Node)
    requires content.rule == StringContent
    ensures var r := Around(StringRule, [content]);
      && IsBody(r) && ValueOf(Around(ValueRule, [r])) == Json.String(content.text)
      && Render(r) == "\"" + Json.Escape(content.text) + "\""
  {
    EscapeEmpty();
    hide Json.Escape;
    var r := Around(StringRule, [content]);
    assert Around(ValueRule, [r]).children[0] == r && r.children[0] == content;
  }

  /** Of a string that was cut, a quote and all of its content is shown. */
  lemma CutStringShows(c: Node)
    requires OpenBody(c) && c.rule == StringRule
    ensures Render(c) == "\"" + Json.Escape(if c.children == [] then "" else c.children[0].text)
  {
    EscapeEmpty();
    hide Json.Escape;
  }

  lemma StringCloses(c: Node)
    requires OpenBody(c) && c.rule == StringRule
    ensures Closes(c, BodyClosers(c), BodySoFar(c), ClosedBody(c))
  {
    var content := if c.children == [] then Leaf(StringContent, "") else c.children[0];
    assert ClosedBody(c) == Around(StringRule, [content]) && BodySoFar(c) == Json.String(content.text);
    assert BodyClosers(c) == "\"";
    hide *;
    CutStringShows(c);
    StringIsBody(content);
    ClosesIs(c, BodyClosers(c), BodySoFar(c), ClosedBody(c));
  }

  lemma NoText(n: Node)
    ensures n.text == "" ==> Render(n) == ""
  {
  }

  lemma EmptyString()
    ensures var s := Around(ValueRule, [Around(StringRule, [Leaf(StringContent, "")])]);
      IsValue(s) && ValueOf(s) == Json.String("") && Render(s) == "\"\""
  {
    var c := Around(StringRule, [Leaf(StringContent, "")]);
    assert Around(ValueRule, [c]).children == [c] && c.children == [Leaf(StringContent, "")];
    assert Render(c) == "\"\"";
  }

  // ---------- entries and members ----------

  function ItemClosed(kind: Kind, n: Node): Node
    requires if kind.InArray? then SoFar(n) else MemberAsFar(n)
  {
    if kind.InArray? then Closed(n) else ClosedMember(n)
  }

  function ItemEnd(kind: Kind, n: Node): string
    requires if kind.InArray? then SoFar(n) else MemberAsFar(n)
  {
    if kind.InArray? then Closers(n) else MemberClosers(n)
  }

  lemma WholeItem(kind: Kind, n: Node)
    requires IsItem(kind, n)
    ensures !n.partial && ItemClosed(kind, n) == n && ItemEnd(kind, n) == ""
  {
    if kind.InArray? {
      assert IsValue(n);
    } else {
      assert IsMember(n) && IsValue(n.children[1]);
      assert Closers(n.children[1]) == "";
    }
  }

  // What is said of one entry or member, once it is closed: it is complete, and stands for what was read of it.
  predicate ItemIsClosed(kind: Kind, n: Node)
    requires if kind.InArray? then SoFar(n) else MemberAsFar(n)
  {
    var r := ItemClosed(kind, n);
    && IsItem(kind, r) && Render(r) == Render(n) + ItemEnd(kind, n)
    && (if kind.InArray? then ValueOf(r) == ValueSoFar(n)
        else (r.children[0].children[0].text, ValueOf(r.children[1])) == MemberSoFar(n))
  }

  // And of a list of them.
  predicate ItemsAreClosed(kind: Kind, ns: seq<Node>)
    requires OpenItems(kind, ns)
  {
    var rs := ClosedItems(kind, ns);
    && AreItems(kind, rs) && (rs == [] <==> ns == [])
    && Listed(rs) == Listed(ns) + ItemClosers(kind, ns) && MoreListed(rs) == MoreListed(ns) + ItemClosers(kind, ns)
    && (if kind.InArray? then ValuesOf(rs) == ElemsSoFar(ns) else MembersOf(rs) == MembersSoFar(ns))
  }

  lemma FirstOpen(kind: Kind, ns: seq<Node>)
    requires OpenItems(kind, ns) && ns != []
    ensures if kind.InArray? then SoFar(ns[0]) else MemberAsFar(ns[0])
    ensures OpenItems(kind, ns[1..]) && ClosedItems(kind, ns) == [ItemClosed(kind, ns[0])] + ClosedItems(kind, ns[1..])
    ensures ItemClosers(kind, ns) == if |ns| == 1 then ItemEnd(kind, ns[0]) else ItemClosers(kind, ns[1..])
    ensures |ns| > 1 ==> IsItem(kind, ns[0])
    ensures if kind.InArray? then ElemsSoFar(ns) == [ValueSoFar(ns[0])] + ElemsSoFar(ns[1..])
            else MembersSoFar(ns) == [MemberSoFar(ns[0])] + MembersSoFar(ns[1..])
  {
    hide IsValue, IsMember, IsOpen, OpenMember, Closed, ClosedMember, Closers, MemberClosers, ValueSoFar, MemberSoFar;
  }

  lemma ListedIs(n: Node, ns: seq<Node>)
    ensures Listed([n] + ns) == Render(n) + MoreListed(ns) && MoreListed([n] + ns) == "," + (Render(n) + MoreListed(ns))
    ensures Listed([]) == "" && MoreListed([]) == ""
  {
    assert ([n] + ns)[1..] == ns;
    hide Render;
  }

  lemma ItemsOf(kind: Kind, n: Node, ns: seq<Node>)
    requires IsItem(kind, n) && AreItems(kind, ns)
    ensures AreItems(kind, [n] + ns)
    ensures if kind.InArray? then ValuesOf([n] + ns) == [ValueOf(n)] + ValuesOf(ns)
            else MembersOf([n] + ns) == [(n.children[0].children[0].text, ValueOf(n.children[1]))] + MembersOf(ns)
  {
    assert ([n] + ns)[1..] == ns;
    hide IsValue, ValueOf;
  }

  // The text of a first entry and of the others, with the closers.
  lemma TextTogether(n: Node, ns: seq<Node>, r: Node, rs: seq<Node>, e: string, es: string)
    requires Render(r) == Render(n) + e && MoreListed(rs) == MoreListed(ns) + es
    requires if ns == [] then es == "" else e == ""
    ensures Listed([r] + rs) == Listed([n] + ns) + (e + es) && MoreListed([r] + rs) == MoreListed([n] + ns) + (e + es)
  {
    ListedIs(n, ns);
    ListedIs(r, rs);
    hide Render, Listed, MoreListed;
    if ns == [] {
      ListedIs(n, ns);
      assert e + es == e && MoreListed(ns) == "" && MoreListed(rs) == "";
      assert Render(n) + e + "" == Render(n) + "" + e && "," + (Render(n) + e + "") == "," + (Render(n) + "") + e;
    } else {
      assert e + es == es && Render(r) == Render(n);
      MoreText(Render(n), MoreListed(ns), es);
    }
  }

  lemma MoreText(a: string, b: string, c: string)
    ensures a + (b + c) == (a + b) + c && "," + (a + (b + c)) == ("," + (a + b)) + c
  {
  }

  lemma ItemsTogether(kind: Kind, ns: seq<Node>)
    requires OpenItems(kind, ns) && ns != [] && OpenItems(kind, ns[1..]) && ItemsAreClosed(kind, ns[1..])
    requires if kind.InArray? then SoFar(ns[0]) else MemberAsFar(ns[0])
    requires ItemIsClosed(kind, ns[0])
    ensures ItemsAreClosed(kind, ns)
  {
    hide *;
    var n, more := ns[0], ns[1..];
    var r, rs := ItemClosed(kind, n), ClosedItems(kind, more);
    var e, es := ItemEnd(kind, n), ItemClosers(kind, more);
    assert ns == [n] + more;
    FirstOpen(kind, ns);
    ItemIs(kind, n);
    ItemsAre(kind, more);
    ItemsOf(kind, r, rs);
    if more == [] {
      NoClosers(kind);
      assert e + es == e;
    } else {
      WholeItem(kind, n);
      assert e + es == es;
    }
    TextTogether(n, more, r, rs, e, es);
    AreClosed(kind, ns);
  }

  lemma NoClosers(kind: Kind)
    ensures OpenItems(kind, []) && ItemClosers(kind, []) == ""
  {
  }

  lemma ItemIs(kind: Kind, n: Node)
    requires if kind.InArray? then SoFar(n) else MemberAsFar(n)
    requires ItemIsClosed(kind, n)
    ensures var r := ItemClosed(kind, n);
      && IsItem(kind, r) && Render(r) == Render(n) + ItemEnd(kind, n)
      && (if kind.InArray? then ValueOf(r) == ValueSoFar(n)
          else (r.children[0].children[0].text, ValueOf(r.children[1])) == MemberSoFar(n))
  {
  }

  lemma ItemsAre(kind: Kind, ns: seq<Node>)
    requires OpenItems(kind, ns) && ItemsAreClosed(kind, ns)
    ensures var rs := ClosedItems(kind, ns);
      && AreItems(kind, rs) && MoreListed(rs) == MoreListed(ns) + ItemClosers(kind, ns)
      && (if kind.InArray? then ValuesOf(rs) == ElemsSoFar(ns) else MembersOf(rs) == MembersSoFar(ns))
  {
  }

  lemma AreClosed(kind: Kind, ns: seq<Node>)
    requires OpenItems(kind, ns) && ns != [] && ClosedItems(kind, ns) != []
    requires var rs := ClosedItems(kind, ns);
      && AreItems(kind, rs) && Listed(rs) == Listed(ns) + ItemClosers(kind, ns)
      && MoreListed(rs) == MoreListed(ns) + ItemClosers(kind, ns)
      && (if kind.InArray? then ValuesOf(rs) == ElemsSoFar(ns) else MembersOf(rs) == MembersSoFar(ns))
    ensures ItemsAreClosed(kind, ns)
  {
  }

  // ---------- keys ----------

  function ClosedKey(name: string): Node {
    Around(DictKey, [Leaf(DictKeyName, name)])
  }

  lemma ClosedKeyIs(name: string)
    ensures IsKey(ClosedKey(name)) && Render(ClosedKey(name)) == "\"" + Json.Escape(name) + "\":"
  {
    EscapeEmpty();
    hide Json.Escape;
    assert ClosedKey(name).children[0] == Leaf(DictKeyName, name);
  }

  /** Of a key that was cut, a quote and the name so far is shown. */
  lemma CutKeyShows(k: Node)
    requires OpenKey(k)
    ensures Render(k) == "\"" + Json.Escape(k.children[0].text)
  {
    EscapeEmpty();
    hide Json.Escape;
  }

  lemma PairText(n: Node, key: Node, value: Node)
    ensures n.rule == DictKv && n.text != "" && n.children == [key, value] ==> Render(n) == Render(key) + Render(value)
    ensures n.rule == DictKv && n.text != "" && n.children == [key] ==> Render(n) == Render(key)
  {
    assert [key, value][1..] == [value] && [value][1..] == [] && [key][1..] == [];
    var two := Concatenated([key, value]);
    assert two == Render(key) + Concatenated([value]) && Concatenated([value]) == Render(value) + "";
    assert Concatenated([key]) == Render(key) + "";
  }

  // A member made of a complete key and a complete value.
  lemma PairClosed(name: string, value: Node)
    requires IsValue(value)
    ensures var r := Around(DictKv, [ClosedKey(name), value]);
      && IsMember(r) && Render(r) == "\"" + Json.Escape(name) + "\":" + Render(value)
      && r.children[0].children[0].text == name && r.children[1] == value
  {
    var r := Around(DictKv, [ClosedKey(name), value]);
    assert r.children == [ClosedKey(name), value];
    hide IsValue, Render, Json.Escape;
    PairText(r, ClosedKey(name), value);
    ClosedKeyIs(name);
  }

  function EmptyText(): Node {
    Around(ValueRule, [Around(StringRule, [Leaf(StringContent, "")])])
  }

  lemma OpenMemberIs(n: Node)
    requires OpenMember(n)
    ensures MemberAsFar(n) && n.partial && n.rule == DictKv
    ensures n.text == "" ==>
      ClosedMember(n) == Around(DictKv, [ClosedKey(""), EmptyText()]) && MemberClosers(n) == "\"\":\"\""
      && MemberSoFar(n) == ("", Json.String(""))
    ensures n.text != "" && |n.children| == 1 ==>
      && OpenKey(n.children[0]) && |n.children[0].children| == 1
      && ClosedMember(n) == Around(DictKv, [ClosedKey(n.children[0].children[0].text), EmptyText()])
      && MemberClosers(n) == "\":\"\"" && MemberSoFar(n) == (n.children[0].children[0].text, Json.String(""))
    ensures n.text != "" && |n.children| != 1 ==>
      && |n.children| == 2 && IsKey(n.children[0]) && IsOpen(n.children[1]) && |n.children[0].children| == 1
      && ClosedMember(n) == Around(DictKv, [ClosedKey(n.children[0].children[0].text), Closed(n.children[1])])
      && MemberClosers(n) == Closers(n.children[1])
      && MemberSoFar(n) == (n.children[0].children[0].text, ValueSoFar(n.children[1]))
  {
    hide IsOpen, IsValue;
  }

  lemma GuessCloses(n: Node)
    requires OpenMember(n) && n.text == ""
    ensures ItemIsClosed(InDict, n)
  {
    hide *;
    OpenMemberIs(n);
    NoText(n);
    EmptyString();
    EmptyIs();
    EscapeEmpty();
    PairClosed("", EmptyText());
    MemberIsClosed(n);
  }

  lemma EmptyIs()
    ensures EmptyText() == Around(ValueRule, [Around(StringRule, [Leaf(StringContent, "")])])
  {
  }

  lemma MemberIsClosed(n: Node)
    requires MemberAsFar(n) && IsMember(ClosedMember(n)) && Render(ClosedMember(n)) == Render(n) + MemberClosers(n)
    requires var r := ClosedMember(n); (r.children[0].children[0].text, ValueOf(r.children[1])) == MemberSoFar(n)
    ensures ItemIsClosed(InDict, n)
  {
    hide IsMember, Render, ClosedMember, MemberClosers, MemberSoFar, ValueOf, MemberAsFar;
  }

  lemma KeyCloses(n: Node)
    requires OpenMember(n) && n.text != "" && |n.children| == 1
    ensures ItemIsClosed(InDict, n)
  {
    hide *;
    OpenMemberIs(n);
    var key := n.children[0];
    var name := key.children[0].text;
    CutKeyShows(key);
    assert n.children == [key];
    PairText(n, key, key);
    EmptyString();
    EmptyIs();
    PairClosed(name, EmptyText());
    assert "\"" + Json.Escape(name) + "\":" + "\"\"" == "\"" + Json.Escape(name) + "\":\"\"";
    MemberIsClosed(n);
  }

  lemma {:induction false} PairCloses(n: Node)
    requires OpenMember(n) && n.text != "" && |n.children| == 2
    ensures ItemIsClosed(InDict, n)
    decreases n, 0
  {
    assert n.children[1] < n;
    hide *;
    OpenMemberIs(n);
    OpenIsSoFar(n.children[1]);
    ValueCloses(n.children[1]);
    var name, value := n.children[0].children[0].text, n.children[1];
    PairShows(n);
    PairClosed(name, Closed(value));
    PairEnds(Json.Escape(name), Render(value), Closers(value));
    MemberIsClosed(n);
  }

  lemma OpenIsSoFar(n: Node)
    ensures IsOpen(n) ==> SoFar(n)
  {
  }

  lemma PairShows(n: Node)
    requires n.rule == DictKv && n.text != "" && |n.children| == 2 && IsKey(n.children[0])
    ensures |n.children[0].children| == 1
    ensures Render(n) == "\"" + Json.Escape(n.children[0].children[0].text) + "\":" + Render(n.children[1])
  {
    KeyText(n.children[0]);
    hide Render;
    assert n.children == [n.children[0], n.children[1]];
    PairText(n, n.children[0], n.children[1]);
  }

  lemma PairEnds(e: string, v: string, w: string)
    ensures "\"" + e + "\":" + (v + w) == ("\"" + e + "\":" + v) + w
  {
  }

  // ---------- the theorem ----------

  lemma {:induction false} ItemCloses(kind: Kind, n: Node)
    requires if kind.InArray? then SoFar(n) else MemberAsFar(n)
    ensures ItemIsClosed(kind, n)
    decreases n, 2
  {
    if kind.InArray? {
      ValueCloses(n);
      ValueIsClosed(n);
    } else if IsMember(n) {
      WholeItem(InDict, n);
      WholeIsClosed(n);
    } else {
      hide IsOpen, IsMember, IsValue, OpenKey;
      if n.text == "" {
        GuessCloses(n);
      } else if |n.children| == 1 {
        KeyCloses(n);
      } else {
        PairCloses(n);
      }
    }
  }

  lemma ValueIsClosed(n: Node)
    requires SoFar(n) && IsValue(Closed(n)) && ValueOf(Closed(n)) == ValueSoFar(n)
    requires Render(Closed(n)) == Render(n) + Closers(n)
    ensures ItemIsClosed(InArray, n)
  {
    hide SoFar, IsValue, Closed, Closers, ValueOf, ValueSoFar, Render;
  }

  lemma WholeIsClosed(n: Node)
    requires IsMember(n) && ItemClosed(InDict, n) == n && ItemEnd(InDict, n) == ""
    ensures ItemIsClosed(InDict, n)
  {
    assert ValueSoFar(n.children[1]) == ValueOf(n.children[1]);
    hide ItemClosed, ItemEnd, Render;
    assert Render(n) + "" == Render(n);
  }

  lemma {:induction false} ItemsClose(kind: Kind, ns: seq<Node>)
    requires OpenItems(kind, ns)
    ensures ItemsAreClosed(kind, ns)
    decreases ns
  {
    hide *;
    if ns == [] {
      NoneClosed(kind);
    } else {
      FirstOpen(kind, ns);
      ItemCloses(kind, ns[0]);
      ItemsClose(kind, ns[1..]);
      ItemsTogether(kind, ns);
    }
  }

  lemma NoneClosed(kind: Kind)
    ensures OpenItems(kind, []) && ItemsAreClosed(kind, [])
  {
  }

  lemma ListText(kind: Kind, c: Node)
    requires OpenBody(c) && c.rule == if kind.InArray? then ArrayRule else DictRule
    ensures Render(c) == Opener(kind) + Listed(c.children)
    ensures OpenItems(kind, c.children) && BodyClosers(c) == ItemClosers(kind, c.children) + Closer(kind)
    ensures ClosedBody(c) == Around(c.rule, ClosedItems(kind, c.children))
    ensures BodySoFar(c) ==
      if kind.InArray? then Json.Array(ElemsSoFar(c.children)) else Json.Object(MembersSoFar(c.children))
  {
    hide Listed, OpenItems, ItemClosers, ClosedItems, ElemsSoFar, MembersSoFar;
    assert Opener(kind) + Listed(c.children) + "" == Opener(kind) + Listed(c.children);
  }

  lemma ListIsBody(kind: Kind, rs: seq<Node>)
    requires AreItems(kind, rs)
    ensures var r := Around(if kind.InArray? then ArrayRule else DictRule, rs);
      && IsBody(r) && Render(r) == Opener(kind) + Listed(rs) + Closer(kind)
      && ValueOf(Around(ValueRule, [r])) ==
         if kind.InArray? then Json.Array(ValuesOf(rs)) else Json.Object(MembersOf(rs))
  {
    var r := Around(if kind.InArray? then ArrayRule else DictRule, rs);
    assert Around(ValueRule, [r]).children[0] == r;
    hide Listed, AreValues, AreMembers, ValuesOf, MembersOf;
  }

  lemma {:induction false} ListCloses(kind: Kind, c: Node)
    requires OpenBody(c) && c.rule == if kind.InArray? then ArrayRule else DictRule
    ensures Closes(c, BodyClosers(c), BodySoFar(c), ClosedBody(c))
    decreases c, 1
  {
    hide *;
    ListText(kind, c);
    ItemsClose(kind, c.children);
    ItemsAre(kind, c.children);
    ListedAre(kind, c.children);
    var rs := ClosedItems(kind, c.children);
    ListIsBody(kind, rs);
    assert Opener(kind) + (Listed(c.children) + ItemClosers(kind, c.children)) + Closer(kind)
        == (Opener(kind) + Listed(c.children)) + (ItemClosers(kind, c.children) + Closer(kind));
    ClosesIs(c, BodyClosers(c), BodySoFar(c), ClosedBody(c));
  }

  lemma ListedAre(kind: Kind, ns: seq<Node>)
    requires OpenItems(kind, ns) && ItemsAreClosed(kind, ns)
    ensures Listed(ClosedItems(kind, ns)) == Listed(ns) + ItemClosers(kind, ns)
  {
  }

  lemma {:induction false} BodyCloses(c: Node)
    requires OpenBody(c)
    ensures Closes(c, BodyClosers(c), BodySoFar(c), ClosedBody(c))
    decreases c, 2
  {
    if c.rule == ArrayRule {
      ListCloses(InArray, c);
    } else if c.rule == DictRule {
      ListCloses(InDict, c);
    } else if c.rule == StringRule {
      StringCloses(c);
    } else {
      WordCloses(c);
    }
  }

  /** With the closers behind it, what is shown of a value is what a complete tree renders to that stands for the value
      as far as it has been read. */
  lemma {:induction false} ValueCloses(n: Node)
    requires SoFar(n)
    ensures IsValue(Closed(n)) && ValueOf(Closed(n)) == ValueSoFar(n) && Render(Closed(n)) == Render(n) + Closers(n)
    decreases n, 1
  {
    if !n.partial {
      assert Render(n) + "" == Render(n);
    } else if n.text == "" {
      NoText(n);
      EmptyString();
    } else {
      var c := n.children[0];
      assert Closed(n) == Around(ValueRule, [ClosedBody(c)]) && ValueSoFar(n) == BodySoFar(c);
      assert Closers(n) == BodyClosers(c) && Render(n) == Render(c);
      hide *;
      BodyCloses(c);
      ClosedValue(c, BodyClosers(c), BodySoFar(c), ClosedBody(c));
    }
  }

  lemma ClosedValue(c: Node, w: string, v: Json.Value, r: Node)
    requires Closes(c, w, v, r)
    ensures var n := Around(ValueRule, [r]); IsValue(n) && ValueOf(n) == v && Render(n) == Render(c) + w
  {
    BodyIsValue(r);
    var n := Around(ValueRule, [r]);
    assert n.children[0] == r;
    assert Render(n) == Render(r);
    hide IsValue, ValueOf, IsBody;
  }

  /** What is shown of a value, with the closers behind it, is JSON for the value as far as it has been read. */
  lemma OpenValueReads(n: Node)
    requires SoFar(n)
    ensures Json.Read(Json.JsonText, Render(n) + Closers(n)) == Some(ValueSoFar(n))
  {
    hide *;
    ValueCloses(n);
    CutRefl(Closed(n));
    RenderedValue(Closed(n), Closed(n));
  }

  lemma CutRefl(n: Node)
    ensures Cut(n, n)
  {
  }

  // ---------- what the closers may be ----------

  // Quotes, colons, brackets and braces, the digit that a number lacks, or letters of true, false and null.
  predicate IsClosing(w: string) {
    forall i :: 0 <= i < |w| ==> w[i] in "\":]}0aeflnrstu"
  }

  lemma ClosingTogether(a: string, b: string)
    requires IsClosing(a) && IsClosing(b)
    ensures IsClosing(a + b)
  {
  }

  lemma WordClosing(c: Node)
    requires OpenBody(c) && c.rule != ArrayRule && c.rule != DictRule
    ensures IsClosing(BodyClosers(c))
  {
    hide Json.IsNumber;
    if c.rule == NumberRule {
      assert NumberSoFar(c.text)[|c.text|..] == "" || NumberSoFar(c.text)[|c.text|..] == "0";
    }
  }

  lemma {:induction false} ItemsClosing(kind: Kind, ns: seq<Node>)
    requires OpenItems(kind, ns)
    ensures IsClosing(ItemClosers(kind, ns))
    decreases ns
  {
    hide IsClosing;
    if ns == [] {
      NothingClosing();
    } else if |ns| > 1 {
      ItemsClosing(kind, ns[1..]);
    } else {
      FirstOpen(kind, ns);
      if kind.InArray? {
        ClosersClosing(ns[0]);
      } else {
        MemberClosing(ns[0]);
      }
    }
  }

  lemma NothingClosing()
    ensures IsClosing("") && IsClosing("\"\"") && IsClosing("\"\":\"\"") && IsClosing("\":\"\"")
    ensures IsClosing("]") && IsClosing("}")
  {
  }

  lemma {:induction false} MemberClosing(n: Node)
    requires MemberAsFar(n)
    ensures IsClosing(MemberClosers(n))
    decreases n, 1
  {
    hide IsClosing;
    NothingClosing();
    if n.text != "" && |n.children| != 1 {
      ClosersClosing(n.children[1]);
    }
  }

  /** The closers add nothing to what has been read but its ends. */
  lemma {:induction false} ClosersClosing(n: Node)
    requires SoFar(n)
    ensures IsClosing(Closers(n))
    decreases n, 1
  {
    hide IsClosing;
    NothingClosing();
    if n.partial && n.text != "" {
      BodyClosing(n.children[0]);
    }
  }

  lemma {:induction false} BodyClosing(c: Node)
    requires OpenBody(c)
    ensures IsClosing(BodyClosers(c))
    decreases c, 2
  {
    hide IsClosing;
    NothingClosing();
    if c.rule == ArrayRule {
      ItemsClosing(InArray, c.children);
      ClosingTogether(ItemClosers(InArray, c.children), "]");
    } else if c.rule == DictRule {
      ItemsClosing(InDict, c.children);
      ClosingTogether(ItemClosers(InDict, c.children), "}");
    } else {
      WordClosing(c);
    }
  }
}
