/** The tree that the Gemma 4 grammar builds of a text, ended or not, stands for all of the text. */
module GemmaSpelled {
  import opened Text
  import opened Gemma
  import opened GemmaParser
  import opened GemmaTrees
  import opened GemmaWritten
  import opened GemmaSoFar
  import Json

  // ---------- numbers that have not ended ----------

  lemma {:induction false} DigitsAll(s: string, x: string)
    ensures Json.DigitsLen(s) < |s| ==> Json.DigitsLen(s + x) == Json.DigitsLen(s)
    ensures Json.DigitsLen(s) == |s| ==> Json.DigitsLen(s + x) == |s| + Json.DigitsLen(x)
  {
    if s == "" {
      assert s + x == x;
    } else {
      assert (s + x)[1..] == s[1..] + x;
      DigitsAll(s[1..], x);
    }
  }

  lemma ExponentMore(s: string)
    requires ExponentPart(s).More?
    ensures Json.IsExponent(s) || (s != "" && Json.IsExponent(s + "0"))
  {
    if s != "" {
      var sign := if |s| > 1 && (s[1] == '+' || s[1] == '-') then 2 else 1;
      assert (s + "0")[sign..] == s[sign..] + "0";
      if s[sign..] != "" {
        assert Json.DigitsLen(s[sign..]) == |s[sign..]|;
      }
    }
  }

  lemma FractionMore(s: string)
    requires FractionPart(s).More?
    ensures Json.IsFraction(s) || (s != "" && Json.IsFraction(s + "0"))
  {
    hide ExponentPart, Json.IsExponent;
    if s != "" && s[0] == '.' {
      var k := Json.DigitsLen(s[1..]);
      FractionIs(s, k);
      assert (s + "0")[1..] == s[1..] + "0";
      DigitsAll(s[1..], "0");
      if k > 0 {
        ExponentMore(s[1 + k..]);
        assert s[1..][k..] == s[1 + k..];
        if s[1 + k..] != "" {
          assert (s[1..] + "0")[k..] == s[1 + k..] + "0";
        }
      } else {
        DotAlone(s);
        assert s[1..] == "" && (s + "0")[1..] == "0" && "0"[1..] == "";
        NothingIsExponent();
      }
    } else {
      ExponentMore(s);
    }
  }

  lemma NothingIsExponent()
    ensures Json.IsExponent("")
  {
  }

  lemma IntegerMore(s: string)
    requires IntegerPart(s).More?
    ensures Json.IsUnsigned(s) || Json.IsUnsigned(s + "0")
  {
    hide FractionPart, Json.IsFraction;
    if s == "" {
      assert s + "0" == "0" && "0"[1..] == "";
      NothingIsFraction();
    } else {
      var k := if s[0] == '0' then 1 else Json.DigitsLen(s);
      FractionMore(s[k..]);
      DigitsAll(s, "0");
      assert (s + "0")[k..] == s[k..] + "0";
      if Json.IsFraction(s[k..]) {
        FractionStart(s[k..]);
        DigitsThen(s, k);
      } else {
        FractionStart(s[k..] + "0");
        DigitsAll(s[k..], "0");
        DigitsThen(s, k);
      }
    }
  }

  lemma NothingIsFraction()
    ensures Json.IsFraction("")
  {
  }

  // No digit behind the first k characters, which are digits.
  lemma DigitsThen(s: string, k: nat)
    requires s != "" && IsDigit(s[0]) && k == (if s[0] == '0' then 1 else Json.DigitsLen(s)) && k <= |s|
    requires Json.DigitsLen(s[k..]) == 0
    ensures Json.DigitsLen(s) == k
  {
  }

  lemma NumberMore(s: string)
    requires NumberText(s).More?
    ensures Json.IsNumber(NumberSoFar(s))
  {
    hide IntegerPart, Json.IsUnsigned;
    if s != "" && s[0] == '-' {
      IntegerMore(s[1..]);
      assert (s + "0")[1..] == s[1..] + "0";
    } else {
      IntegerMore(s);
      assert s != "" ==> (s + "0")[0] == s[0];
    }
  }

  // ---------- the trees of a text that has not ended are open ----------

  predicate OneOpen(r: Parse) {
    r.More? ==> |r.nodes| == 1 && OpenBody(r.nodes[0])
  }

  lemma NumberOpen(s: string)
    requires s != ""
    ensures OneOpen(ParseNumber(s))
  {
    hide NumberText, Json.IsNumber;
    if NumberText(s).More? {
      NumberMore(s);
    }
  }

  lemma LiteralOpen(lit: string, s: string)
    ensures Literal(lit, s).More? ==> Literal(lit, s) == More([]) && s <= lit
  {
  }

  lemma WordOpen(s: string)
    requires s != ""
    ensures OneOpen(ParseBool(s)) && OneOpen(ParseNull(s))
  {
    LiteralOpen("true", s);
    LiteralOpen("false", s);
    LiteralOpen("null", s);
    hide Literal;
  }

  lemma StringOpen(s: string)
    requires s != ""
    ensures OneOpen(ParseString(s))
  {
    var rest := Literal(QUOTE, s);
    LiteralOpen(QUOTE, s);
    if rest.Done? {
      StringRestIs(s[|QUOTE|..]);
      assert [] + StringRest(s[|QUOTE|..]).nodes == StringRest(s[|QUOTE|..]).nodes;
    }
    hide StringRest, Literal;
  }

  lemma {:induction false} ValueOpen(s: string)
    requires ParseValue(s).More?
    ensures IsOpen(ParseValue(s).nodes[0])
    decreases |s|, 3
  {
    hide *;
    if s == "" {
      GuessOpen();
    } else {
      ChoiceIs(s);
      StringOpen(s);
      NumberOpen(s);
      WordOpen(s);
      ListOpen(InDict, s);
      ListOpen(InArray, s);
      assert OneOpen(Choice(s));
      ChosenOpen(s);
    }
  }

  lemma GuessOpen()
    ensures ParseValue("").More? && IsOpen(ParseValue("").nodes[0])
  {
    assert ParseString("").More?;
  }

  lemma ChosenOpen(s: string)
    requires s != "" && ParseValue(s).More? && OneOpen(Choice(s))
    ensures IsOpen(ParseValue(s).nodes[0])
  {
    ChoiceInValue(s);
    hide ParseValue, Choice, OpenBody;
  }

  // A member that was cut: its name, or its value.
  lemma {:induction false} PairOpen(s: string)
    requires ParsePair(s).More?
    ensures OpenMember(ParsePair(s).nodes[0])
    decreases |s|, 2
  {
    PairCutIs(s);
    hide *;
    if ParseKey(s).Done? {
      var from := Skip(s, ParseKey(s).len);
      KeyDone(s);
      ValueOpen(s[from..]);
      ValueCutIn(s, ParsePair(s).nodes[0], ParseKey(s).nodes[0], ParseValue(s[from..]).nodes[0]);
    } else {
      KeyOpen(s);
      KeyCutIn(s, ParsePair(s).nodes[0], ParseKey(s).nodes[0]);
    }
  }

  lemma PairCutIs(s: string)
    requires ParsePair(s).More?
    ensures var key := ParseKey(s);
      if key.Done? then
        var value := ParseValue(s[Skip(s, key.len)..]);
        && value.More?
        && ParsePair(s).nodes == [Node(DictKv, Untagged, s, true, [key.nodes[0], value.nodes[0]])]
      else key.More? && ParsePair(s).nodes == [Node(DictKv, Untagged, s, true, key.nodes)]
  {
    hide ParseKey, ParseValue, Skip;
    var key := ParseKey(s);
    if key.Done? {
      var value := ParseValue(s[Skip(s, key.len)..]);
      assert value.More? ==> key.nodes + value.nodes == [key.nodes[0], value.nodes[0]];
    }
  }

  lemma KeyOpen(s: string)
    requires ParseKey(s).More?
    ensures s != "" ==> OpenKey(ParseKey(s).nodes[0])
  {
    KeyIs(s);
    hide ParseKey;
  }

  lemma KeyCutIn(s: string, n: Node, key: Node)
    requires n.rule == DictKv && n.partial && n.text == s && n.children == [key] && (s != "" ==> OpenKey(key))
    ensures OpenMember(n)
  {
    hide OpenKey;
  }

  lemma ValueCutIn(s: string, n: Node, key: Node, value: Node)
    requires n.rule == DictKv && n.partial && n.text == s && n.children == [key, value] && IsKey(key) && IsOpen(value)
    ensures OpenMember(n)
  {
    hide IsKey, IsOpen;
  }

  lemma {:induction false} ItemOpen(kind: Kind, s: string)
    requires ParseItem(kind, s).More?
    ensures if kind.InArray? then IsOpen(ParseItem(kind, s).nodes[0]) else OpenMember(ParseItem(kind, s).nodes[0])
    decreases |s|, 4
  {
    if kind.InArray? {
      ValueOpen(s);
    } else {
      PairOpen(s);
    }
  }

  lemma {:induction false} ListOpen(kind: Kind, s: string)
    requires s != ""
    ensures OneOpen(ParseList(kind, s))
    decreases |s|, 2
  {
    if ParseList(kind, s).More? {
      ListCutIs(kind, s);
      hide *;
      BodyOpen(kind, s[Skip(s, 1)..]);
      ItemsCutIn(kind, ParseList(kind, s).nodes[0], ListBody(kind, s[Skip(s, 1)..]).nodes);
    }
  }

  lemma ListCutIs(kind: Kind, s: string)
    requires s != "" && ParseList(kind, s).More?
    ensures var body := ListBody(kind, s[Skip(s, 1)..]);
      && body.More?
      && ParseList(kind, s).nodes ==
         [Node(if kind.InArray? then ArrayRule else DictRule, Untagged, s, true, body.nodes)]
  {
    hide ListBody, Skip;
    var r := ListBody(kind, s[Skip(s, 1)..]);
    assert r.More? ==> [] + r.nodes == r.nodes;
  }

  lemma ItemsCutIn(kind: Kind, n: Node, ns: seq<Node>)
    requires n.rule == (if kind.InArray? then ArrayRule else DictRule) && n.partial && n.text != "" && n.children == ns
    requires OpenItems(kind, ns)
    ensures OpenBody(n)
  {
    hide OpenItems;
  }

  lemma {:induction false} BodyOpen(kind: Kind, s: string)
    requires ListBody(kind, s).More?
    ensures OpenItems(kind, ListBody(kind, s).nodes)
    decreases |s|, 5
  {
    LiteralOpen(Closer(kind), s);
    if Literal(Closer(kind), s).Fail? {
      var item := ParseItem(kind, s);
      assert item.Done? ==>
        (var tail := ListTail(kind, s[item.len..]); tail.More? && ListBody(kind, s).nodes == item.nodes + tail.nodes);
      assert !item.Done? ==> item.More? && ListBody(kind, s).nodes == item.nodes;
      hide *;
      if item.Done? {
        ItemDone(kind, s);
        TailOpen(kind, s[item.len..]);
        OpenBehind(kind, item.nodes, ListTail(kind, s[item.len..]).nodes);
      } else {
        ItemOpen(kind, s);
        OneOpenItem(kind, item.nodes);
      }
    } else {
      NoClosers(kind);
    }
  }

  lemma OneOpenItem(kind: Kind, ns: seq<Node>)
    requires |ns| == 1 && if kind.InArray? then IsOpen(ns[0]) else OpenMember(ns[0])
    ensures OpenItems(kind, ns)
  {
    hide IsOpen, OpenMember;
  }

  lemma OpenBehind(kind: Kind, xs: seq<Node>, ns: seq<Node>)
    requires |xs| == 1 && IsItem(kind, xs[0]) && OpenItems(kind, ns)
    ensures OpenItems(kind, xs + ns)
  {
    assert (xs + ns)[1..] == ns;
    hide IsItem;
  }

  lemma {:induction false} TailOpen(kind: Kind, s: string)
    requires ListTail(kind, s).More?
    ensures OpenItems(kind, ListTail(kind, s).nodes)
    decreases |s|, 5
  {
    hide *;
    NoClosers(kind);
    if s != "" && s[0] == ',' {
      var n := Skip(s, 1);
      var item := ParseItem(kind, s[n..]);
      TailIs(kind, s, item);
      if item.Done? {
        ItemDone(kind, s[n..]);
        AfterMore(item.nodes, n + item.len, ListTail(kind, s[n + item.len..]));
        TailOpen(kind, s[n + item.len..]);
        OpenBehind(kind, item.nodes, ListTail(kind, s[n + item.len..]).nodes);
      } else {
        ItemOpen(kind, s[n..]);
        OneOpenItem(kind, item.nodes);
      }
    } else {
      EndOpen(kind, s);
    }
  }

  lemma EndOpen(kind: Kind, s: string)
    requires ListTail(kind, s).More? && (s == "" || s[0] != ',')
    ensures ListTail(kind, s).nodes == []
  {
    NoComma(kind, s);
    LiteralOpen(Closer(kind), s[Skip(s, 0)..]);
    hide Literal;
  }

  lemma AfterMore(ns: seq<Node>, k: nat, r: Parse)
    ensures After(ns, k, r).More? ==> r.More? && After(ns, k, r).nodes == ns + r.nodes
  {
  }

  // ---------- texts with white space ----------

  // s is w with white space in some places.
  predicate Spaced(s: string, w: string) {
    if s == "" then w == ""
    else (w != "" && s[0] == w[0] && Spaced(s[1..], w[1..])) || (IsSpace(s[0]) && Spaced(s[1..], w))
  }

  // And here w goes on behind it.
  predicate SpacedStart(s: string, w: string) {
    s == "" || (w != "" && s[0] == w[0] && SpacedStart(s[1..], w[1..])) || (IsSpace(s[0]) && SpacedStart(s[1..], w))
  }

  lemma {:induction false} SpacedSame(s: string)
    ensures Spaced(s, s)
  {
    if s != "" {
      SpacedSame(s[1..]);
    }
  }

  lemma {:induction false} StartOf(s: string, w: string)
    requires s <= w
    ensures SpacedStart(s, w)
  {
    if s != "" {
      StartOf(s[1..], w[1..]);
    }
  }

  lemma {:induction false} SpacedThen(s: string, w: string, t: string, x: string)
    requires Spaced(s, w)
    ensures Spaced(t, x) ==> Spaced(s + t, w + x)
    ensures SpacedStart(t, x) ==> SpacedStart(s + t, w + x)
    decreases |s|
  {
    if s == "" {
      assert s + t == t && w + x == x;
    } else {
      assert (s + t)[1..] == s[1..] + t;
      if w != "" && s[0] == w[0] && Spaced(s[1..], w[1..]) {
        assert (w + x)[1..] == w[1..] + x;
        SpacedThen(s[1..], w[1..], t, x);
      } else {
        SpacedThen(s[1..], w, t, x);
      }
    }
  }

  lemma {:induction false} StartMore(s: string, w: string, x: string)
    requires SpacedStart(s, w)
    ensures SpacedStart(s, w + x)
    decreases |s|
  {
    if s != "" {
      if w != "" && s[0] == w[0] && SpacedStart(s[1..], w[1..]) {
        assert (w + x)[1..] == w[1..] + x;
        StartMore(s[1..], w[1..], x);
      } else {
        StartMore(s[1..], w, x);
      }
    }
  }

  lemma {:induction false} SpacesOnly(s: string)
    ensures Spaced(s[..SpaceLen(s)], "")
  {
    if s != "" && IsSpace(s[0]) {
      SpacesOnly(s[1..]);
      assert s[..SpaceLen(s)][1..] == s[1..][..SpaceLen(s[1..])];
    }
  }

  // What has been read by r is w, and if it has not ended yet w goes on.
  predicate Spells(r: Parse, s: string, w: string) {
    match r
    case Fail => true
    case More(_) => SpacedStart(s, w)
    case Done(_, n) => n <= |s| && Spaced(s[..n], w)
  }

  lemma WrapSpells(rule: Rule, s: string, r: Parse, w: string)
    requires Spells(r, s, w) && (r.Done? ==> r.len <= |s|)
    ensures Spells(Wrap(rule, s, r), s, w)
  {
    hide Spaced, SpacedStart;
  }

  lemma AfterSpells(ns: seq<Node>, s: string, n: nat, u: string, r: Parse, w: string)
    requires n <= |s| && Spaced(s[..n], u) && Spells(r, s[n..], w)
    ensures Spells(After(ns, n, r), s, u + w)
  {
    assert s == s[..n] + s[n..];
    if r.Done? {
      assert s[..n + r.len] == s[..n] + s[n..][..r.len];
      SpacedThen(s[..n], u, s[n..][..r.len], w);
    } else if r.More? {
      SpacedThen(s[..n], u, s[n..], w);
    }
    hide Spaced, SpacedStart;
  }

  lemma SpellsMore(r: Parse, s: string, w: string, x: string)
    requires r.More? && Spells(r, s, w)
    ensures Spells(r, s, w + x)
  {
    StartMore(s, w, x);
  }

  lemma LiteralSpells(lit: string, s: string)
    ensures Spells(Literal(lit, s), s, lit)
  {
    if lit <= s {
      SpacedSame(lit);
      assert s[..|lit|] == lit;
    } else if s <= lit {
      StartOf(s, lit);
    }
    hide Spaced, SpacedStart;
  }

  // The first k characters, which are u, and the white space behind them.
  lemma SkipSpells(s: string, k: nat, u: string)
    requires k <= |s| && s[..k] == u
    ensures Spaced(s[..Skip(s, k)], u)
  {
    var n := SpaceLen(s[k..]);
    SpacesOnly(s[k..]);
    SpacedSame(u);
    SpacedThen(u, u, s[k..][..n], "");
    assert s[..Skip(s, k)] == u + s[k..][..n] && u + "" == u;
    hide Spaced;
  }

  // ---------- scalars and strings ----------

  // What a value is made of, ended or not, stands for all that has been read.
  predicate Says(r: Parse, s: string) {
    match r
    case Fail => true
    case Done(ns, _) => |ns| == 1 && IsBody(ns[0]) && Spells(r, s, Written(ValueOf(Around(ValueRule, [ns[0]]))))
    case More(ns) => |ns| == 1 && OpenBody(ns[0]) && Spells(r, s, Written(BodySoFar(ns[0])))
  }

  lemma WordSays(r: Parse, s: string)
    requires OneBody(r) && OneOpen(r) && s != ""
    requires r.Done? ==> r.len <= |s| && r.nodes[0].text == s[..r.len]
    requires r.More? ==> r.nodes[0].text == s
    requires !r.Fail? ==> r.nodes[0].rule == NumberRule || r.nodes[0].rule == BoolRule || r.nodes[0].rule == NullRule
    ensures Says(r, s)
  {
    if r.Done? {
      DoneWord(r.nodes[0]);
      SpacedSame(s[..r.len]);
    } else if r.More? {
      OpenWord(r.nodes[0]);
      StartOf(s, Written(BodySoFar(r.nodes[0])));
    }
    hide IsBody, OpenBody, Spaced, SpacedStart, Written, ValueOf, BodySoFar;
  }

  lemma DoneWord(c: Node)
    requires IsBody(c) && (c.rule == NumberRule || c.rule == BoolRule || c.rule == NullRule)
    ensures Written(ValueOf(Around(ValueRule, [c]))) == c.text
  {
    hide Json.IsNumber;
    assert Around(ValueRule, [c]).children[0] == c;
  }

  lemma OpenWord(c: Node)
    requires OpenBody(c) && (c.rule == NumberRule || c.rule == BoolRule || c.rule == NullRule)
    ensures c.text <= Written(BodySoFar(c))
  {
    NumberStarts(c.text);
    hide Json.IsNumber, NumberSoFar;
  }

  lemma ScalarsSay(s: string)
    requires s != ""
    ensures Says(ParseNumber(s), s) && Says(ParseBool(s), s) && Says(ParseNull(s), s)
  {
    NumberValueDone(s);
    NumberOpen(s);
    WordDone(s);
    WordOpen(s);
    ScalarTexts(s);
    hide *;
    WordSays(ParseNumber(s), s);
    WordSays(ParseBool(s), s);
    WordSays(ParseNull(s), s);
  }

  lemma ScalarTexts(s: string)
    ensures TextOf(ParseNumber(s), NumberRule, s)
    ensures TextOf(ParseBool(s), BoolRule, s) && TextOf(ParseNull(s), NullRule, s)
  {
    hide NumberText;
  }

  predicate TextOf(r: Parse, rule: Rule, s: string) {
    && (!r.Fail? ==> |r.nodes| == 1 && r.nodes[0].rule == rule)
    && (r.Done? ==> r.len <= |s| && r.nodes[0].text == s[..r.len])
    && (r.More? ==> r.nodes[0].text == s)
  }

  // Behind the content of a string comes the quote, or what may become one, or nothing yet.
  lemma QuoteComes(s: string)
    requires StringRest(s).More? && Until([QUOTE], s).Done?
    ensures s[Until([QUOTE], s).len..] <= QUOTE
  {
    var k := Until([QUOTE], s).len;
    UntilIs([QUOTE], s);
    StringRestIs(s);
    OneMark(s, k);
    hide Until, StringRest;
    assert MayMark([QUOTE], s[k..]) && !Marked([QUOTE], s[k..]);
  }

  // Content and what has been seen of the quote behind it.
  lemma RestSpells(s: string)
    ensures !StringRest(s).Fail? && |StringRest(s).nodes| == 1
    ensures Spells(StringRest(s), s, StringRest(s).nodes[0].text + QUOTE)
  {
    StringRestIs(s);
    var r, u := StringRest(s), Until([QUOTE], s);
    if r.Done? {
      var x := s[..u.len];
      assert s[..r.len] == x + QUOTE by {
        assert s[u.len..][..|QUOTE|] == QUOTE;
        TakeTwo(s, u.len, |QUOTE|);
      }
      SpacedSame(x + QUOTE);
    } else {
      if u.Done? {
        QuoteComes(s);
        var x := s[..u.len];
        assert s == x + s[u.len..] && s <= x + QUOTE;
      }
      StartOf(s, r.nodes[0].text + QUOTE);
    }
    hide Spaced, SpacedStart, StringRest, Until;
  }

  lemma TakeTwo(s: string, m: nat, n: nat)
    requires m + n <= |s|
    ensures s[..m + n] == s[..m] + s[m..][..n]
  {
  }

  lemma StringSays(s: string)
    requires s != ""
    ensures Says(ParseString(s), s)
  {
    StringDone(s);
    StringOpen(s);
    StringTexts(s);
    var r := ParseString(s);
    if !r.Fail? {
      var c := r.nodes[0];
      hide Spells, Spaced, IsBody, OpenBody, ParseString, StringRest, Written, ValueOf, BodySoFar;
      StringValue(c, r.Done?);
    }
  }

  lemma StringValue(c: Node, done: bool)
    requires c.rule == StringRule
    ensures done && IsBody(c) ==>
      c.children != [] && Written(ValueOf(Around(ValueRule, [c]))) == QUOTE + (c.children[0].text + QUOTE)
    ensures OpenBody(c) ==>
      Written(BodySoFar(c)) == QUOTE + ((if c.children == [] then "" else c.children[0].text) + QUOTE)
  {
    assert Around(ValueRule, [c]).children[0] == c;
  }

  lemma StringTexts(s: string)
    requires s != ""
    ensures var r := ParseString(s); !r.Fail? ==>
      && |r.nodes| == 1 && r.nodes[0].rule == StringRule
      && (r.Done? ==> r.nodes[0].children != [])
      && var c := r.nodes[0].children;
         Spells(r, s, QUOTE + ((if c == [] then "" else c[0].text) + QUOTE))
  {
    var q := Literal(QUOTE, s);
    LiteralSpells(QUOTE, s);
    LiteralOpen(QUOTE, s);
    LiteralDone(QUOTE, s);
    if q.Done? {
      var rest := s[|QUOTE|..];
      RestSpells(rest);
      var r := StringRest(rest);
      SpacedSame(QUOTE);
      AfterSpells([], s, |QUOTE|, QUOTE, r, r.nodes[0].text + QUOTE);
      hide StringRest, Spells, Literal;
      assert [] + r.nodes == r.nodes;
      WrapSpells(StringRule, s, After([], |QUOTE|, r), QUOTE + (r.nodes[0].text + QUOTE));
    } else if q.More? {
      hide StringRest, Literal;
      SpellsMore(q, s, QUOTE, "" + QUOTE);
      WrapSpells(StringRule, s, q, QUOTE + ("" + QUOTE));
    }
  }

  // ---------- entries and members ----------

  predicate AsFar(kind: Kind, n: Node) {
    if kind.InArray? then SoFar(n) else MemberAsFar(n)
  }

  function ItemText(kind: Kind, n: Node): string
    requires AsFar(kind, n)
  {
    if kind.InArray? then Written(ValueSoFar(n)) else WrittenMember(MemberSoFar(n))
  }

  function Texts(kind: Kind, ns: seq<Node>): seq<string>
    requires OpenItems(kind, ns)
  {
    if kind.InArray? then WrittenElems(ElemsSoFar(ns)) else WrittenMembers(MembersSoFar(ns))
  }

  lemma TextsFirst(kind: Kind, n: Node, ns: seq<Node>)
    requires OpenItems(kind, [n] + ns)
    ensures AsFar(kind, n) && OpenItems(kind, ns) && Texts(kind, [n] + ns) == [ItemText(kind, n)] + Texts(kind, ns)
  {
    FirstOpen(kind, [n] + ns);
    assert ([n] + ns)[1..] == ns;
    hide OpenItems, ValueSoFar, MemberSoFar, ElemsSoFar, MembersSoFar, SoFar, MemberAsFar;
  }

  lemma NoTexts(kind: Kind)
    ensures OpenItems(kind, []) && Texts(kind, []) == [] && Joined([]) == "" && MoreJoined([]) == ""
  {
  }

  lemma JoinedFirst(w: string, ws: seq<string>)
    ensures Joined([w] + ws) == w + MoreJoined(ws) && MoreJoined([w] + ws) == "," + w + MoreJoined(ws)
  {
    assert ([w] + ws)[1..] == ws;
  }

  // What is read of one item, and of a list of them up to its bracket, from the first one or from a comma on.
  predicate ItemSays(kind: Kind, r: Parse, s: string) {
    r.Fail? ||
    (&& |r.nodes| == 1 && AsFar(kind, r.nodes[0]) && (r.Done? ==> IsItem(kind, r.nodes[0]))
     && (r.More? ==> if kind.InArray? then IsOpen(r.nodes[0]) else OpenMember(r.nodes[0]))
     && Spells(r, s, ItemText(kind, r.nodes[0])))
  }

  predicate ItemsSay(kind: Kind, r: Parse, s: string, first: bool) {
    r.Fail? ||
    (&& OpenItems(kind, r.nodes)
     && Spells(r, s, (if first then Joined(Texts(kind, r.nodes)) else MoreJoined(Texts(kind, r.nodes))) + Closer(kind)))
  }

  // Nothing but the closing bracket.
  lemma CloserSays(kind: Kind, s: string, n: nat, first: bool)
    requires n <= |s| && Spaced(s[..n], "")
    ensures ItemsSay(kind, After([], n, Literal(Closer(kind), s[n..])), s, first)
  {
    NoTexts(kind);
    var r := Literal(Closer(kind), s[n..]);
    LiteralSpells(Closer(kind), s[n..]);
    LiteralOpen(Closer(kind), s[n..]);
    LiteralDone(Closer(kind), s[n..]);
    AfterSpells([], s, n, "", r, Closer(kind));
    assert "" + Closer(kind) == Closer(kind);
    hide Spells, Literal, Spaced;
    assert r.Done? || r.More? ==> After([], n, r).nodes == [];
  }

  // An item that was cut is the last one.
  lemma CutItemSays(kind: Kind, item: Parse, s: string, n: nat, first: bool)
    requires item.More? && n <= |s| && ItemSays(kind, item, s[n..]) && Spaced(s[..n], if first then "" else ",")
    ensures ItemsSay(kind, item, s, first)
  {
    var x := item.nodes[0];
    assert item.nodes == [x] + [];
    OneOpenItem(kind, item.nodes);
    TextsFirst(kind, x, []);
    NoTexts(kind);
    var t, u := ItemText(kind, x), if first then "" else ",";
    hide *;
    ItemSpells(kind, item, s[n..]);
    AfterSpells([], s, n, u, item, t);
    assert After([], n, item) == item by { BehindNothing(item); }
    SpellsMore(item, s, u + t, Closer(kind));
    JoinedFirst(t, []);
    assert [t] + [] == Texts(kind, item.nodes);
    assert "" + t + Closer(kind) == (t + "") + Closer(kind) && "," + t + Closer(kind) == ("," + t + "") + Closer(kind);
    AreSaid(kind, item, s, first);
  }

  lemma BehindNothing(r: Parse)
    requires r.More?
    ensures forall n: nat :: After([], n, r) == r
  {
    assert [] + r.nodes == r.nodes;
  }

  lemma ItemSpells(kind: Kind, r: Parse, s: string)
    requires ItemSays(kind, r, s) && !r.Fail?
    ensures |r.nodes| == 1 && AsFar(kind, r.nodes[0]) && Spells(r, s, ItemText(kind, r.nodes[0]))
    ensures r.Done? ==> IsItem(kind, r.nodes[0])
  {
    hide Spells, AsFar, IsItem;
  }

  lemma AreSaid(kind: Kind, r: Parse, s: string, first: bool)
    requires !r.Fail? && OpenItems(kind, r.nodes)
    requires Spells(r, s, (if first then Joined(Texts(kind, r.nodes)) else MoreJoined(Texts(kind, r.nodes)))
                          + Closer(kind))
    ensures ItemsSay(kind, r, s, first)
  {
    hide Spells, OpenItems;
  }

  lemma ItemsSpell(kind: Kind, r: Parse, s: string, first: bool)
    requires !r.Fail? && ItemsSay(kind, r, s, first)
    ensures OpenItems(kind, r.nodes)
    ensures Spells(r, s, (if first then Joined(Texts(kind, r.nodes)) else MoreJoined(Texts(kind, r.nodes)))
                         + Closer(kind))
  {
    hide Spells, OpenItems;
  }

  // An item that has ended, and the rest of the list behind it.
  lemma ItemThenTail(kind: Kind, item: Parse, tail: Parse, s: string, n: nat, first: bool)
    requires item.Done? && n <= |s| && ItemSays(kind, item, s[n..]) && Spaced(s[..n], if first then "" else ",")
    requires n + item.len <= |s| && ItemsSay(kind, tail, s[n + item.len..], false)
    ensures ItemsSay(kind, After(item.nodes, n + item.len, tail), s, first)
  {
    hide *;
    ItemSpells(kind, item, s[n..]);
    var x, k := item.nodes[0], n + item.len;
    var t, u := ItemText(kind, x), if first then "" else ",";
    DoneSpells(item, s[n..], t);
    SpacedThen(s[..n], u, s[n..][..item.len], t);
    TakeTwo(s, n, item.len);
    if !tail.Fail? {
      ItemsSpell(kind, tail, s[k..], false);
      var ts := Texts(kind, tail.nodes);
      AfterSpells(item.nodes, s, k, u + t, tail, MoreJoined(ts) + Closer(kind));
      assert item.nodes + tail.nodes == [x] + tail.nodes;
      OpenBehind(kind, item.nodes, tail.nodes);
      TextsFirst(kind, x, tail.nodes);
      JoinedFirst(t, ts);
      assert "" + t + (MoreJoined(ts) + Closer(kind)) == (t + MoreJoined(ts)) + Closer(kind);
      assert "," + t + (MoreJoined(ts) + Closer(kind)) == ("," + t + MoreJoined(ts)) + Closer(kind);
    }
    AfterNodes(item.nodes, k, tail);
    if !After(item.nodes, k, tail).Fail? {
      AreSaid(kind, After(item.nodes, k, tail), s, first);
    } else {
      FailSays(kind, s, first);
    }
  }

  lemma FailSays(kind: Kind, s: string, first: bool)
    ensures ItemsSay(kind, Fail, s, first)
  {
  }

  lemma AfterNodes(ns: seq<Node>, k: nat, r: Parse)
    ensures After(ns, k, r).Fail? <==> r.Fail?
    ensures !r.Fail? ==> After(ns, k, r).nodes == ns + r.nodes
  {
  }

  lemma DoneSpells(r: Parse, s: string, w: string)
    requires r.Done? && Spells(r, s, w)
    ensures r.len <= |s| && Spaced(s[..r.len], w)
  {
  }

  // ---------- values ----------

  lemma {:induction false} WholeTexts(kind: Kind, ns: seq<Node>)
    requires AreItems(kind, ns)
    ensures OpenItems(kind, ns)
    ensures if kind.InArray? then ElemsSoFar(ns) == ValuesOf(ns) else MembersSoFar(ns) == MembersOf(ns)
    decreases ns
  {
    if ns == [] {
      NoTexts(kind);
    } else {
      WholeFirst(kind, ns);
      WholeTexts(kind, ns[1..]);
      hide *;
      assert ns == [ns[0]] + ns[1..];
      OpenBehind(kind, [ns[0]], ns[1..]);
      FirstOpen(kind, ns);
      ItemsOf(kind, ns[0], ns[1..]);
      WholeSoFar(kind, ns[0]);
    }
  }

  lemma WholeFirst(kind: Kind, ns: seq<Node>)
    requires AreItems(kind, ns) && ns != []
    ensures IsItem(kind, ns[0]) && AreItems(kind, ns[1..])
  {
    hide IsValue, IsKey;
  }

  lemma WholeSoFar(kind: Kind, n: Node)
    requires IsItem(kind, n)
    ensures if kind.InArray? then SoFar(n) && ValueSoFar(n) == ValueOf(n)
            else MemberAsFar(n) && MemberSoFar(n) == (n.children[0].children[0].text, ValueOf(n.children[1]))
  {
    if kind.InArray? {
      assert IsValue(n);
    } else {
      assert ValueSoFar(n.children[1]) == ValueOf(n.children[1]);
    }
  }

  lemma ListValue(kind: Kind, c: Node)
    requires c.rule == if kind.InArray? then ArrayRule else DictRule
    requires OpenItems(kind, c.children)
    ensures AreItems(kind, c.children) && IsBody(c) ==>
      Written(ValueOf(Around(ValueRule, [c]))) == Opener(kind) + (Joined(Texts(kind, c.children)) + Closer(kind))
    ensures OpenBody(c) ==> Written(BodySoFar(c)) == Opener(kind) + (Joined(Texts(kind, c.children)) + Closer(kind))
  {
    assert Around(ValueRule, [c]).children[0] == c;
    var j := Joined(Texts(kind, c.children));
    assert Opener(kind) + j + Closer(kind) == Opener(kind) + (j + Closer(kind));
    if AreItems(kind, c.children) && IsBody(c) {
      WholeTexts(kind, c.children);
    }
    hide Joined, OpenItems, ElemsSoFar, MembersSoFar, WrittenElems, WrittenMembers;
    hide ValuesOf, MembersOf, AreValues, AreMembers;
  }

  lemma {:induction false} ListSays(kind: Kind, s: string)
    requires s != ""
    ensures Says(ParseList(kind, s), s)
    decreases |s|, 2
  {
    hide *;
    var r := ParseList(kind, s);
    if !r.Fail? {
      ListOpens(kind, s);
      var n := Skip(s, 1);
      var body := ListBody(kind, s[n..]);
      BodySays(kind, s[n..]);
      ItemsSpell(kind, body, s[n..], true);
      SkipSpells(s, 1, Opener(kind));
      AfterSpells([], s, n, Opener(kind), body, Joined(Texts(kind, body.nodes)) + Closer(kind));
      ListWraps(kind, s, Opener(kind) + (Joined(Texts(kind, body.nodes)) + Closer(kind)));
      ListDone(kind, s);
      ListOpen(kind, s);
      ListParts(kind, s);
      ListValue(kind, r.nodes[0]);
      ListSaid(r, s, Opener(kind) + (Joined(Texts(kind, body.nodes)) + Closer(kind)));
    } else {
      NothingSaid(s);
    }
  }

  lemma NothingSaid(s: string)
    ensures Says(Fail, s)
  {
  }

  lemma ListOpens(kind: Kind, s: string)
    requires s != "" && !ParseList(kind, s).Fail?
    ensures s[..1] == Opener(kind) && !ListBody(kind, s[Skip(s, 1)..]).Fail?
  {
    hide ListBody, Skip;
    assert Literal(Opener(kind), s).Done?;
  }

  lemma ListWraps(kind: Kind, s: string, w: string)
    requires s != "" && !ParseList(kind, s).Fail? && s[..1] == Opener(kind)
    requires Spells(After([], Skip(s, 1), ListBody(kind, s[Skip(s, 1)..])), s, w)
    ensures Spells(ParseList(kind, s), s, w)
  {
    hide ListBody, Skip, Spells, After;
    assert Literal(Opener(kind), s).Done?;
    WrapSpells(if kind.InArray? then ArrayRule else DictRule, s, ListRest(kind, s), w);
  }

  lemma ListParts(kind: Kind, s: string)
    requires s != "" && !ParseList(kind, s).Fail?
    ensures var c, body := ParseList(kind, s).nodes[0], ListBody(kind, s[Skip(s, 1)..]);
      && !body.Fail? && c.rule == (if kind.InArray? then ArrayRule else DictRule) && c.children == body.nodes
      && (ParseList(kind, s).Done? ==> AreItems(kind, c.children))
  {
    hide ListBody, AreItems, Skip;
    if ParseList(kind, s).Done? {
      ListIs(kind, s);
      BodyDone(kind, s[Skip(s, 1)..]);
    } else {
      ListCutIs(kind, s);
    }
    hide ParseList;
  }

  lemma ListSaid(r: Parse, s: string, w: string)
    requires !r.Fail? && |r.nodes| == 1 && Spells(r, s, w) && OneBody(r) && OneOpen(r)
    requires r.Done? && IsBody(r.nodes[0]) ==> Written(ValueOf(Around(ValueRule, [r.nodes[0]]))) == w
    requires r.More? && OpenBody(r.nodes[0]) ==> Written(BodySoFar(r.nodes[0])) == w
    ensures Says(r, s)
  {
    hide Spells, OpenBody, IsBody, BodySoFar, ValueOf, Written;
  }

  lemma {:induction false} BodySays(kind: Kind, s: string)
    ensures ItemsSay(kind, ListBody(kind, s), s, true)
    decreases |s|, 5
  {
    BodyCases(kind, s);
    hide *;
    if Literal(Closer(kind), s).Fail? {
      var item := ParseItem(kind, s);
      assert s[0..] == s && s[..0] == "";
      SpacedSame("");
      ItemSaysFor(kind, s);
      if item.Done? {
        TailSays(kind, s[item.len..]);
        ItemThenTail(kind, item, ListTail(kind, s[item.len..]), s, 0, true);
      } else if item.More? {
        CutItemSays(kind, item, s, 0, true);
      } else {
        FailSays(kind, s, true);
      }
    } else {
      assert s[0..] == s && s[..0] == "";
      SpacedSame("");
      CloserSays(kind, s, 0, true);
    }
  }

  lemma BodyCases(kind: Kind, s: string)
    ensures var close, item := Literal(Closer(kind), s), ParseItem(kind, s);
      ListBody(kind, s) ==
        if !close.Fail? then After([], 0, close)
        else if item.Done? then After(item.nodes, item.len, ListTail(kind, s[item.len..])) else item
    ensures ParseItem(kind, s).Done? ==> ParseItem(kind, s).len <= |s|
  {
    LiteralOpen(Closer(kind), s);
    LiteralDone(Closer(kind), s);
    hide ParseItem, ListTail, Literal;
  }

  lemma {:induction false} TailSays(kind: Kind, s: string)
    ensures ItemsSay(kind, ListTail(kind, s), s, false)
    decreases |s|, 5
  {
    hide *;
    if s != "" && s[0] == ',' {
      var n := Skip(s, 1);
      var item := ParseItem(kind, s[n..]);
      assert s[..1] == ",";
      SkipSpells(s, 1, ",");
      TailIs(kind, s, item);
      ItemSaysFor(kind, s[n..]);
      if item.Done? {
        assert s[n..][item.len..] == s[n + item.len..];
        TailSays(kind, s[n + item.len..]);
        ItemThenTail(kind, item, ListTail(kind, s[n + item.len..]), s, n, false);
      } else if item.More? {
        CutItemSays(kind, item, s, n, false);
      } else {
        FailSays(kind, s, false);
      }
    } else {
      assert s[..0] == "";
      SkipSpells(s, 0, "");
      NoComma(kind, s);
      CloserSays(kind, s, Skip(s, 0), false);
    }
  }

  lemma NoComma(kind: Kind, s: string)
    requires s == "" || s[0] != ','
    ensures ListTail(kind, s) == After([], Skip(s, 0), Literal(Closer(kind), s[Skip(s, 0)..]))
  {
    hide Skip, Literal;
  }

  lemma {:induction false} ItemSaysFor(kind: Kind, s: string)
    ensures ItemSays(kind, ParseItem(kind, s), s)
    decreases |s|, 4
  {
    ItemCases(kind, s);
    hide *;
    if kind.InArray? {
      ValueSays(s);
    } else {
      PairSays(s);
    }
  }

  lemma ItemCases(kind: Kind, s: string)
    ensures ParseItem(kind, s) == if kind.InArray? then ParseValue(s) else ParsePair(s)
  {
    hide ParseValue, ParsePair;
  }

  lemma {:induction false} ValueSays(s: string)
    ensures ItemSays(InArray, ParseValue(s), s)
    decreases |s|, 3
  {
    hide *;
    if s == "" {
      GuessSays();
    } else {
      ChoiceIs(s);
      StringSays(s);
      ScalarsSay(s);
      ListSays(InDict, s);
      ListSays(InArray, s);
      ChoiceInValue(s);
      ChoiceLen(s);
      ChosenSays(s, Choice(s), ParseValue(s));
    }
  }

  lemma ChoiceLen(s: string)
    requires s != ""
    ensures Choice(s).Done? ==> 0 < Choice(s).len <= |s|
  {
    ChoiceInValue(s);
    hide ParseString, ParseNumber, ParseBool, ParseNull, ParseList;
    assert Choice(s).Done? ==> ParseValue(s).Done? && ParseValue(s).len == Choice(s).len;
  }

  lemma GuessSays()
    ensures ItemSays(InArray, ParseValue(""), "")
  {
    GuessOpen();
    hide ParseValue, IsOpen;
  }

  lemma ChosenSays(s: string, c: Parse, r: Parse)
    requires s != "" && (c.Done? ==> 0 < c.len <= |s|) && r == Wrap(ValueRule, s, c) && Says(c, s)
    ensures ItemSays(InArray, r, s)
  {
    if c.Done? {
      DoneSays(s, c, r);
    } else if c.More? {
      MoreSays(s, c, r);
    }
  }

  lemma DoneSays(s: string, c: Parse, r: Parse)
    requires s != "" && c.Done? && 0 < c.len <= |s| && r == Wrap(ValueRule, s, c) && Says(c, s)
    ensures ItemSays(InArray, r, s)
  {
    var n, b := r.nodes[0], c.nodes[0];
    assert n == Node(ValueRule, Untagged, s[..c.len], false, [b]) by { assert c.nodes == [b]; }
    SameBody(n, b);
    WrapSpells(ValueRule, s, c, Written(ValueOf(Around(ValueRule, [b]))));
    hide IsValue, ValueOf, Written, Spells, IsBody, IsOpen;
  }

  // Only its body matters for a value.
  lemma SameBody(n: Node, b: Node)
    requires n.rule == ValueRule && n.text != "" && !n.partial && n.children == [b] && IsBody(b)
    ensures IsValue(n) && ValueOf(n) == ValueOf(Around(ValueRule, [b])) && ValueSoFar(n) == ValueOf(n)
  {
  }

  lemma MoreSays(s: string, c: Parse, r: Parse)
    requires s != "" && c.More? && r == Wrap(ValueRule, s, c) && Says(c, s)
    ensures ItemSays(InArray, r, s)
  {
    var n, b := r.nodes[0], c.nodes[0];
    assert n == Node(ValueRule, Untagged, s, true, [b]) by { assert c.nodes == [b]; }
    assert IsOpen(n) && ValueSoFar(n) == BodySoFar(b);
    WrapSpells(ValueRule, s, c, Written(BodySoFar(b)));
    hide OpenBody, BodySoFar, Written, Spells, IsOpen, IsValue;
  }

  // ---------- members ----------

  lemma PairCases(s: string)
    ensures var key := ParseKey(s);
      ParsePair(s) ==
        Wrap(DictKv, s,
             if key.Done? then After(key.nodes, Skip(s, key.len), ParseValue(s[Skip(s, key.len)..])) else key)
  {
    hide ParseKey, ParseValue, Skip, After, Wrap;
  }

  lemma {:induction false} PairSays(s: string)
    ensures ItemSays(InDict, ParsePair(s), s)
    decreases |s|, 2
  {
    hide *;
    PairCases(s);
    KeyIs(s);
    var key, r := ParseKey(s), ParsePair(s);
    if r.Fail? {
      FailItem(s);
    } else if key.Done? {
      var name, from := s[..KeyLen(s)], Skip(s, key.len);
      var value := ParseValue(s[from..]);
      ValueSays(s[from..]);
      assert s[..key.len] == name + ":";
      SkipSpells(s, key.len, name + ":");
      AfterLen(key.nodes, from, value, s);
      WrapFails(DictKv, s, After(key.nodes, from, value));
      AfterNodes(key.nodes, from, value);
      ItemSpells(InArray, value, s[from..]);
      var v := value.nodes[0];
      ItemTextIs(v);
      AfterSpells(key.nodes, s, from, name + ":", value, Written(ValueSoFar(v)));
      WrapSpells(DictKv, s, After(key.nodes, from, value), name + ":" + Written(ValueSoFar(v)));
      PairAsFar(s, name, v);
    } else {
      WrapFails(DictKv, s, key);
      KeySays(s);
    }
  }

  lemma FailItem(s: string)
    ensures ItemSays(InDict, Fail, s)
  {
  }

  lemma WrapFails(rule: Rule, s: string, r: Parse)
    requires r.Done? ==> r.len <= |s|
    ensures Wrap(rule, s, r).Fail? <==> r.Fail?
    ensures !r.Fail? ==> Wrap(rule, s, r).nodes[0].children == r.nodes && Wrap(rule, s, r).nodes[0].rule == rule
    ensures r.More? ==> Wrap(rule, s, r).More? && Wrap(rule, s, r).nodes[0].text == s
    ensures var w := Wrap(rule, s, r); r.Done? ==> w.Done? && w.len == r.len && w.nodes[0].text == s[..r.len]
  {
  }

  lemma AfterLen(ns: seq<Node>, k: nat, r: Parse, s: string)
    requires k <= |s| && (r.Done? ==> r.len <= |s[k..]|)
    ensures After(ns, k, r).Done? ==> After(ns, k, r).len <= |s|
  {
  }

  lemma ItemTextIs(n: Node)
    requires AsFar(InArray, n)
    ensures SoFar(n) && ItemText(InArray, n) == Written(ValueSoFar(n))
  {
    hide SoFar, Written, ValueSoFar;
  }

  // A member with its key and its value, ended or not.
  lemma PairAsFar(s: string, name: string, value: Node)
    requires !ParsePair(s).Fail? && ParseKey(s).Done? && SoFar(value)
    requires var n := ParsePair(s).nodes[0]; n.children == ParseKey(s).nodes + [value] && n.text != ""
    requires ParseKey(s).nodes[0].children[0].text == name
    requires Spells(ParsePair(s), s, name + ":" + Written(ValueSoFar(value)))
    ensures ItemSays(InDict, ParsePair(s), s)
  {
    hide ParseKey, Skip, Spells, Written, ParseValue, ParsePair, IsOpen, IsValue, ValueSoFar, IsKey;
    var n := ParsePair(s).nodes[0];
    if ParsePair(s).Done? {
      PairDone(s);
    } else {
      PairOpen(s);
    }
    assert n.children == [ParseKey(s).nodes[0], value];
    MemberTextIs(n);
  }

  lemma MemberTextIs(n: Node)
    requires MemberAsFar(n)
    ensures AsFar(InDict, n)
    ensures ItemText(InDict, n) == MemberSoFar(n).0 + ":" + Written(MemberSoFar(n).1)
  {
    hide Written, MemberSoFar, MemberAsFar;
  }

  // The text ended in front of a key or in it.
  lemma KeySays(s: string)
    requires ParsePair(s).More? && ParseKey(s).More? && ParsePair(s).nodes[0].children == ParseKey(s).nodes
    requires ParsePair(s).nodes[0].text == s
    ensures ItemSays(InDict, ParsePair(s), s)
  {
    hide *;
    PairOpen(s);
    KeyIs(s);
    var n := ParsePair(s).nodes[0];
    OpenMemberIs(n);
    MemberTextIs(n);
    if s != "" {
      assert s[..KeyLen(s)] == s;
      var rest := ":" + Written(MemberSoFar(n).1);
      assert ItemText(InDict, n) == s + rest;
      StartOf(s, s + rest);
    }
    MemberSays(ParsePair(s), s);
  }

  lemma MemberSays(r: Parse, s: string)
    requires r.More? && |r.nodes| == 1 && OpenMember(r.nodes[0]) && MemberAsFar(r.nodes[0])
    requires AsFar(InDict, r.nodes[0]) && (s == "" || SpacedStart(s, ItemText(InDict, r.nodes[0])))
    ensures ItemSays(InDict, r, s)
  {
    hide ItemText, AsFar, OpenMember, MemberAsFar;
  }
}
