/** The trees that the Gemma 4 grammar builds when a value has ended are complete. */
module GemmaTrees {
  import opened Text
  import opened Gemma
  import opened GemmaParser
  import Json

  // ---------- what has ended is complete ----------

  lemma {:induction false} DigitsTake(s: string, n: nat)
    requires Json.DigitsLen(s) <= n <= |s|
    ensures Json.DigitsLen(s[..n]) == Json.DigitsLen(s)
  {
    if s != "" && IsDigit(s[0]) {
      assert s[..n][1..] == s[1..][..n - 1];
      DigitsTake(s[1..], n - 1);
    }
  }

  lemma DigitsAre(s: string, k: nat)
    requires k == Json.DigitsLen(s)
    ensures Json.DigitsLen(s[..k]) == k
  {
    DigitsTake(s, k);
  }

  lemma ExponentDone(s: string)
    requires ExponentPart(s).Done?
    ensures Json.IsExponent(s[..ExponentPart(s).len])
  {
    if IsExponentMark(s) {
      var sign := if |s| > 1 && (s[1] == '+' || s[1] == '-') then 2 else 1;
      var k := Json.DigitsLen(s[sign..]);
      DigitsAre(s[sign..], k);
      if k > 0 {
        var e := s[..sign + k];
        assert e[sign..] == s[sign..][..k];
        assert sign == 1 ==> s[1..][0] == s[1] && IsDigit(s[1]);
      }
    }
  }

  lemma FractionDone(s: string)
    requires FractionPart(s).Done?
    ensures Json.IsFraction(s[..FractionPart(s).len])
  {
    hide ExponentPart, Json.IsExponent;
    var r := FractionPart(s);
    if s != "" && s[0] == '.' {
      var k := Json.DigitsLen(s[1..]);
      FractionIs(s, k);
      if k == 0 {
        DotAlone(s);
      }
      ExponentDone(s[1 + k..]);
      var w := s[..r.len];
      assert w[1..] == s[1..][..r.len - 1];
      DigitsTake(s[1..], r.len - 1);
      assert w[1..][k..] == s[1 + k..][..r.len - 1 - k];
    } else {
      ExponentDone(s);
    }
  }

  lemma FractionStart(s: string)
    requires Json.IsFraction(s)
    ensures Json.DigitsLen(s) == 0
  {
  }

  lemma IntegerDone(s: string)
    requires IntegerPart(s).Done?
    ensures Json.IsUnsigned(s[..IntegerPart(s).len])
  {
    hide FractionPart, Json.IsFraction;
    var r := IntegerPart(s);
    var k := if s[0] == '0' then 1 else Json.DigitsLen(s);
    FractionDone(s[k..]);
    var w := s[..r.len];
    assert w[k..] == s[k..][..r.len - k];
    FractionStart(w[k..]);
    if s[0] != '0' {
      DigitsTake(s, r.len);
    }
  }

  lemma NumberDone(s: string)
    requires NumberText(s).Done?
    ensures Json.IsNumber(s[..NumberText(s).len])
  {
    hide IntegerPart, Json.IsUnsigned;
    var r := NumberText(s);
    if s != "" && s[0] == '-' {
      IntegerDone(s[1..]);
      assert s[..r.len][1..] == s[1..][..r.len - 1];
    } else {
      IntegerDone(s);
      UnsignedStart(s[..r.len]);
    }
  }

  lemma UnsignedStart(s: string)
    requires Json.IsUnsigned(s)
    ensures s != "" && IsDigit(s[0])
  {
  }

  // ---------- values that have ended ----------

  predicate AreItems(kind: Kind, ns: seq<Node>) {
    if kind.InArray? then AreValues(ns) else AreMembers(ns)
  }

  predicate IsItem(kind: Kind, n: Node) {
    if kind.InArray? then IsValue(n) else IsMember(n)
  }

  lemma FirstItem(kind: Kind, n: Node, ns: seq<Node>)
    requires IsItem(kind, n) && AreItems(kind, ns)
    ensures AreItems(kind, [n] + ns)
  {
    assert ([n] + ns)[1..] == ns;
  }

  // What a value node may hold when it has ended.
  predicate IsBody(c: Node) {
    IsValue(Node(ValueRule, Untagged, "-", false, [c]))
  }

  predicate OneBody(r: Parse) {
    r.Done? ==> |r.nodes| == 1 && IsBody(r.nodes[0])
  }

  lemma LiteralDone(lit: string, s: string)
    ensures Literal(lit, s).Done? ==> Literal(lit, s) == Done([], |lit|) && |lit| <= |s| && s[..|lit|] == lit
  {
  }

  lemma NumberValueDone(s: string)
    ensures OneBody(ParseNumber(s))
  {
    hide NumberText, Json.IsNumber;
    if NumberText(s).Done? {
      NumberDone(s);
    }
  }

  lemma WordDone(s: string)
    ensures OneBody(ParseBool(s)) && OneBody(ParseNull(s))
  {
    LiteralDone("true", s);
    LiteralDone("false", s);
    LiteralDone("null", s);
    hide Literal;
  }

  lemma StringDone(s: string)
    ensures OneBody(ParseString(s))
  {
    if ParseString(s).Done? {
      var rest := s[|QUOTE|..];
      StringRestIs(rest);
      assert [] + StringRest(rest).nodes == StringRest(rest).nodes;
      hide StringRest;
    }
  }

  lemma KeyDone(s: string)
    requires ParseKey(s).Done?
    ensures IsKey(ParseKey(s).nodes[0])
  {
    KeyIs(s);
  }

  lemma {:induction false} ValueDone(s: string)
    requires ParseValue(s).Done?
    ensures IsValue(ParseValue(s).nodes[0])
    decreases |s|, 3
  {
    assert s != "" by {
      ValueGuessed("");
    }
    ChoiceIs(s);
    hide *;
    StringDone(s);
    NumberValueDone(s);
    WordDone(s);
    ListDone(InDict, s);
    ListDone(InArray, s);
    assert OneBody(Choice(s));
    ChosenDone(s);
  }

  lemma ChosenDone(s: string)
    requires s != "" && ParseValue(s).Done? && OneBody(Choice(s))
    ensures IsValue(ParseValue(s).nodes[0])
  {
    hide ParseString, ParseNumber, ParseBool, ParseNull, ParseList;
    assert ParseValue(s) == Wrap(ValueRule, s, Choice(s));
    hide ParseValue, Choice;
    var c := Choice(s).nodes;
    assert c == [c[0]];
  }

  lemma {:induction false} ItemDone(kind: Kind, s: string)
    requires ParseItem(kind, s).Done?
    ensures IsItem(kind, ParseItem(kind, s).nodes[0])
    decreases |s|, 4
  {
    if kind.InArray? {
      ValueDone(s);
    } else {
      PairDone(s);
    }
  }

  lemma {:induction false} PairDone(s: string)
    requires ParsePair(s).Done?
    ensures IsMember(ParsePair(s).nodes[0])
    decreases |s|, 2
  {
    var key := ParseKey(s);
    KeyDone(s);
    var from := Skip(s, key.len);
    ValueDone(s[from..]);
    PairIs(s);
    hide *;
    MemberOf(key.nodes[0], ParseValue(s[from..]).nodes[0], ParsePair(s).nodes[0]);
  }

  lemma PairIs(s: string)
    requires ParsePair(s).Done?
    ensures var key := ParseKey(s);
      && key.Done?
      && var value := ParseValue(s[Skip(s, key.len)..]);
      && value.Done? && ParsePair(s).len == Skip(s, key.len) + value.len
      && ParsePair(s).nodes ==
         [Node(DictKv, Untagged, s[..ParsePair(s).len], false, [key.nodes[0], value.nodes[0]])]
  {
    hide ParseKey, ParseValue, Skip;
    var key := ParseKey(s);
    var value := ParseValue(s[Skip(s, key.len)..]);
    assert key.nodes + value.nodes == [key.nodes[0], value.nodes[0]];
  }

  lemma MemberOf(key: Node, value: Node, n: Node)
    requires IsKey(key) && IsValue(value)
    requires n.rule == DictKv && n.text != "" && !n.partial && n.children == [key, value]
    ensures IsMember(n)
  {
    hide IsValue, IsKey;
  }

  lemma {:induction false} ListDone(kind: Kind, s: string)
    ensures OneBody(ParseList(kind, s))
    decreases |s|, 2
  {
    if ParseList(kind, s).Done? {
      ListIs(kind, s);
      hide *;
      BodyDone(kind, s[Skip(s, 1)..]);
      ItemsInList(kind, ParseList(kind, s));
    }
  }

  lemma ListIs(kind: Kind, s: string)
    requires ParseList(kind, s).Done?
    ensures s != ""
    ensures var r, body := ParseList(kind, s), ListBody(kind, s[Skip(s, 1)..]);
      && body.Done?
      && r.nodes == [Node(if kind.InArray? then ArrayRule else DictRule, Untagged, s[..r.len], false, body.nodes)]
  {
    hide ListBody, Skip;
    var r := ListBody(kind, s[Skip(s, 1)..]);
    assert r.Done? ==> [] + r.nodes == r.nodes;
  }

  lemma ItemsInList(kind: Kind, r: Parse)
    requires r.Done? && |r.nodes| == 1 && Whole(r.nodes[0], if kind.InArray? then ArrayRule else DictRule)
    requires AreItems(kind, r.nodes[0].children)
    ensures OneBody(r)
  {
    hide AreValues, AreMembers;
  }

  lemma {:induction false} BodyDone(kind: Kind, s: string)
    requires ListBody(kind, s).Done?
    ensures AreItems(kind, ListBody(kind, s).nodes)
    decreases |s|, 5
  {
    if Literal(Closer(kind), s).Fail? {
      var item := ParseItem(kind, s);
      ItemDone(kind, s);
      TailDone(kind, s[item.len..]);
      hide ParseItem, ListTail, IsItem, AreItems;
      FirstItem(kind, item.nodes[0], ListTail(kind, s[item.len..]).nodes);
      assert item.nodes == [item.nodes[0]];
    }
  }

  lemma {:induction false} TailDone(kind: Kind, s: string)
    requires ListTail(kind, s).Done?
    ensures AreItems(kind, ListTail(kind, s).nodes)
    decreases |s|, 5
  {
    if s != "" && s[0] == ',' {
      hide *;
      CommaDone(kind, s);
    }
  }

  lemma {:induction false} CommaDone(kind: Kind, s: string)
    requires ListTail(kind, s).Done? && s != "" && s[0] == ','
    ensures AreItems(kind, ListTail(kind, s).nodes)
    decreases |s|, 4
  {
    hide *;
    var n := Skip(s, 1);
    var item := ParseItem(kind, s[n..]);
    TailIs(kind, s, item);
    ItemDone(kind, s[n..]);
    AfterItem(kind, item, n + item.len, ListTail(kind, s[n + item.len..]));
    TailDone(kind, s[n + item.len..]);
    FirstItem(kind, item.nodes[0], ListTail(kind, s[n + item.len..]).nodes);
  }

  lemma AfterItem(kind: Kind, item: Parse, k: nat, r: Parse)
    requires item.Done? && |item.nodes| == 1
    ensures After(item.nodes, k, r).Done? ==>
      r.Done? && After(item.nodes, k, r) == Done([item.nodes[0]] + r.nodes, k + r.len)
  {
    assert item.nodes == [item.nodes[0]];
  }
}
