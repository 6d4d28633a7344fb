/** Values in the notation of Gemma 4: what is written is parsed to a tree that stands for the same value. */
module GemmaWritten {
  import opened Text
  import opened Gemma
  import opened GemmaParser
  import opened GemmaTrees
  import Json

  // ---------- writing ----------

  function Joined(ws: seq<string>): string {
    if ws == [] then "" else ws[0] + MoreJoined(ws[1..])
  }

  function MoreJoined(ws: seq<string>): string {
    if ws == [] then "" else "," + ws[0] + MoreJoined(ws[1..])
  }

  function Written(v: Json.Value): string
    decreases v
  {
    match v
    case Null => "null"
    case Bool(b) => if b then "true" else "false"
    case Number(w) => w
    case String(x) => QUOTE + x + QUOTE
    case Array(vs) => "[" + Joined(WrittenElems(vs)) + "]"
    case Object(ms) => "{" + Joined(WrittenMembers(ms)) + "}"
  }

  function WrittenElems(vs: seq<Json.Value>): seq<string>
    decreases vs
  {
    if vs == [] then [] else [Written(vs[0])] + WrittenElems(vs[1..])
  }

  function WrittenMembers(ms: seq<(string, Json.Value)>): seq<string>
    decreases ms
  {
    if ms == [] then [] else [WrittenMember(ms[0])] + WrittenMembers(ms[1..])
  }

  function WrittenMember(m: (string, Json.Value)): string
    decreases m
  {
    assert m.1 < m;
    m.0 + ":" + Written(m.1)
  }

  // What the notation can carry: no quote inside a string, and names that are not cut short.
  predicate Writable(v: Json.Value)
    decreases v
  {
    match v
    case Null => true
    case Bool(_) => true
    case Number(w) => Json.IsNumber(w)
    case String(x) => NoQuote(x)
    case Array(vs) => AllWritable(vs)
    case Object(ms) => MembersWritable(ms)
  }

  predicate AllWritable(vs: seq<Json.Value>)
    decreases vs
  {
    vs == [] || (Writable(vs[0]) && AllWritable(vs[1..]))
  }

  predicate MembersWritable(ms: seq<(string, Json.Value)>)
    decreases ms
  {
    ms == [] || (MemberWritable(ms[0]) && MembersWritable(ms[1..]))
  }

  predicate MemberWritable(m: (string, Json.Value))
    decreases m
  {
    assert m.1 < m;
    IsName(m.0) && Writable(m.1)
  }

  predicate NoQuote(x: string) {
    forall k :: 0 <= k < |x| ==> !QuoteAt(x, k)
  }

  predicate IsName(x: string) {
    x != "" && !IsSpace(x[0]) && forall k :: 0 <= k < |x| ==> InKey(x[k])
  }

  // ---------- numbers ----------

  // Text that no number goes on with.
  predicate Stops(rest: string) {
    rest != "" && !Json.NumberChar(rest[0])
  }

  lemma {:induction false} DigitsBefore(d: string, rest: string)
    requires rest == "" || !IsDigit(rest[0])
    ensures Json.DigitsLen(d + rest) == Json.DigitsLen(d)
  {
    if d != "" {
      assert (d + rest)[1..] == d[1..] + rest;
      DigitsBefore(d[1..], rest);
    } else {
      assert d + rest == rest;
    }
  }

  function SignLen(w: string): nat {
    if |w| > 1 && (w[1] == '+' || w[1] == '-') then 2 else 1
  }

  lemma ExponentIs(s: string, sign: nat)
    requires IsExponentMark(s) && sign == SignLen(s)
    ensures var k := Json.DigitsLen(s[sign..]);
      k > 0 ==> ExponentPart(s) == After([], sign + k, NumberEnd(s[sign + k..]))
  {
    hide NumberEnd, After, Json.DigitsLen;
  }

  lemma ExponentShape(w: string)
    requires Json.IsExponent(w) && w != ""
    ensures IsExponentMark(w) && SignLen(w) < |w| && Json.DigitsLen(w[SignLen(w)..]) == |w| - SignLen(w)
  {
    hide Json.DigitsLen;
  }

  lemma ExponentEnds(w: string, rest: string)
    requires Json.IsExponent(w) && w != "" && Stops(rest)
    ensures var sign := SignLen(w); Json.DigitsLen((w + rest)[sign..]) == |w| - sign > 0 && (w + rest)[|w|..] == rest
    ensures IsExponentMark(w + rest) && SignLen(w + rest) == SignLen(w)
  {
    hide Json.IsExponent, Json.DigitsLen;
    ExponentShape(w);
    assert (w + rest)[SignLen(w)..] == w[SignLen(w)..] + rest;
    DigitsBefore(w[SignLen(w)..], rest);
  }

  lemma ExponentReads(w: string, rest: string)
    requires Json.IsExponent(w) && Stops(rest)
    ensures ExponentPart(w + rest) == Done([], |w|)
  {
    if w == "" {
      assert w + rest == rest;
    } else {
      hide ExponentPart, Json.DigitsLen, Json.IsExponent, IsExponentMark;
      ExponentEnds(w, rest);
      ExponentIs(w + rest, SignLen(w));
    }
  }

  lemma FractionReads(w: string, rest: string)
    requires Json.IsFraction(w) && Stops(rest)
    ensures FractionPart(w + rest) == Done([], |w|)
  {
    hide ExponentPart, Json.IsExponent;
    var s := w + rest;
    if w != "" && w[0] == '.' {
      var k := Json.DigitsLen(w[1..]);
      assert s[1..] == w[1..] + rest;
      DigitsBefore(w[1..], rest);
      FractionIs(s, k);
      assert w[1..][k..] == w[1 + k..] && s[1 + k..] == w[1 + k..] + rest;
      ExponentReads(w[1 + k..], rest);
    } else {
      ExponentReads(w, rest);
      assert w == "" ==> s[0] == rest[0];
    }
  }

  lemma IntegerReads(w: string, rest: string)
    requires Json.IsUnsigned(w) && Stops(rest)
    ensures IntegerPart(w + rest) == Done([], |w|)
  {
    hide FractionPart, Json.IsFraction;
    var k := Json.DigitsLen(w);
    DigitsBefore(w, rest);
    assert (w + rest)[k..] == w[k..] + rest;
    FractionReads(w[k..], rest);
  }

  lemma NumberReads(w: string, rest: string)
    requires Json.IsNumber(w) && Stops(rest)
    ensures NumberText(w + rest) == Done([], |w|)
  {
    hide IntegerPart, Json.IsUnsigned;
    if w != "" && w[0] == '-' {
      assert (w + rest)[1..] == w[1..] + rest;
      IntegerReads(w[1..], rest);
    } else {
      UnsignedStart(w);
      IntegerReads(w, rest);
    }
  }

  // ---------- strings and keys ----------

  // Up to the end of x, a quote in x + QUOTE is one in x.
  lemma QuoteShift(x: string, rest: string, k: nat)
    requires k < |x|
    ensures EndsAt([QUOTE], x + QUOTE + rest, k) <==> QuoteAt(x, k)
  {
    var s := x + QUOTE + rest;
    var n := |x| - k;
    assert s[k..] == x[k..] + QUOTE + rest;
    assert MayMark([QUOTE], s[k..]) <==> QUOTE <= s[k..] || s[k..] <= QUOTE by {
      assert QUOTE in [QUOTE];
    }
    if n < |QUOTE| {
      assert s[k..][n] == '<' && QUOTE[n] != '<';
    } else {
      assert s[k..][..|QUOTE|] == x[k..][..|QUOTE|];
    }
  }

  lemma UntilReads(x: string, rest: string)
    ensures var r := Until([QUOTE], x + QUOTE + rest); r.Done? && r.len <= |x| && (r.len == |x| <==> NoQuote(x))
  {
    var s := x + QUOTE + rest;
    UntilIs([QUOTE], s);
    assert s[|x|..] == QUOTE + rest;
    assert EndsAt([QUOTE], s, |x|) by {
      OneMark(s, |x|);
    }
    hide Until, EndsAt, QuoteAt;
    forall k | 0 <= k < |x| ensures EndsAt([QUOTE], s, k) <==> QuoteAt(x, k) {
      QuoteShift(x, rest, k);
    }
  }

  lemma StringIs(t: string)
    ensures var x, r := ParseString(QUOTE + t), StringRest(t);
      && (x.Done? <==> r.Done?)
      && (x.Done? ==> x.len == |QUOTE| + r.len && r.len <= |t|)
      && (x.Done? ==> x.nodes == [Node(StringRule, Untagged, (QUOTE + t)[..x.len], false, r.nodes)])
  {
    var s := QUOTE + t;
    assert s[|QUOTE|..] == t;
    assert !StringRest(t).Fail? ==> [] + StringRest(t).nodes == StringRest(t).nodes;
    hide StringRest;
  }

  /** A quoted string is read as what was quoted exactly if there is no quote in it. */
  lemma QuotedReadsIff(x: string, rest: string)
    ensures var r := ParseString(QUOTE + (x + QUOTE + rest));
      (&& r.Done? && r.len == |QUOTE| + |x| + |QUOTE|
       && |r.nodes| == 1 && |r.nodes[0].children| == 1 && r.nodes[0].children[0].text == x) <==> NoQuote(x)
  {
    var t := x + QUOTE + rest;
    StringIs(t);
    UntilReads(x, rest);
    StringRestIs(t);
    hide Until, StringRest, ParseString, NoQuote;
    if NoQuote(x) {
      assert t[..|x|] == x && t[|x|..] == QUOTE + rest;
    }
  }

  lemma {:induction false} KeyLenReads(x: string, rest: string)
    ensures var n := KeyLen(x + ":" + rest); n <= |x| && (n == |x| <==> forall k :: 0 <= k < |x| ==> InKey(x[k]))
  {
    var s := x + ":" + rest;
    if x != "" && InKey(x[0]) {
      assert s[1..] == x[1..] + ":" + rest;
      KeyLenReads(x[1..], rest);
      assert forall k :: 0 < k < |x| ==> x[k] == x[1..][k - 1];
    }
  }

  /** A name with its colon is read as that name exactly if it is not empty and holds no colon and no brace. */
  lemma KeyReadsIff(x: string, rest: string)
    ensures var s, r := x + ":" + rest, ParseKey(x + ":" + rest);
      (&& r.Done? && r.len == |x| + 1
       && r.nodes == [Node(DictKey, Untagged, x + ":", false, [Node(DictKeyName, Untagged, x, false, [])])])
      <==> x != "" && forall k :: 0 <= k < |x| ==> InKey(x[k])
  {
    var s := x + ":" + rest;
    KeyIs(s);
    KeyLenReads(x, rest);
    hide ParseKey, KeyLen, InKey;
    assert s[..|x|] == x && s[..|x| + 1] == x + ":" && s[|x|] == ':';
  }

  // ---------- lists ----------

  // An item that is written as w is read as the node n, whatever comes behind it.
  ghost predicate ItemReads(kind: Kind, w: string, n: Node) {
    && Begins(kind, w)
    && forall rest :: Stops(rest) ==> ParseItem(kind, w + rest) == Done([n], |w|)
  }

  predicate Begins(kind: Kind, w: string) {
    w != "" && !IsSpace(w[0]) && w[0] != Closer(kind)[0]
  }

  ghost predicate ItemsRead(kind: Kind, ws: seq<string>, ns: seq<Node>) {
    |ws| == |ns| && forall i :: 0 <= i < |ws| ==> ItemReads(kind, ws[i], ns[i])
  }

  lemma RestStops(kind: Kind, ws: seq<string>, rest: string)
    ensures Stops(MoreJoined(ws) + Closer(kind) + rest)
  {
    var s := MoreJoined(ws) + Closer(kind) + rest;
    assert s[0] == if ws == [] then Closer(kind)[0] else ',';
  }

  lemma EndReads(kind: Kind, rest: string)
    ensures ListTail(kind, Closer(kind) + rest) == Done([], 1)
  {
    var s := Closer(kind) + rest;
    assert SpaceLen(s) == 0 && s[0..] == s;
    assert Skip(s, 0) == 0;
    assert ListTail(kind, s) == ListEnd(kind, s);
    hide ListTail, Skip, SpaceLen;
  }

  lemma {:induction false} TailParses(kind: Kind, ws: seq<string>, ns: seq<Node>, rest: string)
    requires ItemsRead(kind, ws, ns)
    ensures ListTail(kind, MoreJoined(ws) + Closer(kind) + rest) == Done(ns, |MoreJoined(ws)| + 1)
    decreases |ws|
  {
    hide ListTail, ItemReads, Closer;
    if ws == [] {
      assert MoreJoined(ws) + Closer(kind) + rest == Closer(kind) + rest;
      EndReads(kind, rest);
    } else {
      var more := MoreJoined(ws[1..]) + Closer(kind) + rest;
      assert MoreJoined(ws) + Closer(kind) + rest == "," + ws[0] + more;
      RestStops(kind, ws[1..], rest);
      TailParses(kind, ws[1..], ns[1..], rest);
      OneMore(kind, ws[0], ns[0], more, ns[1..], |MoreJoined(ws[1..])| + 1);
      assert [ns[0]] + ns[1..] == ns;
    }
  }

  lemma ItemParses(kind: Kind, w: string, n: Node, more: string)
    requires ItemReads(kind, w, n) && Stops(more)
    ensures ParseItem(kind, w + more) == Done([n], |w|) && Begins(kind, w)
  {
    hide ParseItem, Begins, Stops;
  }

  lemma OneMore(kind: Kind, w: string, n: Node, more: string, ns: seq<Node>, k: nat)
    requires ItemReads(kind, w, n) && Stops(more) && ListTail(kind, more) == Done(ns, k)
    ensures ListTail(kind, "," + w + more) == Done([n] + ns, 1 + |w| + k)
  {
    var s := "," + w + more;
    hide ParseItem, ListTail, ItemReads, Stops;
    ItemParses(kind, w, n, more);
    assert s[1..] == w + more && s[1 + |w|..] == more;
    assert Skip(s, 1) == 1;
    hide Skip, SpaceLen, Begins;
    TailIs(kind, s, Done([n], |w|));
  }

  lemma JoinedIs(kind: Kind, ws: seq<string>, rest: string)
    requires ws != []
    ensures Joined(ws) + Closer(kind) + rest == ws[0] + (MoreJoined(ws[1..]) + Closer(kind) + rest)
    ensures |Joined(ws)| == |ws[0]| + |MoreJoined(ws[1..])|
  {
    hide MoreJoined;
  }

  lemma NoItems(kind: Kind, rest: string)
    ensures Joined([]) + Closer(kind) + rest == Closer(kind) + rest
    ensures ListBody(kind, Closer(kind) + rest) == Done([], 1) && SpaceLen(Closer(kind) + rest) == 0
  {
    hide ListTail, ParseItem;
  }

  lemma BodyParses(kind: Kind, ws: seq<string>, ns: seq<Node>, rest: string)
    requires ItemsRead(kind, ws, ns)
    ensures ListBody(kind, Joined(ws) + Closer(kind) + rest) == Done(ns, |Joined(ws)| + 1)
    ensures SpaceLen(Joined(ws) + Closer(kind) + rest) == 0
  {
    hide ListTail, ListBody, ParseItem, ItemReads, MoreJoined, Closer, Stops;
    if ws == [] {
      NoItems(kind, rest);
    } else {
      var more := MoreJoined(ws[1..]) + Closer(kind) + rest;
      assert ItemReads(kind, ws[0], ns[0]) && ItemsRead(kind, ws[1..], ns[1..]);
      JoinedIs(kind, ws, rest);
      RestStops(kind, ws[1..], rest);
      TailParses(kind, ws[1..], ns[1..], rest);
      FirstOfBody(kind, ws[0], ns[0], more, ns[1..], |MoreJoined(ws[1..])| + 1);
      assert [ns[0]] + ns[1..] == ns;
      ItemParses(kind, ws[0], ns[0], more);
    }
  }

  lemma FirstOfBody(kind: Kind, w: string, n: Node, more: string, ns: seq<Node>, k: nat)
    requires ItemReads(kind, w, n) && Stops(more) && ListTail(kind, more) == Done(ns, k)
    ensures ListBody(kind, w + more) == Done([n] + ns, |w| + k)
  {
    var s := w + more;
    hide ParseItem, ListTail, Literal, Stops, ItemReads;
    ItemParses(kind, w, n, more);
    OtherStart(Closer(kind), s);
    assert s[|w|..] == more;
  }

  function ListText(kind: Kind, ws: seq<string>): string {
    Opener(kind) + Joined(ws) + Closer(kind)
  }

  function ListNode(kind: Kind, ws: seq<string>, ns: seq<Node>): Node {
    Node(if kind.InArray? then ArrayRule else DictRule, Untagged, ListText(kind, ws), false, ns)
  }

  lemma ListTextIs(kind: Kind, ws: seq<string>, rest: string)
    ensures var s := ListText(kind, ws) + rest; s[0] == Opener(kind)[0] && s[1..] == Joined(ws) + Closer(kind) + rest
    ensures Opener(kind) <= ListText(kind, ws) + rest && |ListText(kind, ws)| == |Joined(ws)| + 2
  {
    hide Joined;
  }

  lemma RestParses(kind: Kind, ws: seq<string>, ns: seq<Node>, rest: string)
    requires ItemsRead(kind, ws, ns)
    ensures ListRest(kind, ListText(kind, ws) + rest) == Done(ns, |ListText(kind, ws)|)
  {
    var s := ListText(kind, ws) + rest;
    hide ListBody, Joined, ItemsRead, SpaceLen, ListText, Opener, Closer;
    BodyParses(kind, ws, ns, rest);
    ListTextIs(kind, ws, rest);
    assert Skip(s, 1) == 1;
    hide Skip;
    assert [] + ns == ns;
  }

  lemma ListParses(kind: Kind, ws: seq<string>, ns: seq<Node>, rest: string)
    requires ItemsRead(kind, ws, ns)
    ensures ParseList(kind, ListText(kind, ws) + rest) == Done([ListNode(kind, ws, ns)], |ListText(kind, ws)|)
  {
    var w := ListText(kind, ws);
    RestParses(kind, ws, ns, rest);
    ListTextIs(kind, ws, rest);
    assert (w + rest)[..|w|] == w;
    hide ListRest, ListText, ItemsRead, Opener;
  }

  // ---------- values ----------

  function ValueNode(w: string, c: Node): Node {
    Node(ValueRule, Untagged, w, false, [c])
  }

  // The body of a value that is written as w is read as c, and what begins another alternative is not there.
  ghost predicate BodyReads(w: string, c: Node) {
    Begins(InArray, w) && forall rest :: Stops(rest) ==> Choice(w + rest) == Done([c], |w|)
  }

  lemma ChoiceInValue(s: string)
    requires s != ""
    ensures ParseValue(s) == Wrap(ValueRule, s, Choice(s))
  {
    hide ParseString, ParseNumber, ParseBool, ParseNull, ParseList;
  }

  lemma BodyInValue(w: string, c: Node)
    requires BodyReads(w, c)
    ensures w != "" && ItemReads(InArray, w, ValueNode(w, c))
  {
    forall rest | Stops(rest) ensures ParseItem(InArray, w + rest) == Done([ValueNode(w, c)], |w|) {
      var s := w + rest;
      ChoiceInValue(s);
      assert s[..|w|] == w;
      assert Choice(s) == Done([c], |w|);
      hide Choice, ParseValue;
    }
  }

  // What the inner rule of a number, a bool or null leaves.
  function WordNode(rule: Rule, w: string): Node {
    Node(rule, Untagged, w, false, [Node(OtherRule, Untagged, w, false, [])])
  }

  lemma WordWraps(rule: Rule, w: string, rest: string)
    ensures Wrap(rule, w + rest, Wrap(OtherRule, w + rest, Done([], |w|))) == Done([WordNode(rule, w)], |w|)
  {
    assert (w + rest)[..|w|] == w;
  }

  lemma NumberStart(w: string)
    requires Json.IsNumber(w)
    ensures w != "" && (w[0] == '-' || IsDigit(w[0])) && Begins(InArray, w)
  {
    hide Json.IsFraction;
  }

  lemma NumberChosen(w: string, rest: string)
    requires Json.IsNumber(w) && Stops(rest)
    ensures Choice(w + rest) == Done([WordNode(NumberRule, w)], |w|)
  {
    hide NumberText, ParseString, ParseBool, ParseNull, ParseList, Choice, Json.IsNumber, WordNode, Stops;
    NumberStart(w);
    ChoiceIs(w + rest);
    NumberReads(w, rest);
    WordWraps(NumberRule, w, rest);
  }

  lemma NumberWordReads(w: string)
    requires Json.IsNumber(w)
    ensures BodyReads(w, WordNode(NumberRule, w))
  {
    NumberStart(w);
    hide Choice, WordNode, Json.IsNumber, Stops, Begins;
    forall rest | Stops(rest) ensures Choice(w + rest) == Done([WordNode(NumberRule, w)], |w|) {
      NumberChosen(w, rest);
    }
  }

  lemma BoolChosen(b: bool, rest: string)
    ensures var w := Written(Json.Bool(b)); Choice(w + rest) == Done([WordNode(BoolRule, w)], |w|)
  {
    var w := Written(Json.Bool(b));
    assert w == if b then "true" else "false";
    hide ParseString, ParseNumber, ParseNull, ParseList, Choice, WordNode;
    ChoiceIs(w + rest);
    WordWraps(BoolRule, w, rest);
    OtherStart("true", w + rest);
    assert w <= w + rest;
  }

  lemma BoolReads(b: bool)
    ensures var w := Written(Json.Bool(b)); BodyReads(w, WordNode(BoolRule, w))
  {
    hide Choice, WordNode;
    forall rest: string {
      BoolChosen(b, rest);
    }
  }

  lemma NullChosen(rest: string)
    ensures Choice("null" + rest) == Done([WordNode(NullRule, "null")], |"null"|)
  {
    hide ParseString, ParseNumber, ParseBool, ParseList, Choice, WordNode;
    ChoiceIs("null" + rest);
    WordWraps(NullRule, "null", rest);
    assert "null" <= "null" + rest;
  }

  lemma NullReads()
    ensures BodyReads("null", WordNode(NullRule, "null"))
  {
    hide Choice, WordNode;
    forall rest: string {
      NullChosen(rest);
    }
  }

  function StringNode(x: string): Node {
    Node(StringRule, Untagged, QUOTE + x + QUOTE, false, [Node(StringContent, Untagged, x, false, [])])
  }

  lemma QuoteBehind(x: string, rest: string)
    ensures var t := x + QUOTE + rest; t[..|x|] == x && QuoteAt(t, |x|)
    ensures (QUOTE + (x + QUOTE + rest))[..|QUOTE + x + QUOTE|] == QUOTE + x + QUOTE
  {
    assert (x + QUOTE + rest)[|x|..] == QUOTE + rest;
  }

  lemma QuotedParses(x: string, rest: string)
    requires NoQuote(x)
    ensures ParseString(QUOTE + (x + QUOTE + rest)) == Done([StringNode(x)], |QUOTE + x + QUOTE|)
  {
    var t := x + QUOTE + rest;
    hide StringRest, Until, ParseString, NoQuote, QuoteAt;
    StringIs(t);
    UntilReads(x, rest);
    StringRestIs(t);
    QuoteBehind(x, rest);
    var r := StringRest(t);
    assert r.nodes == [r.nodes[0]];
  }

  lemma StringChosen(x: string, rest: string)
    requires NoQuote(x)
    ensures Choice(QUOTE + x + QUOTE + rest) == Done([StringNode(x)], |QUOTE + x + QUOTE|)
  {
    var s := QUOTE + x + QUOTE + rest;
    assert s == QUOTE + (x + QUOTE + rest);
    assert s[0] == '<';
    hide *;
    ChoiceIs(s);
    QuotedParses(x, rest);
  }

  lemma QuotedReads(x: string)
    requires NoQuote(x)
    ensures BodyReads(QUOTE + x + QUOTE, StringNode(x))
  {
    hide Choice, NoQuote, StringNode;
    forall rest: string {
      StringChosen(x, rest);
    }
  }

  lemma ListBodyReads(kind: Kind, ws: seq<string>, ns: seq<Node>)
    requires ItemsRead(kind, ws, ns)
    ensures BodyReads(ListText(kind, ws), ListNode(kind, ws, ns))
  {
    var w := ListText(kind, ws);
    forall rest | Stops(rest) ensures Choice(w + rest) == Done([ListNode(kind, ws, ns)], |w|) {
      ListParses(kind, ws, ns, rest);
      ChoiceIs(w + rest);
      assert (w + rest)[0] == Opener(kind)[0];
      hide ParseString, ParseNumber, ParseBool, ParseNull, ParseList, Choice, ListText, ListNode;
    }
    hide Choice;
  }

  function KeyNode(name: string): Node {
    Node(DictKey, Untagged, name + ":", false, [Node(DictKeyName, Untagged, name, false, [])])
  }

  lemma KeyInFront(name: string, w: string, rest: string)
    requires IsName(name) && Begins(InArray, w)
    ensures var s, k := name + ":" + (w + rest), |name| + 1;
      ParseKey(s) == Done([KeyNode(name)], k) && Skip(s, k) == k && s[k..] == w + rest
  {
    KeyReadsIff(name, w + rest);
    assert (name + ":" + (w + rest))[|name| + 1..] == w + rest;
    hide ParseKey;
  }

  lemma ValueIsBehind(key: Node, k: nat, s: string, n: Node, len: nat)
    requires 0 < k <= |s| && Skip(s, k) == k && ParseValue(s[k..]) == Done([n], len)
    ensures ValueBehind(Done([key], k), s) == Done([key, n], k + len)
  {
    hide ParseValue, Skip;
  }

  lemma PairFrom(s: string, r: Parse)
    requires ParseKey(s).Done? && r == ValueBehind(ParseKey(s), s)
    ensures ParsePair(s) == Wrap(DictKv, s, r)
  {
    hide ParseKey, ValueBehind;
  }

  lemma PairParses(name: string, w: string, n: Node, rest: string)
    requires IsName(name) && Begins(InArray, w) && ParseValue(w + rest) == Done([n], |w|)
    ensures ParsePair(name + ":" + (w + rest)) == Done([PairNode(name, w, n)], |name + ":" + w|)
  {
    var s, k := name + ":" + (w + rest), |name| + 1;
    hide ParsePair, ParseKey, ParseValue, ValueBehind, Skip, IsName, Begins, KeyNode;
    KeyInFront(name, w, rest);
    ValueIsBehind(KeyNode(name), k, s, n, |w|);
    PairFrom(s, Done([KeyNode(name), n], k + |w|));
    assert s[..|name + ":" + w|] == name + ":" + w;
  }

  lemma PairReads(name: string, w: string, n: Node)
    requires IsName(name) && ItemReads(InArray, w, n)
    ensures ItemReads(InDict, name + ":" + w, PairNode(name, w, n))
  {
    var text := name + ":" + w;
    assert Begins(InDict, text);
    forall rest | Stops(rest) ensures ParseItem(InDict, text + rest) == Done([PairNode(name, w, n)], |text|) {
      hide *;
      PairItemParses(name, w, n, rest);
    }
    hide ParseItem, PairNode, IsName, Begins;
  }

  lemma ItemIs(s: string)
    ensures ParseItem(InArray, s) == ParseValue(s) && ParseItem(InDict, s) == ParsePair(s)
  {
    hide ParseValue, ParsePair;
  }

  lemma PairItemParses(name: string, w: string, n: Node, rest: string)
    requires IsName(name) && ItemReads(InArray, w, n) && Stops(rest)
    ensures var text := name + ":" + w; ParseItem(InDict, text + rest) == Done([PairNode(name, w, n)], |text|)
  {
    hide *;
    ItemParses(InArray, w, n, rest);
    ItemIs(w + rest);
    PairParses(name, w, n, rest);
    assert name + ":" + w + rest == name + ":" + (w + rest);
    ItemIs(name + ":" + (w + rest));
  }

  function PairNode(name: string, w: string, n: Node): Node {
    Node(DictKv, Untagged, name + ":" + w, false, [KeyNode(name), n])
  }

  // The body of a value that stands for v.
  predicate IsBodyOf(c: Node, v: Json.Value) {
    IsValue(ValueNode("-", c)) && ValueOf(ValueNode("-", c)) == v
  }

  lemma BodyOfValue(w: string, c: Node, v: Json.Value)
    requires w != "" && IsBodyOf(c, v)
    ensures IsValue(ValueNode(w, c)) && ValueOf(ValueNode(w, c)) == v
  {
    hide Json.IsNumber;
  }

  lemma ScalarParses(v: Json.Value) returns (c: Node)
    requires Writable(v) && !v.Array? && !v.Object?
    ensures IsBodyOf(c, v) && BodyReads(Written(v), c)
  {
    hide BodyReads, Json.IsNumber, NoQuote;
    match v {
      case Null =>
        c := WordNode(NullRule, "null");
        NullReads();
      case Bool(b) =>
        c := WordNode(BoolRule, Written(v));
        BoolReads(b);
      case Number(w) =>
        c := WordNode(NumberRule, w);
        NumberWordReads(w);
      case String(x) =>
        c := StringNode(x);
        QuotedReads(x);
    }
  }

  /** What is written is read back: the tree stands for the value, whatever comes behind it. */
  lemma {:induction false} WrittenParses(v: Json.Value) returns (n: Node)
    requires Writable(v)
    ensures IsValue(n) && ValueOf(n) == v && ItemReads(InArray, Written(v), n)
    decreases v
  {
    var c: Node;
    if v.Array? {
      c := ArrayParses(v.elems);
    } else if v.Object? {
      c := ObjectParses(v.members);
    } else {
      c := ScalarParses(v);
    }
    hide BodyReads, ItemReads, IsBodyOf, Writable, Joined, WrittenElems, WrittenMembers;
    BodyInValue(Written(v), c);
    BodyOfValue(Written(v), c, v);
    n := ValueNode(Written(v), c);
  }

  lemma ArrayIsBody(ws: seq<string>, ns: seq<Node>)
    requires AreValues(ns)
    ensures IsBodyOf(ListNode(InArray, ws, ns), Json.Array(ValuesOf(ns)))
  {
    hide Joined;
  }

  lemma DictIsBody(ws: seq<string>, ns: seq<Node>)
    requires AreMembers(ns)
    ensures IsBodyOf(ListNode(InDict, ws, ns), Json.Object(MembersOf(ns)))
  {
    hide Joined;
  }

  lemma {:induction false} ArrayParses(vs: seq<Json.Value>) returns (c: Node)
    requires AllWritable(vs)
    ensures IsBodyOf(c, Json.Array(vs))
    ensures BodyReads("[" + Joined(WrittenElems(vs)) + "]", c)
    decreases vs, 1
  {
    var ns := ElemsParse(vs);
    var ws := WrittenElems(vs);
    hide ItemsRead, BodyReads, WrittenElems, AreValues, ValuesOf, Joined, IsBodyOf, ListNode;
    ArrayIsBody(ws, ns);
    ListBodyReads(InArray, ws, ns);
    c := ListNode(InArray, ws, ns);
  }

  lemma {:induction false} ObjectParses(ms: seq<(string, Json.Value)>) returns (c: Node)
    requires MembersWritable(ms)
    ensures IsBodyOf(c, Json.Object(ms))
    ensures BodyReads("{" + Joined(WrittenMembers(ms)) + "}", c)
    decreases ms, 1
  {
    var ns := MembersParse(ms);
    var ws := WrittenMembers(ms);
    hide ItemsRead, BodyReads, WrittenMembers, AreMembers, MembersOf, Joined, IsBodyOf, ListNode;
    DictIsBody(ws, ns);
    ListBodyReads(InDict, ws, ns);
    c := ListNode(InDict, ws, ns);
  }

  lemma MoreItems(kind: Kind, w: string, n: Node, ws: seq<string>, ns: seq<Node>)
    requires ItemReads(kind, w, n) && ItemsRead(kind, ws, ns)
    ensures ItemsRead(kind, [w] + ws, [n] + ns)
  {
    hide ItemReads;
  }

  lemma MoreMembers(n: Node, ns: seq<Node>)
    requires IsMember(n) && AreMembers(ns)
    ensures AreMembers([n] + ns)
    ensures MembersOf([n] + ns) == [(n.children[0].children[0].text, ValueOf(n.children[1]))] + MembersOf(ns)
  {
    assert ([n] + ns)[1..] == ns;
    hide IsValue, IsKey, ValueOf;
  }

  lemma {:induction false} ElemsParse(vs: seq<Json.Value>) returns (ns: seq<Node>)
    requires AllWritable(vs)
    ensures AreValues(ns) && ValuesOf(ns) == vs && ItemsRead(InArray, WrittenElems(vs), ns)
    decreases vs, 0
  {
    ns := [];
    if vs != [] {
      var n := WrittenParses(vs[0]);
      var more := ElemsParse(vs[1..]);
      hide ItemReads, ItemsRead, IsValue, ValueOf, Written;
      MoreItems(InArray, Written(vs[0]), n, WrittenElems(vs[1..]), more);
      ns := [n] + more;
      assert ns[1..] == more;
    }
  }

  lemma FirstMember(ms: seq<(string, Json.Value)>)
    requires MembersWritable(ms) && ms != []
    ensures MemberWritable(ms[0]) && MembersWritable(ms[1..]) && ms == [ms[0]] + ms[1..]
    ensures WrittenMembers(ms) == [WrittenMember(ms[0])] + WrittenMembers(ms[1..])
  {
    hide MemberWritable, WrittenMember;
  }

  lemma NoMembers()
    ensures AreMembers([]) && MembersOf([]) == [] && ItemsRead(InDict, WrittenMembers([]), [])
  {
  }

  lemma {:induction false} MembersParse(ms: seq<(string, Json.Value)>) returns (ns: seq<Node>)
    requires MembersWritable(ms)
    ensures AreMembers(ns) && MembersOf(ns) == ms && ItemsRead(InDict, WrittenMembers(ms), ns)
    decreases ms, 0
  {
    hide *;
    ns := [];
    if ms == [] {
      NoMembers();
    } else {
      FirstMember(ms);
      var n := MemberParses(ms[0]);
      var more := MembersParse(ms[1..]);
      MoreItems(InDict, WrittenMember(ms[0]), n, WrittenMembers(ms[1..]), more);
      MoreMembers(n, more);
      ns := [n] + more;
    }
  }

  lemma {:induction false} MemberParses(m: (string, Json.Value)) returns (n: Node)
    requires MemberWritable(m)
    ensures IsMember(n) && (n.children[0].children[0].text, ValueOf(n.children[1])) == m
    ensures ItemReads(InDict, WrittenMember(m), n)
    decreases m
  {
    assert m.1 < m;
    var v := WrittenParses(m.1);
    PairReads(m.0, Written(m.1), v);
    hide ItemReads, Written;
    n := PairNode(m.0, Written(m.1), v);
  }
}
