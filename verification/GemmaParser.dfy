/** How the arguments of a Gemma 4 tool call are parsed while the text is still growing, and why every parse is a cut of
    the later ones. */
module GemmaParser {
  import opened Text
  import opened Json
  import opened Gemma

  // What a rule makes of the rest of the text: it fails, it has read everything and needs more, or it ends.
  datatype Parse = Fail | More(nodes: seq<Node>) | Done(nodes: seq<Node>, len: nat)

  const QUOTE := "<|\"|>"

  // ---------- the building blocks ----------

  function Literal(lit: string, s: string): Parse {
    if lit <= s then Done([], |lit|) else if s <= lit then More([]) else Fail
  }

  function SpaceLen(s: string): (n: nat)
    ensures n <= |s|
  {
    if s == "" || !IsSpace(s[0]) then 0 else 1 + SpaceLen(s[1..])
  }

  // Behind k characters and the white space that follows them.
  function Skip(s: string, k: nat): (n: nat)
    requires k <= |s|
    ensures k <= n <= |s|
  {
    k + SpaceLen(s[k..])
  }

  // What follows behind `used` characters that gave the nodes ns.
  function After(ns: seq<Node>, used: nat, r: Parse): Parse {
    match r
    case Fail => Fail
    case More(ms) => More(ns + ms)
    case Done(ms, n) => Done(ns + ms, used + n)
  }

  // A rule puts a node around what its body gives.
  function Wrap(rule: Rule, s: string, r: Parse): (w: Parse)
    requires r.Done? ==> r.len <= |s|
    ensures !w.Fail? ==> |w.nodes| == 1
    ensures w.Done? ==> w.len <= |s|
  {
    match r
    case Fail => Fail
    case More(ns) => More([Node(rule, Untagged, s, true, ns)])
    case Done(ns, n) => Done([Node(rule, Untagged, s[..n], false, ns)], n)
  }

  // One of the marks begins the text.
  predicate Marked(marks: seq<string>, s: string) {
    exists m :: m in marks && m <= s
  }

  // One of them does, or may when there is more of the text.
  predicate MayMark(marks: seq<string>, s: string) {
    Marked(marks, s) || exists m :: m in marks && s <= m
  }

  // Up to the first mark, or up to what may become one.
  function Until(marks: seq<string>, s: string): (r: Parse)
    ensures !r.Fail? && r.nodes == [] && (r.Done? ==> r.len < |s|)
  {
    if s == "" then More([]) else if MayMark(marks, s) then Done([], 0) else After([], 1, Until(marks, s[1..]))
  }

  method ScanUntil(marks: seq<string>, s: string) returns (r: Parse)
    ensures r == Until(marks, s)
  {
    hide MayMark;
    var pos := 0;
    assert s[0..] == s;
    while pos < |s|
      invariant pos <= |s|
      invariant Until(marks, s) == After([], pos, Until(marks, s[pos..]))
    {
      if MayMark(marks, s[pos..]) {
        return Done([], pos);
      }
      assert s[pos..][1..] == s[pos + 1..];
      pos := pos + 1;
    }
    return More([]);
  }

  // ---------- numbers ----------

  // Numbers end in front of a character that cannot go on with them.
  function NumberEnd(s: string): Parse {
    if s == "" then More([]) else if NumberChar(s[0]) then Fail else Done([], 0)
  }

  function ExponentPart(s: string): (r: Parse)
    ensures r.Done? ==> r.len <= |s|
  {
    if s != "" && (s[0] == 'e' || s[0] == 'E') then
      var sign := if |s| > 1 && (s[1] == '+' || s[1] == '-') then 2 else 1;
      var k := DigitsLen(s[sign..]);
      if k > 0 then After([], sign + k, NumberEnd(s[sign + k..]))
      else if s[sign..] == "" then More([])
      else NumberEnd(s)
    else NumberEnd(s)
  }

  function FractionPart(s: string): (r: Parse)
    ensures r.Done? ==> r.len <= |s|
  {
    if s != "" && s[0] == '.' then
      var k := DigitsLen(s[1..]);
      if k > 0 then After([], 1 + k, ExponentPart(s[1 + k..]))
      else if s[1..] == "" then More([])
      else ExponentPart(s)
    else ExponentPart(s)
  }

  function IntegerPart(s: string): (r: Parse)
    ensures r.Done? ==> 0 < r.len <= |s|
  {
    if s == "" then More([])
    else if !IsDigit(s[0]) then Fail
    else
      var k := if s[0] == '0' then 1 else DigitsLen(s);
      After([], k, FractionPart(s[k..]))
  }

  function NumberText(s: string): (r: Parse)
    ensures r.Done? ==> 0 < r.len <= |s|
  {
    if s != "" && s[0] == '-' then After([], 1, IntegerPart(s[1..])) else IntegerPart(s)
  }

  // ---------- values ----------

  function ParseNumber(s: string): Parse {
    Wrap(NumberRule, s, Wrap(OtherRule, s, NumberText(s)))
  }

  function ParseBool(s: string): Parse {
    Wrap(BoolRule, s, Wrap(OtherRule, s, BoolText(s)))
  }

  function BoolText(s: string): Parse {
    var r := Literal("true", s);
    if r.Fail? then Literal("false", s) else r
  }

  function ParseNull(s: string): Parse {
    Wrap(NullRule, s, Wrap(OtherRule, s, Literal("null", s)))
  }

  function StringRest(s: string): (r: Parse)
    ensures r.Done? ==> r.len <= |s|
  {
    var c := Wrap(StringContent, s, Until([QUOTE], s));
    if c.Done? then After(c.nodes, c.len, Literal(QUOTE, s[c.len..])) else c
  }

  function ParseString(s: string): Parse {
    var q := Literal(QUOTE, s);
    Wrap(StringRule, s, if q.Done? then After([], q.len, StringRest(s[q.len..])) else q)
  }

  predicate InKey(c: char) {
    c != ':' && c != '}'
  }

  function KeyLen(s: string): (n: nat)
    ensures n <= |s|
  {
    if s == "" || !InKey(s[0]) then 0 else 1 + KeyLen(s[1..])
  }

  function ParseKeyName(s: string): Parse {
    var n := KeyLen(s);
    Wrap(DictKeyName, s, if n > 0 then Done([], n) else if s == "" then More([]) else Fail)
  }

  function ParseKey(s: string): (r: Parse)
    ensures !r.Fail? ==> |r.nodes| == 1
    ensures r.Done? ==> 0 < r.len <= |s|
  {
    var name := ParseKeyName(s);
    Wrap(DictKey, s, if name.Done? then After(name.nodes, name.len, Literal(":", s[name.len..])) else name)
  }

  function ParsePair(s: string): (r: Parse)
    ensures !r.Fail? ==> |r.nodes| == 1
    ensures r.Done? ==> 0 < r.len <= |s|
    decreases |s|, 2
  {
    var key := ParseKey(s);
    Wrap(DictKv, s, if key.Done? then ValueBehind(key, s) else key)
  }

  function ValueBehind(key: Parse, s: string): (r: Parse)
    requires key.Done? && 0 < key.len <= |s|
    ensures r.Done? ==> 0 < r.len <= |s|
    decreases |s|, 1
  {
    var from := Skip(s, key.len);
    After(key.nodes, from, ParseValue(s[from..]))
  }

  // The first alternative that does not fail.
  function ParseValue(s: string): (r: Parse)
    ensures !r.Fail? ==> |r.nodes| == 1
    ensures r.Done? ==> 0 < r.len <= |s|
    decreases |s|, 3
  {
    Wrap(ValueRule, s,
         if !ParseString(s).Fail? then ParseString(s)
         else if !ParseList(InDict, s).Fail? then ParseList(InDict, s)
         else if !ParseList(InArray, s).Fail? then ParseList(InArray, s)
         else if !ParseNumber(s).Fail? then ParseNumber(s)
         else if !ParseBool(s).Fail? then ParseBool(s)
         else ParseNull(s))
  }

  // ---------- arrays and dictionaries ----------

  datatype Kind = InArray | InDict

  function Opener(kind: Kind): string {
    if kind.InArray? then "[" else "{"
  }

  function Closer(kind: Kind): string {
    if kind.InArray? then "]" else "}"
  }

  function ParseItem(kind: Kind, s: string): (r: Parse)
    ensures !r.Fail? ==> |r.nodes| == 1
    ensures r.Done? ==> 0 < r.len <= |s|
    decreases |s|, 4
  {
    if kind.InArray? then ParseValue(s) else ParsePair(s)
  }

  function ParseList(kind: Kind, s: string): (r: Parse)
    ensures !r.Fail? ==> |r.nodes| == 1
    ensures r.Done? ==> 0 < r.len <= |s|
    decreases |s|, 2
  {
    var open := Literal(Opener(kind), s);
    Wrap(if kind.InArray? then ArrayRule else DictRule, s, if open.Done? then ListRest(kind, s) else open)
  }

  function ListRest(kind: Kind, s: string): (r: Parse)
    requires s != ""
    ensures r.Done? ==> 0 < r.len <= |s|
    decreases |s|, 1
  {
    var from := Skip(s, 1);
    After([], from, ListBody(kind, s[from..]))
  }

  // Nothing, or items, up to the closing bracket.
  function ListBody(kind: Kind, s: string): (r: Parse)
    ensures r.Done? ==> r.len <= |s|
    decreases |s|, 5
  {
    var close := Literal(Closer(kind), s);
    if !close.Fail? then close
    else
      var item := ParseItem(kind, s);
      if item.Done? then After(item.nodes, item.len, ListTail(kind, s[item.len..])) else item
  }

  // Further items, each behind a comma, as long as they do not fail, and the closing bracket.
  function ListTail(kind: Kind, s: string): (r: Parse)
    ensures r.Done? ==> r.len <= |s|
    decreases |s|, 5
  {
    if s != "" && s[0] == ',' then
      var from := Skip(s, 1);
      TailBehind(kind, s, from, ParseItem(kind, s[from..]))
    else ListEnd(kind, s)
  }

  function TailBehind(kind: Kind, s: string, from: nat, item: Parse): (r: Parse)
    requires item.Done? ==> 0 < item.len && from + item.len <= |s|
    ensures r.Done? ==> r.len <= |s|
    decreases |s|, 4
  {
    match item
    case Fail => ListEnd(kind, s)
    case More(_) => item
    case Done(ns, n) => After(ns, from + n, ListTail(kind, s[from + n..]))
  }

  function ListEnd(kind: Kind, s: string): (r: Parse)
    ensures r.Done? ==> r.len <= |s|
  {
    After([], Skip(s, 0), Literal(Closer(kind), s[Skip(s, 0)..]))
  }

  // ---------- more of the text ----------

  // x is what a rule makes of p, and y what it makes of a text t that goes on behind p. What has failed or ended stays
  // as it is; otherwise the nodes are a cut of the later ones, unless the longer text turns out not to fit.
  predicate Follows(p: string, t: string, x: Parse, y: Parse) {
    match x
    case Fail => y.Fail?
    case Done(_, n) => y == x && n <= |p|
    case More(ns) => y.Fail? || (CutList(ns, y.nodes) && (y.Done? ==> |p| <= y.len <= |t|))
  }

  lemma {:induction false} CutListBehind(ns: seq<Node>, xs: seq<Node>, ys: seq<Node>)
    requires CutList(xs, ys)
    ensures CutList(ns + xs, ns + ys)
  {
    if ns == [] {
      assert ns + xs == xs && ns + ys == ys;
    } else {
      assert (ns + xs)[1..] == ns[1..] + xs && (ns + ys)[1..] == ns[1..] + ys;
      CutListBehind(ns[1..], xs, ys);
      assert |ns + xs| == 1 ==> Cut(ns[0], ns[0]);
    }
  }

  // A node and more nodes behind it.
  lemma {:induction false} CutListMore(xs: seq<Node>, ys: seq<Node>, more: seq<Node>)
    requires CutList(xs, ys)
    ensures CutList(xs, ys + more)
  {
    if xs != [] {
      assert (ys + more)[0] == ys[0] && (ys + more)[1..] == ys[1..] + more;
      if |xs| > 1 {
        CutListMore(xs[1..], ys[1..], more);
      }
    }
  }

  // What comes behind the same beginning.
  lemma AfterFollows(p: string, t: string, ns: seq<Node>, n: nat, x: Parse, y: Parse)
    requires p <= t && n <= |p| && Follows(p[n..], t[n..], x, y)
    ensures Follows(p, t, After(ns, n, x), After(ns, n, y))
  {
    if x.More? && !y.Fail? {
      CutListBehind(ns, x.nodes, y.nodes);
    }
  }

  lemma Rest(p: string, t: string, n: nat)
    requires p <= t && n <= |p|
    ensures p[n..] <= t[n..]
  {
  }

  lemma {:induction false} SpaceFollows(p: string, t: string)
    requires p <= t
    ensures SpaceLen(p) <= SpaceLen(t)
    ensures SpaceLen(p) < |p| ==> SpaceLen(t) == SpaceLen(p)
  {
    if p != "" && IsSpace(p[0]) {
      Rest(p, t, 1);
      SpaceFollows(p[1..], t[1..]);
    }
  }

  lemma SkipFollows(p: string, t: string, k: nat)
    requires p <= t && k <= |p|
    ensures Skip(p, k) <= Skip(t, k) && p[Skip(p, k)..] <= t[Skip(t, k)..]
    ensures Skip(p, k) < |p| ==> Skip(t, k) == Skip(p, k)
  {
    Rest(p, t, k);
    SpaceFollows(p[k..], t[k..]);
    Rest(p, t, Skip(p, k));
  }

  lemma AfterSpaceFollows(p: string, t: string, ns: seq<Node>, k: nat, x: Parse, y: Parse)
    requires p <= t && k <= |p|
    requires Follows(p[Skip(p, k)..], t[Skip(t, k)..], x, y) && (Skip(p, k) == |p| ==> x.More?)
    ensures Follows(p, t, After(ns, Skip(p, k), x), After(ns, Skip(t, k), y))
  {
    SkipFollows(p, t, k);
    hide Skip;
    if x.More? && !y.Fail? {
      CutListBehind(ns, x.nodes, y.nodes);
    }
  }

  lemma WrapFollows(rule: Rule, p: string, t: string, x: Parse, y: Parse)
    requires p <= t && Follows(p, t, x, y) && (y.Done? ==> y.len <= |t|)
    ensures Follows(p, t, Wrap(rule, p, x), Wrap(rule, t, y))
  {
    match x
    case Fail =>
    case Done(ns, n) => assert p[..n] == t[..n];
    case More(ns) =>
      if !y.Fail? {
        var a, b := Wrap(rule, p, x).nodes[0], Wrap(rule, t, y).nodes[0];
        assert Cut(a, b);
      }
  }

  lemma LiteralFollows(lit: string, p: string, t: string)
    requires p <= t && lit != ""
    ensures Follows(p, t, Literal(lit, p), Literal(lit, t))
  {
    if lit <= p {
      assert lit <= t;
    } else if p <= lit {
    } else {
      var i :| 0 <= i < |p| && i < |lit| && p[i] != lit[i];
      assert t[i] == p[i];
    }
  }

  // ---------- more of a number, a string or a key ----------

  lemma {:induction false} DigitsFollow(p: string, t: string)
    requires p <= t
    ensures DigitsLen(p) <= DigitsLen(t)
    ensures DigitsLen(p) < |p| ==> DigitsLen(t) == DigitsLen(p)
  {
    if p != "" && IsDigit(p[0]) {
      Rest(p, t, 1);
      DigitsFollow(p[1..], t[1..]);
    }
  }

  // Unfinished numbers have read everything, and nothing is known of the rest.
  lemma NothingFollows(p: string, t: string, y: Parse)
    requires p == "" && (y.Done? ==> y.len <= |t|)
    ensures Follows(p, t, More([]), y)
  {
  }

  // p has been read to its end, and t at least as far.
  lemma BeyondFollows(p: string, t: string, n: nat, y: Parse)
    requires |p| <= n <= |t| && (y.Done? ==> y.len <= |t| - n)
    ensures Follows(p, t, More([]), After([], n, y))
  {
  }

  lemma NumberEndFollows(p: string, t: string)
    requires p <= t
    ensures Follows(p, t, NumberEnd(p), NumberEnd(t))
  {
  }

  // Digits from n on, and the rest of the number behind them, which needs more if there is none.
  lemma DigitsThenFollows(p: string, t: string, n: nat, x: Parse, y: Parse)
    requires p <= t && n <= |p|
    requires var k, m := n + DigitsLen(p[n..]), n + DigitsLen(t[n..]);
      Follows(p[k..], t[m..], x, y) && (k == |p| ==> x == More([])) && (y.Done? ==> y.len <= |t| - m)
    ensures Follows(p, t, After([], n + DigitsLen(p[n..]), x), After([], n + DigitsLen(t[n..]), y))
  {
    Rest(p, t, n);
    DigitsFollow(p[n..], t[n..]);
    var k, m := n + DigitsLen(p[n..]), n + DigitsLen(t[n..]);
    hide DigitsLen, Follows;
    if k < |p| {
      AfterFollows(p, t, [], k, x, y);
    } else {
      BeyondFollows(p, t, m, y);
      assert After([], k, x) == More([]);
    }
  }

  lemma DigitsRest(p: string, t: string, n: nat)
    requires p <= t && n <= |p|
    ensures p[n + DigitsLen(p[n..])..] <= t[n + DigitsLen(t[n..])..]
  {
    Rest(p, t, n);
    DigitsFollow(p[n..], t[n..]);
  }

  predicate IsExponentMark(s: string) {
    s != "" && (s[0] == 'e' || s[0] == 'E')
  }

  lemma ExponentFollows(p: string, t: string)
    requires p <= t
    ensures Follows(p, t, ExponentPart(p), ExponentPart(t))
  {
    if p == "" {
      NothingFollows(p, t, ExponentPart(t));
    } else if !IsExponentMark(p) {
      NumberEndFollows(p, t);
    } else if |p| == 1 {
      LoneMark(p, t);
    } else {
      var n := if p[1] == '+' || p[1] == '-' then 2 else 1;
      assert t[1] == p[1] && t[0] == p[0];
      ExponentDigits(p, t, n);
    }
  }

  // Behind the mark of an exponent nothing is known, or the number fails.
  lemma LoneMark(p: string, t: string)
    requires p <= t && |p| == 1 && IsExponentMark(p)
    ensures Follows(p, t, ExponentPart(p), ExponentPart(t))
  {
    assert ExponentPart(p) == More([]);
    assert t[0] == p[0];
  }

  lemma ExponentDigits(p: string, t: string, n: nat)
    requires p <= t && |p| > 1 && IsExponentMark(p)
    requires n == if p[1] == '+' || p[1] == '-' then 2 else 1
    ensures Follows(p, t, ExponentPart(p), ExponentPart(t))
  {
    Rest(p, t, n);
    DigitsFollow(p[n..], t[n..]);
    if DigitsLen(p[n..]) > 0 {
      DigitsRest(p, t, n);
      var x, y := NumberEnd(p[n + DigitsLen(p[n..])..]), NumberEnd(t[n + DigitsLen(t[n..])..]);
      NumberEndFollows(p[n + DigitsLen(p[n..])..], t[n + DigitsLen(t[n..])..]);
      DigitsThenFollows(p, t, n, x, y);
      hide Follows, DigitsLen, NumberEnd, After;
    } else if n < |p| {
      NumberEndFollows(p, t);
    } else if n < |t| && DigitsLen(t[n..]) == 0 {
      assert NumberEnd(t) == Fail;
    }
  }

  lemma FractionFollows(p: string, t: string)
    requires p <= t
    ensures Follows(p, t, FractionPart(p), FractionPart(t))
  {
    hide ExponentPart;
    NoExponentYet();
    if p == "" {
      NothingFollows(p, t, FractionPart(t));
    } else if p[0] != '.' {
      ExponentFollows(p, t);
    } else {
      assert t[0] == '.';
      FractionDigits(p, t);
    }
  }

  lemma FractionIs(s: string, k: nat)
    requires s != "" && s[0] == '.' && k == DigitsLen(s[1..])
    ensures k > 0 ==> FractionPart(s) == After([], 1 + k, ExponentPart(s[1 + k..]))
    ensures k == 0 ==> FractionPart(s) == if |s| == 1 then More([]) else ExponentPart(s)
  {
    hide ExponentPart, After;
  }

  lemma FractionDigits(p: string, t: string)
    requires p <= t && p != "" && p[0] == '.'
    ensures Follows(p, t, FractionPart(p), FractionPart(t))
  {
    assert t[0] == '.';
    Rest(p, t, 1);
    DigitsFollow(p[1..], t[1..]);
    var k, m := DigitsLen(p[1..]), DigitsLen(t[1..]);
    FractionIs(p, k);
    FractionIs(t, m);
    if k > 0 {
      hide *;
      FractionGoesOn(p, t, k, m);
    } else if |p| > 1 {
      hide *;
      ExponentFollows(p, t);
    } else {
      if |t| > 1 && m == 0 {
        DotAlone(t);
      }
      hide ExponentPart, FractionPart, DigitsLen;
    }
  }

  lemma FractionGoesOn(p: string, t: string, k: nat, m: nat)
    requires p <= t && p != "" && k == DigitsLen(p[1..]) && m == DigitsLen(t[1..])
    ensures Follows(p, t, After([], 1 + k, ExponentPart(p[1 + k..])), After([], 1 + m, ExponentPart(t[1 + m..])))
  {
    DigitsRest(p, t, 1);
    NoExponentYet();
    hide *;
    ExponentFollows(p[1 + k..], t[1 + m..]);
    DigitsThenFollows(p, t, 1, ExponentPart(p[1 + k..]), ExponentPart(t[1 + m..]));
  }

  lemma NoExponentYet()
    ensures ExponentPart("") == More([])
  {
  }

  // Behind a dot come digits, or the number fails.
  lemma DotAlone(t: string)
    requires t != "" && t[0] == '.'
    ensures ExponentPart(t) == Fail
  {
  }

  lemma IntegerFollows(p: string, t: string)
    requires p <= t
    ensures Follows(p, t, IntegerPart(p), IntegerPart(t))
  {
    hide FractionPart;
    if p == "" {
      NothingFollows(p, t, IntegerPart(t));
    } else if IsDigit(p[0]) {
      assert t[0] == p[0];
      if p[0] == '0' {
        Rest(p, t, 1);
        FractionFollows(p[1..], t[1..]);
        hide Follows;
        AfterFollows(p, t, [], 1, FractionPart(p[1..]), FractionPart(t[1..]));
      } else {
        IntegerDigits(p, t);
      }
    }
  }

  lemma IntegerDigits(p: string, t: string)
    requires p <= t && p != "" && IsDigit(p[0]) && p[0] != '0'
    ensures Follows(p, t, IntegerPart(p), IntegerPart(t))
  {
    hide FractionPart;
    assert p[0..] == p && t[0..] == t && t[0] == p[0];
    DigitsRest(p, t, 0);
    var x, y := FractionPart(p[DigitsLen(p)..]), FractionPart(t[DigitsLen(t)..]);
    FractionFollows(p[DigitsLen(p)..], t[DigitsLen(t)..]);
    NoFractionYet();
    DigitsThenFollows(p, t, 0, x, y);
    hide Follows, DigitsLen, After;
  }

  lemma NoFractionYet()
    ensures FractionPart("") == More([])
  {
  }

  lemma NumberFollows(p: string, t: string)
    requires p <= t && p != ""
    ensures Follows(p, t, NumberText(p), NumberText(t))
  {
    hide IntegerPart;
    if p[0] == '-' {
      Rest(p, t, 1);
      IntegerFollows(p[1..], t[1..]);
      hide Follows;
      AfterFollows(p, t, [], 1, IntegerPart(p[1..]), IntegerPart(t[1..]));
    } else {
      IntegerFollows(p, t);
    }
  }

  predicate MarkAt(marks: seq<string>, s: string, k: nat) {
    k < |s| && Marked(marks, s[k..])
  }

  predicate EndsAt(marks: seq<string>, s: string, k: nat) {
    k < |s| && MayMark(marks, s[k..])
  }

  lemma {:induction false} UntilIs(marks: seq<string>, s: string)
    ensures var r := Until(marks, s);
      && (forall k :: 0 <= k < (if r.Done? then r.len else |s|) ==> !EndsAt(marks, s, k))
      && (r.Done? ==> EndsAt(marks, s, r.len))
  {
    hide MayMark;
    if s != "" {
      assert s[0..] == s;
      if !EndsAt(marks, s, 0) {
        UntilIs(marks, s[1..]);
        forall k | 0 < k <= |s| ensures EndsAt(marks, s, k) == EndsAt(marks, s[1..], k - 1) {
          assert s[1..][k - 1..] == s[k..];
        }
      }
    }
  }

  lemma MarkFollows(marks: seq<string>, p: string, t: string)
    requires p <= t
    ensures MayMark(marks, t) ==> MayMark(marks, p)
    ensures Marked(marks, p) ==> Marked(marks, t)
  {
    if Marked(marks, t) {
      var m :| m in marks && m <= t;
      assert m <= p || p <= m;
    }
  }

  lemma EndsFollow(marks: seq<string>, p: string, t: string, k: nat)
    requires p <= t && k < |p|
    ensures EndsAt(marks, t, k) ==> EndsAt(marks, p, k)
    ensures MarkAt(marks, p, k) ==> MarkAt(marks, t, k)
  {
    Rest(p, t, k);
    MarkFollows(marks, p[k..], t[k..]);
  }

  // The first such place only moves back.
  lemma UntilFollows(marks: seq<string>, p: string, t: string)
    requires p <= t
    ensures var x, y := Until(marks, p), Until(marks, t);
      && (x.More? && y.Done? ==> |p| <= y.len)
      && (x.Done? && y.Done? ==> x.len <= y.len)
      && (x.Done? && MarkAt(marks, p, x.len) ==> y == x && MarkAt(marks, t, x.len))
  {
    UntilIs(marks, p);
    UntilIs(marks, t);
    var x, y := Until(marks, p), Until(marks, t);
    hide *;
    if y.Done? && y.len < |p| {
      EndsFollow(marks, p, t, y.len);
    }
    if x.Done? {
      EndsFollow(marks, p, t, x.len);
      MarkEnds(marks, t, x.len);
    }
  }

  lemma MarkEnds(marks: seq<string>, t: string, k: nat)
    ensures MarkAt(marks, t, k) ==> EndsAt(marks, t, k)
    ensures EndsAt(marks, t, k) ==> k < |t|
  {
  }

  predicate QuoteAt(s: string, k: nat) {
    k < |s| && QUOTE <= s[k..]
  }

  lemma OneMark(s: string, k: nat)
    ensures MarkAt([QUOTE], s, k) <==> QuoteAt(s, k)
  {
    if k < |s| {
      assert Marked([QUOTE], s[k..]) <==> QUOTE <= s[k..] by {
        assert QUOTE in [QUOTE];
      }
    }
  }

  // The content of a string, and how far it reaches when the quote behind it is complete.
  lemma StringRestIs(s: string)
    ensures var u, r := Until([QUOTE], s), StringRest(s);
      && !r.Fail? && |r.nodes| == 1
      && r.nodes[0] == Node(StringContent, Untagged, if u.Done? then s[..u.len] else s, u.More?, [])
      && (r.Done? <==> u.Done? && QuoteAt(s, u.len))
      && (r.Done? ==> r.len == u.len + |QUOTE|)
  {
    if Until([QUOTE], s).Done? {
      UntilIs([QUOTE], s);
      var c := Wrap(StringContent, s, Until([QUOTE], s));
      assert c.nodes + [] == c.nodes;
    }
  }

  lemma StringRestFollows(p: string, t: string)
    requires p <= t
    ensures Follows(p, t, StringRest(p), StringRest(t))
  {
    UntilFollows([QUOTE], p, t);
    StringRestIs(p);
    StringRestIs(t);
    var u, v := Until([QUOTE], p), Until([QUOTE], t);
    var x, y := StringRest(p), StringRest(t);
    hide StringRest, Until;
    if x.Done? {
      OneMark(p, u.len);
      OneMark(t, u.len);
      assert p[..u.len] == t[..v.len];
      assert QuoteAt(t, v.len);
      assert x.nodes == y.nodes;
    } else {
      assert Cut(x.nodes[0], y.nodes[0]);
    }
  }

  lemma StringFollows(p: string, t: string)
    requires p <= t
    ensures Follows(p, t, ParseString(p), ParseString(t))
  {
    LiteralFollows(QUOTE, p, t);
    var n := |QUOTE|;
    var x, y := Literal(QUOTE, p), Literal(QUOTE, t);
    var u := if x.Done? then After([], n, StringRest(p[n..])) else x;
    var v := if y.Done? then After([], n, StringRest(t[n..])) else y;
    hide StringRest;
    if x.Done? {
      StringRestFollows(p[n..], t[n..]);
      AfterFollows(p, t, [], n, StringRest(p[n..]), StringRest(t[n..]));
    }
    WrapFollows(StringRule, p, t, u, v);
  }

  lemma {:induction false} KeyLenFollows(p: string, t: string)
    requires p <= t
    ensures KeyLen(p) <= KeyLen(t)
    ensures KeyLen(p) < |p| ==> KeyLen(t) == KeyLen(p) && !InKey(p[KeyLen(p)])
    decreases |p|
  {
    if p != "" && InKey(p[0]) {
      KeyLenFollows(p[1..], t[1..]);
    }
  }

  // The name of a key, and whether the colon behind it has been seen.
  lemma KeyIs(s: string)
    ensures var n, r := KeyLen(s), ParseKey(s);
      && (r.Fail? <==> n < |s| && (n == 0 || s[n] != ':'))
      && (r.Done? <==> 0 < n < |s| && s[n] == ':')
      && (r.Done? ==> r.len == n + 1)
      && (!r.Fail? ==>
            var name := Node(DictKeyName, Untagged, s[..n], n == 0, []);
            r.nodes == [Node(DictKey, Untagged, if r.Done? then s[..n + 1] else s, r.More?, [name])])
  {
    var n := KeyLen(s);
    KeyLenFollows(s, s);
    var name := ParseKeyName(s);
    if name.Done? {
      assert name.nodes + [] == name.nodes;
      assert n < |s| ==> s[n..][0] == s[n];
      assert n < |s| && s[n] == ':' ==> ":" <= s[n..];
    }
  }

  lemma KeyFollows(p: string, t: string)
    requires p <= t
    ensures Follows(p, t, ParseKey(p), ParseKey(t))
  {
    KeyLenFollows(p, t);
    KeyIs(p);
    KeyIs(t);
    var x, y := ParseKey(p), ParseKey(t);
    var n, m := KeyLen(p), KeyLen(t);
    hide ParseKey;
    if x.Done? {
      assert p[..n + 1] == t[..m + 1] && p[..n] == t[..m];
    } else if x.More? && !y.Fail? {
      var a, b := x.nodes[0], y.nodes[0];
      assert Cut(a.children[0], b.children[0]);
      assert CutList(a.children, b.children);
      assert Cut(a, b);
    }
  }

  lemma ScalarsFollow(p: string, t: string)
    requires p <= t && p != ""
    ensures Follows(p, t, ParseNumber(p), ParseNumber(t))
    ensures Follows(p, t, ParseBool(p), ParseBool(t)) && Follows(p, t, ParseNull(p), ParseNull(t))
  {
    NumberFollows(p, t);
    BoolFollows(p, t);
    LiteralFollows("null", p, t);
    hide NumberText;
    WrapFollows(OtherRule, p, t, Literal("null", p), Literal("null", t));
    WrapFollows(NullRule, p, t, Wrap(OtherRule, p, Literal("null", p)), Wrap(OtherRule, t, Literal("null", t)));
    WrapFollows(OtherRule, p, t, NumberText(p), NumberText(t));
    WrapFollows(NumberRule, p, t, Wrap(OtherRule, p, NumberText(p)), Wrap(OtherRule, t, NumberText(t)));
  }

  lemma BoolFollows(p: string, t: string)
    requires p <= t && p != ""
    ensures Follows(p, t, ParseBool(p), ParseBool(t))
  {
    LiteralFollows("true", p, t);
    LiteralFollows("false", p, t);
    assert p[0] == t[0];
    assert Follows(p, t, BoolText(p), BoolText(t));
    WrapFollows(OtherRule, p, t, BoolText(p), BoolText(t));
    WrapFollows(BoolRule, p, t, Wrap(OtherRule, p, BoolText(p)), Wrap(OtherRule, t, BoolText(t)));
  }

  // ---------- more of a value ----------

  function Choice(s: string): Parse {
    if !ParseString(s).Fail? then ParseString(s)
    else if !ParseList(InDict, s).Fail? then ParseList(InDict, s)
    else if !ParseList(InArray, s).Fail? then ParseList(InArray, s)
    else if !ParseNumber(s).Fail? then ParseNumber(s)
    else if !ParseBool(s).Fail? then ParseBool(s)
    else ParseNull(s)
  }

  // The alternatives begin with different characters.
  lemma ChoiceIs(s: string)
    requires s != ""
    ensures Choice(s) ==
      if s[0] == '<' then ParseString(s)
      else if s[0] == '{' then ParseList(InDict, s)
      else if s[0] == '[' then ParseList(InArray, s)
      else if s[0] == '-' || IsDigit(s[0]) then ParseNumber(s)
      else if s[0] == 't' || s[0] == 'f' then ParseBool(s)
      else ParseNull(s)
  {
    OtherStart(QUOTE, s);
    OtherStart("{", s);
    OtherStart("[", s);
    OtherStart("true", s);
    OtherStart("false", s);
    OtherStart("null", s);
    hide Literal, StringRest, ListRest;
  }

  lemma OtherStart(lit: string, s: string)
    requires s != "" && lit != ""
    ensures s[0] != lit[0] ==> Literal(lit, s).Fail?
  {
  }

  // In front of a value a string is guessed.
  lemma ValueGuessed(t: string)
    ensures ParseValue("").More? && IsGuess(ParseValue("").nodes[0])
    ensures Follows("", t, ParseValue(""), ParseValue(t))
  {
    var x := ParseString("");
    assert x == More([Node(StringRule, Untagged, "", true, [])]);
    assert NoTags(x.nodes);
    assert ParseValue("") == More([Node(ValueRule, Untagged, "", true, x.nodes)]);
  }

  lemma {:induction false} ValueFollows(p: string, t: string)
    requires p <= t
    ensures Follows(p, t, ParseValue(p), ParseValue(t))
    decreases |p|, 3
  {
    if p == "" {
      ValueGuessed(t);
    } else {
      ChoiceIs(p);
      ChoiceIs(t);
      assert p[0] == t[0];
      StringFollows(p, t);
      ScalarsFollow(p, t);
      ListFollows(InDict, p, t);
      ListFollows(InArray, p, t);
      hide ParseString, ParseNumber, ParseBool, ParseNull, ParseList, Follows;
      assert ParseValue(p) == Wrap(ValueRule, p, Choice(p)) && ParseValue(t) == Wrap(ValueRule, t, Choice(t));
      WrapFollows(ValueRule, p, t, Choice(p), Choice(t));
    }
  }

  lemma {:induction false} BehindFollows(key: Parse, p: string, t: string)
    requires p <= t && key.Done? && 0 < key.len <= |p|
    ensures Follows(p, t, ValueBehind(key, p), ValueBehind(key, t))
    decreases |p|, 1
  {
    var k := key.len;
    SkipFollows(p, t, k);
    ValueGuessed("");
    hide ParseValue, Follows, Skip;
    ValueFollows(p[Skip(p, k)..], t[Skip(t, k)..]);
    AfterSpaceFollows(p, t, key.nodes, k, ParseValue(p[Skip(p, k)..]), ParseValue(t[Skip(t, k)..]));
  }

  lemma {:induction false} PairFollows(p: string, t: string)
    requires p <= t
    ensures Follows(p, t, ParsePair(p), ParsePair(t))
    decreases |p|, 2
  {
    KeyFollows(p, t);
    var x, y := ParseKey(p), ParseKey(t);
    var u := if x.Done? then ValueBehind(x, p) else x;
    var v := if y.Done? then ValueBehind(y, t) else y;
    hide ParseKey;
    if x.Done? {
      BehindFollows(x, p, t);
    } else if x.More? && y.Done? {
      MoreBehind(p, t, x, y, Skip(t, y.len), ParseValue(t[Skip(t, y.len)..]));
    }
    WrapFollows(DictKv, p, t, u, v);
  }

  // What was cut has ended in the longer text, and more comes behind it.
  lemma MoreBehind(p: string, t: string, x: Parse, y: Parse, n: nat, more: Parse)
    requires Follows(p, t, x, y) && x.More? && y.Done? && y.len <= n <= |t|
    requires more.Done? ==> more.len <= |t| - n
    ensures Follows(p, t, x, After(y.nodes, n, more))
  {
    if !more.Fail? {
      CutListMore(x.nodes, y.nodes, more.nodes);
    }
  }

  // ---------- more of a list ----------

  lemma ItemFollows(kind: Kind, p: string, t: string)
    requires p <= t
    ensures Follows(p, t, ParseItem(kind, p), ParseItem(kind, t))
    decreases |p|, 4
  {
    if kind.InArray? {
      ValueFollows(p, t);
    } else {
      PairFollows(p, t);
    }
  }

  lemma ItemGuessed(kind: Kind)
    ensures ParseItem(kind, "").More?
  {
    ValueGuessed("");
    KeyIs("");
    hide ParseValue, ParseKey;
  }

  lemma EndFollows(kind: Kind, p: string, t: string)
    requires p <= t
    ensures Follows(p, t, ListEnd(kind, p), ListEnd(kind, t))
  {
    SkipFollows(p, t, 0);
    var x, y := Literal(Closer(kind), p[Skip(p, 0)..]), Literal(Closer(kind), t[Skip(t, 0)..]);
    LiteralFollows(Closer(kind), p[Skip(p, 0)..], t[Skip(t, 0)..]);
    assert Skip(p, 0) == |p| ==> x.More?;
    hide Follows, Skip, Literal, After;
    AfterSpaceFollows(p, t, [], 0, x, y);
  }

  // A comma is no end.
  lemma CommaIsNoEnd(kind: Kind, s: string)
    requires s != "" && s[0] == ','
    ensures ListEnd(kind, s) == Fail
  {
    assert SpaceLen(s) == 0 && s[0..] == s;
  }

  lemma TailAt(kind: Kind, s: string)
    requires s != "" && s[0] == ','
    ensures ListTail(kind, s) == TailBehind(kind, s, Skip(s, 1), ParseItem(kind, s[Skip(s, 1)..]))
  {
    hide ParseItem, ListEnd, Skip, After, TailBehind;
  }

  // The tail behind a comma.
  lemma TailIs(kind: Kind, s: string, x: Parse)
    requires s != "" && s[0] == ',' && x == ParseItem(kind, s[Skip(s, 1)..])
    ensures x.Fail? ==> ListTail(kind, s) == Fail
    ensures x.More? ==> ListTail(kind, s) == x
    ensures x.Done? ==> var k := Skip(s, 1) + x.len; ListTail(kind, s) == After(x.nodes, k, ListTail(kind, s[k..]))
  {
    hide ParseItem, ListEnd, Skip, After, ListTail;
    TailAt(kind, s);
    CommaIsNoEnd(kind, s);
  }

  lemma ShiftFollows(p: string, t: string, m: nat, n: nat, x: Parse, y: Parse)
    requires m <= |p| && n <= |t| && m <= n && Follows(p[m..], t[n..], x, y) && x.More?
    ensures Follows(p, t, x, if y.Done? then Done(y.nodes, n + y.len) else y)
  {
  }

  lemma {:induction false} TailFollows(kind: Kind, p: string, t: string)
    requires p <= t
    ensures Follows(p, t, ListTail(kind, p), ListTail(kind, t))
    decreases |p|, 5
  {
    if p == "" {
      NothingFollows(p, t, ListTail(kind, t));
      assert ListTail(kind, p) == More([]);
    } else if p[0] == ',' {
      hide *;
      CommaFollows(kind, p, t);
    } else {
      EndFollows(kind, p, t);
    }
  }

  lemma {:induction false} CommaFollows(kind: Kind, p: string, t: string)
    requires p <= t && p != "" && p[0] == ','
    ensures Follows(p, t, ListTail(kind, p), ListTail(kind, t))
    decreases |p|, 4
  {
    hide *;
    assert t[0] == ',';
    SkipFollows(p, t, 1);
    var m, n := Skip(p, 1), Skip(t, 1);
    var x, y := ParseItem(kind, p[m..]), ParseItem(kind, t[n..]);
    ItemFollows(kind, p[m..], t[n..]);
    TailIs(kind, p, x);
    TailIs(kind, t, y);
    FollowsIs(p[m..], t[n..], x, y);
    if x.Done? {
      ItemGuessed(kind);
      assert m < |p| && m == n;
      SameItemFollows(kind, p, t, x.nodes, m + x.len);
    } else if x.More? {
      CutItemFollows(kind, p, t, m, n, x, y);
    } else {
      BothFail(p, t);
    }
  }

  lemma FollowsIs(p: string, t: string, x: Parse, y: Parse)
    requires Follows(p, t, x, y)
    ensures x.Fail? ==> y == Fail
    ensures x.Done? ==> y == x && x.len <= |p|
  {
  }

  lemma BothFail(p: string, t: string)
    ensures Follows(p, t, Fail, Fail)
  {
  }

  lemma {:induction false} SameItemFollows(kind: Kind, p: string, t: string, ns: seq<Node>, k: nat)
    requires p <= t && 0 < k <= |p|
    ensures Follows(p, t, After(ns, k, ListTail(kind, p[k..])), After(ns, k, ListTail(kind, t[k..])))
    decreases |p|, 3
  {
    Rest(p, t, k);
    TailFollows(kind, p[k..], t[k..]);
    hide ListTail, Follows, After;
    AfterFollows(p, t, ns, k, ListTail(kind, p[k..]), ListTail(kind, t[k..]));
  }

  lemma CutItemFollows(kind: Kind, p: string, t: string, m: nat, n: nat, x: Parse, y: Parse)
    requires p <= t && m <= |p| && n <= |t| && m <= n && x.More? && Follows(p[m..], t[n..], x, y)
    requires y.Done? ==> y.len <= |t| - n
    ensures Follows(p, t, x, if y.Done? then After(y.nodes, n + y.len, ListTail(kind, t[n + y.len..])) else y)
  {
    ShiftFollows(p, t, m, n, x, y);
    hide ListTail, Follows, After;
    if y.Done? {
      var k := n + y.len;
      MoreBehind(p, t, x, Done(y.nodes, k), k, ListTail(kind, t[k..]));
    }
  }

  lemma {:induction false} BodyFollows(kind: Kind, p: string, t: string)
    requires p <= t
    ensures Follows(p, t, ListBody(kind, p), ListBody(kind, t))
    decreases |p|, 6
  {
    LiteralFollows(Closer(kind), p, t);
    if p == "" {
      NothingFollows(p, t, ListBody(kind, t));
    } else if Literal(Closer(kind), p).Fail? {
      ItemFollows(kind, p, t);
      var x, y := ParseItem(kind, p), ParseItem(kind, t);
      hide ParseItem, Literal;
      if x.Done? {
        TailFollows(kind, p[x.len..], t[x.len..]);
        AfterFollows(p, t, x.nodes, x.len, ListTail(kind, p[x.len..]), ListTail(kind, t[x.len..]));
      } else if x.More? && y.Done? {
        MoreBehind(p, t, x, y, y.len, ListTail(kind, t[y.len..]));
      }
    }
  }

  lemma {:induction false} ListRestFollows(kind: Kind, p: string, t: string)
    requires p <= t && p != ""
    ensures Follows(p, t, ListRest(kind, p), ListRest(kind, t))
    decreases |p|, 1
  {
    SkipFollows(p, t, 1);
    assert ListBody(kind, "") == More([]);
    var m, n := Skip(p, 1), Skip(t, 1);
    BodyFollows(kind, p[m..], t[n..]);
    hide ListBody, Follows, Skip, After;
    AfterSpaceFollows(p, t, [], 1, ListBody(kind, p[m..]), ListBody(kind, t[n..]));
  }

  lemma {:induction false} ListFollows(kind: Kind, p: string, t: string)
    requires p <= t
    ensures Follows(p, t, ParseList(kind, p), ParseList(kind, t))
    decreases |p|, 2
  {
    var open := Opener(kind);
    LiteralFollows(open, p, t);
    var x, y := Literal(open, p), Literal(open, t);
    var u := if x.Done? then ListRest(kind, p) else x;
    var v := if y.Done? then ListRest(kind, t) else y;
    if x.Done? {
      ListRestFollows(kind, p, t);
    } else if p == "" {
      NothingFollows(p, t, v);
    }
    hide ListRest;
    WrapFollows(if kind.InArray? then ArrayRule else DictRule, p, t, u, v);
  }
}
