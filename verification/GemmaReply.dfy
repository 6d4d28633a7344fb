/** A whole Gemma 4 reply from its text: thoughts, contents and tool calls, and when its messages grow. */
module GemmaReply {
  import opened Text
  import opened Gemma
  import opened GemmaParser
  import opened GemmaStreaming
  import opened GemmaCalls
  import opened ToolMapper
  import opened MessageDiff
  import opened MessageStream
  import opened GemmaWritten
  import Json

  const TURN := "<|turn>model\n"
  const CHANNEL := "<|channel>"
  const THOUGHT := "<|channel>thought"
  const END_CHANNEL := "<channel|>"
  const TOOL_CALL := "<|tool_call>"

  const CONTENT_ENDS := [CHANNEL, END_CHANNEL, TOOL_CALL]

  // ---------- the grammar of a reply ----------

  // A thought up to the mark that ends it.
  function ThoughtEnd(s: string): (r: Parse)
    ensures r.Done? ==> r.len <= |s|
  {
    var u := Tagged(Gemma.Reasoning, s, Until([END_CHANNEL], s));
    if u.Done? then After(u.nodes, u.len, Literal(END_CHANNEL, s[u.len..])) else u
  }

  function ParseThought(s: string): (r: Parse)
    ensures r.Done? ==> 0 < r.len <= |s|
  {
    var mark := Literal(THOUGHT, s);
    Wrap(OtherRule, s,
         if mark.Done? then
           var k := Skip(s, mark.len);
           After([], k, ThoughtEnd(s[k..]))
         else mark)
  }

  // Channels that are no thought are skipped.
  function EmptyChannels(s: string): (r: Parse)
    ensures !r.Fail? && r.nodes == [] && (r.Done? ==> r.len <= |s|)
  {
    if s == "" then Done([], 0)
    else
      match Literal(CHANNEL, s)
      case Fail => Done([], 0)
      case More(_) => More([])
      case Done(_, n) =>
        match Literal("thought", s[n..])
        case Fail => After([], n, EmptyChannels(s[n..]))
        case More(_) => More([])
        case Done(_, _) => Done([], 0)
  }

  // Where a channel begins there has to be a thought behind the empty ones.
  function ParseChannel(s: string): (r: Parse)
    ensures r.Done? ==> r.len <= |s|
  {
    match Literal(CHANNEL, s)
    case Fail => Done([], 0)
    case More(_) => More([])
    case Done(_, _) =>
      var e := EmptyChannels(s);
      if e.Done? then After([], e.len, ParseThought(s[e.len..])) else e
  }

  function ParseContent(s: string): (r: Parse)
    ensures !r.Fail? && |r.nodes| == 1 && (r.Done? ==> r.len <= |s|)
  {
    Wrap(OtherRule, s, Tagged(Gemma.Content, s, Until(CONTENT_ENDS, s)))
  }

  function MessageBody(s: string): (r: Parse)
    ensures r.Done? ==> r.len <= |s|
  {
    var thought := ParseChannel(s);
    if thought.Done? then After(thought.nodes, thought.len, ParseContent(s[thought.len..])) else thought
  }

  function ParseMessage(s: string): (r: Parse)
    ensures r.Done? ==> r.len <= |s|
  {
    Wrap(OtherRule, s, MessageBody(s))
  }

  // Anything up to the mark of a call, and the calls.
  function ScanCalls(names: seq<string>, max: int, s: string): (r: Parse)
    ensures !r.Fail?
  {
    var scan := Wrap(OtherRule, s, Until([TOOL_CALL], s));
    if scan.Done? then After(scan.nodes, scan.len, ParseCalls(names, max, s[scan.len..])) else scan
  }

  // Messages as long as they do not fail and are not empty; then the calls.
  function ParseMessages(names: seq<string>, max: int, s: string): (r: Parse)
    ensures !r.Fail?
    decreases |s|
  {
    if s == "" then ScanCalls(names, max, s)
    else
      match ParseMessage(s)
      case Fail => ScanCalls(names, max, s)
      case More(ns) => More(ns)
      case Done(ns, n) =>
        if n == 0 then ScanCalls(names, max, s) else After(ns, n, ParseMessages(names, max, s[n..]))
  }

  function ParseReply(names: seq<string>, max: int, s: string): (r: Parse)
    ensures !r.Fail?
  {
    if s == "" then ParseMessages(names, max, s)
    else
      match Literal(TURN, s)
      case Fail => ParseMessages(names, max, s)
      case More(_) => More([])
      case Done(_, n) => After([], n, ParseMessages(names, max, s[n..]))
  }

  // ---------- growing lists of nodes ----------

  lemma {:induction false} SilentBack(xs: seq<Gemma.Node>, ys: seq<Gemma.Node>)
    requires GrowsList(xs, ys) && AllSilent(ys)
    ensures AllSilent(xs)
    decreases xs, ys
  {
    hide Silent, Grows;
    if xs != [] {
      if Silent(xs[0]) {
        SilentBack(xs[1..], ys);
      } else {
        SilentBack(xs, ys[1..]);
      }
    }
  }

  lemma {:induction false} SilentBehind(xs: seq<Gemma.Node>, zs: seq<Gemma.Node>, ys: seq<Gemma.Node>)
    requires GrowsList(xs, ys) && AllSilent(zs)
    ensures GrowsList(xs + zs, ys)
    decreases xs, ys
  {
    hide Silent, Grows;
    if xs == [] {
      assert xs + zs == zs;
      SilentGrows(zs, ys);
    } else {
      assert (xs + zs)[0] == xs[0] && (xs + zs)[1..] == xs[1..] + zs;
      if Silent(xs[0]) {
        SilentBehind(xs[1..], zs, ys);
      } else if Silent(ys[0]) {
        SilentBehind(xs, zs, ys[1..]);
      } else if AllSilent(xs[1..]) {
        SilentConcat(xs[1..], zs);
      } else {
        SilentBehind(xs[1..], zs, ys[1..]);
        SilentFront(xs[1..], zs);
      }
    }
  }

  lemma {:induction false} SilentConcat(xs: seq<Gemma.Node>, ys: seq<Gemma.Node>)
    requires AllSilent(xs) && AllSilent(ys)
    ensures AllSilent(xs + ys)
  {
    hide Silent;
    if xs == [] {
      assert xs + ys == ys;
    } else {
      assert (xs + ys)[1..] == xs[1..] + ys;
      SilentConcat(xs[1..], ys);
    }
  }

  lemma {:induction false} SilentFront(xs: seq<Gemma.Node>, ys: seq<Gemma.Node>)
    ensures AllSilent(xs + ys) ==> AllSilent(xs)
  {
    hide Silent;
    if xs != [] {
      assert (xs + ys)[1..] == xs[1..] + ys;
      SilentFront(xs[1..], ys);
    }
  }

  // ---------- more of a message ----------

  // More of the text changes nothing that has ended, and what no longer fits has shown nothing yet.
  predicate Steady(x: Parse, y: Parse) {
    Grew(x, y) && (x.More? && y.Fail? ==> AllSilent(x.nodes))
  }

  predicate Within(r: Parse, s: string) {
    r.Done? ==> r.len <= |s|
  }

  lemma WrapSilent(rule: Rule, s: string, r: Parse)
    requires Within(r, s)
    ensures !r.Fail? ==> (AllSilent(Wrap(rule, s, r).nodes) <==> AllSilent(r.nodes))
  {
    if !r.Fail? {
      var n := Wrap(rule, s, r).nodes[0];
      assert [n][1..] == [];
      assert Silent(n) == AllSilent(r.nodes);
      hide Silent;
    }
  }

  lemma WrapGrows(rule: Rule, p: string, t: string, x: Parse, y: Parse)
    requires !x.Fail? && !y.Fail? && GrowsList(x.nodes, y.nodes) && Within(x, p) && Within(y, t)
    ensures GrowsList(Wrap(rule, p, x).nodes, Wrap(rule, t, y).nodes)
  {
    WrapSilent(rule, p, x);
    WrapSilent(rule, t, y);
    var a, b := Wrap(rule, p, x).nodes[0], Wrap(rule, t, y).nodes[0];
    assert Grows(a, b);
    if AllSilent(y.nodes) {
      SilentBack(x.nodes, y.nodes);
    }
    hide Grows, GrowsList, AllSilent;
    OneSilent(a);
    OneSilent(b);
    NodesGrow(a, b);
  }

  lemma WrapSteady(rule: Rule, p: string, t: string, x: Parse, y: Parse)
    requires p <= t && Steady(x, y) && Within(x, p) && Within(y, t)
    ensures Steady(Wrap(rule, p, x), Wrap(rule, t, y))
  {
    WrapSilent(rule, p, x);
    if x.Done? {
      assert p[..x.len] == t[..x.len];
    } else if x.More? && !y.Fail? {
      WrapGrows(rule, p, t, x, y);
    }
    hide GrowsList, AllSilent;
  }

  lemma AfterSteady(ns: seq<Gemma.Node>, n: nat, x: Parse, y: Parse)
    requires Steady(x, y) && AllSilent(ns)
    ensures Steady(After(ns, n, x), After(ns, n, y))
  {
    if x.More? {
      if y.Fail? {
        SilentConcat(ns, x.nodes);
      } else {
        GrowsBehind(ns, x.nodes, y.nodes);
      }
    }
    hide GrowsList, AllSilent;
  }

  // The end of a thought has been seen, or may still come.
  lemma ThoughtEndSteady(p: string, t: string)
    requires p <= t
    ensures Steady(ThoughtEnd(p), ThoughtEnd(t)) && !ThoughtEnd(p).Fail?
  {
    UntilFollows([END_CHANNEL], p, t);
    ThoughtEndIs(p);
    ThoughtEndIs(t);
    var u, v := Until([END_CHANNEL], p), Until([END_CHANNEL], t);
    var x, y := ThoughtEnd(p), ThoughtEnd(t);
    hide ThoughtEnd, Until;
    if x.Done? {
      assert p[..u.len] == t[..u.len];
    } else {
      var r, s := UpTo(p, u), UpTo(t, v);
      assert r <= s by {
        assert u.Done? ==> u.len <= |p|;
      }
      TextsGrow(Gemma.Reasoning, r, u.More?, s, v.More?);
    }
  }

  function UpTo(s: string, u: Parse): string
    requires Within(u, s)
  {
    if u.Done? then s[..u.len] else s
  }

  function TextNode(tag: Gemma.Tag, text: string, partial: bool): Gemma.Node {
    Gemma.Node(OtherRule, tag, text, partial, [])
  }

  lemma ThoughtEndIs(s: string)
    ensures var u, r := Until([END_CHANNEL], s), ThoughtEnd(s);
      && Within(u, s) && !r.Fail?
      && r.nodes == [TextNode(Gemma.Reasoning, UpTo(s, u), u.More?)]
      && (r.Done? <==> u.Done? && MarkAt([END_CHANNEL], s, u.len))
      && (r.Done? ==> r.len == u.len + |END_CHANNEL|)
  {
    var u := Until([END_CHANNEL], s);
    UntilIs([END_CHANNEL], s);
    if u.Done? {
      assert MayMark([END_CHANNEL], s[u.len..]);
      assert END_CHANNEL in [END_CHANNEL];
      var ns := Tagged(Gemma.Reasoning, s, u).nodes;
      assert ns + [] == ns;
    }
  }

  lemma TextsGrow(tag: Gemma.Tag, a: string, x: bool, b: string, y: bool)
    requires a <= b && (tag == Gemma.Reasoning || tag == Gemma.Content)
    ensures GrowsList([TextNode(tag, a, x)], [TextNode(tag, b, y)])
  {
    NodesGrow(TextNode(tag, a, x), TextNode(tag, b, y));
  }

  lemma ThoughtSteady(p: string, t: string)
    requires p <= t
    ensures Steady(ParseThought(p), ParseThought(t))
  {
    var n := |THOUGHT|;
    LiteralFollows(THOUGHT, p, t);
    var x, y := Literal(THOUGHT, p), Literal(THOUGHT, t);
    var u := if x.Done? then After([], Skip(p, n), ThoughtEnd(p[Skip(p, n)..])) else x;
    var v := if y.Done? then After([], Skip(t, n), ThoughtEnd(t[Skip(t, n)..])) else y;
    hide Literal, ThoughtEnd, AllSilent, GrowsList;
    assert Steady(u, v) by {
      if x.Done? {
        ThoughtBehind(p, t, n);
      } else if x.More? {
        NothingShown(v);
      }
    }
    hide Skip, After, Steady;
    WrapSteady(OtherRule, p, t, u, v);
  }

  lemma NothingShown(y: Parse)
    ensures Steady(More([]), y)
  {
    SilentGrows([], if y.Fail? then [] else y.nodes);
  }

  lemma ThoughtBehind(p: string, t: string, n: nat)
    requires p <= t && n <= |p|
    ensures Steady(After([], Skip(p, n), ThoughtEnd(p[Skip(p, n)..])),
                   After([], Skip(t, n), ThoughtEnd(t[Skip(t, n)..])))
  {
    var j, k := Skip(p, n), Skip(t, n);
    hide ThoughtEnd, Skip, GrowsList, AllSilent, Until, UpTo;
    SkipFollows(p, t, n);
    ThoughtEndSteady(p[j..], t[k..]);
    ThoughtEndIs(p[j..]);
    SteadyBehind(j, k, ThoughtEnd(p[j..]), ThoughtEnd(t[k..]));
  }

  lemma SteadyBehind(j: nat, k: nat, x: Parse, y: Parse)
    requires Steady(x, y) && (x.Done? ==> j == k)
    ensures Steady(After([], j, x), After([], k, y))
  {
    hide GrowsList, AllSilent;
    assert !x.Fail? ==> [] + x.nodes == x.nodes;
    assert !y.Fail? ==> [] + y.nodes == y.nodes;
  }

  lemma {:induction false} EmptyFollow(p: string, t: string)
    requires p <= t && p != ""
    ensures var x, y := EmptyChannels(p), EmptyChannels(t); x.Done? ==> y == x && x.len < |p|
    decreases |p|
  {
    LiteralFollows(CHANNEL, p, t);
    if CHANNEL <= p {
      var n := |CHANNEL|;
      Rest(p, t, n);
      LiteralFollows("thought", p[n..], t[n..]);
      if Literal("thought", p[n..]).Fail? {
        EmptyFollow(p[n..], t[n..]);
      }
    }
  }

  lemma ChannelSteady(p: string, t: string)
    requires p <= t
    ensures Steady(ParseChannel(p), ParseChannel(t))
  {
    LiteralFollows(CHANNEL, p, t);
    var x, y := Literal(CHANNEL, p), Literal(CHANNEL, t);
    hide AllSilent, GrowsList, EmptyChannels, ParseThought;
    if x.More? {
      NothingShown(ParseChannel(t));
    } else if x.Done? {
      EmptyFollow(p, t);
      var e := EmptyChannels(p);
      if e.Done? {
        Rest(p, t, e.len);
        ThoughtSteady(p[e.len..], t[e.len..]);
        NothingSilent();
        AfterSteady([], e.len, ParseThought(p[e.len..]), ParseThought(t[e.len..]));
      } else {
        NothingShown(ParseChannel(t));
      }
    }
  }

  lemma NothingSilent()
    ensures AllSilent([])
  {
  }

  lemma ContentIs(s: string)
    ensures var u, r := Until(CONTENT_ENDS, s), ParseContent(s);
      && Within(u, s) && !r.Fail? && (r.Done? <==> u.Done?) && (r.Done? ==> r.len == u.len)
      && r.nodes == [Gemma.Node(OtherRule, Gemma.Untagged, UpTo(s, u), u.More?,
                                [TextNode(Gemma.Content, UpTo(s, u), u.More?)])]
  {
    hide Until;
  }

  lemma ContentGrows(p: string, t: string)
    requires p <= t
    ensures GrowsList(ParseContent(p).nodes, ParseContent(t).nodes)
  {
    UntilFollows(CONTENT_ENDS, p, t);
    ContentIs(p);
    ContentIs(t);
    var u, v := Until(CONTENT_ENDS, p), Until(CONTENT_ENDS, t);
    var x, y := ParseContent(p).nodes, ParseContent(t).nodes;
    hide Until, ParseContent, MarkAt, GrowsList;
    var a, b := UpTo(p, u), UpTo(t, v);
    assert a <= b;
    hide UpTo;
    TextsGrow(Gemma.Content, a, u.More?, b, v.More?);
    var c, d := TextNode(Gemma.Content, a, u.More?), TextNode(Gemma.Content, b, v.More?);
    RuleGrows(x[0], c, y[0], d);
  }

  // What is shown of a content only grows; it may still go on unless the mark behind it is complete.
  lemma ContentFollows(p: string, t: string)
    requires p <= t
    ensures var x, y := ParseContent(p), ParseContent(t);
      && (x.Done? ==> EndsAt(CONTENT_ENDS, p, x.len) && (y.Done? ==> x.len <= y.len))
      && (x.Done? && MarkAt(CONTENT_ENDS, p, x.len) ==> y == x)
      && (x.More? && y.Done? ==> |p| <= y.len)
  {
    UntilFollows(CONTENT_ENDS, p, t);
    UntilIs(CONTENT_ENDS, p);
    ContentIs(p);
    ContentIs(t);
    var u := Until(CONTENT_ENDS, p);
    hide Until, ParseContent, EndsAt, MarkAt;
    if u.Done? {
      assert p[..u.len] == t[..u.len];
    }
  }

  lemma RuleGrows(a: Gemma.Node, c: Gemma.Node, b: Gemma.Node, d: Gemma.Node)
    requires a.tag == Gemma.Untagged && b.tag == Gemma.Untagged && a.children == [c] && b.children == [d]
    requires GrowsList([c], [d])
    ensures GrowsList([a], [b])
  {
    assert Grows(a, b);
    assert Silent(a) <==> AllSilent([c]);
    assert Silent(b) <==> AllSilent([d]);
    if AllSilent([d]) {
      SilentBack([c], [d]);
    }
    hide Grows, GrowsList, AllSilent, Silent;
    NodesGrow(a, b);
  }

  lemma BodyIs(s: string)
    ensures var thought, r := ParseChannel(s), MessageBody(s);
      if thought.Done? then
        var c := ParseContent(s[thought.len..]);
        && !r.Fail? && (r.Done? <==> c.Done?) && (r.Done? ==> r.len == thought.len + c.len)
        && r.nodes == thought.nodes + c.nodes
      else r == thought
  {
    hide ParseChannel, ParseContent;
  }

  // A channel that has ended is not empty.
  lemma ChannelIs(s: string)
    ensures var r := ParseChannel(s);
      && (r.Done? && r.len == 0 ==> Literal(CHANNEL, s).Fail? && r == Done([], 0))
      && (Literal(CHANNEL, s).Fail? ==> r == Done([], 0))
      && (Literal(CHANNEL, s).More? ==> r == More([]))
  {
    hide EmptyChannels, ParseThought;
  }

  // The nodes of a message grow as long as it may still go on.
  lemma BodyGrows(p: string, t: string)
    requires p <= t && ParseChannel(p).Done?
    ensures ParseChannel(t) == ParseChannel(p)
    ensures GrowsList(MessageBody(p).nodes, MessageBody(t).nodes)
  {
    ChannelSteady(p, t);
    var thought := ParseChannel(p);
    var k := thought.len;
    Rest(p, t, k);
    ContentGrows(p[k..], t[k..]);
    BodyIs(p);
    BodyIs(t);
    hide ParseChannel, ParseContent, MessageBody, AllSilent;
    GrowsBehind(thought.nodes, ParseContent(p[k..]).nodes, ParseContent(t[k..]).nodes);
    hide GrowsList;
  }

  lemma MessageMore(p: string, t: string)
    requires p <= t && p != "" && MessageBody(p).More?
    ensures var x, y := MessageBody(p), MessageBody(t);
      AllSilent(x.nodes) || (!y.Fail? && (y.Done? ==> y.len > 0) && GrowsList(x.nodes, y.nodes))
  {
    ChannelSteady(p, t);
    BodyIs(p);
    BodyIs(t);
    var thought := ParseChannel(p);
    hide ParseChannel, MessageBody, AllSilent, GrowsList;
    if thought.Done? {
      BodyGrows(p, t);
      Rest(p, t, thought.len);
      ContentFollows(p[thought.len..], t[thought.len..]);
    } else {
      ThoughtMore(p, t);
    }
  }

  lemma ThoughtMore(p: string, t: string)
    requires p <= t && ParseChannel(p).More?
    ensures var x, y := MessageBody(p), MessageBody(t);
      AllSilent(x.nodes) || (!y.Fail? && (y.Done? ==> y.len > 0) && GrowsList(x.nodes, y.nodes))
  {
    ChannelSteady(p, t);
    BodyIs(p);
    BodyIs(t);
    ChannelIs(p);
    ChannelIs(t);
    LiteralFollows(CHANNEL, p, t);
    NothingSilent();
    var y := ParseChannel(t);
    hide ParseChannel, ParseContent, MessageBody, AllSilent, GrowsList, Literal;
    if y.Done? {
      GrowsMore(ParseChannel(p).nodes, y.nodes, ParseContent(t[y.len..]).nodes);
    }
  }

  lemma MarksBehind(marks: seq<string>, s: string, k: nat, n: nat)
    requires k <= |s|
    ensures EndsAt(marks, s, k + n) <==> EndsAt(marks, s[k..], n)
    ensures MarkAt(marks, s, k + n) <==> MarkAt(marks, s[k..], n)
  {
    if k + n < |s| {
      assert s[k..][n..] == s[k + n..];
    }
    hide Marked, MayMark;
  }

  lemma MessageDone(p: string, t: string)
    requires p <= t && MessageBody(p).Done?
    ensures var x, y := MessageBody(p), MessageBody(t);
      && !y.Fail? && (y.Done? ==> x.len <= y.len) && GrowsList(x.nodes, y.nodes)
      && EndsAt(CONTENT_ENDS, p, x.len) && (MarkAt(CONTENT_ENDS, p, x.len) ==> y == x)
  {
    hide ParseChannel, ParseContent, MessageBody, GrowsList, EndsAt, MarkAt;
    BodyIs(p);
    BodyIs(t);
    BodyGrows(p, t);
    var k := ParseChannel(p).len;
    Rest(p, t, k);
    ContentFollows(p[k..], t[k..]);
    MarksBehind(CONTENT_ENDS, p, k, ParseContent(p[k..]).len);
  }

  // ---------- more of the rest ----------

  lemma NoCallYet(names: seq<string>, max: int, s: string)
    requires s <= TOOL_CALL
    ensures AllSilent(ParseCalls(names, max, s).nodes)
  {
    assert s <= BEFORE_CALL;
    if s != "" && max != 0 {
      CallsAre(names, max, s);
      assert ParseMarked(names, s) == More([]);
    }
  }

  // ---------- where the calls begin ----------

  function ScanFrom(s: string): (k: nat)
    ensures k <= |s|
  {
    var u := Until([TOOL_CALL], s);
    if u.Done? then u.len else |s|
  }

  // Behind all messages and whatever else is in front of the first call; the end of the text if there is none.
  function MessagesFrom(s: string): (k: nat)
    ensures k <= |s|
    decreases |s|
  {
    if s == "" then 0
    else
      match ParseMessage(s)
      case Fail => ScanFrom(s)
      case More(_) => |s|
      case Done(_, n) => if n == 0 then ScanFrom(s) else n + MessagesFrom(s[n..])
  }

  function ReplyFrom(s: string): (k: nat)
    ensures k <= |s|
  {
    if s == "" then 0
    else
      match Literal(TURN, s)
      case Fail => MessagesFrom(s)
      case More(_) => |s|
      case Done(_, n) => n + MessagesFrom(s[n..])
  }

  // A call of p has begun that t shows not to fit.
  predicate DroppedAt(names: seq<string>, max: int, p: string, t: string, k: nat) {
    k <= |p| && k <= |t| && Dropped(names, max, p[k..], t[k..])
  }

  // A dropped call has begun with its mark.
  lemma DroppedBegins(names: seq<string>, max: int, p: string, t: string)
    requires Dropped(names, max, p, t)
    ensures TOOL_CALL <= p
  {
    if !(BEFORE_CALL <= p) {
      NotBegun(names, p);
    }
  }

  // The mark is complete, so that it ends the scan of the longer text too.
  lemma SameScan(p: string, t: string)
    requires p <= t && TOOL_CALL <= p[ScanFrom(p)..]
    ensures Until([TOOL_CALL], p).Done? && Until([TOOL_CALL], t) == Until([TOOL_CALL], p)
  {
    UntilFollows([TOOL_CALL], p, t);
    var k := ScanFrom(p);
    assert MarkAt([TOOL_CALL], p, k) by {
      assert TOOL_CALL in [TOOL_CALL];
    }
    hide Until;
  }

  lemma ScanIs(names: seq<string>, max: int, s: string)
    ensures var u, r := Until([TOOL_CALL], s), ScanCalls(names, max, s);
      r.nodes == [Gemma.Node(OtherRule, Gemma.Untagged, s[..ScanFrom(s)], u.More?, [])] +
                 (if u.Done? then ParseCalls(names, max, s[u.len..]).nodes else [])
  {
    hide Until, ParseCalls;
    assert s[..|s|] == s;
  }

  lemma ScanGrows(names: seq<string>, max: int, p: string, t: string)
    requires p <= t && NoBraces(names) && !DroppedAt(names, max, p, t, ScanFrom(p))
    ensures GrowsList(ScanCalls(names, max, p).nodes, ScanCalls(names, max, t).nodes)
  {
    var k := ScanFrom(p);
    UntilIs([TOOL_CALL], p);
    ScanIs(names, max, p);
    ScanIs(names, max, t);
    if TOOL_CALL <= p[k..] {
      SameScan(p, t);
      Rest(p, t, k);
      assert p[..k] == t[..k];
      hide Until, ParseCalls, NoBraces, Dropped, GrowsList, ScanCalls;
      CallsGrow(names, max, p[k..], t[k..]);
      var scan := Gemma.Node(OtherRule, Gemma.Untagged, p[..k], false, []);
      GrowsBehind([scan], ParseCalls(names, max, p[k..]).nodes, ParseCalls(names, max, t[k..]).nodes);
    } else {
      ScanSilent(names, max, p);
      hide ScanCalls;
      SilentGrows(ScanCalls(names, max, p).nodes, ScanCalls(names, max, t).nodes);
    }
  }

  // Nothing is shown of what is scanned, nor of the beginning of the mark behind it.
  lemma ScanSilent(names: seq<string>, max: int, s: string)
    requires !(TOOL_CALL <= s[ScanFrom(s)..])
    ensures AllSilent(ScanCalls(names, max, s).nodes)
  {
    var u := Until([TOOL_CALL], s);
    WrapSilent(OtherRule, s, u);
    NothingSilent();
    if u.Done? {
      UntilIs([TOOL_CALL], s);
      var rest := s[u.len..];
      assert rest <= TOOL_CALL by {
        assert MayMark([TOOL_CALL], rest);
      }
      NoCallYet(names, max, rest);
      hide ParseCalls, AllSilent, Until;
      SilentConcat(Wrap(OtherRule, s, u).nodes, ParseCalls(names, max, rest).nodes);
    }
  }

  // The beginning of a mark shows nothing.
  lemma PartialSilent(names: seq<string>, max: int, s: string)
    requires s != "" && MayMark(CONTENT_ENDS, s) && !Marked(CONTENT_ENDS, s)
    ensures AllSilent(ParseMessages(names, max, s).nodes) && AllSilent(ScanCalls(names, max, s).nodes)
  {
    var m :| m in CONTENT_ENDS && s <= m;
    assert s != m;
    ScanSilent(names, max, s);
    ChannelIs(s);
    BodyIs(s);
    ContentIs(s);
    assert CHANNEL in CONTENT_ENDS;
    assert !Literal(CHANNEL, s).Done?;
    assert s[0..] == s;
    NothingSilent();
    WrapSilent(OtherRule, s, MessageBody(s));
    assert Until(CONTENT_ENDS, s) == Done([], 0);
    hide ParseChannel, ParseContent, MessageBody, ScanCalls, AllSilent, Until, MayMark, Marked;
  }

  lemma ScanDrops(names: seq<string>, max: int, p: string, t: string, m: Message)
    requires p <= t && NoBraces(names) && DroppedAt(names, max, p, t, ScanFrom(p))
    ensures |VisitedAll(m, ScanCalls(names, max, t).nodes).calls| <
            |VisitedAll(m, ScanCalls(names, max, p).nodes).calls|
  {
    var k := ScanFrom(p);
    DroppedBegins(names, max, p[k..], t[k..]);
    SameScan(p, t);
    ScanIs(names, max, p);
    ScanIs(names, max, t);
    Rest(p, t, k);
    assert p[..k] == t[..k];
    var scan := Gemma.Node(OtherRule, Gemma.Untagged, p[..k], false, []);
    hide Until, ParseCalls, NoBraces, Dropped, ScanCalls, VisitedAll;
    var mid := VisitedAll(m, [scan]);
    DroppedIsMissing(names, max, p[k..], t[k..], mid);
    VisitedConcat(m, [scan], ParseCalls(names, max, p[k..]).nodes);
    VisitedConcat(m, [scan], ParseCalls(names, max, t[k..]).nodes);
  }

  // ---------- more of a reply ----------

  lemma MessageIs(s: string)
    ensures var x, r := MessageBody(s), ParseMessage(s);
      && (r.Fail? <==> x.Fail?) && (r.More? <==> x.More?) && (r.Done? ==> r.len == x.len)
      && r == Wrap(OtherRule, s, x)
  {
    hide MessageBody;
  }

  // The three ways in which a message may go on.
  lemma MessageFollows(p: string, t: string)
    requires p <= t && p != ""
    ensures var x, y := ParseMessage(p), ParseMessage(t);
      && (x.Fail? ==> y.Fail?)
      && (x.More? ==> AllSilent(x.nodes) || (!y.Fail? && (y.Done? ==> y.len > 0) && GrowsList(x.nodes, y.nodes)))
      && (x.Done? ==>
            && !y.Fail? && (y.Done? ==> x.len <= y.len) && GrowsList(x.nodes, y.nodes)
            && EndsAt(CONTENT_ENDS, p, x.len) && (MarkAt(CONTENT_ENDS, p, x.len) ==> y == x))
  {
    MessageIs(p);
    MessageIs(t);
    var x, y := MessageBody(p), MessageBody(t);
    hide ParseMessage, AllSilent, GrowsList, EndsAt, MarkAt;
    if x.More? {
      MessageMore(p, t);
      WrapSilent(OtherRule, p, x);
      if !AllSilent(x.nodes) {
        WrapGrows(OtherRule, p, t, x, y);
      }
    } else if x.Done? {
      MessageDone(p, t);
      WrapGrows(OtherRule, p, t, x, y);
      assert p[..x.len] == t[..x.len];
    } else {
      BodyFails(p, t);
    }
    hide MessageBody, Wrap;
  }

  lemma BodyFails(p: string, t: string)
    requires p <= t && MessageBody(p).Fail?
    ensures MessageBody(t).Fail?
  {
    ChannelSteady(p, t);
    BodyIs(p);
    BodyIs(t);
    hide ParseChannel, ParseContent, MessageBody, GrowsList, AllSilent;
  }

  lemma MessagesAre(names: seq<string>, max: int, s: string)
    requires s != ""
    ensures var x, r := ParseMessage(s), ParseMessages(names, max, s);
      && (x.Fail? ==> r == ScanCalls(names, max, s) && MessagesFrom(s) == ScanFrom(s))
      && (x.More? ==> r == x && MessagesFrom(s) == |s|)
      && (x.Done? && x.len == 0 ==> r == ScanCalls(names, max, s) && MessagesFrom(s) == ScanFrom(s))
      && (x.Done? && x.len > 0 ==>
            && r == After(x.nodes, x.len, ParseMessages(names, max, s[x.len..]))
            && MessagesFrom(s) == x.len + MessagesFrom(s[x.len..]))
  {
    hide ParseMessage, ScanCalls, ScanFrom;
  }

  lemma ShiftedDrop(names: seq<string>, max: int, p: string, t: string, n: nat, k: nat)
    requires n <= |p| && n <= |t|
    ensures DroppedAt(names, max, p, t, n + k) <==> DroppedAt(names, max, p[n..], t[n..], k)
  {
    if n + k <= |p| && n + k <= |t| {
      assert p[n..][k..] == p[n + k..] && t[n..][k..] == t[n + k..];
    }
    hide Dropped;
  }

  lemma {:induction false} MessagesGrow(names: seq<string>, max: int, p: string, t: string)
    requires p <= t && NoBraces(names) && !DroppedAt(names, max, p, t, MessagesFrom(p))
    ensures GrowsList(ParseMessages(names, max, p).nodes, ParseMessages(names, max, t).nodes)
    decreases |p|
  {
    hide *;
    var a, b := ParseMessages(names, max, p), ParseMessages(names, max, t);
    if p == "" {
      NothingRead(names, max);
      SilentGrows(a.nodes, b.nodes);
    } else {
      var x, y := ParseMessage(p), ParseMessage(t);
      MessagesAre(names, max, p);
      MessagesAre(names, max, t);
      MessageFollows(p, t);
      if x.More? && AllSilent(x.nodes) {
        SilentGrows(x.nodes, b.nodes);
      } else if x.More? {
        MessageThen(names, max, t, x.nodes, y);
      } else if x.Fail? || (x.len == 0 && y == x) {
        ScanGrows(names, max, p, t);
      } else if y == x {
        FirstMessage(names, max, p, t, x.nodes, x.len);
      } else {
        CutMessage(names, max, p, t, x, y);
      }
    }
  }

  lemma NothingRead(names: seq<string>, max: int)
    ensures AllSilent(ParseMessages(names, max, "").nodes)
  {
    assert ParseMessages(names, max, "") == ScanCalls(names, max, "");
    ScanSilent(names, max, "");
  }

  // The nodes xs grow to those of a message, and more comes behind it.
  lemma MessageThen(names: seq<string>, max: int, t: string, xs: seq<Gemma.Node>, y: Parse)
    requires t != "" && y == ParseMessage(t) && !y.Fail? && (y.Done? ==> y.len > 0) && GrowsList(xs, y.nodes)
    ensures GrowsList(xs, ParseMessages(names, max, t).nodes)
  {
    MessagesAre(names, max, t);
    hide ParseMessage, ParseMessages, GrowsList;
    if y.Done? {
      GrowsMore(xs, y.nodes, ParseMessages(names, max, t[y.len..]).nodes);
    }
  }

  lemma MessagesBehind(names: seq<string>, max: int, s: string, ns: seq<Gemma.Node>, n: nat)
    requires 0 < n <= |s| && ParseMessage(s) == Done(ns, n)
    ensures ParseMessages(names, max, s).nodes == ns + ParseMessages(names, max, s[n..]).nodes
    ensures MessagesFrom(s) == n + MessagesFrom(s[n..])
  {
    MessagesAre(names, max, s);
    hide ParseMessage, ParseMessages, MessagesFrom;
  }

  lemma {:induction false} FirstMessage(names: seq<string>, max: int, p: string, t: string, ns: seq<Gemma.Node>, n: nat)
    requires p <= t && 0 < n <= |p| && ParseMessage(p) == ParseMessage(t) == Done(ns, n)
    requires NoBraces(names) && !DroppedAt(names, max, p, t, MessagesFrom(p))
    ensures GrowsList(ParseMessages(names, max, p).nodes, ParseMessages(names, max, t).nodes)
    decreases |p|, 0
  {
    hide *;
    Rest(p, t, n);
    MessagesBehind(names, max, p, ns, n);
    MessagesBehind(names, max, t, ns, n);
    ShiftedDrop(names, max, p, t, n, MessagesFrom(p[n..]));
    MessagesGrow(names, max, p[n..], t[n..]);
    GrowsBehind(ns, ParseMessages(names, max, p[n..]).nodes, ParseMessages(names, max, t[n..]).nodes);
  }

  // The message has ended in front of what may become a mark, and goes on in the longer text.
  lemma CutMessage(names: seq<string>, max: int, p: string, t: string, x: Parse, y: Parse)
    requires p <= t && p != "" && x == ParseMessage(p) && y == ParseMessage(t) && x.Done? && y != x
    ensures GrowsList(ParseMessages(names, max, p).nodes, ParseMessages(names, max, t).nodes)
  {
    MessageFollows(p, t);
    MessagesAre(names, max, p);
    var n := x.len;
    var rest := p[n..];
    assert MayMark(CONTENT_ENDS, rest) && !Marked(CONTENT_ENDS, rest) && rest != "";
    hide ParseMessage, ParseMessages, GrowsList, AllSilent, MayMark, Marked;
    PartialSilent(names, max, rest);
    var b := ParseMessages(names, max, t).nodes;
    if n == 0 {
      assert rest == p;
      SilentGrows(ParseMessages(names, max, p).nodes, b);
    } else {
      MessageThen(names, max, t, x.nodes, y);
      SilentBehind(x.nodes, ParseMessages(names, max, rest).nodes, b);
    }
  }

  lemma DropStarts(names: seq<string>, max: int, p: string, t: string, k: nat)
    requires DroppedAt(names, max, p, t, k)
    ensures k < |p| && k <= |t| && TOOL_CALL <= p[k..]
  {
    DroppedBegins(names, max, p[k..], t[k..]);
    hide Dropped;
  }

  lemma {:induction false} MessagesDrop(names: seq<string>, max: int, p: string, t: string, m: Message)
    requires p <= t && NoBraces(names) && DroppedAt(names, max, p, t, MessagesFrom(p))
    ensures |VisitedAll(m, ParseMessages(names, max, t).nodes).calls| <
            |VisitedAll(m, ParseMessages(names, max, p).nodes).calls|
    decreases |p|
  {
    hide *;
    var k := MessagesFrom(p);
    var x := ParseMessage(p);
    DropStarts(names, max, p, t, k);
    MessagesAre(names, max, p);
    MessagesAre(names, max, t);
    MessageFollows(p, t);
    assert !x.More?;
    if x.Done? {
      WholeMark(p, k, x.len);
    }
    if x.Fail? || x.len == 0 {
      ScanDrops(names, max, p, t, m);
    } else {
      FirstDrop(names, max, p, t, x.nodes, x.len, m);
    }
  }

  lemma {:induction false} FirstDrop(names: seq<string>, max: int, p: string, t: string, ns: seq<Gemma.Node>, n: nat,
                                     m: Message)
    requires p <= t && 0 < n <= |p| && ParseMessage(p) == ParseMessage(t) == Done(ns, n)
    requires NoBraces(names) && DroppedAt(names, max, p, t, MessagesFrom(p))
    ensures |VisitedAll(m, ParseMessages(names, max, t).nodes).calls| <
            |VisitedAll(m, ParseMessages(names, max, p).nodes).calls|
    decreases |p|, 0
  {
    hide *;
    Rest(p, t, n);
    MessagesBehind(names, max, p, ns, n);
    MessagesBehind(names, max, t, ns, n);
    ShiftedDrop(names, max, p, t, n, MessagesFrom(p[n..]));
    MessagesDrop(names, max, p[n..], t[n..], VisitedAll(m, ns));
    VisitedConcat(m, ns, ParseMessages(names, max, p[n..]).nodes);
    VisitedConcat(m, ns, ParseMessages(names, max, t[n..]).nodes);
  }

  // A call behind position n shows that the mark there is complete.
  lemma WholeMark(s: string, k: nat, n: nat)
    requires n <= k <= |s| && TOOL_CALL <= s[k..] && EndsAt(CONTENT_ENDS, s, n)
    ensures MarkAt(CONTENT_ENDS, s, n)
  {
    var rest := s[n..];
    assert |rest| >= |TOOL_CALL|;
    if exists m :: m in CONTENT_ENDS && rest <= m {
      var m :| m in CONTENT_ENDS && rest <= m;
      assert m == CHANNEL || m == END_CHANNEL || m == TOOL_CALL;
      assert rest == m;
    }
  }

  lemma ReplyIs(names: seq<string>, max: int, s: string)
    ensures var n := |TURN|;
      && (TURN <= s ==> ParseReply(names, max, s).nodes == ParseMessages(names, max, s[n..]).nodes
                        && ReplyFrom(s) == n + MessagesFrom(s[n..]))
      && (!(TURN <= s) && s <= TURN && s != "" ==> ParseReply(names, max, s) == More([]) && ReplyFrom(s) == |s|)
      && (s == "" || !(TURN <= s || s <= TURN) ==>
            ParseReply(names, max, s) == ParseMessages(names, max, s) && ReplyFrom(s) == MessagesFrom(s))
  {
    hide ParseMessages, MessagesFrom;
    if TURN <= s {
      var r := ParseMessages(names, max, s[|TURN|..]);
      assert [] + r.nodes == r.nodes;
    }
    assert s == "" ==> MessagesFrom(s) == 0 by {
      MessagesFromNothing();
    }
  }

  lemma MessagesFromNothing()
    ensures MessagesFrom("") == 0
  {
  }

  // A call of the reply p has begun that the longer reply t shows not to fit.
  predicate CallDropped(names: seq<string>, max: int, p: string, t: string) {
    DroppedAt(names, max, p, t, ReplyFrom(p))
  }

  lemma ReplyGrows(names: seq<string>, max: int, p: string, t: string)
    requires p <= t && NoBraces(names) && !CallDropped(names, max, p, t)
    ensures GrowsList(ParseReply(names, max, p).nodes, ParseReply(names, max, t).nodes)
  {
    var n := |TURN|;
    ReplyIs(names, max, p);
    ReplyIs(names, max, t);
    hide ParseReply, ReplyFrom, ParseMessages, MessagesFrom, GrowsList, NoBraces, DroppedAt;
    if TURN <= p {
      Rest(p, t, n);
      ShiftedDrop(names, max, p, t, n, MessagesFrom(p[n..]));
      MessagesGrow(names, max, p[n..], t[n..]);
    } else if p != "" && p <= TURN {
      SilentGrows([], ParseReply(names, max, t).nodes);
    } else if p == "" {
      NothingRead(names, max);
      SilentGrows(ParseReply(names, max, p).nodes, ParseReply(names, max, t).nodes);
    } else {
      LiteralFollows(TURN, p, t);
      MessagesGrow(names, max, p, t);
    }
  }

  lemma ReplyDrops(names: seq<string>, max: int, p: string, t: string, m: Message)
    requires p <= t && NoBraces(names) && CallDropped(names, max, p, t)
    ensures |VisitedAll(m, ParseReply(names, max, t).nodes).calls| <
            |VisitedAll(m, ParseReply(names, max, p).nodes).calls|
  {
    var n, k := |TURN|, ReplyFrom(p);
    ReplyIs(names, max, p);
    ReplyIs(names, max, t);
    DroppedBegins(names, max, p[k..], t[k..]);
    hide ParseReply, ReplyFrom, ParseMessages, MessagesFrom, NoBraces, DroppedAt, VisitedAll;
    if TURN <= p {
      Rest(p, t, n);
      ShiftedDrop(names, max, p, t, n, MessagesFrom(p[n..]));
      MessagesDrop(names, max, p[n..], t[n..], m);
    } else {
      assert k < |p|;
      LiteralFollows(TURN, p, t);
      MessagesDrop(names, max, p, t, m);
    }
  }

  function MessageOf(names: seq<string>, max: int, s: string): Message {
    VisitedAll(EMPTY, ParseReply(names, max, s).nodes)
  }

  /** While a reply arrives, the message of the longer text extends the one before, and the deltas between them can be
      computed, if and only if no call that has begun turns out not to fit the grammar. */
  lemma ReplyGrowsIff(names: seq<string>, max: int, p: string, t: string)
    requires p <= t && NoBraces(names)
    ensures var a, b := MessageOf(names, max, p), MessageOf(names, max, t);
      && (Extends(a, b) <==> !CallDropped(names, max, p, t))
      && (Computable(a, b) <==> !CallDropped(names, max, p, t))
  {
    var a, b := MessageOf(names, max, p), MessageOf(names, max, t);
    hide ParseReply, CallDropped, VisitedAll, NoBraces, GrowsList;
    if CallDropped(names, max, p, t) {
      ReplyDrops(names, max, p, t, EMPTY);
    } else {
      ReplyGrows(names, max, p, t);
      VisitedAllGrows(EMPTY, ParseReply(names, max, p).nodes, ParseReply(names, max, t).nodes);
      hide Extends, Computable;
      DiffsRebuildIff(a, b);
    }
  }

  // ---------- a whole run ----------

  function Replies(names: seq<string>, max: int, texts: seq<string>): (runs: seq<seq<Gemma.Node>>)
    ensures |runs| == |texts|
    ensures forall i :: 0 <= i < |texts| ==> runs[i] == ParseReply(names, max, texts[i]).nodes
  {
    seq(|texts|, i requires 0 <= i < |texts| => ParseReply(names, max, texts[i]).nodes)
  }

  /** For every text that arrives in pieces of any size, the client has exactly the current message at every point if
      and only if no call that has begun turns out not to fit. */
  lemma ReplyStreamsIff(names: seq<string>, max: int, texts: seq<string>)
    requires NoBraces(names) && forall i :: 0 < i < |texts| ==> texts[i - 1] <= texts[i]
    ensures AlwaysRebuilt(Messages(Replies(names, max, texts))) <==>
            forall i :: 0 < i < |texts| ==> !CallDropped(names, max, texts[i - 1], texts[i])
  {
    var ms := Messages(Replies(names, max, texts));
    hide MessageOf, CallDropped, NoBraces, Extends, AlwaysRebuilt;
    forall i | 0 <= i < |ms| ensures Extends(Last(ms[..i]), ms[i]) <==> !DroppedBefore(names, max, texts, i) {
      MessageExtends(names, max, texts, i);
    }
    RebuiltIff(ms);
    if !Growing(ms) {
      var i :| 0 <= i < |ms| && !Extends(Last(ms[..i]), ms[i]);
      assert DroppedBefore(names, max, texts, i);
    } else {
      forall i | 0 < i < |texts| ensures !CallDropped(names, max, texts[i - 1], texts[i]) {
        assert Extends(Last(ms[..i]), ms[i]) && !DroppedBefore(names, max, texts, i);
      }
    }
  }

  // Then the parses are a growing tree.
  lemma ReplyIsStream(names: seq<string>, max: int, texts: seq<string>)
    requires NoBraces(names) && forall i :: 0 < i < |texts| ==> texts[i - 1] <= texts[i]
    requires forall i :: 0 < i < |texts| ==> !CallDropped(names, max, texts[i - 1], texts[i])
    ensures IsStream(Replies(names, max, texts))
  {
    var runs := Replies(names, max, texts);
    forall i | 0 < i < |runs| ensures GrowsList(runs[i - 1], runs[i]) {
      hide ParseReply, GrowsList, CallDropped, NoBraces;
      ReplyGrows(names, max, texts[i - 1], texts[i]);
    }
  }

  // The i-th text shows that a call of the one before does not fit.
  predicate DroppedBefore(names: seq<string>, max: int, texts: seq<string>, i: nat)
    requires i < |texts|
  {
    i > 0 && CallDropped(names, max, texts[i - 1], texts[i])
  }

  lemma MessageExtends(names: seq<string>, max: int, texts: seq<string>, i: nat)
    requires NoBraces(names) && i < |texts| && (i > 0 ==> texts[i - 1] <= texts[i])
    ensures var ms := Messages(Replies(names, max, texts));
      Extends(Last(ms[..i]), ms[i]) <==> !DroppedBefore(names, max, texts, i)
  {
    var ms := Messages(Replies(names, max, texts));
    hide VisitedAll, ParseReply, CallDropped, NoBraces, Extends;
    assert forall j :: 0 <= j < |ms| ==> ms[j] == MessageOf(names, max, texts[j]);
    if i > 0 {
      ReplyGrowsIff(names, max, texts[i - 1], texts[i]);
      assert Last(ms[..i]) == ms[i - 1];
    } else {
      assert Last(ms[..i]) == EMPTY;
      EmptyExtends(ms[i]);
    }
  }

  lemma EmptyExtends(m: Message)
    ensures Extends(EMPTY, m)
  {
  }

  // ---------- a reply that was written out ----------

  // Nothing in c ends or may end it when rest comes behind it.
  predicate Clear(marks: seq<string>, c: string, rest: string) {
    forall k :: 0 <= k < |c| ==> !EndsAt(marks, c + rest, k)
  }

  lemma UntilStops(marks: seq<string>, c: string, rest: string)
    requires Clear(marks, c, rest) && rest != "" && Marked(marks, rest)
    ensures Until(marks, c + rest) == Done([], |c|)
  {
    UntilIs(marks, c + rest);
    assert (c + rest)[|c|..] == rest;
    assert EndsAt(marks, c + rest, |c|);
    hide Marked, MayMark;
  }

  lemma CallMarked(c: Call, rest: string)
    ensures TOOL_CALL <= CallText(c) + rest
  {
    hide Written;
    assert CallText(c) == TOOL_CALL + ("call:" + c.name + Written(Json.Object(c.args)) + BEHIND_CALL);
  }

  lemma CallsMarked(cs: seq<Call>)
    requires cs != []
    ensures TOOL_CALL <= CallsText(cs)
  {
    hide *;
    CallsTextIs(cs);
    CallMarked(cs[0], CallsText(cs[1..]));
  }

  lemma CallsTextIs(cs: seq<Call>)
    requires cs != []
    ensures CallsText(cs) == CallText(cs[0]) + CallsText(cs[1..])
  {
    hide CallText;
  }

  lemma MarkOfCalls(s: string)
    requires TOOL_CALL <= s
    ensures s != "" && Marked(CONTENT_ENDS, s) && Marked([TOOL_CALL], s) && Literal(CHANNEL, s).Fail?
  {
    assert TOOL_CALL in CONTENT_ENDS && TOOL_CALL in [TOOL_CALL];
    assert s[2] == TOOL_CALL[2] == 't' && CHANNEL[2] == 'c';
  }

  // The calls behind the messages.
  lemma CallsBehind(names: seq<string>, max: int, cs: seq<Call>, m: Message) returns (calls: seq<ToolCall>)
    requires NoBraces(names) && Callable(names, cs) && (max < 0 || |cs| <= max) && cs != []
    ensures VisitedAll(m, ParseMessages(names, max, CallsText(cs)).nodes) == m.(calls := m.calls + calls)
    ensures AreCallsOf(calls, cs)
  {
    var s := CallsText(cs);
    CallsMarked(cs);
    MarkOfCalls(s);
    hide CallsText, Callable, NoBraces, Marked, AreCallsOf, VisitedAll, ParseMessages, ParseCalls;
    assert "" + s == s;
    UntilStops(CONTENT_ENDS, "", s);
    UntilStops([TOOL_CALL], "", s);
    EmptyMessage(s);
    MessagesAre(names, max, s);
    ScanIs(names, max, s);
    assert s[0..] == s;
    calls := CallsRead(names, max, cs, m);
    var scan := Gemma.Node(OtherRule, Gemma.Untagged, s[..0], false, []);
    VisitedConcat(m, [scan], ParseCalls(names, max, s).nodes);
    ScanAddsNothing(m, scan);
  }

  lemma ScanAddsNothing(m: Message, scan: Gemma.Node)
    requires scan.tag == Gemma.Untagged && scan.children == []
    ensures VisitedAll(m, [scan]) == m
  {
    assert [scan][1..] == [];
    assert Visited(m, scan) == m;
  }

  lemma EmptyMessage(s: string)
    requires s != "" && Literal(CHANNEL, s).Fail? && Until(CONTENT_ENDS, s) == Done([], 0)
    ensures ParseMessage(s).Done? && ParseMessage(s).len == 0
  {
    ChannelIs(s);
    BodyIs(s);
    assert s[0..] == s;
    ContentIs(s);
    MessageIs(s);
    hide ParseChannel, ParseContent, MessageBody, ParseMessage, Until;
  }

  // What a content adds behind the thought in front of it.
  lemma ContentReads(m: Message, c: string, rest: string)
    requires Clear(CONTENT_ENDS, c, rest) && rest != "" && Marked(CONTENT_ENDS, rest)
    ensures var r := ParseContent(c + rest);
      r.Done? && r.len == |c| && VisitedAll(m, r.nodes) == m.(content := m.content + c)
  {
    UntilStops(CONTENT_ENDS, c, rest);
    ContentIs(c + rest);
    var r := ParseContent(c + rest);
    assert (c + rest)[..|c|] == c;
    hide ParseContent, Until;
    var text := TextNode(Gemma.Content, c, false);
    assert [text][1..] == [] && r.nodes[1..] == [] && r.nodes[0].children == [text];
    assert VisitedAll(m, [text]) == VisitedAll(Visited(m, text), []);
    assert VisitedAll(m, r.nodes) == VisitedAll(Visited(m, r.nodes[0]), []);
  }

  lemma ThoughtEndReads(r: string, rest: string)
    requires Clear([END_CHANNEL], r, END_CHANNEL + rest)
    ensures ThoughtEnd(r + (END_CHANNEL + rest)) == Done([TextNode(Gemma.Reasoning, r, false)], |r| + |END_CHANNEL|)
  {
    var e := END_CHANNEL + rest;
    var t := r + e;
    assert END_CHANNEL in [END_CHANNEL] && END_CHANNEL <= e;
    UntilStops([END_CHANNEL], r, e);
    ThoughtEndIs(t);
    assert t[..|r|] == r && t[|r|..] == e;
    hide ThoughtEnd, Until, Clear;
  }

  lemma ThoughtIs(s: string, k: nat)
    requires THOUGHT <= s && k == Skip(s, |THOUGHT|)
    ensures ParseThought(s) == Wrap(OtherRule, s, After([], k, ThoughtEnd(s[k..])))
  {
    hide ThoughtEnd, Skip;
  }

  lemma NothingSkipped(t: string)
    requires SpaceLen(t) == 0
    ensures var s := THOUGHT + t; THOUGHT <= s && Skip(s, |THOUGHT|) == |THOUGHT| && s[|THOUGHT|..] == t
  {
    assert (THOUGHT + t)[|THOUGHT|..] == t;
    hide SpaceLen;
  }

  lemma ThoughtParses(s: string, t: string, n: nat, r: Parse)
    requires THOUGHT <= s && n == |THOUGHT| && Skip(s, n) == n && s[n..] == t
    requires r == ThoughtEnd(t) && r.Done? && r.len <= |t|
    ensures ParseThought(s) == Wrap(OtherRule, s, Done(r.nodes, n + r.len))
  {
    hide ThoughtEnd, Skip, ParseThought, Wrap, THOUGHT;
    ThoughtIs(s, n);
    assert [] + r.nodes == r.nodes;
  }

  lemma ChannelParses(s: string, t: string)
    requires s == THOUGHT + t && ParseThought(s).Done?
    ensures ParseChannel(s) == ParseThought(s)
  {
    assert s[|CHANNEL|..] == "thought" + t && s[0..] == s;
    assert CHANNEL <= s;
    assert EmptyChannels(s) == Done([], 0);
    var r := ParseThought(s);
    assert [] + r.nodes == r.nodes;
    hide ParseThought, EmptyChannels;
  }

  lemma ThoughtReads(m: Message, r: string, rest: string)
    requires r == "" || !IsSpace(r[0])
    requires Clear([END_CHANNEL], r, END_CHANNEL + rest)
    ensures var x := ParseChannel(THOUGHT + (r + (END_CHANNEL + rest)));
      && x.Done? && x.len == |THOUGHT| + |r| + |END_CHANNEL|
      && VisitedAll(m, x.nodes) == m.(reasoning := m.reasoning + r)
  {
    var t := r + (END_CHANNEL + rest);
    var s := THOUGHT + t;
    assert SpaceLen(t) == 0;
    hide ThoughtEnd, SpaceLen, Clear, ParseThought, ParseChannel, VisitedAll;
    ThoughtEndReads(r, rest);
    NothingSkipped(t);
    ThoughtParses(s, t, |THOUGHT|, ThoughtEnd(t));
    ChannelParses(s, t);
    OneTextRead(m, ParseThought(s).nodes[0], TextNode(Gemma.Reasoning, r, false));
  }

  lemma OneTextRead(m: Message, n: Gemma.Node, text: Gemma.Node)
    requires n.tag == Gemma.Untagged && n.children == [text]
    ensures VisitedAll(m, [n]) == Visited(m, text)
  {
    assert [text][1..] == [] && [n][1..] == [];
    assert VisitedAll(m, [text]) == VisitedAll(Visited(m, text), []);
    assert VisitedAll(m, [n]) == VisitedAll(Visited(m, n), []);
  }

  function ThoughtOf(thought: Option<string>): string {
    if thought.Some? then thought.value else ""
  }

  function ThoughtText(thought: Option<string>): string {
    if thought.Some? then THOUGHT + thought.value + END_CHANNEL else ""
  }

  function ReplyText(thought: Option<string>, content: string, cs: seq<Call>): string {
    ThoughtText(thought) + (content + CallsText(cs))
  }

  // Texts that hold no mark, and a thought that does not begin with white space.
  predicate Plain(thought: Option<string>, content: string, cs: seq<Call>) {
    && Clear(CONTENT_ENDS, content, CallsText(cs))
    && (thought.Some? ==>
          var r := thought.value;
          (r == "" || !IsSpace(r[0])) && Clear([END_CHANNEL], r, END_CHANNEL + (content + CallsText(cs))))
  }

  lemma Regroup(a: string, b: string, c: string, d: string)
    ensures a + b + c + d == a + (b + (c + d)) && |a + b + c| == |a| + |b| + |c|
  {
  }

  lemma PlainIs(thought: Option<string>, content: string, cs: seq<Call>)
    requires Plain(thought, content, cs)
    ensures Clear(CONTENT_ENDS, content, CallsText(cs))
    ensures var rest := content + CallsText(cs);
      if thought.Some? then
        var r := thought.value;
        && (r == "" || !IsSpace(r[0])) && Clear([END_CHANNEL], r, END_CHANNEL + rest)
        && ReplyText(thought, content, cs) == THOUGHT + (r + (END_CHANNEL + rest))
        && |ThoughtText(thought)| == |THOUGHT| + |r| + |END_CHANNEL|
      else ReplyText(thought, content, cs) == rest && |ThoughtText(thought)| == 0
  {
    hide Clear, CallsText, IsSpace;
    var rest := content + CallsText(cs);
    assert "" + rest == rest;
    if thought.Some? {
      Regroup(THOUGHT, thought.value, END_CHANNEL, rest);
    }
  }

  lemma NoThoughtReads(m: Message, s: string)
    requires Literal(CHANNEL, s).Fail?
    ensures ParseChannel(s) == Done([], 0) && VisitedAll(m, []) == m.(reasoning := m.reasoning + "")
  {
    ChannelIs(s);
    hide ParseChannel, Literal;
    assert m.reasoning + "" == m.reasoning;
  }

  lemma ChannelReads(m: Message, thought: Option<string>, content: string, cs: seq<Call>)
    requires Plain(thought, content, cs) && TOOL_CALL <= CallsText(cs)
    ensures var x := ParseChannel(ReplyText(thought, content, cs));
      && x.Done? && x.len == |ThoughtText(thought)|
      && VisitedAll(m, x.nodes) == m.(reasoning := m.reasoning + ThoughtOf(thought))
  {
    hide ParseChannel, VisitedAll, Clear, CallsText, Plain, ReplyText, ThoughtText, Literal;
    PlainIs(thought, content, cs);
    if thought.Some? {
      ThoughtReads(m, thought.value, content + CallsText(cs));
    } else {
      NoChannel(content, CallsText(cs));
      NoThoughtReads(m, content + CallsText(cs));
    }
  }

  lemma NoChannel(content: string, rest: string)
    requires Clear(CONTENT_ENDS, content, rest) && TOOL_CALL <= rest
    ensures Literal(CHANNEL, content + rest).Fail?
  {
    var s := content + rest;
    if content == "" {
      assert s == rest;
      MarkOfCalls(rest);
    } else {
      assert s[0..] == s && !EndsAt(CONTENT_ENDS, s, 0);
      assert CHANNEL in CONTENT_ENDS;
    }
  }

  lemma MessageReads(m: Message, thought: Option<string>, content: string, cs: seq<Call>)
    requires Plain(thought, content, cs) && TOOL_CALL <= CallsText(cs)
    ensures var x := ParseMessage(ReplyText(thought, content, cs));
      && x.Done? && x.len == |ThoughtText(thought)| + |content|
      && VisitedAll(m, x.nodes) ==
         Message(m.reasoning + ThoughtOf(thought), m.content + content, m.calls)
  {
    var s, rest := ReplyText(thought, content, cs), CallsText(cs);
    MarkOfCalls(rest);
    ChannelReads(m, thought, content, cs);
    var x := ParseChannel(s);
    assert s[x.len..] == content + rest;
    var mid := VisitedAll(m, x.nodes);
    assert Clear(CONTENT_ENDS, content, rest);
    hide Plain, Clear, CallsText, ReplyText, ThoughtText, ParseChannel, ParseMessage, MessageBody, VisitedAll;
    hide ParseContent, Marked;
    ContentReads(mid, content, rest);
    BodyIs(s);
    MessageIs(s);
    VisitedConcat(m, x.nodes, ParseContent(content + rest).nodes);
    WrapReads(m, ParseMessage(s).nodes[0]);
  }

  lemma WrapReads(m: Message, n: Gemma.Node)
    requires n.tag == Gemma.Untagged
    ensures VisitedAll(m, [n]) == VisitedAll(m, n.children)
  {
    assert [n][1..] == [];
    assert VisitedAll(m, [n]) == VisitedAll(Visited(m, n), []);
  }

  /** A reply that was written out is read back as a whole: the thought, the content, and every call with its name and
      with arguments that are JSON for the object that was written. */
  lemma ReplyReads(names: seq<string>, max: int, thought: Option<string>, content: string, cs: seq<Call>)
    returns (calls: seq<ToolCall>)
    requires NoBraces(names) && Callable(names, cs) && (max < 0 || |cs| <= max) && cs != []
    requires Plain(thought, content, cs) && !(TURN <= ReplyText(thought, content, cs))
    ensures MessageOf(names, max, ReplyText(thought, content, cs)) ==
            Message(ThoughtOf(thought), content, calls)
    ensures AreCallsOf(calls, cs)
  {
    hide *;
    CallsMarked(cs);
    ReplyTextIs(thought, content, cs);
    NothingInFront(thought, content);
    MessageReads(EMPTY, thought, content, cs);
    var m := Message(ThoughtOf(thought), content, []);
    var n := |ThoughtText(thought)| + |content|;
    calls := CallsBehind(names, max, cs, m);
    TextRead(names, max, ReplyText(thought, content, cs), n, CallsText(cs), m, calls);
  }

  // A message of n characters in front of the calls that begin there.
  lemma TextRead(names: seq<string>, max: int, s: string, n: nat, rest: string, m: Message, calls: seq<ToolCall>)
    requires !(TURN <= s) && n <= |s| && s[n..] == rest && TOOL_CALL <= rest && m.calls == []
    requires ParseMessage(s).Done? && ParseMessage(s).len == n && VisitedAll(EMPTY, ParseMessage(s).nodes) == m
    requires n == 0 ==> m == EMPTY
    requires VisitedAll(m, ParseMessages(names, max, rest).nodes) == m.(calls := m.calls + calls)
    ensures MessageOf(names, max, s) == Message(m.reasoning, m.content, calls)
  {
    hide *;
    NotTurn(names, max, s, n);
    WholeReply(names, max, s, ParseMessage(s), rest, m);
    NoCallsBefore(m, calls);
  }

  lemma ReplyTextIs(thought: Option<string>, content: string, cs: seq<Call>)
    ensures var s, n := ReplyText(thought, content, cs), |ThoughtText(thought)| + |content|;
      |s| == n + |CallsText(cs)| && s[n..] == CallsText(cs)
  {
    hide CallsText;
  }

  lemma NothingInFront(thought: Option<string>, content: string)
    ensures |ThoughtText(thought)| + |content| == 0 ==> Message(ThoughtOf(thought), content, []) == EMPTY
    ensures Message(EMPTY.reasoning + ThoughtOf(thought), EMPTY.content + content, EMPTY.calls) ==
            Message(ThoughtOf(thought), content, [])
  {
    assert "" + ThoughtOf(thought) == ThoughtOf(thought) && "" + content == content;
  }

  lemma NoCallsBefore(m: Message, calls: seq<ToolCall>)
    requires m.calls == []
    ensures m.(calls := m.calls + calls) == Message(m.reasoning, m.content, calls)
  {
    assert [] + calls == calls;
  }

  lemma NotTurn(names: seq<string>, max: int, s: string, n: nat)
    requires n <= |s| && TOOL_CALL <= s[n..] && !(TURN <= s)
    ensures ParseReply(names, max, s) == ParseMessages(names, max, s) && s != ""
  {
    hide ParseMessages;
    assert s[n..][0] == s[n] == '<' && s[n..][3] == s[n + 3] == 'o' && n + |TOOL_CALL| <= |s|;
    assert |TURN| == |TOOL_CALL| + 1 && TURN[1] == '|' && TURN[3] == 'u';
    assert !(s <= TURN);
  }

  // The message in front of the calls, and the calls.
  lemma WholeReply(names: seq<string>, max: int, s: string, x: Parse, rest: string, mid: Message)
    requires x == ParseMessage(s) && x.Done? && x.len <= |s| && s[x.len..] == rest && s != ""
    requires ParseReply(names, max, s) == ParseMessages(names, max, s)
    requires VisitedAll(EMPTY, x.nodes) == mid && (x.len == 0 ==> mid == EMPTY)
    ensures MessageOf(names, max, s) == VisitedAll(mid, ParseMessages(names, max, rest).nodes)
  {
    hide ParseMessage, ParseMessages, ParseReply, VisitedAll;
    if x.len > 0 {
      MessagesBehind(names, max, s, x.nodes, x.len);
      VisitedConcat(EMPTY, x.nodes, ParseMessages(names, max, rest).nodes);
    } else {
      assert s[0..] == s;
    }
  }

  // ---------- while a written reply arrives ----------

  // Once the mark of a call has been seen, more of the text does not move the beginning of the calls.
  lemma {:induction false} FromStays(names: seq<string>, max: int, p: string, t: string)
    requires p <= t && TOOL_CALL <= p[MessagesFrom(p)..]
    ensures MessagesFrom(t) == MessagesFrom(p)
    decreases |p|
  {
    var k := MessagesFrom(p);
    var x := ParseMessage(p);
    hide ParseMessage, ParseMessages, MessagesFrom, ScanCalls, GrowsList, AllSilent, ScanFrom, EndsAt, MarkAt;
    MessagesAre(names, max, p);
    MessagesAre(names, max, t);
    MessageFollows(p, t);
    assert !x.More?;
    if x.Done? {
      WholeMark(p, k, x.len);
    }
    if x.Fail? || x.len == 0 {
      SameFrom(p, t);
    } else {
      Rest(p, t, x.len);
      assert p[x.len..][MessagesFrom(p[x.len..])..] == p[k..];
      FromStays(names, max, p[x.len..], t[x.len..]);
    }
  }

  lemma SameFrom(p: string, t: string)
    requires p <= t && TOOL_CALL <= p[ScanFrom(p)..]
    ensures ScanFrom(t) == ScanFrom(p)
  {
    SameScan(p, t);
    hide Until;
  }

  lemma CallsFrom(names: seq<string>, max: int, cs: seq<Call>)
    requires TOOL_CALL <= CallsText(cs)
    ensures MessagesFrom(CallsText(cs)) == 0
  {
    var s := CallsText(cs);
    MarkOfCalls(s);
    hide CallsText, Marked, ParseMessages;
    assert "" + s == s;
    UntilStops(CONTENT_ENDS, "", s);
    UntilStops([TOOL_CALL], "", s);
    EmptyMessage(s);
    MessagesAre(names, max, s);
  }

  lemma WrittenFrom(names: seq<string>, max: int, thought: Option<string>, content: string, cs: seq<Call>)
    requires Plain(thought, content, cs) && TOOL_CALL <= CallsText(cs)
    ensures var s, k := ReplyText(thought, content, cs), MessagesFrom(ReplyText(thought, content, cs));
      k <= |s| && s[k..] == CallsText(cs)
  {
    hide *;
    ReplyTextIs(thought, content, cs);
    CallsFrom(names, max, cs);
    MessageReads(EMPTY, thought, content, cs);
    FromBehind(names, max, ReplyText(thought, content, cs), CallsText(cs));
  }

  lemma FromBehind(names: seq<string>, max: int, s: string, rest: string)
    requires ParseMessage(s).Done? && ParseMessage(s).len <= |s| && s[ParseMessage(s).len..] == rest
    requires MessagesFrom(rest) == 0
    ensures MessagesFrom(s) <= |s| && s[MessagesFrom(s)..] == rest
  {
    var x := ParseMessage(s);
    hide ParseMessage, MessagesFrom;
    if x.len > 0 {
      MessagesBehind(names, max, s, x.nodes, x.len);
    } else {
      assert s[0..] == s;
    }
  }

  lemma WrittenNotDropped(names: seq<string>, max: int, thought: Option<string>, content: string, cs: seq<Call>,
                          p: string, t: string)
    requires NoBraces(names) && Callable(names, cs) && cs != [] && Plain(thought, content, cs)
    requires p <= t <= ReplyText(thought, content, cs) && !(TURN <= ReplyText(thought, content, cs))
    ensures !CallDropped(names, max, p, t)
  {
    var s, k := ReplyText(thought, content, cs), ReplyFrom(p);
    if CallDropped(names, max, p, t) {
      DroppedBegins(names, max, p[k..], t[k..]);
      CallsMarked(cs);
      NotInTurn(names, max, s, p, k);
      assert s[k..] == CallsText(cs) by {
        hide *;
        FromStays(names, max, p, s);
        WrittenFrom(names, max, thought, content, cs);
      }
      hide CallsText, ReplyText, Plain, ReplyFrom, Callable, NoBraces;
      Rest(p, t, k);
      Rest(t, s, k);
      NothingDropped(names, max, cs, p[k..], t[k..]);
    }
  }

  lemma NotInTurn(names: seq<string>, max: int, s: string, p: string, k: nat)
    requires p <= s && !(TURN <= s) && k == ReplyFrom(p) && TOOL_CALL <= p[k..]
    ensures ReplyFrom(p) == MessagesFrom(p)
  {
    ReplyIs(names, max, p);
    hide ReplyFrom, MessagesFrom;
  }

  /** However a reply that was written out arrives, nothing throws, and the client always has the current message. */
  lemma WrittenReplyStreams(names: seq<string>, max: int, thought: Option<string>, content: string, cs: seq<Call>,
                            texts: seq<string>)
    requires NoBraces(names) && Callable(names, cs) && cs != [] && Plain(thought, content, cs)
    requires !(TURN <= ReplyText(thought, content, cs)) && Arrives(texts, ReplyText(thought, content, cs))
    ensures AlwaysRebuilt(Messages(Replies(names, max, texts)))
  {
    hide NoBraces, Callable, Plain, ReplyText, CallDropped, AlwaysRebuilt, Replies, Messages;
    forall i | 0 < i < |texts| ensures !CallDropped(names, max, texts[i - 1], texts[i]) {
      WrittenNotDropped(names, max, thought, content, cs, texts[i - 1], texts[i]);
    }
    ReplyStreamsIff(names, max, texts);
  }

  /** What a reply with a thought, a content and one call with a string looks like. */
  lemma ReplyTextLooks(r: string, content: string, name: string, key: string, x: string)
    ensures ReplyText(Some(r), content, [Call(name, [(key, Json.String(x))])]) ==
      "<|channel>thought" + r + "<channel|>" +
      (content + ("<|tool_call>call:" + name + ("{" + (key + ":" + ("<|\"|>" + x + "<|\"|>")) + "}") + "<tool_call|>"))
  {
    var m := (key, Json.String(x));
    var c := Call(name, [m]);
    assert [m][1..] == [] && [c][1..] == [];
    var w := key + ":" + ("<|\"|>" + x + "<|\"|>");
    assert WrittenMember(m) == w;
    assert WrittenMembers([m]) == [WrittenMember(m)] + WrittenMembers([]);
    hide WrittenMember;
    assert WrittenMembers([m]) == [w];
    assert Joined([w]) == w by {
      assert [w][1..] == [] && MoreJoined([]) == "";
    }
    assert Written(Json.Object([m])) == "{" + w + "}";
    hide Written, WrittenMembers, Joined;
    assert CallsText([c]) == CallText(c) + "" == CallText(c);
  }
}
