/** What is shown of the thought and the content of a Gemma 4 reply while they arrive: all but what may be a mark. */
module GemmaOpen {
  import opened Text
  import opened Gemma
  import opened GemmaParser
  import opened GemmaStreaming
  import opened GemmaCalls
  import opened ToolMapper
  import opened MessageStream
  import opened GemmaReply

  // Nothing, or the beginning of a mark.
  predicate Beginning(marks: seq<string>, x: string) {
    x == "" || (MayMark(marks, x) && !Marked(marks, x))
  }

  lemma UntilOpen(marks: seq<string>, c: string, x: string)
    requires Clear(marks, c, x) && Beginning(marks, x)
    ensures Until(marks, c + x) == if x == "" then More([]) else Done([], |c|)
  {
    UntilIs(marks, c + x);
    if x == "" {
      assert c + x == c;
    } else {
      assert (c + x)[|c|..] == x;
      assert EndsAt(marks, c + x, |c|);
    }
    hide Marked, MayMark;
  }

  lemma ContentOpens(m: Message, c: string, x: string)
    requires Clear(CONTENT_ENDS, c, x) && Beginning(CONTENT_ENDS, x)
    ensures var r := ParseContent(c + x);
      && (if x == "" then r.More? else r.Done? && r.len == |c|)
      && VisitedAll(m, r.nodes) == m.(content := m.content + c)
  {
    hide Clear, Beginning;
    UntilOpen(CONTENT_ENDS, c, x);
    ContentIs(c + x);
    var r := ParseContent(c + x);
    var partial := Until(CONTENT_ENDS, c + x).More?;
    hide ParseContent, Until;
    assert (c + x)[..|c|] == c && (x == "" ==> c + x == c);
    OneTextRead(m, r.nodes[0], TextNode(Gemma.Content, c, partial));
  }

  lemma ThoughtEndOpens(r: string, x: string)
    requires Clear([END_CHANNEL], r, x) && Beginning([END_CHANNEL], x)
    ensures exists partial :: ThoughtEnd(r + x) == More([TextNode(Gemma.Reasoning, r, partial)])
  {
    UntilOpen([END_CHANNEL], r, x);
    ThoughtEndIs(r + x);
    var u := Until([END_CHANNEL], r + x);
    assert (r + x)[..|r|] == r && (x == "" ==> r + x == r) && (r + x)[|r|..] == x;
    hide ThoughtEnd, Until, Clear, Marked, MayMark;
    assert ThoughtEnd(r + x) == More([TextNode(Gemma.Reasoning, r, u.More?)]);
  }

  // A thought whose end mark has not been seen.
  lemma ThoughtOpens(m: Message, r: string, x: string)
    requires (r == "" || !IsSpace(r[0])) && Clear([END_CHANNEL], r, x) && Beginning([END_CHANNEL], x)
    ensures var y := ParseChannel(THOUGHT + (r + x));
      y.More? && VisitedAll(m, y.nodes) == m.(reasoning := m.reasoning + r)
  {
    var t := r + x;
    var s := THOUGHT + t;
    NoSpace(r, x);
    hide ThoughtEnd, SpaceLen, Clear, Beginning, ParseThought, ParseChannel, VisitedAll, Skip;
    ThoughtEndOpens(r, x);
    var partial :| ThoughtEnd(t) == More([TextNode(Gemma.Reasoning, r, partial)]);
    NothingSkipped(t);
    ThoughtIs(s, |THOUGHT|);
    var text := TextNode(Gemma.Reasoning, r, partial);
    assert [] + [text] == [text];
    assert ParseThought(s) == More([Gemma.Node(OtherRule, Gemma.Untagged, s, true, [text])]);
    ChannelOpens(s, t);
    OneTextRead(m, ParseThought(s).nodes[0], text);
  }

  lemma NoSpace(r: string, x: string)
    requires (r == "" || !IsSpace(r[0])) && Beginning([END_CHANNEL], x)
    ensures SpaceLen(r + x) == 0
  {
    if r == "" && x != "" {
      assert r + x == x;
      var m :| m in [END_CHANNEL] && x <= m;
      assert x[0] == '<';
    }
  }

  lemma ChannelOpens(s: string, t: string)
    requires s == THOUGHT + t && ParseThought(s).More?
    ensures ParseChannel(s) == ParseThought(s)
  {
    assert s[|CHANNEL|..] == "thought" + t && s[0..] == s;
    assert CHANNEL <= s;
    assert EmptyChannels(s) == Done([], 0);
    var r := ParseThought(s);
    assert [] + r.nodes == r.nodes;
    hide ParseThought, EmptyChannels;
  }

  // ---------- empty channels and white space in front of a thought ----------

  function Channels(k: nat): string {
    if k == 0 then "" else CHANNEL + Channels(k - 1)
  }

  // The mark of a thought behind k empty channels, and the white space behind it.
  function Opening(k: nat, sp: string): string {
    Channels(k) + (THOUGHT + sp)
  }

  predicate AllSpace(sp: string) {
    forall i :: 0 <= i < |sp| ==> IsSpace(sp[i])
  }

  lemma {:induction false} SpacesLen(sp: string, t: string)
    requires AllSpace(sp) && SpaceLen(t) == 0
    ensures SpaceLen(sp + t) == |sp|
  {
    if sp == "" {
      assert sp + t == t;
    } else {
      assert (sp + t)[1..] == sp[1..] + t;
      SpacesLen(sp[1..], t);
    }
  }

  lemma MarkOfThought(s: string)
    requires THOUGHT <= s
    ensures CHANNEL <= s && "thought" <= s[|CHANNEL|..]
  {
    assert THOUGHT == CHANNEL + "thought";
  }

  lemma NoneToSkip(s: string)
    requires s != "" && CHANNEL <= s && "thought" <= s[|CHANNEL|..]
    ensures EmptyChannels(s) == Done([], 0)
  {
  }

  lemma OneToSkip(rest: string)
    requires CHANNEL <= rest
    ensures EmptyChannels(CHANNEL + rest) == After([], |CHANNEL|, EmptyChannels(rest))
  {
    var t := CHANNEL + rest;
    assert t[|CHANNEL|..] == rest && CHANNEL <= t;
    assert rest[0] == '<';
    assert Literal("thought", rest).Fail?;
  }

  lemma ChannelsOf(k: nat, s: string)
    ensures Channels(0) + s == s && |Channels(0)| == 0
    ensures k > 0 ==> Channels(k) + s == CHANNEL + (Channels(k - 1) + s)
    ensures k > 0 ==> |Channels(k)| == |CHANNEL| + |Channels(k - 1)|
  {
  }

  lemma InFront(rest: string)
    ensures CHANNEL <= CHANNEL + rest
  {
  }

  lemma {:induction false} ChannelsSkipped(k: nat, s: string)
    requires THOUGHT <= s
    ensures EmptyChannels(Channels(k) + s) == Done([], |Channels(k)|) && CHANNEL <= Channels(k) + s
  {
    hide *;
    ChannelsOf(k, s);
    if k == 0 {
      MarkOfThought(s);
      NoneToSkip(s);
    } else {
      var rest := Channels(k - 1) + s;
      ChannelsSkipped(k - 1, s);
      OneToSkip(rest);
      InFront(rest);
      AfterDone(|CHANNEL|, |Channels(k - 1)|);
    }
  }

  lemma AfterDone(m: nat, n: nat)
    ensures After([], m, Done([], n)) == Done([], m + n)
  {
    var none: seq<Gemma.Node> := [];
    assert none + none == none;
  }

  // What is read behind them is what is read behind the mark alone.
  lemma OpeningReads(m: Message, k: nat, sp: string, t: string)
    requires AllSpace(sp) && SpaceLen(t) == 0
    ensures var n, x, y := |Opening(k, sp)|, ParseChannel(Opening(k, sp) + t), ParseChannel(THOUGHT + t);
      && !x.Fail? && (x.Done? <==> y.Done?) && !y.Fail? && (x.Done? ==> x.len - n == y.len - |THOUGHT|)
      && VisitedAll(m, x.nodes) == VisitedAll(m, y.nodes)
  {
    hide *;
    var s := THOUGHT + (sp + t);
    assert Opening(k, sp) + t == Channels(k) + s by {
      OpeningIs(k, sp);
      assert Channels(k) + (THOUGHT + sp) + t == Channels(k) + (THOUGHT + (sp + t));
    }
    OpeningIs(k, sp);
    ChannelIsThought(k, s);
    NothingInChannels();
    assert "" + (THOUGHT + t) == THOUGHT + t;
    ChannelIsThought(0, THOUGHT + t);
    SpacesLen(sp, t);
    assert "" + t == t;
    NoSpaces();
    ThoughtBehindSpace(sp, t);
    ThoughtBehindSpace("", t);
    var a, b := ParseThought(s), ParseThought(THOUGHT + t);
    WrapReads(m, a.nodes[0]);
    WrapReads(m, b.nodes[0]);
  }

  lemma OpeningIs(k: nat, sp: string)
    ensures Opening(k, sp) == Channels(k) + (THOUGHT + sp)
    ensures |Opening(k, sp)| == |Channels(k)| + |THOUGHT| + |sp|
  {
    hide Channels;
  }

  lemma NoSpaces()
    ensures AllSpace("")
  {
  }

  lemma NothingInChannels()
    ensures Channels(0) == ""
  {
  }

  lemma ChannelIsThought(k: nat, s: string)
    requires THOUGHT <= s
    ensures var x, y := ParseChannel(Channels(k) + s), ParseThought(s);
      && (x.Fail? <==> y.Fail?) && (x.Done? <==> y.Done?) && (x.Done? ==> x.len == |Channels(k)| + y.len)
      && (!x.Fail? ==> x.nodes == y.nodes)
  {
    hide EmptyChannels, ParseThought, Channels;
    var r := ParseThought(s);
    assert !r.Fail? ==> [] + r.nodes == r.nodes;
    ChannelsSkipped(k, s);
    var t := Channels(k) + s;
    assert t[|Channels(k)|..] == s;
    assert Literal(CHANNEL, t) == Done([], |CHANNEL|);
  }

  lemma ThoughtBehindSpace(sp: string, t: string)
    requires AllSpace(sp) && SpaceLen(sp + t) == |sp|
    ensures var s := THOUGHT + (sp + t);
      && THOUGHT <= s
      && var x, r := ThoughtEnd(t), ParseThought(s);
         && !r.Fail? && !x.Fail? && (r.Done? <==> x.Done?) && (r.Done? ==> r.len == |THOUGHT| + |sp| + x.len)
         && r.nodes == [r.nodes[0]] && r.nodes[0].tag == Gemma.Untagged && r.nodes[0].children == x.nodes
  {
    var s := THOUGHT + (sp + t);
    hide ThoughtEnd, SpaceLen, ParseThought;
    assert s[|THOUGHT|..] == sp + t;
    var k := Skip(s, |THOUGHT|);
    assert k == |THOUGHT| + |sp| && s[k..] == t;
    ThoughtEndIs(t);
    ThoughtIs(s, k);
    var x := ThoughtEnd(t);
    assert [] + x.nodes == x.nodes;
  }

  // ---------- messages ----------

  lemma BodyOpens(names: seq<string>, max: int, m: Message, s: string)
    requires s != "" && MessageBody(s).More?
    ensures VisitedAll(m, ParseMessages(names, max, s).nodes) == VisitedAll(m, MessageBody(s).nodes)
  {
    MessageIs(s);
    MessagesAre(names, max, s);
    hide MessageBody, ParseMessage, ParseMessages, VisitedAll;
    WrapReads(m, ParseMessage(s).nodes[0]);
  }

  // A message that ends in front of the beginning of a mark.
  lemma BodyStops(names: seq<string>, max: int, m: Message, s: string)
    requires MessageBody(s).Done? && 0 < MessageBody(s).len < |s|
    requires var x := s[MessageBody(s).len..]; MayMark(CONTENT_ENDS, x) && !Marked(CONTENT_ENDS, x)
    ensures VisitedAll(m, ParseMessages(names, max, s).nodes) == VisitedAll(m, MessageBody(s).nodes)
  {
    hide *;
    MessageIs(s);
    var n := MessageBody(s).len;
    MessagesAre(names, max, s);
    WrappedDone(s, MessageBody(s));
    var y, more := ParseMessage(s), ParseMessages(names, max, s[n..]);
    PartialSilent(names, max, s[n..]);
    MessagesBehind(names, max, s, y.nodes, n);
    VisitedConcat(m, y.nodes, more.nodes);
    WrapReads(m, y.nodes[0]);
    AllSilentAddNothing(VisitedAll(m, y.nodes), more.nodes);
  }

  lemma WrappedDone(s: string, x: Parse)
    requires x.Done? && x.len <= |s|
    ensures var y := Wrap(OtherRule, s, x);
      && y.Done? && y.len == x.len && |y.nodes| == 1 && y.nodes == [y.nodes[0]] && y == Done(y.nodes, y.len)
      && y.nodes[0].tag == Gemma.Untagged && y.nodes[0].children == x.nodes
  {
  }

  // Where no channel begins, there is only content.
  lemma NoChannelYet(c: string, x: string)
    requires c != "" && Clear(CONTENT_ENDS, c, x)
    ensures Literal(CHANNEL, c + x).Fail?
  {
    var s := c + x;
    assert s[0..] == s && !EndsAt(CONTENT_ENDS, s, 0);
    assert CHANNEL in CONTENT_ENDS;
  }

  // How a thought may be written, if there is one: behind k empty channels, with white space sp behind its mark.
  function Spelled(thought: Option<string>, k: nat, sp: string): string {
    if thought.Some? then Opening(k, sp) + (thought.value + END_CHANNEL) else ""
  }

  predicate MaySpell(thought: Option<string>, sp: string, rest: string) {
    thought.Some? ==>
      var r := thought.value; AllSpace(sp) && (r == "" || !IsSpace(r[0])) && Clear([END_CHANNEL], r, END_CHANNEL + rest)
  }

  lemma ThoughtBefore(m: Message, r: string, k: nat, sp: string, rest: string)
    requires AllSpace(sp) && (r == "" || !IsSpace(r[0])) && Clear([END_CHANNEL], r, END_CHANNEL + rest)
    ensures var s := Spelled(Some(r), k, sp) + rest;
      var y := ParseChannel(s);
      && y.Done? && y.len == |Spelled(Some(r), k, sp)| <= |s| && s[y.len..] == rest
      && VisitedAll(m, y.nodes) == m.(reasoning := m.reasoning + r)
  {
    var t := r + (END_CHANNEL + rest);
    assert SpaceLen(t) == 0;
    assert Spelled(Some(r), k, sp) == Opening(k, sp) + (r + END_CHANNEL);
    hide *;
    assert Opening(k, sp) + (r + END_CHANNEL) + rest == Opening(k, sp) + t;
    ThoughtReads(m, r, rest);
    OpeningReads(m, k, sp, t);
  }

  lemma ChannelBefore(m: Message, thought: Option<string>, k: nat, sp: string, c: string, x: string)
    requires (thought.None? ==> c != "" && Clear(CONTENT_ENDS, c, x)) && MaySpell(thought, sp, c + x)
    ensures var s := Spelled(thought, k, sp) + (c + x);
      var y := ParseChannel(s);
      && y.Done? && y.len == |Spelled(thought, k, sp)| && s[y.len..] == c + x
      && VisitedAll(m, y.nodes) == m.(reasoning := m.reasoning + ThoughtOf(thought))
  {
    hide ParseChannel, VisitedAll, Clear, Literal, Opening, AllSpace;
    if thought.Some? {
      ThoughtBefore(m, thought.value, k, sp, c + x);
    } else {
      assert "" + (c + x) == c + x && (c + x)[0..] == c + x;
      NoChannelYet(c, x);
      NoThoughtReads(m, c + x);
    }
  }

  // What the body of a message adds: its thought and its content.
  lemma BodyReads(m: Message, thought: Option<string>, k: nat, sp: string, c: string, x: string)
    requires (thought.None? ==> c != "") && MaySpell(thought, sp, c + x)
    requires Clear(CONTENT_ENDS, c, x) && Beginning(CONTENT_ENDS, x)
    ensures var s := Spelled(thought, k, sp) + (c + x);
      var b := MessageBody(s);
      && (if x == "" then b.More? else b.Done? && b.len == |Spelled(thought, k, sp)| + |c|)
      && VisitedAll(m, b.nodes) == Message(m.reasoning + ThoughtOf(thought), m.content + c, m.calls)
  {
    hide *;
    ChannelBefore(m, thought, k, sp, c, x);
    var s := Spelled(thought, k, sp) + (c + x);
    var y := ParseChannel(s);
    var mid := VisitedAll(m, y.nodes);
    ContentOpens(mid, c, x);
    GemmaReply.BodyIs(s);
    VisitedConcat(m, y.nodes, ParseContent(c + x).nodes);
  }

  lemma MessageOpens(names: seq<string>, max: int, m: Message, thought: Option<string>, k: nat, sp: string,
                     c: string, x: string)
    requires Clear(CONTENT_ENDS, c, x) && Beginning(CONTENT_ENDS, x) && MaySpell(thought, sp, c + x)
    ensures VisitedAll(m, ParseMessages(names, max, Spelled(thought, k, sp) + (c + x)).nodes) ==
            Message(m.reasoning + ThoughtOf(thought), m.content + c, m.calls)
  {
    hide *;
    if thought.None? && c == "" {
      NothingOpens(names, max, m, thought, k, sp, x);
    } else {
      SplitBehind(Spelled(thought, k, sp), c, x);
      BeginningIs(x);
      ThoughtLen(thought, k, sp);
      var s := Spelled(thought, k, sp) + (c + x);
      BodyReads(m, thought, k, sp, c, x);
      if x == "" {
        BodyOpens(names, max, m, s);
      } else {
        BodyStops(names, max, m, s);
      }
    }
  }

  lemma SplitBehind(a: string, c: string, x: string)
    ensures var s, n := a + (c + x), |a| + |c|; |s| == n + |x| && s[n..] == x
  {
  }

  lemma BeginningIs(x: string)
    ensures Beginning(CONTENT_ENDS, x) && x != "" ==> MayMark(CONTENT_ENDS, x) && !Marked(CONTENT_ENDS, x)
  {
  }

  lemma ThoughtLen(thought: Option<string>, k: nat, sp: string)
    ensures thought.Some? ==> |Spelled(thought, k, sp)| > 0
  {
  }

  // Neither a thought nor a content has begun.
  lemma NothingOpens(names: seq<string>, max: int, m: Message, thought: Option<string>, k: nat, sp: string, x: string)
    requires thought.None? && Beginning(CONTENT_ENDS, x)
    ensures VisitedAll(m, ParseMessages(names, max, Spelled(thought, k, sp) + ("" + x)).nodes) ==
            Message(m.reasoning + ThoughtOf(thought), m.content + "", m.calls)
  {
    assert Spelled(thought, k, sp) + ("" + x) == x && ThoughtOf(thought) == "";
    assert m.reasoning + "" == m.reasoning && m.content + "" == m.content;
    BeginningIs(x);
    hide *;
    if x == "" {
      NothingRead(names, max);
    } else {
      PartialSilent(names, max, x);
    }
    AllSilentAddNothing(m, ParseMessages(names, max, x).nodes);
  }

  // ---------- the theorems ----------

  // A reply with or without the mark of the turn in front of it; without it, the text must not look like one.
  predicate Turned(turn: bool, s: string) {
    turn || s == "" || Literal(TURN, s).Fail?
  }

  function TurnText(turn: bool, s: string): string {
    if turn then TURN + s else s
  }

  lemma TurnedReply(names: seq<string>, max: int, turn: bool, s: string)
    requires Turned(turn, s)
    ensures MessageOf(names, max, TurnText(turn, s)) == VisitedAll(EMPTY, ParseMessages(names, max, s).nodes)
  {
    ReplyIs(names, max, TurnText(turn, s));
    hide ParseReply, ParseMessages, VisitedAll;
    if turn {
      assert (TURN + s)[|TURN|..] == s && TURN <= TURN + s;
    }
  }

  lemma NotTurnMark(k: nat, sp: string, t: string)
    ensures Turned(false, Opening(k, sp) + t)
  {
    var s := Opening(k, sp) + t;
    assert CHANNEL <= Opening(k, sp) by {
      assert k > 0 ==> Channels(k) == CHANNEL + Channels(k - 1);
    }
    assert s[2] == CHANNEL[2] == 'c' && TURN[2] == 't';
  }

  lemma TurnedBy(turn: bool, s: string)
    ensures turn || Turned(false, s) ==> Turned(turn, s)
  {
  }

  /** A thought that has not ended is shown as far as it has been read, up to what may become its end mark. */
  lemma OpenThoughtShows(names: seq<string>, max: int, turn: bool, k: nat, sp: string, r: string, x: string)
    requires AllSpace(sp) && (r == "" || !IsSpace(r[0])) && Clear([END_CHANNEL], r, x) && Beginning([END_CHANNEL], x)
    ensures MessageOf(names, max, TurnText(turn, Opening(k, sp) + (r + x))) == Message(r, "", [])
  {
    assert "" + r == r;
    hide *;
    var s := Opening(k, sp) + (r + x);
    NotTurnMark(k, sp, r + x);
    TurnedBy(turn, s);
    TurnedReply(names, max, turn, s);
    NoSpace(r, x);
    ThoughtOpens(EMPTY, r, x);
    OpeningReads(EMPTY, k, sp, r + x);
    GemmaReply.BodyIs(s);
    ThoughtLen(Some(r), k, sp);
    OpeningIs(k, sp);
    BodyOpens(names, max, EMPTY, s);
    EmptyIs();
  }

  lemma EmptyIs()
    ensures EMPTY == Message("", "", [])
  {
  }

  /** So is a content, behind the whole thought in front of it, up to what may become a mark. */
  lemma OpenContentShows(names: seq<string>, max: int, turn: bool, thought: Option<string>, k: nat, sp: string,
                         c: string, x: string)
    requires Turned(turn, Spelled(thought, k, sp) + (c + x)) && MaySpell(thought, sp, c + x)
    requires Clear(CONTENT_ENDS, c, x) && Beginning(CONTENT_ENDS, x)
    ensures MessageOf(names, max, TurnText(turn, Spelled(thought, k, sp) + (c + x))) ==
            Message(ThoughtOf(thought), c, [])
  {
    hide *;
    TurnedReply(names, max, turn, Spelled(thought, k, sp) + (c + x));
    MessageOpens(names, max, EMPTY, thought, k, sp, c, x);
    NothingInFront(thought, c);
  }
}
