/** The tool calls at the end of a Gemma 4 reply, from their text: how they are parsed, when their trees grow while they
    arrive, and what calls that were written out are read as. */
module GemmaCalls {
  import opened Text
  import opened Gemma
  import opened GemmaParser
  import opened GemmaTrees
  import opened GemmaWritten
  import opened GemmaStreaming
  import opened ToolMapper
  import opened MessageDiff
  import opened MessageStream
  import Json

  const BEFORE_CALL := "<|tool_call>call:"
  const BEHIND_CALL := "<tool_call|>"

  // ---------- the grammar of the calls ----------

  function Tagged(tag: Gemma.Tag, s: string, r: Parse): (w: Parse)
    requires r.Done? ==> r.len <= |s|
    ensures !w.Fail? ==> |w.nodes| == 1
    ensures w.Done? ==> r.Done? && w.len == r.len
  {
    match r
    case Fail => Fail
    case More(ns) => More([Gemma.Node(OtherRule, tag, s, true, ns)])
    case Done(ns, n) => Done([Gemma.Node(OtherRule, tag, s[..n], false, ns)], n)
  }

  function OpenNode(name: string): Gemma.Node {
    Gemma.Node(OtherRule, Gemma.Untagged, name, false, [Gemma.Node(OtherRule, Gemma.ToolName, name, false, [])])
  }

  // The name with the brace behind it; nothing of them is left in the tree before both are complete.
  function ParseOpen(name: string, s: string): (r: Parse)
    ensures r.Done? ==> r == Done([OpenNode(name)], |name|) && name + "{" <= s
  {
    var n := Literal(name, s);
    if !n.Done? then n
    else
      match Literal("{", s[n.len..])
      case Fail => Fail
      case More(_) => More([])
      case Done(_, _) => assert name + "{" <= s; Done([OpenNode(name)], n.len)
  }

  function ParseArgs(s: string): (r: Parse)
    ensures !r.Fail? ==> |r.nodes| == 1
    ensures r.Done? ==> r.len <= |s|
  {
    Tagged(Gemma.ToolArgs, s, ParseList(InDict, s))
  }

  function CallBody(name: string, s: string): (r: Parse)
    ensures r.Done? ==> r.len <= |s|
  {
    var open := ParseOpen(name, s);
    if open.Done? then After(open.nodes, open.len, ParseArgs(s[open.len..])) else open
  }

  function ParseCall(name: string, s: string): (r: Parse)
    ensures !r.Fail? ==> |r.nodes| == 1
    ensures r.Done? ==> r.len <= |s|
  {
    Wrap(OtherRule, s, Tagged(Gemma.Tool, s, CallBody(name, s)))
  }

  // The first tool that does not fail.
  function ParseChoice(names: seq<string>, s: string): (r: Parse)
    ensures r.Done? ==> r.len <= |s|
  {
    if names == [] then Fail
    else if !ParseCall(names[0], s).Fail? then ParseCall(names[0], s)
    else ParseChoice(names[1..], s)
  }

  function ChoiceEnd(names: seq<string>, s: string): (r: Parse)
    ensures r.Done? ==> |BEHIND_CALL| <= r.len <= |s|
  {
    var r := ParseChoice(names, s);
    if r.Done? then After(r.nodes, r.len, Literal(BEHIND_CALL, s[r.len..])) else r
  }

  // One call with its marks.
  function ParseMarked(names: seq<string>, s: string): (r: Parse)
    ensures r.Done? ==> 0 < r.len <= |s|
  {
    var mark := Literal(BEFORE_CALL, s);
    if mark.Done? then After([], mark.len, ChoiceEnd(names, s[mark.len..])) else mark
  }

  // Calls as long as they do not fail: at most `max`, or any number if it is negative.
  function ParseCalls(names: seq<string>, max: int, s: string): (r: Parse)
    ensures !r.Fail?
    decreases |s|
  {
    if s == "" || max == 0 then Done([], 0)
    else
      var r := ParseMarked(names, s);
      match r
      case Fail => Done([], 0)
      case More(_) => r
      case Done(ns, n) => After(ns, n, ParseCalls(names, if max < 0 then max else max - 1, s[n..]))
  }

  // ---------- more of a call ----------

  lemma TaggedFollows(tag: Gemma.Tag, p: string, t: string, x: Parse, y: Parse)
    requires p <= t && Follows(p, t, x, y) && (y.Done? ==> y.len <= |t|)
    requires tag != Gemma.ToolName
    ensures Follows(p, t, Tagged(tag, p, x), Tagged(tag, t, y))
  {
    match x
    case Fail =>
    case Done(ns, n) => assert p[..n] == t[..n];
    case More(ns) =>
      if !y.Fail? {
        var a, b := Tagged(tag, p, x).nodes[0], Tagged(tag, t, y).nodes[0];
        assert Cut(a, b);
      }
  }

  lemma OpenFollows(name: string, p: string, t: string)
    requires p <= t
    ensures Follows(p, t, ParseOpen(name, p), ParseOpen(name, t))
  {
    if name != "" {
      LiteralFollows(name, p, t);
    }
    if name <= p {
      Rest(p, t, |name|);
      LiteralFollows("{", p[|name|..], t[|name|..]);
    }
  }

  lemma ArgsFollow(p: string, t: string)
    requires p <= t
    ensures Follows(p, t, ParseArgs(p), ParseArgs(t))
  {
    ListFollows(InDict, p, t);
    hide ParseList;
    TaggedFollows(Gemma.ToolArgs, p, t, ParseList(InDict, p), ParseList(InDict, t));
  }

  lemma BodyFollows(name: string, p: string, t: string)
    requires p <= t
    ensures Follows(p, t, CallBody(name, p), CallBody(name, t))
  {
    OpenFollows(name, p, t);
    var x, y := ParseOpen(name, p), ParseOpen(name, t);
    var n := |name|;
    hide ParseOpen, ParseArgs, Follows;
    FollowsIs(p, t, x, y);
    if x.Done? {
      Rest(p, t, n);
      ArgsFollow(p[n..], t[n..]);
      AfterFollows(p, t, x.nodes, n, ParseArgs(p[n..]), ParseArgs(t[n..]));
    } else if x.More? && y.Done? {
      MoreBehind(p, t, x, y, n, ParseArgs(t[n..]));
    }
  }

  // ---------- growing lists of nodes ----------

  lemma {:induction false} SilentGrows(xs: seq<Gemma.Node>, ys: seq<Gemma.Node>)
    requires AllSilent(xs)
    ensures GrowsList(xs, ys)
  {
    if xs != [] {
      SilentGrows(xs[1..], ys);
    }
  }

  lemma {:induction false} SilentInFront(xs: seq<Gemma.Node>, y: Gemma.Node, ys: seq<Gemma.Node>)
    requires Silent(y) && GrowsList(xs, ys)
    ensures GrowsList(xs, [y] + ys)
  {
    assert ([y] + ys)[1..] == ys;
    if xs != [] && Silent(xs[0]) {
      SilentInFront(xs[1..], y, ys);
    }
  }

  lemma {:induction false} GrowsBehind(ns: seq<Gemma.Node>, xs: seq<Gemma.Node>, ys: seq<Gemma.Node>)
    requires GrowsList(xs, ys)
    ensures GrowsList(ns + xs, ns + ys)
  {
    if ns == [] {
      assert ns + xs == xs && ns + ys == ys;
    } else {
      assert (ns + xs)[1..] == ns[1..] + xs && (ns + ys)[1..] == ns[1..] + ys;
      GrowsBehind(ns[1..], xs, ys);
      assert [ns[0]] + (ns[1..] + ys) == ns + ys;
      hide Silent, Grows;
      if Silent(ns[0]) {
        SilentInFront(ns[1..] + xs, ns[0], ns[1..] + ys);
      } else {
        SameGrows(ns[0]);
      }
    }
  }

  lemma SameGrows(n: Gemma.Node)
    ensures Grows(n, n)
  {
  }

  // ---------- more of one call ----------

  // What more of the text makes of the same rule: failures and ends stay, and otherwise the message may only grow.
  predicate Grew(x: Parse, y: Parse) {
    match x
    case Fail => y.Fail?
    case Done(_, _) => y == x
    case More(ns) => y.Fail? || GrowsList(ns, y.nodes)
  }

  function CallNode(text: string, partial: bool, ns: seq<Gemma.Node>): Gemma.Node {
    Gemma.Node(OtherRule, Gemma.Untagged, text, partial, [Gemma.Node(OtherRule, Gemma.Tool, text, partial, ns)])
  }

  lemma CallIs(name: string, s: string)
    ensures var x, r := CallBody(name, s), ParseCall(name, s);
      match x
      case Fail => r.Fail?
      case More(ns) => r == More([CallNode(s, true, ns)])
      case Done(ns, n) => r == Done([CallNode(s[..n], false, ns)], n)
  {
    hide CallBody;
  }

  lemma SilentCall(text: string, partial: bool, ns: seq<Gemma.Node>)
    ensures var tool := Gemma.Node(OtherRule, Gemma.Tool, text, partial, ns);
      AllSilent([CallNode(text, partial, ns)]) <==> CallsOf(tool) == []
  {
    var tool := Gemma.Node(OtherRule, Gemma.Tool, text, partial, ns);
    var call := CallNode(text, partial, ns);
    hide CallsOf;
    assert [tool][1..] == [] && [call][1..] == [];
    assert AllSilent([tool]) == Silent(tool);
    assert Silent(call) == AllSilent([tool]);
  }

  lemma ToolAdds(tool: Gemma.Node)
    requires tool.tag == Gemma.Tool
    ensures Visited(EMPTY, tool).calls == CallsOf(tool)
  {
    assert [] + CallsOf(tool) == CallsOf(tool);
  }

  lemma NodesGrow(a: Gemma.Node, b: Gemma.Node)
    requires Grows(a, b) && (Silent(b) ==> Silent(a))
    ensures GrowsList([a], [b])
  {
    assert [a][1..] == [] && [b][1..] == [];
    hide Grows, Silent;
  }

  lemma ToolNodesGrow(u: Gemma.Node, v: Gemma.Node)
    requires u.tag == Gemma.Tool && v.tag == Gemma.Tool && CutList(u.children, v.children)
    ensures GrowsList([u], [v]) && (CallsOf(v) == [] ==> CallsOf(u) == [])
  {
    ToolGrows(EMPTY, u, v);
    ToolAdds(u);
    ToolAdds(v);
    hide CallsOf, CutList;
    assert Grows(u, v);
    NodesGrow(u, v);
  }

  lemma CallGrows(s: string, xs: seq<Gemma.Node>, t: string, partial: bool, ys: seq<Gemma.Node>)
    requires CutList(xs, ys)
    ensures GrowsList([CallNode(s, true, xs)], [CallNode(t, partial, ys)])
  {
    var a, b := CallNode(s, true, xs), CallNode(t, partial, ys);
    var u, v := a.children[0], b.children[0];
    SilentCall(s, true, xs);
    SilentCall(t, partial, ys);
    ToolNodesGrow(u, v);
    assert [a][1..] == [] && [b][1..] == [];
    hide CallsOf, CutList, Silent, AllSilent, GrowsList;
    assert Grows(a, b);
    OneSilent(a);
    OneSilent(b);
    NodesGrow(a, b);
  }

  lemma OneSilent(n: Gemma.Node)
    ensures AllSilent([n]) <==> Silent(n)
  {
    assert [n][1..] == [];
  }

  lemma CallGrew(name: string, p: string, t: string)
    requires p <= t
    ensures Grew(ParseCall(name, p), ParseCall(name, t))
  {
    BodyFollows(name, p, t);
    CallIs(name, p);
    CallIs(name, t);
    var x, y := CallBody(name, p), CallBody(name, t);
    hide CallBody, ParseCall, GrowsList, CallNode;
    if x.More? && !y.Fail? {
      CallGrows(p, x.nodes, if y.Done? then t[..y.len] else t, y.More?, y.nodes);
    } else if x.Done? {
      assert p[..x.len] == t[..x.len];
    }
  }

  // ---------- more of the choice between the tools ----------

  // Names are told apart from what follows by the brace.
  predicate NoBraces(names: seq<string>) {
    forall i :: 0 <= i < |names| ==> '{' !in names[i]
  }

  // The name of a tool and the brace behind it have been seen.
  predicate Opens(name: string, s: string) {
    name + "{" <= s
  }

  lemma OpensIs(name: string, s: string)
    ensures Opens(name, s) <==> name <= s && "{" <= s[|name|..]
  {
    if name <= s {
      assert s == name + s[|name|..];
    }
  }

  lemma InLonger(s: string, t: string, i: nat)
    requires i < |s|
    ensures s <= t ==> s[i] in t
  {
  }

  // Then no other tool fits.
  lemma BraceDecides(name: string, other: string, s: string)
    requires '{' !in name && '{' !in other && name != other && Opens(name, s)
    ensures ParseCall(other, s).Fail?
  {
    var n, k := |name|, |other|;
    assert s[n] == '{' && s[..n] == name;
    InLonger(s, other, n);
    assert ParseOpen(other, s).Fail? by {
      if other <= s {
        assert s[..k] == other;
        assert k < n by {
          assert forall i :: 0 <= i < k ==> s[i] == other[i];
          assert k == n ==> other == name;
        }
        assert s[k..][0] == s[k] == name[k];
      }
    }
  }

  lemma {:induction false} OthersFail(names: seq<string>, name: string, s: string)
    requires NoBraces(names) && '{' !in name && Opens(name, s) && ParseCall(name, s).Fail?
    ensures ParseChoice(names, s).Fail?
  {
    hide ParseCall;
    if names != [] {
      if names[0] != name {
        BraceDecides(name, names[0], s);
      }
      OthersFail(names[1..], name, s);
    }
  }

  // Before that nothing is shown.
  lemma NotOpened(name: string, s: string)
    requires ParseCall(name, s).More?
    ensures !Opens(name, s) ==> AllSilent(ParseCall(name, s).nodes)
  {
    CallIs(name, s);
    if !Opens(name, s) {
      OpensIs(name, s);
      assert CallBody(name, s) == More([]) by {
        hide ParseArgs;
      }
      SilentCall(s, true, []);
    }
  }

  lemma {:induction false} ChoiceGrew(names: seq<string>, p: string, t: string)
    requires p <= t && NoBraces(names)
    ensures Grew(ParseChoice(names, p), ParseChoice(names, t))
  {
    if names != [] {
      CallGrew(names[0], p, t);
      ChoiceGrew(names[1..], p, t);
      var x, y := ParseCall(names[0], p), ParseCall(names[0], t);
      hide ParseCall, GrowsList, AllSilent;
      if x.More? && y.Fail? {
        NotOpened(names[0], p);
        if Opens(names[0], p) {
          OthersFail(names[1..], names[0], t);
        } else {
          var more := ParseChoice(names, t);
          SilentGrows(x.nodes, if more.Fail? then [] else more.nodes);
        }
      }
    }
  }

  // ---------- more of a call with its marks ----------

  lemma GrowsRefl(ns: seq<Gemma.Node>)
    ensures GrowsList(ns, ns)
  {
    GrowsBehind(ns, [], []);
    assert ns + [] == ns;
  }

  lemma LiteralGrew(ns: seq<Gemma.Node>, used: nat, lit: string, p: string, t: string)
    requires p <= t && lit != ""
    ensures Grew(After(ns, used, Literal(lit, p)), After(ns, used, Literal(lit, t)))
  {
    LiteralFollows(lit, p, t);
    GrowsRefl(ns);
    assert ns + [] == ns;
    hide GrowsList;
  }

  lemma {:induction false} EndGrew(names: seq<string>, p: string, t: string)
    requires p <= t && NoBraces(names)
    ensures Grew(ChoiceEnd(names, p), ChoiceEnd(names, t))
  {
    ChoiceGrew(names, p, t);
    var x, y := ParseChoice(names, p), ParseChoice(names, t);
    hide ParseChoice, GrowsList, NoBraces;
    if x.Done? {
      Rest(p, t, x.len);
      LiteralGrew(x.nodes, x.len, BEHIND_CALL, p[x.len..], t[x.len..]);
    } else if x.More? && y.Done? {
      assert y.nodes + [] == y.nodes;
    }
  }

  lemma {:induction false} MarkedGrew(names: seq<string>, p: string, t: string)
    requires p <= t && NoBraces(names)
    ensures Grew(ParseMarked(names, p), ParseMarked(names, t))
  {
    LiteralFollows(BEFORE_CALL, p, t);
    var n := |BEFORE_CALL|;
    if BEFORE_CALL <= p {
      Rest(p, t, n);
      EndGrew(names, p[n..], t[n..]);
      NothingBefore(n, ChoiceEnd(names, p[n..]), ChoiceEnd(names, t[n..]));
    }
    hide ChoiceEnd, NoBraces;
  }

  lemma NothingBefore(n: nat, x: Parse, y: Parse)
    requires Grew(x, y)
    ensures Grew(After([], n, x), After([], n, y))
  {
    hide GrowsList;
    assert x.More? ==> [] + x.nodes == x.nodes;
    assert !y.Fail? ==> [] + y.nodes == y.nodes;
  }

  // ---------- what is shown of a call ----------

  function Shown(name: string, s: string): ToolCall
    requires Opens(name, s) && !ParseCall(name, s).Fail?
  {
    OpensIs(name, s);
    ToolCall(name, Render(ParseList(InDict, s[|name|..]).nodes[0]), "")
  }

  lemma BodyIs(name: string, s: string)
    requires Opens(name, s)
    ensures ParseOpen(name, s) == Done([OpenNode(name)], |name|)
    ensures CallBody(name, s) == After([OpenNode(name)], |name|, ParseArgs(s[|name|..]))
  {
    OpensIs(name, s);
    hide ParseArgs;
  }

  lemma CallsOfBody(name: string, args: Gemma.Node, tool: Gemma.Node)
    requires tool.tag == Gemma.Tool && tool.children == [OpenNode(name), args]
    requires args.tag == Gemma.ToolArgs && args.children != []
    ensures FindByTag(tool.children, Gemma.ToolName, SEARCH_DEPTH) == Some(OpenNode(name).children[0])
    ensures FindByTag(tool.children, Gemma.ToolArgs, SEARCH_DEPTH) == Some(args)
    ensures CallsOf(tool) == [ToolCall(name, Render(args.children[0]), "")]
  {
    var open := OpenNode(name);
    assert tool.children[1..] == [args] && tool.children[1..][0] == args;
    assert open.children[1..] == [] && open.children[0].children == [];
    assert FindByTag(open.children, Gemma.ToolName, 2) == Some(open.children[0]);
    assert FindByTag(open.children[0].children, Gemma.ToolArgs, 1) == None;
    assert FindByTag(open.children, Gemma.ToolArgs, 2) == None;
    assert FindByTag([args], Gemma.ToolArgs, SEARCH_DEPTH) == Some(args);
    assert tool.children[0] == open;
    hide Render;
  }

  lemma VisitedCall(m: Message, text: string, partial: bool, ns: seq<Gemma.Node>)
    ensures var tool := Gemma.Node(OtherRule, Gemma.Tool, text, partial, ns);
      VisitedAll(m, [CallNode(text, partial, ns)]) == m.(calls := m.calls + CallsOf(tool))
  {
    var tool := Gemma.Node(OtherRule, Gemma.Tool, text, partial, ns);
    var call := CallNode(text, partial, ns);
    hide CallsOf;
    assert [tool][1..] == [] && [call][1..] == [];
    assert VisitedAll(m, [tool]) == VisitedAll(Visited(m, tool), []);
    assert VisitedAll(m, [call]) == VisitedAll(Visited(m, call), []);
  }

  // A call is shown from the brace on.
  lemma CallShows(m: Message, name: string, s: string)
    requires !ParseCall(name, s).Fail?
    ensures VisitedAll(m, ParseCall(name, s).nodes) ==
      if Opens(name, s) then m.(calls := m.calls + [Shown(name, s)]) else m
  {
    CallIs(name, s);
    OpensIs(name, s);
    var x := CallBody(name, s);
    var text := if x.Done? then s[..x.len] else s;
    var tool := Gemma.Node(OtherRule, Gemma.Tool, text, x.More?, x.nodes);
    VisitedCall(m, text, x.More?, x.nodes);
    if Opens(name, s) {
      BodyIs(name, s);
      var args := ParseArgs(s[|name|..]);
      hide CallBody, ParseCall, CallsOf, VisitedAll, CallNode, ParseList, Render;
      assert x.nodes == [OpenNode(name)] + args.nodes == [OpenNode(name), args.nodes[0]];
      CallsOfBody(name, args.nodes[0], tool);
    } else {
      hide CallNode, VisitedAll;
      OpenEnds(name, s);
      assert m.calls + CallsOf(tool) == m.calls;
    }
  }

  lemma OpenEnds(name: string, s: string)
    requires !Opens(name, s) && !CallBody(name, s).Fail?
    ensures CallBody(name, s) == More([])
  {
    OpensIs(name, s);
    hide ParseArgs;
  }

  lemma {:induction false} ChosenIs(names: seq<string>, s: string) returns (k: nat)
    requires NoBraces(names) && !ParseChoice(names, s).Fail?
    ensures k < |names| && ParseChoice(names, s) == ParseCall(names[k], s)
    ensures forall i :: 0 <= i < |names| && Opens(names[i], s) ==> names[i] == names[k]
  {
    hide ParseCall;
    if !ParseCall(names[0], s).Fail? {
      k := 0;
    } else {
      k := ChosenIs(names[1..], s);
      k := k + 1;
    }
    hide ParseChoice;
    forall i | 0 <= i < |names| && Opens(names[i], s) ensures names[i] == names[k] {
      if names[i] != names[k] {
        BraceDecides(names[i], names[k], s);
      }
    }
  }

  // The mark, the name of a tool and the brace behind it have been seen.
  predicate Begun(names: seq<string>, s: string) {
    exists i :: 0 <= i < |names| && Opens(BEFORE_CALL + names[i], s)
  }

  lemma OpensBehind(name: string, s: string)
    ensures Opens(BEFORE_CALL + name, s) <==> BEFORE_CALL <= s && Opens(name, s[|BEFORE_CALL|..])
  {
    var n := |BEFORE_CALL|;
    if BEFORE_CALL <= s {
      assert s == BEFORE_CALL + s[n..];
    }
    if Opens(BEFORE_CALL + name, s) {
      assert (BEFORE_CALL + name + "{")[n..] == name + "{";
    }
  }

  lemma EndNodes(names: seq<string>, s: string)
    requires !ChoiceEnd(names, s).Fail?
    ensures !ParseChoice(names, s).Fail? && ChoiceEnd(names, s).nodes == ParseChoice(names, s).nodes
  {
    hide ParseChoice;
    var r := ParseChoice(names, s);
    assert r.nodes + [] == r.nodes;
  }

  lemma MarkedShows(m: Message, names: seq<string>, s: string)
    requires NoBraces(names) && !ParseMarked(names, s).Fail?
    ensures var r := VisitedAll(m, ParseMarked(names, s).nodes);
      if Begun(names, s) then |r.calls| == |m.calls| + 1 else r == m
  {
    var n := |BEFORE_CALL|;
    if BEFORE_CALL <= s {
      var rest := s[n..];
      var r := ChoiceEnd(names, rest);
      assert !r.Fail?;
      EndNodes(names, rest);
      assert ParseMarked(names, s).nodes == [] + r.nodes == r.nodes;
      var k := ChosenIs(names, rest);
      hide ParseMarked, ChoiceEnd, ParseChoice;
      CallShows(m, names[k], rest);
      assert Begun(names, s) <==> Opens(names[k], rest) by {
        hide Opens, NoBraces;
        forall i | 0 <= i < |names| ensures Opens(BEFORE_CALL + names[i], s) <==> Opens(names[i], rest) {
          OpensBehind(names[i], s);
        }
        assert Opens(names[k], rest) <==> Opens(BEFORE_CALL + names[k], s);
      }
      hide VisitedAll, Shown, Opens, Begun;
    } else {
      NotBegun(names, s);
      hide ChoiceEnd;
    }
  }

  lemma EndedOpens(name: string, s: string)
    ensures ParseCall(name, s).Done? ==> Opens(name, s)
  {
    CallIs(name, s);
    hide ParseCall, ParseArgs;
  }

  lemma MarkedSilent(names: seq<string>, s: string)
    requires NoBraces(names) && ParseMarked(names, s).More? && !Begun(names, s)
    ensures AllSilent(ParseMarked(names, s).nodes)
  {
    if BEFORE_CALL <= s {
      var rest := s[|BEFORE_CALL|..];
      var r := ChoiceEnd(names, rest);
      EndNodes(names, rest);
      assert ParseMarked(names, s).nodes == [] + r.nodes == r.nodes;
      var k := ChosenIs(names, rest);
      OpensBehind(names[k], s);
      EndedOpens(names[k], rest);
      hide ParseMarked, ChoiceEnd, ParseChoice, ParseCall, AllSilent, Opens;
      NotOpened(names[k], rest);
    }
  }

  lemma NothingVisited(m: Message)
    ensures VisitedAll(m, []) == m
  {
  }

  lemma NotBegun(names: seq<string>, s: string)
    requires !(BEFORE_CALL <= s)
    ensures !Begun(names, s)
  {
    hide Opens;
    forall i | 0 <= i < |names| ensures !Opens(BEFORE_CALL + names[i], s) {
      OpensBehind(names[i], s);
    }
  }

  // ---------- more of all calls ----------

  function Less(max: int): int {
    if max < 0 then max else max - 1
  }

  // A call has begun that the longer text t shows not to fit.
  predicate Dropped(names: seq<string>, max: int, p: string, t: string)
    decreases |p|
  {
    p != "" && max != 0 &&
    var x := ParseMarked(names, p);
    if x.Done? then x.len <= |t| && Dropped(names, Less(max), p[x.len..], t[x.len..])
    else x.More? && Begun(names, p) && ParseMarked(names, t).Fail?
  }

  lemma {:induction false} GrowsMore(xs: seq<Gemma.Node>, ys: seq<Gemma.Node>, more: seq<Gemma.Node>)
    requires GrowsList(xs, ys)
    ensures GrowsList(xs, ys + more)
    decreases xs, ys
  {
    hide Grows, Silent;
    if xs != [] {
      if Silent(xs[0]) {
        GrowsMore(xs[1..], ys, more);
      } else {
        assert (ys + more)[0] == ys[0] && (ys + more)[1..] == ys[1..] + more;
        if Silent(ys[0]) {
          GrowsMore(xs, ys[1..], more);
        } else if !AllSilent(xs[1..]) {
          GrowsMore(xs[1..], ys[1..], more);
        }
      }
    }
  }

  lemma CallsAre(names: seq<string>, max: int, s: string)
    requires s != "" && max != 0
    ensures var r := ParseMarked(names, s);
      ParseCalls(names, max, s) ==
        if r.Fail? then Done([], 0) else if r.More? then r
        else After(r.nodes, r.len, ParseCalls(names, Less(max), s[r.len..]))
  {
    hide ParseMarked;
  }

  lemma FirstMarked(names: seq<string>, p: string, t: string)
    requires p <= t && NoBraces(names) && ParseMarked(names, p).Done?
    ensures ParseMarked(names, t) == ParseMarked(names, p)
    ensures p[ParseMarked(names, p).len..] <= t[ParseMarked(names, p).len..]
  {
    MarkedGrew(names, p, t);
    hide ParseMarked, GrowsList;
    Rest(p, t, ParseMarked(names, p).len);
  }

  lemma {:induction false} CallsGrow(names: seq<string>, max: int, p: string, t: string)
    requires p <= t && NoBraces(names) && !Dropped(names, max, p, t)
    ensures GrowsList(ParseCalls(names, max, p).nodes, ParseCalls(names, max, t).nodes)
    decreases |p|
  {
    if p != "" && max != 0 {
      var x, y := ParseMarked(names, p), ParseMarked(names, t);
      CallsAre(names, max, p);
      CallsAre(names, max, t);
      hide ParseMarked, ParseCalls, GrowsList, Begun, NoBraces;
      if x.Done? {
        FirstMarked(names, p, t);
        var u, v := ParseCalls(names, Less(max), p[x.len..]), ParseCalls(names, Less(max), t[x.len..]);
        CallsGrow(names, Less(max), p[x.len..], t[x.len..]);
        GrowsBehind(x.nodes, u.nodes, v.nodes);
      } else {
        MarkedGrew(names, p, t);
        if x.More? {
          if y.Fail? {
            MarkedSilent(names, p);
            SilentGrows(x.nodes, []);
          } else {
            GrowsMore(x.nodes, y.nodes, if y.Done? then ParseCalls(names, Less(max), t[y.len..]).nodes else []);
            assert y.nodes + [] == y.nodes;
          }
        } else {
          GrowsRefl([]);
        }
      }
    } else {
      GrowsRefl([]);
      SilentGrows([], ParseCalls(names, max, t).nodes);
    }
  }

  lemma {:induction false} VisitedConcat(m: Message, xs: seq<Gemma.Node>, ys: seq<Gemma.Node>)
    ensures VisitedAll(m, xs + ys) == VisitedAll(VisitedAll(m, xs), ys)
    decreases xs
  {
    hide Visited;
    if xs == [] {
      assert xs + ys == ys;
    } else {
      assert (xs + ys)[1..] == xs[1..] + ys;
      VisitedConcat(Visited(m, xs[0]), xs[1..], ys);
    }
  }

  lemma {:induction false} DroppedIsMissing(names: seq<string>, max: int, p: string, t: string, m: Message)
    requires p <= t && NoBraces(names) && Dropped(names, max, p, t)
    ensures |VisitedAll(m, ParseCalls(names, max, t).nodes).calls| <
            |VisitedAll(m, ParseCalls(names, max, p).nodes).calls|
    decreases |p|
  {
    var x := ParseMarked(names, p);
    CallsAre(names, max, p);
    CallsAre(names, max, t);
    MarkedGrew(names, p, t);
    hide ParseMarked, ParseCalls, GrowsList, NoBraces, VisitedAll;
    if x.Done? {
      FirstMarked(names, p, t);
      DroppedIsMissing(names, Less(max), p[x.len..], t[x.len..], VisitedAll(m, x.nodes));
      VisitedConcat(m, x.nodes, ParseCalls(names, Less(max), p[x.len..]).nodes);
      VisitedConcat(m, x.nodes, ParseCalls(names, Less(max), t[x.len..]).nodes);
    } else {
      MarkedShows(m, names, p);
      NothingVisited(m);
    }
  }

  // ---------- calls that were written out ----------

  // A tool and the members of its arguments.
  datatype Call = Call(name: string, args: seq<(string, Json.Value)>)

  function CallText(c: Call): string {
    BEFORE_CALL + c.name + Written(Json.Object(c.args)) + BEHIND_CALL
  }

  function CallsText(cs: seq<Call>): string {
    if cs == [] then "" else CallText(cs[0]) + CallsText(cs[1..])
  }

  predicate Callable(names: seq<string>, cs: seq<Call>) {
    forall i :: 0 <= i < |cs| ==> cs[i].name in names && MembersWritable(cs[i].args)
  }

  // The call has the name, and its arguments are JSON for the object.
  predicate IsCallOf(call: ToolCall, c: Call) {
    call.name == c.name && call.id == "" && Json.Read(Json.JsonText, call.arguments) == Some(Json.Object(c.args))
  }

  predicate AreCallsOf(calls: seq<ToolCall>, cs: seq<Call>) {
    |calls| == |cs| && forall i :: 0 <= i < |cs| ==> IsCallOf(calls[i], cs[i])
  }

  lemma ValueNodeText(c: Gemma.Node)
    ensures Render(ValueNode("-", c)) == Render(c)
  {
  }

  lemma BodyIsJson(c: Gemma.Node, v: Json.Value)
    requires IsBodyOf(c, v)
    ensures Json.Read(Json.JsonText, Render(c)) == Some(v)
  {
    var n := ValueNode("-", c);
    hide Render, IsValue, ValueOf;
    ValueNodeText(c);
    RenderedValue(n, n);
  }

  lemma ArgsRead(ms: seq<(string, Json.Value)>, rest: string) returns (c: Gemma.Node)
    requires MembersWritable(ms)
    ensures var w := Written(Json.Object(ms)); ParseList(InDict, w + rest) == Done([c], |w|)
    ensures Json.Read(Json.JsonText, Render(c)) == Some(Json.Object(ms)) && "{" <= Written(Json.Object(ms))
  {
    var ns := MembersParse(ms);
    var ws := WrittenMembers(ms);
    assert Written(Json.Object(ms)) == ListText(InDict, ws);
    assert "{" <= ListText(InDict, ws);
    hide *;
    ListParses(InDict, ws, ns, rest);
    c := ListNode(InDict, ws, ns);
    DictIsBody(ws, ns);
    BodyIsJson(c, Json.Object(ms));
  }

  lemma OpensCall(name: string, args: string, rest: string)
    requires "{" <= args
    ensures var s := name + args + rest; Opens(name, s) && s[|name|..] == args + rest
  {
    var s := name + args + rest;
    assert s[|name|..] == args + rest;
    OpensIs(name, s);
    assert name <= s;
  }

  lemma ArgsEnd(s: string, c: Gemma.Node, n: nat)
    requires n <= |s| && ParseList(InDict, s) == Done([c], n)
    ensures ParseArgs(s) == Done([Gemma.Node(OtherRule, Gemma.ToolArgs, s[..n], false, [c])], n)
  {
    hide ParseList;
  }

  // Whatever comes behind it, a call that was written out ends where it was written to end.
  lemma CallParses(c: Call, rest: string) returns (call: ToolCall)
    requires MembersWritable(c.args)
    ensures var w := c.name + Written(Json.Object(c.args));
      var r := ParseCall(c.name, w + rest);
      r.Done? && r.len == |w| && Opens(c.name, w + rest) && call == Shown(c.name, w + rest)
    ensures IsCallOf(call, c)
  {
    var args := Written(Json.Object(c.args));
    var s := c.name + args + rest;
    hide CallBody, ParseCall, ParseOpen, ParseArgs, ParseList, Written, MembersWritable, Render, Opens;
    var dict := ArgsRead(c.args, rest);
    OpensCall(c.name, args, rest);
    ArgsEnd(args + rest, dict, |args|);
    BodyIs(c.name, s);
    CallIs(c.name, s);
    call := Shown(c.name, s);
  }

  lemma {:induction false} ChoiceFinds(names: seq<string>, name: string, s: string)
    requires NoBraces(names) && name in names && Opens(name, s) && !ParseCall(name, s).Fail?
    ensures ParseChoice(names, s) == ParseCall(name, s)
  {
    hide ParseCall;
    if names[0] != name {
      BraceDecides(name, names[0], s);
      ChoiceFinds(names[1..], name, s);
    }
  }

  lemma MarkedParses(names: seq<string>, c: Call, rest: string, m: Message) returns (call: ToolCall)
    requires NoBraces(names) && c.name in names && MembersWritable(c.args)
    ensures var r := ParseMarked(names, CallText(c) + rest);
      && r.Done? && r.len == |CallText(c)|
      && VisitedAll(m, r.nodes) == m.(calls := m.calls + [call])
    ensures IsCallOf(call, c)
  {
    var w := c.name + Written(Json.Object(c.args));
    var more := BEHIND_CALL + rest;
    var s, t := CallText(c) + rest, w + more;
    assert s == BEFORE_CALL + t;
    hide ParseCall, Opens, Written, VisitedAll, Shown, MembersWritable, NoBraces, ParseChoice, CallText;
    call := CallParses(c, more);
    ChoiceFinds(names, c.name, t);
    CallShows(m, c.name, t);
    assert t[|w|..] == more && BEHIND_CALL <= more;
    EndedBehind(names, t);
    var r := ChoiceEnd(names, t);
    hide ChoiceEnd;
    MarkedIs(names, t);
    assert |CallText(c)| == |s| - |rest|;
  }

  lemma MarkedIs(names: seq<string>, t: string)
    requires ChoiceEnd(names, t).Done?
    ensures var r := ChoiceEnd(names, t); ParseMarked(names, BEFORE_CALL + t) == Done(r.nodes, |BEFORE_CALL| + r.len)
  {
    hide ChoiceEnd;
    assert (BEFORE_CALL + t)[|BEFORE_CALL|..] == t;
    var r := ChoiceEnd(names, t);
    assert [] + r.nodes == r.nodes;
  }

  lemma EndedBehind(names: seq<string>, t: string)
    requires ParseChoice(names, t).Done? && BEHIND_CALL <= t[ParseChoice(names, t).len..]
    ensures var r := ParseChoice(names, t); ChoiceEnd(names, t) == Done(r.nodes, r.len + |BEHIND_CALL|)
  {
    hide ParseChoice;
    var r := ParseChoice(names, t);
    assert r.nodes + [] == r.nodes;
  }

  /** Calls that were written out, one behind the other, are all read, in order: every name, and arguments that are JSON
      for the object that was written. */
  lemma {:induction false} CallsRead(names: seq<string>, max: int, cs: seq<Call>, m: Message)
    returns (calls: seq<ToolCall>)
    requires NoBraces(names) && Callable(names, cs) && (max < 0 || |cs| <= max)
    ensures var r := ParseCalls(names, max, CallsText(cs));
      && r.Done? && r.len == |CallsText(cs)|
      && VisitedAll(m, r.nodes) == m.(calls := m.calls + calls)
    ensures AreCallsOf(calls, cs)
    decreases cs
  {
    hide *;
    if cs == [] {
      NoCalls(names, max, cs, m);
      calls := [];
    } else {
      CallsAhead(names, cs);
      LessIs(max, |cs|);
      var rest := CallsText(cs[1..]);
      var call := MarkedParses(names, cs[0], rest, m);
      var x := ParseMarked(names, CallText(cs[0]) + rest);
      var more := CallsRead(names, Less(max), cs[1..], VisitedAll(m, x.nodes));
      FirstCall(names, max, cs[0], rest, x, m);
      MoreCalls(m, call, cs[0], more, cs[1..]);
      calls := [call] + more;
      assert [cs[0]] + cs[1..] == cs;
    }
  }

  lemma NoCalls(names: seq<string>, max: int, cs: seq<Call>, m: Message)
    requires cs == []
    ensures CallsText(cs) == "" && ParseCalls(names, max, "") == Done([], 0) && AreCallsOf([], cs)
    ensures VisitedAll(m, []) == m.(calls := m.calls + [])
  {
    assert m.calls + [] == m.calls;
  }

  lemma LessIs(max: int, n: nat)
    requires n > 0 && (max < 0 || n <= max)
    ensures max != 0 && (Less(max) < 0 || n - 1 <= Less(max))
  {
  }

  lemma CallsAhead(names: seq<string>, cs: seq<Call>)
    requires Callable(names, cs) && cs != []
    ensures CallsText(cs) == CallText(cs[0]) + CallsText(cs[1..]) && CallText(cs[0]) != ""
    ensures Callable(names, cs[1..]) && cs[0].name in names && MembersWritable(cs[0].args)
  {
    hide Written, MembersWritable;
  }

  lemma FirstCall(names: seq<string>, max: int, c: Call, rest: string, x: Parse, m: Message)
    requires max != 0 && x == ParseMarked(names, CallText(c) + rest) && x.Done? && x.len == |CallText(c)|
    requires CallText(c) != "" && ParseCalls(names, Less(max), rest).Done?
    ensures var r, y := ParseCalls(names, max, CallText(c) + rest), ParseCalls(names, Less(max), rest);
      && r.Done? && r.len == x.len + y.len
      && VisitedAll(m, r.nodes) == VisitedAll(VisitedAll(m, x.nodes), y.nodes)
  {
    var s := CallText(c) + rest;
    hide ParseMarked, ParseCalls, CallText, VisitedAll;
    CallsAre(names, max, s);
    assert s[x.len..] == rest;
    VisitedConcat(m, x.nodes, ParseCalls(names, Less(max), rest).nodes);
  }

  lemma MoreCalls(m: Message, call: ToolCall, c: Call, calls: seq<ToolCall>, cs: seq<Call>)
    requires IsCallOf(call, c) && AreCallsOf(calls, cs)
    ensures AreCallsOf([call] + calls, [c] + cs)
    ensures (m.calls + [call]) + calls == m.calls + ([call] + calls)
  {
    hide IsCallOf;
  }

  // ---------- a whole run ----------

  // While they arrive, no call is dropped.
  lemma {:induction false} NothingDropped(names: seq<string>, max: int, cs: seq<Call>, p: string, t: string)
    requires NoBraces(names) && Callable(names, cs) && p <= t <= CallsText(cs)
    ensures !Dropped(names, max, p, t)
    decreases cs
  {
    if p != "" && max != 0 {
      var s, rest := CallsText(cs), CallsText(cs[1..]);
      CallsAhead(names, cs);
      hide CallText, CallsText, Callable, NoBraces, ParseMarked, GrowsList, Begun, VisitedAll, MembersWritable;
      var call := MarkedParses(names, cs[0], rest, EMPTY);
      MarkedGrew(names, p, t);
      MarkedGrew(names, p, s);
      MarkedGrew(names, t, s);
      var x := ParseMarked(names, p);
      if x.Done? {
        assert s[x.len..] == rest;
        Rest(p, t, x.len);
        Rest(t, s, x.len);
        NothingDropped(names, Less(max), cs[1..], p[x.len..], t[x.len..]);
      }
    }
  }

  // The text arrives in pieces of any size.
  predicate Arrives(texts: seq<string>, text: string) {
    && (forall i :: 0 < i < |texts| ==> texts[i - 1] <= texts[i])
    && (forall i :: 0 <= i < |texts| ==> texts[i] <= text)
  }

  // ---------- a call that is dropped ----------

  // Behind a comma there has to be a further member.
  lemma NoMember(e: string)
    requires e == "" || e == "}"
    ensures var x := ParseItem(InDict, e); if e == "" then x.More? else x.Fail?
  {
    KeyIs(e);
    assert KeyLen(e) == 0;
    assert if e == "" then ParseKey(e).More? else ParseKey(e).Fail?;
    hide ParseKey, ValueBehind;
    assert ParsePair(e) == Wrap(DictKv, e, ParseKey(e));
  }

  lemma CommaTail(e: string)
    requires e == "" || e == "}"
    ensures var r := ListTail(InDict, "," + e); if e == "" then r.More? else r.Fail?
  {
    var s := "," + e;
    assert s[1..] == e && Skip(s, 1) == 1;
    hide ParseItem, ListTail, Skip;
    NoMember(e);
    TailIs(InDict, s, ParseItem(InDict, e));
  }

  lemma CommaInList(w: string, n: Gemma.Node, e: string)
    requires ItemReads(InDict, w, n) && (e == "" || e == "}")
    ensures var r := ParseList(InDict, "{" + (w + ("," + e))); if e == "" then r.More? else r.Fail?
  {
    var more := "," + e;
    var body := w + more;
    var s := "{" + body;
    CommaTail(e);
    ItemParses(InDict, w, n, more);
    OtherStart("}", body);
    assert s[1..] == body && body[|w|..] == more && SpaceLen(body) == 0;
    assert Skip(s, 1) == 1;
    hide ParseItem, ListTail, ItemReads, Skip, SpaceLen, Stops;
    assert ListBody(InDict, body) == After([n], |w|, ListTail(InDict, more));
    hide ListBody;
    assert ListRest(InDict, s) == After([], 1, ListBody(InDict, body));
    hide ListRest;
  }

  lemma CommaInCall(names: seq<string>, name: string, w: string, n: Gemma.Node, e: string)
    requires NoBraces(names) && name in names && ItemReads(InDict, w, n) && (e == "" || e == "}")
    ensures var s := BEFORE_CALL + (name + ("{" + (w + ("," + e))));
      var r := ParseMarked(names, s); Begun(names, s) && if e == "" then r.More? else r.Fail?
  {
    var dict := "{" + (w + ("," + e));
    var t := name + dict;
    var s := BEFORE_CALL + t;
    CommaInList(w, n, e);
    assert t[|name|..] == dict && s[|BEFORE_CALL|..] == t;
    assert Opens(name, t) by {
      assert t == name + "{" + dict[1..];
    }
    BodyIs(name, t);
    CallIs(name, t);
    OpensBehind(name, s);
    var i :| 0 <= i < |names| && names[i] == name;
    assert Begun(names, s) by {
      assert Opens(BEFORE_CALL + names[i], s);
    }
    hide ParseList, CallBody, ItemReads, Begun;
    assert if e == "" then ParseCall(name, t).More? else ParseCall(name, t).Fail? by {
      hide ParseCall;
    }
    hide ParseCall, ParseChoice, Opens, NoBraces;
    if e == "" {
      ChoiceFinds(names, name, t);
    } else {
      OthersFail(names, name, t);
    }
    assert ChoiceEnd(names, t) == ParseChoice(names, t);
    hide ChoiceEnd;
  }

  /** A comma in front of the closing brace: the call is shown up to the comma and is gone with the brace. */
  lemma TrailingCommaDropped(names: seq<string>, max: int, name: string, member: (string, Json.Value))
    requires NoBraces(names) && name in names && MemberWritable(member) && max != 0
    ensures var p := BEFORE_CALL + name + "{" + WrittenMember(member) + ","; Dropped(names, max, p, p + "}")
  {
    var n := MemberParses(member);
    var w := WrittenMember(member);
    var p := BEFORE_CALL + name + "{" + w + ",";
    hide *;
    CommaInCall(names, name, w, n, "");
    CommaInCall(names, name, w, n, "}");
    Regrouped(name, w);
    DroppedIs(names, max, p, p + "}");
  }

  lemma Regrouped(name: string, w: string)
    ensures var p := BEFORE_CALL + name + "{" + w + ",";
      && p == BEFORE_CALL + (name + ("{" + (w + ("," + ""))))
      && p + "}" == BEFORE_CALL + (name + ("{" + (w + ("," + "}"))))
  {
    assert "," + "" == ",";
  }

  lemma DroppedIs(names: seq<string>, max: int, p: string, t: string)
    requires p != "" && max != 0 && ParseMarked(names, p).More? && Begun(names, p) && ParseMarked(names, t).Fail?
    ensures Dropped(names, max, p, t)
  {
    hide ParseMarked, Begun;
  }
}
