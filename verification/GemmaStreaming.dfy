/** The mapper that turns the syntax trees of a Gemma 4 reply into messages, and why its messages only grow. */
module GemmaStreaming {
  import opened Text
  import opened Gemma
  import opened ToolMapper
  import opened MessageDiff
  import opened MessageStream
  import Json

  const SEARCH_DEPTH := 3

  // The first node with a tag, depth first, at most `depth` levels down.
  function FindByTag(ns: seq<Gemma.Node>, tag: Gemma.Tag, depth: nat): Option<Gemma.Node>
    decreases ns
  {
    if ns == [] then None
    else if ns[0].tag == tag then Some(ns[0])
    else
      var below := if depth > 1 then FindByTag(ns[0].children, tag, depth - 1) else None;
      if below.Some? then below else FindByTag(ns[1..], tag, depth)
  }

  function Arguments(args: Gemma.Node): string {
    if args.children == [] then "" else Render(args.children[0])
  }

  // The calls that a tool node adds: one, as soon as its name is complete and its arguments have begun.
  function CallsOf(n: Gemma.Node): seq<ToolCall> {
    var name := FindByTag(n.children, Gemma.ToolName, SEARCH_DEPTH);
    var args := FindByTag(n.children, Gemma.ToolArgs, SEARCH_DEPTH);
    if name.Some? && args.Some? && !name.value.partial then
      [ToolCall(name.value.text, Arguments(args.value), "")]
    else []
  }

  // The message after a node was visited.
  function Visited(m: Message, n: Gemma.Node): Message
    decreases n
  {
    match n.tag
    case Reasoning => m.(reasoning := m.reasoning + n.text)
    case Content => m.(content := m.content + n.text)
    case Tool => m.(calls := m.calls + CallsOf(n))
    case _ => VisitedAll(m, n.children)
  }

  function VisitedAll(m: Message, ns: seq<Gemma.Node>): Message
    decreases ns
  {
    if ns == [] then m else VisitedAll(Visited(m, ns[0]), ns[1..])
  }

  class GemmaMapper {
    var result: Message

    constructor ()
      ensures result == EMPTY
    {
      result := EMPTY;
    }

    method FromAst(nodes: seq<Gemma.Node>)
      modifies this
      ensures result == VisitedAll(old(result), nodes)
      decreases nodes, 1
    {
      var i := 0;
      while i < |nodes|
        invariant i <= |nodes|
        invariant VisitedAll(result, nodes[i..]) == VisitedAll(old(result), nodes)
      {
        assert nodes[i..][0] == nodes[i] && nodes[i..][1..] == nodes[i + 1..];
        Visit(nodes[i]);
        i := i + 1;
      }
    }

    method Visit(node: Gemma.Node)
      modifies this
      ensures result == Visited(old(result), node)
      decreases node, 0
    {
      if node.tag == Gemma.Reasoning {
        result := result.(reasoning := result.reasoning + node.text);
        return;
      }
      if node.tag == Gemma.Content {
        result := result.(content := result.content + node.text);
        return;
      }
      if node.tag == Gemma.Tool {
        var name := FindByTag(node.children, Gemma.ToolName, SEARCH_DEPTH);
        var args := FindByTag(node.children, Gemma.ToolArgs, SEARCH_DEPTH);
        if name.Some? && args.Some? {
          if !name.value.partial {
            var call := ToolCall(name.value.text, "", "");
            if args.value.children != [] {
              call := call.(arguments := Render(args.value.children[0]));
            }
            result := result.(calls := result.calls + [call]);
          }
        }
        assert result.calls == old(result).calls + CallsOf(node);
        return;
      }
      FromAst(node.children);
    }
  }

  // ---------- visiting only adds ----------

  predicate Adds(m: Message, r: Message) {
    m.reasoning <= r.reasoning && m.content <= r.content && m.calls <= r.calls
  }

  lemma AddsExtends(m: Message, r: Message)
    requires Adds(m, r)
    ensures Extends(m, r)
  {
    if m.calls != [] {
      var i := |m.calls| - 1;
      assert m.calls[..i] == r.calls[..i];
    }
  }

  lemma {:induction false} VisitedAdds(m: Message, n: Gemma.Node)
    ensures Adds(m, Visited(m, n))
    decreases n, 0
  {
    hide CallsOf;
    match n.tag
    case Reasoning =>
    case Content =>
    case Tool =>
    case _ => VisitedAllAdds(m, n.children);
  }

  lemma {:induction false} VisitedAllAdds(m: Message, ns: seq<Gemma.Node>)
    ensures Adds(m, VisitedAll(m, ns))
    decreases ns, 1
  {
    if ns != [] {
      VisitedAdds(m, ns[0]);
      VisitedAllAdds(Visited(m, ns[0]), ns[1..]);
    }
  }

  // ---------- trees cut short ----------

  lemma {:induction false} NotFound(ns: seq<Gemma.Node>, tag: Gemma.Tag, depth: nat)
    requires NoTags(ns) && tag != Gemma.Untagged
    ensures FindByTag(ns, tag, depth) == None
    decreases ns
  {
    if ns != [] {
      if depth > 1 {
        NotFound(ns[0].children, tag, depth - 1);
      }
      NotFound(ns[1..], tag, depth);
    }
  }

  lemma {:induction false} FoundCut(xs: seq<Gemma.Node>, ys: seq<Gemma.Node>, tag: Gemma.Tag, depth: nat)
    requires CutList(xs, ys) && tag != Gemma.Untagged
    ensures FindByTag(xs, tag, depth).Some? ==>
              FindByTag(ys, tag, depth).Some? && Cut(FindByTag(xs, tag, depth).value, FindByTag(ys, tag, depth).value)
    decreases xs
  {
    if xs != [] {
      if xs[0] == ys[0] {
        if |xs| > 1 {
          FoundCut(xs[1..], ys[1..], tag, depth);
        } else {
          assert xs[1..] == [] && FindByTag(xs[1..], tag, depth) == None;
        }
      } else {
        assert |xs| == 1 && xs[1..] == [] && Cut(xs[0], ys[0]);
        assert FindByTag(xs[1..], tag, depth) == None;
        if IsGuess(xs[0]) {
          NotFound(xs[0].children, tag, if depth > 1 then depth - 1 else 0);
        } else if xs[0].tag != tag && depth > 1 {
          FoundCut(xs[0].children, ys[0].children, tag, depth - 1);
        }
      }
    }
  }

  lemma ArgumentsGrow(a: Gemma.Node, b: Gemma.Node)
    requires Cut(a, b) && a.tag == Gemma.ToolArgs
    ensures Arguments(a) <= Arguments(b)
  {
    if a != b && a.children != [] {
      FirstGrows(a.children, b.children);
    }
  }

  lemma ToolGrows(m: Message, a: Gemma.Node, b: Gemma.Node)
    requires a.tag == Gemma.Tool && b.tag == Gemma.Tool && CutList(a.children, b.children)
    ensures Extends(Visited(m, a), Visited(m, b))
  {
    FoundCut(a.children, b.children, Gemma.ToolName, SEARCH_DEPTH);
    FoundCut(a.children, b.children, Gemma.ToolArgs, SEARCH_DEPTH);
    var name := FindByTag(a.children, Gemma.ToolName, SEARCH_DEPTH);
    var args := FindByTag(a.children, Gemma.ToolArgs, SEARCH_DEPTH);
    FoundTag(a.children, Gemma.ToolName, SEARCH_DEPTH);
    FoundTag(a.children, Gemma.ToolArgs, SEARCH_DEPTH);
    hide Render;
    if name.Some? && args.Some? && !name.value.partial {
      var args' := FindByTag(b.children, Gemma.ToolArgs, SEARCH_DEPTH);
      hide FindByTag;
      ArgumentsGrow(args.value, args'.value);
      var x, y := Visited(m, a), Visited(m, b);
      assert x.calls[..|m.calls|] == m.calls == y.calls[..|m.calls|];
    } else {
      assert Visited(m, a).calls == m.calls;
      VisitedAdds(m, b);
      AddsExtends(Visited(m, a), Visited(m, b));
    }
  }

  lemma {:induction false} FoundTag(ns: seq<Gemma.Node>, tag: Gemma.Tag, depth: nat)
    ensures var r := FindByTag(ns, tag, depth); r.Some? ==> r.value.tag == tag
    decreases ns
  {
    if ns != [] {
      if depth > 1 {
        FoundTag(ns[0].children, tag, depth - 1);
      }
      FoundTag(ns[1..], tag, depth);
    }
  }

  // ---------- a growing reply ----------

  // Nodes that add nothing to a message: structure, blank texts, and calls of which the name is not complete.
  predicate Silent(n: Gemma.Node)
    decreases n
  {
    match n.tag
    case Reasoning => n.text == ""
    case Content => n.text == ""
    case Tool => CallsOf(n) == []
    case _ => AllSilent(n.children)
  }

  predicate AllSilent(ns: seq<Gemma.Node>)
    decreases ns
  {
    ns == [] || (Silent(ns[0]) && AllSilent(ns[1..]))
  }

  // What is visited of a reply grows: texts and calls on the right edge may have been cut. Silent nodes come and go, as
  // at a false start of a marker.
  predicate Grows(a: Gemma.Node, b: Gemma.Node)
    decreases a, b
  {
    || a == b
    || (a.tag == b.tag &&
        match a.tag
        case Reasoning => a.text <= b.text
        case Content => a.text <= b.text
        case Tool => CutList(a.children, b.children)
        case _ => GrowsList(a.children, b.children))
  }

  predicate GrowsList(xs: seq<Gemma.Node>, ys: seq<Gemma.Node>)
    decreases xs, ys
  {
    if xs == [] then true
    else if Silent(xs[0]) then GrowsList(xs[1..], ys)
    else if ys == [] then false
    else if Silent(ys[0]) then GrowsList(xs, ys[1..])
    else if AllSilent(xs[1..]) then Grows(xs[0], ys[0])
    else xs[0] == ys[0] && GrowsList(xs[1..], ys[1..])
  }

  lemma {:induction false} SilentAddsNothing(m: Message, n: Gemma.Node)
    requires Silent(n)
    ensures Visited(m, n) == m
    decreases n, 0
  {
    match n.tag
    case Reasoning => assert m.reasoning + "" == m.reasoning;
    case Content => assert m.content + "" == m.content;
    case Tool => assert m.calls + [] == m.calls;
    case _ => AllSilentAddNothing(m, n.children);
  }

  lemma {:induction false} AllSilentAddNothing(m: Message, ns: seq<Gemma.Node>)
    requires AllSilent(ns)
    ensures VisitedAll(m, ns) == m
    decreases ns, 1
  {
    if ns != [] {
      SilentAddsNothing(m, ns[0]);
      AllSilentAddNothing(m, ns[1..]);
    }
  }

  lemma {:induction false} VisitedGrows(m: Message, a: Gemma.Node, b: Gemma.Node)
    requires Grows(a, b)
    ensures Extends(Visited(m, a), Visited(m, b))
    decreases a, b, 0
  {
    if a == b {
      ExtendsRefl(Visited(m, a));
    } else {
      match a.tag {
        case Reasoning => AddsExtends(Visited(m, a), Visited(m, b));
        case Content => AddsExtends(Visited(m, a), Visited(m, b));
        case Tool => ToolGrows(m, a, b);
        case _ => VisitedAllGrows(m, a.children, b.children);
      }
    }
  }

  /** While a reply is parsed, every message extends the one before. */
  lemma {:induction false} VisitedAllGrows(m: Message, xs: seq<Gemma.Node>, ys: seq<Gemma.Node>)
    requires GrowsList(xs, ys)
    ensures Extends(VisitedAll(m, xs), VisitedAll(m, ys))
    decreases xs, ys, 1
  {
    hide Visited, Silent, Grows, Extends, Adds;
    if xs == [] {
      VisitedAllAdds(m, ys);
      AddsExtends(m, VisitedAll(m, ys));
    } else if Silent(xs[0]) {
      SilentAddsNothing(m, xs[0]);
      VisitedAllGrows(m, xs[1..], ys);
    } else if Silent(ys[0]) {
      SilentAddsNothing(m, ys[0]);
      VisitedAllGrows(m, xs, ys[1..]);
    } else if AllSilent(xs[1..]) {
      var x, y := Visited(m, xs[0]), Visited(m, ys[0]);
      AllSilentAddNothing(x, xs[1..]);
      VisitedGrows(m, xs[0], ys[0]);
      VisitedAllAdds(y, ys[1..]);
      AddsExtends(y, VisitedAll(m, ys));
      ExtendsTrans(x, y, VisitedAll(m, ys));
    } else {
      VisitedAllGrows(Visited(m, xs[0]), xs[1..], ys[1..]);
    }
  }

  /** So the deltas between two parses of a growing reply are always computed, and they rebuild the later message. */
  lemma DeltasRebuild(xs: seq<Gemma.Node>, ys: seq<Gemma.Node>)
    requires GrowsList(xs, ys)
    ensures var a, b := VisitedAll(EMPTY, xs), VisitedAll(EMPTY, ys);
            Computable(a, b) && Replay(a, Computed(a, b)) == b
  {
    hide VisitedAll, Extends;
    VisitedAllGrows(EMPTY, xs, ys);
    DiffsRebuildIff(VisitedAll(EMPTY, xs), VisitedAll(EMPTY, ys));
  }

  // ---------- a whole reply ----------

  predicate IsStream(runs: seq<seq<Gemma.Node>>) {
    forall i :: 0 < i < |runs| ==> GrowsList(runs[i - 1], runs[i])
  }

  function Messages(runs: seq<seq<Gemma.Node>>): (r: seq<Message>)
    ensures |r| == |runs| && forall i :: 0 <= i < |r| ==> r[i] == VisitedAll(EMPTY, runs[i])
  {
    seq(|runs|, i requires 0 <= i < |runs| => VisitedAll(EMPTY, runs[i]))
  }

  /** Feeds the parses of a reply through a fresh mapper each and collects the deltas. For every growing tree nothing
      throws, and at every point the client that merges the deltas has exactly the current message. */
  method StreamReply(runs: seq<seq<Gemma.Node>>) returns (r: Diffs)
    ensures r == Streamed(EMPTY, Messages(runs))
    ensures IsStream(runs) ==> AlwaysRebuilt(Messages(runs)) && r.Ok? && Replay(EMPTY, r.value) == Last(Messages(runs))
  {
    hide VisitedAll, Computable, Computed, Reason, Replay, IsStream, AlwaysRebuilt, Last;
    var prev := EMPTY;
    var diffs: seq<Diff> := [];
    ghost var ms := Messages(runs);
    BehindNothing(Streamed(EMPTY, ms));
    assert ms[0..] == ms;
    if IsStream(runs) {
      StreamGrows(runs);
    }
    for i := 0 to |runs|
      invariant Behind(diffs, Streamed(prev, ms[i..])) == Streamed(EMPTY, ms)
    {
      var mapper := new GemmaMapper();
      mapper.FromAst(runs[i]);
      var next := mapper.result;
      assert ms[i..][0] == next && ms[i..][1..] == ms[i + 1..];
      if next != EMPTY {
        var ds := ComputeDiffs(prev, next);
        if ds.Err? {
          return ds;
        }
        BehindBoth(diffs, ds.value, Streamed(next, ms[i + 1..]));
        diffs := diffs + ds.value;
        prev := next;
      }
    }
    assert ms[|runs|..] == [];
    assert diffs + [] == diffs;
    return Ok(diffs);
  }

  lemma {:induction false} StreamGrows(runs: seq<seq<Gemma.Node>>)
    requires IsStream(runs)
    ensures Growing(Messages(runs)) && AlwaysRebuilt(Messages(runs)) && Rebuilt(Messages(runs))
  {
    var ms := Messages(runs);
    forall i | 0 <= i < |ms| ensures Extends(Last(ms[..i]), ms[i]) {
      if i > 0 {
        assert ms[..i][i - 1] == VisitedAll(EMPTY, runs[i - 1]);
        hide GrowsList, VisitedAll, Extends;
        VisitedAllGrows(EMPTY, runs[i - 1], runs[i]);
      }
    }
    hide VisitedAll, Extends, Rebuilt;
    RebuiltIff(ms);
    assert ms[..|ms|] == ms;
  }

  /** The arguments of a finished call are JSON for the value that its tree stands for. */
  lemma CallIsJson(m: Message, n: Gemma.Node, name: Gemma.Node, args: Gemma.Node)
    requires n.tag == Gemma.Tool
    requires FindByTag(n.children, Gemma.ToolName, SEARCH_DEPTH) == Some(name) && !name.partial
    requires FindByTag(n.children, Gemma.ToolArgs, SEARCH_DEPTH) == Some(args)
    requires |args.children| == 1 && args.children[0].rule == DictRule
    requires IsValue(Gemma.Node(ValueRule, Gemma.Untagged, "{}", false, args.children))
    ensures var r := Visited(m, n);
            && r.calls[..|r.calls| - 1] == m.calls && r.calls[|r.calls| - 1].name == name.text
            && Json.Read(Json.JsonText, r.calls[|r.calls| - 1].arguments)
               == Some(Json.Object(MembersOf(args.children[0].children)))
  {
    var whole := Gemma.Node(ValueRule, Gemma.Untagged, "{}", false, args.children);
    assert Render(whole) == Render(args.children[0]);
    assert ValueOf(whole) == Json.Object(MembersOf(args.children[0].children));
    hide FindByTag, Render, ValueOf, IsValue;
    RenderedValue(whole, whole);
  }

  // ---------- what the search finds ----------

  // The nodes down to a depth, each in front of the nodes below it.
  function Preorder(ns: seq<Gemma.Node>, depth: nat): seq<Gemma.Node>
    decreases ns
  {
    if ns == [] then []
    else [ns[0]] + (if depth > 1 then Preorder(ns[0].children, depth - 1) else []) + Preorder(ns[1..], depth)
  }

  function FirstTagged(ns: seq<Gemma.Node>, tag: Gemma.Tag): Option<Gemma.Node> {
    if ns == [] then None else if ns[0].tag == tag then Some(ns[0]) else FirstTagged(ns[1..], tag)
  }

  lemma {:induction false} TaggedConcat(a: seq<Gemma.Node>, b: seq<Gemma.Node>, tag: Gemma.Tag)
    ensures FirstTagged(a + b, tag) == if FirstTagged(a, tag).Some? then FirstTagged(a, tag) else FirstTagged(b, tag)
  {
    if a == [] {
      assert a + b == b;
    } else {
      assert (a + b)[1..] == a[1..] + b;
      TaggedConcat(a[1..], b, tag);
    }
  }

  /** The search finds the first node with the tag, a node before the nodes below it. */
  lemma {:induction false} FoundIsFirst(ns: seq<Gemma.Node>, tag: Gemma.Tag, depth: nat)
    ensures FindByTag(ns, tag, depth) == FirstTagged(Preorder(ns, depth), tag)
    decreases ns
  {
    if ns != [] {
      var below := if depth > 1 then Preorder(ns[0].children, depth - 1) else [];
      var more := Preorder(ns[1..], depth);
      assert Preorder(ns, depth) == [ns[0]] + (below + more);
      if depth > 1 {
        FoundIsFirst(ns[0].children, tag, depth - 1);
      }
      FoundIsFirst(ns[1..], tag, depth);
      hide Preorder;
      TaggedConcat([ns[0]], below + more, tag);
      TaggedConcat(below, more, tag);
      assert [ns[0]][1..] == [];
    }
  }
}
