/** Where the texts, names and ids of a reply end up, whatever other events come between them. */
module MapperFacts {
  import opened Text
  import opened ToolMapper
  import BraceDepth

  // ---------- reasoning and content ----------

  // The texts of all events with a tag, in order.
  function TextsOf(ns: seq<Node>, tag: Tag): string {
    if ns == [] then "" else (if ns[0].tag == tag then ns[0].text else "") + TextsOf(ns[1..], tag)
  }

  lemma StepTexts(s: State, n: Node)
    requires Wf(s)
    ensures Step(s, n).reasoning == s.reasoning + (if n.tag == Reasoning then n.text else "")
    ensures Step(s, n).content == s.content + (if n.tag == Content then n.text else "")
  {
    hide TrimTrailing, Trim, ValueText, IdText, Completed, StartsObject;
    assert s.reasoning + "" == s.reasoning && s.content + "" == s.content;
  }

  lemma MoreText(a: string, b: string, c: string)
    ensures a + "" == a && (a + b) + c == a + (b + c)
  {
  }

  lemma {:induction false} RunTexts(s: State, ns: seq<Node>)
    requires Wf(s)
    ensures Run(s, ns).reasoning == s.reasoning + TextsOf(ns, Reasoning)
    ensures Run(s, ns).content == s.content + TextsOf(ns, Content)
    decreases ns
  {
    hide Step;
    if ns == [] {
      MoreText(s.reasoning, "", "");
      MoreText(s.content, "", "");
    } else {
      var n, rest := ns[0], ns[1..];
      StepTexts(s, n);
      RunTexts(Step(s, n), rest);
      MoreText(s.reasoning, if n.tag == Reasoning then n.text else "", TextsOf(rest, Reasoning));
      MoreText(s.content, if n.tag == Content then n.text else "", TextsOf(rest, Content));
    }
  }

  /** The content of a message is everything that was content, and its reasoning everything that was reasoning, unless
      that is blank. */
  lemma ParsedTexts(ns: seq<Node>)
    ensures Parsed(ns).content == TextsOf(ns, Content)
    ensures Parsed(ns).reasoning == if IsBlank(TextsOf(ns, Reasoning)) then "" else TextsOf(ns, Reasoning)
  {
    hide Run, IsBlank;
    RunTexts(START, ns);
    assert "" + TextsOf(ns, Content) == TextsOf(ns, Content);
    assert "" + TextsOf(ns, Reasoning) == TextsOf(ns, Reasoning);
  }

  // ---------- names and ids ----------

  // The last name and the last id of a call; the second one without the quotes around it.
  function LastName(ns: seq<Node>, name: string): string {
    if ns == [] then name else LastName(ns[1..], if ns[0].tag == ToolName then TrimTrailing(ns[0].text) else name)
  }

  function LastId(ns: seq<Node>, id: string): string {
    if ns == [] then id else LastId(ns[1..], if ns[0].tag == ToolId then IdText(ns[0].text) else id)
  }

  predicate HasName(ns: seq<Node>) {
    exists i :: 0 <= i < |ns| && ns[i].tag == ToolName
  }

  // Events between the opening and the closing of a call.
  predicate IsBody(ns: seq<Node>) {
    forall i :: 0 <= i < |ns| ==> ns[i].tag != ToolOpen && ns[i].tag != ToolClose
  }

  // The call is still pending, or it is the last one of the result.
  predicate InCall(s: State, earlier: seq<ToolCall>, named: bool, name: string, id: string) {
    && Wf(s) && s.current != Nowhere
    && Tool(s).name == name && Tool(s).id == id
    && if named then s.current == AtLastCall && s.calls[..|s.calls| - 1] == earlier
       else s.current == AtPending && s.calls == earlier && name == ""
  }

  lemma StepInCall(s: State, earlier: seq<ToolCall>, named: bool, name: string, id: string, n: Node)
    requires InCall(s, earlier, named, name, id) && n.tag != ToolOpen && n.tag != ToolClose
    ensures InCall(Step(s, n), earlier, named || n.tag == ToolName,
                   if n.tag == ToolName then TrimTrailing(n.text) else name,
                   if n.tag == ToolId then IdText(n.text) else id)
  {
    hide TrimTrailing, Trim, ValueText, IdText, StartsObject;
    var r := Step(s, n);
    if s.current == AtLastCall {
      assert r.calls[..|r.calls| - 1] == s.calls[..|s.calls| - 1];
    }
  }

  lemma {:induction false} RunInCall(s: State, earlier: seq<ToolCall>, named: bool, name: string, id: string,
                                     ns: seq<Node>)
    requires Wf(s) && InCall(s, earlier, named, name, id) && IsBody(ns)
    ensures InCall(Run(s, ns), earlier, named || HasName(ns), LastName(ns, name), LastId(ns, id))
    decreases ns
  {
    hide InCall, Step, TrimTrailing, IdText;
    if ns != [] {
      StepInCall(s, earlier, named, name, id, ns[0]);
      assert HasName(ns) <==> ns[0].tag == ToolName || HasName(ns[1..]) by {
        if i :| 0 <= i < |ns[1..]| && ns[1..][i].tag == ToolName {
          assert ns[i + 1].tag == ToolName;
        }
        if i :| 0 < i < |ns| && ns[i].tag == ToolName {
          assert ns[1..][i - 1].tag == ToolName;
        }
      }
      RunInCall(Step(s, ns[0]), earlier, named || ns[0].tag == ToolName,
                if ns[0].tag == ToolName then TrimTrailing(ns[0].text) else name,
                if ns[0].tag == ToolId then IdText(ns[0].text) else id, ns[1..]);
    }
  }

  /** A call that is opened and closed is added exactly if it was named, with its last name and its last id. */
  lemma {:induction false} CallIsAdded(s: State, open: Node, body: seq<Node>, close: Node)
    requires Wf(s) && open.tag == ToolOpen && close.tag == ToolClose && IsBody(body)
    ensures var r := Run(s, [open] + body + [close]);
      if HasName(body) then
        && |r.calls| == |s.calls| + 1 && r.calls[..|s.calls|] == s.calls
        && r.calls[|s.calls|].name == LastName(body, "") && r.calls[|s.calls|].id == LastId(body, "")
      else r.calls == s.calls
  {
    hide TrimTrailing, IdText, Completed, LastName, LastId;
    var s1 := Step(s, open);
    RunConcat(s, [open] + body, [close]);
    RunConcat(s, [open], body);
    assert [open][1..] == [] && [close][1..] == [];
    assert Run(s, [open]) == s1 && InCall(s1, s.calls, false, "", "");
    RunInCall(s1, s.calls, false, "", "", body);
    var s2 := Run(s1, body);
    assert Run(s2, [close]) == Step(s2, close) == CloseStep(s2);
  }

  // ---------- arguments given as one object ----------

  /** An object text becomes the arguments of the call as it is, but for white space at its end, whether the name comes
      before or behind it, and stays as it is when its braces are balanced. */
  lemma ObjectIsArguments(s: State, open: Node, name: Node, args: Node, close: Node)
    requires Wf(s) && open.tag == ToolOpen && name.tag == ToolName && args.tag == ToolArgs && close.tag == ToolClose
    requires TrimTrailing(name.text) != "" && StartsObject(args.text)
    ensures var calls := s.calls + [ToolCall(TrimTrailing(name.text), TrimTrailing(args.text), "")];
      && Run(s, [open, name, args]).calls == Run(s, [open, args, name]).calls == calls
      && (BraceDepth.Depth(TrimTrailing(args.text)) == 0 ==> Run(s, [open, name, args, close]).calls == calls)
  {
    hide TrimTrailing, IdText, BraceDepth.Depth;
    var n, t := TrimTrailing(name.text), TrimTrailing(args.text);
    assert t != "";
    FourSteps(s, open, name, args, close);
    FourSteps(s, open, args, name, close);
    var s1 := Step(s, open);
    var s2 := Step(s1, name);
    assert s2.calls == s.calls + [ToolCall(n, "{", "")];
    var s3 := Step(s2, args);
    assert s3.calls == s.calls + [ToolCall(n, t, "")];
    assert Step(Step(s1, args), name).calls == s.calls + [ToolCall(n, t, "")];
    if BraceDepth.Depth(t) == 0 {
      assert Completed(t, false) == t;
      assert Step(s3, close).calls == s3.calls;
    }
  }

  lemma RunFirst(s: State, n: Node, ns: seq<Node>)
    requires Wf(s)
    ensures Run(s, [n] + ns) == Run(Step(s, n), ns)
  {
    hide Step;
    assert ([n] + ns)[1..] == ns;
  }

  lemma FourSteps(s: State, a: Node, b: Node, c: Node, d: Node)
    requires Wf(s)
    ensures Run(s, [a, b, c]) == Step(Step(Step(s, a), b), c)
    ensures Run(s, [a, b, c, d]) == Step(Step(Step(Step(s, a), b), c), d)
  {
    hide *;
    var s1 := Step(s, a);
    var s2 := Step(s1, b);
    var s3 := Step(s2, c);
    assert [a, b, c, d] == [a] + [b, c, d] && [b, c, d] == [b] + [c, d] && [c, d] == [c] + [d] && [d] == [d] + [];
    assert [a, b, c] == [a] + [b, c] && [b, c] == [b] + [c] && [c] == [c] + [];
    RunFirst(s, a, [b, c, d]);
    RunFirst(s1, b, [c, d]);
    RunFirst(s2, c, [d]);
    RunFirst(s3, d, []);
    RunFirst(s, a, [b, c]);
    RunFirst(s1, b, [c]);
    RunFirst(s2, c, []);
    NoSteps(s3);
    NoSteps(Step(s3, d));
  }

  lemma NoSteps(s: State)
    requires Wf(s)
    ensures Run(s, []) == s
  {
  }
}
