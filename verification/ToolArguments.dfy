/** What the argument text of a finished tool call is, wherever its name arrived among the argument events. */
module ToolArguments {
  import opened Text
  import opened ToolMapper
  import opened Json
  import JsonFacts
  import BraceDepth
  import PythonLiterals

  // The text of a string may come in several pieces.
  datatype Arg = StringArg(name: string, text: string, more: seq<string>) | ValueArg(name: string, text: string)

  function Pieces(ts: seq<string>): seq<Node> {
    if ts == [] then [] else [Node(ArgStringValue, ts[0])] + Pieces(ts[1..])
  }

  function Concat(ts: seq<string>): string {
    if ts == [] then "" else ts[0] + Concat(ts[1..])
  }

  function StringText(a: Arg): string
    requires a.StringArg?
  {
    a.text + Concat(a.more)
  }

  // A further piece that is empty would write a further quote.
  predicate NoneEmpty(ts: seq<string>) {
    forall i :: 0 <= i < |ts| ==> ts[i] != ""
  }

  function ValueNodes(a: Arg): seq<Node> {
    if a.StringArg? then [Node(ArgStringValue, a.text)] + Pieces(a.more) else [Node(ArgValue, a.text)]
  }

  // The events of one argument: opening, name, the value, closing.
  function ArgEvents(a: Arg): seq<Node> {
    [Node(ArgOpen, ""), Node(ArgName, a.name)] + ValueNodes(a) + [Node(ArgClose, "")]
  }

  predicate Pieced(args: seq<Arg>) {
    forall i :: 0 <= i < |args| && args[i].StringArg? ==> NoneEmpty(args[i].more)
  }

  function Script(args: seq<Arg>): seq<Node> {
    if args == [] then [] else ArgEvents(args[0]) + Script(args[1..])
  }

  predicate IsArgTag(t: Tag) {
    t == ArgOpen || t == ArgName || t == ArgValue || t == ArgStringValue || t == ArgClose
  }

  // Events that may occur between the opening and the closing of a call, apart from its name.
  predicate InBody(n: Node) {
    n.tag != ToolOpen && n.tag != ToolClose && n.tag != ToolName && (n.tag == ToolArgs ==> !StartsObject(n.text))
  }

  // The argument events among others. The texts of opening and closing events play no role.
  function ArgumentsOf(ns: seq<Node>): seq<Node> {
    if ns == [] then []
    else
      var n := if ns[0].tag == ArgOpen || ns[0].tag == ArgClose then ns[0].(text := "") else ns[0];
      (if IsArgTag(n.tag) then [n] else []) + ArgumentsOf(ns[1..])
  }

  // ---------- the text that argument events add up to ----------

  function ArgText(a: Arg): string {
    Quote(Trim(a.name)) + ":" + if a.StringArg? then Quote(StringText(a)) else PythonLiterals.Normalized(a.text)
  }

  function MoreArgs(args: seq<Arg>): string {
    if args == [] then "" else "," + ArgText(args[0]) + MoreArgs(args[1..])
  }

  // The comma-separated members.
  function ArgsText(args: seq<Arg>): string {
    if args == [] then "" else ArgText(args[0]) + MoreArgs(args[1..])
  }

  datatype Emitted = Emitted(text: string, count: nat, closing: bool)

  function Emit(e: Emitted, n: Node): Emitted {
    if n.tag == ArgOpen then e.(closing := false)
    else if n.tag == ArgName then
      e.(text := e.text + (if e.count > 0 then "," else "") + Quote(Trim(n.text)) + ":", count := e.count + 1)
    else if n.tag == ArgValue || n.tag == ArgStringValue then
      e.(text := e.text + ValueText(n.tag, n.text, e.closing), closing := e.closing || n.tag == ArgStringValue)
    else if n.tag == ArgClose && e.closing then Emitted(e.text + "\"", e.count, false)
    else e
  }

  function EmitAll(e: Emitted, ns: seq<Node>): Emitted
    decreases ns
  {
    if ns == [] then e else EmitAll(Emit(e, ns[0]), ns[1..])
  }

  // Values come after some argument name.
  predicate Ordered(e: Emitted, ns: seq<Node>)
    decreases ns
  {
    ns == [] ||
    ((ns[0].tag == ArgValue || ns[0].tag == ArgStringValue ==> e.count > 0) && Ordered(Emit(e, ns[0]), ns[1..]))
  }

  // The state of an open call whose argument events so far add up to e. While the call has no name the text is
  // buffered, and the opening brace is only added with the first argument name.
  predicate Holds(s: State, e: Emitted, earlier: seq<ToolCall>, name: string) {
    && Wf(s) && s.current != Nowhere
    && s.argCount == e.count && s.closing == e.closing
    && e.text != "" && (e.count == 0 ==> e.text == "{" && !e.closing)
    && Tool(s).name == name
    && if name == "" then
         s.current == AtPending && s.calls == earlier && Tool(s).arguments == "" &&
         s.buffer == (if e.count == 0 then "" else e.text)
       else
         s.current == AtLastCall && s.calls[..|s.calls| - 1] == earlier && Tool(s).arguments == e.text && s.buffer == ""
  }

  // New argument text keeps the relation, whether it goes to the buffer or to the call.
  lemma TargetHolds(s: State, e: Emitted, earlier: seq<ToolCall>, name: string, f: Emitted)
    requires Holds(s, e, earlier, name) && f.text != "" && f.count > 0
    ensures Target(s) == if e.count == 0 && name == "" then "" else e.text
    ensures Holds(WithTarget(s, f.text).(argCount := f.count, closing := f.closing), f, earlier, name)
  {
    if s.current == AtLastCall {
      assert WithTarget(s, f.text).calls[..|s.calls| - 1] == s.calls[..|s.calls| - 1];
    }
  }

  lemma {:induction false} StepHolds(s: State, e: Emitted, earlier: seq<ToolCall>, name: string, n: Node)
    requires Holds(s, e, earlier, name) && InBody(n)
    requires n.tag == ArgValue || n.tag == ArgStringValue ==> e.count > 0
    ensures Holds(Step(s, n), Emit(e, n), earlier, name)
  {
    if n.tag == ArgName || n.tag == ArgValue || n.tag == ArgStringValue || (n.tag == ArgClose && e.closing) {
      TextHolds(s, e, earlier, name, n);
    } else {
      OtherHolds(s, e, earlier, name, n);
    }
  }

  lemma {:induction false} TextHolds(s: State, e: Emitted, earlier: seq<ToolCall>, name: string, n: Node)
    requires Holds(s, e, earlier, name)
    requires n.tag == ArgName || ((n.tag == ArgValue || n.tag == ArgStringValue) && e.count > 0) ||
             (n.tag == ArgClose && e.closing)
    ensures Holds(Step(s, n), Emit(e, n), earlier, name)
  {
    hide PythonLiterals.Normalized, Quote, Trim, TrimTrailing, IdText, ValueText, StartsObject;
    hide WithTarget, Target, WithTool;
    var f := Emit(e, n);
    TargetHolds(s, e, earlier, name, f);
    var r := WithTarget(s, f.text).(argCount := f.count, closing := f.closing);
    if n.tag == ArgName {
      var entry := (if e.count > 0 then "," else "") + Quote(Trim(n.text)) + ":";
      assert f.text == e.text + entry;
    }
    assert Step(s, n) == r;
  }

  lemma {:induction false} OtherHolds(s: State, e: Emitted, earlier: seq<ToolCall>, name: string, n: Node)
    requires Holds(s, e, earlier, name) && InBody(n)
    requires n.tag != ArgName && n.tag != ArgValue && n.tag != ArgStringValue && (n.tag == ArgClose ==> !e.closing)
    ensures Holds(Step(s, n), Emit(e, n), earlier, name)
  {
    hide StartsObject, IdText;
    if n.tag == ToolId && s.current == AtLastCall {
      assert Step(s, n).calls[..|s.calls| - 1] == s.calls[..|s.calls| - 1];
    }
  }

  lemma {:induction false} RunHolds(s: State, e: Emitted, earlier: seq<ToolCall>, name: string, ns: seq<Node>)
    requires Holds(s, e, earlier, name) && Ordered(e, ns)
    requires forall i :: 0 <= i < |ns| ==> InBody(ns[i])
    ensures Holds(Run(s, ns), EmitAll(e, ns), earlier, name)
    decreases ns
  {
    hide Emit, Step, InBody, Tool;
    if ns != [] {
      StepHolds(s, e, earlier, name, ns[0]);
      RunHolds(Step(s, ns[0]), Emit(e, ns[0]), earlier, name, ns[1..]);
    }
  }

  // The name moves the buffered text, or the opening brace, into the call.
  lemma {:induction false} NameHolds(s: State, e: Emitted, earlier: seq<ToolCall>, n: Node)
    requires Holds(s, e, earlier, "") && n.tag == ToolName && TrimTrailing(n.text) != ""
    ensures Holds(Step(s, n), e, earlier, TrimTrailing(n.text))
  {
    hide TrimTrailing;
  }

  lemma {:induction false} EmitConcat(e: Emitted, a: seq<Node>, b: seq<Node>)
    ensures EmitAll(e, a + b) == EmitAll(EmitAll(e, a), b)
    ensures Ordered(e, a + b) <==> Ordered(e, a) && Ordered(EmitAll(e, a), b)
    decreases a
  {
    hide Emit;
    if a == [] {
      assert a + b == b;
    } else {
      assert (a + b)[1..] == a[1..] + b;
      EmitConcat(Emit(e, a[0]), a[1..], b);
    }
  }

  lemma {:induction false} EmitArguments(e: Emitted, ns: seq<Node>)
    ensures EmitAll(e, ns) == EmitAll(e, ArgumentsOf(ns))
    ensures Ordered(e, ns) <==> Ordered(e, ArgumentsOf(ns))
    decreases ns
  {
    hide ValueText, Quote, Trim;
    if ns != [] {
      EmitArguments(Emit(e, ns[0]), ns[1..]);
      var n := if ns[0].tag == ArgOpen || ns[0].tag == ArgClose then ns[0].(text := "") else ns[0];
      if IsArgTag(n.tag) {
        assert ArgumentsOf(ns) == [n] + ArgumentsOf(ns[1..]);
        assert ArgumentsOf(ns)[1..] == ArgumentsOf(ns[1..]);
      } else {
        assert ArgumentsOf(ns) == ArgumentsOf(ns[1..]);
      }
    }
  }

  function Empties(ts: seq<string>): nat {
    if ts == [] then 0 else (if ts[0] == "" then 1 else 0) + Empties(ts[1..])
  }

  lemma {:induction false} NoEmpties(ts: seq<string>)
    ensures Empties(ts) == 0 <==> NoneEmpty(ts)
  {
    if ts != [] {
      NoEmpties(ts[1..]);
      assert NoneEmpty(ts) <==> ts[0] != "" && NoneEmpty(ts[1..]);
    }
  }

  lemma OnePiece(e: Emitted, t: string)
    requires e.closing && e.count > 0
    ensures Emit(e, Node(ArgStringValue, t)) == e.(text := e.text + (if t == "" then "\"" else "") + Escape(t))
  {
    hide Escape;
    var quote := if t == "" then "\"" else "";
    assert e.text + (quote + Escape(t)) == e.text + quote + Escape(t);
  }

  lemma PiecesAre(ts: seq<string>)
    requires ts != []
    ensures Pieces(ts) != [] && Pieces(ts)[0] == Node(ArgStringValue, ts[0]) && Pieces(ts)[1..] == Pieces(ts[1..])
    ensures Concat(ts) == ts[0] + Concat(ts[1..]) && Escape(Concat(ts)) == Escape(ts[0]) + Escape(Concat(ts[1..]))
  {
    JsonFacts.EscapeConcat(ts[0], Concat(ts[1..]));
    hide Escape;
  }

  lemma PiecesStep(e: Emitted, ts: seq<string>)
    requires ts != [] && e.count > 0
    ensures EmitAll(e, Pieces(ts)) == EmitAll(Emit(e, Node(ArgStringValue, ts[0])), Pieces(ts[1..]))
    ensures Ordered(e, Pieces(ts)) <==> Ordered(Emit(e, Node(ArgStringValue, ts[0])), Pieces(ts[1..]))
    ensures Empties(ts) == (if ts[0] == "" then 1 else 0) + Empties(ts[1..])
    ensures NoneEmpty(ts) <==> ts[0] != "" && NoneEmpty(ts[1..])
  {
    hide Emit, Pieces, Escape, Concat;
    PiecesAre(ts);
  }

  lemma NoPieces(e: Emitted)
    ensures EmitAll(e, Pieces([])) == e && Ordered(e, Pieces([])) && Escape(Concat([])) == "" && Empties([]) == 0
    ensures e.text + "" == e.text
  {
  }

  lemma Joins(a: string, b: string, c: string)
    ensures a + "" + b + c == a + (b + c) && |a + "\"" + b| == |a| + |b| + 1
  {
  }

  // Every further piece that is empty adds a quote.
  lemma {:induction false} PiecesLen(e: Emitted, ts: seq<string>)
    requires e.closing && e.count > 0
    ensures var r := EmitAll(e, Pieces(ts));
      && Ordered(e, Pieces(ts)) && r.closing && r.count == e.count
      && |r.text| == |e.text| + |Escape(Concat(ts))| + Empties(ts)
      && (NoneEmpty(ts) ==> r.text == e.text + Escape(Concat(ts)))
    decreases ts
  {
    hide *;
    if ts == [] {
      NoPieces(e);
    } else {
      var next := Emit(e, Node(ArgStringValue, ts[0]));
      OnePiece(e, ts[0]);
      PiecesAre(ts);
      PiecesStep(e, ts);
      PiecesLen(next, ts[1..]);
      Joins(e.text, Escape(ts[0]), Escape(Concat(ts[1..])));
    }
  }

  /** Further pieces of a string go on behind the quote that was opened, as if the text had come at once, if and only if
      none of them is empty. */
  lemma EmitPieces(e: Emitted, ts: seq<string>)
    requires e.closing && e.count > 0
    ensures Ordered(e, Pieces(ts))
    ensures EmitAll(e, Pieces(ts)) == e.(text := e.text + Escape(Concat(ts))) <==> NoneEmpty(ts)
  {
    PiecesLen(e, ts);
    NoEmpties(ts);
    hide Escape, Pieces, Concat, EmitAll;
  }

  // What the value nodes and the closing event behind them add.
  lemma {:induction false} EmitValue(e: Emitted, a: Arg)
    requires !e.closing && e.count > 0 && (a.StringArg? ==> NoneEmpty(a.more))
    ensures var ns := ValueNodes(a) + [Node(ArgClose, "")];
      && Ordered(e, ns)
      && EmitAll(e, ns) == e.(text := e.text + if a.StringArg? then Quote(StringText(a))
                                               else PythonLiterals.Normalized(a.text))
  {
    hide PythonLiterals.Normalized, Escape;
    var ns, close := ValueNodes(a), Node(ArgClose, "");
    EmptyValue();
    EmitConcat(e, ns, [close]);
    assert [close][1..] == [];
    if a.StringArg? {
      var first := Emit(e, ns[0]);
      assert first == e.(text := e.text + "\"" + Escape(a.text), closing := true);
      assert ns[1..] == Pieces(a.more);
      EmitPieces(first, a.more);
      JsonFacts.EscapeConcat(a.text, Concat(a.more));
      var x, y := Escape(a.text), Escape(Concat(a.more));
      assert e.text + "\"" + x + y + "\"" == e.text + ("\"" + (x + y) + "\"");
    } else {
      assert ns[1..] == [];
    }
  }

  lemma {:induction false} EmitArg(e: Emitted, a: Arg)
    requires !e.closing && (a.StringArg? ==> NoneEmpty(a.more))
    ensures EmitAll(e, ArgEvents(a))
         == Emitted(e.text + (if e.count > 0 then "," else "") + ArgText(a), e.count + 1, false)
    ensures Ordered(e, ArgEvents(a))
  {
    hide PythonLiterals.Normalized, Quote, Trim, StringText;
    var ns, rest := ArgEvents(a), ValueNodes(a) + [Node(ArgClose, "")];
    var comma := if e.count > 0 then "," else "";
    var named := Emit(Emit(e, ns[0]), ns[1]);
    assert ns[1..][1..] == rest;
    EmitValue(named, a);
    hide ValueNodes;
    var value := if a.StringArg? then Quote(StringText(a)) else PythonLiterals.Normalized(a.text);
    assert named.text == e.text + comma + Quote(Trim(a.name)) + ":";
    assert named.text + value == e.text + comma + (Quote(Trim(a.name)) + ":" + value);
  }

  lemma EmptyValue()
    ensures PythonLiterals.Normalized("") == "" && Escape("") == ""
  {
  }

  lemma EmitNothing(e: Emitted)
    ensures EmitAll(e, []) == e
  {
  }

  lemma {:induction false} EmitScript(e: Emitted, args: seq<Arg>)
    requires !e.closing && Pieced(args)
    ensures EmitAll(e, Script(args)) ==
      Emitted(e.text + (if e.count > 0 then MoreArgs(args) else ArgsText(args)), e.count + |args|, false)
    ensures Ordered(e, Script(args))
    decreases args
  {
    hide ArgText, ArgEvents, Emit, EmitAll;
    if args == [] {
      assert e.text + "" == e.text;
      assert EmitAll(e, []) == e by { EmitNothing(e); }
    } else {
      EmitArg(e, args[0]);
      EmitConcat(e, ArgEvents(args[0]), Script(args[1..]));
      var next := EmitAll(e, ArgEvents(args[0]));
      EmitScript(next, args[1..]);
      var more := MoreArgs(args[1..]);
      if e.count > 0 {
        assert e.text + "," + ArgText(args[0]) + more == e.text + ("," + ArgText(args[0]) + more);
      } else {
        assert e.text + "" + ArgText(args[0]) + more == e.text + (ArgText(args[0]) + more);
      }
    }
  }

  // ---------- one whole call ----------

  function CallEvents(open: Node, before: seq<Node>, name: Node, after: seq<Node>, close: Node): seq<Node> {
    [open] + before + [name] + after + [close]
  }

  predicate IsCall(open: Node, before: seq<Node>, name: Node, after: seq<Node>, close: Node, args: seq<Arg>) {
    && open.tag == ToolOpen && close.tag == ToolClose
    && name.tag == ToolName && TrimTrailing(name.text) != ""
    && (forall i :: 0 <= i < |before| ==> InBody(before[i]))
    && (forall i :: 0 <= i < |after| ==> InBody(after[i]))
    && ArgumentsOf(before) + ArgumentsOf(after) == Script(args) && Pieced(args)
  }

  lemma {:induction false} RunCall(s: State, open: Node, before: seq<Node>, name: Node, after: seq<Node>)
    requires Wf(s) && open.tag == ToolOpen
    ensures Run(s, [open] + before + [name] + after) == Run(Step(Run(OpenStep(s), before), name), after)
  {
    assert Step(s, open) == OpenStep(s);
    hide Step, OpenStep;
    assert [open] + before + [name] + after == [open] + (before + ([name] + after));
    RunConcat(s, [open], before + ([name] + after));
    RunConcat(OpenStep(s), before, [name] + after);
    RunConcat(Run(OpenStep(s), before), [name], after);
  }

  // The state just before the closing event.
  lemma {:induction false} CallBody(s: State, open: Node, before: seq<Node>, name: Node, after: seq<Node>,
                                    close: Node, args: seq<Arg>)
    requires Wf(s) && IsCall(open, before, name, after, close, args)
    ensures var r := Run(s, [open] + before + [name] + after);
      Holds(r, Emitted("{" + ArgsText(args), |args|, false), s.calls, TrimTrailing(name.text))
  {
    var e0 := Emitted("{", 0, false);
    var s1 := OpenStep(s);
    assert Holds(s1, e0, s.calls, "");
    hide Step, TrimTrailing, ArgsText, Holds, Run, EmitAll, Ordered, OpenStep, InBody, ArgumentsOf, Script;
    RunCall(s, open, before, name, after);
    EmitScript(e0, args);
    EmitConcat(e0, ArgumentsOf(before), ArgumentsOf(after));
    EmitArguments(e0, before);
    RunHolds(s1, e0, s.calls, "", before);
    var s2, e2 := Run(s1, before), EmitAll(e0, before);
    NameHolds(s2, e2, s.calls, name);
    EmitArguments(e2, after);
    RunHolds(Step(s2, name), e2, s.calls, TrimTrailing(name.text), after);
  }

  /** A finished call adds exactly one tool call. Its arguments are the opening brace, the members in order, and
      as many closing braces as the text still needs, whether the members were written to the call or buffered. */
  lemma {:induction false} CallArguments(s: State, open: Node, before: seq<Node>, name: Node, after: seq<Node>,
                                         close: Node, args: seq<Arg>)
    requires Wf(s) && IsCall(open, before, name, after, close, args)
    ensures var r := Run(s, CallEvents(open, before, name, after, close));
      && |r.calls| == |s.calls| + 1
      && r.calls[..|s.calls|] == s.calls
      && r.calls[|s.calls|].name == TrimTrailing(name.text)
      && r.calls[|s.calls|].arguments == Completed("{" + ArgsText(args), false)
  {
    hide TrimTrailing, ArgsText, Completed;
    CallBody(s, open, before, name, after, close, args);
    RunConcat(s, [open] + before + [name] + after, [close]);
    var r := Run(s, [open] + before + [name] + after);
    assert Run(r, [close]) == Step(r, close);
  }

  // ---------- the text as JSON ----------

  predicate Readable(a: Arg) {
    a.ValueArg? ==> Read(PythonText, a.text).Some?
  }

  // The member that an argument stands for.
  function Member(a: Arg): (string, Value)
    requires Readable(a)
  {
    (Trim(a.name), if a.StringArg? then String(StringText(a)) else Read(PythonText, a.text).value)
  }

  function Members(args: seq<Arg>): seq<(string, Value)>
    requires forall i :: 0 <= i < |args| ==> Readable(args[i])
  {
    if args == [] then [] else [Member(args[0])] + Members(args[1..])
  }

  // The tokens of one member's value, which parse to that value.
  lemma {:induction false} LexArgValue(a: Arg) returns (ts: seq<Token>)
    requires Readable(a)
    ensures var text := if a.StringArg? then Quote(StringText(a)) else PythonLiterals.Normalized(a.text);
      Lex(JsonText, text) == Some(ts)
    ensures ParseValue(ts) == Some((Member(a).1, []))
  {
    hide Lex, ReadString, Escape, Trim;
    if a.StringArg? {
      var text := StringText(a);
      JsonFacts.LexQuote(text, "");
      JsonFacts.LexEmpty();
      assert Quote(text) + "" == Quote(text);
      ts := [Scalar(String(text))];
      assert ts[1..] == [] && ts + [] == ts;
    } else {
      PythonLiterals.NormalizePreservesMeaning(a.text);
      ts := Lex(JsonText, PythonLiterals.Normalized(a.text)).value;
    }
  }

  lemma LexColon(s: string)
    ensures Lex(JsonText, ":" + s) == Prepend(Punct(':'), Lex(JsonText, s))
  {
    assert (":" + s)[1..] == s;
  }

  lemma {:induction false} LexArg(a: Arg, rest: string, more: seq<Token>) returns (ts: seq<Token>)
    requires Readable(a) && rest != "" && !IsRunChar(rest[0]) && Lex(JsonText, rest) == Some(more)
    ensures Lex(JsonText, ArgText(a) + rest) == Some([Scalar(String(Trim(a.name))), Punct(':')] + ts + more)
    ensures ParseValue(ts + more) == Some((Member(a).1, more))
  {
    hide Lex, Trim, PythonLiterals.Normalized, Quote, ParseValue, Member, IsRunChar;
    ts := LexArgValue(a);
    var text := if a.StringArg? then Quote(StringText(a)) else PythonLiterals.Normalized(a.text);
    JsonFacts.LexConcat(JsonText, text, rest);
    JsonFacts.LexQuote(Trim(a.name), ":" + text + rest);
    assert ArgText(a) + rest == Quote(Trim(a.name)) + (":" + text + rest);
    assert ":" + text + rest == ":" + (text + rest);
    LexColon(text + rest);
    assert [Scalar(String(Trim(a.name)))] + ([Punct(':')] + (ts + more))
        == [Scalar(String(Trim(a.name))), Punct(':')] + ts + more;
    JsonFacts.ParseValueExtends(ts, more);
    assert [] + more == more;
  }

  // A member followed by the end of the object, or by a comma and further members.
  lemma {:induction false} ParseArgs(args: seq<Arg>) returns (ts: seq<Token>)
    requires args != [] && forall i :: 0 <= i < |args| ==> Readable(args[i])
    ensures Lex(JsonText, ArgsText(args) + "}") == Some(ts)
    ensures ts != [] && ts[0].Scalar? && ParseMembers(ts) == Some((Members(args), []))
    decreases args
  {
    hide ReadString, ArgText, Trim, RunLen, ReadWord, ParseValue, ParseMembers, Member, Readable;
    var rest := MoreArgs(args[1..]) + "}";
    var more: seq<Token>;
    if |args| == 1 {
      assert args[1..] == [];
      assert MoreArgs(args[1..]) == "" && Members(args[1..]) == [];
      assert rest == "}";
      more := [Punct('}')];
      JsonFacts.LexEmpty();
    } else {
      var tail := ParseArgs(args[1..]);
      more := [Punct(',')] + tail;
      assert rest[1..] == ArgsText(args[1..]) + "}";
      assert more[1..] == tail;
    }
    var value := LexArg(args[0], rest, more);
    assert ArgsText(args) + "}" == ArgText(args[0]) + rest;
    ts := [Scalar(String(Trim(args[0].name))), Punct(':')] + value + more;
    MemberName(args[0]);
    JsonFacts.ParseMember(Trim(args[0].name), Member(args[0]).1, value, more, Members(args[1..]));
  }

  lemma MemberName(a: Arg)
    requires Readable(a)
    ensures Member(a).0 == Trim(a.name)
  {
  }

  lemma {:induction false} ReadArgs(args: seq<Arg>)
    requires forall i :: 0 <= i < |args| ==> Readable(args[i])
    ensures Read(JsonText, "{" + ArgsText(args) + "}") == Some(Object(Members(args)))
  {
    hide ReadString, ArgText, Trim, RunLen, ReadWord, Member, Readable;
    var text := "{" + ArgsText(args) + "}";
    assert text[1..] == ArgsText(args) + "}";
    if args == [] {
      assert ArgsText(args) == "";
      assert text[1..] == "}";
      JsonFacts.LexEmpty();
      var all := [Punct('{')] + [Punct('}')];
      assert Lex(JsonText, text) == Some(all);
      assert all[2..] == [];
    } else {
      var ts := ParseArgs(args);
      var all := [Punct('{')] + ts;
      assert all[1..] == ts;
    }
  }

  // ---------- the exact text ----------

  // Values that are no strings leave the brace counter as they found it. They need not be literals.
  predicate Neutral(a: Arg) {
    a.ValueArg? ==> BraceDepth.Balanced(PythonLiterals.Normalized(a.text))
  }

  lemma BalancedConcat(x: string, y: string)
    requires BraceDepth.Balanced(x) && BraceDepth.Balanced(y)
    ensures BraceDepth.Balanced(x + y)
  {
    BraceDepth.RunConcat(BraceDepth.START, x, y);
  }

  lemma QuoteBalanced(s: string)
    ensures BraceDepth.Balanced(Quote(s))
  {
    hide Quote, BraceDepth.Balanced, Lex;
    JsonFacts.LexQuote(s, "");
    JsonFacts.LexEmpty();
    assert Quote(s) + "" == Quote(s);
    var ts := [Scalar(String(s))];
    assert ts + [] == ts && ts[1..] == [];
    BraceDepth.ValueBalanced(Quote(s));
  }

  lemma Separators()
    ensures BraceDepth.Balanced(",") && BraceDepth.Balanced(":") && BraceDepth.Balanced("")
  {
    assert ","[1..] == "" && ":"[1..] == "";
  }

  lemma ArgBalanced(a: Arg)
    requires Neutral(a)
    ensures BraceDepth.Balanced(ArgText(a))
  {
    hide BraceDepth.Balanced, Quote, PythonLiterals.Normalized, Trim;
    Separators();
    QuoteBalanced(Trim(a.name));
    BalancedConcat(Quote(Trim(a.name)), ":");
    if a.StringArg? {
      QuoteBalanced(StringText(a));
    }
    var value := if a.StringArg? then Quote(StringText(a)) else PythonLiterals.Normalized(a.text);
    BalancedConcat(Quote(Trim(a.name)) + ":", value);
  }

  lemma {:induction false} ArgsBalanced(args: seq<Arg>)
    requires forall i :: 0 <= i < |args| ==> Neutral(args[i])
    ensures BraceDepth.Balanced(ArgsText(args)) && BraceDepth.Balanced(MoreArgs(args))
  {
    hide BraceDepth.Balanced, ArgText, Neutral;
    Separators();
    if args != [] {
      ArgBalanced(args[0]);
      ArgsBalanced(args[1..]);
      BalancedConcat(ArgText(args[0]), MoreArgs(args[1..]));
      BalancedConcat(",", ArgText(args[0]));
      BalancedConcat("," + ArgText(args[0]), MoreArgs(args[1..]));
    }
  }

  // The opening brace is missing its closing one, and nothing else is open.
  lemma OpenBrace(s: string)
    ensures BraceDepth.Depth("{" + s) == BraceDepth.Depth(s) + 1
  {
    assert ("{" + s)[1..] == s;
    BraceDepth.RunShift(BraceDepth.START, 1, s);
  }

  lemma {:induction false} BracesLen(n: int)
    ensures |Braces(n)| == if n > 0 then n else 0
  {
    if n > 0 {
      BracesLen(n - 1);
    }
  }

  // One brace is added exactly when one is missing.
  lemma CompletedByOneIff(s: string)
    ensures Completed(s, false) == s + "}" <==> BraceDepth.Depth(s) == 1
  {
    hide BraceDepth.Depth;
    BracesLen(BraceDepth.Depth(s));
    assert Braces(1) == "}";
  }

  /** The arguments of a finished call are exactly the members in braces if and only if the values of the members, all
      together, leave no brace open and close none too many. */
  lemma {:induction false} CallTextIff(s: State, open: Node, before: seq<Node>, name: Node, after: seq<Node>,
                                       close: Node, args: seq<Arg>)
    requires Wf(s) && IsCall(open, before, name, after, close, args)
    ensures var calls := Run(s, CallEvents(open, before, name, after, close)).calls;
      && |calls| == |s.calls| + 1
      && (calls[|s.calls|].arguments == "{" + ArgsText(args) + "}" <==> BraceDepth.Depth(ArgsText(args)) == 0)
  {
    hide Run, IsCall, ArgsText, Completed, BraceDepth.Depth;
    CallArguments(s, open, before, name, after, close, args);
    OpenBrace(ArgsText(args));
    CompletedByOneIff("{" + ArgsText(args));
  }

  /** For every list of arguments whose other values are balanced, literals or not, and every position of the name, the
      arguments are exactly the opening brace, the comma-joined members and one closing brace. */
  lemma {:induction false} CallText(s: State, open: Node, before: seq<Node>, name: Node, after: seq<Node>,
                                    close: Node, args: seq<Arg>)
    requires Wf(s) && IsCall(open, before, name, after, close, args)
    requires forall i :: 0 <= i < |args| ==> Neutral(args[i])
    ensures var calls := Run(s, CallEvents(open, before, name, after, close)).calls;
      |calls| == |s.calls| + 1 && calls[|s.calls|].arguments == "{" + ArgsText(args) + "}"
  {
    hide Run, IsCall, ArgsText, Neutral;
    CallTextIff(s, open, before, name, after, close, args);
    ArgsBalanced(args);
  }

  /** End to end: the arguments of a finished call read, as JSON, as the object whose members are the arguments:
      string values literally, other values as the Python text denotes them. */
  lemma {:induction false} CallArgumentsAreJson(s: State, open: Node, before: seq<Node>, name: Node, after: seq<Node>,
                                                close: Node, args: seq<Arg>)
    requires Wf(s) && IsCall(open, before, name, after, close, args)
    requires forall i :: 0 <= i < |args| ==> Readable(args[i])
    ensures var calls := Run(s, CallEvents(open, before, name, after, close)).calls;
      && |calls| == |s.calls| + 1
      && calls[|s.calls|].arguments == "{" + ArgsText(args) + "}"
      && Read(JsonText, calls[|s.calls|].arguments) == Some(Object(Members(args)))
  {
    hide Run, Lex, ParseValue, Member, ArgsText, IsCall, BraceDepth.Balanced, PythonLiterals.Normalized;
    forall i | 0 <= i < |args| ensures Neutral(args[i]) {
      if args[i].ValueArg? {
        assert Readable(args[i]);
        PythonLiterals.NormalizePreservesMeaning(args[i].text);
      }
    }
    CallText(s, open, before, name, after, close, args);
    ReadArgs(args);
  }

  // ---------- a value that leaves a brace open ----------

  lemma JustBrace()
    ensures PythonLiterals.Normalized("{") == "{" && BraceDepth.Depth("{") == 1
  {
    assert "{"[1..] == "";
  }

  lemma DepthBehind(x: string, y: string)
    requires BraceDepth.Balanced(x)
    ensures BraceDepth.Depth(x + y) == BraceDepth.Depth(y)
  {
    BraceDepth.RunConcat(BraceDepth.START, x, y);
  }

  lemma OpenValue(a: Arg)
    requires a.ValueArg? && a.text == "{"
    ensures BraceDepth.Depth(ArgsText([a])) == 1
  {
    hide BraceDepth.Balanced, BraceDepth.Depth, Quote, Trim, PythonLiterals.Normalized;
    var key := Quote(Trim(a.name));
    JustBrace();
    Separators();
    QuoteBalanced(Trim(a.name));
    BalancedConcat(key, ":");
    DepthBehind(key + ":", "{");
    assert [a][1..] == [] && MoreArgs([]) == "";
    assert ArgsText([a]) == ArgText(a) + "" == key + ":" + "{";
  }

  lemma OneArg(a: Arg)
    requires a.ValueArg?
    ensures ArgumentsOf([]) + ArgumentsOf(ArgEvents(a)) == Script([a]) && Pieced([a])
  {
    var es := ArgEvents(a);
    assert es == [Node(ArgOpen, ""), Node(ArgName, a.name), Node(ArgValue, a.text), Node(ArgClose, "")];
    assert es[1..][1..][1..][1..] == [] && [a][1..] == [];
    assert ArgumentsOf(es[1..][1..][1..]) == [es[3]];
    assert ArgumentsOf(es[1..][1..]) == [es[2], es[3]];
    assert ArgumentsOf(es[1..]) == [es[1], es[2], es[3]];
    assert ArgumentsOf(es) == es;
  }

  const OPEN := Node(ToolOpen, "")
  const CLOSE := Node(ToolClose, "")

  // A call that is named first and has one argument.
  lemma SimpleCall(name: Node, a: Arg)
    requires name.tag == ToolName && TrimTrailing(name.text) != "" && a.ValueArg?
    ensures IsCall(OPEN, [], name, ArgEvents(a), CLOSE, [a])
  {
    OneArg(a);
    hide ArgumentsOf, Script, TrimTrailing;
  }

  // From the start, a call of any name with the raw value { for one argument: the braces of the call close the value.
  lemma OpenBraceFails(name: Node, a: Arg)
    requires name.tag == ToolName && TrimTrailing(name.text) != "" && a.ValueArg? && a.text == "{"
    ensures IsCall(OPEN, [], name, ArgEvents(a), CLOSE, [a])
    ensures var calls := Run(START, CallEvents(OPEN, [], name, ArgEvents(a), CLOSE)).calls;
      |calls| == 1 && calls[0].arguments != "{" + ArgsText([a]) + "}"
  {
    hide Run, ArgsText, ArgEvents, CallEvents, BraceDepth.Depth, TrimTrailing, IsCall;
    SimpleCall(name, a);
    OpenValue(a);
    CallTextIff(START, OPEN, [], name, ArgEvents(a), CLOSE, [a]);
  }

  // In particular the call f of the argument a.
  lemma OpenBraceExample()
    ensures var a := ValueArg("a", "{");
      var calls := Run(START, CallEvents(OPEN, [], Node(ToolName, "f"), ArgEvents(a), CLOSE)).calls;
      |calls| == 1 && calls[0].arguments != "{" + ArgsText([a]) + "}"
  {
    assert TrimTrailing("f") == "f";
    hide *;
    OpenBraceFails(Node(ToolName, "f"), ValueArg("a", "{"));
  }
}
