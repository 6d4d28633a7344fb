/** Streaming a whole reply: every parse sees more of the text than the one before, and the deltas between the
    resulting messages add up to the final message. For every event and every cut of an event, the exact condition
    under which the message only grows, and under which the next delta computation throws. */
module Streaming {
  import opened Text
  import opened ToolMapper
  import opened MessageDiff
  import opened MessageStream
  import Json
  import JsonFacts
  import BraceDepth
  import PythonLiterals
  import LiteralStreaming

  // ---------- what every run keeps ----------

  // A pending call has no name, and nothing is buffered once the current call has its name.
  predicate Inv(s: State) {
    && Wf(s)
    && (s.pending.Some? ==> s.pending.value.name == "")
    && (s.current == AtLastCall && Tool(s).name != "" ==> s.buffer == "")
  }

  lemma {:induction false} StepKeepsInv(s: State, n: Node)
    requires Inv(s)
    ensures Inv(Step(s, n))
  {
    hide TrimTrailing, IdText, ValueText, Completed, Json.Quote, Trim, StartsObject;
  }

  lemma {:induction false} RunKeepsInv(s: State, ns: seq<Node>)
    requires Inv(s)
    ensures Inv(Run(s, ns))
    decreases ns
  {
    hide Step;
    if ns != [] {
      StepKeepsInv(s, ns[0]);
      RunKeepsInv(Step(s, ns[0]), ns[1..]);
    }
  }

  // ---------- when one event only adds to the message ----------

  // What is shown of a call is its entry in the result. Only these events may take something of it back: an id, a
  // further name, an object that replaces the arguments, and the closing of a call whose name is still blank.
  predicate Safe(s: State, n: Node)
    requires Wf(s)
  {
    s.current == AtLastCall ==>
      var t := Tool(s);
      match n.tag
      case ToolId => IdText(n.text) != "" || t.id == ""
      case ToolName => t.name <= TrimTrailing(n.text) && (s.buffer == "" || t.arguments <= s.buffer)
      case ToolArgs => t.name != "" && StartsObject(n.text) ==> t.arguments <= TrimTrailing(n.text)
      case ToolClose => t.name == "" && s.buffer != "" ==> t.arguments <= Completed(s.buffer, s.closing)
      case _ => true
  }

  // Whether the delta can be computed. The change of an id is reported, even if it is blanked, and so is a blank name.
  predicate Comparable(s: State, n: Node)
    requires Wf(s)
  {
    s.current == AtLastCall ==>
      var t := Tool(s);
      match n.tag
      case ToolId => true
      case ToolName =>
        && (TrimTrailing(n.text) == "" || t.name <= TrimTrailing(n.text))
        && (s.buffer == "" || TextOk(t.arguments, s.buffer))
      case ToolArgs => t.name != "" && StartsObject(n.text) ==> TextOk(t.arguments, TrimTrailing(n.text))
      case ToolClose => t.name == "" && s.buffer != "" ==> TextOk(t.arguments, Completed(s.buffer, s.closing))
      case _ => true
  }

  lemma {:induction false} BlankGrows(a: string, b: string)
    requires a <= b
    ensures (if IsBlank(a) then "" else a) <= (if IsBlank(b) then "" else b)
  {
    if !IsBlank(a) {
      var i :| 0 <= i < |a| && !(a[i] == ' ' || a[i] == '\n' || a[i] == '\r' || a[i] == '\t');
      assert b[i] == a[i];
    }
  }

  // The same calls, or one more.
  lemma {:induction false} MoreShown(s: State, r: State)
    requires Inv(s) && Inv(r) && s.reasoning <= r.reasoning && s.content <= r.content
    requires s.calls == r.calls || (|r.calls| == |s.calls| + 1 && r.calls[..|s.calls|] == s.calls)
    ensures Extends(Snapshot(s), Snapshot(r)) && Computable(Snapshot(s), Snapshot(r))
  {
    hide Computable, Computed, Replay;
    assert Flushed(s) == s.calls && Flushed(r) == r.calls;
    BlankGrows(s.reasoning, r.reasoning);
    if s.calls != [] {
      var i := |s.calls| - 1;
      assert r.calls[..i] == r.calls[..|s.calls|][..i] && r.calls[i] == r.calls[..|s.calls|][i];
    }
    DiffsRebuildIff(Snapshot(s), Snapshot(r));
  }

  // As many calls, of which only the last may differ.
  lemma {:induction false} LastShown(s: State, r: State)
    requires Inv(s) && Inv(r) && s.reasoning == r.reasoning && s.content == r.content
    requires |s.calls| == |r.calls| > 0 && s.calls[..|s.calls| - 1] == r.calls[..|s.calls| - 1]
    ensures var t, u := s.calls[|s.calls| - 1], r.calls[|r.calls| - 1];
      && (Extends(Snapshot(s), Snapshot(r)) <==> CallGrew(t, u))
      && (Computable(Snapshot(s), Snapshot(r)) <==> !NameMismatch(t, u) && TextOk(t.arguments, u.arguments))
  {
    hide NameMismatch, CallGrew;
    assert Flushed(s) == s.calls && Flushed(r) == r.calls;
  }

  // At the last call of the result an event rewrites that call, or nothing.
  lemma {:induction false} LastRewritten(s: State, n: Node)
    requires Inv(s) && s.current == AtLastCall && n.tag != ToolOpen && n.tag != Reasoning && n.tag != Content
    ensures var r := Step(s, n);
      && r.current == AtLastCall && r.calls == s.calls[|s.calls| - 1 := Tool(r)]
      && r.reasoning == s.reasoning && r.content == s.content
  {
    hide TrimTrailing, IdText, ValueText, Completed, Json.Quote, Trim, StartsObject;
  }

  predicate IsAppending(tag: Tag) {
    tag == ArgName || tag == ArgValue || tag == ArgStringValue || tag == ArgClose
  }

  // What such an event writes behind the arguments.
  function Added(s: State, n: Node): string
    requires Wf(s) && s.current != Nowhere
  {
    match n.tag
    case ArgName => (if Target(s) == "" then "{" else "") + (if s.argCount > 0 then "," else "") + Key(n.text)
    case ArgClose => if s.closing then "\"" else ""
    case _ => ValueText(n.tag, n.text, s.closing)
  }

  function Key(text: string): string {
    Json.Quote(Trim(text)) + ":"
  }

  lemma {:induction false} Appends(s: State, n: Node)
    requires Inv(s) && s.current == AtLastCall && IsAppending(n.tag)
    ensures var t := Tool(s);
      Tool(Step(s, n)) == if t.name != "" then t.(arguments := t.arguments + Added(s, n)) else t
  {
    hide ValueText, Json.Quote, Trim;
    var t := Tool(s);
    if n.tag == ArgName {
      AppendsKey(s, n);
    } else {
      assert t.arguments + "" == t.arguments;
    }
  }

  lemma AppendsKey(s: State, n: Node)
    requires Inv(s) && s.current == AtLastCall && n.tag == ArgName
    ensures var t := Tool(s);
      Tool(Step(s, n)) == if t.name != "" then t.(arguments := t.arguments + Added(s, n)) else t
  {
    hide ValueText, Json.Quote, Trim;
    var entry := (if s.argCount > 0 then "," else "") + Json.Quote(Trim(n.text)) + ":";
    var target := if Target(s) == "" then "{" else Target(s);
    var comma, key := if s.argCount > 0 then "," else "", Key(n.text);
    KeyEntry(Target(s), comma, Json.Quote(Trim(n.text)));
    assert target + entry == Target(s) + Added(s, n);
  }

  lemma KeyEntry(target: string, comma: string, quoted: string)
    ensures (if target == "" then "{" else target) + (comma + quoted + ":")
            == target + ((if target == "" then "{" else "") + comma + (quoted + ":"))
  {
  }

  lemma CompletedGrows(args: string, closing: bool)
    ensures args <= Completed(args, closing)
  {
    hide Braces, BraceDepth.Depth;
  }

  lemma {:induction false} NameIff(s: State, n: Node)
    requires Inv(s) && s.current == AtLastCall && n.tag == ToolName
    ensures var t, u := Tool(s), Tool(Step(s, n));
      && (CallGrew(t, u) <==> Safe(s, n))
      && (!NameMismatch(t, u) && TextOk(t.arguments, u.arguments) <==> Comparable(s, n))
  {
    hide TrimTrailing;
  }

  lemma {:induction false} CloseIff(s: State, n: Node)
    requires Inv(s) && s.current == AtLastCall && n.tag == ToolClose
    ensures var t, u := Tool(s), Tool(Step(s, n));
      && (CallGrew(t, u) <==> Safe(s, n))
      && (!NameMismatch(t, u) && TextOk(t.arguments, u.arguments) <==> Comparable(s, n))
  {
    CompletedGrows(Tool(s).arguments, s.closing);
    hide Completed;
  }

  lemma {:induction false} AppendIff(s: State, n: Node)
    requires Inv(s) && s.current == AtLastCall && IsAppending(n.tag)
    ensures var t, u := Tool(s), Tool(Step(s, n));
      CallGrew(t, u) && !NameMismatch(t, u) && TextOk(t.arguments, u.arguments)
  {
    Appends(s, n);
    hide Step, Added;
  }

  lemma {:induction false} RewriteIff(s: State, n: Node)
    requires Inv(s) && s.current == AtLastCall && n.tag != ToolOpen && n.tag != Reasoning && n.tag != Content
    ensures var t, u := Tool(s), Tool(Step(s, n));
      && (CallGrew(t, u) <==> Safe(s, n))
      && (!NameMismatch(t, u) && TextOk(t.arguments, u.arguments) <==> Comparable(s, n))
  {
    hide TrimTrailing, IdText, StartsObject, Completed, ValueText, Json.Quote, Trim;
    if n.tag == ToolName {
      NameIff(s, n);
    } else if n.tag == ToolClose {
      CloseIff(s, n);
    } else if IsAppending(n.tag) {
      AppendIff(s, n);
    }
  }

  // Everywhere else an event only adds.
  lemma {:induction false} OthersAdd(s: State, n: Node)
    requires Inv(s)
    requires s.current == AtLastCall ==> n.tag == ToolOpen || n.tag == Reasoning || n.tag == Content
    ensures var r := Step(s, n);
      && s.reasoning <= r.reasoning && s.content <= r.content
      && (s.calls == r.calls || (|r.calls| == |s.calls| + 1 && r.calls[..|s.calls|] == s.calls))
  {
    hide TrimTrailing, IdText, ValueText, Completed, Json.Quote, Trim, StartsObject;
  }

  /** For every event in every state that a run reaches: the new message extends the old one exactly when the event is
      safe, and the delta can be computed exactly when it is comparable. */
  lemma {:induction false} StepIff(s: State, n: Node)
    requires Inv(s)
    ensures Inv(Step(s, n))
    ensures Extends(Snapshot(s), Snapshot(Step(s, n))) <==> Safe(s, n)
    ensures Computable(Snapshot(s), Snapshot(Step(s, n))) <==> Comparable(s, n)
  {
    StepKeepsInv(s, n);
    if s.current == AtLastCall && n.tag != ToolOpen && n.tag != Reasoning && n.tag != Content {
      LastRewritten(s, n);
      RewriteIff(s, n);
      hide Step, Snapshot, Extends, Computable, Safe, Comparable, CallGrew, NameMismatch, TextOk;
      LastShown(s, Step(s, n));
    } else {
      OthersAdd(s, n);
      hide Step, Snapshot, Extends, Computable;
      MoreShown(s, Step(s, n));
    }
  }

  // ---------- when a cut event only adds to the message ----------

  // x is what a parse sees of y while the text is still growing.
  predicate Cut(x: Node, y: Node) {
    x.tag == y.tag && x.text <= y.text
  }

  predicate SafeValue(x: string, y: string)
    requires x <= y
  {
    LiteralStreaming.SafeCut(LiteralStreaming.TailOf(PythonLiterals.Outside, false, x), y[|x|..])
  }

  // What a cut may take back of a call that is shown: an id, an object that is not seen to be one yet, a key, a value
  // inside a word or an escape, and a further node of an open string that is cut down to nothing.
  predicate SafeCut(s: State, x: Node, y: Node)
    requires Wf(s) && Cut(x, y)
  {
    s.current == AtLastCall ==>
      var t := Tool(s);
      match x.tag
      case ToolId => IdText(y.text) != "" || IdText(x.text) == ""
      case ToolArgs =>
        t.name != "" && !StartsObject(x.text) && StartsObject(y.text) ==> t.arguments <= TrimTrailing(y.text)
      case ArgName => t.name != "" ==> Trim(x.text) == Trim(y.text)
      case ArgValue => t.name != "" ==> SafeValue(x.text, y.text)
      case ArgStringValue => t.name != "" ==> !(s.closing && x.text == "" && y.text != "")
      case _ => true
  }

  // Whether the delta can be computed: only ids, and objects that cut the text shown short, make a difference.
  predicate ComparableCut(s: State, x: Node, y: Node)
    requires Wf(s) && Cut(x, y)
  {
    if s.current == AtLastCall && x.tag == ToolId then true
    else if s.current == AtLastCall && x.tag == ToolArgs then
      Tool(s).name != "" && !StartsObject(x.text) && StartsObject(y.text) ==>
        TextOk(Tool(s).arguments, TrimTrailing(y.text))
    else SafeCut(s, x, y)
  }

  /** A string value only ever grows, unless a further node of an already open string is cut down to nothing:
      the empty node still writes a quote. */
  lemma {:induction false} StringValueGrowsIff(x: string, y: string, closing: bool)
    requires x <= y
    ensures ValueText(ArgStringValue, x, closing) <= ValueText(ArgStringValue, y, closing)
            <==> !(x == "" && y != "" && closing)
    ensures TextOk(ValueText(ArgStringValue, x, closing), ValueText(ArgStringValue, y, closing))
            <==> !(x == "" && y != "" && closing)
  {
    var rest := y[|x|..];
    assert y == x + rest;
    JsonFacts.EscapeConcat(x, rest);
    assert Json.Escape("") == "";
    if x == "" && y != "" {
      assert Json.Escape(y)[0] == Json.EscapeChar(y[0])[0] != '"';
    }
  }

  lemma {:induction false} ValueGrowsIff(x: string, y: string)
    requires x <= y
    ensures ValueText(ArgValue, x, false) <= ValueText(ArgValue, y, false) <==> SafeValue(x, y)
    ensures TextOk(ValueText(ArgValue, x, false), ValueText(ArgValue, y, false)) <==> SafeValue(x, y)
  {
    hide LiteralStreaming.SafeCut, PythonLiterals.Rewrite;
    assert y == x + y[|x|..];
    LiteralStreaming.NormalizeMonotoneIff(x, y[|x|..]);
    NothingToRewrite();
  }

  lemma NothingToRewrite()
    ensures PythonLiterals.Normalized("") == ""
  {
  }

  // A key is written with its closing quote, so it is never the beginning of another one.
  lemma {:induction false} KeyIff(a: string, b: string)
    ensures TextOk(Key(a), Key(b)) <==> Trim(a) == Trim(b)
  {
    hide Trim, Json.Escape, Json.ReadString;
    var p, q := Key(a), Key(b);
    KeyReads(a, "");
    KeyReads(b, "");
    if p <= q {
      KeyReads(a, q[|p|..]);
      assert p + q[|p|..] == q == q + "";
    } else if q <= p {
      KeyReads(b, p[|q|..]);
      assert q + p[|q|..] == p == p + "";
    }
  }

  lemma KeyReads(a: string, rest: string)
    ensures Key(a) + rest != ""
    ensures Json.ReadString(Json.JsonText, '"', (Key(a) + rest)[1..]) == Some((Trim(a), ":" + rest))
  {
    hide Trim, Json.ReadString;
    Json.ReadEscaped(Trim(a), ":" + rest);
    assert (Key(a) + rest)[1..] == Json.Escape(Trim(a)) + "\"" + (":" + rest);
  }

  lemma {:induction false} PrefixTextOk(a: string, x: string, y: string)
    ensures a + x <= a + y <==> x <= y
    ensures TextOk(a + x, a + y) <==> TextOk(x, y)
  {
    LiteralStreaming.PrefixTail(a, x, y);
    LiteralStreaming.PrefixTail(a, y, x);
  }

  lemma {:induction false} AddedIff(s: State, x: Node, y: Node)
    requires Wf(s) && s.current == AtLastCall && Tool(s).name != "" && Cut(x, y) && IsAppending(x.tag)
    ensures Added(s, x) <= Added(s, y) <==> SafeCut(s, x, y)
    ensures TextOk(Added(s, x), Added(s, y)) <==> SafeCut(s, x, y)
  {
    hide ValueText, SafeValue, Trim, Key;
    if x.tag == ArgName {
      var front := (if Target(s) == "" then "{" else "") + (if s.argCount > 0 then "," else "");
      KeyIff(x.text, y.text);
      PrefixTextOk(front, Key(x.text), Key(y.text));
      KeyAlike(x.text, y.text);
    } else if x.tag == ArgValue {
      ValueGrowsIff(x.text, y.text);
      ValueIgnoresQuote(x.text, s.closing);
      ValueIgnoresQuote(y.text, s.closing);
    } else if x.tag == ArgStringValue {
      StringValueGrowsIff(x.text, y.text, s.closing);
    }
  }

  lemma KeyAlike(a: string, b: string)
    ensures Trim(a) == Trim(b) ==> Key(a) == Key(b)
  {
    hide Trim;
  }

  lemma ValueIgnoresQuote(x: string, closing: bool)
    ensures ValueText(ArgValue, x, closing) == ValueText(ArgValue, x, false)
  {
  }

  // At the last call of the result.
  lemma {:induction false} AppendCutIff(s: State, x: Node, y: Node)
    requires Inv(s) && s.current == AtLastCall && Cut(x, y) && IsAppending(x.tag)
    ensures var t, u := Tool(Step(s, x)), Tool(Step(s, y));
      && (CallGrew(t, u) <==> SafeCut(s, x, y))
      && (!NameMismatch(t, u) && TextOk(t.arguments, u.arguments) <==> SafeCut(s, x, y))
  {
    Appends(s, x);
    Appends(s, y);
    if Tool(s).name != "" {
      AddedIff(s, x, y);
      hide Step, Added, SafeCut;
      PrefixTextOk(Tool(s).arguments, Added(s, x), Added(s, y));
    }
  }

  lemma {:induction false} ObjectCutIff(s: State, x: Node, y: Node)
    requires Inv(s) && s.current == AtLastCall && Cut(x, y) && x.tag == ToolArgs
    ensures var t, u := Tool(Step(s, x)), Tool(Step(s, y));
      && (CallGrew(t, u) <==> SafeCut(s, x, y))
      && (!NameMismatch(t, u) && TextOk(t.arguments, u.arguments) <==> ComparableCut(s, x, y))
  {
    TrimTrailingMonotone(x.text, y.text);
    assert StartsObject(x.text) ==> StartsObject(y.text);
    hide TrimTrailing, StartsObject;
  }

  lemma {:induction false} LastCutIff(s: State, x: Node, y: Node)
    requires Inv(s) && s.current == AtLastCall && Cut(x, y)
    requires x.tag != ToolOpen && x.tag != Reasoning && x.tag != Content
    ensures var t, u := Tool(Step(s, x)), Tool(Step(s, y));
      && (CallGrew(t, u) <==> SafeCut(s, x, y))
      && (!NameMismatch(t, u) && TextOk(t.arguments, u.arguments) <==> ComparableCut(s, x, y))
  {
    hide TrimTrailing, IdText, StartsObject, Completed, ValueText, SafeValue, Trim, Added;
    if IsAppending(x.tag) {
      AppendCutIff(s, x, y);
    } else if x.tag == ToolArgs {
      ObjectCutIff(s, x, y);
    } else if x.tag == ToolName {
      TrimTrailingMonotone(x.text, y.text);
    }
  }

  // A name for a pending call: the call is shown with what there is of the name.
  lemma {:induction false} PendingNamed(s: State, x: Node, y: Node)
    requires Inv(s) && s.current == AtPending && Cut(x, y) && x.tag == ToolName
    ensures Extends(Snapshot(Step(s, x)), Snapshot(Step(s, y)))
    ensures Computable(Snapshot(Step(s, x)), Snapshot(Step(s, y)))
  {
    hide TrimTrailing;
    TrimTrailingMonotone(x.text, y.text);
    StepKeepsInv(s, x);
    StepKeepsInv(s, y);
    var a, b := Step(s, x), Step(s, y);
    var k := |s.calls|;
    assert a.calls[..k] == s.calls == b.calls[..k] && CallGrew(a.calls[k], b.calls[k]);
    hide Step, Snapshot, Inv, Extends, Computable;
    LastShown(a, b);
  }

  // Elsewhere both parses show the same calls.
  lemma {:induction false} OthersAlike(s: State, x: Node, y: Node)
    requires Inv(s) && Cut(x, y)
    requires s.current == AtLastCall ==> x.tag == ToolOpen || x.tag == Reasoning || x.tag == Content
    requires s.current == AtPending ==> x.tag != ToolName
    ensures var a, b := Step(s, x), Step(s, y);
      a.reasoning <= b.reasoning && a.content <= b.content && a.calls == b.calls
  {
    hide TrimTrailing, IdText, ValueText, Completed, Json.Quote, Trim, StartsObject;
  }

  /** For every event and every cut of its text, in every state that a run reaches: the message of the whole event
      extends that of the cut one exactly when the cut is safe, and the delta between them can be computed exactly when
      it is comparable. */
  lemma {:induction false} CutIff(s: State, x: Node, y: Node)
    requires Inv(s) && Cut(x, y)
    ensures Extends(Snapshot(Step(s, x)), Snapshot(Step(s, y))) <==> SafeCut(s, x, y)
    ensures Computable(Snapshot(Step(s, x)), Snapshot(Step(s, y))) <==> ComparableCut(s, x, y)
  {
    StepKeepsInv(s, x);
    StepKeepsInv(s, y);
    if s.current == AtLastCall && x.tag != ToolOpen && x.tag != Reasoning && x.tag != Content {
      LastRewritten(s, x);
      LastRewritten(s, y);
      LastCutIff(s, x, y);
      hide Step, Snapshot, Extends, Computable, SafeCut, ComparableCut, CallGrew, NameMismatch, TextOk;
      LastShown(Step(s, x), Step(s, y));
    } else if s.current == AtPending && x.tag == ToolName {
      PendingNamed(s, x, y);
    } else {
      OthersAlike(s, x, y);
      hide Step, Snapshot, Extends, Computable;
      MoreShown(Step(s, x), Step(s, y));
    }
  }

  // ---------- runs that take nothing back ----------

  predicate SafeRun(s: State, ns: seq<Node>)
    requires Wf(s)
    decreases ns
  {
    ns == [] || (Safe(s, ns[0]) && SafeRun(Step(s, ns[0]), ns[1..]))
  }

  lemma {:induction false} RunGrows(s: State, ns: seq<Node>)
    requires Inv(s) && SafeRun(s, ns)
    ensures Extends(Snapshot(s), Snapshot(Run(s, ns)))
    decreases ns
  {
    hide Safe, Step, Snapshot, Extends, Comparable, Computable;
    if ns == [] {
      ExtendsRefl(Snapshot(s));
    } else {
      StepIff(s, ns[0]);
      var t := Step(s, ns[0]);
      RunGrows(t, ns[1..]);
      ExtendsTrans(Snapshot(s), Snapshot(t), Snapshot(Run(s, ns)));
    }
  }

  // Events without any effect: structure tags, and argument containers that are not one JSON object.
  predicate IsInert(n: Node) {
    n.tag.OtherTag? || (n.tag == ToolArgs && !StartsObject(n.text))
  }

  function Live(ns: seq<Node>): seq<Node> {
    if ns == [] then [] else (if IsInert(ns[0]) then [] else [ns[0]]) + Live(ns[1..])
  }

  lemma {:induction false} LiveRun(s: State, ns: seq<Node>)
    requires Wf(s)
    ensures Run(s, ns) == Run(s, Live(ns))
    decreases ns
  {
    hide Step, IsInert;
    if ns != [] {
      LiveRun(Step(s, ns[0]), ns[1..]);
      if IsInert(ns[0]) {
        InertStep(s, ns[0]);
        assert Live(ns) == Live(ns[1..]);
      } else {
        assert Live(ns) == [ns[0]] + Live(ns[1..]);
        assert Live(ns)[0] == ns[0] && Live(ns)[1..] == Live(ns[1..]);
      }
    }
  }

  lemma InertStep(s: State, n: Node)
    requires Wf(s) && IsInert(n)
    ensures Step(s, n) == s
  {
  }

  lemma {:induction false} SafeConcat(s: State, a: seq<Node>, b: seq<Node>)
    requires Wf(s)
    ensures SafeRun(s, a + b) <==> SafeRun(s, a) && SafeRun(Run(s, a), b)
    decreases a
  {
    hide Step, Safe;
    if a == [] {
      assert a + b == b;
    } else {
      assert (a + b)[1..] == a[1..] + b;
      SafeConcat(Step(s, a[0]), a[1..], b);
    }
  }

  lemma RunOne(s: State, n: Node)
    requires Wf(s)
    ensures Run(s, [n]) == Step(s, n)
    ensures SafeRun(s, [n]) <==> Safe(s, n)
  {
    hide Step, Safe;
    assert [n][1..] == [];
  }

  // ---------- a cut parse ----------

  // a is what an earlier parse saw of b: the same effective events, of which the last may have been cut.
  predicate CutRun(a: seq<Node>, b: seq<Node>) {
    CutLive(Live(a), Live(b))
  }

  predicate CutLive(x: seq<Node>, y: seq<Node>) {
    |x| <= |y| && (x == y[..|x|] || (x != [] && LastCut(x, y)))
  }

  predicate LastCut(x: seq<Node>, y: seq<Node>)
    requires x != [] && |x| <= |y|
  {
    var k := |x| - 1;
    x[..k] == y[..k] && Cut(x[k], y[k]) && SafeCut(Run(START, y[..k]), x[k], y[k])
  }

  lemma {:induction false} LiveGrows(x: seq<Node>, y: seq<Node>)
    requires CutLive(x, y) && SafeRun(START, y)
    ensures Extends(Snapshot(Run(START, x)), Snapshot(Run(START, y)))
  {
    hide Step, Safe, Snapshot, Extends, Cut, SafeCut, Computable, ComparableCut;
    if x == y[..|x|] {
      assert y == x + y[|x|..];
      RunConcat(START, x, y[|x|..]);
      SafeConcat(START, x, y[|x|..]);
      RunKeepsInv(START, x);
      RunGrows(Run(START, x), y[|x|..]);
    } else {
      var k := |x| - 1;
      var s := Run(START, y[..k]);
      var t := Step(s, y[k]);
      assert x == x[..k] + [x[k]] && y == y[..k] + [y[k]] + y[k + 1..];
      RunConcat(START, x[..k], [x[k]]);
      RunConcat(START, y[..k] + [y[k]], y[k + 1..]);
      RunConcat(START, y[..k], [y[k]]);
      SafeConcat(START, y[..k] + [y[k]], y[k + 1..]);
      RunOne(s, x[k]);
      RunOne(s, y[k]);
      RunKeepsInv(START, y[..k]);
      StepKeepsInv(s, y[k]);
      CutIff(s, x[k], y[k]);
      RunGrows(t, y[k + 1..]);
      ExtendsTrans(Snapshot(Step(s, x[k])), Snapshot(t), Snapshot(Run(START, y)));
    }
  }

  /** The message of a later parse extends the message of an earlier one. */
  lemma {:induction false} ParsedGrows(a: seq<Node>, b: seq<Node>)
    requires CutRun(a, b) && SafeRun(START, Live(b))
    ensures Extends(Parsed(a), Parsed(b))
  {
    hide Run, SafeRun, Snapshot, Extends, Live, CutLive;
    LiveRun(START, a);
    LiveRun(START, b);
    LiveGrows(Live(a), Live(b));
  }

  // ---------- a whole reply ----------

  predicate IsStream(runs: seq<seq<Node>>) {
    && (forall i :: 0 <= i < |runs| ==> SafeRun(START, Live(runs[i])))
    && (forall i :: 0 < i < |runs| ==> CutRun(runs[i - 1], runs[i]))
  }

  function Messages(runs: seq<seq<Node>>): (r: seq<Message>)
    ensures |r| == |runs| && forall i :: 0 <= i < |r| ==> r[i] == Parsed(runs[i])
  {
    seq(|runs|, i requires 0 <= i < |runs| => Parsed(runs[i]))
  }

  lemma ParsedIs(ns: seq<Node>)
    ensures Parsed(ns) == Snapshot(Run(START, ns))
  {
  }

  lemma {:induction false} StreamGrows(runs: seq<seq<Node>>)
    requires IsStream(runs)
    ensures Growing(Messages(runs)) && AlwaysRebuilt(Messages(runs)) && Rebuilt(Messages(runs))
  {
    var ms := Messages(runs);
    forall i | 0 <= i < |ms| ensures Extends(Last(ms[..i]), ms[i]) {
      if i > 0 {
        assert ms[..i][i - 1] == Parsed(runs[i - 1]);
        hide Live, SafeRun, CutRun, Parsed, Extends;
        ParsedGrows(runs[i - 1], runs[i]);
      }
    }
    hide Parsed, Extends, Rebuilt;
    RebuiltIff(ms);
    assert ms[..|ms|] == ms;
  }

  /** Feeds the parses of a reply through a fresh mapper each and collects the deltas. For every stream nothing throws,
      and at every point the client that merges the deltas has exactly the current message. */
  method StreamReply(runs: seq<seq<Node>>) returns (r: Diffs)
    ensures r == Streamed(EMPTY, Messages(runs))
    ensures IsStream(runs) ==> AlwaysRebuilt(Messages(runs)) && r.Ok? && Replay(EMPTY, r.value) == Last(Messages(runs))
  {
    hide Computable, Computed, Reason, Replay, IsStream, AlwaysRebuilt, Last, Parsed;
    var prev := EMPTY;
    var diffs: seq<Diff> := [];
    ghost var ms := Messages(runs);
    BehindNothing(Streamed(EMPTY, ms));
    assert ms[0..] == ms;
    if IsStream(runs) {
      StreamGrows(runs);
    }
    for i := 0 to |runs|
      invariant Behind(diffs, Streamed(prev, ms[i..])) == Streamed(EMPTY, ms)
    {
      var mapper := new Mapper();
      mapper.FromAst(runs[i]);
      var next := Message(mapper.reasoning, mapper.content, mapper.calls);
      ParsedIs(runs[i]);
      assert ms[i..][0] == next && ms[i..][1..] == ms[i + 1..];
      if next != EMPTY {
        var ds := ComputeDiffs(prev, next);
        if ds.Err? {
          return ds;
        }
        BehindBoth(diffs, ds.value, Streamed(next, ms[i + 1..]));
        diffs := diffs + ds.value;
        prev := next;
      }
    }
    assert ms[|runs|..] == [];
    assert diffs + [] == diffs;
    return Ok(diffs);
  }
}
