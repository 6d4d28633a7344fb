/** What takes text back in the middle of a reply: each case with its exact condition, and a run from the start for
    which the deltas fail. */
module StreamingFailures {
  import opened Text
  import opened ToolMapper
  import opened MessageDiff
  import opened Streaming
  import Json
  import PythonLiterals
  import LiteralStreaming

  // ---------- the conditions, case by case ----------

  // The arguments of the current call are shown to the client.
  predicate Shown(s: State)
    requires Wf(s)
  {
    s.current == AtLastCall && Tool(s).name != ""
  }

  /** A JSON object that replaces argument text already shown: the next delta computation throws exactly when
      neither text is a prefix of the other. */
  lemma OverwriteIff(s: State, text: string)
    requires Inv(s) && Shown(s) && StartsObject(text)
    ensures var r := Step(s, Node(ToolArgs, text));
      && (Computable(Snapshot(s), Snapshot(r)) <==> TextOk(Target(s), TrimTrailing(text)))
      && (Extends(Snapshot(s), Snapshot(r)) <==> Target(s) <= TrimTrailing(text))
  {
    hide TrimTrailing, StartsObject, TextOk, Computable, Extends, Snapshot, Step;
    StepIff(s, Node(ToolArgs, text));
  }

  /** Naming a call again is reported as a mismatch exactly when the new name is not blank and does not extend the old
      one; a blank name is not reported, and the client keeps the old one. */
  lemma RenameIff(s: State, text: string)
    requires Inv(s) && Shown(s)
    ensures var r := Step(s, Node(ToolName, text));
      && (Computable(Snapshot(s), Snapshot(r)) <==> Tool(s).name <= TrimTrailing(text) || TrimTrailing(text) == "")
      && (Extends(Snapshot(s), Snapshot(r)) <==> Tool(s).name <= TrimTrailing(text))
  {
    hide TrimTrailing, Computable, Extends, Snapshot, Step;
    StepIff(s, Node(ToolName, text));
  }

  /** A second id never makes the delta computation throw, but if it is blank the client keeps the first one. */
  lemma BlankIdIff(s: State, text: string)
    requires Inv(s) && s.current == AtLastCall
    ensures var r := Step(s, Node(ToolId, text));
      && Computable(Snapshot(s), Snapshot(r))
      && (Extends(Snapshot(s), Snapshot(r)) <==> IdText(text) != "" || Tool(s).id == "")
  {
    hide IdText, Computable, Extends, Snapshot, Step;
    StepIff(s, Node(ToolId, text));
  }

  /** A cut string value is taken back exactly when it is a further node of an open string and nothing is seen of it. */
  lemma CutStringIff(s: State, x: string, y: string)
    requires Inv(s) && x <= y
    ensures var a, b := Step(s, Node(ArgStringValue, x)), Step(s, Node(ArgStringValue, y));
      var reopens := Shown(s) && s.closing && x == "" && y != "";
      && (Extends(Snapshot(a), Snapshot(b)) <==> !reopens)
      && (Computable(Snapshot(a), Snapshot(b)) <==> !reopens)
  {
    hide Computable, Extends, Snapshot, Step;
    CutIff(s, Node(ArgStringValue, x), Node(ArgStringValue, y));
  }

  /** A cut value that is no string is taken back exactly when it is cut before an escaped single quote, or in a word
      that looks like a literal and is none. Then the next delta computation throws. */
  lemma CutValueIff(s: State, x: string, y: string)
    requires Inv(s) && x <= y
    ensures var a, b := Step(s, Node(ArgValue, x)), Step(s, Node(ArgValue, y));
      && (Extends(Snapshot(a), Snapshot(b)) <==> !(Shown(s) && !SafeValue(x, y)))
      && (Computable(Snapshot(a), Snapshot(b)) <==> !(Shown(s) && !SafeValue(x, y)))
  {
    hide Computable, Extends, Snapshot, Step, SafeValue;
    CutIff(s, Node(ArgValue, x), Node(ArgValue, y));
  }

  // ---------- runs from the start ----------

  // A call that was opened and named.
  function Named(name: string): seq<Node> {
    [Node(ToolOpen, ""), Node(ToolName, name)]
  }

  lemma NamedState(name: string)
    requires name != "" && TrimTrailing(name) == name
    ensures var s := Run(START, Named(name));
      && Inv(s) && Shown(s) && !s.closing && s.argCount == 0 && s.calls == [ToolCall(name, "{", "")]
      && Parsed(Named(name)) == Message("", "", s.calls)
  {
    var open, call := Node(ToolOpen, ""), Node(ToolName, name);
    assert Named(name) == [open] + [call];
    RunConcat(START, [open], [call]);
    RunOne(START, open);
    RunOne(Step(START, open), call);
    hide Run, TrimTrailing;
  }

  lemma RunMore(ns: seq<Node>, n: Node)
    ensures Run(START, ns + [n]) == Step(Run(START, ns), n)
    ensures Parsed(ns + [n]) == Snapshot(Step(Run(START, ns), n)) && Parsed(ns) == Snapshot(Run(START, ns))
    ensures Inv(Run(START, ns))
  {
    hide Step, Snapshot;
    RunConcat(START, ns, [n]);
    RunOne(Run(START, ns), n);
    RunKeepsInv(START, ns);
  }

  lemma OneCharacter(c: string)
    requires |c| == 1 && !IsSpace(c[0])
    ensures TrimTrailing(c) == c && IdText(c) == c
    ensures TrimTrailing("{" + c) == "{" + c && StartsObject("{" + c)
  {
  }

  // An object is shown as the arguments of a call, and another one replaces it.
  lemma OverwriteShown(name: string, first: Node, second: Node)
    requires name != "" && TrimTrailing(name) == name && first.tag == second.tag == ToolArgs
    requires StartsObject(first.text) && StartsObject(second.text)
    ensures var shown := Named(name) + [first];
      Computable(Parsed(shown), Parsed(shown + [second])) <==>
        TextOk(TrimTrailing(first.text), TrimTrailing(second.text))
  {
    var shown := Named(name) + [first];
    NamedState(name);
    hide Run, Named, TrimTrailing, StartsObject, Computable, Parsed, Snapshot, TextOk;
    RunMore(Named(name), first);
    RunMore(shown, second);
    ObjectShown(Run(START, Named(name)), first);
    OverwriteIff(Run(START, shown), second.text);
  }

  lemma ObjectShown(s: State, n: Node)
    requires Inv(s) && Shown(s) && n.tag == ToolArgs && StartsObject(n.text)
    ensures Shown(Step(s, n)) && Target(Step(s, n)) == TrimTrailing(n.text)
  {
    hide TrimTrailing, StartsObject;
  }

  // The arguments {1 are replaced by {2.
  lemma OverwriteExample()
    ensures var shown := Named("f") + [Node(ToolArgs, "{1")];
      !Computable(Parsed(shown), Parsed(shown + [Node(ToolArgs, "{2")]))
  {
    var f, one, two := "f", "{" + "1", "{" + "2";
    OneCharacter("1");
    OneCharacter("2");
    OneCharacter(f);
    assert one == "{1" && two == "{2" && one[1] != two[1];
    hide TrimTrailing, StartsObject, Computable, Parsed, Named;
    OverwriteShown(f, Node(ToolArgs, one), Node(ToolArgs, two));
  }

  // The name ab is followed by the name c.
  lemma RenameExample()
    ensures !Computable(Parsed(Named("ab")), Parsed(Named("ab") + [Node(ToolName, "c")]))
  {
    NamedState("ab");
    RunMore(Named("ab"), Node(ToolName, "c"));
    assert TrimTrailing("c") == "c" && "ab"[0] != "c"[0];
    RenameIff(Run(START, Named("ab")), "c");
  }

  // A later parse sees the name a where an earlier one saw ab.
  lemma ShrinkExample()
    ensures !Computable(Parsed(Named("ab")), Parsed(Named("a")))
    ensures Reason(Parsed(Named("ab")), Parsed(Named("a"))) == ToolNameMismatch
  {
    NamedState("ab");
    NamedState("a");
    hide Parsed, Run, TrimTrailing;
    var p, n := Parsed(Named("ab")), Parsed(Named("a"));
    assert |p.calls| == |n.calls| == 1 && p.calls[0].name == "ab" && n.calls[0].name == "a";
    ShrunkNameFails(p, n);
  }

  // Without a name an object is kept in the buffer.
  lemma Buffered(s: State, n: Node)
    requires Wf(s) && s.current != Nowhere && Tool(s).name == "" && n.tag == ToolArgs && StartsObject(n.text)
    ensures Step(s, n) == s.(buffer := TrimTrailing(n.text))
  {
    hide TrimTrailing, StartsObject;
  }

  // A blank name moves the call to the result all the same.
  lemma BlankNamed(s: State, n: Node)
    requires Wf(s) && s.current == AtPending && s.buffer != "" && n.tag == ToolName && TrimTrailing(n.text) == ""
    ensures var r := Step(s, n);
      r.current == AtLastCall && r.buffer == "" && Tool(r) == ToolCall("", s.buffer, Tool(s).id)
  {
    hide TrimTrailing;
  }

  // Arguments that come before and behind a blank name.
  function Unnamed(first: string, second: string): seq<Node> {
    [Node(ToolOpen, "")] + [Node(ToolArgs, first)] + [Node(ToolName, "")] + [Node(ToolArgs, second)]
  }

  lemma UnnamedState(first: string, second: string)
    requires StartsObject(first) && StartsObject(second)
    ensures var s := Run(START, Unnamed(first, second));
      s.current == AtLastCall && Tool(s) == ToolCall("", TrimTrailing(first), "") && s.buffer == TrimTrailing(second)
  {
    var open, one, blank, two := Node(ToolOpen, ""), Node(ToolArgs, first), Node(ToolName, ""), Node(ToolArgs, second);
    var s := Step(START, open);
    RunOne(START, open);
    assert s.current == AtPending && Tool(s) == NO_CALL;
    assert TrimTrailing("") == "" && TrimTrailing(first) != "";
    hide Run, Step, TrimTrailing, StartsObject, Snapshot;
    RunMore([open], one);
    RunMore([open] + [one], blank);
    RunMore([open] + [one] + [blank], two);
    Buffered(s, one);
    BlankNamed(Step(s, one), blank);
    Buffered(Step(Step(s, one), blank), two);
  }

  // When the name comes, the delta can be computed exactly when one of the two objects is a prefix of the other.
  lemma UnnamedShown(first: string, second: string, name: string)
    requires StartsObject(first) && StartsObject(second) && TrimTrailing(name) != ""
    ensures Computable(Parsed(Unnamed(first, second)), Parsed(Unnamed(first, second) + [Node(ToolName, name)])) <==>
      TextOk(TrimTrailing(first), TrimTrailing(second))
  {
    assert TrimTrailing(second) != "";
    hide Run, Step, TrimTrailing, Parsed, Computable, Snapshot, StartsObject, Unnamed, TextOk;
    UnnamedState(first, second);
    RunMore(Unnamed(first, second), Node(ToolName, name));
    StepIff(Run(START, Unnamed(first, second)), Node(ToolName, name));
  }

  // The arguments {1 are shown without a name, and the name f comes with {2.
  lemma BlankNameExample()
    ensures !Computable(Parsed(Unnamed("{1", "{2")), Parsed(Unnamed("{1", "{2") + [Node(ToolName, "f")]))
  {
    var one, two, name := "{" + "1", "{" + "2", "f";
    OneCharacter("1");
    OneCharacter("2");
    OneCharacter(name);
    assert one == "{1" && two == "{2" && one[1] != two[1];
    hide TrimTrailing, StartsObject, Computable, Parsed, Unnamed;
    UnnamedShown(one, two, name);
  }

  // The id 1 is followed by an empty one: the delta is computed, and the client still has 1.
  lemma BlankIdExample()
    ensures var shown := Named("f") + [Node(ToolId, "1")];
      var a, b := Parsed(shown), Parsed(shown + [Node(ToolId, "")]);
      Computable(a, b) && Replay(a, Computed(a, b)) != b
  {
    var id, none := Node(ToolId, "1"), Node(ToolId, "");
    var shown := Named("f") + [id];
    OneCharacter("1");
    OneCharacter("f");
    NamedState("f");
    assert IdText("") == "";
    hide Run, IdText, TrimTrailing, Parsed, Computable, Snapshot, Computed, Replay, Named;
    RunMore(Named("f"), id);
    RunMore(shown, none);
    BlankIdIff(Run(START, shown), "");
    DiffsRebuildIff(Parsed(shown), Parsed(shown + [none]));
  }

  lemma KeyShown(s: State, key: Node)
    requires Inv(s) && Shown(s) && key.tag == ArgName
    ensures Shown(Step(s, key))
  {
    hide Json.Quote, Trim;
  }

  lemma StringOpen(s: State, value: Node)
    requires Inv(s) && Shown(s) && value.tag == ArgStringValue
    ensures Shown(Step(s, value)) && Step(s, value).closing
  {
    hide ValueText;
  }

  // The string "x" goes on with "y", and a parse in between sees the second node without its text.
  lemma CutStringExample()
    ensures var open := Named("f") + [Node(ArgName, "a")] + [Node(ArgStringValue, "x")];
      !Computable(Parsed(open + [Node(ArgStringValue, "")]), Parsed(open + [Node(ArgStringValue, "y")]))
  {
    var key, value := Node(ArgName, "a"), Node(ArgStringValue, "x");
    var open := Named("f") + [key] + [value];
    OneCharacter("f");
    NamedState("f");
    hide Run, Step, Snapshot, Computable, Parsed, Inv, Named, TrimTrailing;
    RunMore(Named("f"), key);
    RunMore(Named("f") + [key], value);
    KeyShown(Run(START, Named("f")), key);
    StringOpen(Run(START, Named("f") + [key]), value);
    RunMore(open, Node(ArgStringValue, ""));
    RunMore(open, Node(ArgStringValue, "y"));
    CutStringIff(Run(START, open), "", "y");
  }

  lemma UnsafeWord()
    ensures "T" <= "To" && !SafeValue("T", "To")
  {
    hide PythonLiterals.Normalized, LiteralStreaming.SafeCut, LiteralStreaming.TailOf;
    LiteralStreaming.WordTakenBack();
    LiteralStreaming.NormalizeMonotoneIff("T", "o");
    assert "T" + "o" == "To" && "To"[|"T"|..] == "o";
  }

  // A parse sees T, which is taken for the beginning of True, and the next one To.
  lemma CutValueExample()
    ensures var open := Named("f") + [Node(ArgName, "a")];
      !Computable(Parsed(open + [Node(ArgValue, "T")]), Parsed(open + [Node(ArgValue, "To")]))
  {
    var key := Node(ArgName, "a");
    var open := Named("f") + [key];
    OneCharacter("f");
    NamedState("f");
    UnsafeWord();
    hide Run, Step, Snapshot, Computable, Parsed, Inv, Named, TrimTrailing, SafeValue;
    RunMore(Named("f"), key);
    KeyShown(Run(START, Named("f")), key);
    RunMore(open, Node(ArgValue, "T"));
    RunMore(open, Node(ArgValue, "To"));
    CutValueIff(Run(START, open), "T", "To");
  }
}
