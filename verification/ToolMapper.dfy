/** The state machine that turns the events of a parse into reasoning, content and tool calls, writing the
    arguments of a call as JSON text piece by piece. */
module ToolMapper {
  import opened Text
  import Json
  import BraceDepth
  import PythonLiterals

  datatype Tag =
    | Reasoning | Content
    | ToolOpen | ToolClose | ToolName | ToolId | ToolArgs
    | ArgOpen | ArgClose | ArgName | ArgValue | ArgStringValue
    | OtherTag(tag: string)

  datatype Node = Node(tag: Tag, text: string)

  datatype ToolCall = ToolCall(name: string, arguments: string, id: string)

  const NO_CALL := ToolCall("", "", "")

  // Where the pointer to the current tool call points: nowhere, to the pending call, or to the last call of the result.
  datatype Pointer = Nowhere | AtPending | AtLastCall

  datatype State = State(
    reasoning: string, content: string, calls: seq<ToolCall>,
    pending: Option<ToolCall>, current: Pointer, argCount: nat, closing: bool, buffer: string)

  const START := State("", "", [], None, Nowhere, 0, false, "")

  // The pointer never dangles.
  predicate Wf(s: State) {
    (s.current == AtPending <==> s.pending.Some?) && (s.current == AtLastCall ==> s.calls != [])
  }

  function Tool(s: State): ToolCall
    requires Wf(s) && s.current != Nowhere
  {
    if s.current == AtPending then s.pending.value else s.calls[|s.calls| - 1]
  }

  function WithTool(s: State, t: ToolCall): (r: State)
    requires Wf(s) && s.current != Nowhere
    ensures Wf(r) && r.current == s.current && Tool(r) == t
  {
    if s.current == AtPending then s.(pending := Some(t)) else s.(calls := s.calls[|s.calls| - 1 := t])
  }

  // Argument text goes to the call once its name is known, and to the buffer before that.
  function Target(s: State): string
    requires Wf(s) && s.current != Nowhere
  {
    if Tool(s).name != "" then Tool(s).arguments else s.buffer
  }

  function WithTarget(s: State, text: string): (r: State)
    requires Wf(s) && s.current != Nowhere
    ensures Wf(r)
    ensures r.argCount == s.argCount && r.closing == s.closing
  {
    if Tool(s).name != "" then WithTool(s, Tool(s).(arguments := text)) else s.(buffer := text)
  }

  // ---------- one event ----------

  // An id without white space behind it and without the quotes around it.
  function IdText(text: string): (r: string)
    ensures var t := TrimTrailing(text);
      if |t| >= 2 && t[0] == '"' && t[|t| - 1] == '"' then t == "\"" + r + "\"" else t == r
  {
    var t := TrimTrailing(text);
    if |t| >= 2 && t[0] == '"' && t[|t| - 1] == '"' then t[1..|t| - 1] else t
  }

  function NameStep(s: State, text: string): (r: State)
    requires Wf(s) && s.current != Nowhere
    ensures Wf(r)
  {
    var t := Tool(s);
    var args := if s.buffer != "" then s.buffer else if t.arguments == "" then "{" else t.arguments;
    var named := ToolCall(TrimTrailing(text), args, t.id);
    if s.current == AtPending
    then s.(calls := s.calls + [named], pending := None, current := AtLastCall, buffer := "")
    else WithTool(s.(buffer := ""), named)
  }

  function ArgNameStep(s: State, text: string): (r: State)
    requires Wf(s) && s.current != Nowhere
    ensures Wf(r)
  {
    var entry := (if s.argCount > 0 then "," else "") + Json.Quote(Trim(text)) + ":";
    var target := if Target(s) == "" then "{" else Target(s);
    WithTarget(s, target + entry).(argCount := s.argCount + 1)
  }

  // The JSON text of a value event: a string value opens its quote only once.
  function ValueText(tag: Tag, text: string, closing: bool): string {
    if tag == ArgStringValue then (if text == "" || !closing then "\"" else "") + Json.Escape(text)
    else if text == "" then ""
    else PythonLiterals.Normalized(text)
  }

  function ValueStep(s: State, tag: Tag, text: string): (r: State)
    requires Wf(s) && s.current != Nowhere
    ensures Wf(r)
  {
    WithTarget(s, Target(s) + ValueText(tag, text, s.closing)).(closing := s.closing || tag == ArgStringValue)
  }

  function ArgCloseStep(s: State): (r: State)
    requires Wf(s) && s.current != Nowhere
    ensures Wf(r)
  {
    if s.closing then WithTarget(s, Target(s) + "\"").(closing := false) else s
  }

  function Braces(n: int): string {
    if n <= 0 then "" else "}" + Braces(n - 1)
  }

  // The arguments of a call when it closes: open quote and open braces are closed.
  function Completed(args: string, closing: bool): string {
    var quoted := if closing then args + "\"" else args;
    quoted + Braces(BraceDepth.Depth(quoted))
  }

  function CloseStep(s: State): (r: State)
    requires Wf(s) && s.current != Nowhere
    ensures Wf(r)
  {
    var t := Tool(s);
    var flush := t.name == "" && s.buffer != "";
    var closed := t.(arguments := Completed(if flush then s.buffer else t.arguments, s.closing));
    var u := s.(closing := false, buffer := if flush then "" else s.buffer);
    if s.current == AtPending then
      u.(calls := if t.name != "" then s.calls + [closed] else s.calls, pending := None, current := Nowhere)
    else WithTool(u, closed)
  }

  function Step(s: State, n: Node): (r: State)
    requires Wf(s)
    ensures Wf(r)
  {
    if n.tag == Reasoning then s.(reasoning := s.reasoning + n.text)
    else if n.tag == Content then s.(content := s.content + n.text)
    else if n.tag == ToolOpen then OpenStep(s)
    else if n.tag == ArgOpen then s.(closing := false)
    else if s.current == Nowhere then s
    else if n.tag == ToolId then WithTool(s, Tool(s).(id := IdText(n.text)))
    else if n.tag == ToolName then NameStep(s, n.text)
    else if n.tag == ToolArgs then (if StartsObject(n.text) then WithTarget(s, TrimTrailing(n.text)) else s)
    else if n.tag == ArgName then ArgNameStep(s, n.text)
    else if n.tag == ArgValue || n.tag == ArgStringValue then ValueStep(s, n.tag, n.text)
    else if n.tag == ArgClose then ArgCloseStep(s)
    else if n.tag == ToolClose then CloseStep(s)
    else s
  }

  function OpenStep(s: State): (r: State)
    ensures Wf(r)
  {
    s.(pending := Some(NO_CALL), current := AtPending, argCount := 0, buffer := "", closing := false)
  }

  predicate StartsObject(text: string) {
    var t := TrimTrailing(text);
    t != "" && t[0] == '{'
  }

  function Run(s: State, ns: seq<Node>): (r: State)
    requires Wf(s)
    ensures Wf(r)
    decreases ns
  {
    if ns == [] then s else Run(Step(s, ns[0]), ns[1..])
  }

  lemma {:induction false} RunConcat(s: State, a: seq<Node>, b: seq<Node>)
    requires Wf(s)
    ensures Run(s, a + b) == Run(Run(s, a), b)
    decreases a
  {
    hide Step;
    if a == [] {
      assert a + b == b;
    } else {
      assert (a + b)[1..] == a[1..] + b;
      RunConcat(Step(s, a[0]), a[1..], b);
    }
  }

  // ---------- what a parse leaves in the message ----------

  predicate IsBlank(s: string) {
    forall i :: 0 <= i < |s| ==> s[i] == ' ' || s[i] == '\n' || s[i] == '\r' || s[i] == '\t'
  }

  datatype Message = Message(reasoning: string, content: string, calls: seq<ToolCall>)

  function Flushed(s: State): seq<ToolCall> {
    if s.pending.Some? && s.pending.value.name != "" then
      var t := s.pending.value;
      var args := if s.buffer != "" then s.buffer else t.arguments;
      s.calls + [t.(arguments := if s.closing && args != "" then args + "\"" else args)]
    else s.calls
  }

  function Snapshot(s: State): Message {
    Message(if IsBlank(s.reasoning) then "" else s.reasoning, s.content, Flushed(s))
  }

  // The message extracted from the events of one parse.
  function Parsed(ns: seq<Node>): Message {
    Snapshot(Run(START, ns))
  }

  class Mapper {
    var reasoning: string
    var content: string
    var calls: seq<ToolCall>
    var pending: Option<ToolCall>
    var current: Pointer
    var argCount: nat
    var closing: bool
    var buffer: string

    constructor ()
      ensures Abs() == START
    {
      reasoning, content, calls := "", "", [];
      pending, current, argCount, closing, buffer := None, Nowhere, 0, false, "";
    }

    function Abs(): State
      reads this
    {
      State(reasoning, content, calls, pending, current, argCount, closing, buffer)
    }

    function CurrentTool(): ToolCall
      reads this
      requires Wf(Abs()) && current != Nowhere
    {
      Tool(Abs())
    }

    // Writing through the pointer.
    method SetTool(t: ToolCall)
      requires Wf(Abs()) && current != Nowhere
      modifies this`pending, this`calls
      ensures Abs() == WithTool(old(Abs()), t)
    {
      if current == AtPending {
        pending := Some(t);
      } else {
        calls := calls[|calls| - 1 := t];
      }
    }

    method SetArgs(text: string)
      requires Wf(Abs()) && current != Nowhere
      modifies this`pending, this`calls, this`buffer
      ensures Abs() == WithTarget(old(Abs()), text)
    {
      if CurrentTool().name != "" {
        SetTool(CurrentTool().(arguments := text));
      } else {
        buffer := text;
      }
    }

    method Map(node: Node)
      requires Wf(Abs())
      modifies this
      ensures Abs() == Step(old(Abs()), node)
    {
      hide NameStep, ArgNameStep, ValueStep, ArgCloseStep, CloseStep, WithTool, WithTarget, Target, Tool;
      hide IdText, StartsObject;
      if node.tag == Reasoning {
        reasoning := reasoning + node.text;
      } else if node.tag == Content {
        content := content + node.text;
      } else if node.tag == ToolOpen {
        pending := Some(NO_CALL);
        current := AtPending;
        argCount := 0;
        buffer := "";
        closing := false;
      } else if node.tag == ArgOpen {
        closing := false;
      } else if current != Nowhere {
        if node.tag == ToolId {
          MapId(node);
        } else if node.tag == ToolName {
          MapName(node);
        } else if node.tag == ToolArgs {
          MapArgs(node);
        } else if node.tag == ArgName {
          MapArgName(node);
        } else if node.tag == ArgValue || node.tag == ArgStringValue {
          MapValue(node);
        } else if node.tag == ArgClose {
          MapArgClose();
        } else if node.tag == ToolClose {
          MapClose();
        }
      }
    }

    method MapId(node: Node)
      requires Wf(Abs()) && current != Nowhere
      modifies this
      ensures Abs() == WithTool(old(Abs()), Tool(old(Abs())).(id := IdText(node.text)))
    {
      var text := TrimTrailing(node.text);
      if |text| >= 2 && text[0] == '"' && text[|text| - 1] == '"' {
        text := text[1..|text| - 1];
      }
      SetTool(CurrentTool().(id := text));
    }

    method MapArgs(node: Node)
      requires Wf(Abs()) && current != Nowhere
      modifies this
      ensures Abs() == if StartsObject(node.text) then WithTarget(old(Abs()), TrimTrailing(node.text)) else old(Abs())
    {
      var text := TrimTrailing(node.text);
      if text != "" && text[0] == '{' {
        SetArgs(text);
      }
    }

    method MapArgName(node: Node)
      requires Wf(Abs()) && current != Nowhere
      modifies this
      ensures Abs() == ArgNameStep(old(Abs()), node.text)
    {
      var entry := "";
      if argCount > 0 {
        entry := ",";
      }
      entry := entry + Json.Quote(Trim(node.text)) + ":";
      argCount := argCount + 1;
      var target := Target(Abs());
      if target == "" {
        target := "{";
      }
      SetArgs(target + entry);
    }

    method MapArgClose()
      requires Wf(Abs()) && current != Nowhere
      modifies this
      ensures Abs() == ArgCloseStep(old(Abs()))
    {
      if closing {
        SetArgs(Target(Abs()) + "\"");
        closing := false;
      }
    }

    method MapName(node: Node)
      requires Wf(Abs()) && current != Nowhere
      modifies this
      ensures Abs() == NameStep(old(Abs()), node.text)
    {
      SetTool(CurrentTool().(name := TrimTrailing(node.text)));
      if buffer != "" {
        SetTool(CurrentTool().(arguments := buffer));
        buffer := "";
      } else if CurrentTool().arguments == "" {
        SetTool(CurrentTool().(arguments := "{"));
      }
      if pending.Some? {
        calls := calls + [pending.value];
        pending := None;
        current := AtLastCall;
      }
    }

    method MapValue(node: Node)
      requires Wf(Abs()) && current != Nowhere && (node.tag == ArgValue || node.tag == ArgStringValue)
      modifies this
      ensures Abs() == ValueStep(old(Abs()), node.tag, node.text)
    {
      var value := "";
      if node.text == "" && node.tag == ArgStringValue {
        value := "\"";
        closing := true;
      } else if node.text != "" && node.tag == ArgStringValue {
        if !closing {
          value := "\"";
          closing := true;
        }
        value := value + Json.Escape(node.text);
      } else if node.text != "" {
        var json := PythonLiterals.NormalizeQuotesToJson(node.text);
        value := value + json;
      }
      assert "" + Json.Escape(node.text) == Json.Escape(node.text) && "\"" + "" == "\"";
      assert value == ValueText(node.tag, node.text, old(closing));
      SetArgs(Target(Abs()) + value);
    }

    method MapClose()
      requires Wf(Abs()) && current != Nowhere
      modifies this
      ensures Abs() == CloseStep(old(Abs()))
    {
      hide BraceDepth.Depth, Braces;
      if CurrentTool().name == "" && buffer != "" {
        SetTool(CurrentTool().(arguments := buffer));
        buffer := "";
      }
      if closing {
        SetTool(CurrentTool().(arguments := CurrentTool().arguments + "\""));
        closing := false;
      }
      CloseBraces();
      if pending.Some? {
        if CurrentTool().name != "" {
          calls := calls + [pending.value];
        }
        pending := None;
        current := Nowhere;
      }
    }

    method CloseBraces()
      requires Wf(Abs()) && current != Nowhere
      modifies this`pending, this`calls
      ensures var t := Tool(old(Abs()));
        Abs() == WithTool(old(Abs()), t.(arguments := t.arguments + Braces(BraceDepth.Depth(t.arguments))))
    {
      ghost var t := CurrentTool();
      var d := BraceDepth.JsonBraceDepth(CurrentTool().arguments);
      ghost var total := t.arguments + Braces(d);
      while d > 0
        invariant Wf(Abs()) && current == old(current)
        invariant Abs() == WithTool(old(Abs()), CurrentTool())
        invariant CurrentTool() == t.(arguments := CurrentTool().arguments)
        invariant CurrentTool().arguments + Braces(d) == total
      {
        assert CurrentTool().arguments + "}" + Braces(d - 1) == CurrentTool().arguments + ("}" + Braces(d - 1));
        SetTool(CurrentTool().(arguments := CurrentTool().arguments + "}"));
        d := d - 1;
      }
      assert CurrentTool().arguments + "" == CurrentTool().arguments;
    }

    method FromAst(nodes: seq<Node>)
      requires Wf(Abs())
      modifies this
      ensures Message(reasoning, content, calls) == Snapshot(Run(old(Abs()), nodes))
    {
      for i := 0 to |nodes|
        invariant Wf(Abs())
        invariant Run(Abs(), nodes[i..]) == Run(old(Abs()), nodes)
      {
        assert nodes[i..][1..] == nodes[i + 1..];
        Map(nodes[i]);
      }
      ghost var s := Abs();
      if pending.Some? && pending.value.name != "" {
        FlushPending();
      }
      if reasoning != "" {
        var blank := AllBlank(reasoning);
        if blank {
          reasoning := "";
        }
      }
    }

    method FlushPending()
      requires pending.Some? && pending.value.name != ""
      modifies this`pending, this`calls
      ensures calls == Flushed(old(Abs()))
    {
      if buffer != "" {
        pending := Some(pending.value.(arguments := buffer));
      }
      if closing && pending.value.arguments != "" {
        pending := Some(pending.value.(arguments := pending.value.arguments + "\""));
      }
      calls := calls + [pending.value];
      pending := None;
    }
  }

  method AllBlank(text: string) returns (blank: bool)
    ensures blank == IsBlank(text)
  {
    blank := true;
    for i := 0 to |text|
      invariant blank && IsBlank(text[..i])
    {
      var c := text[i];
      if c != ' ' && c != '\n' && c != '\r' && c != '\t' {
        blank := false;
        break;
      }
    }
  }
}
