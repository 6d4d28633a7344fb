/** Deltas between two successive snapshots of a message, and what a client gets by applying them. */
module MessageDiff {
  import opened Text
  import opened ToolMapper

  // One delta. A delta without an index carries no tool call.
  datatype Diff = Diff(reasoning: string, content: string, index: Option<nat>, call: ToolCall)

  datatype DiffError = TextNotExtended | FewerToolCalls | ToolNameMismatch

  type Diffs = Result<seq<Diff>, DiffError>

  // What was added to a text. A text that shrank to a prefix gives an empty delta.
  function StringDiff(last: string, current: string): Option<string> {
    if last == "" then Some(current)
    else if last <= current then Some(current[|last|..])
    else if current <= last then Some("")
    else None
  }

  predicate NameMismatch(prev: ToolCall, next: ToolCall) {
    prev.name != next.name && prev.name != "" && next.name != "" && !(prev.name <= next.name)
  }

  // The delta of the last call known before, if there is anything to report.
  function CallDiff(prev: ToolCall, next: ToolCall, index: nat, added: string): seq<Diff> {
    var renamed := prev.id != next.id || prev.name != next.name;
    if added == "" && !renamed then []
    else
      var call := ToolCall(if renamed then next.name else "", added, if renamed then next.id else "");
      [Diff("", "", Some(index), call)]
  }

  function NewCalls(calls: seq<ToolCall>, from: nat): seq<Diff>
    requires from <= |calls|
    decreases |calls| - from
  {
    if from == |calls| then [] else [Diff("", "", Some(from), calls[from])] + NewCalls(calls, from + 1)
  }

  // ---------- the specification: what the deltas have to achieve ----------

  function ApplyCall(t: ToolCall, d: ToolCall): ToolCall {
    ToolCall(if d.name != "" then d.name else t.name, t.arguments + d.arguments, if d.id != "" then d.id else t.id)
  }

  // How a client merges one delta: texts are appended, a name or id is replaced unless it is empty.
  function Apply(m: Message, d: Diff): Message {
    var calls :=
      if d.index.None? then m.calls
      else if d.index.value < |m.calls| then m.calls[d.index.value := ApplyCall(m.calls[d.index.value], d.call)]
      else m.calls + [d.call];
    Message(m.reasoning + d.reasoning, m.content + d.content, calls)
  }

  function Replay(m: Message, ds: seq<Diff>): Message
    decreases ds
  {
    if ds == [] then m else Replay(Apply(m, ds[0]), ds[1..])
  }

  // A call that only grew. An id may change but not disappear.
  predicate CallGrew(prev: ToolCall, next: ToolCall) {
    prev.name <= next.name && prev.arguments <= next.arguments && (next.id == "" ==> prev.id == "")
  }

  // A message that only grew: only its last call may still have changed.
  predicate Extends(prev: Message, next: Message) {
    && prev.reasoning <= next.reasoning
    && prev.content <= next.content
    && |prev.calls| <= |next.calls|
    && (prev.calls != [] ==>
      var i := |prev.calls| - 1;
      prev.calls[..i] == next.calls[..i] && CallGrew(prev.calls[i], next.calls[i]))
  }

  // ---------- computing the deltas ----------

  // The delta of the last call that was already known.
  method DiffLastCall(p: ToolCall, n: ToolCall, index: nat) returns (r: Diffs)
    ensures r.Ok? <==> !NameMismatch(p, n) && TextOk(p.arguments, n.arguments)
    ensures r.Ok? ==> r.value == CallDiff(p, n, index, StringDiff(p.arguments, n.arguments).value)
    ensures r.Err? ==> r.error == if NameMismatch(p, n) then ToolNameMismatch else TextNotExtended
  {
    if p.name != n.name && p.name != "" && n.name != "" {
      if !(p.name <= n.name) {
        return Err(ToolNameMismatch);
      }
    }
    var added := StringDiff(p.arguments, n.arguments);
    if added.None? {
      return Err(TextNotExtended);
    }
    if added.value == "" && p.id == n.id && p.name == n.name {
      return Ok([]);
    }
    var call := NO_CALL;
    if p.id != n.id || p.name != n.name {
      call := call.(id := n.id, name := n.name);
    }
    return Ok([Diff("", "", Some(index), call.(arguments := added.value))]);
  }

  method ComputeDiffs(prev: Message, next: Message) returns (r: Diffs)
    ensures r.Ok? <==> Computable(prev, next)
    ensures r.Ok? ==> r.value == Computed(prev, next)
    ensures r.Err? ==> r.error == Reason(prev, next)
  {
    hide NameMismatch, CallDiff;
    var diffs: seq<Diff> := [];
    if prev.reasoning != next.reasoning {
      var d := StringDiff(prev.reasoning, next.reasoning);
      if d.None? {
        return Err(TextNotExtended);
      }
      diffs := diffs + [Diff(d.value, "", None, NO_CALL)];
    }
    if prev.content != next.content {
      var d := StringDiff(prev.content, next.content);
      if d.None? {
        return Err(TextNotExtended);
      }
      diffs := diffs + [Diff("", d.value, None, NO_CALL)];
    }
    if |next.calls| < |prev.calls| {
      return Err(FewerToolCalls);
    }
    assert diffs == TextPart(prev, next);
    if prev.calls != [] {
      var i := |prev.calls| - 1;
      var ds := DiffLastCall(prev.calls[i], next.calls[i], i);
      if ds.Err? {
        return ds;
      }
      diffs := diffs + ds.value;
    }
    assert diffs == TextPart(prev, next) + CallPart(prev, next);
    ghost var known := diffs;
    for k := |prev.calls| to |next.calls|
      invariant diffs + NewCalls(next.calls, k) == known + NewCalls(next.calls, |prev.calls|)
    {
      assert diffs + NewCalls(next.calls, k)
          == diffs + [Diff("", "", Some(k), next.calls[k])] + NewCalls(next.calls, k + 1);
      diffs := diffs + [Diff("", "", Some(k), next.calls[k])];
    }
    assert diffs + [] == diffs;
    return Ok(diffs);
  }

  predicate TextOk(last: string, current: string) {
    last <= current || current <= last
  }

  // When no delta computation throws: every text is comparable, no call is lost and the last name only grows.
  predicate Computable(prev: Message, next: Message) {
    && TextOk(prev.reasoning, next.reasoning)
    && TextOk(prev.content, next.content)
    && |prev.calls| <= |next.calls|
    && (prev.calls != [] ==>
      var i := |prev.calls| - 1;
      !NameMismatch(prev.calls[i], next.calls[i]) && TextOk(prev.calls[i].arguments, next.calls[i].arguments))
  }

  function Reason(prev: Message, next: Message): DiffError
    requires !Computable(prev, next)
  {
    if !TextOk(prev.reasoning, next.reasoning) || !TextOk(prev.content, next.content) then TextNotExtended
    else if |next.calls| < |prev.calls| then FewerToolCalls
    else if NameMismatch(prev.calls[|prev.calls| - 1], next.calls[|prev.calls| - 1]) then ToolNameMismatch
    else TextNotExtended
  }

  function TextPart(prev: Message, next: Message): seq<Diff>
    requires TextOk(prev.reasoning, next.reasoning) && TextOk(prev.content, next.content)
  {
    (if prev.reasoning == next.reasoning then []
     else [Diff(StringDiff(prev.reasoning, next.reasoning).value, "", None, NO_CALL)]) +
    (if prev.content == next.content then []
     else [Diff("", StringDiff(prev.content, next.content).value, None, NO_CALL)])
  }

  function CallPart(prev: Message, next: Message): seq<Diff>
    requires Computable(prev, next)
  {
    if prev.calls == [] then []
    else
      var i := |prev.calls| - 1;
      CallDiff(prev.calls[i], next.calls[i], i, StringDiff(prev.calls[i].arguments, next.calls[i].arguments).value)
  }

  function Computed(prev: Message, next: Message): seq<Diff>
    requires Computable(prev, next)
  {
    TextPart(prev, next) + CallPart(prev, next) + NewCalls(next.calls, |prev.calls|)
  }

  // ---------- replaying ----------

  lemma {:induction false} ReplayConcat(m: Message, a: seq<Diff>, b: seq<Diff>)
    ensures Replay(m, a + b) == Replay(Replay(m, a), b)
    decreases a
  {
    if a == [] {
      assert a + b == b;
    } else {
      assert (a + b)[1..] == a[1..] + b;
      ReplayConcat(Apply(m, a[0]), a[1..], b);
    }
  }

  lemma {:induction false} ReplayNewCalls(m: Message, calls: seq<ToolCall>)
    requires |m.calls| <= |calls|
    ensures Replay(m, NewCalls(calls, |m.calls|)) == m.(calls := m.calls + calls[|m.calls|..])
    decreases |calls| - |m.calls|
  {
    var k := |m.calls|;
    if k < |calls| {
      var d := Diff("", "", Some(k), calls[k]);
      var ds := NewCalls(calls, k);
      assert ds[0] == d && ds[1..] == NewCalls(calls, k + 1);
      var m' := Apply(m, d);
      assert m' == m.(calls := m.calls + [calls[k]]);
      ReplayNewCalls(m', calls);
      assert m.calls + [calls[k]] + calls[k + 1..] == m.calls + calls[k..];
    } else {
      assert m.calls + calls[k..] == m.calls;
    }
  }

  function Grown(last: string, current: string): string
    requires TextOk(last, current)
  {
    last + StringDiff(last, current).value
  }

  lemma GrownIff(last: string, current: string)
    requires TextOk(last, current)
    ensures Grown(last, current) == current <==> last <= current
  {
    if last <= current {
      assert last + current[|last|..] == current;
    }
  }

  lemma {:induction false} ReplayTextPart(prev: Message, next: Message)
    requires TextOk(prev.reasoning, next.reasoning) && TextOk(prev.content, next.content)
    ensures Replay(prev, TextPart(prev, next))
      == Message(Grown(prev.reasoning, next.reasoning), Grown(prev.content, next.content), prev.calls)
  {
    SameText(prev.reasoning);
    SameText(prev.content);
    var a := if prev.reasoning == next.reasoning then []
             else [Diff(StringDiff(prev.reasoning, next.reasoning).value, "", None, NO_CALL)];
    var b := if prev.content == next.content then []
             else [Diff("", StringDiff(prev.content, next.content).value, None, NO_CALL)];
    ReplayConcat(prev, a, b);
    var m := Replay(prev, a);
    if a != [] {
      assert a[1..] == [];
    }
    assert m == Message(Grown(prev.reasoning, next.reasoning), prev.content, prev.calls);
    SameText(m.reasoning);
    if b != [] {
      assert b[1..] == [];
    }
  }

  lemma SameText(s: string)
    ensures TextOk(s, s) && Grown(s, s) == s
    ensures s + "" == s
  {
    assert s == "" || s[|s|..] == "";
  }

  /** The deltas are computed and rebuild the new message exactly when the new message extends the old one. */
  lemma {:induction false} DiffsRebuildIff(prev: Message, next: Message)
    ensures Computable(prev, next) && Replay(prev, Computed(prev, next)) == next <==> Extends(prev, next)
  {
    if Computable(prev, next) {
      var r1 := Replay(prev, TextPart(prev, next));
      var r2 := Replay(r1, CallPart(prev, next));
      ReplayTextPart(prev, next);
      GrownIff(prev.reasoning, next.reasoning);
      GrownIff(prev.content, next.content);
      ReplayCallPart(prev, next, r1);
      ReplayNewCalls(r2, next.calls);
      ReplayConcat(prev, TextPart(prev, next), CallPart(prev, next));
      ReplayConcat(prev, TextPart(prev, next) + CallPart(prev, next), NewCalls(next.calls, |prev.calls|));
      CallsRebuilt(prev.calls, r2.calls, next.calls);
    }
  }

  // The last call after its delta was applied.
  function LastCall(prev: ToolCall, next: ToolCall): ToolCall
    requires TextOk(prev.arguments, next.arguments)
  {
    var added := StringDiff(prev.arguments, next.arguments).value;
    if prev.id != next.id || prev.name != next.name then ApplyCall(prev, ToolCall(next.name, added, next.id))
    else prev.(arguments := prev.arguments + added)
  }

  lemma {:induction false} ReplayCallPart(prev: Message, next: Message, m: Message)
    requires Computable(prev, next) && m.calls == prev.calls
    ensures Replay(m, CallPart(prev, next)) ==
      if prev.calls == [] then m
      else
        var i := |prev.calls| - 1;
        m.(calls := prev.calls[i := LastCall(prev.calls[i], next.calls[i])])
  {
    hide NameMismatch;
    if prev.calls != [] {
      var i := |prev.calls| - 1;
      var p, n := prev.calls[i], next.calls[i];
      var ds := CallPart(prev, next);
      SameText(m.reasoning);
      SameText(m.content);
      SameText(p.arguments);
      if ds == [] {
        assert prev.calls[i := p] == prev.calls;
      } else {
        assert ds[1..] == [];
        assert ApplyCall(p, ds[0].call) == LastCall(p, n);
      }
    }
  }

  lemma {:induction false} CallsRebuilt(before: seq<ToolCall>, after: seq<ToolCall>, next: seq<ToolCall>)
    requires |before| <= |next|
    requires before != [] ==> TextOk(before[|before| - 1].arguments, next[|before| - 1].arguments)
    requires before != [] ==> !NameMismatch(before[|before| - 1], next[|before| - 1])
    requires after == if before == [] then []
                      else before[|before| - 1 := LastCall(before[|before| - 1], next[|before| - 1])]
    ensures after + next[|before|..] == next <==>
      (before != [] ==>
         before[..|before| - 1] == next[..|before| - 1] && CallGrew(before[|before| - 1], next[|before| - 1]))
  {
    if before == [] {
      assert after + next[|before|..] == next;
    } else {
      var i := |before| - 1;
      var p, n := before[i], next[i];
      GrownIff(p.arguments, n.arguments);
      assert LastCall(p, n) == n <==> CallGrew(p, n);
      var all := after + next[|before|..];
      assert all[..i] == before[..i] && all[i] == LastCall(p, n) && all[i + 1..] == next[i + 1..];
      assert all == all[..i] + [all[i]] + all[i + 1..];
      assert next == next[..i] + [n] + next[i + 1..];
    }
  }

  // The comment in the source speaks of names that grow or shrink: a shorter name is an error.
  lemma ShrunkNameFails(prev: Message, next: Message)
    requires TextOk(prev.reasoning, next.reasoning) && TextOk(prev.content, next.content)
    requires prev.calls != [] && |prev.calls| <= |next.calls|
    requires var i := |prev.calls| - 1; next.calls[i].name < prev.calls[i].name && next.calls[i].name != ""
    ensures !Computable(prev, next) && Reason(prev, next) == ToolNameMismatch
  {
    var i := |prev.calls| - 1;
    assert NameMismatch(prev.calls[i], next.calls[i]);
  }
}
