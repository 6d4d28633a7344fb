/** The messages of a growing reply one after the other, and the deltas between them. */
module MessageStream {
  import opened Text
  import opened ToolMapper
  import opened MessageDiff

  const EMPTY := Message("", "", [])

  lemma ExtendsRefl(m: Message)
    ensures Extends(m, m)
  {
  }

  lemma {:induction false} ExtendsTrans(a: Message, b: Message, c: Message)
    requires Extends(a, b) && Extends(b, c)
    ensures Extends(a, c)
  {
    if a.calls != [] {
      var i, k := |a.calls| - 1, |b.calls| - 1;
      assert b.calls[..k][..i] == b.calls[..i] && c.calls[..k][..i] == c.calls[..i];
      if i < k {
        assert b.calls[i] == b.calls[..k][i] && c.calls[i] == c.calls[..k][i];
      }
    }
  }

  // The deltas of a whole reply, or the first error. An empty message is skipped.
  function Streamed(prev: Message, ms: seq<Message>): Diffs
    decreases ms
  {
    if ms == [] then Ok([])
    else if ms[0] == EMPTY then Streamed(prev, ms[1..])
    else if !Computable(prev, ms[0]) then Err(Reason(prev, ms[0]))
    else Behind(Computed(prev, ms[0]), Streamed(ms[0], ms[1..]))
  }

  function Behind(ds: seq<Diff>, r: Diffs): Diffs {
    if r.Err? then r else Ok(ds + r.value)
  }

  // The message that the next one is compared with.
  function Latest(prev: Message, ms: seq<Message>): Message
    decreases ms
  {
    if ms == [] then prev else Latest(if ms[0] == EMPTY then prev else ms[0], ms[1..])
  }

  function Last(ms: seq<Message>): Message {
    if ms == [] then EMPTY else ms[|ms| - 1]
  }

  // Nothing throws, and a client that merges the deltas ends with the last message.
  predicate Rebuilt(ms: seq<Message>) {
    var r := Streamed(EMPTY, ms);
    r.Ok? && Replay(EMPTY, r.value) == Last(ms)
  }

  // Every message extends the one before.
  predicate Growing(ms: seq<Message>) {
    forall i :: 0 <= i < |ms| ==> Extends(Last(ms[..i]), ms[i])
  }

  lemma BehindNothing(r: Diffs)
    ensures Behind([], r) == r
  {
    if r.Ok? {
      assert [] + r.value == r.value;
    }
  }

  lemma BehindBoth(a: seq<Diff>, b: seq<Diff>, r: Diffs)
    ensures Behind(a, Behind(b, r)) == Behind(a + b, r)
  {
    if r.Ok? {
      assert a + (b + r.value) == a + b + r.value;
    }
  }

  // The same, by the last message.
  lemma {:induction false} StreamedLast(prev: Message, ms: seq<Message>, m: Message)
    ensures var r, p := Streamed(prev, ms), Latest(prev, ms);
      Streamed(prev, ms + [m]) ==
        if r.Err? || m == EMPTY then r
        else if !Computable(p, m) then Err(Reason(p, m))
        else Ok(r.value + Computed(p, m))
    decreases ms
  {
    hide Computable, Computed, Reason;
    if ms == [] {
      assert ms + [m] == [m] && [m][1..] == [];
      if m != EMPTY && Computable(prev, m) {
        assert Computed(prev, m) + [] == [] + Computed(prev, m);
      }
    } else {
      assert (ms + [m])[1..] == ms[1..] + [m];
      var next := if ms[0] == EMPTY then prev else ms[0];
      StreamedLast(next, ms[1..], m);
      var p := Latest(next, ms[1..]);
      if ms[0] != EMPTY && Computable(prev, ms[0]) && Computable(p, m) && Streamed(next, ms[1..]).Ok? {
        var rest := Streamed(next, ms[1..]).value;
        assert Computed(prev, ms[0]) + (rest + Computed(p, m)) == Computed(prev, ms[0]) + rest + Computed(p, m);
      }
    }
  }

  lemma {:induction false} LatestLast(prev: Message, ms: seq<Message>, m: Message)
    ensures Latest(prev, ms + [m]) == if m == EMPTY then Latest(prev, ms) else m
    decreases ms
  {
    if ms == [] {
      assert ms + [m] == [m] && [m][1..] == [];
    } else {
      assert (ms + [m])[1..] == ms[1..] + [m];
      LatestLast(if ms[0] == EMPTY then prev else ms[0], ms[1..], m);
    }
  }

  lemma OnlyEmptyBefore(m: Message)
    ensures Extends(m, EMPTY) <==> m == EMPTY
  {
  }

  // In a growing sequence empty messages only come first.
  lemma {:induction false} LatestIsLast(ms: seq<Message>)
    requires Growing(ms)
    ensures Latest(EMPTY, ms) == Last(ms)
    decreases ms
  {
    if ms != [] {
      var k := |ms| - 1;
      var front := ms[..k];
      assert ms == front + [ms[k]];
      GrowingFront(ms);
      hide Extends, Growing;
      LatestIsLast(front);
      LatestLast(EMPTY, front, ms[k]);
      OnlyEmptyBefore(Last(front));
    }
  }

  lemma GrowingFront(ms: seq<Message>)
    requires ms != []
    ensures Growing(ms) <==> Growing(ms[..|ms| - 1]) && Extends(Last(ms[..|ms| - 1]), ms[|ms| - 1])
  {
    hide Extends, Last;
    var k := |ms| - 1;
    assert forall i :: 0 <= i < k ==> ms[..k][..i] == ms[..i] && ms[..k][i] == ms[i];
  }

  // One more message.
  lemma {:induction false} RebuiltLast(ms: seq<Message>, m: Message)
    requires Growing(ms) && Rebuilt(ms)
    ensures Rebuilt(ms + [m]) <==> Extends(Last(ms), m)
  {
    LatestIsLast(ms);
    StreamedLast(EMPTY, ms, m);
    var p := Last(ms);
    assert Last(ms + [m]) == m;
    hide Extends, Computable, Computed, Reason, Streamed, Latest, Growing, Last, Replay;
    OnlyEmptyBefore(p);
    DiffsRebuildIff(p, m);
    if m != EMPTY && Computable(p, m) {
      ReplayConcat(EMPTY, Streamed(EMPTY, ms).value, Computed(p, m));
    }
  }

  // At every point nothing has thrown, and the client has exactly the current message.
  predicate AlwaysRebuilt(ms: seq<Message>) {
    forall k :: 0 <= k <= |ms| ==> Rebuilt(ms[..k])
  }

  lemma AlwaysFront(ms: seq<Message>)
    requires ms != []
    ensures AlwaysRebuilt(ms) <==> AlwaysRebuilt(ms[..|ms| - 1]) && Rebuilt(ms)
  {
    hide Rebuilt;
    var n := |ms| - 1;
    assert ms[..|ms|] == ms;
    assert forall k :: 0 <= k <= n ==> ms[..n][..k] == ms[..k];
  }

  /** Whatever the messages are, the client is right at every point if and only if every message extends the one
      before. */
  lemma {:induction false} RebuiltIff(ms: seq<Message>)
    ensures AlwaysRebuilt(ms) <==> Growing(ms)
    decreases ms
  {
    if ms == [] {
      assert ms[..0] == [];
    } else {
      var front, m := ms[..|ms| - 1], ms[|ms| - 1];
      AlwaysFront(ms);
      GrowingFront(ms);
      RebuiltIff(front);
      assert front[..|front|] == front && ms == front + [m];
      if Growing(front) {
        assert Rebuilt(front);
        RebuiltLast(front, m);
      }
    }
  }
}
