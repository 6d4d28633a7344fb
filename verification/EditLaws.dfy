/** How the commands of the line editor work together. */
module EditLaws {
  import opened Utf8
  import opened LineEditor

  function Do(b: Buffer, cmds: seq<Command>, isSpace: CodePoint -> bool): (r: Buffer)
    requires b.cursor <= |b.text|
    ensures r.cursor <= |r.text|
    decreases |cmds|
  {
    if cmds == [] then b else
      CursorInText(b, cmds[0], isSpace);
      Do(Apply(b, cmds[0], isSpace), cmds[1..], isSpace)
  }

  lemma CursorInText(b: Buffer, cmd: Command, isSpace: CodePoint -> bool)
    requires b.cursor <= |b.text|
    ensures Apply(b, cmd, isSpace).cursor <= |Apply(b, cmd, isSpace).text|
  {
    var Buffer(t, i) := b;
    WordRightEnds(t, i, isSpace);
    WordLeftEnds(t, i, isSpace);
  }

  lemma {:induction false} DoBoth(b: Buffer, xs: seq<Command>, ys: seq<Command>, isSpace: CodePoint -> bool)
    requires b.cursor <= |b.text|
    ensures Do(b, xs + ys, isSpace) == Do(Do(b, xs, isSpace), ys, isSpace)
    decreases |xs|
  {
    hide Apply;
    if xs == [] {
      assert xs + ys == ys;
    } else {
      CursorInText(b, xs[0], isSpace);
      assert (xs + ys)[1..] == xs[1..] + ys;
      DoBoth(Apply(b, xs[0], isSpace), xs[1..], ys, isSpace);
    }
  }

  // The keys of a text, each with the width that was measured for it.
  function Typing(u: seq<CodePoint>, w: int): seq<Command> {
    if u == [] then [] else [Insert(u[0], w)] + Typing(u[1..], w)
  }

  function Times(n: nat, cmd: Command): seq<Command> {
    if n == 0 then [] else [cmd] + Times(n - 1, cmd)
  }

  lemma DoFirst(b: Buffer, cmd: Command, more: seq<Command>, isSpace: CodePoint -> bool)
    requires b.cursor <= |b.text|
    ensures Apply(b, cmd, isSpace).cursor <= |Apply(b, cmd, isSpace).text|
    ensures Do(b, [cmd] + more, isSpace) == Do(Apply(b, cmd, isSpace), more, isSpace)
  {
    CursorInText(b, cmd, isSpace);
    hide Apply;
    assert ([cmd] + more)[1..] == more;
  }

  lemma OneInserted(t: seq<CodePoint>, i: nat, c: CodePoint, u: seq<CodePoint>)
    requires i <= |t|
    ensures var n := t[..i] + [c] + t[i..]; n[..i + 1] + u + n[i + 1..] == t[..i] + ([c] + u) + t[i..]
  {
    var n := t[..i] + [c] + t[i..];
    assert n[..i + 1] == t[..i] + [c] && n[i + 1..] == t[i..];
  }

  /** What is typed stands in front of the cursor, in its order, and the rest of the line around it stays. */
  lemma {:induction false} TypedText(b: Buffer, u: seq<CodePoint>, w: int, isSpace: CodePoint -> bool)
    requires b.cursor <= |b.text|
    ensures Do(b, Typing(u, w), isSpace) == Buffer(b.text[..b.cursor] + u + b.text[b.cursor..], b.cursor + |u|)
    decreases |u|
  {
    var t, i := b.text, b.cursor;
    if u == [] {
      assert t[..i] + u + t[i..] == t;
    } else {
      var c, more := u[0], u[1..];
      var next := Buffer(t[..i] + [c] + t[i..], i + 1);
      assert Apply(b, Insert(c, w), isSpace) == next;
      assert Typing(u, w) == [Insert(c, w)] + Typing(more, w) && u == [c] + more;
      hide *;
      DoFirst(b, Insert(c, w), Typing(more, w), isSpace);
      TypedText(next, more, w, isSpace);
      OneInserted(t, i, c, more);
    }
  }

  lemma OneErased(t: seq<CodePoint>, i: nat, k: nat)
    requires k < i <= |t|
    ensures var n := t[..i - 1] + t[i..]; n[..k] + n[i - 1..] == t[..k] + t[i..]
  {
    var n := t[..i - 1] + t[i..];
    assert n[..k] == t[..k] && n[i - 1..] == t[i..];
  }

  lemma NothingErased(t: seq<CodePoint>, i: nat)
    requires i <= |t|
    ensures t[..i] + t[i..] == t
  {
  }

  /** Erasing takes the characters in front of the cursor, the last one first, and stops at the start of the line. */
  lemma {:induction false} ErasedText(b: Buffer, n: nat, isSpace: CodePoint -> bool)
    requires b.cursor <= |b.text|
    ensures var k := if n < b.cursor then b.cursor - n else 0;
      Do(b, Times(n, Backspace), isSpace) == Buffer(b.text[..k] + b.text[b.cursor..], k)
    decreases n
  {
    var t, i := b.text, b.cursor;
    if n == 0 {
      NothingErased(t, i);
    } else {
      var next := if i > 0 then Buffer(t[..i - 1] + t[i..], i - 1) else b;
      assert Apply(b, Backspace, isSpace) == next;
      assert Times(n, Backspace) == [Backspace] + Times(n - 1, Backspace);
      hide *;
      DoFirst(b, Backspace, Times(n - 1, Backspace), isSpace);
      ErasedText(next, n - 1, isSpace);
      if i > 0 {
        OneErased(t, i, if n < i then i - n else 0);
      }
    }
  }

  lemma AroundTyped(t: seq<CodePoint>, i: nat, u: seq<CodePoint>)
    requires i <= |t|
    ensures var n := t[..i] + u + t[i..]; n[..i] + n[i + |u|..] == t
  {
    var n := t[..i] + u + t[i..];
    assert n[..i] == t[..i] && n[i + |u|..] == t[i..];
  }

  /** Erasing as much as was typed restores the line. */
  lemma TypedThenErased(b: Buffer, u: seq<CodePoint>, w: int, isSpace: CodePoint -> bool)
    requires b.cursor <= |b.text|
    ensures Do(b, Typing(u, w) + Times(|u|, Backspace), isSpace) == b
  {
    hide *;
    var t, i := b.text, b.cursor;
    var typed := Buffer(t[..i] + u + t[i..], i + |u|);
    DoBoth(b, Typing(u, w), Times(|u|, Backspace), isSpace);
    TypedText(b, u, w, isSpace);
    ErasedText(typed, |u|, isSpace);
    AroundTyped(t, i, u);
  }

  /** Steps move by one character and stop at the ends of the line, which stays as it is. */
  lemma {:induction false} Stepped(b: Buffer, n: nat, isSpace: CodePoint -> bool)
    requires b.cursor <= |b.text|
    ensures var Buffer(t, i) := b;
      && Do(b, Times(n, Left), isSpace) == Buffer(t, if n < i then i - n else 0)
      && Do(b, Times(n, Right), isSpace) == Buffer(t, if n < |t| - i then i + n else |t|)
    decreases n
  {
    if n > 0 {
      assert Times(n, Left)[1..] == Times(n - 1, Left) && Times(n, Right)[1..] == Times(n - 1, Right);
      Stepped(Apply(b, Left, isSpace), n - 1, isSpace);
      Stepped(Apply(b, Right, isSpace), n - 1, isSpace);
    }
  }

  lemma DoTwo(b: Buffer, x: Command, y: Command, isSpace: CodePoint -> bool)
    requires b.cursor <= |b.text|
    ensures Apply(b, x, isSpace).cursor <= |Apply(b, x, isSpace).text|
    ensures Do(b, [x], isSpace) == Apply(b, x, isSpace)
    ensures Do(b, [x, y], isSpace) == Apply(Apply(b, x, isSpace), y, isSpace)
  {
    hide Apply;
    DoFirst(b, x, [y], isSpace);
    DoFirst(b, x, [], isSpace);
    DoFirst(Apply(b, x, isSpace), y, [], isSpace);
    assert [x] + [y] == [x, y] && [x] + [] == [x] && [y] + [] == [y];
  }

  /** Deleting is erasing from the other side. */
  lemma DeleteErases(b: Buffer, isSpace: CodePoint -> bool)
    requires b.cursor <= |b.text|
    ensures b.cursor > 0 ==> Do(b, [Left, Delete], isSpace) == Do(b, [Backspace], isSpace)
    ensures b.cursor < |b.text| ==> Do(b, [Right, Backspace], isSpace) == Do(b, [Delete], isSpace)
  {
    DoTwo(b, Left, Delete, isSpace);
    DoTwo(b, Backspace, Backspace, isSpace);
    DoTwo(b, Right, Backspace, isSpace);
    DoTwo(b, Delete, Delete, isSpace);
    hide Do;
  }

  lemma AtEnds(b: Buffer, isSpace: CodePoint -> bool)
    requires b.cursor <= |b.text|
    ensures Apply(b, End, isSpace) == Buffer(b.text, |b.text|) && Apply(b, Home, isSpace) == Buffer(b.text, 0)
  {
  }

  // The whole line is erased from its end.
  lemma Emptied(b: Buffer, more: seq<Command>, isSpace: CodePoint -> bool)
    requires b.cursor <= |b.text|
    ensures Do(b, [End] + Times(|b.text|, Backspace) + more, isSpace) == Do(Buffer([], 0), more, isSpace)
  {
    hide *;
    var n := |b.text|;
    var erase := Times(n, Backspace);
    assert [End] + erase + more == [End] + (erase + more);
    DoFirst(b, End, erase + more, isSpace);
    AtEnds(b, isSpace);
    DoBoth(Buffer(b.text, n), erase, more, isSpace);
    ErasedText(Buffer(b.text, n), n, isSpace);
    assert b.text[..0] + b.text[n..] == [];
  }

  /** Every line can be replaced by every other one at the keyboard, and any text can be put in front of it. */
  lemma Retyped(b: Buffer, u: seq<CodePoint>, w: int, isSpace: CodePoint -> bool)
    requires b.cursor <= |b.text|
    ensures Do(b, [End] + Times(|b.text|, Backspace) + Typing(u, w), isSpace) == Buffer(u, |u|)
    ensures Do(b, [Home] + Typing(u, w), isSpace) == Buffer(u + b.text, |u|)
  {
    hide *;
    Emptied(b, Typing(u, w), isSpace);
    TypedText(Buffer([], 0), u, w, isSpace);
    OnlyTyped([], u);
    DoFirst(b, Home, Typing(u, w), isSpace);
    AtEnds(b, isSpace);
    TypedText(Buffer(b.text, 0), u, w, isSpace);
    OnlyTyped(b.text, u);
  }

  lemma OnlyTyped(t: seq<CodePoint>, u: seq<CodePoint>)
    ensures t[..0] + u + t[0..] == u + t
    ensures t == [] ==> u + t == u
  {
  }

  // ---------- widths ----------

  // A command brings the widths that m measures.
  ghost predicate Brings(cmd: Command, m: CodePoint -> int) {
    && (cmd.Insert? ==> cmd.measured == m(cmd.c))
    && (cmd.Replace? ==> forall c :: cmd.measure(c) == m(c))
  }

  lemma {:induction false} MeasuredConcat(a: seq<CodePoint>, b: seq<CodePoint>, m: CodePoint -> int)
    ensures Measured(a + b, m) == Measured(a, m) + Measured(b, m)
  {
    hide NonNegative;
    if a == [] {
      assert a + b == b;
    } else {
      assert (a + b)[1..] == a[1..] + b;
      MeasuredConcat(a[1..], b, m);
    }
  }

  lemma MeasuredParts(t: seq<CodePoint>, i: nat, m: CodePoint -> int)
    requires i <= |t|
    ensures Measured(t, m)[..i] == Measured(t[..i], m) && Measured(t, m)[i..] == Measured(t[i..], m)
  {
    assert t == t[..i] + t[i..];
    MeasuredConcat(t[..i], t[i..], m);
  }

  lemma {:induction false} MeasuredAlike(t: seq<CodePoint>, x: CodePoint -> int, m: CodePoint -> int)
    requires forall c :: x(c) == m(c)
    ensures Measured(t, x) == Measured(t, m)
  {
    if t != [] {
      MeasuredAlike(t[1..], x, m);
    }
  }

  lemma WidthsInserted(t: seq<CodePoint>, i: nat, c: CodePoint, m: CodePoint -> int)
    requires i <= |t|
    ensures var ws := Measured(t, m); ws[..i] + [NonNegative(m(c))] + ws[i..] == Measured(t[..i] + [c] + t[i..], m)
  {
    MeasuredParts(t, i, m);
    MeasuredConcat(t[..i] + [c], t[i..], m);
    MeasuredConcat(t[..i], [c], m);
    assert Measured([c], m) == [NonNegative(m(c))] by {
      assert [c][1..] == [];
    }
    hide Measured, NonNegative;
  }

  lemma WidthsErased(t: seq<CodePoint>, i: nat, k: nat, m: CodePoint -> int)
    requires i <= k <= |t|
    ensures Measured(t, m)[..i] + Measured(t, m)[k..] == Measured(t[..i] + t[k..], m)
  {
    hide Measured;
    MeasuredParts(t, i, m);
    MeasuredParts(t, k, m);
    MeasuredConcat(t[..i], t[k..], m);
  }

  /** Every character keeps the width that was measured for it, whatever is inserted or erased around it. */
  lemma WidthsStay(b: Buffer, cmd: Command, m: CodePoint -> int, isSpace: CodePoint -> bool)
    requires b.cursor <= |b.text| && Brings(cmd, m)
    ensures ApplyWidths(b, Measured(b.text, m), cmd, isSpace) == Measured(Apply(b, cmd, isSpace).text, m)
  {
    hide WordLeft, WordRight, CursorAt, Measured, NonNegative;
    var t, i := b.text, b.cursor;
    match cmd
    case Insert(c, _) => WidthsInserted(t, i, c, m);
    case Backspace =>
      if i > 0 {
        WidthsErased(t, i - 1, i, m);
      }
    case Delete =>
      if i < |t| {
        WidthsErased(t, i, i + 1, m);
      }
    case Replace(u, _, measure) => MeasuredAlike(u, measure, m);
    case _ =>
  }
}
