/** The line editor: an encoded line, one recorded width per character, two cursor positions and the terminal
    behind them, refining a plain text with a cursor. */
module LineEditor {
  import opened Utf8
  import opened Terminal

  // ---------- what is on the screen ----------

  function Sum(ws: seq<nat>): nat {
    if ws == [] then 0 else ws[0] + Sum(ws[1..])
  }

  lemma {:induction false} SumConcat(a: seq<nat>, b: seq<nat>)
    ensures Sum(a + b) == Sum(a) + Sum(b)
  {
    if a == [] {
      assert a + b == b;
    } else {
      assert (a + b)[1..] == a[1..] + b;
      SumConcat(a[1..], b);
    }
  }

  // The column where character i starts.
  function ColumnOf(ws: seq<nat>, i: nat): nat
    requires i <= |ws|
  {
    Sum(ws[..i])
  }

  lemma {:induction false} ColumnStep(ws: seq<nat>, i: nat)
    requires i < |ws|
    ensures ColumnOf(ws, i + 1) == ColumnOf(ws, i) + ws[i]
  {
    assert ws[..i + 1] == ws[..i] + [ws[i]];
    SumConcat(ws[..i], [ws[i]]);
    assert [ws[i]][1..] == [];
  }

  lemma {:induction false} ColumnTotal(ws: seq<nat>, i: nat)
    requires i <= |ws|
    ensures ColumnOf(ws, i) + Sum(ws[i..]) == Sum(ws)
    ensures ColumnOf(ws, |ws|) == Sum(ws) && ColumnOf(ws, 0) == 0
  {
    assert ws == ws[..i] + ws[i..];
    SumConcat(ws[..i], ws[i..]);
    assert ws[..|ws|] == ws;
  }

  // The cells of a text, left to right.
  function Row(t: seq<CodePoint>, ws: seq<nat>): (r: seq<Cell>)
    requires |t| == |ws|
    ensures |r| == Sum(ws)
  {
    if t == [] then [] else GlyphCells(t[0], ws[0]) + Row(t[1..], ws[1..])
  }

  function GlyphCells(c: CodePoint, w: nat): (r: seq<Cell>)
    ensures |r| == w
  {
    seq(w, k => Glyph(Encode(c), k))
  }

  lemma {:induction false} RowConcat(a: seq<CodePoint>, b: seq<CodePoint>, wa: seq<nat>, wb: seq<nat>)
    requires |a| == |wa| && |b| == |wb|
    ensures Row(a + b, wa + wb) == Row(a, wa) + Row(b, wb)
  {
    if a == [] {
      assert a + b == b && wa + wb == wb;
    } else {
      assert (a + b)[1..] == a[1..] + b && (wa + wb)[1..] == wa[1..] + wb;
      RowConcat(a[1..], b, wa[1..], wb);
      assert GlyphCells(a[0], wa[0]) + (Row(a[1..], wa[1..]) + Row(b, wb))
          == GlyphCells(a[0], wa[0]) + Row(a[1..], wa[1..]) + Row(b, wb);
    }
  }

  // Cells outside columns a to b are as they were before.
  ghost predicate Kept(before: int -> Cell, now: int -> Cell, a: int, b: int) {
    forall j :: j < a || j >= b ==> now(j) == before(j)
  }

  // Columns a to b show the corresponding part of a row.
  ghost predicate Printed(now: int -> Cell, row: seq<Cell>, a: int, b: int) {
    0 <= a <= b <= |row| && forall j :: a <= j < b ==> now(j) == row[j]
  }

  lemma NothingPrinted(now: int -> Cell, row: seq<Cell>, a: int)
    requires 0 <= a <= |row|
    ensures Kept(now, now, a, a) && Printed(now, row, a, a)
  {
  }

  lemma PrintStep(before: int -> Cell, shown: int -> Cell, now: int -> Cell, row: seq<Cell>, a: int, m: int, b: int)
    requires Kept(before, shown, a, m) && Printed(shown, row, a, m)
    requires Kept(shown, now, m, b) && Printed(now, row, m, b)
    ensures Kept(before, now, a, b) && Printed(now, row, a, b)
  {
  }

  lemma BlanksStep(before: int -> Cell, shown: int -> Cell, now: int -> Cell, row: seq<Cell>, a: int, m: int, b: int)
    requires Kept(before, shown, a, m) && Printed(shown, row, a, m) && m <= b
    requires forall j :: now(j) == if m <= j < b then Blank else shown(j)
    ensures Kept(before, now, a, b) && Printed(now, row, a, m)
    ensures forall j :: m <= j < b ==> now(j) == Blank
  {
  }

  // The row and nothing else. What stands left of the line, such as a prompt, is a blank margin that has to stay.
  ghost predicate Shows(cells: int -> Cell, row: seq<Cell>) {
    Printed(cells, row, 0, |row|) && forall j :: j < 0 || j >= |row| ==> cells(j) == Blank
  }

  lemma RowShown(cleared: int -> Cell, now: int -> Cell, row: seq<Cell>)
    requires forall j :: cleared(j) == Blank
    requires Kept(cleared, now, 0, |row|) && Printed(now, row, 0, |row|)
    ensures Shows(now, row)
  {
  }

  lemma CharPrinted(before: int -> Cell, now: int -> Cell, row: seq<Cell>, a: int, b: int, bytes: seq<Byte>)
    requires 0 <= a <= b <= |row|
    requires forall j :: now(j) == if a <= j < b then Glyph(bytes, j - a) else before(j)
    requires forall j :: a <= j < b ==> row[j] == Glyph(bytes, j - a)
    ensures Kept(before, now, a, b) && Printed(now, row, a, b)
  {
  }

  // The widths recorded for a text when each character measures as given.
  function Measured(t: seq<CodePoint>, measure: CodePoint -> int): (ws: seq<nat>)
    ensures |ws| == |t| && forall i :: 0 <= i < |t| ==> ws[i] == NonNegative(measure(t[i]))
  {
    if t == [] then [] else [NonNegative(measure(t[0]))] + Measured(t[1..], measure)
  }

  // ---------- the abstract editor ----------

  datatype Buffer = Buffer(text: seq<CodePoint>, cursor: nat)

  // Going left from i over characters that are spaces (or that are not).
  function BackOver(t: seq<CodePoint>, i: nat, isSpace: CodePoint -> bool, spaces: bool): (r: nat)
    requires i <= |t|
    ensures r <= i && (r > 0 ==> isSpace(t[r - 1]) != spaces)
    ensures forall k :: r <= k < i ==> isSpace(t[k]) == spaces
  {
    if i > 0 && isSpace(t[i - 1]) == spaces then BackOver(t, i - 1, isSpace, spaces) else i
  }

  function Over(t: seq<CodePoint>, i: nat, isSpace: CodePoint -> bool, spaces: bool): (r: nat)
    requires i <= |t|
    ensures i <= r <= |t| && (r < |t| ==> isSpace(t[r]) != spaces)
    ensures forall k :: i <= k < r ==> isSpace(t[k]) == spaces
    decreases |t| - i
  {
    if i < |t| && isSpace(t[i]) == spaces then Over(t, i + 1, isSpace, spaces) else i
  }

  // The start of the word before i: spaces are skipped, then the word.
  function WordLeft(t: seq<CodePoint>, i: nat, isSpace: CodePoint -> bool): nat
    requires i <= |t|
  {
    BackOver(t, BackOver(t, i, isSpace, true), isSpace, false)
  }

  // The start of the next word: spaces, a word and the spaces behind it are skipped.
  function WordRight(t: seq<CodePoint>, i: nat, isSpace: CodePoint -> bool): nat
    requires i <= |t|
  {
    Over(t, Over(t, Over(t, i, isSpace, true), isSpace, false), isSpace, true)
  }

  // A word begins at k.
  predicate WordStart(t: seq<CodePoint>, k: nat, isSpace: CodePoint -> bool) {
    k < |t| && !isSpace(t[k]) && (k == 0 || isSpace(t[k - 1]))
  }

  /** A move to the right leaves the word that the cursor is in or in front of, and ends where the next one begins, or
      at the end of the text. */
  lemma WordRightEnds(t: seq<CodePoint>, i: nat, isSpace: CodePoint -> bool)
    requires i <= |t|
    ensures var r := WordRight(t, i, isSpace);
      && i <= r <= |t|
      && (r == |t| || (WordStart(t, r, isSpace) && exists k :: i <= k < r && !isSpace(t[k])))
      && forall m, k :: i <= k < m < r && !isSpace(t[k]) ==> !WordStart(t, m, isSpace)
  {
    var a := Over(t, i, isSpace, true);
    var b := Over(t, a, isSpace, false);
    var r := Over(t, b, isSpace, true);
    if r < |t| {
      assert a < |t| && !isSpace(t[a]) && a < b < r;
    }
  }

  /** A move to the left ends at the nearest place before the cursor where a word begins, or at the start. */
  lemma WordLeftEnds(t: seq<CodePoint>, i: nat, isSpace: CodePoint -> bool)
    requires i <= |t|
    ensures var r := WordLeft(t, i, isSpace);
      && r <= i && (r == 0 || (r < i && WordStart(t, r, isSpace)))
      && forall m :: r < m < i ==> !WordStart(t, m, isSpace)
  {
    var a := BackOver(t, i, isSpace, true);
    var r := BackOver(t, a, isSpace, false);
    if r > 0 {
      assert r < a;
    }
  }

  /** From the start of a word to the next one and back. */
  lemma RightThenLeft(t: seq<CodePoint>, i: nat, isSpace: CodePoint -> bool)
    requires WordStart(t, i, isSpace)
    ensures WordLeft(t, WordRight(t, i, isSpace), isSpace) == i
  {
    var r := WordRight(t, i, isSpace);
    hide WordRight, WordLeft;
    WordRightEnds(t, i, isSpace);
    WordLeftEnds(t, r, isSpace);
    var l := WordLeft(t, r, isSpace);
    assert i < r;
    assert l >= i;
  }

  // The last character boundary at or before a byte position of a new line; without one, the end.
  function CursorAt(t: seq<CodePoint>, i: nat, bytePos: int): (r: nat)
    requires i <= |t|
    ensures i <= r <= |t|
    ensures i < r ==> bytePos < 0 || Offset(t, r) <= bytePos
    ensures r < |t| ==> 0 <= bytePos < Offset(t, r + 1)
    decreases |t| - i
  {
    if i < |t| && (bytePos < 0 || Offset(t, i + 1) <= bytePos) then CursorAt(t, i + 1, bytePos) else i
  }

  datatype Command =
    | Insert(c: CodePoint, measured: int)
    | Backspace | Delete | Left | Right | GoWordLeft | GoWordRight | Home | End
    | Replace(text: seq<CodePoint>, cursorByte: int, measure: CodePoint -> int)

  function Apply(b: Buffer, cmd: Command, isSpace: CodePoint -> bool): Buffer
    requires b.cursor <= |b.text|
  {
    var Buffer(t, i) := b;
    match cmd
    case Insert(c, _) => Buffer(t[..i] + [c] + t[i..], i + 1)
    case Backspace => if i > 0 then Buffer(t[..i - 1] + t[i..], i - 1) else b
    case Delete => if i < |t| then Buffer(t[..i] + t[i + 1..], i) else b
    case Left => if i > 0 then Buffer(t, i - 1) else b
    case Right => if i < |t| then Buffer(t, i + 1) else b
    case GoWordLeft => Buffer(t, WordLeft(t, i, isSpace))
    case GoWordRight => Buffer(t, WordRight(t, i, isSpace))
    case Home => Buffer(t, 0)
    case End => Buffer(t, |t|)
    case Replace(u, k, _) => Buffer(u, CursorAt(u, 0, k))
  }

  function NonNegative(w: int): nat {
    if w < 0 then 0 else w
  }

  // The widths after a command: those of the characters that stay, and a measured one for each new character.
  function ApplyWidths(b: Buffer, ws: seq<nat>, cmd: Command, isSpace: CodePoint -> bool): (r: seq<nat>)
    requires b.cursor <= |b.text| == |ws|
    ensures |r| == |Apply(b, cmd, isSpace).text|
  {
    var i := b.cursor;
    match cmd
    case Insert(_, measured) => ws[..i] + [NonNegative(measured)] + ws[i..]
    case Backspace => if i > 0 then ws[..i - 1] + ws[i..] else ws
    case Delete => if i < |ws| then ws[..i] + ws[i + 1..] else ws
    case Replace(u, _, measure) => Measured(u, measure)
    case _ => ws
  }

  // ---------- redrawing a trailing slash ----------

  predicate EndsInSlash(t: seq<CodePoint>) {
    var s := EncodeAll(t);
    s != [] && (s[|s| - 1] == 0x5C || s[|s| - 1] == 0x2F)
  }

  // The last byte of the text is the whole of the last character that is visible before the cursor, one column wide.
  predicate RedrawFits(t: seq<CodePoint>, ws: seq<nat>, i: nat)
    requires i <= |t| == |ws| && EncodeAll(t) != []
  {
    exists k :: 0 <= k < i && FitsAt(t, ws, i, k)
  }

  predicate FitsAt(t: seq<CodePoint>, ws: seq<nat>, i: nat, k: nat)
    requires k < i <= |t| == |ws| && EncodeAll(t) != []
  {
    var s := EncodeAll(t);
    ws[k] == 1 && Encode(t[k]) == [s[|s| - 1]] && forall m :: k < m < i ==> ws[m] == 0
  }

  // What the terminal shows is determined by the text, the widths, the cursor, and whether a slash was just redrawn.
  datatype Display = Display(buffer: Buffer, widths: seq<nat>, special: bool)

  predicate IsDisplay(d: Display) {
    d.buffer.cursor <= |d.buffer.text| == |d.widths|
  }

  predicate Fits(d: Display)
    requires IsDisplay(d) && EncodeAll(d.buffer.text) != []
  {
    RedrawFits(d.buffer.text, d.widths, d.buffer.cursor)
  }

  predicate IsCompletion(cmd: Command) {
    cmd.Replace? && cmd.cursorByte >= 0
  }

  // One round of the input loop. A completion skips the redrawing of a trailing slash or backslash.
  function Advance(d: Display, cmd: Command, isSpace: CodePoint -> bool): (r: Display)
    requires IsDisplay(d)
    ensures IsDisplay(r)
  {
    var b := Apply(d.buffer, cmd, isSpace);
    var special := if IsCompletion(cmd) then d.special else EndsInSlash(b.text);
    Display(b, ApplyWidths(d.buffer, d.widths, cmd, isSpace), special)
  }

  // A round redraws a slash before the command and a slash after it.
  predicate FirstFits(d: Display, cmd: Command)
    requires IsDisplay(d)
  {
    !IsCompletion(cmd) && d.special && EncodeAll(d.buffer.text) != [] ==> Fits(d)
  }

  predicate SecondFits(d: Display, cmd: Command, isSpace: CodePoint -> bool)
    requires IsDisplay(d)
  {
    var r := Advance(d, cmd, isSpace);
    !IsCompletion(cmd) && r.special ==> Fits(r)
  }

  predicate RoundHarmless(d: Display, cmd: Command, isSpace: CodePoint -> bool)
    requires IsDisplay(d)
  {
    FirstFits(d, cmd) && SecondFits(d, cmd, isSpace)
  }

  // The source reads the last byte of the line to redraw it, which it must not do when there is none.
  predicate RoundDefined(d: Display, cmd: Command) {
    !IsCompletion(cmd) && d.special ==> EncodeAll(d.buffer.text) != []
  }

  predicate RunHarmless(d: Display, cmds: seq<Command>, isSpace: CodePoint -> bool)
    requires IsDisplay(d)
    decreases cmds
  {
    cmds == [] || (RoundHarmless(d, cmds[0], isSpace) && RunHarmless(Advance(d, cmds[0], isSpace), cmds[1..], isSpace))
  }

  predicate RunDefined(d: Display, cmds: seq<Command>, isSpace: CodePoint -> bool)
    requires IsDisplay(d)
    decreases cmds
  {
    cmds == [] || (RoundDefined(d, cmds[0]) && RunDefined(Advance(d, cmds[0], isSpace), cmds[1..], isSpace))
  }

  function AdvanceAll(d: Display, cmds: seq<Command>, isSpace: CodePoint -> bool): (r: Display)
    requires IsDisplay(d)
    ensures IsDisplay(r)
    decreases cmds
  {
    if cmds == [] then d else AdvanceAll(Advance(d, cmds[0], isSpace), cmds[1..], isSpace)
  }

  // ---------- the editor ----------

  class Editor {
    var line: seq<Byte>
    var widths: seq<nat>
    var charPos: nat
    var bytePos: nat
    const term: Terminal
    const isSpace: CodePoint -> bool
    var special: bool        // a trailing slash or backslash was just printed
    ghost var text: seq<CodePoint>

    constructor (isSpace: CodePoint -> bool)
      ensures Valid() && Shown() && fresh(term) && this.isSpace == isSpace
      ensures State() == Display(Buffer([], 0), [], false)
    {
      line, widths, charPos, bytePos, text := [], [], 0, 0, [];
      special := false;
      term := new Terminal();
      this.isSpace := isSpace;
    }

    // Line, widths, the two positions and the terminal column are in step with the text.
    ghost predicate Valid()
      reads this, term
    {
      && IsText(text)
      && line == EncodeAll(text)
      && |widths| == |text|
      && charPos <= |text|
      && bytePos == Offset(text, charPos)
      && term.column == ColumnOf(widths, charPos)
    }

    // The screen shows exactly the text.
    ghost predicate Shown()
      reads this, term
      requires |widths| == |text|
    {
      Shows(term.cells, Row(text, widths))
    }

    ghost function Abs(): Buffer
      reads this
    {
      Buffer(text, charPos)
    }

    ghost function State(): Display
      reads this
    {
      Display(Abs(), widths, special)
    }

    method MoveLeft()
      requires Valid()
      modifies this`charPos, this`bytePos, term`column
      ensures Valid() && Abs() == Apply(old(Abs()), Left, isSpace)
      ensures old(Shown()) ==> Shown()
    {
      hide Encode, Decode, EncodeAll, SkipBack, SkipForward, Sum, WordLeft, WordRight, CursorAt;
      if charPos > 0 {
        Boundaries(text, charPos - 1);
        ColumnStep(widths, charPos - 1);
        var w: int := widths[charPos - 1];
        term.MoveCursor(-w);
        charPos := charPos - 1;
        bytePos := PrevCharPos(line, bytePos);
      }
    }

    method MoveRight()
      requires Valid()
      modifies this`charPos, this`bytePos, term`column
      ensures Valid() && Abs() == Apply(old(Abs()), Right, isSpace)
      ensures old(Shown()) ==> Shown()
    {
      hide Encode, Decode, EncodeAll, SkipBack, SkipForward, Sum, WordLeft, WordRight, CursorAt;
      if charPos < |widths| {
        Boundaries(text, charPos);
        ColumnStep(widths, charPos);
        term.MoveCursor(widths[charPos]);
        charPos := charPos + 1;
        bytePos := NextCharPos(line, bytePos);
      }
    }

    method MoveToLineStart()
      requires Valid()
      modifies this`charPos, this`bytePos, term`column
      ensures Valid() && Abs() == Apply(old(Abs()), Home, isSpace)
      ensures old(Shown()) ==> Shown()
    {
      hide EncodeAll, WordLeft, WordRight, CursorAt;
      ColumnTotal(widths, 0);
      OffsetEnd(text);
      var backWidth: int := 0;
      for i := 0 to charPos
        modifies {}
        invariant backWidth == ColumnOf(widths, i)
      {
        ColumnStep(widths, i);
        backWidth := backWidth + widths[i];
      }
      term.MoveCursor(-backWidth);
      charPos, bytePos := 0, 0;
    }

    method MoveToLineEnd()
      requires Valid()
      modifies this`charPos, this`bytePos, term`column
      ensures Valid() && Abs() == Apply(old(Abs()), End, isSpace)
      ensures old(Shown()) ==> Shown()
    {
      hide EncodeAll, WordLeft, WordRight, CursorAt;
      var forwardWidth: int := 0;
      for i := charPos to |widths|
        modifies {}
        invariant ColumnOf(widths, charPos) + forwardWidth == ColumnOf(widths, i)
      {
        ColumnStep(widths, i);
        forwardWidth := forwardWidth + widths[i];
      }
      term.MoveCursor(forwardWidth);
      OffsetEnd(text);
      charPos, bytePos := |widths|, |line|;
    }

    method MoveWordLeft()
      requires Valid()
      modifies this`charPos, this`bytePos, term`column
      ensures Valid() && Abs() == Apply(old(Abs()), GoWordLeft, isSpace)
      ensures old(Shown()) ==> Shown()
    {
      hide EncodeAll, CursorAt, Sum, Offset, BackOver;
      if charPos == 0 {
        return;
      }
      var i, b, w := SkipBackOver(charPos, bytePos, 0, true);
      i, b, w := SkipBackOver(i, b, w, false);
      term.MoveCursor(-w);
      charPos, bytePos := i, b;
    }

    // One of the two loops of a word move to the left: i and b are a position, w the width passed so far.
    method SkipBackOver(start: nat, startByte: nat, startWidth: int, spaces: bool) returns (i: nat, b: nat, w: int)
      requires Valid() && start <= charPos && startByte == Offset(text, start)
      requires startWidth == ColumnOf(widths, charPos) - ColumnOf(widths, start)
      ensures i == BackOver(text, start, isSpace, spaces) && b == Offset(text, i)
      ensures w == ColumnOf(widths, charPos) - ColumnOf(widths, i)
    {
      hide Encode, Decode, EncodeAll, SkipBack, SkipForward, Sum;
      i, b, w := start, startByte, startWidth;
      while i > 0
        invariant i <= start && b == Offset(text, i) && w == ColumnOf(widths, charPos) - ColumnOf(widths, i)
        invariant BackOver(text, i, isSpace, spaces) == BackOver(text, start, isSpace, spaces)
      {
        Boundaries(text, i - 1);
        ColumnStep(widths, i - 1);
        var prev := PrevCharPos(line, b);
        var cp := Decode(line[prev..]).0;
        if isSpace(cp) != spaces {
          break;
        }
        w := w + widths[i - 1];
        i := i - 1;
        b := prev;
      }
    }

    method MoveWordRight()
      requires Valid()
      modifies this`charPos, this`bytePos, term`column
      ensures Valid() && Abs() == Apply(old(Abs()), GoWordRight, isSpace)
      ensures old(Shown()) ==> Shown()
    {
      if charPos >= |widths| {
        return;
      }
      var i, b, w := SkipOver(charPos, bytePos, 0, true);
      i, b, w := SkipOver(i, b, w, false);
      i, b, w := SkipOver(i, b, w, true);
      term.MoveCursor(w);
      charPos, bytePos := i, b;
    }

    method SkipOver(start: nat, startByte: nat, startWidth: int, spaces: bool) returns (i: nat, b: nat, w: int)
      requires Valid() && charPos <= start <= |text| && startByte == Offset(text, start)
      requires startWidth == ColumnOf(widths, start) - ColumnOf(widths, charPos)
      ensures i == Over(text, start, isSpace, spaces) && b == Offset(text, i)
      ensures w == ColumnOf(widths, i) - ColumnOf(widths, charPos)
    {
      hide Encode, Decode, EncodeAll, SkipBack, SkipForward, Sum;
      i, b, w := start, startByte, startWidth;
      while i < |widths|
        invariant start <= i <= |text| && b == Offset(text, i) && w == ColumnOf(widths, i) - ColumnOf(widths, charPos)
        invariant Over(text, i, isSpace, spaces) == Over(text, start, isSpace, spaces)
      {
        Boundaries(text, i);
        ColumnStep(widths, i);
        var (cp, advance) := Decode(line[b..]);
        if isSpace(cp) != spaces {
          break;
        }
        w := w + widths[i];
        i := i + 1;
        b := b + advance;
      }
    }

    // Prints the characters from index `from` on, starting at byte p, and goes back to where it started printing.
    // blanks more columns after them are cleared.
    method RedrawTail(from: nat, p: nat, blanks: nat)
      requires IsText(text) && line == EncodeAll(text) && |widths| == |text|
      requires from <= |text| && p == Offset(text, from) && term.column == ColumnOf(widths, from)
      modifies term
      ensures term.column == old(term.column) <= Sum(widths)
      ensures Printed(term.cells, Row(text, widths), term.column, Sum(widths))
      ensures forall j :: Sum(widths) <= j < Sum(widths) + blanks ==> term.cells(j) == Blank
      ensures Kept(old(term.cells), term.cells, term.column, Sum(widths) + blanks)
    {
      hide Encode, Decode, EncodeAll, SkipForward, Sum, Row, GlyphCells, ColumnOf, Offset, Kept, Printed;
      ghost var row := Row(text, widths);
      var start, before := term.column, term.cells;
      var q, tailWidth: int := p, 0;
      ColumnTotal(widths, from);
      NothingPrinted(before, row, start);
      for i := from to |widths|
        invariant q == Offset(text, i) && tailWidth >= 0
        invariant start + tailWidth == ColumnOf(widths, i) == term.column <= |row|
        invariant Kept(before, term.cells, start, term.column) && Printed(term.cells, row, start, term.column)
      {
        ghost var shown, at := term.cells, term.column;
        RowAt(text, widths, i);
        Boundaries(text, i);
        BytesAt(text, i);
        var next := NextCharPos(line, q);
        PrintChar(line[q..next], i);
        PrintStep(before, shown, term.cells, row, start, at, term.column);
        tailWidth := tailWidth + widths[i];
        q := next;
      }
      ColumnTotal(widths, |widths|);
      ghost var drawn := term.cells;
      term.PutBlanks(blanks);
      BlanksStep(before, drawn, term.cells, row, start, |row|, term.column);
      term.MoveCursor(-(tailWidth + blanks));
    }

    method PrintChar(bytes: seq<Byte>, i: nat)
      requires |widths| == |text| && i < |text| && bytes == Encode(text[i]) && term.column == ColumnOf(widths, i)
      modifies term
      ensures term.column == ColumnOf(widths, i + 1) <= Sum(widths) && old(term.column) <= term.column
      ensures Kept(old(term.cells), term.cells, old(term.column), term.column)
      ensures Printed(term.cells, Row(text, widths), old(term.column), term.column)
    {
      hide Encode, Sum, Row, ColumnOf;
      RowAt(text, widths, i);
      term.PutCodepoint(bytes, widths[i]);
    }

    method EraseAt(i: nat, p: nat)
      requires IsText(text) && line == EncodeAll(text) && |widths| == |text|
      requires i < |text| && p == Offset(text, i) && term.column == ColumnOf(widths, i)
      modifies this`line, this`widths, this`text, term
      ensures text == old(text)[..i] + old(text)[i + 1..] && widths == old(widths)[..i] + old(widths)[i + 1..]
      ensures IsText(text) && line == EncodeAll(text)
      ensures p == Offset(text, i) && term.column == old(term.column) == ColumnOf(widths, i)
      ensures old(Shown()) ==> Shown()
    {
      hide Encode, Decode, EncodeAll, SkipForward, Sum, Row, GlyphCells;
      ghost var t, ws := text, widths;
      Boundaries(text, i);
      var next := NextCharPos(line, p);
      var w := widths[i];
      EraseBytes(text, i);
      EraseRow(text, widths, i);
      line := line[..p] + line[next..];
      text := text[..i] + text[i + 1..];
      widths := widths[..i] + widths[i + 1..];
      assert text[..i] == t[..i] && widths[..i] == ws[..i];
      RedrawTail(i, p, w);
    }

    method DeleteAtCursor()
      requires Valid()
      modifies this`line, this`widths, this`text, term
      ensures Valid() && Abs() == Apply(old(Abs()), Delete, isSpace)
      ensures widths == ApplyWidths(old(Abs()), old(widths), Delete, isSpace)
      ensures old(Shown()) ==> Shown()
    {
      if charPos >= |widths| {
        return;
      }
      EraseAt(charPos, bytePos);
    }

    method DoBackspace()
      requires Valid()
      modifies this`line, this`widths, this`text, this`charPos, this`bytePos, term
      ensures Valid() && Abs() == Apply(old(Abs()), Backspace, isSpace)
      ensures widths == ApplyWidths(old(Abs()), old(widths), Backspace, isSpace)
      ensures old(Shown()) ==> Shown()
    {
      if charPos > 0 {
        MoveLeft();
        EraseAt(charPos, bytePos);
      }
    }

    method InsertChar(c: CodePoint, measured: int)
      requires Valid() && c <= MAX_CODE_POINT
      modifies this`line, this`widths, this`text, this`charPos, this`bytePos, term
      ensures Valid() && Abs() == Apply(old(Abs()), Insert(c, measured), isSpace)
      ensures widths == ApplyWidths(old(Abs()), old(widths), Insert(c, measured), isSpace)
      ensures old(Shown()) ==> Shown()
    {
      hide Encode, Offset, ColumnOf, EncodeAll, Row, Sum;
      if charPos == |widths| {
        InsertAtEnd(c, NonNegative(measured));
      } else {
        InsertInside(c, NonNegative(measured));
      }
      bytePos := bytePos + |Encode(c)|;
      charPos := charPos + 1;
    }

    method InsertAtEnd(c: CodePoint, w: nat)
      requires Valid() && c <= MAX_CODE_POINT && charPos == |text|
      modifies this`line, this`widths, this`text, term
      ensures text == old(text) + [c] && widths == old(widths) + [w]
      ensures IsText(text) && line == EncodeAll(text)
      ensures Offset(text, charPos + 1) == bytePos + |Encode(c)| && term.column == ColumnOf(widths, charPos + 1)
      ensures old(Shown()) ==> Shown()
    {
      hide Encode, Decode, EncodeAll, Sum, Row, GlyphCells;
      ghost var t, ws, i := text, widths, charPos;
      InsertBytes(t, i, c);
      InsertRow(t, ws, i, c, w);
      ColumnTotal(ws, i);
      assert t[..i] == t && t[i..] == [] && ws[..i] == ws && ws[i..] == [];
      assert t[..i] + [c] + t[i..] == t + [c] && ws[..i] + [w] + ws[i..] == ws + [w];
      line := line + Encode(c);
      text := text + [c];
      term.PutCodepoint(Encode(c), w);
      widths := widths + [w];
    }

    method InsertInside(c: CodePoint, w: nat)
      requires Valid() && c <= MAX_CODE_POINT
      modifies this`line, this`widths, this`text, term
      ensures text == old(text)[..charPos] + [c] + old(text)[charPos..]
      ensures widths == old(widths)[..charPos] + [w] + old(widths)[charPos..]
      ensures IsText(text) && line == EncodeAll(text)
      ensures Offset(text, charPos + 1) == bytePos + |Encode(c)| && term.column == ColumnOf(widths, charPos + 1)
      ensures old(Shown()) ==> Shown()
    {
      hide Encode, Decode, EncodeAll, Sum, Row, GlyphCells;
      InsertBytes(text, charPos, c);
      InsertRow(text, widths, charPos, c, w);
      line := line[..bytePos] + Encode(c) + line[bytePos..];
      term.PutCodepoint(Encode(c), w);
      text := text[..charPos] + [c] + text[charPos..];
      widths := widths[..charPos] + [w] + widths[charPos..];
      RedrawTail(charPos + 1, bytePos + |Encode(c)|, 0);
    }

    // Blanks the whole line from its start on; zero-width characters get a blank of their own.
    method ClearCurrentLine()
      requires Valid() && term.column == 0
      modifies term
      ensures term.column == 0
      ensures old(Shown()) ==> forall j :: term.cells(j) == Blank
    {
      hide Row, EncodeAll;
      var total: nat := 0;
      for i := 0 to |widths|
        modifies {}
        invariant total >= ColumnOf(widths, i)
      {
        ColumnStep(widths, i);
        total := total + (if widths[i] > 0 then widths[i] else 1);
      }
      ColumnTotal(widths, 0);
      if total > 0 {
        term.PutBlanks(total);
        var back: int := total;
        term.MoveCursor(-back);
      }
    }

    // Replaces the line by the encoding of t and puts the cursor at a byte position, or at the end if that is negative.
    method SetLineContents(newLine: seq<Byte>, cursorByte: int, measure: CodePoint -> int, ghost t: seq<CodePoint>)
      requires Valid() && IsText(t) && newLine == EncodeAll(t)
      modifies this`line, this`widths, this`text, this`charPos, this`bytePos, term
      ensures Valid() && Abs() == Apply(old(Abs()), Replace(t, cursorByte, measure), isSpace)
      ensures widths == Measured(t, measure)
      ensures old(Shown()) ==> Shown()
    {
      hide Encode, Decode, EncodeAll, Row, Sum, ColumnOf, Offset, WordLeft, WordRight, Kept, Printed, Shows;
      ghost var shown := Shown();
      MoveToLineStart();
      ColumnTotal(widths, 0);
      ClearCurrentLine();
      ghost var cleared := term.cells;
      line, widths, text := newLine, [], t;
      bytePos, charPos := 0, 0;
      var backWidth := PrintLine(cursorByte, measure);
      ColumnTotal(widths, 0);
      if cursorByte >= 0 {
        term.MoveCursor(-backWidth);
      }
      if shown {
        RowShown(cleared, term.cells, Row(text, widths));
      }
    }

    // Prints the line and records its widths; the two positions stop at the cursor byte position.
    method PrintLine(cursorByte: int, measure: CodePoint -> int) returns (backWidth: int)
      requires IsText(text) && line == EncodeAll(text) && widths == []
      requires charPos == bytePos == 0 && term.column == 0
      modifies this`widths, this`charPos, this`bytePos, term
      ensures widths == Measured(text, measure)
      ensures |widths| == |text| && charPos == CursorAt(text, 0, cursorByte) <= |text|
      ensures bytePos == Offset(text, charPos)
      ensures backWidth == term.column - ColumnOf(widths, charPos) && term.column == Sum(widths)
      ensures cursorByte < 0 ==> backWidth == 0
      ensures Kept(old(term.cells), term.cells, 0, Sum(widths))
      ensures Printed(term.cells, Row(text, widths), 0, Sum(widths))
    {
      hide Encode, Decode, EncodeAll, Row, Sum, ColumnOf, Offset, Kept, Printed;
      ghost var cleared := term.cells;
      ghost var ws := Measured(text, measure);
      ghost var row := Row(text, ws);
      OffsetEnd(text);
      ColumnTotal(ws, 0);
      NothingPrinted(cleared, row, 0);
      var idx := 0;
      backWidth := 0;
      while idx < |line|
        invariant |widths| <= |text| && widths == ws[..|widths|] && idx == Offset(text, |widths|) <= |line|
        invariant charPos <= |widths| && bytePos == Offset(text, charPos)
        invariant CursorAt(text, charPos, cursorByte) == CursorAt(text, 0, cursorByte)
        invariant charPos < |widths| ==> 0 <= cursorByte < Offset(text, charPos + 1) <= idx
        invariant term.column == ColumnOf(ws, |widths|) && backWidth == term.column - ColumnOf(ws, charPos)
        invariant Kept(cleared, term.cells, 0, term.column) && Printed(term.cells, row, 0, term.column)
        decreases |line| - idx
      {
        ghost var i, at, before := |widths|, term.column, term.cells;
        InsideText(text, i);
        var next, realWidth := PrintNext(idx, measure, ws);
        PrintStep(cleared, before, term.cells, row, 0, at, term.column);
        idx := next;
        if cursorByte >= 0 && cursorByte < idx {
          backWidth := backWidth + realWidth;
        } else {
          charPos := charPos + 1;
          bytePos := idx;
        }
      }
      if |widths| < |text| {
        Boundaries(text, |widths|);
      }
      assert ws[..|ws|] == ws;
    }

    // Prints the next character of a line whose widths are being recorded.
    method PrintNext(idx: nat, measure: CodePoint -> int, ghost ws: seq<nat>) returns (next: nat, realWidth: nat)
      requires IsText(text) && line == EncodeAll(text) && ws == Measured(text, measure)
      requires |widths| < |text| && widths == ws[..|widths|] && idx == Offset(text, |widths|)
      requires term.column == ColumnOf(ws, |widths|)
      modifies this`widths, term
      ensures |widths| == |old(widths)| + 1 && widths == ws[..|widths|]
      ensures idx < next == Offset(text, |widths|) <= |line|
      ensures term.column == ColumnOf(ws, |widths|) == old(term.column) + realWidth
      ensures Kept(old(term.cells), term.cells, old(term.column), term.column)
      ensures Printed(term.cells, Row(text, ws), old(term.column), term.column)
    {
      hide Encode, Decode, EncodeAll, Row, Sum, ColumnOf, Offset, Kept, Printed, Measured, SkipForward, SkipBack;
      ghost var i, before := |widths|, term.cells;
      CharAt(text, ws, i);
      var (cp, advance) := Decode(line[idx..]);
      realWidth := NonNegative(measure(cp));
      term.PutCodepoint(line[idx..idx + advance], realWidth);
      CharInRow(before, term.cells, text, ws, i);
      assert ws[..i + 1] == ws[..i] + [ws[i]];
      widths := widths + [realWidth];
      next := idx + advance;
    }

    // Prints the last byte of the line once more, one column left of the cursor. Without the guard that the cursor
    // stands behind that very character this spoils the display, and only then.
    method RedrawLast()
      requires Valid() && line != []
      modifies term
      ensures Valid()
      ensures old(Shown()) ==> (Shown() <==> RedrawFits(text, widths, charPos))
    {
      hide EncodeAll, Sum, Row, Offset, RedrawFits;
      ghost var row, before := Row(text, widths), term.cells;
      ColumnTotal(widths, charPos);
      RedrawCell(text, widths, charPos);
      term.ReplaceLast(line[|line| - 1]);
      assert term.cells(term.column - 1) == Glyph([line[|line| - 1]], 0);
    }

    // Carries out one editing command.
    method Execute(cmd: Command)
      requires Valid() && Allowed(cmd)
      modifies this, term
      ensures Valid() && Abs() == Apply(old(Abs()), cmd, isSpace)
      ensures widths == ApplyWidths(old(Abs()), old(widths), cmd, isSpace)
      ensures old(Shown()) ==> Shown()
      ensures special == old(special)
    {
      hide Apply, Encode, EncodeAll, Row, Sum, ColumnOf, Offset, Shows;
      match cmd
      case Insert(c, measured) => InsertChar(c, measured);
      case Backspace => DoBackspace();
      case Delete => DeleteAtCursor();
      case Left => MoveLeft();
      case Right => MoveRight();
      case GoWordLeft => MoveWordLeft();
      case GoWordRight => MoveWordRight();
      case Home => MoveToLineStart();
      case End => MoveToLineEnd();
      case Replace(t, cursorByte, measure) => SetLineContents(EncodeAll(t), cursorByte, measure, t);
    }

    // One round of the input loop. Once the first redraw fits, the display is right exactly if the second one fits.
    method Round(cmd: Command)
      requires Valid() && Allowed(cmd) && RoundDefined(State(), cmd)
      modifies this, term
      ensures Valid() && State() == Advance(old(State()), cmd, isSpace)
      ensures old(Shown()) && FirstFits(old(State()), cmd) ==> (Shown() <==> SecondFits(old(State()), cmd, isSpace))
    {
      hide Apply, ApplyWidths, Encode, EncodeAll, Row, Sum, ColumnOf, Offset, Shows, RedrawFits;
      if IsCompletion(cmd) {
        Execute(cmd);
        return;
      }
      if special {
        RedrawLast();
        special := false;
      }
      Execute(cmd);
      if line != [] && (line[|line| - 1] == 0x5C || line[|line| - 1] == 0x2F) {
        RedrawLast();
        special := true;
      }
    }

    /** For every run of commands the editor ends in step with the abstract editor that runs the same commands. The
        screen shows the text, and the margin is untouched, whenever every redraw of a trailing slash or backslash
        fits. */
    method EditLine(cmds: seq<Command>)
      requires Valid() && (forall i :: 0 <= i < |cmds| ==> Allowed(cmds[i])) && RunDefined(State(), cmds, isSpace)
      modifies this, term
      ensures Valid() && Abs() == ApplyAll(old(Abs()), cmds, isSpace)
      ensures State() == AdvanceAll(old(State()), cmds, isSpace)
      ensures old(Shown()) && RunHarmless(old(State()), cmds, isSpace) ==> Shown()
    {
      AdvanceAllBuffer(State(), cmds, isSpace);
      hide Apply, ApplyAll, Advance, AdvanceAll, FirstFits, SecondFits, RoundDefined, RunHarmless, RunDefined;
      hide Shows, Row;
      hide EncodeAll, Offset, Sum, ColumnOf;
      for i := 0 to |cmds|
        invariant Valid() && RunDefined(State(), cmds[i..], isSpace)
        invariant AdvanceAll(State(), cmds[i..], isSpace) == AdvanceAll(old(State()), cmds, isSpace)
        invariant old(Shown()) && RunHarmless(old(State()), cmds, isSpace) ==>
                    Shown() && RunHarmless(State(), cmds[i..], isSpace)
      {
        RunStep(State(), cmds[i..], isSpace);
        assert cmds[i..][1..] == cmds[i + 1..];
        Round(cmds[i]);
      }
      RunOver(State(), isSpace);
      assert cmds[|cmds|..] == [];
    }
  }

  lemma RunStep(d: Display, cmds: seq<Command>, isSpace: CodePoint -> bool)
    requires IsDisplay(d) && cmds != []
    ensures var next := Advance(d, cmds[0], isSpace);
      && (RunDefined(d, cmds, isSpace) <==> RoundDefined(d, cmds[0]) && RunDefined(next, cmds[1..], isSpace))
      && (RunHarmless(d, cmds, isSpace) <==>
            RoundHarmless(d, cmds[0], isSpace) && RunHarmless(next, cmds[1..], isSpace))
      && AdvanceAll(d, cmds, isSpace) == AdvanceAll(next, cmds[1..], isSpace)
  {
    hide Advance, RoundDefined, RoundHarmless;
  }

  lemma RunOver(d: Display, isSpace: CodePoint -> bool)
    requires IsDisplay(d)
    ensures AdvanceAll(d, [], isSpace) == d
  {
  }

  lemma AdvanceBuffer(d: Display, cmd: Command, isSpace: CodePoint -> bool)
    requires IsDisplay(d)
    ensures Advance(d, cmd, isSpace).buffer == Apply(d.buffer, cmd, isSpace)
  {
  }

  lemma {:induction false} AdvanceAllBuffer(d: Display, cmds: seq<Command>, isSpace: CodePoint -> bool)
    requires IsDisplay(d)
    ensures AdvanceAll(d, cmds, isSpace).buffer == ApplyAll(d.buffer, cmds, isSpace)
    decreases cmds
  {
    hide Advance, Apply;
    if cmds != [] {
      AdvanceBuffer(d, cmds[0], isSpace);
      AdvanceAllBuffer(Advance(d, cmds[0], isSpace), cmds[1..], isSpace);
    }
  }

  // Code points that have an encoding.
  predicate Allowed(cmd: Command) {
    (cmd.Insert? ==> cmd.c <= MAX_CODE_POINT) && (cmd.Replace? ==> IsText(cmd.text))
  }

  function ApplyAll(b: Buffer, cmds: seq<Command>, isSpace: CodePoint -> bool): Buffer
    requires b.cursor <= |b.text|
    decreases cmds
  {
    if cmds == [] then b else ApplyAll(Apply(b, cmds[0], isSpace), cmds[1..], isSpace)
  }

  // No command of the run leaves a text that ends in a slash or backslash.
  predicate NoSlashes(b: Buffer, cmds: seq<Command>, isSpace: CodePoint -> bool)
    requires b.cursor <= |b.text|
    decreases cmds
  {
    cmds == [] ||
    var c := Apply(b, cmds[0], isSpace);
    !EndsInSlash(c.text) && NoSlashes(c, cmds[1..], isSpace)
  }

  // The character that takes the column before the cursor.
  lemma {:induction false} LastColumn(ws: seq<nat>, i: nat) returns (k: nat)
    requires i <= |ws| && ColumnOf(ws, i) > 0
    ensures k < i && ws[k] > 0 && ColumnOf(ws, k + 1) == ColumnOf(ws, i)
    ensures forall m :: k < m < i ==> ws[m] == 0
  {
    hide Sum;
    ColumnTotal(ws, 0);
    ColumnStep(ws, i - 1);
    if ws[i - 1] > 0 {
      k := i - 1;
    } else {
      k := LastColumn(ws, i - 1);
    }
  }

  /** Printing the last byte of the text in the column before the cursor leaves that column as it is exactly when the
      byte is the character that stands there. */
  lemma {:induction false} RedrawCell(t: seq<CodePoint>, ws: seq<nat>, i: nat)
    requires i <= |t| == |ws| && EncodeAll(t) != []
    ensures ColumnOf(ws, i) <= |Row(t, ws)|
    ensures RedrawFits(t, ws, i) <==>
            ColumnOf(ws, i) > 0 && Row(t, ws)[ColumnOf(ws, i) - 1] == Glyph([EncodeAll(t)[|EncodeAll(t)| - 1]], 0)
  {
    hide EncodeAll, Encode, Row, Sum;
    ColumnTotal(ws, i);
    if ColumnOf(ws, i) == 0 {
      NoColumn(ws, i);
    } else {
      var k := LastColumn(ws, i);
      RowAt(t, ws, k);
      assert ws[k] == 1 && Encode(t[k]) == [EncodeAll(t)[|EncodeAll(t)| - 1]] ==> FitsAt(t, ws, i, k);
      if RedrawFits(t, ws, i) {
        var m :| 0 <= m < i && FitsAt(t, ws, i, m);
        assert m == k;
      }
    }
  }

  lemma {:induction false} NoColumn(ws: seq<nat>, i: nat)
    requires i <= |ws| && ColumnOf(ws, i) == 0
    ensures forall m :: 0 <= m < i ==> ws[m] == 0
  {
    hide Sum;
    if i > 0 {
      ColumnStep(ws, i - 1);
      NoColumn(ws, i - 1);
    }
  }

  /** Without a trailing slash there is nothing to redraw. */
  lemma {:induction false} NoSlashesHarmless(d: Display, cmds: seq<Command>, isSpace: CodePoint -> bool)
    requires IsDisplay(d) && !d.special && NoSlashes(d.buffer, cmds, isSpace)
    ensures RunHarmless(d, cmds, isSpace) && RunDefined(d, cmds, isSpace)
    decreases cmds
  {
    hide Apply, ApplyWidths, EncodeAll;
    if cmds != [] {
      NoSlashesHarmless(Advance(d, cmds[0], isSpace), cmds[1..], isSpace);
    }
  }

  // Characters typed at the end of the line, slashes and backslashes one column wide.
  predicate IsTyping(cmds: seq<Command>) {
    forall i :: 0 <= i < |cmds| ==>
      && cmds[i].Insert? && cmds[i].c <= MAX_CODE_POINT
      && (cmds[i].c == 0x5C || cmds[i].c == 0x2F ==> cmds[i].measured == 1)
  }

  /** Typing at the end of a line, a path for instance, never spoils the display. */
  lemma {:induction false} TypingHarmless(d: Display, cmds: seq<Command>, isSpace: CodePoint -> bool)
    requires IsDisplay(d) && d.buffer.cursor == |d.buffer.text| && IsTyping(cmds)
    requires d.special ==> EncodeAll(d.buffer.text) != [] && Fits(d)
    ensures RunHarmless(d, cmds, isSpace) && RunDefined(d, cmds, isSpace)
    decreases cmds
  {
    if cmds != [] {
      TypedFits(d, cmds[0], isSpace);
      assert IsTyping(cmds[1..]);
      hide Apply, ApplyWidths, EncodeAll, RedrawFits;
      TypingHarmless(Advance(d, cmds[0], isSpace), cmds[1..], isSpace);
    }
  }

  lemma TypedFits(d: Display, cmd: Command, isSpace: CodePoint -> bool)
    requires IsDisplay(d) && d.buffer.cursor == |d.buffer.text| && IsTyping([cmd])
    ensures var r := Advance(d, cmd, isSpace);
      r.buffer.cursor == |r.buffer.text| && (r.special ==> EncodeAll(r.buffer.text) != [] && Fits(r))
  {
    assert [cmd][0] == cmd;
    var r := Advance(d, cmd, isSpace);
    var t, n := r.buffer.text, |d.buffer.text|;
    assert t[n] == cmd.c && |t| == n + 1 && r.widths[n] == NonNegative(cmd.measured);
    LastBytes(t);
    if r.special {
      SlashIsOneByte(cmd.c);
      assert FitsAt(t, r.widths, n + 1, n);
    }
  }

  // The last byte of a text is the last byte of its last character.
  lemma LastBytes(t: seq<CodePoint>)
    requires t != [] && t[|t| - 1] <= MAX_CODE_POINT
    ensures EncodeAll(t) != []
    ensures var s, e := EncodeAll(t), Encode(t[|t| - 1]); s[|s| - 1] == e[|e| - 1]
  {
    hide Encode;
    var i := |t| - 1;
    SplitAt(t, i);
    assert t[i + 1..] == [];
  }

  lemma SlashIsOneByte(c: CodePoint)
    requires c <= MAX_CODE_POINT && (Encode(c)[|Encode(c)| - 1] == 0x5C || Encode(c)[|Encode(c)| - 1] == 0x2F)
    ensures |Encode(c)| == 1 && (c == 0x5C || c == 0x2F)
  {
    var e := Encode(c);
    assert |e| > 1 ==> IsContinuation(e[|e| - 1]);
  }

  // A completion to the empty text behind a slash: the next key reads the last byte of an empty line.
  lemma EmptyCompletionUndefined(measure: CodePoint -> int, isSpace: CodePoint -> bool)
    ensures !RunDefined(Display(Buffer([], 0), [], false), [Insert(0x2F, 1), Replace([], 0, measure), Left], isSpace)
  {
    var cmds := [Insert(0x2F, 1), Replace([], 0, measure), Left];
    var d0 := Display(Buffer([], 0), [], false);
    assert Apply(d0.buffer, cmds[0], isSpace).text == [0x2F];
    var d1 := Advance(d0, cmds[0], isSpace);
    LastBytes([0x2F]);
    assert d1.special;
    var d2 := Advance(d1, cmds[1], isSpace);
    assert d2.special && d2.buffer.text == [] && EncodeAll([]) == [];
    assert cmds[1..][0] == cmds[1] && cmds[1..][1..][0] == cmds[2];
    assert !RunDefined(d2, cmds[1..][1..], isSpace);
  }

  // Behind its last character, one column wide and one byte long, a line can be redrawn without harm.
  lemma RedrawAtEnd(t: seq<CodePoint>, ws: seq<nat>)
    requires |t| == |ws| > 0 && t[|t| - 1] <= MAX_CODE_POINT && ws[|ws| - 1] == 1 && |Encode(t[|t| - 1])| == 1
    ensures EncodeAll(t) != [] && RedrawFits(t, ws, |t|)
  {
    LastBytes(t);
    assert FitsAt(t, ws, |t|, |t| - 1);
  }

  // With the cursor in front of a trailing slash, the character before it is overwritten.
  lemma RedrawInsideHarms()
    ensures EncodeAll([0x61, 0x2F]) != [] && !RedrawFits([0x61, 0x2F], [1, 1], 1)
  {
    LastBytes([0x61, 0x2F]);
  }

  // Typing a, typing a slash behind it, and going left.
  const NEW_LINE := Display(Buffer([], 0), [], false)
  const WITH_A := Display(Buffer([0x61], 1), [1], false)
  const WITH_SLASH := Display(Buffer([0x61, 0x2F], 2), [1, 1], true)

  lemma TypeA(isSpace: CodePoint -> bool)
    ensures Advance(NEW_LINE, Insert(0x61, 1), isSpace) == WITH_A
    ensures FirstFits(NEW_LINE, Insert(0x61, 1)) && SecondFits(NEW_LINE, Insert(0x61, 1), isSpace)
  {
    LastBytes([0x61]);
    var t: seq<CodePoint>, ws: seq<nat> := [], [];
    assert t[..0] + [0x61] + t[0..] == [0x61] && ws[..0] + [1] + ws[0..] == [1];
  }

  lemma TypeSlash(isSpace: CodePoint -> bool)
    ensures Advance(WITH_A, Insert(0x2F, 1), isSpace) == WITH_SLASH
    ensures FirstFits(WITH_A, Insert(0x2F, 1)) && SecondFits(WITH_A, Insert(0x2F, 1), isSpace)
  {
    var t: seq<CodePoint>, ws: seq<nat> := [0x61], [1];
    assert t[..1] + [0x2F] + t[1..] == [0x61, 0x2F] && ws[..1] + [1] + ws[1..] == [1, 1];
    LastBytes([0x61, 0x2F]);
    RedrawAtEnd([0x61, 0x2F], [1, 1]);
    hide RedrawFits;
  }

  lemma GoLeft(isSpace: CodePoint -> bool)
    ensures FirstFits(WITH_SLASH, Left) && RoundDefined(WITH_SLASH, Left) && !SecondFits(WITH_SLASH, Left, isSpace)
  {
    LastBytes([0x61, 0x2F]);
    RedrawAtEnd([0x61, 0x2F], [1, 1]);
    RedrawInsideHarms();
    hide RedrawFits;
  }

  /** Typing a/ and going left spoils the display: the slash is printed over the a. */
  method LeftOfSlash(isSpace: CodePoint -> bool) returns (e: Editor)
    ensures fresh(e) && e.Valid() && !e.Shown()
  {
    e := new Editor(isSpace);
    TypeA(isSpace);
    TypeSlash(isSpace);
    GoLeft(isSpace);
    hide Advance, FirstFits, SecondFits, Row, Shows, Offset, EncodeAll, ColumnOf, Sum;
    e.Round(Insert(0x61, 1));
    e.Round(Insert(0x2F, 1));
    e.Round(Left);
  }

  // ---------- code points without an encoding ----------

  // Some text has this encoding and as many characters as there are widths.
  ghost predicate InStep(line: seq<Byte>, widths: seq<nat>) {
    exists t :: IsText(t) && EncodeAll(t) == line && |t| == |widths|
  }

  /** Inserting keeps bytes and widths in step exactly for code points that have an encoding: beyond the last one a
      width is recorded for a character that adds no byte. */
  lemma {:induction false} InsertInStepIff(t: seq<CodePoint>, ws: seq<nat>, i: nat, c: CodePoint, w: nat)
    requires IsText(t) && |t| == |ws| && i <= |t|
    ensures Offset(t, i) <= |EncodeAll(t)|
    ensures InStep(EncodeAll(t)[..Offset(t, i)] + Encode(c) + EncodeAll(t)[Offset(t, i)..], ws[..i] + [w] + ws[i..])
      <==> c <= MAX_CODE_POINT
  {
    hide EncodeAll, DecodeAll;
    var s, p := EncodeAll(t), Offset(t, i);
    InsertBytes(t, i, 0);
    var us := ws[..i] + [w] + ws[i..];
    if c <= MAX_CODE_POINT {
      InsertBytes(t, i, c);
      var u := t[..i] + [c] + t[i..];
      assert IsText(u) && |u| == |us|;
    } else {
      assert Encode(c) == [] && s[..p] + [] + s[p..] == s;
      DecodeAllEncodeAll(t);
      forall u | IsText(u) && EncodeAll(u) == s
        ensures |u| != |us|
      {
        DecodeAllEncodeAll(u);
      }
    }
  }

  // ---------- effect of one edit on bytes, columns and cells ----------

  // The bytes of character i in the encoded line.
  lemma {:induction false} BytesAt(t: seq<CodePoint>, i: nat)
    requires i < |t|
    ensures Offset(t, i) <= Offset(t, i + 1) <= |EncodeAll(t)|
    ensures EncodeAll(t)[Offset(t, i)..Offset(t, i + 1)] == Encode(t[i])
  {
    hide Encode, EncodeAll;
    SplitAt(t, i);
    var a, e := EncodeAll(t[..i]), Encode(t[i]);
    assert (a + e + EncodeAll(t[i + 1..]))[|a|..|a| + |e|] == e;
  }

  // The cells of character i.
  lemma {:induction false} RowAt(t: seq<CodePoint>, ws: seq<nat>, i: nat)
    requires |t| == |ws| && i < |t|
    ensures ColumnOf(ws, i + 1) == ColumnOf(ws, i) + ws[i] <= Sum(ws)
    ensures forall j :: ColumnOf(ws, i) <= j < ColumnOf(ws, i + 1) ==>
              Row(t, ws)[j] == Glyph(Encode(t[i]), j - ColumnOf(ws, i))
  {
    hide Encode, Sum;
    RowSplit(t, ws, i);
    ColumnStep(ws, i);
    ColumnTotal(ws, i + 1);
  }

  lemma {:induction false} RowSplit(t: seq<CodePoint>, ws: seq<nat>, i: nat)
    requires |t| == |ws| && i < |t|
    ensures Row(t, ws) == Row(t[..i], ws[..i]) + GlyphCells(t[i], ws[i]) + Row(t[i + 1..], ws[i + 1..])
  {
    hide GlyphCells, Sum;
    var a, b := t[..i], t[i..];
    assert t == a + b && ws == ws[..i] + ws[i..];
    RowConcat(a, b, ws[..i], ws[i..]);
    assert b[1..] == t[i + 1..] && ws[i..][1..] == ws[i + 1..];
    assert Row(a, ws[..i]) + (GlyphCells(t[i], ws[i]) + Row(t[i + 1..], ws[i + 1..]))
        == Row(a, ws[..i]) + GlyphCells(t[i], ws[i]) + Row(t[i + 1..], ws[i + 1..]);
  }

  // Character i, its bytes and its columns.
  lemma CharAt(t: seq<CodePoint>, ws: seq<nat>, i: nat)
    requires IsText(t) && |t| == |ws| && i < |t|
    ensures var from, to := Offset(t, i), Offset(t, i + 1);
      && from < to <= |EncodeAll(t)|
      && Decode(EncodeAll(t)[from..]) == (t[i], to - from)
      && EncodeAll(t)[from..to] == Encode(t[i])
    ensures ColumnOf(ws, i + 1) == ColumnOf(ws, i) + ws[i]
  {
    hide Encode, Decode, EncodeAll, Offset, Row, Sum, ColumnOf;
    Boundaries(t, i);
    BytesAt(t, i);
    RowAt(t, ws, i);
  }

  lemma CharInRow(before: int -> Cell, now: int -> Cell, t: seq<CodePoint>, ws: seq<nat>, i: nat)
    requires |t| == |ws| && i < |t|
    requires var a, b := ColumnOf(ws, i), ColumnOf(ws, i + 1);
      forall j :: now(j) == if a <= j < b then Glyph(Encode(t[i]), j - a) else before(j)
    ensures var a, b := ColumnOf(ws, i), ColumnOf(ws, i + 1);
      Kept(before, now, a, b) && Printed(now, Row(t, ws), a, b)
  {
    hide Encode, Row, Sum, ColumnOf, Kept, Printed;
    RowAt(t, ws, i);
    CharPrinted(before, now, Row(t, ws), ColumnOf(ws, i), ColumnOf(ws, i + 1), Encode(t[i]));
  }

  // A byte position before the end is before some character.
  lemma InsideText(t: seq<CodePoint>, i: nat)
    requires i <= |t| && Offset(t, i) < |EncodeAll(t)|
    ensures i < |t|
  {
    OffsetEnd(t);
  }

  lemma {:induction false} EraseBytes(t: seq<CodePoint>, i: nat)
    requires IsText(t) && i < |t|
    ensures var u := t[..i] + t[i + 1..];
      && Offset(t, i) <= Offset(t, i + 1) <= |EncodeAll(t)|
      && EncodeAll(u) == EncodeAll(t)[..Offset(t, i)] + EncodeAll(t)[Offset(t, i + 1)..]
      && Offset(u, i) == Offset(t, i)
  {
    hide Encode, EncodeAll;
    var u := t[..i] + t[i + 1..];
    SplitAt(t, i);
    EncodeAllConcat(t[..i], t[i + 1..]);
    assert u[..i] == t[..i];
    var s := EncodeAll(t);
    assert s[..Offset(t, i)] == EncodeAll(t[..i]) && s[Offset(t, i + 1)..] == EncodeAll(t[i + 1..]);
  }

  lemma {:induction false} EraseRow(t: seq<CodePoint>, ws: seq<nat>, i: nat)
    requires |t| == |ws| && i < |t|
    ensures var u, us := t[..i] + t[i + 1..], ws[..i] + ws[i + 1..];
      && ColumnOf(us, i) == ColumnOf(ws, i) <= Sum(us)
      && Sum(us) + ws[i] == Sum(ws)
      && Row(u, us)[..ColumnOf(ws, i)] == Row(t, ws)[..ColumnOf(ws, i)]
  {
    hide GlyphCells, Row, Sum;
    var u, us := t[..i] + t[i + 1..], ws[..i] + ws[i + 1..];
    assert us[..i] == ws[..i];
    SumConcat(ws[..i], ws[i + 1..]);
    ColumnTotal(ws, i + 1);
    ColumnStep(ws, i);
    RowSplit(t, ws, i);
    RowConcat(t[..i], t[i + 1..], ws[..i], ws[i + 1..]);
  }

  lemma {:induction false} InsertBytes(t: seq<CodePoint>, i: nat, c: CodePoint)
    requires IsText(t) && i <= |t| && c <= MAX_CODE_POINT
    ensures var u := t[..i] + [c] + t[i..];
      && IsText(u)
      && Offset(t, i) <= |EncodeAll(t)|
      && EncodeAll(u) == EncodeAll(t)[..Offset(t, i)] + Encode(c) + EncodeAll(t)[Offset(t, i)..]
      && Offset(u, i + 1) == Offset(t, i) + |Encode(c)|
      && (i == |t| ==> EncodeAll(u) == EncodeAll(t) + Encode(c))
  {
    hide Encode, EncodeAll;
    var u := t[..i] + [c] + t[i..];
    assert u[..i] == t[..i] && u[i] == c && u[i + 1..] == t[i..];
    SplitAt(u, i);
    assert t == t[..i] + t[i..];
    EncodeAllConcat(t[..i], t[i..]);
    var s := EncodeAll(t);
    assert s[..Offset(t, i)] == EncodeAll(t[..i]) && s[Offset(t, i)..] == EncodeAll(t[i..]);
    if i == |t| {
      assert t[..i] == t && t[i..] == [];
      OffsetEnd(t);
      assert s[..|s|] == s && s[|s|..] == [];
    }
  }

  lemma {:induction false} InsertRow(t: seq<CodePoint>, ws: seq<nat>, i: nat, c: CodePoint, w: nat)
    requires |t| == |ws| && i <= |t|
    ensures var u, us := t[..i] + [c] + t[i..], ws[..i] + [w] + ws[i..];
      && ColumnOf(us, i + 1) == ColumnOf(ws, i) + w <= Sum(us)
      && Sum(us) == Sum(ws) + w
      && ColumnOf(ws, i) <= Sum(ws)
      && Row(u, us)[..ColumnOf(ws, i)] == Row(t, ws)[..ColumnOf(ws, i)]
      && (forall j :: ColumnOf(ws, i) <= j < ColumnOf(ws, i) + w ==>
            Row(u, us)[j] == Glyph(Encode(c), j - ColumnOf(ws, i)))
  {
    hide Encode, Row, Sum;
    var u, us := t[..i] + [c] + t[i..], ws[..i] + [w] + ws[i..];
    assert u[..i] == t[..i] && u[i] == c && u[i + 1..] == t[i..];
    assert us[..i] == ws[..i] && us[i] == w && us[i + 1..] == ws[i..];
    RowSplit(u, us, i);
    ColumnStep(us, i);
    ColumnTotal(us, i + 1);
    ColumnTotal(ws, i);
    assert t == t[..i] + t[i..] && ws == ws[..i] + ws[i..];
    RowConcat(t[..i], t[i..], ws[..i], ws[i..]);
  }
}
