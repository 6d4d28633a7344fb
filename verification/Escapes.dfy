/** Escape sequences in command line text, replaced inside the buffer that holds it. */
module Escapes {
  import opened Text
  import Json

  // ---------- what an escape stands for ----------

  // strtol on exactly two characters in base 16, when it uses up both: a blank or a sign may stand for the first digit.
  function HexPair(a: char, b: char): Option<int> {
    match Json.HexDigit(b)
    case None => None
    case Some(low) =>
      match Json.HexDigit(a)
      case Some(high) => Some(16 * high + low)
      case None =>
        if a == '-' then Some((0 as int) - low as int) else if a == '+' || IsSpace(a) then Some(low) else None
  }

  // The conversion to a character keeps the lowest eight bits.
  function ToChar(v: int): char {
    (v % 256) as char
  }

  function Named(c: char): Option<char> {
    match c
    case 'n' => Some('\n')
    case 'r' => Some('\r')
    case 't' => Some('\t')
    case '\'' => Some('\'')
    case '\"' => Some('\"')
    case '\\' => Some('\\')
    case _ => None
  }

  // How many characters an escape takes, and what it stands for.
  datatype Escape = Escape(len: nat, c: char)

  // The escape at the start of a text, if there is one.
  function EscapeAt(s: string): (r: Option<Escape>)
    ensures r.Some? ==> 2 <= r.value.len <= |s| && s[0] == '\\'
  {
    if |s| < 2 || s[0] != '\\' then None
    else if Named(s[1]).Some? then Some(Escape(2, Named(s[1]).value))
    else if s[1] == 'x' && |s| > 3 && HexPair(s[2], s[3]).Some? then Some(Escape(4, ToChar(HexPair(s[2], s[3]).value)))
    else None
  }

  // How many characters are read next, and what is written for them.
  datatype Piece = Piece(len: nat, out: string)

  // Everything that is no escape is kept as it is, an unknown escape as a whole.
  function FirstPiece(s: string): (r: Piece)
    requires s != ""
    ensures 0 < r.len <= |s| && 0 < |r.out| <= r.len
  {
    match EscapeAt(s)
    case Some(e) => Piece(e.len, [e.c])
    case None => if s[0] == '\\' && |s| > 1 then Piece(2, s[..2]) else Piece(1, s[..1])
  }

  function Unescape(s: string): string
    decreases |s|
  {
    if s == "" then "" else FirstPiece(s).out + Unescape(s[FirstPiece(s).len..])
  }

  // ---------- in the buffer ----------

  // The text up to readIdx is replaced by what it stands for, in front of writeIdx; the rest is still in its place.
  ghost predicate Progress(buf: seq<char>, s: string, readIdx: nat, writeIdx: nat) {
    && writeIdx <= readIdx <= |s| == |buf|
    && buf[readIdx..] == s[readIdx..]
    && buf[..writeIdx] + Unescape(s[readIdx..]) == Unescape(s)
  }

  lemma PutOne(buf: seq<char>, s: string, readIdx: nat, writeIdx: nat, n: nat, c: char)
    requires Progress(buf, s, readIdx, writeIdx) && 0 < n <= |s| - readIdx
    requires FirstPiece(s[readIdx..]) == Piece(n, [c])
    ensures Progress(buf[writeIdx := c], s, readIdx + n, writeIdx + 1)
  {
    hide FirstPiece;
    assert Unescape(s[readIdx..]) == [c] + Unescape(s[readIdx..][n..]);
    hide Unescape;
    assert s[readIdx..][n..] == s[readIdx + n..];
    assert buf[writeIdx := c][readIdx + n..] == buf[readIdx..][n..];
    assert buf[writeIdx := c][..writeIdx + 1] == buf[..writeIdx] + [c];
  }

  lemma PutTwo(buf: seq<char>, s: string, readIdx: nat, writeIdx: nat, c: char, d: char)
    requires Progress(buf, s, readIdx, writeIdx) && 2 <= |s| - readIdx
    requires FirstPiece(s[readIdx..]) == Piece(2, [c, d])
    ensures Progress(buf[writeIdx := c][writeIdx + 1 := d], s, readIdx + 2, writeIdx + 2)
  {
    hide FirstPiece;
    assert Unescape(s[readIdx..]) == [c, d] + Unescape(s[readIdx..][2..]);
    hide Unescape;
    var buf' := buf[writeIdx := c][writeIdx + 1 := d];
    assert s[readIdx..][2..] == s[readIdx + 2..];
    assert buf'[readIdx + 2..] == buf[readIdx..][2..];
    assert buf'[..writeIdx + 2] == buf[..writeIdx] + [c, d];
  }

  /** The buffer ends up holding the unescaped text. Writing never overtakes reading. */
  method ProcessEscapes(input: array<char>) returns (len: nat)
    modifies input
    ensures len <= input.Length
    ensures input[..len] == Unescape(old(input[..]))
  {
    hide *;
    ghost var s := input[..];
    var inputIdx: nat, outputIdx: nat := 0, 0;
    Begin(s);
    while inputIdx < input.Length
      invariant inputIdx <= input.Length == |s| && Progress(input[..], s, inputIdx, outputIdx)
      decreases input.Length - inputIdx
    {
      SameRest(input[..], s, inputIdx, outputIdx, 0);
      if input[inputIdx] == '\\' && inputIdx + 1 < input.Length {
        var read, written := EscapeInPlace(input, s, inputIdx, outputIdx);
        inputIdx := inputIdx + read;
        outputIdx := outputIdx + written;
      } else {
        StepPlain(s[inputIdx..]);
        PutOne(input[..], s, inputIdx, outputIdx, 1, input[inputIdx]);
        Put(input, outputIdx, input[inputIdx]);
        outputIdx := outputIdx + 1;
        inputIdx := inputIdx + 1;
      }
    }
    Finish(input[..], s, inputIdx, outputIdx);
    len := outputIdx;
  }

  lemma Begin(s: string)
    ensures Progress(s, s, 0, 0)
  {
    assert s[0..] == s;
  }

  lemma Finish(buf: seq<char>, s: string, readIdx: nat, writeIdx: nat)
    requires Progress(buf, s, readIdx, writeIdx) && readIdx == |s|
    ensures writeIdx <= |buf| && buf[..writeIdx] == Unescape(s)
  {
    assert s[readIdx..] == "" && Unescape("") == "";
  }

  method Put(input: array<char>, i: nat, c: char)
    requires i < input.Length
    modifies input
    ensures input[..] == old(input[..])[i := c]
  {
    input[i] := c;
  }

  lemma SameRest(buf: seq<char>, s: string, readIdx: nat, writeIdx: nat, k: nat)
    requires Progress(buf, s, readIdx, writeIdx)
    ensures writeIdx <= readIdx <= |s| == |buf|
    ensures k < |s| - readIdx ==> buf[readIdx + k] == s[readIdx..][k]
  {
    if k < |s| - readIdx {
      assert buf[readIdx..][k] == buf[readIdx + k];
    }
  }

  // The branches for a backslash: how many characters were read and written.
  method EscapeInPlace(input: array<char>, ghost s: string, readIdx: nat, writeIdx: nat)
    returns (read: nat, written: nat)
    requires Progress(input[..], s, readIdx, writeIdx)
    requires readIdx + 1 < input.Length && input[readIdx] == '\\'
    modifies input
    ensures 0 < read <= input.Length - readIdx && Progress(input[..], s, readIdx + read, writeIdx + written)
  {
    ghost var buf := input[..];
    SameRest(buf, s, readIdx, writeIdx, 0);
    SameRest(buf, s, readIdx, writeIdx, 1);
    SameRest(buf, s, readIdx, writeIdx, 2);
    SameRest(buf, s, readIdx, writeIdx, 3);
    hide *;
    var inputIdx := readIdx + 1;
    var c := input[inputIdx];
    var known := Named(c);
    if known.Some? {
      StepNamed(s[readIdx..]);
      PutOne(buf, s, readIdx, writeIdx, 2, known.value);
      Put(input, writeIdx, known.value);
      return 2, 1;
    }
    if c == 'x' && inputIdx + 2 < input.Length {
      var val := HexPair(input[inputIdx + 1], input[inputIdx + 2]);
      if val.Some? {
        StepHex(s[readIdx..]);
        PutOne(buf, s, readIdx, writeIdx, 4, ToChar(val.value));
        Put(input, writeIdx, ToChar(val.value));
        return 4, 1;
      }
    }
    StepUnknown(s[readIdx..]);
    KeepBoth(input, s, readIdx, writeIdx);
    return 2, 2;
  }

  // An unknown escape: the backslash is written first, the other character is read after that.
  method KeepBoth(input: array<char>, ghost s: string, readIdx: nat, writeIdx: nat)
    requires Progress(input[..], s, readIdx, writeIdx)
    requires writeIdx <= readIdx && readIdx + 1 < input.Length == |s|
    requires FirstPiece(s[readIdx..]) == Piece(2, ['\\', input[readIdx + 1]])
    modifies input
    ensures Progress(input[..], s, readIdx + 2, writeIdx + 2)
  {
    hide *;
    ghost var buf := input[..];
    PutTwo(buf, s, readIdx, writeIdx, '\\', input[readIdx + 1]);
    Put(input, writeIdx, '\\');
    assert input[readIdx + 1] == buf[readIdx + 1];
    Put(input, writeIdx + 1, input[readIdx + 1]);
  }

  lemma StepNamed(s: string)
    requires |s| > 1 && s[0] == '\\' && Named(s[1]).Some?
    ensures FirstPiece(s) == Piece(2, [Named(s[1]).value])
  {
  }

  lemma StepHex(s: string)
    requires |s| > 3 && s[0] == '\\' && s[1] == 'x' && HexPair(s[2], s[3]).Some?
    ensures FirstPiece(s) == Piece(4, [ToChar(HexPair(s[2], s[3]).value)])
  {
  }

  lemma StepUnknown(s: string)
    requires |s| > 1 && s[0] == '\\' && Named(s[1]).None?
    requires s[1] == 'x' && |s| > 3 ==> HexPair(s[2], s[3]).None?
    ensures FirstPiece(s) == Piece(2, ['\\', s[1]])
  {
    assert s[..2] == ['\\', s[1]];
  }

  lemma StepPlain(s: string)
    requires s != "" && (s[0] != '\\' || |s| == 1)
    ensures FirstPiece(s) == Piece(1, [s[0]])
  {
    assert s[..1] == [s[0]];
  }

  // ---------- properties ----------

  // No escape is met when the text is read from the start.
  predicate HasNoEscape(s: string)
    decreases |s|
  {
    s == "" || (EscapeAt(s).None? && HasNoEscape(s[FirstPiece(s).len..]))
  }

  lemma {:induction false} NeverLonger(s: string)
    ensures |Unescape(s)| <= |s|
    ensures |Unescape(s)| == |s| <==> HasNoEscape(s)
    decreases |s|
  {
    if s != "" {
      NeverLonger(s[FirstPiece(s).len..]);
    }
  }

  /** A text stays as it is exactly when it has no escape that is known. */
  lemma {:induction false} UnchangedIff(s: string)
    ensures Unescape(s) == s <==> HasNoEscape(s)
    decreases |s|
  {
    NeverLonger(s);
    if HasNoEscape(s) && s != "" {
      var n := FirstPiece(s).len;
      UnchangedIff(s[n..]);
      assert s == s[..n] + s[n..];
    }
  }

  // A way to write one character: as itself, by name, or by its code.
  predicate Spells(w: string, c: char) {
    || (w == [c] && c != '\\')
    || (|w| == 2 && w[0] == '\\' && Named(w[1]) == Some(c))
    || (|w| == 4 && w[..2] == ['\\', 'x'] && HexPair(w[2], w[3]).Some? && ToChar(HexPair(w[2], w[3]).value) == c)
  }

  function Concat(ws: seq<string>): string {
    if ws == [] then "" else ws[0] + Concat(ws[1..])
  }

  /** However the characters of a text are spelled, one by one, unescaping gives the text back. */
  lemma {:induction false} UnescapeSpelled(ws: seq<string>, s: string)
    requires |ws| == |s| && forall i :: 0 <= i < |s| ==> Spells(ws[i], s[i])
    ensures Unescape(Concat(ws)) == s
  {
    if ws != [] {
      UnescapeSpelled(ws[1..], s[1..]);
      var w, rest := ws[0], Concat(ws[1..]);
      assert Spells(w, s[0]);
      SpelledFirst(w, s[0], rest);
      assert s == [s[0]] + s[1..];
    }
  }

  lemma SpelledFirst(w: string, c: char, rest: string)
    requires Spells(w, c)
    ensures Unescape(w + rest) == [c] + Unescape(rest)
  {
    var t := w + rest;
    assert t[|w|..] == rest;
    assert Unescape(t) == FirstPiece(t).out + Unescape(t[FirstPiece(t).len..]);
    hide Unescape, FirstPiece;
    if |w| == 4 {
      assert t[0] == w[..2][0] && t[1] == w[..2][1];
      StepHex(t);
    } else if |w| == 2 {
      StepNamed(t);
    } else {
      StepPlain(t);
    }
  }

  function HexCharacter(v: nat): char
    requires v < 16
  {
    "0123456789abcdef"[v]
  }

  function Spelling(c: char): string {
    if c as int < 256 then ['\\', 'x', HexCharacter(c as int / 16), HexCharacter(c as int % 16)] else [c]
  }

  /** Every byte has a spelling by its code, so every byte string can be written without quotes or blanks. */
  lemma CodeSpells(c: char)
    requires c as int < 256
    ensures Spells(Spelling(c), c)
  {
    var v := c as int;
    DigitValue(v / 16);
    DigitValue(v % 16);
    assert ToChar(v) == c;
  }

  lemma DigitValue(v: nat)
    requires v < 16
    ensures Json.HexDigit(HexCharacter(v)) == Some(v)
  {
  }

  // The six named escapes, and no others.
  lemma NamedTable(c: char)
    ensures Named(c) == if exists k :: 0 <= k < 6 && c == "nrt'\"\\"[k]
                        then (var k :| 0 <= k < 6 && c == "nrt'\"\\"[k]; Some("\n\r\t'\"\\"[k])) else None
  {
    assert "nrt'\"\\"[0] == 'n' && "nrt'\"\\"[1] == 'r' && "nrt'\"\\"[2] == 't';
    assert "nrt'\"\\"[3] == '\'' && "nrt'\"\\"[4] == '"' && "nrt'\"\\"[5] == '\\';
  }
}
