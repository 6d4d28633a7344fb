/** UTF-8 as the terminal line editor reads and writes it (RFC 3629, section 3, without its surrogate check). */
module Utf8 {
  type Byte = bv8
  type CodePoint = bv32

  const MAX_CODE_POINT: CodePoint := 0x10FFFF
  const REPLACEMENT: CodePoint := 0xFFFD

  predicate IsContinuation(b: Byte) {
    b & 0xC0 == 0x80
  }

  // The bytes of one code point. Beyond the last code point nothing is written.
  function Encode(c: CodePoint): (r: seq<Byte>)
    ensures c <= MAX_CODE_POINT ==> 1 <= |r| <= 4 && !IsContinuation(r[0])
    ensures forall i :: 1 <= i < |r| ==> IsContinuation(r[i])
  {
    if c <= 0x7F then [c as Byte]
    else if c <= 0x7FF then
      [(0xC0 | ((c >> 6) & 0x1F)) as Byte, (0x80 | (c & 0x3F)) as Byte]
    else if c <= 0xFFFF then
      [(0xE0 | ((c >> 12) & 0x0F)) as Byte, (0x80 | ((c >> 6) & 0x3F)) as Byte, (0x80 | (c & 0x3F)) as Byte]
    else if c <= 0x10FFFF then
      [(0xF0 | ((c >> 18) & 0x07)) as Byte, (0x80 | ((c >> 12) & 0x3F)) as Byte,
       (0x80 | ((c >> 6) & 0x3F)) as Byte, (0x80 | (c & 0x3F)) as Byte]
    else []
  }

  function Join2(b0: Byte, b1: Byte): CodePoint {
    ((b0 & 0x1F) as CodePoint << 6) | (b1 & 0x3F) as CodePoint
  }

  function Join3(b0: Byte, b1: Byte, b2: Byte): CodePoint {
    ((b0 & 0x0F) as CodePoint << 12) | ((b1 & 0x3F) as CodePoint << 6) | (b2 & 0x3F) as CodePoint
  }

  function Join4(b0: Byte, b1: Byte, b2: Byte, b3: Byte): CodePoint {
    ((b0 & 0x07) as CodePoint << 18) | ((b1 & 0x3F) as CodePoint << 12)
    | ((b2 & 0x3F) as CodePoint << 6) | (b3 & 0x3F) as CodePoint
  }

  // The code point at the start of s and the number of bytes it takes. Malformed input counts as one byte.
  function Decode(s: seq<Byte>): (r: (CodePoint, nat))
    requires s != []
    ensures 1 <= r.1 <= |s|
  {
    var c := s[0];
    if c & 0x80 == 0 then (c as CodePoint, 1)
    else if c & 0xE0 == 0xC0 && |s| > 1 then
      if !IsContinuation(s[1]) then (REPLACEMENT, 1)
      else (Join2(c, s[1]), 2)
    else if c & 0xF0 == 0xE0 && |s| > 2 then
      if !IsContinuation(s[1]) || !IsContinuation(s[2]) then (REPLACEMENT, 1)
      else (Join3(c, s[1], s[2]), 3)
    else if c & 0xF8 == 0xF0 && |s| > 3 then
      if !IsContinuation(s[1]) || !IsContinuation(s[2]) || !IsContinuation(s[3]) then (REPLACEMENT, 1)
      else (Join4(c, s[1], s[2], s[3]), 4)
    else (REPLACEMENT, 1)
  }

  // The first byte tells the length, and the payload bits come back.
  lemma TwoBytes(c: CodePoint, b0: Byte, b1: Byte)
    requires 0x7F < c <= 0x7FF && b0 == (0xC0 | ((c >> 6) & 0x1F)) as Byte && b1 == (0x80 | (c & 0x3F)) as Byte
    ensures b0 & 0x80 != 0 && b0 & 0xE0 == 0xC0 && Join2(b0, b1) == c
  {
  }

  lemma ThreeBytes(c: CodePoint, b0: Byte, b1: Byte, b2: Byte)
    requires 0x7FF < c <= 0xFFFF && b0 == (0xE0 | ((c >> 12) & 0x0F)) as Byte
    requires b1 == (0x80 | ((c >> 6) & 0x3F)) as Byte && b2 == (0x80 | (c & 0x3F)) as Byte
    ensures b0 & 0x80 != 0 && b0 & 0xE0 != 0xC0 && b0 & 0xF0 == 0xE0 && Join3(b0, b1, b2) == c
  {
  }

  lemma FourBytes(c: CodePoint, b0: Byte, b1: Byte, b2: Byte, b3: Byte)
    requires 0xFFFF < c <= 0x10FFFF
    requires b0 == (0xF0 | ((c >> 18) & 0x07)) as Byte && b1 == (0x80 | ((c >> 12) & 0x3F)) as Byte
    requires b2 == (0x80 | ((c >> 6) & 0x3F)) as Byte && b3 == (0x80 | (c & 0x3F)) as Byte
    ensures b0 & 0x80 != 0 && b0 & 0xE0 != 0xC0 && b0 & 0xF0 != 0xE0 && b0 & 0xF8 == 0xF0 && Join4(b0, b1, b2, b3) == c
  {
  }

  // What an encoding decodes to, on its own bytes.
  lemma EncodedForm(c: CodePoint)
    requires c <= MAX_CODE_POINT
    ensures var e := Encode(c);
      match |e|
      case 1 => e[0] & 0x80 == 0 && e[0] as CodePoint == c
      case 2 => e[0] & 0x80 != 0 && e[0] & 0xE0 == 0xC0 && Join2(e[0], e[1]) == c
      case 3 => e[0] & 0x80 != 0 && e[0] & 0xE0 != 0xC0 && e[0] & 0xF0 == 0xE0 && Join3(e[0], e[1], e[2]) == c
      case _ =>
        && e[0] & 0x80 != 0 && e[0] & 0xE0 != 0xC0 && e[0] & 0xF0 != 0xE0 && e[0] & 0xF8 == 0xF0
        && Join4(e[0], e[1], e[2], e[3]) == c
  {
    hide Join2, Join3, Join4;
    var e := Encode(c);
    if |e| == 2 {
      TwoBytes(c, e[0], e[1]);
    } else if |e| == 3 {
      ThreeBytes(c, e[0], e[1], e[2]);
    } else if |e| == 4 {
      FourBytes(c, e[0], e[1], e[2], e[3]);
    }
  }

  /** Decoding undoes encoding, whatever bytes follow. */
  lemma {:induction false} DecodeEncode(c: CodePoint, rest: seq<Byte>)
    requires c <= MAX_CODE_POINT
    ensures Decode(Encode(c) + rest) == (c, |Encode(c)|)
  {
    hide Join2, Join3, Join4, Encode, IsContinuation;
    EncodedForm(c);
    var e := Encode(c);
    var s := e + rest;
    assert forall i :: 0 <= i < |e| ==> s[i] == e[i];
  }

  predicate IsText(t: seq<CodePoint>) {
    forall i :: 0 <= i < |t| ==> t[i] <= MAX_CODE_POINT
  }

  function EncodeAll(t: seq<CodePoint>): seq<Byte> {
    if t == [] then [] else Encode(t[0]) + EncodeAll(t[1..])
  }

  function DecodeAll(s: seq<Byte>): seq<CodePoint>
    decreases |s|
  {
    if s == [] then [] else [Decode(s).0] + DecodeAll(s[Decode(s).1..])
  }

  lemma {:induction false} DecodeAllEncodeAll(t: seq<CodePoint>)
    requires IsText(t)
    ensures DecodeAll(EncodeAll(t)) == t
  {
    hide Encode, Decode;
    if t != [] {
      var e, rest := Encode(t[0]), EncodeAll(t[1..]);
      DecodeEncode(t[0], rest);
      assert (e + rest)[|e|..] == rest;
      DecodeAllEncodeAll(t[1..]);
    }
  }

  lemma {:induction false} EncodeAllConcat(a: seq<CodePoint>, b: seq<CodePoint>)
    ensures EncodeAll(a + b) == EncodeAll(a) + EncodeAll(b)
  {
    hide Encode;
    if a == [] {
      assert a + b == b;
    } else {
      assert (a + b)[1..] == a[1..] + b;
      EncodeAllConcat(a[1..], b);
      assert Encode(a[0]) + (EncodeAll(a[1..]) + EncodeAll(b)) == Encode(a[0]) + EncodeAll(a[1..]) + EncodeAll(b);
    }
  }

  // The byte position of the i-th character.
  function Offset(t: seq<CodePoint>, i: nat): nat
    requires i <= |t|
  {
    |EncodeAll(t[..i])|
  }

  // The encoded line around its i-th character.
  lemma {:induction false} SplitAt(t: seq<CodePoint>, i: nat)
    requires i < |t|
    ensures EncodeAll(t) == EncodeAll(t[..i]) + Encode(t[i]) + EncodeAll(t[i + 1..])
    ensures Offset(t, i + 1) == Offset(t, i) + |Encode(t[i])|
    ensures Offset(t, i + 1) <= |EncodeAll(t)|
  {
    hide Encode;
    assert t == t[..i] + ([t[i]] + t[i + 1..]);
    EncodeAllConcat(t[..i], [t[i]] + t[i + 1..]);
    assert ([t[i]] + t[i + 1..])[1..] == t[i + 1..];
    assert t[..i + 1] == t[..i] + [t[i]];
    EncodeAllConcat(t[..i], [t[i]]);
    assert [t[i]][1..] == [] && Encode(t[i]) + [] == Encode(t[i]);
    assert EncodeAll([t[i]]) == Encode(t[i]);
    assert EncodeAll(t[..i]) + (Encode(t[i]) + EncodeAll(t[i + 1..]))
        == EncodeAll(t[..i]) + Encode(t[i]) + EncodeAll(t[i + 1..]);
  }

  lemma OffsetEnd(t: seq<CodePoint>)
    ensures Offset(t, |t|) == |EncodeAll(t)|
    ensures Offset(t, 0) == 0
  {
    assert t[..|t|] == t;
  }

  // ---------- moving by characters ----------

  // Skips the continuation bytes at and after pos.
  function SkipForward(s: seq<Byte>, pos: nat): (r: nat)
    requires pos <= |s|
    ensures pos <= r <= |s|
    decreases |s| - pos
  {
    if pos < |s| && IsContinuation(s[pos]) then SkipForward(s, pos + 1) else pos
  }

  // Goes back to the nearest byte that is no continuation byte, at pos or before it.
  function SkipBack(s: seq<Byte>, pos: nat): (r: nat)
    requires pos < |s|
    ensures r <= pos
  {
    if pos > 0 && IsContinuation(s[pos]) then SkipBack(s, pos - 1) else pos
  }

  method NextCharPos(s: seq<Byte>, pos: nat) returns (r: nat)
    ensures r == if pos >= |s| then |s| else SkipForward(s, pos + 1)
  {
    if pos >= |s| {
      return |s|;
    }
    r := pos + 1;
    while r < |s| && IsContinuation(s[r])
      invariant pos + 1 <= r <= |s| && SkipForward(s, r) == SkipForward(s, pos + 1)
    {
      r := r + 1;
    }
  }

  method PrevCharPos(s: seq<Byte>, pos: nat) returns (r: nat)
    requires pos <= |s|
    ensures r == if pos == 0 then 0 else SkipBack(s, pos - 1)
  {
    if pos == 0 {
      return 0;
    }
    r := pos - 1;
    while r > 0 && IsContinuation(s[r])
      invariant r < |s| && SkipBack(s, r) == SkipBack(s, pos - 1)
    {
      r := r - 1;
    }
  }

  lemma {:induction false} SkipForwardTo(s: seq<Byte>, pos: nat, r: nat)
    requires pos <= r <= |s|
    requires forall i :: pos <= i < r ==> IsContinuation(s[i])
    requires r < |s| ==> !IsContinuation(s[r])
    ensures SkipForward(s, pos) == r
    decreases r - pos
  {
    if pos < r {
      SkipForwardTo(s, pos + 1, r);
    }
  }

  lemma {:induction false} SkipBackTo(s: seq<Byte>, pos: nat, r: nat)
    requires r <= pos < |s|
    requires forall i :: r < i <= pos ==> IsContinuation(s[i])
    requires !IsContinuation(s[r])
    ensures SkipBack(s, pos) == r
    decreases pos
  {
    if r < pos {
      SkipBackTo(s, pos - 1, r);
    }
  }

  lemma FirstByte(t: seq<CodePoint>)
    requires IsText(t) && t != []
    ensures EncodeAll(t) != [] && !IsContinuation(EncodeAll(t)[0])
  {
    hide Encode, IsContinuation;
  }

  /** On an encoded text, decoding and moving by one character go from one character boundary to the next. */
  lemma {:induction false} Boundaries(t: seq<CodePoint>, i: nat)
    requires IsText(t) && i < |t|
    ensures var s := EncodeAll(t);
      && Offset(t, i) < Offset(t, i + 1) <= |s|
      && Decode(s[Offset(t, i)..]) == (t[i], Offset(t, i + 1) - Offset(t, i))
      && SkipForward(s, Offset(t, i) + 1) == Offset(t, i + 1)
      && SkipBack(s, Offset(t, i + 1) - 1) == Offset(t, i)
  {
    hide Encode, Decode, IsContinuation, EncodeAll, Offset, SkipForward, SkipBack;
    var s, e := EncodeAll(t), Encode(t[i]);
    var a, b := Offset(t, i), Offset(t, i + 1);
    SplitAt(t, i);
    OffsetIs(t, i);
    var rest := EncodeAll(t[i + 1..]);
    assert s[a..] == e + rest;
    DecodeEncode(t[i], rest);
    assert forall k :: a <= k < b ==> s[k] == e[k - a];
    if b < |s| {
      if t[i + 1..] == [] {
        OffsetEnd(t);
      } else {
        FirstByte(t[i + 1..]);
        assert s[b] == rest[0];
      }
    }
    SkipForwardTo(s, a + 1, b);
    SkipBackTo(s, b - 1, a);
  }

  lemma OffsetIs(t: seq<CodePoint>, i: nat)
    requires i <= |t|
    ensures Offset(t, i) == |EncodeAll(t[..i])|
  {
  }

  // ---------- which byte carries which bits ----------

  // The six bits of c from position k on.
  function SixBits(c: CodePoint, k: nat): CodePoint
    requires k <= 18
  {
    (c >> k) & 0x3F
  }

  // A byte behind the first one carries six bits.
  predicate Carries(b: Byte, c: CodePoint, k: nat)
    requires k <= 18
  {
    (b & 0x3F) as CodePoint == SixBits(c, k)
  }

  lemma LastBits(c: CodePoint, b: Byte)
    requires b == (0x80 | (c & 0x3F)) as Byte
    ensures Carries(b, c, 0)
  {
  }

  lemma MiddleBits(c: CodePoint, b: Byte)
    ensures b == (0x80 | ((c >> 6) & 0x3F)) as Byte ==> Carries(b, c, 6)
    ensures b == (0x80 | ((c >> 12) & 0x3F)) as Byte ==> Carries(b, c, 12)
  {
  }

  lemma FirstBits(c: CodePoint, b: Byte)
    ensures c <= 0x7FF && b == (0xC0 | ((c >> 6) & 0x1F)) as Byte ==> (b & 0x1F) as CodePoint == SixBits(c, 6)
    ensures c <= 0xFFFF && b == (0xE0 | ((c >> 12) & 0x0F)) as Byte ==> (b & 0x0F) as CodePoint == SixBits(c, 12)
    ensures c <= 0x10FFFF && b == (0xF0 | ((c >> 18) & 0x07)) as Byte ==> (b & 0x07) as CodePoint == SixBits(c, 18)
  {
  }

  /** The bytes of a code point carry its bits six by six, the last byte the lowest ones (section 3 of RFC 3629). */
  lemma EncodedBits(c: CodePoint)
    requires c <= MAX_CODE_POINT
    ensures var e := Encode(c);
      match |e|
      case 1 => e[0] as CodePoint == c
      case 2 => (e[0] & 0x1F) as CodePoint == SixBits(c, 6) && Carries(e[1], c, 0)
      case 3 => (e[0] & 0x0F) as CodePoint == SixBits(c, 12) && Carries(e[1], c, 6) && Carries(e[2], c, 0)
      case _ =>
        && (e[0] & 0x07) as CodePoint == SixBits(c, 18)
        && Carries(e[1], c, 12) && Carries(e[2], c, 6) && Carries(e[3], c, 0)
  {
    hide SixBits, Carries;
    var e := Encode(c);
    if |e| == 2 {
      FirstBits(c, e[0]);
      LastBits(c, e[1]);
    } else if |e| == 3 {
      FirstBits(c, e[0]);
      MiddleBits(c, e[1]);
      LastBits(c, e[2]);
    } else if |e| == 4 {
      FirstBits(c, e[0]);
      MiddleBits(c, e[1]);
      MiddleBits(c, e[2]);
      LastBits(c, e[3]);
    }
  }

  // The examples of section 7 of RFC 3629.
  lemma Rfc3629Examples()
    ensures EncodeAll([0x41, 0x2262, 0x0391, 0x2E]) == [0x41, 0xE2, 0x89, 0xA2, 0xCE, 0x91, 0x2E]
    ensures Encode(0x233B4) == [0xF0, 0xA3, 0x8E, 0xB4]
  {
    var t: seq<CodePoint> := [0x41, 0x2262, 0x0391, 0x2E];
    assert Encode(0x41) == [0x41] && Encode(0x2262) == [0xE2, 0x89, 0xA2];
    assert Encode(0x0391) == [0xCE, 0x91] && Encode(0x2E) == [0x2E];
    hide Encode;
    assert t[1..] == [0x2262, 0x0391, 0x2E] && t[1..][1..] == [0x0391, 0x2E] && t[1..][1..][1..] == [0x2E];
    assert t[1..][1..][1..][1..] == [];
    var none: seq<CodePoint> := [];
    assert EncodeAll(none) == [];
  }
}
