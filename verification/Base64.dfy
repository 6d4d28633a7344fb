/** Base64, with both alphabets of RFC 4648 and detection of the alphabet while decoding. */
module Base64 {
  import opened Text

  type Byte = bv8

  // A group of six bits.
  type Sextet = v: bv8 | v < 64

  datatype Alphabet = AUTO | STANDARD | URL_FILENAME_SAFE

  datatype Behavior = MODERATE | LOOSE

  const PAD: Byte := 0x3D

  // ---------- the alphabets ----------

  // A group of six bits as a character; the table of the source, by ranges.
  function Character(a: Alphabet, v: Sextet): Byte {
    if v < 26 then v + 0x41
    else if v < 52 then v - 26 + 0x61
    else if v < 62 then v - 52 + 0x30
    else if v == 62 then (if a == URL_FILENAME_SAFE then 0x2D else 0x2B)
    else (if a == URL_FILENAME_SAFE then 0x5F else 0x2F)
  }

  const UPPER := "ABCDEFGHIJKLMNOPQRSTUVWXYZ"
  const LOWER := "abcdefghijklmnopqrstuvwxyz"
  const DIGITS := "0123456789"

  // The 64 characters in order (tables 1 and 2 of RFC 4648).
  function Table(a: Alphabet): string {
    UPPER + LOWER + DIGITS + (if a == URL_FILENAME_SAFE then "-_" else "+/")
  }

  lemma TableParts()
    ensures |UPPER| == |LOWER| == 26 && |DIGITS| == 10
    ensures forall i :: 0 <= i < 26 ==> UPPER[i] as int == 0x41 + i && LOWER[i] as int == 0x61 + i
    ensures forall i :: 0 <= i < 10 ==> DIGITS[i] as int == 0x30 + i
  {
  }

  /** Every group is written as the character that the alphabet lists at its place. */
  lemma CharacterInTable(a: Alphabet, v: Sextet)
    ensures |Table(a)| == 64 && Character(a, v) as int == Table(a)[v as int] as int
  {
    TableParts();
    hide UPPER, LOWER, DIGITS;
  }

  // '+' and '/'
  predicate IsStandardOnly(c: Byte) {
    c == 0x2B || c == 0x2F
  }

  // '-' and '_'
  predicate IsUrlOnly(c: Byte) {
    c == 0x2D || c == 0x5F
  }

  datatype Lookup = Lookup(alphabet: Alphabet, value: Sextet)

  // The value of a character; a special character settles the alphabet if it is still to be detected.
  function Value(a: Alphabet, c: Byte): (r: Option<Lookup>)
    ensures r.Some? ==> c != PAD
  {
    if 0x41 <= c <= 0x5A then Some(Lookup(a, c - 0x41))
    else if 0x61 <= c <= 0x7A then Some(Lookup(a, c - 0x61 + 26))
    else if 0x30 <= c <= 0x39 then Some(Lookup(a, c - 0x30 + 52))
    else match a
      case STANDARD => if c == 0x2B then Some(Lookup(a, 62)) else if c == 0x2F then Some(Lookup(a, 63)) else None
      case URL_FILENAME_SAFE =>
        if c == 0x2D then Some(Lookup(a, 62)) else if c == 0x5F then Some(Lookup(a, 63)) else None
      case AUTO =>
        if c == 0x2B then Some(Lookup(STANDARD, 62))
        else if c == 0x2F then Some(Lookup(STANDARD, 63))
        else if c == 0x2D then Some(Lookup(URL_FILENAME_SAFE, 62))
        else if c == 0x5F then Some(Lookup(URL_FILENAME_SAFE, 63))
        else None
  }

  // ---------- encoding ----------

  // The four groups of three bytes; a byte that is missing counts as zero.
  function First(b0: Byte): Sextet {
    (b0 >> 2) & 0x3F
  }

  function Second(b0: Byte, b1: Byte): Sextet {
    ((b0 & 0x3) << 4) | ((b1 >> 4) & 0xF)
  }

  function Third(b1: Byte, b2: Byte): Sextet {
    ((b1 & 0xF) << 2) | ((b2 >> 6) & 0x3)
  }

  function Fourth(b2: Byte): Sextet {
    b2 & 0x3F
  }

  // The groups of six bits; the last one is filled up with zeros.
  function Groups(s: seq<Byte>): (r: seq<Sextet>)
    ensures |r| == (8 * |s| + 5) / 6
  {
    if s == [] then []
    else if |s| == 1 then [First(s[0]), Second(s[0], 0)]
    else if |s| == 2 then [First(s[0]), Second(s[0], s[1]), Third(s[1], 0)]
    else [First(s[0]), Second(s[0], s[1]), Third(s[1], s[2]), Fourth(s[2])]
         + Groups(s[3..])
  }

  function Characters(a: Alphabet, vs: seq<Sextet>): seq<Byte> {
    seq(|vs|, i requires 0 <= i < |vs| => Character(a, vs[i]))
  }

  function Padding(n: nat): seq<Byte> {
    if n % 3 == 1 then [PAD, PAD] else if n % 3 == 2 then [PAD] else []
  }

  function Encoded(s: seq<Byte>, a: Alphabet): seq<Byte> {
    Characters(a, Groups(s)) + Padding(|s|)
  }

  function RequiredEncodeSize(size: nat): nat {
    (size / 3 + (if size % 3 != 0 then 1 else 0)) * 4
  }

  function MaxDecodeSize(size: nat): nat {
    (size / 4 + (if size % 4 != 0 then 1 else 0)) * 3
  }

  lemma EncodedSize(s: seq<Byte>, a: Alphabet)
    ensures |Encoded(s, a)| == RequiredEncodeSize(|s|)
  {
  }

  lemma EncodedStep(s: seq<Byte>, a: Alphabet)
    requires |s| > 2
    ensures Encoded(s, a) ==
            [Character(a, First(s[0])), Character(a, Second(s[0], s[1])),
             Character(a, Third(s[1], s[2])), Character(a, Fourth(s[2]))] + Encoded(s[3..], a)
  {
    var four := [First(s[0]), Second(s[0], s[1]), Third(s[1], s[2]), Fourth(s[2])];
    assert Groups(s) == four + Groups(s[3..]);
    hide Groups, Character, First, Second, Third, Fourth;
    CharactersConcat(a, four, Groups(s[3..]));
    CharactersOfFour(a, four);
    hide Characters;
    assert |s| % 3 == |s[3..]| % 3;
    assert Encoded(s, a) == Characters(a, four) + Encoded(s[3..], a);
  }

  lemma CharactersConcat(a: Alphabet, x: seq<Sextet>, y: seq<Sextet>)
    ensures Characters(a, x + y) == Characters(a, x) + Characters(a, y)
  {
    hide Character;
  }

  lemma CharactersOfFour(a: Alphabet, x: seq<Sextet>)
    requires |x| == 4
    ensures Characters(a, x) == [Character(a, x[0]), Character(a, x[1]), Character(a, x[2]), Character(a, x[3])]
  {
    hide Character;
  }

  method Encode(s: seq<Byte>, a: Alphabet) returns (out: seq<Byte>)
    ensures out == Encoded(s, a)
  {
    hide *;
    out := [];
    var i := 0;
    assert s[0..] == s;
    while i < |s|
      invariant i <= |s|
      invariant out + Encoded(s[i..], a) == Encoded(s, a)
    {
      ghost var rest, before := s[i..], out;
      assert i + 3 <= |s| ==> rest[3..] == s[i + 3..];
      var i0 := s[i];
      i := i + 1;
      out := out + [Character(a, First(i0))];
      if i == |s| {
        EncodedOne(rest, a);
        out := out + [Character(a, Second(i0, 0)), PAD, PAD];
        EndOne(before, Character(a, First(i0)), Character(a, Second(i0, 0)));
        return;
      }
      var i1 := s[i];
      i := i + 1;
      out := out + [Character(a, Second(i0, i1))];
      if i == |s| {
        EncodedTwo(rest, a);
        out := out + [Character(a, Third(i1, 0)), PAD];
        EndTwo(before, Character(a, First(i0)), Character(a, Second(i0, i1)), Character(a, Third(i1, 0)));
        return;
      }
      var i2 := s[i];
      i := i + 1;
      out := out + [Character(a, Third(i1, i2)), Character(a, Fourth(i2))];
      EncodedStep(rest, a);
      FourMore(before, Character(a, First(i0)), Character(a, Second(i0, i1)),
               Character(a, Third(i1, i2)), Character(a, Fourth(i2)), Encoded(s[i..], a));
    }
    assert s[i..] == [];
    EncodedNone(a);
  }

  lemma FourMore(out: seq<Byte>, c0: Byte, c1: Byte, c2: Byte, c3: Byte, rest: seq<Byte>)
    ensures out + [c0] + [c1] + [c2, c3] + rest == out + ([c0, c1, c2, c3] + rest)
  {
  }

  lemma EndOne(out: seq<Byte>, c0: Byte, c1: Byte)
    ensures out + [c0] + [c1, PAD, PAD] == out + [c0, c1, PAD, PAD]
  {
  }

  lemma EndTwo(out: seq<Byte>, c0: Byte, c1: Byte, c2: Byte)
    ensures out + [c0] + [c1] + [c2, PAD] == out + [c0, c1, c2, PAD]
  {
  }

  lemma EncodedNone(a: Alphabet)
    ensures Encoded([], a) == []
  {
  }

  lemma EncodedOne(s: seq<Byte>, a: Alphabet)
    requires |s| == 1
    ensures Encoded(s, a) == [Character(a, First(s[0])), Character(a, Second(s[0], 0)), PAD, PAD]
  {
    assert Groups(s) == [First(s[0]), Second(s[0], 0)];
    hide Groups, Character, First, Second;
  }

  lemma EncodedTwo(s: seq<Byte>, a: Alphabet)
    requires |s| == 2
    ensures Encoded(s, a) ==
            [Character(a, First(s[0])), Character(a, Second(s[0], s[1])), Character(a, Third(s[1], 0)), PAD]
  {
    assert Groups(s) == [First(s[0]), Second(s[0], s[1]), Third(s[1], 0)];
    hide Groups, Character, First, Second, Third;
  }

  // ---------- decoding ----------

  // The characters in front of the first padding.
  function Body(s: seq<Byte>): (r: seq<Byte>)
    ensures r <= s && PAD !in r && (|r| < |s| ==> s[|r|] == PAD)
  {
    if s == [] || s[0] == PAD then [] else [s[0]] + Body(s[1..])
  }

  function Values(s: seq<Byte>, a: Alphabet): Option<seq<Sextet>> {
    if s == [] then Some([])
    else match Value(a, s[0])
      case None => None
      case Some(v) =>
        match Values(s[1..], v.alphabet)
        case None => None
        case Some(vs) => Some([v.value] + vs)
  }

  // One byte out of the lowest `bits` bits of a group and the highest of the next; the bits above are cut off.
  function Combine(last: Sextet, part: Sextet, bits: nat): Byte
    requires bits == 2 || bits == 4 || bits == 6
  {
    if bits == 2 then (last << 6) | part
    else if bits == 4 then (last << 4) | (part >> 2)
    else (last << 2) | (part >> 4)
  }

  predicate IsBitCount(bits: nat) {
    bits == 0 || bits == 2 || bits == 4 || bits == 6
  }

  // The bytes that follow when `bits` bits of the last group are still to be written.
  function Bytes(vs: seq<Sextet>, last: Sextet, bits: nat): seq<Byte>
    requires IsBitCount(bits)
  {
    if vs == [] then []
    else if bits >= 2 then [Combine(last, vs[0], bits)] + Bytes(vs[1..], vs[0], bits - 2)
    else Bytes(vs[1..], vs[0], bits + 6)
  }

  predicate OnlyPadding(s: seq<Byte>) {
    forall i :: 0 <= i < |s| ==> s[i] == PAD
  }

  // What decoding yields; None is the error for an invalid character.
  function Decoded(s: seq<Byte>, a: Alphabet, behavior: Behavior): Option<seq<Byte>> {
    match Values(Body(s), a)
    case None => None
    case Some(vs) =>
      if behavior == LOOSE || OnlyPadding(s[|Body(s)|..]) then Some(Bytes(vs, 0, 0)) else None
  }

  function Prepend(front: seq<Byte>, rest: Option<seq<Byte>>): Option<seq<Byte>> {
    match rest case None => None case Some(bs) => Some(front + bs)
  }

  // The same, character by character.
  function DecodedFrom(s: seq<Byte>, a: Alphabet, last: Sextet, bits: nat, behavior: Behavior): Option<seq<Byte>>
    requires IsBitCount(bits)
  {
    if s == [] then Some([])
    else if s[0] == PAD then if behavior == LOOSE || OnlyPadding(s) then Some([]) else None
    else match Value(a, s[0])
      case None => None
      case Some(v) =>
        if bits >= 2 then
          Prepend([Combine(last, v.value, bits)], DecodedFrom(s[1..], v.alphabet, v.value, bits - 2, behavior))
        else DecodedFrom(s[1..], v.alphabet, v.value, bits + 6, behavior)
  }

  lemma {:induction false} DecodedFromIs(s: seq<Byte>, a: Alphabet, last: Sextet, bits: nat, behavior: Behavior)
    requires IsBitCount(bits)
    ensures DecodedFrom(s, a, last, bits, behavior) ==
            if Values(Body(s), a).None? || (behavior != LOOSE && !OnlyPadding(s[|Body(s)|..])) then None
            else Some(Bytes(Values(Body(s), a).value, last, bits))
  {
    if s != [] && s[0] != PAD && Value(a, s[0]).Some? {
      var v := Value(a, s[0]).value;
      hide Value, Combine;
      DecodedFromIs(s[1..], v.alphabet, v.value, if bits >= 2 then bits - 2 else bits + 6, behavior);
      assert Body(s)[1..] == Body(s[1..]);
      assert s[|Body(s)|..] == s[1..][|Body(s[1..])|..];
      if Values(Body(s), a).Some? {
        var vs := Values(Body(s), a).value;
        assert vs[1..] == Values(Body(s[1..]), v.alphabet).value;
      }
    }
  }

  // ---------- decoding into a buffer ----------

  // Some of the input has been decoded to the front of the buffer; the goal is what all of it decodes to.
  ghost predicate Progress(goal: Option<seq<Byte>>, front: seq<Byte>, rest: seq<Byte>, a: Alphabet, last: Sextet,
                           bits: nat, behavior: Behavior) {
    IsBitCount(bits) && goal == Prepend(front, DecodedFrom(rest, a, last, bits, behavior))
  }

  lemma OneGroup(goal: Option<seq<Byte>>, front: seq<Byte>, rest: seq<Byte>, a: Alphabet, last: Sextet, bits: nat,
                 behavior: Behavior)
    requires Progress(goal, front, rest, a, last, bits, behavior) && rest != [] && rest[0] != PAD
    ensures Value(a, rest[0]).None? ==> goal.None?
    ensures bits < 2 || bits == 2 || bits == 4 || bits == 6
    ensures Value(a, rest[0]).Some? ==>
              var v := Value(a, rest[0]).value;
              if bits >= 2 then
                Progress(goal, front + [Combine(last, v.value, bits)], rest[1..], v.alphabet, v.value, bits - 2,
                         behavior)
              else Progress(goal, front, rest[1..], v.alphabet, v.value, bits + 6, behavior)
  {
    hide Value, Combine;
    if Value(a, rest[0]).Some? && bits >= 2 {
      var v := Value(a, rest[0]).value;
      var more := DecodedFrom(rest[1..], v.alphabet, v.value, bits - 2, behavior);
      if more.Some? {
        assert front + ([Combine(last, v.value, bits)] + more.value) ==
               front + [Combine(last, v.value, bits)] + more.value;
      }
    }
  }

  // Nothing left but padding, or nothing that padding should be.
  lemma AtPadding(goal: Option<seq<Byte>>, front: seq<Byte>, rest: seq<Byte>, a: Alphabet, last: Sextet, bits: nat,
                  behavior: Behavior)
    requires Progress(goal, front, rest, a, last, bits, behavior) && (rest == [] || rest[0] == PAD)
    ensures goal == if behavior == LOOSE || OnlyPadding(rest) then Some(front) else None
  {
    assert front + [] == front;
  }

  lemma PaddingTail(rest: seq<Byte>)
    requires rest != [] && rest[0] == PAD
    ensures OnlyPadding(rest) <==> OnlyPadding(rest[1..])
  {
    if OnlyPadding(rest[1..]) {
      forall i | 0 <= i < |rest| ensures rest[i] == PAD {
        assert i > 0 ==> rest[i] == rest[1..][i - 1];
      }
    }
  }

  /** Decodes the input into a buffer, which may be the input itself: a position is only written after it was read.
      Behind the result the buffer is left as it was. */
  method Decode(input: array<Byte>, out: array<Byte>, a: Alphabet, behavior: Behavior) returns (n: Option<nat>)
    requires out == input || out.Length >= MaxDecodeSize(input.Length)
    modifies out
    ensures n.None? <==> Decoded(old(input[..]), a, behavior).None?
    ensures n.Some? ==> n.value <= out.Length && out[..n.value] == Decoded(old(input[..]), a, behavior).value
    ensures n.Some? ==> out[n.value..] == old(out[..])[n.value..]
  {
    ghost var s := input[..];
    DecodedFromIs(s, a, 0, 0, behavior);
    assert Decoded(s, a, behavior) == DecodedFrom(s, a, 0, 0, behavior);
    hide DecodedFrom, Decoded, OnlyPadding;
    ghost var start := out[..];
    var ok, i, o := DecodeBody(input, out, a, behavior, s, start, DecodedFrom(s, a, 0, 0, behavior));
    if !ok {
      return None;
    }
    if behavior != LOOSE {
      while i < input.Length
        modifies {}
        invariant i <= input.Length && (OnlyPadding(s[i..]) <==> Decoded(s, a, behavior).Some?)
      {
        var c := input[i];
        i := i + 1;
        if c != PAD {
          return None;
        }
      }
    }
    return Some(o);
  }

  // The input from i on and the buffer from o on are as they were; `bits` bits are read and not yet written.
  predicate InSync(input: seq<Byte>, out: seq<Byte>, s: seq<Byte>, start: seq<Byte>, i: nat, o: nat, bits: nat) {
    && i <= |input| == |s| && o <= |out| == |start|
    && 8 * o + bits == 6 * i
    && input[i..] == s[i..] && out[o..] == start[o..]
  }

  lemma ReadOne(input: seq<Byte>, out: seq<Byte>, s: seq<Byte>, start: seq<Byte>, i: nat, o: nat, bits: nat)
    requires InSync(input, out, s, start, i, o, bits) && i < |input|
    ensures i < |s| && input[i] == s[i] && s[i..][1..] == s[i + 1..] && input[i + 1..] == s[i + 1..]
    ensures InSync(input, out, s, start, i + 1, o, bits + 6)
  {
    assert input[i] == input[i..][0] && input[i + 1..] == input[i..][1..];
  }

  // Writing one byte does not touch what is still to be read.
  method WriteByte(input: array<Byte>, ghost i: nat, out: array<Byte>, o: nat, b: Byte, ghost bits: nat,
                   ghost s: seq<Byte>, ghost start: seq<Byte>)
    requires out == input || out.Length >= MaxDecodeSize(input.Length)
    requires InSync(input[..], out[..], s, start, i, o, bits) && bits >= 8
    modifies out
    ensures o < out.Length && out[..o + 1] == old(out[..o]) + [b]
    ensures InSync(input[..], out[..], s, start, i, o + 1, bits - 8)
  {
    assert out[..][o + 1..] == out[..][o..][1..] == start[o..][1..] == start[o + 1..];
    out[o] := b;
  }

  // Six more bits: enough for one byte, or kept for the next.
  method AddGroup(input: array<Byte>, ghost i: nat, out: array<Byte>, o: nat, last: Sextet, part: Lookup, bits: nat,
                  ghost behavior: Behavior, ghost s: seq<Byte>, ghost start: seq<Byte>, ghost goal: Option<seq<Byte>>)
    returns (o': nat, bits': nat)
    requires out == input || out.Length >= MaxDecodeSize(input.Length)
    requires InSync(input[..], out[..], s, start, i, o, bits + 6) && o <= out.Length && i <= |s|
    requires bits < 2 || bits == 2 || bits == 4 || bits == 6
    requires if bits >= 2 then
               Progress(goal, out[..o] + [Combine(last, part.value, bits)], s[i..], part.alphabet, part.value, bits - 2,
                        behavior)
             else Progress(goal, out[..o], s[i..], part.alphabet, part.value, bits + 6, behavior)
    modifies out
    ensures o' <= out.Length && InSync(input[..], out[..], s, start, i, o', bits')
    ensures Progress(goal, out[..o'], s[i..], part.alphabet, part.value, bits', behavior)
  {
    hide *;
    if bits + 6 >= 8 {
      WriteByte(input, i, out, o, Combine(last, part.value, bits), bits + 6, s, start);
      return o + 1, bits - 2;
    }
    return o, bits + 6;
  }

  // Decoding stopped before position i, with the result in front of o, unless the rest is no padding.
  predicate Stopped(goal: Option<seq<Byte>>, input: seq<Byte>, out: seq<Byte>, s: seq<Byte>, start: seq<Byte>,
                    i: nat, o: nat, behavior: Behavior) {
    && 8 * o <= 6 * i && InSync(input, out, s, start, i, o, 6 * i - 8 * o)
    && goal == if behavior == LOOSE || OnlyPadding(s[i..]) then Some(out[..o]) else None
  }

  lemma Stop(goal: Option<seq<Byte>>, input: seq<Byte>, out: seq<Byte>, s: seq<Byte>, start: seq<Byte>,
             i: nat, o: nat, a: Alphabet, last: Sextet, bits: nat, behavior: Behavior)
    requires InSync(input, out, s, start, i, o, bits)
    requires Progress(goal, out[..o], s[i..], a, last, bits, behavior)
    requires i < |s| ==> s[i] == PAD
    ensures i == |s| ==> Stopped(goal, input, out, s, start, i, o, behavior)
    ensures i < |s| ==> Stopped(goal, input, out, s, start, i + 1, o, behavior)
  {
    hide DecodedFrom;
    AtPadding(goal, out[..o], s[i..], a, last, bits, behavior);
    if i < |s| {
      ReadOne(input, out, s, start, i, o, bits);
      PaddingTail(s[i..]);
    }
  }

  method DecodeBody(input: array<Byte>, out: array<Byte>, a: Alphabet, behavior: Behavior,
                    ghost s: seq<Byte>, ghost start: seq<Byte>, ghost goal: Option<seq<Byte>>)
    returns (ok: bool, i: nat, o: nat)
    requires out == input || out.Length >= MaxDecodeSize(input.Length)
    requires s == input[..] && start == out[..] && goal == DecodedFrom(s, a, 0, 0, behavior)
    modifies out
    ensures !ok ==> goal.None?
    ensures ok ==> i <= input.Length && o <= out.Length && Stopped(goal, input[..], out[..], s, start, i, o, behavior)
  {
    Begin(s, a, behavior);
    assert InSync(s, start, s, start, 0, 0, 0);
    hide *;
    var alphabet, last: Sextet, bits: nat := a, 0, 0;
    i, o := 0, 0;
    while i < input.Length
      invariant i <= input.Length == |s| && o <= out.Length
      invariant InSync(input[..], out[..], s, start, i, o, bits)
      invariant Progress(goal, out[..o], s[i..], alphabet, last, bits, behavior)
    {
      ReadOne(input[..], out[..], s, start, i, o, bits);
      var c := input[i];
      if c == PAD {
        Stop(goal, input[..], out[..], s, start, i, o, alphabet, last, bits, behavior);
        i := i + 1;
        return true, i, o;
      }
      OneGroup(goal, out[..o], s[i..], alphabet, last, bits, behavior);
      i := i + 1;
      var part := Value(alphabet, c);
      if part.None? {
        return false, i, o;
      }
      o, bits := AddGroup(input, i, out, o, last, part.value, bits, behavior, s, start, goal);
      alphabet := part.value.alphabet;
      last := part.value.value;
    }
    Stop(goal, input[..], out[..], s, start, i, o, alphabet, last, bits, behavior);
    return true, i, o;
  }

  lemma Begin(s: seq<Byte>, a: Alphabet, behavior: Behavior)
    ensures s[0..] == s
    ensures Progress(DecodedFrom(s, a, 0, 0, behavior), [], s, a, 0, 0, behavior)
  {
    var d := DecodedFrom(s, a, 0, 0, behavior);
    assert d.Some? ==> [] + d.value == d.value;
  }
}
