/** What base64 encoding and decoding promise: the same bits in groups of another size, and the round trip. */
module Base64Facts {
  import opened Text
  import opened Base64

  // ---------- bits ----------

  predicate Bit(b: Byte, mask: Byte) {
    b & mask != 0
  }

  // Most significant bit first.
  function ByteBits(b: Byte): (r: seq<bool>)
    ensures |r| == 8
  {
    [Bit(b, 0x80), Bit(b, 0x40), Bit(b, 0x20), Bit(b, 0x10), Bit(b, 0x8), Bit(b, 0x4), Bit(b, 0x2), Bit(b, 0x1)]
  }

  function SextetBits(v: Sextet): (r: seq<bool>)
    ensures |r| == 6
  {
    [Bit(v, 0x20), Bit(v, 0x10), Bit(v, 0x8), Bit(v, 0x4), Bit(v, 0x2), Bit(v, 0x1)]
  }

  function BitsOf(s: seq<Byte>): (r: seq<bool>)
    ensures |r| == 8 * |s|
  {
    if s == [] then [] else ByteBits(s[0]) + BitsOf(s[1..])
  }

  function BitsOfGroups(vs: seq<Sextet>): (r: seq<bool>)
    ensures |r| == 6 * |vs|
  {
    if vs == [] then [] else SextetBits(vs[0]) + BitsOfGroups(vs[1..])
  }

  function Zeros(n: nat): seq<bool> {
    seq(n, _ => false)
  }

  lemma FirstFacts(b0: Byte)
    ensures Bit(First(b0), 0x20) == Bit(b0, 0x80)
    ensures Bit(First(b0), 0x10) == Bit(b0, 0x40)
    ensures Bit(First(b0), 0x8) == Bit(b0, 0x20)
    ensures Bit(First(b0), 0x4) == Bit(b0, 0x10)
    ensures Bit(First(b0), 0x2) == Bit(b0, 0x8)
    ensures Bit(First(b0), 0x1) == Bit(b0, 0x4)
  {
  }

  lemma FourthFacts(b2: Byte)
    ensures Bit(Fourth(b2), 0x20) == Bit(b2, 0x20)
    ensures Bit(Fourth(b2), 0x10) == Bit(b2, 0x10)
    ensures Bit(Fourth(b2), 0x8) == Bit(b2, 0x8)
    ensures Bit(Fourth(b2), 0x4) == Bit(b2, 0x4)
    ensures Bit(Fourth(b2), 0x2) == Bit(b2, 0x2)
    ensures Bit(Fourth(b2), 0x1) == Bit(b2, 0x1)
  {
  }

  lemma SecondFacts(b0: Byte, b1: Byte)
    ensures Bit(Second(b0, b1), 0x20) == Bit(b0, 0x2)
    ensures Bit(Second(b0, b1), 0x10) == Bit(b0, 0x1)
    ensures Bit(Second(b0, b1), 0x8) == Bit(b1, 0x80)
    ensures Bit(Second(b0, b1), 0x4) == Bit(b1, 0x40)
    ensures Bit(Second(b0, b1), 0x2) == Bit(b1, 0x20)
    ensures Bit(Second(b0, b1), 0x1) == Bit(b1, 0x10)
  {
  }

  lemma ThirdFacts(b1: Byte, b2: Byte)
    ensures Bit(Third(b1, b2), 0x20) == Bit(b1, 0x8)
    ensures Bit(Third(b1, b2), 0x10) == Bit(b1, 0x4)
    ensures Bit(Third(b1, b2), 0x8) == Bit(b1, 0x2)
    ensures Bit(Third(b1, b2), 0x4) == Bit(b1, 0x1)
    ensures Bit(Third(b1, b2), 0x2) == Bit(b2, 0x80)
    ensures Bit(Third(b1, b2), 0x1) == Bit(b2, 0x40)
  {
  }

  lemma Cut(x: seq<bool>, y: seq<bool>)
    requires |x| == |y| == 8
    ensures x[6..] + y[..4] == [x[6], x[7], y[0], y[1], y[2], y[3]]
    ensures x[4..] + y[..2] == [x[4], x[5], x[6], x[7], y[0], y[1]]
  {
  }

  lemma CutSix(x: seq<bool>, y: seq<bool>)
    requires |x| == |y| == 6
    ensures x[4..] + y[..6] == [x[4], x[5], y[0], y[1], y[2], y[3], y[4], y[5]]
    ensures x[2..] + y[..4] == [x[2], x[3], x[4], x[5], y[0], y[1], y[2], y[3]]
    ensures x[0..] + y[..2] == [x[0], x[1], x[2], x[3], x[4], x[5], y[0], y[1]]
  {
  }

  lemma FirstBits(b0: Byte)
    ensures SextetBits(First(b0)) == ByteBits(b0)[..6]
  {
    FirstFacts(b0);
    hide First, Bit;
  }

  lemma SecondBits(b0: Byte, b1: Byte)
    ensures SextetBits(Second(b0, b1)) == ByteBits(b0)[6..] + ByteBits(b1)[..4]
  {
    SecondFacts(b0, b1);
    hide Second, Bit;
    var x, y := ByteBits(b0), ByteBits(b1);
    assert SextetBits(Second(b0, b1)) == [x[6], x[7], y[0], y[1], y[2], y[3]];
    hide *;
    Cut(x, y);
  }

  lemma ThirdBits(b1: Byte, b2: Byte)
    ensures SextetBits(Third(b1, b2)) == ByteBits(b1)[4..] + ByteBits(b2)[..2]
  {
    ThirdFacts(b1, b2);
    hide Third, Bit;
    var x, y := ByteBits(b1), ByteBits(b2);
    assert SextetBits(Third(b1, b2)) == [x[4], x[5], x[6], x[7], y[0], y[1]];
    hide *;
    Cut(x, y);
  }

  lemma FourthBits(b2: Byte)
    ensures SextetBits(Fourth(b2)) == ByteBits(b2)[2..]
  {
    FourthFacts(b2);
    hide Fourth, Bit;
    var y := ByteBits(b2);
    assert y[2..] == [y[2], y[3], y[4], y[5], y[6], y[7]];
  }

  lemma ZeroBits()
    ensures ByteBits(0)[..4] == Zeros(4) && ByteBits(0)[..2] == Zeros(2)
  {
  }

  lemma BitsStep(s: seq<Byte>)
    requires s != []
    ensures BitsOf(s) == ByteBits(s[0]) + BitsOf(s[1..])
  {
  }

  lemma GroupBitsStep(vs: seq<Sextet>)
    requires vs != []
    ensures BitsOfGroups(vs) == SextetBits(vs[0]) + BitsOfGroups(vs[1..])
  {
  }

  /** The groups hold the bits of the text in order, filled up with zeros. */
  lemma {:induction false} GroupsHoldBits(s: seq<Byte>)
    ensures BitsOfGroups(Groups(s)) == BitsOf(s) + Zeros(6 * |Groups(s)| - 8 * |s|)
  {
    var gs := Groups(s);
    if s == [] {
    } else if |s| == 1 {
      OneByte(s);
    } else if |s| == 2 {
      TwoBytes(s);
    } else {
      GroupsHoldBits(s[3..]);
      ThreeBytes(s);
    }
  }

  lemma OneGroupBits(v: Sextet)
    ensures BitsOfGroups([v]) == SextetBits(v)
  {
    hide SextetBits;
    assert [v][1..] == [];
  }

  lemma OneByteBits(b: Byte)
    ensures BitsOf([b]) == ByteBits(b)
  {
    hide ByteBits;
    assert [b][1..] == [];
  }

  lemma Rejoin(x: seq<bool>, n: nat, rest: seq<bool>)
    requires n <= |x|
    ensures x[..n] + (x[n..] + rest) == x + rest
  {
  }

  lemma OneByte(s: seq<Byte>)
    requires |s| == 1
    ensures BitsOfGroups(Groups(s)) == BitsOf(s) + Zeros(4)
  {
    var b := s[0];
    var v0, v1 := First(b), Second(b, 0);
    assert s == [b] && Groups(s) == [v0, v1];
    assert [v0, v1][1..] == [v1];
    FirstBits(b);
    SecondBits(b, 0);
    ZeroBits();
    hide *;
    GroupBitsStep([v0, v1]);
    OneGroupBits(v1);
    OneByteBits(b);
    Rejoin(ByteBits(b), 6, Zeros(4));
  }

  lemma TwoBytes(s: seq<Byte>)
    requires |s| == 2
    ensures BitsOfGroups(Groups(s)) == BitsOf(s) + Zeros(2)
  {
    var gs := Groups(s);
    assert gs == [First(s[0]), Second(s[0], s[1]), Third(s[1], 0)];
    assert BitsOf([]) == [] && BitsOfGroups([]) == [];
    assert s[1..][1..] == [] && gs[1..][1..][1..] == [];
    FirstBits(s[0]);
    SecondBits(s[0], s[1]);
    ThirdBits(s[1], 0);
    ZeroBits();
    hide *;
    GroupBitsStep(gs);
    GroupBitsStep(gs[1..]);
    GroupBitsStep(gs[1..][1..]);
    BitsStep(s);
    BitsStep(s[1..]);
    Regroup2(ByteBits(s[0]), ByteBits(s[1]));
  }

  lemma Regroup2(x: seq<bool>, y: seq<bool>)
    requires |x| == |y| == 8
    ensures x[..6] + ((x[6..] + y[..4]) + ((y[4..] + Zeros(2)) + [])) == (x + (y + [])) + Zeros(2)
  {
  }

  lemma Regroup3(x: seq<bool>, y: seq<bool>, z: seq<bool>, rest: seq<bool>)
    requires |x| == |y| == |z| == 8
    ensures x[..6] + ((x[6..] + y[..4]) + ((y[4..] + z[..2]) + (z[2..] + rest))) == x + (y + (z + rest))
  {
  }

  lemma ThreeBytes(s: seq<Byte>)
    requires |s| > 2
    ensures BitsOfGroups(Groups(s)) == BitsOf(s[..3]) + BitsOfGroups(Groups(s[3..]))
    ensures BitsOf(s) == BitsOf(s[..3]) + BitsOf(s[3..])
    ensures |Groups(s)| == |Groups(s[3..])| + 4
  {
    var gs := Groups(s);
    var four := [First(s[0]), Second(s[0], s[1]), Third(s[1], s[2]), Fourth(s[2])];
    assert gs == four + Groups(s[3..]);
    FirstBits(s[0]);
    SecondBits(s[0], s[1]);
    ThirdBits(s[1], s[2]);
    FourthBits(s[2]);
    assert gs[1..][1..][1..][1..] == Groups(s[3..]);
    assert s[1..][1..][1..] == s[3..];
    assert s[..3][1..] == s[1..3] && s[1..3][1..] == s[2..3] && s[2..3][1..] == [];
    assert BitsOf([]) == [];
    hide *;
    GroupBitsStep(gs);
    GroupBitsStep(gs[1..]);
    GroupBitsStep(gs[1..][1..]);
    GroupBitsStep(gs[1..][1..][1..]);
    BitsStep(s);
    BitsStep(s[1..]);
    BitsStep(s[1..][1..]);
    BitsStep(s[..3]);
    BitsStep(s[1..3]);
    BitsStep(s[2..3]);
    Regroup3(ByteBits(s[0]), ByteBits(s[1]), ByteBits(s[2]), BitsOfGroups(Groups(s[3..])));
    Assoc3(ByteBits(s[0]), ByteBits(s[1]), ByteBits(s[2]), BitsOf(s[3..]));
    Assoc3(ByteBits(s[0]), ByteBits(s[1]), ByteBits(s[2]), BitsOfGroups(Groups(s[3..])));
  }

  lemma Assoc3(x: seq<bool>, y: seq<bool>, z: seq<bool>, rest: seq<bool>)
    ensures (x + (y + (z + []))) + rest == x + (y + (z + rest))
  {
  }

  // ---------- decoding keeps the bits ----------

  lemma Combine2Facts(last: Sextet, part: Sextet)
    ensures Bit(Combine(last, part, 2), 0x80) == Bit(last, 0x2)
    ensures Bit(Combine(last, part, 2), 0x40) == Bit(last, 0x1)
    ensures Bit(Combine(last, part, 2), 0x20) == Bit(part, 0x20)
    ensures Bit(Combine(last, part, 2), 0x10) == Bit(part, 0x10)
    ensures Bit(Combine(last, part, 2), 0x8) == Bit(part, 0x8)
    ensures Bit(Combine(last, part, 2), 0x4) == Bit(part, 0x4)
    ensures Bit(Combine(last, part, 2), 0x2) == Bit(part, 0x2)
    ensures Bit(Combine(last, part, 2), 0x1) == Bit(part, 0x1)
  {
  }

  lemma Combine4Facts(last: Sextet, part: Sextet)
    ensures Bit(Combine(last, part, 4), 0x80) == Bit(last, 0x8)
    ensures Bit(Combine(last, part, 4), 0x40) == Bit(last, 0x4)
    ensures Bit(Combine(last, part, 4), 0x20) == Bit(last, 0x2)
    ensures Bit(Combine(last, part, 4), 0x10) == Bit(last, 0x1)
    ensures Bit(Combine(last, part, 4), 0x8) == Bit(part, 0x20)
    ensures Bit(Combine(last, part, 4), 0x4) == Bit(part, 0x10)
    ensures Bit(Combine(last, part, 4), 0x2) == Bit(part, 0x8)
    ensures Bit(Combine(last, part, 4), 0x1) == Bit(part, 0x4)
  {
  }

  lemma Combine6Facts(last: Sextet, part: Sextet)
    ensures Bit(Combine(last, part, 6), 0x80) == Bit(last, 0x20)
    ensures Bit(Combine(last, part, 6), 0x40) == Bit(last, 0x10)
    ensures Bit(Combine(last, part, 6), 0x20) == Bit(last, 0x8)
    ensures Bit(Combine(last, part, 6), 0x10) == Bit(last, 0x4)
    ensures Bit(Combine(last, part, 6), 0x8) == Bit(last, 0x2)
    ensures Bit(Combine(last, part, 6), 0x4) == Bit(last, 0x1)
    ensures Bit(Combine(last, part, 6), 0x2) == Bit(part, 0x20)
    ensures Bit(Combine(last, part, 6), 0x1) == Bit(part, 0x10)
  {
  }

  lemma CombineBits(last: Sextet, part: Sextet, bits: nat)
    requires bits == 2 || bits == 4 || bits == 6
    ensures ByteBits(Combine(last, part, bits)) == SextetBits(last)[6 - bits..] + SextetBits(part)[..8 - bits]
  {
    hide Combine, Bit;
    var x, y := SextetBits(last), SextetBits(part);
    CutSix(x, y);
    if bits == 2 {
      Combine2Facts(last, part);
      assert ByteBits(Combine(last, part, 2)) == [x[4], x[5], y[0], y[1], y[2], y[3], y[4], y[5]];
    } else if bits == 4 {
      Combine4Facts(last, part);
      assert ByteBits(Combine(last, part, 4)) == [x[2], x[3], x[4], x[5], y[0], y[1], y[2], y[3]];
    } else {
      Combine6Facts(last, part);
      assert ByteBits(Combine(last, part, 6)) == [x[0], x[1], x[2], x[3], x[4], x[5], y[0], y[1]];
    }
  }

  // The decoded bytes are the bits of the groups, in order; what makes no whole byte is dropped.
  lemma {:induction false} BytesHoldBits(vs: seq<Sextet>, last: Sextet, bits: nat)
    requires IsBitCount(bits)
    ensures var bs := Bytes(vs, last, bits);
            && |bs| == (bits + 6 * |vs|) / 8
            && BitsOf(bs) == (SextetBits(last)[6 - bits..] + BitsOfGroups(vs))[..8 * |bs|]
  {
    if vs != [] {
      if bits >= 2 {
        BytesHoldBits(vs[1..], vs[0], bits - 2);
        OneMoreByte(vs, last, bits);
      } else {
        BytesHoldBits(vs[1..], vs[0], bits + 6);
        NoByteYet(vs, last);
      }
    }
  }

  lemma OneMoreByte(vs: seq<Sextet>, last: Sextet, bits: nat)
    requires IsBitCount(bits) && bits >= 2 && vs != []
    requires var bs := Bytes(vs[1..], vs[0], bits - 2);
             && |bs| == (bits - 2 + 6 * |vs[1..]|) / 8
             && BitsOf(bs) == (SextetBits(vs[0])[8 - bits..] + BitsOfGroups(vs[1..]))[..8 * |bs|]
    ensures var bs := Bytes(vs, last, bits);
            && |bs| == (bits + 6 * |vs|) / 8
            && BitsOf(bs) == (SextetBits(last)[6 - bits..] + BitsOfGroups(vs))[..8 * |bs|]
  {
    var c := Combine(last, vs[0], bits);
    var more := Bytes(vs[1..], vs[0], bits - 2);
    var bs := Bytes(vs, last, bits);
    assert bs == [c] + more && bs[1..] == more;
    CombineBits(last, vs[0], bits);
    hide *;
    assert |vs[1..]| == |vs| - 1 && |bs| == 1 + |more| == (bits + 6 * |vs|) / 8;
    GroupBitsStep(vs);
    BitsStep(bs);
    Split8(SextetBits(last)[6 - bits..], SextetBits(vs[0]), BitsOfGroups(vs[1..]), bits, 8 * |more|);
  }

  lemma NoByteYet(vs: seq<Sextet>, last: Sextet)
    requires vs != []
    requires var bs := Bytes(vs[1..], vs[0], 6);
             && |bs| == (6 + 6 * |vs[1..]|) / 8
             && BitsOf(bs) == (SextetBits(vs[0])[0..] + BitsOfGroups(vs[1..]))[..8 * |bs|]
    ensures var bs := Bytes(vs, last, 0);
            && |bs| == 6 * |vs| / 8
            && BitsOf(bs) == (SextetBits(last)[6..] + BitsOfGroups(vs))[..8 * |bs|]
  {
    assert Bytes(vs, last, 0) == Bytes(vs[1..], vs[0], 6);
    hide *;
    GroupBitsStep(vs);
    assert SextetBits(vs[0])[0..] == SextetBits(vs[0]);
    assert SextetBits(last)[6..] + BitsOfGroups(vs) == BitsOfGroups(vs);
  }

  lemma Split8(x: seq<bool>, y: seq<bool>, z: seq<bool>, bits: nat, n: nat)
    requires |x| == bits && |y| == 6 && 2 <= bits <= 6 && n <= bits - 2 + |z|
    ensures (x + y[..8 - bits]) + (y[8 - bits..] + z)[..n] == (x + (y + z))[..8 + n]
  {
  }

  lemma ByteFromBits(x: Byte, y: Byte)
    requires ByteBits(x) == ByteBits(y)
    ensures x == y
  {
    var p, q := ByteBits(x), ByteBits(y);
    assert p[0] == q[0] && p[1] == q[1] && p[2] == q[2] && p[3] == q[3];
    assert p[4] == q[4] && p[5] == q[5] && p[6] == q[6] && p[7] == q[7];
  }

  lemma {:induction false} FromBits(x: seq<Byte>, y: seq<Byte>)
    requires BitsOf(x) == BitsOf(y)
    ensures x == y
  {
    if x != [] {
      BitsStep(x);
      BitsStep(y);
      hide ByteBits, BitsOf;
      assert BitsOf(x)[..8] == ByteBits(x[0]) && BitsOf(y)[..8] == ByteBits(y[0]);
      assert BitsOf(x)[8..] == BitsOf(x[1..]) && BitsOf(y)[8..] == BitsOf(y[1..]);
      ByteFromBits(x[0], y[0]);
      FromBits(x[1..], y[1..]);
    }
  }

  // ---------- the round trip ----------

  /** Decoding the groups of a text gives the text: both are the same bits. */
  lemma BytesOfGroups(s: seq<Byte>)
    ensures Bytes(Groups(s), 0, 0) == s
  {
    var gs := Groups(s);
    var bs := Bytes(gs, 0, 0);
    GroupsHoldBits(s);
    BytesHoldBits(gs, 0, 0);
    assert |bs| == |s|;
    hide *;
    assert SextetBits(0)[6..] + BitsOfGroups(gs) == BitsOfGroups(gs);
    assert BitsOf(bs) == BitsOf(s);
    FromBits(bs, s);
  }

  // Encoding and decoding use the same alphabet, or decoding detects it.
  predicate Agree(encode: Alphabet, decode: Alphabet) {
    decode == AUTO || (encode == URL_FILENAME_SAFE <==> decode == URL_FILENAME_SAFE)
  }

  lemma ValueOfCharacter(a: Alphabet, d: Alphabet, v: Sextet)
    requires Agree(a, d)
    ensures Character(a, v) != PAD
    ensures Value(d, Character(a, v)).Some?
    ensures Value(d, Character(a, v)).value.value == v && Agree(a, Value(d, Character(a, v)).value.alphabet)
  {
    if v < 26 {
    } else if v < 52 {
    } else if v < 62 {
    } else {
      assert v == 62 || v == 63;
    }
  }

  lemma CharactersStep(a: Alphabet, vs: seq<Sextet>)
    requires vs != []
    ensures Characters(a, vs) == [Character(a, vs[0])] + Characters(a, vs[1..])
  {
    hide Character;
  }

  lemma {:induction false} ValuesOfCharacters(a: Alphabet, d: Alphabet, vs: seq<Sextet>)
    requires Agree(a, d)
    ensures Values(Characters(a, vs), d) == Some(vs)
    ensures PAD !in Characters(a, vs)
    decreases |vs|
  {
    if vs != [] {
      CharactersStep(a, vs);
      ValueOfCharacter(a, d, vs[0]);
      hide Character, Value, Characters, Agree;
      var d' := Value(d, Character(a, vs[0])).value.alphabet;
      ValuesOfCharacters(a, d', vs[1..]);
      var cs := Characters(a, vs);
      assert cs[1..] == Characters(a, vs[1..]);
      assert vs == [vs[0]] + vs[1..];
    }
  }

  lemma {:induction false} BodyOfPadded(s: seq<Byte>, pads: seq<Byte>)
    requires PAD !in s && OnlyPadding(pads)
    ensures Body(s + pads) == s && (s + pads)[|s|..] == pads
  {
    if s != [] {
      assert (s + pads)[1..] == s[1..] + pads;
      BodyOfPadded(s[1..], pads);
    } else {
      assert s + pads == pads;
    }
  }

  /** Any text, encoded in either alphabet and followed by any amount of padding (none, what encoding writes, or more),
      decodes to itself: with the same alphabet or with detection, strictly or loosely. */
  lemma RoundTrip(s: seq<Byte>, a: Alphabet, d: Alphabet, behavior: Behavior, pads: seq<Byte>)
    requires Agree(a, d) && OnlyPadding(pads)
    ensures Decoded(Characters(a, Groups(s)) + pads, d, behavior) == Some(s)
  {
    ValuesOfCharacters(a, d, Groups(s));
    BytesOfGroups(s);
    hide Characters, Groups, Values, Bytes, OnlyPadding, Body;
    BodyOfPadded(Characters(a, Groups(s)), pads);
  }

  lemma DecodeEncoded(s: seq<Byte>, a: Alphabet, d: Alphabet, behavior: Behavior)
    requires Agree(a, d)
    ensures Decoded(Encoded(s, a), d, behavior) == Some(s)
  {
    hide Decoded;
    RoundTrip(s, a, d, behavior, Padding(|s|));
  }

  /** The decoded text has six bits per character in front of the padding, and fits the announced size. */
  lemma DecodedSize(s: seq<Byte>, a: Alphabet, behavior: Behavior)
    requires Decoded(s, a, behavior).Some?
    ensures |Decoded(s, a, behavior).value| == 6 * |Body(s)| / 8 <= MaxDecodeSize(|s|)
  {
    ValuesSize(Body(s), a);
    BytesHoldBits(Values(Body(s), a).value, 0, 0);
  }

  lemma {:induction false} ValuesSize(s: seq<Byte>, a: Alphabet)
    requires Values(s, a).Some?
    ensures |Values(s, a).value| == |s|
  {
    if s != [] {
      ValuesSize(s[1..], Value(a, s[0]).value.alphabet);
    }
  }

  // ---------- detecting the alphabet ----------

  predicate HasStandard(s: seq<Byte>) {
    exists i :: 0 <= i < |s| && IsStandardOnly(s[i])
  }

  predicate HasUrl(s: seq<Byte>) {
    exists i :: 0 <= i < |s| && IsUrlOnly(s[i])
  }

  lemma {:induction false} DetectStandard(s: seq<Byte>)
    requires !HasUrl(s)
    ensures Values(s, AUTO) == Values(s, STANDARD)
  {
    if s != [] {
      assert !IsUrlOnly(s[0]);
      assert forall i :: 0 <= i < |s| - 1 ==> s[1..][i] == s[i + 1];
      DetectStandard(s[1..]);
    }
  }

  lemma {:induction false} DetectUrl(s: seq<Byte>)
    requires !HasStandard(s)
    ensures Values(s, AUTO) == Values(s, URL_FILENAME_SAFE)
  {
    if s != [] {
      assert !IsStandardOnly(s[0]);
      assert forall i :: 0 <= i < |s| - 1 ==> s[1..][i] == s[i + 1];
      DetectUrl(s[1..]);
    }
  }

  lemma {:induction false} WrongFamily(s: seq<Byte>, a: Alphabet)
    requires (a == STANDARD && HasUrl(s)) || (a == URL_FILENAME_SAFE && HasStandard(s))
    ensures Values(s, a).None?
    decreases |s|
  {
    if Value(a, s[0]).Some? {
      assert forall i :: 0 < i < |s| ==> s[1..][i - 1] == s[i];
      WrongFamily(s[1..], a);
    }
  }

  lemma {:induction false} DetectConflict(s: seq<Byte>)
    requires HasStandard(s) && HasUrl(s)
    ensures Values(s, AUTO).None?
    decreases |s|
  {
    if Value(AUTO, s[0]).Some? {
      assert forall i :: 0 < i < |s| ==> s[1..][i - 1] == s[i];
      if IsStandardOnly(s[0]) {
        WrongFamily(s[1..], STANDARD);
      } else if IsUrlOnly(s[0]) {
        WrongFamily(s[1..], URL_FILENAME_SAFE);
      } else {
        DetectConflict(s[1..]);
      }
    }
  }

  /** Detection decodes like the alphabet whose special characters occur in front of the padding, and fails when those
      of both occur. */
  lemma DetectAlphabet(s: seq<Byte>, behavior: Behavior)
    ensures !HasUrl(Body(s)) ==> Decoded(s, AUTO, behavior) == Decoded(s, STANDARD, behavior)
    ensures !HasStandard(Body(s)) ==> Decoded(s, AUTO, behavior) == Decoded(s, URL_FILENAME_SAFE, behavior)
    ensures HasStandard(Body(s)) && HasUrl(Body(s)) ==> Decoded(s, AUTO, behavior) == None
  {
    if !HasUrl(Body(s)) {
      DetectStandard(Body(s));
    }
    if !HasStandard(Body(s)) {
      DetectUrl(Body(s));
    }
    if HasStandard(Body(s)) && HasUrl(Body(s)) {
      DetectConflict(Body(s));
    }
  }

  // Test vectors of section 10 of RFC 4648: "", "f", "fo", "foo", "foobar".
  lemma Rfc4648Vectors()
    ensures Encoded([], STANDARD) == []
    ensures Encoded([0x66], STANDARD) == [0x5A, 0x67, 0x3D, 0x3D]
    ensures Encoded([0x66, 0x6F], STANDARD) == [0x5A, 0x6D, 0x38, 0x3D]
    ensures Encoded([0x66, 0x6F, 0x6F], STANDARD) == [0x5A, 0x6D, 0x39, 0x76]
  {
    assert Groups([0x66]) == [0x19, 0x20];
    assert Groups([0x66, 0x6F]) == [0x19, 0x26, 0x3C];
    assert Groups([0x66, 0x6F, 0x6F]) == [0x19, 0x26, 0x3D, 0x2F] by {
      assert [0x66, 0x6F, 0x6F][3..] == [];
    }
  }
}
