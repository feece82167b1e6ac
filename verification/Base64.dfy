/**
 Base64 in the client (CaptureGlobal.cpp) against section 4 of RFC 4648. Characters are bytes, as in
 the original; arithmetic is on bit vectors of the widths used there.
 */
module Base64 {
  import opened Basics

  type Byte = bv8

  const PAD: Byte := 61  // '='

  // entries of b64_index for characters outside the alphabet
  const XX: bv8 := 100

  /** b64_list: A-Z, a-z, 0-9, + and /. */
  function Letter(v: bv8): Byte
    requires v < 64
  {
    if v < 26 then v + 65 else if v < 52 then v + 71 else if v < 62 then v - 4 else if v == 62 then 43 else 47
  }

  /** b64_index. */
  function Index(c: Byte): bv8
  {
    if 65 <= c <= 90 then c - 65
    else if 97 <= c <= 122 then c - 71
    else if 48 <= c <= 57 then c + 4
    else if c == 43 then 62
    else if c == 47 then 63
    else XX
  }

  lemma IndexOfLetter(v: bv8)
    requires v < 64
    ensures Index(Letter(v)) == v && Letter(v) != PAD
  {
  }

  /** Table 1 of RFC 4648: the ranges it consists of, and where each begins. */
  lemma Alphabet(v: bv8)
    requires v < 64
    ensures Letter(0) == 'A' as Byte && Letter(26) == 'a' as Byte && Letter(52) == '0' as Byte
    ensures Letter(62) == '+' as Byte && Letter(63) == '/' as Byte
    ensures v !in {0, 26, 52, 62, 63} ==> Letter(v) == Letter(v - 1) + 1
  {
  }

  // ---------------------------------------------------------------- section 4 of RFC 4648, on bits

  /** The bits of an octet, most significant first. */
  function OctetBits(b: Byte): (bits: seq<bool>)
    ensures |bits| == 8
  {
    [b & 128 != 0, b & 64 != 0, b & 32 != 0, b & 16 != 0, b & 8 != 0, b & 4 != 0, b & 2 != 0, b & 1 != 0]
  }

  function Bits(x: seq<Byte>): seq<bool>
  {
    if x == [] then [] else OctetBits(x[0]) + Bits(x[1..])
  }

  /** The six bits a character of the alphabet stands for. */
  function SextetBits(c: Byte): (bits: seq<bool>)
    ensures |bits| == 6
  {
    var v := Index(c);
    [v & 32 != 0, v & 16 != 0, v & 8 != 0, v & 4 != 0, v & 2 != 0, v & 1 != 0]
  }

  function TextBits(s: seq<Byte>): seq<bool>
  {
    if s == [] then [] else SextetBits(s[0]) + TextBits(s[1..])
  }

  function Zeros(n: nat): seq<bool>
  {
    if n == 0 then [] else [false] + Zeros(n - 1)
  }

  function Pads(n: nat): seq<Byte>
  {
    if n == 0 then [] else [PAD] + Pads(n - 1)
  }

  /** How many pad characters the encoding of n octets ends in. */
  function PadCount(n: nat): nat
  {
    if n % 3 == 0 then 0 else 3 - n % 3
  }

  predicate AllLetters(s: seq<Byte>)
  {
    forall i :: 0 <= i < |s| ==> Index(s[i]) != XX
  }

  /**
   The text is the encoding of the octets: characters of the alphabet whose bits are those of the
   octets, filled up with zero bits, and then the pad characters that make it a multiple of four.
   */
  predicate IsEncoding(x: seq<Byte>, s: seq<Byte>)
  {
    var pads := PadCount(|x|);
    && |s| >= pads && |s| % 4 == 0
    && AllLetters(s[..|s| - pads])
    && s[|s| - pads..] == Pads(pads)
    && TextBits(s[..|s| - pads]) == Bits(x) + Zeros(2 * pads)
  }

  lemma {:induction false} TextBitsAppend(a: seq<Byte>, b: seq<Byte>)
    ensures TextBits(a + b) == TextBits(a) + TextBits(b)
  {
    if a == [] {
      assert a + b == b;
    } else {
      assert (a + b)[0] == a[0] && (a + b)[1..] == a[1..] + b;
      TextBitsAppend(a[1..], b);
    }
  }

  lemma {:induction false} BitsAppend(a: seq<Byte>, b: seq<Byte>)
    ensures Bits(a + b) == Bits(a) + Bits(b)
  {
    if a == [] {
      assert a + b == b;
    } else {
      assert (a + b)[0] == a[0] && (a + b)[1..] == a[1..] + b;
      BitsAppend(a[1..], b);
    }
  }

  lemma SextetDetermines(c: Byte, d: Byte)
    requires Index(c) != XX && Index(d) != XX && SextetBits(c) == SextetBits(d)
    ensures c == d
  {
    var s, t := SextetBits(c), SextetBits(d);
    assert s[0] == t[0] && s[1] == t[1] && s[2] == t[2] && s[3] == t[3] && s[4] == t[4] && s[5] == t[5];
  }

  lemma {:induction false} TextDetermined(s: seq<Byte>, t: seq<Byte>)
    requires AllLetters(s) && AllLetters(t) && TextBits(s) == TextBits(t)
    ensures s == t
  {
    if s == [] {
      assert t != [] ==> |TextBits(t)| >= 6;
    } else {
      assert |TextBits(s)| >= 6;
      assert t != [];
      var a, b := TextBits(s), TextBits(t);
      assert a[..6] == SextetBits(s[0]) && b[..6] == SextetBits(t[0]);
      SextetDetermines(s[0], t[0]);
      assert a[6..] == TextBits(s[1..]) && b[6..] == TextBits(t[1..]);
      TextDetermined(s[1..], t[1..]);
      assert s == [s[0]] + s[1..] && t == [t[0]] + t[1..];
    }
  }

  lemma {:induction false} TextBitsLength(s: seq<Byte>)
    ensures |TextBits(s)| == 6 * |s|
  {
    if s != [] {
      TextBitsLength(s[1..]);
    }
  }

  /** Octets have one encoding only. */
  lemma EncodingUnique(x: seq<Byte>, s: seq<Byte>, t: seq<Byte>)
    requires IsEncoding(x, s) && IsEncoding(x, t)
    ensures s == t
  {
    var pads := PadCount(|x|);
    TextDetermined(s[..|s| - pads], t[..|t| - pads]);
    assert s == s[..|s| - pads] + s[|s| - pads..] && t == t[..|t| - pads] + t[|t| - pads..];
  }

  // ---------------------------------------------------------------- the decoder of the RFC

  function OctetOf(bits: seq<bool>): Byte
    requires |bits| >= 8
  {
    (if bits[0] then 128 else 0) | (if bits[1] then 64 else 0) | (if bits[2] then 32 else 0) | (if bits[3] then 16 else 0)
    | (if bits[4] then 8 else 0) | (if bits[5] then 4 else 0) | (if bits[6] then 2 else 0) | (if bits[7] then 1 else 0)
  }

  /** Whole octets from the front; what is left of the bits is dropped. */
  function Octets(bits: seq<bool>): seq<Byte>
  {
    if |bits| < 8 then [] else [OctetOf(bits)] + Octets(bits[8..])
  }

  function WithoutPads(s: seq<Byte>): seq<Byte>
  {
    if s == [] || s[|s| - 1] != PAD then s
    else if |s| == 1 || s[|s| - 2] != PAD then s[..|s| - 1]
    else s[..|s| - 2]
  }

  function RfcDecode(s: seq<Byte>): seq<Byte>
  {
    Octets(TextBits(WithoutPads(s)))
  }

  lemma OctetBack(b: Byte, tail: seq<bool>)
    ensures OctetOf(OctetBits(b) + tail) == b
  {
    var bits := OctetBits(b) + tail;
    assert bits[0] == (b & 128 != 0) && bits[1] == (b & 64 != 0) && bits[2] == (b & 32 != 0) && bits[3] == (b & 16 != 0);
    assert bits[4] == (b & 8 != 0) && bits[5] == (b & 4 != 0) && bits[6] == (b & 2 != 0) && bits[7] == (b & 1 != 0);
  }

  lemma {:induction false} OctetsBack(x: seq<Byte>, tail: seq<bool>)
    requires |tail| < 8
    ensures Octets(Bits(x) + tail) == x
  {
    if x == [] {
      assert Bits(x) + tail == tail;
    } else {
      var rest := Bits(x[1..]) + tail;
      assert Bits(x) + tail == OctetBits(x[0]) + rest;
      OctetBack(x[0], rest);
      assert (OctetBits(x[0]) + rest)[8..] == rest;
      OctetsBack(x[1..], tail);
      assert x == [x[0]] + x[1..];
    }
  }

  lemma ZerosLength(n: nat)
    ensures |Zeros(n)| == n
  {
  }

  /** Decoding, as the RFC has it, undoes encoding. */
  lemma RfcRoundTrip(x: seq<Byte>, s: seq<Byte>)
    requires IsEncoding(x, s)
    ensures RfcDecode(s) == x
  {
    var pads := PadCount(|x|);
    var body := s[..|s| - pads];
    ZerosLength(2 * pads);
    TextBitsLength(body);
    assert s == body + Pads(pads);
    assert Pads(1) == [PAD] && Pads(2) == [PAD, PAD];
    assert body != [] ==> body[|body| - 1] != PAD;
    assert WithoutPads(s) == body;
    OctetsBack(x, Zeros(2 * pads));
  }

  // ---------------------------------------------------------------- Base64::encode

  /** The 24 bits of up to three octets; missing ones are zero. */
  function Block(a: Byte, b: Byte, c: Byte): bv32
  {
    ((a as bv32) << 16) | ((b as bv32) << 8) | (c as bv32)
  }

  /** The letters of a block, as encode's loop writes them. */
  function Letters(block: bv32): (r: seq<Byte>)
    ensures |r| == 4
  {
    [Letter(((block >> 18) & 0x3F) as bv8), Letter(((block >> 12) & 0x3F) as bv8),
     Letter(((block >> 6) & 0x3F) as bv8), Letter((block & 0x3F) as bv8)]
  }

  function FourLetters(a: Byte, b: Byte, c: Byte): (r: seq<Byte>)
    ensures |r| == 4
  {
    Letters(Block(a, b, c))
  }

  /** The text Base64::encode makes, block by block. */
  function Encoded(x: seq<Byte>): seq<Byte>
  {
    if x == [] then []
    else if |x| == 1 then FourLetters(x[0], 0, 0)[..2] + [PAD, PAD]
    else if |x| == 2 then FourLetters(x[0], x[1], 0)[..3] + [PAD]
    else FourLetters(x[0], x[1], x[2]) + Encoded(x[3..])
  }

  /** The four sextets of a block, out of its octets. */
  lemma Sextets(a: Byte, b: Byte, c: Byte)
    ensures var block := Block(a, b, c);
      && ((block >> 18) & 0x3F) as bv8 == a >> 2
      && ((block >> 12) & 0x3F) as bv8 == ((a & 3) << 4) | (b >> 4)
      && ((block >> 6) & 0x3F) as bv8 == ((b & 15) << 2) | (c >> 6)
      && (block & 0x3F) as bv8 == c & 63
  {
  }

  lemma FirstLetterBits(a: Byte)
    ensures SextetBits(Letter(a >> 2)) == OctetBits(a)[..6]
  {
    IndexOfLetter(a >> 2);
    hide Index, Letter;
    var v := a >> 2;
    assert v & 32 != 0 <==> a & 128 != 0;
    assert v & 16 != 0 <==> a & 64 != 0;
    assert v & 8 != 0 <==> a & 32 != 0;
    assert v & 4 != 0 <==> a & 16 != 0;
    assert v & 2 != 0 <==> a & 8 != 0;
    assert v & 1 != 0 <==> a & 4 != 0;
  }

  lemma SecondBits(a: Byte, b: Byte)
    ensures var v := ((a & 3) << 4) | (b >> 4);
      && v < 64
      && (v & 32 != 0 <==> a & 2 != 0) && (v & 16 != 0 <==> a & 1 != 0) && (v & 8 != 0 <==> b & 128 != 0)
      && (v & 4 != 0 <==> b & 64 != 0) && (v & 2 != 0 <==> b & 32 != 0) && (v & 1 != 0 <==> b & 16 != 0)
  {
  }

  lemma ThirdBits(b: Byte, c: Byte)
    ensures var v := ((b & 15) << 2) | (c >> 6);
      && v < 64
      && (v & 32 != 0 <==> b & 8 != 0) && (v & 16 != 0 <==> b & 4 != 0) && (v & 8 != 0 <==> b & 2 != 0)
      && (v & 4 != 0 <==> b & 1 != 0) && (v & 2 != 0 <==> c & 128 != 0) && (v & 1 != 0 <==> c & 64 != 0)
  {
  }

  lemma SecondLetterBits(a: Byte, b: Byte)
    ensures ((a & 3) << 4) | (b >> 4) < 64
    ensures SextetBits(Letter(((a & 3) << 4) | (b >> 4))) == OctetBits(a)[6..] + OctetBits(b)[..4]
  {
    var v := ((a & 3) << 4) | (b >> 4);
    IndexOfLetter(v);
    hide Index, Letter;
    SecondBits(a, b);
  }

  lemma ThirdLetterBits(b: Byte, c: Byte)
    ensures ((b & 15) << 2) | (c >> 6) < 64
    ensures SextetBits(Letter(((b & 15) << 2) | (c >> 6))) == OctetBits(b)[4..] + OctetBits(c)[..2]
  {
    var v := ((b & 15) << 2) | (c >> 6);
    IndexOfLetter(v);
    hide Index, Letter;
    ThirdBits(b, c);
  }

  lemma FourthLetterBits(c: Byte)
    ensures SextetBits(Letter(c & 63)) == OctetBits(c)[2..]
  {
    IndexOfLetter(c & 63);
    hide Index, Letter;
    var v := c & 63;
    assert v & 32 != 0 <==> c & 32 != 0;
    assert v & 16 != 0 <==> c & 16 != 0;
    assert v & 8 != 0 <==> c & 8 != 0;
    assert v & 4 != 0 <==> c & 4 != 0;
    assert v & 2 != 0 <==> c & 2 != 0;
    assert v & 1 != 0 <==> c & 1 != 0;
  }

  lemma LetterBits(a: Byte, b: Byte, c: Byte)
    ensures var r := FourLetters(a, b, c); var x, y, z := OctetBits(a), OctetBits(b), OctetBits(c);
      && SextetBits(r[0]) == x[..6] && SextetBits(r[1]) == x[6..] + y[..4]
      && SextetBits(r[2]) == y[4..] + z[..2] && SextetBits(r[3]) == z[2..]
  {
    hide OctetBits, SextetBits, Letter, Block;
    Sextets(a, b, c);
    FirstLetterBits(a);
    SecondLetterBits(a, b);
    ThirdLetterBits(b, c);
    FourthLetterBits(c);
  }

  lemma FourBits(a: Byte, b: Byte, c: Byte)
    ensures var r := FourLetters(a, b, c);
      && TextBits(r) == OctetBits(a) + OctetBits(b) + OctetBits(c)
      && TextBits(r[..3]) == OctetBits(a) + OctetBits(b) + OctetBits(c)[..2]
      && TextBits(r[..2]) == OctetBits(a) + OctetBits(b)[..4]
      && AllLetters(r)
  {
    hide OctetBits, SextetBits, Letter, Index, Block;
    LetterBits(a, b, c);
    var r := FourLetters(a, b, c);
    FourTextBits(r[0], r[1], r[2], r[3]);
    assert r == [r[0], r[1], r[2], r[3]] && r[..3] == [r[0], r[1], r[2]] && r[..2] == [r[0], r[1]];
    Regrouped(OctetBits(a), OctetBits(b), OctetBits(c));
    LettersOnly(a, b, c);
  }

  /** Three groups of eight, cut into groups of six. */
  lemma Regrouped(x: seq<bool>, y: seq<bool>, z: seq<bool>)
    requires |x| == |y| == |z| == 8
    ensures x[..6] + (x[6..] + y[..4]) == x + y[..4]
    ensures x[..6] + (x[6..] + y[..4]) + (y[4..] + z[..2]) == x + y + z[..2]
    ensures x[..6] + (x[6..] + y[..4]) + (y[4..] + z[..2]) + z[2..] == x + y + z
  {
  }

  lemma LettersOnly(a: Byte, b: Byte, c: Byte)
    ensures AllLetters(FourLetters(a, b, c))
  {
    var block := Block(a, b, c);
    IndexOfLetter(((block >> 18) & 0x3F) as bv8);
    IndexOfLetter(((block >> 12) & 0x3F) as bv8);
    IndexOfLetter(((block >> 6) & 0x3F) as bv8);
    IndexOfLetter((block & 0x3F) as bv8);
  }

  lemma FourTextBits(p: Byte, q: Byte, r: Byte, s: Byte)
    ensures TextBits([p, q]) == SextetBits(p) + SextetBits(q)
    ensures TextBits([p, q, r]) == SextetBits(p) + SextetBits(q) + SextetBits(r)
    ensures TextBits([p, q, r, s]) == SextetBits(p) + SextetBits(q) + SextetBits(r) + SextetBits(s)
  {
    hide SextetBits;
    TextBitsOne(p);
    TextBitsOne(q);
    TextBitsOne(r);
    TextBitsOne(s);
    TextBitsAppend([p], [q]);
    TextBitsAppend([p, q], [r]);
    TextBitsAppend([p, q, r], [s]);
    assert [p] + [q] == [p, q] && [p, q] + [r] == [p, q, r] && [p, q, r] + [s] == [p, q, r, s];
  }

  lemma TextBitsOne(c: Byte)
    ensures TextBits([c]) == SextetBits(c)
  {
    assert [c][1..] == [];
  }

  /** What encode makes is the encoding of section 4 of RFC 4648, for every string of bytes. */
  lemma {:induction false} EncodedIsEncoding(x: seq<Byte>)
    ensures IsEncoding(x, Encoded(x))
    decreases |x|
  {
    if |x| == 1 {
      OneOctet(x[0]);
      assert x == [x[0]];
    } else if |x| == 2 {
      TwoOctets(x[0], x[1]);
      assert x == [x[0], x[1]];
    } else if |x| >= 3 {
      EncodedIsEncoding(x[3..]);
      BlockInFront(x, Encoded(x[3..]));
    }
  }

  lemma BlockInFront(x: seq<Byte>, rest: seq<Byte>)
    requires |x| >= 3 && IsEncoding(x[3..], rest)
    ensures IsEncoding(x, FourLetters(x[0], x[1], x[2]) + rest)
  {
    hide OctetBits, FourLetters, TextBits, Bits, Pads, Zeros, AllLetters;
    var four, pads := FourLetters(x[0], x[1], x[2]), PadCount(|x|);
    var body, s := rest[..|rest| - pads], four + rest;
    FourBits(x[0], x[1], x[2]);
    ThreeOctets(x);
    assert s[..|s| - pads] == four + body;
    assert s[|s| - pads..] == rest[|rest| - pads..];
    TextBitsAppend(four, body);
    LettersAppend(four, body);
    Associative(TextBits(four), Bits(x[3..]), Zeros(2 * pads));
  }

  lemma LettersAppend(a: seq<Byte>, b: seq<Byte>)
    requires AllLetters(a) && AllLetters(b)
    ensures AllLetters(a + b)
  {
    hide Index;
  }

  lemma BitsOne(b: Byte)
    ensures Bits([b]) == OctetBits(b)
  {
    assert [b][1..] == [];
  }

  lemma BitsTwo(a: Byte, b: Byte)
    ensures Bits([a, b]) == OctetBits(a) + OctetBits(b)
  {
    hide Bits, OctetBits;
    assert [a] + [b] == [a, b];
    BitsAppend([a], [b]);
    BitsOne(a);
    BitsOne(b);
  }

  lemma ThreeOctets(x: seq<Byte>)
    requires |x| >= 3
    ensures Bits(x) == OctetBits(x[0]) + OctetBits(x[1]) + OctetBits(x[2]) + Bits(x[3..])
  {
    hide Bits, OctetBits;
    var a, b, c := x[0], x[1], x[2];
    assert x == [a, b] + ([c] + x[3..]);
    BitsAppend([a, b], [c] + x[3..]);
    BitsAppend([c], x[3..]);
    BitsTwo(a, b);
    BitsOne(c);
    Associative(Bits([a, b]), Bits([c]), Bits(x[3..]));
  }

  lemma OneOctet(a: Byte)
    ensures IsEncoding([a], FourLetters(a, 0, 0)[..2] + [PAD, PAD])
  {
    var r := FourLetters(a, 0, 0);
    var s := r[..2] + [PAD, PAD];
    FourBits(a, 0, 0);
    BitsOne(a);
    assert Pads(1) == [PAD] && Pads(2) == [PAD] + Pads(1);
    assert Zeros(4) == [false, false, false, false];
    assert OctetBits(0)[..4] == Zeros(4);
    hide OctetBits, FourLetters, TextBits, Bits;
    assert s[..2] == r[..2] && s[2..] == [PAD, PAD];
  }

  lemma TwoOctets(a: Byte, b: Byte)
    ensures IsEncoding([a, b], FourLetters(a, b, 0)[..3] + [PAD])
  {
    var r := FourLetters(a, b, 0);
    var s := r[..3] + [PAD];
    FourBits(a, b, 0);
    BitsTwo(a, b);
    assert Pads(1) == [PAD] && Zeros(2) == [false, false];
    assert OctetBits(0)[..2] == Zeros(2);
    hide OctetBits, FourLetters, TextBits, Bits;
    assert s[..3] == r[..3] && s[3..] == [PAD];
  }

  /** The octet of a position, 0 past the end. */
  function Octet(x: seq<Byte>, i: nat): Byte
  {
    if i < |x| then x[i] else 0
  }

  function From(x: seq<Byte>, i: nat): seq<Byte>
  {
    if i < |x| then x[i..] else []
  }

  /** What encode's loop has written once it is over, before the pad characters go in. */
  function Unpadded(x: seq<Byte>): (r: seq<Byte>)
    decreases |x|
  {
    if x == [] then [] else FourLetters(x[0], Octet(x, 1), Octet(x, 2)) + Unpadded(From(x, 3))
  }

  ghost predicate PadsTo(r: seq<Byte>, x: seq<Byte>)
  {
    |r| == (|x| + 2) / 3 * 4 && |r| >= PadCount(|x|) && Encoded(x) == r[..|r| - PadCount(|x|)] + Pads(PadCount(|x|))
  }

  lemma {:induction false} PaddingUnpadded(x: seq<Byte>)
    ensures PadsTo(Unpadded(x), x)
    decreases |x|
  {
    hide FourLetters;
    if |x| >= 3 {
      PaddingUnpadded(x[3..]);
      PaddingInFront(x, Unpadded(x[3..]));
    } else if x != [] {
      PaddingShort(x);
    }
  }

  lemma EncodedStep(x: seq<Byte>)
    requires |x| >= 3
    ensures Encoded(x) == FourLetters(x[0], x[1], x[2]) + Encoded(x[3..])
    ensures Unpadded(x) == FourLetters(x[0], x[1], x[2]) + Unpadded(x[3..])
  {
    hide FourLetters;
  }

  lemma PaddingInFront(x: seq<Byte>, rest: seq<Byte>)
    requires |x| >= 3 && PadsTo(rest, x[3..])
    ensures PadsTo(FourLetters(x[0], x[1], x[2]) + rest, x)
  {
    hide FourLetters, Pads, Encoded, Unpadded;
    var four, pads := FourLetters(x[0], x[1], x[2]), PadCount(|x|);
    EncodedStep(x);
    CutBehind(four, rest, |rest| - pads);
    Associative(four, rest[..|rest| - pads], Pads(pads));
  }

  lemma CutBehind(a: seq<Byte>, b: seq<Byte>, i: nat)
    requires i <= |b|
    ensures (a + b)[..|a| + i] == a + b[..i]
  {
  }

  lemma UnpaddedShort(x: seq<Byte>)
    requires 0 < |x| < 3
    ensures Unpadded(x) == FourLetters(x[0], Octet(x, 1), 0)
  {
    hide FourLetters;
    assert From(x, 3) == [] && Unpadded([]) == [];
  }

  lemma EncodedShort(x: seq<Byte>)
    ensures |x| == 1 ==> Encoded(x) == FourLetters(x[0], 0, 0)[..2] + Pads(2)
    ensures |x| == 2 ==> Encoded(x) == FourLetters(x[0], x[1], 0)[..3] + Pads(1)
  {
    hide FourLetters;
    assert Pads(1) == [PAD] && Pads(2) == [PAD, PAD];
  }

  lemma PadsToOne(r: seq<Byte>, x: seq<Byte>)
    requires |x| == 1 && |r| == 4 && Encoded(x) == r[..2] + Pads(2)
    ensures PadsTo(r, x)
  {
    hide Pads, Encoded;
    assert PadCount(|x|) == 2;
  }

  lemma PadsToTwo(r: seq<Byte>, x: seq<Byte>)
    requires |x| == 2 && |r| == 4 && Encoded(x) == r[..3] + Pads(1)
    ensures PadsTo(r, x)
  {
    hide Pads, Encoded;
    assert PadCount(|x|) == 1;
  }

  lemma PaddingShort(x: seq<Byte>)
    requires 0 < |x| < 3
    ensures PadsTo(Unpadded(x), x)
  {
    hide FourLetters, Unpadded, Pads, Encoded, PadsTo;
    UnpaddedShort(x);
    EncodedShort(x);
    if |x| == 1 {
      PadsToOne(Unpadded(x), x);
    } else {
      PadsToTwo(Unpadded(x), x);
    }
  }

  lemma PaddingOf(r: seq<Byte>, x: seq<Byte>)
    requires PadsTo(r, x)
    ensures |r| == (|x| + 2) / 3 * 4 && |r| >= (if |x| % 3 == 0 then 0 else 4)
    ensures |x| % 3 == 0 ==> Encoded(x) == r
    ensures |x| % 3 != 0 ==> Encoded(x) == r[..|r| - (3 - |x| % 3)] + Pads(3 - |x| % 3)
  {
    hide Encoded, Pads;
    if |x| % 3 == 0 {
      NoPads(r);
    }
  }

  /** The block of encode's loop. */
  method BlockAt(cleartext: seq<Byte>, i: nat) returns (block: bv32)
    requires i < |cleartext|
    ensures block == Block(cleartext[i], Octet(cleartext, i + 1), Octet(cleartext, i + 2))
  {
    block := 0;
    block := block | ((cleartext[i] as bv32) << 16);
    if i + 1 < |cleartext| {
      block := block | ((cleartext[i + 1] as bv32) << 8);
    }
    if i + 2 < |cleartext| {
      block := block | (cleartext[i + 2] as bv32);
    }
  }

  /** The four stores of encode's loop. */
  method PutLetters(buffer: array<Byte>, k: nat, block: bv32)
    requires k + 4 <= buffer.Length
    modifies buffer
    ensures buffer[..k + 4] == old(buffer[..k]) + Letters(block)
  {
    hide Letter;
    buffer[k] := Letter(((block >> 18) & 0x3F) as bv8);
    buffer[k + 1] := Letter(((block >> 12) & 0x3F) as bv8);
    buffer[k + 2] := Letter(((block >> 6) & 0x3F) as bv8);
    buffer[k + 3] := Letter((block & 0x3F) as bv8);
  }

  /** The stores of pad characters at the end of encode. */
  method PutPads(buffer: array<Byte>, k: nat, remainder: nat)
    requires 3 <= k <= buffer.Length && 0 < remainder < 3
    modifies buffer
    ensures buffer[..k] == old(buffer[..k - (3 - remainder)]) + Pads(3 - remainder)
  {
    for i := remainder to 3
      invariant buffer[..k - (3 - i)] == old(buffer[..k - (3 - remainder)]) + Pads(i - remainder)
    {
      PadsMore(i - remainder);
      buffer[k - (3 - i)] := PAD;
    }
  }

  /** The loop of encode, over a buffer long enough. */
  method EncodeBlocks(cleartext: seq<Byte>, encodedBuffer: array<Byte>) returns (k: nat)
    requires (|cleartext| + 2) / 3 * 4 <= encodedBuffer.Length
    modifies encodedBuffer
    ensures k == (|cleartext| + 2) / 3 * 4 && encodedBuffer[..k] == Unpadded(cleartext)
  {
    hide Letters, Unpadded, Block, From, Octet;
    var len := |cleartext|;
    var i := 0;
    k := 0;
    WholeFrom(cleartext);
    while i < len
      invariant 3 * k == 4 * i && i <= (len + 2) / 3 * 3
      invariant encodedBuffer[..k] + Unpadded(From(cleartext, i)) == Unpadded(cleartext)
      decreases len - i
    {
      var block := BlockAt(cleartext, i);
      UnpaddedStep(cleartext, i);
      Associative(encodedBuffer[..k], Letters(block), Unpadded(From(cleartext, i + 3)));
      PutLetters(encodedBuffer, k, block);
      k := k + 4;
      i := i + 3;
    }
    UnpaddedEnd(cleartext, i);
  }

  /** Base64::encode; the caller gets the buffer and how much of it is text. */
  method Encode(cleartext: seq<Byte>) returns (encodedBuffer: array<Byte>, encodedLength: nat)
    ensures encodedLength <= encodedBuffer.Length
    ensures encodedBuffer[..encodedLength] == Encoded(cleartext)
    ensures IsEncoding(cleartext, encodedBuffer[..encodedLength])
  {
    hide Unpadded, Encoded, IsEncoding, Pads, PadsTo;
    var nBlocks := |cleartext| / 3;
    var remainder := |cleartext| % 3;
    if remainder != 0 {
      nBlocks := nBlocks + 1;
    }
    encodedBuffer := new Byte[nBlocks * 4 + 2];
    encodedLength := EncodeBlocks(cleartext, encodedBuffer);
    PaddingUnpadded(cleartext);
    PaddingOf(Unpadded(cleartext), cleartext);
    if remainder > 0 {
      PutPads(encodedBuffer, encodedLength, remainder);
    }
    EncodedIsEncoding(cleartext);
  }

  lemma WholeFrom(x: seq<Byte>)
    ensures From(x, 0) == x
  {
  }

  lemma NoPads(s: seq<Byte>)
    ensures s[..|s|] + Pads(0) == s
  {
  }

  lemma UnpaddedStep(x: seq<Byte>, i: nat)
    requires i < |x|
    ensures Unpadded(From(x, i)) == FourLetters(x[i], Octet(x, i + 1), Octet(x, i + 2)) + Unpadded(From(x, i + 3))
  {
    hide FourLetters;
    var rest := From(x, i);
    assert From(rest, 3) == From(x, i + 3);
    assert rest[0] == x[i] && Octet(rest, 1) == Octet(x, i + 1) && Octet(rest, 2) == Octet(x, i + 2);
  }

  lemma UnpaddedEnd(x: seq<Byte>, i: nat)
    requires i >= |x|
    ensures Unpadded(From(x, i)) == []
  {
  }

  lemma {:induction false} PadsMore(n: nat)
    ensures Pads(n + 1) == Pads(n) + [PAD] && |Pads(n)| == n
  {
    if n > 0 {
      PadsMore(n - 1);
    }
  }

  // ---------------------------------------------------------------- Base64::decode

  /** The bytes written for four characters with these entries of b64_index, computed in int width. */
  function Byte0(i0: bv8, i1: bv8): Byte
  {
    ((((i0 as bv16) << 2) | ((i1 as bv16) >> 4)) & 0xFF) as bv8
  }

  function Byte1(i1: bv8, i2: bv8): Byte
  {
    ((((i1 as bv16) << 4) | ((i2 as bv16) >> 2)) & 0xFF) as bv8
  }

  function Byte2(i2: bv8, i3: bv8): Byte
  {
    ((((i2 as bv16) << 6) | (i3 as bv16)) & 0xFF) as bv8
  }

  function Triple(e0: Byte, e1: Byte, e2: Byte, e3: Byte): (r: seq<Byte>)
    ensures |r| == 3
  {
    [Byte0(Index(e0), Index(e1)), Byte1(Index(e1), Index(e2)), Byte2(Index(e2), Index(e3))]
  }

  /** Everything decode writes before its terminator: whole groups of four only. */
  function Decoded(s: seq<Byte>): seq<Byte>
  {
    if |s| < 4 then [] else Triple(s[0], s[1], s[2], s[3]) + Decoded(s[4..])
  }

  lemma OctetsOfSextets(a: Byte, b: Byte, c: Byte)
    ensures Byte0(a >> 2, ((a & 3) << 4) | (b >> 4)) == a
    ensures Byte1(((a & 3) << 4) | (b >> 4), ((b & 15) << 2) | (c >> 6)) == b
    ensures Byte2(((b & 15) << 2) | (c >> 6), c & 63) == c
  {
  }

  lemma LettersOfBlock(a: Byte, b: Byte, c: Byte)
    ensures var r := FourLetters(a, b, c);
      && Index(r[0]) == a >> 2 && Index(r[1]) == ((a & 3) << 4) | (b >> 4)
      && Index(r[2]) == ((b & 15) << 2) | (c >> 6) && Index(r[3]) == c & 63
  {
    hide Letter, Index, Block;
    Sextets(a, b, c);
    var block := Block(a, b, c);
    IndexOfLetter(((block >> 18) & 0x3F) as bv8);
    IndexOfLetter(((block >> 12) & 0x3F) as bv8);
    IndexOfLetter(((block >> 6) & 0x3F) as bv8);
    IndexOfLetter((block & 0x3F) as bv8);
  }

  lemma TripleOfSextets(a: Byte, b: Byte, c: Byte, e2: Byte, e3: Byte)
    ensures var r := FourLetters(a, b, c);
      && Triple(r[0], r[1], e2, e3)[0] == a
      && Triple(r[0], r[1], r[2], e3)[1] == b
      && Triple(r[0], r[1], r[2], r[3])[2] == c
  {
    hide FourLetters, Index, Byte0, Byte1, Byte2;
    LettersOfBlock(a, b, c);
    OctetsOfSextets(a, b, c);
  }

  lemma TripleOfLetters(a: Byte, b: Byte, c: Byte)
    ensures var r := FourLetters(a, b, c); Triple(r[0], r[1], r[2], r[3]) == [a, b, c]
    ensures var r := FourLetters(a, 0, 0); Triple(r[0], r[1], PAD, PAD)[0] == a
    ensures var r := FourLetters(a, b, 0); Triple(r[0], r[1], r[2], PAD)[..2] == [a, b]
  {
    hide Triple, FourLetters;
    var full, one, two := FourLetters(a, b, c), FourLetters(a, 0, 0), FourLetters(a, b, 0);
    TripleOfSextets(a, b, c, full[2], full[3]);
    TripleOfSextets(a, 0, 0, PAD, PAD);
    TripleOfSextets(a, b, 0, two[2], PAD);
  }

  /** Decoding what encode made gives the bytes back, with at most two more that come from the padding. */
  lemma {:induction false} RoundTrip(x: seq<Byte>)
    ensures var y := Decoded(Encoded(x));
      |y| == |x| + PadCount(|x|) <= |x| + 2 && y[..|x|] == x
    decreases |x|
  {
    hide Triple, FourLetters;
    if |x| >= 3 {
      RoundTrip(x[3..]);
      BlockBack(x[0], x[1], x[2], Encoded(x[3..]));
      var head, tail := [x[0], x[1], x[2]], Decoded(Encoded(x[3..]));
      assert x == head + x[3..];
      CutBehind(head, tail, |x| - 3);
    } else if |x| == 2 {
      TripleOfLetters(x[0], x[1], 0);
      assert Decoded(Encoded(x)[4..]) == [];
      assert x == [x[0], x[1]];
    } else if |x| == 1 {
      TripleOfLetters(x[0], 0, 0);
      assert Decoded(Encoded(x)[4..]) == [];
    }
  }

  lemma BlockBack(a: Byte, b: Byte, c: Byte, rest: seq<Byte>)
    ensures Decoded(FourLetters(a, b, c) + rest) == [a, b, c] + Decoded(rest)
  {
    hide Triple, FourLetters;
    var four := FourLetters(a, b, c);
    TripleOfLetters(a, b, c);
    assert (four + rest)[4..] == rest;
  }

  lemma SextetsOfHigh(i0: bv8, i1: bv8, i2: bv8)
    requires i0 < 64 && i1 < 64 && i2 < 64
    ensures var a, b := Byte0(i0, i1), Byte1(i1, i2); a >> 2 == i0 && ((a & 3) << 4) | (b >> 4) == i1
  {
  }

  lemma SextetsOfLow(i1: bv8, i2: bv8, i3: bv8)
    requires i1 < 64 && i2 < 64 && i3 < 64
    ensures var b, c := Byte1(i1, i2), Byte2(i2, i3); ((b & 15) << 2) | (c >> 6) == i2 && c & 63 == i3
  {
  }

  lemma SextetsOfOctets(i0: bv8, i1: bv8, i2: bv8, i3: bv8)
    requires i0 < 64 && i1 < 64 && i2 < 64 && i3 < 64
    ensures var a, b, c := Byte0(i0, i1), Byte1(i1, i2), Byte2(i2, i3);
      && a >> 2 == i0 && ((a & 3) << 4) | (b >> 4) == i1 && ((b & 15) << 2) | (c >> 6) == i2 && c & 63 == i3
  {
    SextetsOfHigh(i0, i1, i2);
    SextetsOfLow(i1, i2, i3);
    hide Byte0, Byte1, Byte2;
  }

  lemma LetterOfIndex(c: Byte)
    requires Index(c) != XX
    ensures Index(c) < 64 && Letter(Index(c)) == c
  {
  }

  lemma GroupBack(s: seq<Byte>)
    requires |s| == 4 && AllLetters(s)
    ensures var r := Triple(s[0], s[1], s[2], s[3]); FourLetters(r[0], r[1], r[2]) == s
  {
    hide Index, Letter, Byte0, Byte1, Byte2, Block;
    var r := Triple(s[0], s[1], s[2], s[3]);
    forall i | 0 <= i < 4
      ensures Index(s[i]) < 64 && Letter(Index(s[i])) == s[i]
    {
      LetterOfIndex(s[i]);
    }
    SextetsOfOctets(Index(s[0]), Index(s[1]), Index(s[2]), Index(s[3]));
    Sextets(r[0], r[1], r[2]);
  }

  /**
   On whole groups of characters of the alphabet decode agrees with the standard: it makes the one
   string of bytes that the text is the encoding of.
   */
  lemma {:induction false} DecodedIsDecoding(s: seq<Byte>)
    requires AllLetters(s) && |s| % 4 == 0
    ensures Encoded(Decoded(s)) == s && IsEncoding(Decoded(s), s)
    decreases |s|
  {
    hide Index, Triple, FourLetters, IsEncoding;
    if s == [] {
    } else {
      var four, rest := s[..4], s[4..];
      var r := Triple(s[0], s[1], s[2], s[3]);
      GroupBack(four);
      DecodedIsDecoding(rest);
      assert Decoded(s)[3..] == Decoded(rest) && s == four + rest;
    }
    EncodedIsEncoding(Decoded(s));
  }

  lemma DecodesLetters(s: seq<Byte>)
    ensures AllLetters(s) && |s| % 4 == 0 ==> IsEncoding(Decoded(s), s)
  {
    if AllLetters(s) && |s| % 4 == 0 {
      DecodedIsDecoding(s);
    }
  }

  lemma {:induction false} DecodedMore(s: seq<Byte>, g: nat)
    requires 4 * g + 4 <= |s|
    ensures Decoded(s[..4 * g + 4]) == Decoded(s[..4 * g]) + Triple(s[4 * g], s[4 * g + 1], s[4 * g + 2], s[4 * g + 3])
    decreases g
  {
    hide Triple;
    if g == 0 {
      assert s[..4][4..] == [];
    } else {
      var rest := s[4..];
      DecodedMore(rest, g - 1);
      assert s[..4 * g + 4][4..] == rest[..4 * (g - 1) + 4] && s[..4 * g][4..] == rest[..4 * (g - 1)];
      Associative(Triple(s[0], s[1], s[2], s[3]), Decoded(rest[..4 * (g - 1)]),
                  Triple(rest[4 * g - 4], rest[4 * g - 3], rest[4 * g - 2], rest[4 * g - 1]));
    }
  }

  lemma {:induction false} DecodedWhole(s: seq<Byte>)
    ensures Decoded(s) == Decoded(s[..|s| / 4 * 4]) && |Decoded(s)| == |s| / 4 * 3
  {
    hide Triple;
    if |s| >= 4 {
      DecodedWhole(s[4..]);
      assert s[..|s| / 4 * 4][4..] == s[4..][..|s[4..]| / 4 * 4];
    }
  }

  /** Where character i lies, g groups of four having been written. */
  lemma InGroup(i: nat, g: nat)
    requires 4 * g <= i <= 4 * g + 4 && (i > 0 ==> 4 * g < i)
    ensures if i > 0 && i % 4 == 0 then i == 4 * g + 4 else i % 4 == i - 4 * g
  {
  }

  /** Base64::decode of a string without its NUL; the buffer is as long as the string. */
  method Decode(encoded: seq<Byte>) returns (buffer: array<Byte>, position: nat)
    requires forall i :: 0 <= i < |encoded| ==> 0 < encoded[i] < 128
    ensures buffer.Length == |encoded| && position <= |encoded|
    ensures buffer[..position] == Decoded(encoded)
    ensures position < |encoded| ==> buffer[position] == 0
    ensures AllLetters(encoded) && |encoded| % 4 == 0 ==> IsEncoding(buffer[..position], encoded)
  {
    hide Triple, Decoded, Index, IsEncoding, AllLetters;
    DecodesLetters(encoded);
    position := 0;
    var e := new Byte[4];
    var len := |encoded|;
    buffer := new Byte[len];
    // groups written so far
    ghost var g := 0;
    NoneDecoded(encoded);
    for i := 0 to len + 1
      invariant 4 * g <= i <= 4 * g + 4 && 4 * g <= len && (i > 0 ==> 4 * g < i)
      invariant position == 3 * g
      invariant buffer[..position] == Decoded(encoded[..4 * g])
      invariant forall j :: 0 <= j < i - 4 * g && 4 * g + j < len ==> e[j] == encoded[4 * g + j]
    {
      InGroup(i, g);
      if i > 0 && i % 4 == 0 {
        DecodedMore(encoded, g);
        PutTriple(buffer, position, e);
        position := position + 3;
        g := g + 1;
      }
      e[i % 4] := if i < len then encoded[i] else 0;
    }
    DecodedWhole(encoded);
    if position < len {
      buffer[position] := 0;
    }
  }

  /** The three stores of decode's loop. */
  method PutTriple(buffer: array<Byte>, position: nat, e: array<Byte>)
    requires position + 3 <= buffer.Length && e.Length == 4 && e != buffer
    modifies buffer
    ensures buffer[..position + 3] == old(buffer[..position]) + Triple(e[0], e[1], e[2], e[3])
  {
    hide Index, Byte0, Byte1, Byte2;
    buffer[position] := Byte0(Index(e[0]), Index(e[1]));
    buffer[position + 1] := Byte1(Index(e[1]), Index(e[2]));
    buffer[position + 2] := Byte2(Index(e[2]), Index(e[3]));
  }

  lemma NoneDecoded(s: seq<Byte>)
    ensures Decoded(s[..0]) == []
  {
  }
}
