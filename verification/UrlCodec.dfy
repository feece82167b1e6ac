/**
 Url::encode and Url::decode (Url.cpp): percent coding, section 2.1 of RFC 3986, of 16-bit code
 units whose octets are formed as in section 3 of RFC 3629.
 */
module UrlCodec {
  import opened Basics

  /** wchar_t */
  type Wide = bv16

  const PERCENT: Wide := 0x25
  const SPACE: Wide := 0x20
  const PLUS: Wide := 0x2B

  /** A-Z, a-z, 0-9 and - _ . ! ~ * ' ( ) are copied. */
  predicate Copied(c: Wide)
  {
    || 0x41 <= c <= 0x5A || 0x61 <= c <= 0x7A || 0x30 <= c <= 0x39
    || c == 0x2D || c == 0x5F || c == 0x2E || c == 0x21 || c == 0x7E || c == 0x2A || c == 0x27 || c == 0x28 || c == 0x29
  }

  function HexDigit(v: Wide): Wide
    requires v < 16
  {
    if v < 10 then v + 0x30 else v + 0x57
  }

  /** Url::hexenc, one entry for each octet. */
  function HexEnc(octet: Wide): (r: seq<Wide>)
    requires octet < 0x100
    ensures |r| == 3
  {
    [PERCENT, HexDigit(octet >> 4), HexDigit(octet & 0xF)]
  }

  /** What encode appends for one code unit. */
  function EncodeUnit(c: Wide): seq<Wide>
  {
    if Copied(c) then [c]
    else if c == SPACE then [PLUS]
    else if c <= 0x7F then HexEnc(c)
    else if c <= 0x7FF then HexEnc(0xC0 | (c >> 6)) + HexEnc(0x80 | (c & 0x3F))
    else HexEnc(0xE0 | (c >> 12)) + HexEnc(0x80 | ((c >> 6) & 0x3F)) + HexEnc(0x80 | (c & 0x3F))
  }

  function Encoded(s: seq<Wide>): seq<Wide>
  {
    if s == [] then [] else EncodeUnit(s[0]) + Encoded(s[1..])
  }

  // ---------------------------------------------------------------- decode as a state machine

  predicate IsHex(c: Wide)
  {
    0x30 <= c <= 0x39 || 0x61 <= c <= 0x66 || 0x41 <= c <= 0x46
  }

  function HexValue(c: Wide): Wide
    requires IsHex(c)
  {
    if c <= 0x39 then c - 0x30 else if c >= 0x61 then c - 0x57 else c - 0x37
  }

  /** wcstol of 0x followed by the two characters: it stops at the first that is no hex digit. */
  function Wcstol(c: Wide, d: Wide): Wide
  {
    if !IsHex(c) then 0 else if !IsHex(d) then HexValue(c) else (HexValue(c) << 4) | HexValue(d)
  }

  /** The variables that decode carries from one octet to the next, and what it has appended. */
  datatype Decoder = Decoder(sequence: int, conwch: Wide, decoded: seq<Wide>)

  /** Room for six more bits. */
  function Shifted(bits: Wide): Wide
  {
    bits << 6
  }

  /** What decode does with the six bits of a continuation octet. */
  function TakePartial(d: Decoder, bits: Wide): Decoder
  {
    var conwch := d.conwch | (if d.sequence == 2 then Shifted(bits) else bits);
    var sequence := d.sequence - 1;
    Decoder(sequence, conwch, if sequence == 0 then d.decoded + [conwch] else d.decoded)
  }

  /** What decode does with one octet read from %hh. */
  function TakeOctet(d: Decoder, octet: Wide): Decoder
  {
    if octet <= 0x7F then
      d.(decoded := d.decoded + [octet])
    else if octet <= 0xBF then
      TakePartial(d, octet & 0x3F)
    else if octet <= 0xDF then
      d.(conwch := (octet & 0x1F) << 6, sequence := 1)
    else if octet <= 0xEF then
      d.(conwch := (octet & 0xF) << 12, sequence := 2)
    else
      d
  }

  function DecodeFrom(d: Decoder, s: seq<Wide>): Decoder
    decreases |s|
  {
    if s == [] then d
    else if s[0] == PERCENT && |s| > 2 then DecodeFrom(TakeOctet(d, Wcstol(s[1], s[2])), s[3..])
    else DecodeFrom(d.(decoded := d.decoded + [s[0]]), s[1..])
  }

  function Decoded(s: seq<Wide>): seq<Wide>
  {
    DecodeFrom(Decoder(0, 0, []), s).decoded
  }

  // ---------------------------------------------------------------- the round trip

  lemma HexBack(octet: Wide)
    requires octet < 0x100
    ensures var r := HexEnc(octet); Wcstol(r[1], r[2]) == octet
  {
  }

  lemma OctetDecoded(d: Decoder, octet: Wide, rest: seq<Wide>)
    requires octet < 0x100
    ensures DecodeFrom(d, HexEnc(octet) + rest) == DecodeFrom(TakeOctet(d, octet), rest)
  {
    hide HexDigit, Wcstol, TakeOctet;
    HexBack(octet);
    assert (HexEnc(octet) + rest)[3..] == rest;
  }

  lemma TwoOctets(d: Decoder, c: Wide)
    requires 0x80 <= c <= 0x7FF
    ensures 0xC0 | (c >> 6) < 0x100 && 0x80 | (c & 0x3F) < 0x100
    ensures var d' := TakeOctet(TakeOctet(d, 0xC0 | (c >> 6)), 0x80 | (c & 0x3F)); d'.decoded == d.decoded + [c]
  {
  }

  lemma ThreeOctets(d: Decoder, c: Wide)
    requires 0x800 <= c
    ensures 0xE0 | (c >> 12) < 0x100 && 0x80 | ((c >> 6) & 0x3F) < 0x100 && 0x80 | (c & 0x3F) < 0x100
    ensures var d' := TakeOctet(TakeOctet(TakeOctet(d, 0xE0 | (c >> 12)), 0x80 | ((c >> 6) & 0x3F)), 0x80 | (c & 0x3F));
      d'.decoded == d.decoded + [c]
  {
  }

  /** What a code unit comes back as. */
  function Shown(c: Wide): Wide
  {
    if c == SPACE then PLUS else c
  }

  /** Whatever state the decoder is in, it reads back the octets of a code unit as that code unit. */
  lemma UnitDecoded(d: Decoder, c: Wide, rest: seq<Wide>) returns (d': Decoder)
    ensures DecodeFrom(d, EncodeUnit(c) + rest) == DecodeFrom(d', rest) && d'.decoded == d.decoded + [Shown(c)]
  {
    hide HexEnc, TakeOctet;
    if Copied(c) || c == SPACE {
      d' := d.(decoded := d.decoded + [Shown(c)]);
      assert (EncodeUnit(c) + rest)[1..] == rest;
    } else if c <= 0x7F {
      OctetDecoded(d, c, rest);
      d' := TakeAscii(d, c);
    } else if c <= 0x7FF {
      var o1, o2 := 0xC0 | (c >> 6), 0x80 | (c & 0x3F);
      TwoOctets(d, c);
      assert HexEnc(o1) + HexEnc(o2) + rest == HexEnc(o1) + (HexEnc(o2) + rest);
      OctetDecoded(d, o1, HexEnc(o2) + rest);
      OctetDecoded(TakeOctet(d, o1), o2, rest);
      d' := TakeOctet(TakeOctet(d, o1), o2);
    } else {
      var o1, o2, o3 := 0xE0 | (c >> 12), 0x80 | ((c >> 6) & 0x3F), 0x80 | (c & 0x3F);
      ThreeOctets(d, c);
      assert HexEnc(o1) + HexEnc(o2) + HexEnc(o3) + rest == HexEnc(o1) + (HexEnc(o2) + (HexEnc(o3) + rest));
      OctetDecoded(d, o1, HexEnc(o2) + (HexEnc(o3) + rest));
      OctetDecoded(TakeOctet(d, o1), o2, HexEnc(o3) + rest);
      OctetDecoded(TakeOctet(TakeOctet(d, o1), o2), o3, rest);
      d' := TakeOctet(TakeOctet(TakeOctet(d, o1), o2), o3);
    }
  }

  lemma TakeAscii(d: Decoder, c: Wide) returns (d': Decoder)
    requires c <= 0x7F
    ensures d' == TakeOctet(d, c) && d'.decoded == d.decoded + [c]
  {
    d' := TakeOctet(d, c);
  }

  /** The text with every space turned into a plus sign. */
  function Plussed(s: seq<Wide>): seq<Wide>
  {
    if s == [] then [] else [Shown(s[0])] + Plussed(s[1..])
  }

  lemma {:induction false} RoundTripFrom(d: Decoder, s: seq<Wide>)
    ensures DecodeFrom(d, Encoded(s)).decoded == d.decoded + Plussed(s)
    decreases |s|
  {
    hide EncodeUnit, Shown;
    if s != [] {
      var d' := UnitDecoded(d, s[0], Encoded(s[1..]));
      RoundTripFrom(d', s[1..]);
      assert d.decoded + [Shown(s[0])] + Plussed(s[1..]) == d.decoded + Plussed(s);
    }
  }

  lemma {:induction false} PlussedSame(s: seq<Wide>)
    ensures |Plussed(s)| == |s| && (Plussed(s) == s <==> SPACE !in s)
  {
    if s != [] {
      PlussedSame(s[1..]);
      var r := Plussed(s);
      assert s == [s[0]] + s[1..] && r[1..] == Plussed(s[1..]);
      assert r == s <==> r[0] == s[0] && r[1..] == s[1..] by {
        assert r == [r[0]] + r[1..];
      }
    }
  }

  /** Decoding undoes encoding but for spaces: they come back as plus signs, and nothing else changes. */
  lemma RoundTrip(s: seq<Wide>)
    ensures Decoded(Encoded(s)) == Plussed(s)
    ensures Decoded(Encoded(s)) == s <==> SPACE !in s
  {
    RoundTripFrom(Decoder(0, 0, []), s);
    PlussedSame(s);
  }

  /** Outside %hh, and in a % too near the end to be one, decode copies. */
  lemma {:induction false} DecodeCopies(d: Decoder, s: seq<Wide>)
    requires PERCENT !in s || |s| <= 2
    ensures DecodeFrom(d, s) == d.(decoded := d.decoded + s)
    decreases |s|
  {
    if s != [] {
      DecodeCopies(d.(decoded := d.decoded + [s[0]]), s[1..]);
      assert d.decoded + [s[0]] + s[1..] == d.decoded + s;
    } else {
      assert d.decoded + s == d.decoded;
    }
  }

  // ---------------------------------------------------------------- what encode makes, and what it means

  /** Of the characters themselves: letters, digits and nine marks as they are, a plus sign for a space, all else %hh in small letters. */
  ghost predicate SmallHex(c: Wide)
  {
    0x30 <= c <= 0x39 || 0x61 <= c <= 0x66
  }

  ghost predicate Triplets(r: seq<Wide>)
    decreases |r|
  {
    r == [] || (|r| >= 3 && r[0] == PERCENT && SmallHex(r[1]) && SmallHex(r[2]) && Triplets(r[3..]))
  }

  lemma HexEncTriplet(octet: Wide, rest: seq<Wide>)
    requires octet < 0x100 && Triplets(rest)
    ensures Triplets(HexEnc(octet) + rest)
  {
    var v, w := octet >> 4, octet & 0xF;
    assert v < 16 && w < 16;
    assert SmallHex(HexDigit(v)) && SmallHex(HexDigit(w));
    assert (HexEnc(octet) + rest)[3..] == rest;
  }

  lemma OneOctetText(c: Wide)
    requires c < 0x100
    ensures Triplets(HexEnc(c))
  {
    hide HexEnc;
    HexEncTriplet(c, []);
    assert HexEnc(c) + [] == HexEnc(c);
  }

  lemma MoreOctetsText(c: Wide)
    requires c > 0x7F
    ensures Triplets(EncodeUnit(c))
  {
    hide HexEnc, Triplets;
    if c <= 0x7FF {
      var o1, o2 := 0xC0 | (c >> 6), 0x80 | (c & 0x3F);
      TwoBack(c);
      OneOctetText(o2);
      HexEncTriplet(o1, HexEnc(o2));
    } else {
      var o1, o2, o3 := 0xE0 | (c >> 12), 0x80 | ((c >> 6) & 0x3F), 0x80 | (c & 0x3F);
      ThreeBack(c);
      OneOctetText(o3);
      HexEncTriplet(o2, HexEnc(o3));
      HexEncTriplet(o1, HexEnc(o2) + HexEnc(o3));
      Associative(HexEnc(o1), HexEnc(o2), HexEnc(o3));
    }
  }

  lemma UnitText(c: Wide)
    ensures var r := EncodeUnit(c);
      if 0x41 <= c <= 0x5A || 0x61 <= c <= 0x7A || 0x30 <= c <= 0x39 || c in {0x2D, 0x5F, 0x2E, 0x21, 0x7E, 0x2A, 0x27, 0x28, 0x29} then r == [c]
      else if c == 0x20 then r == [0x2B]
      else r != [] && Triplets(r)
  {
    hide HexEnc, Triplets;
    if c > 0x7F {
      MoreOctetsText(c);
    } else {
      OneOctetText(c);
    }
  }

  // ---------------------------------------------------------------- a decoder of form data, as the server's

  /** The octet %hh at position i, with digits of either case. */
  function OctetAt(t: seq<Wide>, i: nat): Option<Wide>
  {
    if i + 2 < |t| && t[i] == PERCENT && IsHex(t[i + 1]) && IsHex(t[i + 2]) then
      Some((HexValue(t[i + 1]) << 4) | HexValue(t[i + 2]))
    else
      None
  }

  predicate Continues(octet: Wide)
  {
    octet & 0xC0 == 0x80
  }

  predicate Surrogate(c: Wide)
  {
    0xD800 <= c <= 0xDFFF
  }

  function Two(o1: Wide, o2: Wide): Wide
  {
    ((o1 & 0x1F) << 6) | (o2 & 0x3F)
  }

  function Three(o1: Wide, o2: Wide, o3: Wide): Wide
  {
    ((o1 & 0xF) << 12) | ((o2 & 0x3F) << 6) | (o3 & 0x3F)
  }

  /** The character whose octets are at the start of t, and how many octets it has; section 3 of RFC 3629. */
  function Character(t: seq<Wide>, surrogates: bool): (r: Option<(Wide, nat)>)
    ensures r.Some? ==> 0 < r.value.1 && 3 * r.value.1 <= |t|
  {
    match OctetAt(t, 0)
    case None => None
    case Some(o1) =>
      if o1 < 0x80 then
        Some((o1, 1))
      else if o1 & 0xE0 == 0xC0 then
        (match OctetAt(t, 3)
         case None => None
         case Some(o2) => if Continues(o2) && Two(o1, o2) >= 0x80 then Some((Two(o1, o2), 2)) else None)
      else if o1 & 0xF0 == 0xE0 then
        (match OctetAt(t, 3)
         case None => None
         case Some(o2) =>
           match OctetAt(t, 6)
           case None => None
           case Some(o3) =>
             var c := Three(o1, o2, o3);
             if Continues(o2) && Continues(o3) && c >= 0x800 && (surrogates || !Surrogate(c)) then Some((c, 3)) else None)
      else
        None
  }

  /**
   A decoder of form data: a plus sign is a space, %hh are octets of UTF-8, all else stands for itself. It
   takes the octets of half a surrogate pair or, as RFC 3629 wants it, refuses them.
   */
  function FormDecode(t: seq<Wide>, surrogates: bool): Option<seq<Wide>>
    decreases |t|
  {
    if t == [] then Some([])
    else if t[0] == PLUS then Behind(SPACE, FormDecode(t[1..], surrogates))
    else if t[0] != PERCENT then Behind(t[0], FormDecode(t[1..], surrogates))
    else
      match Character(t, surrogates)
      case None => None
      case Some(c) => Behind(c.0, FormDecode(t[3 * c.1..], surrogates))
  }

  function Behind(c: Wide, rest: Option<seq<Wide>>): Option<seq<Wide>>
  {
    if rest.Some? then Some([c] + rest.value) else None
  }

  lemma OctetWritten(octet: Wide, before: seq<Wide>, rest: seq<Wide>)
    requires octet < 0x100
    ensures OctetAt(before + (HexEnc(octet) + rest), |before|) == Some(octet)
  {
    var t := before + (HexEnc(octet) + rest);
    assert t[|before|..] == HexEnc(octet) + rest;
    assert t[|before|] == PERCENT && t[|before| + 1] == HexDigit(octet >> 4) && t[|before| + 2] == HexDigit(octet & 0xF);
    HexRead(octet);
  }

  lemma HexRead(octet: Wide)
    requires octet < 0x100
    ensures octet >> 4 < 16 && octet & 0xF < 16
    ensures var c, d := HexDigit(octet >> 4), HexDigit(octet & 0xF);
      IsHex(c) && IsHex(d) && (HexValue(c) << 4) | HexValue(d) == octet
  {
  }

  lemma TwoBack(c: Wide)
    requires 0x80 <= c <= 0x7FF
    ensures var o1, o2 := 0xC0 | (c >> 6), 0x80 | (c & 0x3F);
      0x80 <= o1 < 0x100 && o2 < 0x100 && o1 & 0xE0 == 0xC0 && Continues(o2) && Two(o1, o2) == c
  {
  }

  lemma ThreeBack(c: Wide)
    requires 0x800 <= c
    ensures var o1, o2, o3 := 0xE0 | (c >> 12), 0x80 | ((c >> 6) & 0x3F), 0x80 | (c & 0x3F);
      && 0x80 <= o1 < 0x100 && o2 < 0x100 && o3 < 0x100 && o1 & 0xE0 != 0xC0 && o1 & 0xF0 == 0xE0
      && Continues(o2) && Continues(o3) && Three(o1, o2, o3) == c
  {
  }

  lemma AsciiBack(c: Wide, rest: seq<Wide>, surrogates: bool)
    requires c <= 0x7F
    ensures var t := HexEnc(c) + rest; Character(t, surrogates) == Some((c, 1)) && t[3..] == rest
  {
    hide HexEnc, OctetAt;
    OctetWritten(c, [], rest);
    assert [] + (HexEnc(c) + rest) == HexEnc(c) + rest;
  }

  lemma CharacterTwo(t: seq<Wide>, o1: Wide, o2: Wide, surrogates: bool)
    requires OctetAt(t, 0) == Some(o1) && OctetAt(t, 3) == Some(o2)
    requires 0x80 <= o1 && o1 & 0xE0 == 0xC0 && Continues(o2) && Two(o1, o2) >= 0x80
    ensures Character(t, surrogates) == Some((Two(o1, o2), 2))
  {
    hide HexValue, IsHex;
  }

  lemma TwoOctetsBack(c: Wide, rest: seq<Wide>, surrogates: bool)
    requires 0x80 <= c <= 0x7FF
    ensures var t := EncodeUnit(c) + rest; Character(t, surrogates) == Some((c, 2)) && t[6..] == rest
  {
    hide HexEnc, OctetAt, Character, Two, Continues;
    TwoBack(c);
    var o1, o2 := 0xC0 | (c >> 6), 0x80 | (c & 0x3F);
    var t := (HexEnc(o1) + HexEnc(o2)) + rest;
    assert t == [] + (HexEnc(o1) + (HexEnc(o2) + rest)) == HexEnc(o1) + (HexEnc(o2) + rest);
    OctetWritten(o1, [], HexEnc(o2) + rest);
    OctetWritten(o2, HexEnc(o1), rest);
    CharacterTwo(t, o1, o2, surrogates);
  }

  lemma CharacterThree(t: seq<Wide>, o1: Wide, o2: Wide, o3: Wide, surrogates: bool)
    requires OctetAt(t, 0) == Some(o1) && OctetAt(t, 3) == Some(o2) && OctetAt(t, 6) == Some(o3)
    requires 0x80 <= o1 && o1 & 0xE0 != 0xC0 && o1 & 0xF0 == 0xE0 && Continues(o2) && Continues(o3) && Three(o1, o2, o3) >= 0x800
    ensures Character(t, surrogates)
         == if surrogates || !Surrogate(Three(o1, o2, o3)) then Some((Three(o1, o2, o3), 3)) else None
  {
    hide HexValue, IsHex;
  }

  lemma ThreeOctetsBack(c: Wide, rest: seq<Wide>, surrogates: bool)
    requires 0x800 <= c
    ensures var t := EncodeUnit(c) + rest;
      Character(t, surrogates) == (if surrogates || !Surrogate(c) then Some((c, 3)) else None) && |t| >= 9 && t[9..] == rest
  {
    hide HexEnc, OctetAt, Character, Three, Continues, Surrogate;
    ThreeBack(c);
    var o1, o2, o3 := 0xE0 | (c >> 12), 0x80 | ((c >> 6) & 0x3F), 0x80 | (c & 0x3F);
    var t := (HexEnc(o1) + HexEnc(o2) + HexEnc(o3)) + rest;
    assert t == [] + (HexEnc(o1) + (HexEnc(o2) + (HexEnc(o3) + rest)));
    assert t == HexEnc(o1) + (HexEnc(o2) + (HexEnc(o3) + rest));
    assert t == (HexEnc(o1) + HexEnc(o2)) + (HexEnc(o3) + rest);
    OctetWritten(o1, [], HexEnc(o2) + (HexEnc(o3) + rest));
    OctetWritten(o2, HexEnc(o1), HexEnc(o3) + rest);
    OctetWritten(o3, HexEnc(o1) + HexEnc(o2), rest);
    CharacterThree(t, o1, o2, o3, surrogates);
  }

  /** The octets of a character, read back. */
  lemma CharacterBack(c: Wide, rest: seq<Wide>, surrogates: bool)
    requires !Copied(c) && c != SPACE
    ensures var r := EncodeUnit(c); var t := r + rest;
      && t != [] && t[0] == PERCENT
      && (surrogates || !Surrogate(c) ==> Character(t, surrogates) == Some((c, |r| / 3)) && t[3 * (|r| / 3)..] == rest)
      && (!surrogates && Surrogate(c) ==> Character(t, surrogates) == None)
  {
    hide Character, OctetAt, HexDigit;
    if c <= 0x7F {
      AsciiBack(c, rest, surrogates);
    } else if c <= 0x7FF {
      TwoOctetsBack(c, rest, surrogates);
    } else {
      ThreeOctetsBack(c, rest, surrogates);
    }
  }

  lemma PlainUnit(c: Wide)
    requires Copied(c)
    ensures c != PLUS && c != PERCENT && !Surrogate(c) && EncodeUnit(c) == [c]
  {
  }

  lemma SpaceUnit()
    ensures !Copied(SPACE) && !Surrogate(SPACE) && EncodeUnit(SPACE) == [PLUS]
  {
  }

  /**
   Every text comes back exactly from a decoder that takes single surrogates; from one that refuses them, every
   text without surrogates does and no other.
   */
  lemma {:induction false} FormRoundTrip(s: seq<Wide>, surrogates: bool)
    ensures FormDecode(Encoded(s), surrogates) == if surrogates || forall c :: c in s ==> !Surrogate(c) then Some(s) else None
    decreases |s|
  {
    hide EncodeUnit, Character, Surrogate, Copied;
    if s != [] {
      var c, rest := s[0], Encoded(s[1..]);
      FormRoundTrip(s[1..], surrogates);
      assert s == [c] + s[1..];
      if Copied(c) {
        PlainUnit(c);
        assert (EncodeUnit(c) + rest)[1..] == rest;
      } else if c == SPACE {
        SpaceUnit();
        assert (EncodeUnit(c) + rest)[1..] == rest;
      } else {
        CharacterBack(c, rest, surrogates);
      }
    }
  }

  /** No two texts have the same encoding. */
  lemma EncodedInjective(s: seq<Wide>, t: seq<Wide>)
    ensures Encoded(s) == Encoded(t) <==> s == t
  {
    FormRoundTrip(s, true);
    FormRoundTrip(t, true);
  }

  // ---------------------------------------------------------------- decode on what others have encoded

  lemma OctetTaken(d: Decoder, t: seq<Wide>)
    requires OctetAt(t, 0).Some?
    ensures DecodeFrom(d, t) == DecodeFrom(TakeOctet(d, OctetAt(t, 0).value), t[3..])
  {
    hide TakeOctet, IsHex, HexValue;
    assert Wcstol(t[1], t[2]) == OctetAt(t, 0).value;
  }

  lemma OctetShifted(t: seq<Wide>, i: nat)
    requires 3 <= |t|
    ensures OctetAt(t[3..], i) == OctetAt(t, i + 3)
  {
    hide IsHex, HexValue;
  }

  lemma TwoTaken(d: Decoder, o1: Wide, o2: Wide)
    requires 0x80 <= o1 && o1 & 0xE0 == 0xC0 && Continues(o2) && o1 < 0x100 && o2 < 0x100
    ensures TakeOctet(TakeOctet(d, o1), o2).decoded == d.decoded + [Two(o1, o2)]
  {
  }

  lemma ThreeTaken(d: Decoder, o1: Wide, o2: Wide, o3: Wide)
    requires 0x80 <= o1 && o1 & 0xE0 != 0xC0 && o1 & 0xF0 == 0xE0 && Continues(o2) && Continues(o3)
    requires o1 < 0x100 && o2 < 0x100 && o3 < 0x100
    ensures TakeOctet(TakeOctet(TakeOctet(d, o1), o2), o3).decoded == d.decoded + [Three(o1, o2, o3)]
  {
  }

  lemma OctetSmall(t: seq<Wide>, i: nat)
    requires OctetAt(t, i).Some?
    ensures OctetAt(t, i).value < 0x100
  {
    HexSmall(t[i + 1], t[i + 2]);
  }

  lemma HexSmall(c: Wide, d: Wide)
    requires IsHex(c) && IsHex(d)
    ensures (HexValue(c) << 4) | HexValue(d) < 0x100
  {
  }

  /** What Character found. */
  lemma CharacterOctets(t: seq<Wide>, surrogates: bool)
    requires Character(t, surrogates).Some?
    ensures var (c, n) := Character(t, surrogates).value; var o1 := OctetAt(t, 0);
      && o1.Some? && 1 <= n <= 3
      && (n == 1 ==> o1.value < 0x80 && c == o1.value)
      && (n == 2 ==> OctetAt(t, 3).Some? && 0x80 <= o1.value && o1.value & 0xE0 == 0xC0
                     && Continues(OctetAt(t, 3).value) && c == Two(o1.value, OctetAt(t, 3).value))
      && (n == 3 ==> OctetAt(t, 3).Some? && OctetAt(t, 6).Some?
                     && 0x80 <= o1.value && o1.value & 0xE0 != 0xC0 && o1.value & 0xF0 == 0xE0
                     && Continues(OctetAt(t, 3).value) && Continues(OctetAt(t, 6).value)
                     && c == Three(o1.value, OctetAt(t, 3).value, OctetAt(t, 6).value))
  {
    hide OctetAt, Two, Three, Continues, Surrogate;
  }

  /** One character's octets, whoever wrote them, in digits of either case. */
  lemma CharacterTaken(d: Decoder, t: seq<Wide>, surrogates: bool) returns (d': Decoder)
    requires Character(t, surrogates).Some?
    ensures var (c, n) := Character(t, surrogates).value;
      3 * n <= |t| && DecodeFrom(d, t) == DecodeFrom(d', t[3 * n..]) && d'.decoded == d.decoded + [c]
  {
    hide OctetAt, Two, Three, Continues, TakeOctet, DecodeFrom, Character;
    CharacterOctets(t, surrogates);
    var (c, n) := Character(t, surrogates).value;
    var o1 := OctetAt(t, 0).value;
    OctetTaken(d, t);
    OctetSmall(t, 0);
    d' := TakeOctet(d, o1);
    if n == 1 {
      var d1 := TakeAscii(d, o1);
    } else {
      var o2 := OctetAt(t, 3).value;
      OctetShifted(t, 0);
      OctetSmall(t, 3);
      OctetTaken(d', t[3..]);
      assert t[3..][3..] == t[6..];
      d' := TakeOctet(d', o2);
      if n == 2 {
        TwoTaken(d, o1, o2);
      } else {
        var o3 := OctetAt(t, 6).value;
        OctetShifted(t, 3);
        OctetShifted(t[3..], 0);
        OctetSmall(t, 6);
        OctetTaken(d', t[6..]);
        assert t[6..][3..] == t[9..];
        d' := TakeOctet(d', o3);
        ThreeTaken(d, o1, o2, o3);
      }
    }
  }

  lemma FormFirst(t: seq<Wide>)
    requires t != [] && t[0] != PLUS && FormDecode(t, true).Some?
    ensures t[0] != PERCENT ==>
      FormDecode(t[1..], true).Some? && FormDecode(t, true).value == [t[0]] + FormDecode(t[1..], true).value
    ensures t[0] == PERCENT ==>
      && Character(t, true).Some?
      && var (c, n) := Character(t, true).value;
      FormDecode(t[3 * n..], true).Some? && FormDecode(t, true).value == [c] + FormDecode(t[3 * n..], true).value
  {
    hide Character;
  }

  lemma CopyFirst(d: Decoder, t: seq<Wide>)
    requires t != [] && t[0] != PERCENT
    ensures DecodeFrom(d, t) == DecodeFrom(d.(decoded := d.decoded + [t[0]]), t[1..])
  {
    hide TakeOctet, Wcstol;
  }

  lemma {:induction false} DecodesFrom(d: Decoder, t: seq<Wide>)
    requires FormDecode(t, true).Some? && PLUS !in t
    ensures DecodeFrom(d, t).decoded == d.decoded + FormDecode(t, true).value
    decreases |t|
  {
    if t != [] {
      hide FormDecode, Character, DecodeFrom;
      FormFirst(t);
      if t[0] != PERCENT {
        CopyFirst(d, t);
        DecodesFrom(d.(decoded := d.decoded + [t[0]]), t[1..]);
        Associative(d.decoded, [t[0]], FormDecode(t[1..], true).value);
      } else {
        var (c, n) := Character(t, true).value;
        var d' := CharacterTaken(d, t, true);
        DecodesFrom(d', t[3 * n..]);
        Associative(d.decoded, [c], FormDecode(t[3 * n..], true).value);
      }
    }
  }

  /** A well-formed text without plus signs decodes to what it stands for, whoever encoded it; one without %hh to itself. */
  lemma DecodesWellFormed(t: seq<Wide>)
    ensures PLUS !in t && FormDecode(t, true).Some? ==> Decoded(t) == FormDecode(t, true).value
    ensures PERCENT !in t || |t| <= 2 ==> Decoded(t) == t
  {
    hide FormDecode, DecodeFrom;
    var start := Decoder(0, 0, []);
    if PLUS !in t && FormDecode(t, true).Some? {
      DecodesFrom(start, t);
    }
    if PERCENT !in t || |t| <= 2 {
      DecodeCopies(start, t);
    }
  }

  /** How often a character occurs. */
  function Times(c: Wide, s: seq<Wide>): nat
  {
    if s == [] then 0 else (if s[0] == c then 1 else 0) + Times(c, s[1..])
  }

  lemma {:induction false} TimesConcat(c: Wide, a: seq<Wide>, b: seq<Wide>)
    ensures Times(c, a + b) == Times(c, a) + Times(c, b)
  {
    if a == [] {
      assert a + b == b;
    } else {
      assert (a + b)[0] == a[0] && (a + b)[1..] == a[1..] + b;
      TimesConcat(c, a[1..], b);
    }
  }

  /** The alphabet of an encoded text. */
  ghost predicate FormText(r: seq<Wide>)
    decreases |r|
  {
    || r == []
    || ((0x41 <= r[0] <= 0x5A || 0x61 <= r[0] <= 0x7A || 0x30 <= r[0] <= 0x39
         || r[0] in {0x2D, 0x5F, 0x2E, 0x21, 0x7E, 0x2A, 0x27, 0x28, 0x29} || r[0] == 0x2B) && FormText(r[1..]))
    || (|r| >= 3 && r[0] == 0x25 && SmallHex(r[1]) && SmallHex(r[2]) && FormText(r[3..]))
  }

  lemma {:induction false} TripletsThen(r: seq<Wide>, rest: seq<Wide>)
    requires Triplets(r) && FormText(rest)
    ensures FormText(r + rest)
    decreases |r|
  {
    if r == [] {
      assert r + rest == rest;
    } else {
      TripletsThen(r[3..], rest);
      assert (r + rest)[3..] == r[3..] + rest;
    }
  }

  lemma NothingIsFormText()
    ensures FormText([])
  {
  }

  lemma PlainThen(c: Wide, rest: seq<Wide>)
    requires 0x41 <= c <= 0x5A || 0x61 <= c <= 0x7A || 0x30 <= c <= 0x39 || c in {0x2D, 0x5F, 0x2E, 0x21, 0x7E, 0x2A, 0x27, 0x28, 0x29, 0x2B}
    requires FormText(rest)
    ensures FormText([c] + rest)
  {
    assert ([c] + rest)[1..] == rest;
  }

  lemma UnitAlphabet(c: Wide, rest: seq<Wide>)
    requires FormText(rest)
    ensures FormText(EncodeUnit(c) + rest) && Times(0x2B, EncodeUnit(c)) == if c == 0x20 then 1 else 0
  {
    hide EncodeUnit, SmallHex, FormText, Triplets;
    UnitText(c);
    var r := EncodeUnit(c);
    if Triplets(r) {
      TripletsThen(r, rest);
      NoPlusInTriplets(r);
    } else {
      PlainThen(r[0], rest);
    }
    if |r| == 1 {
      assert r == [r[0]] && r[1..] == [];
    }
  }

  /** An encoded text consists of letters, digits, nine marks, plus signs and %hh in small letters, and has as many plus signs as the text has spaces. */
  lemma {:induction false} EncodedAlphabet(s: seq<Wide>)
    ensures FormText(Encoded(s)) && Times(0x2B, Encoded(s)) == Times(0x20, s)
    decreases |s|
  {
    hide EncodeUnit, SmallHex, FormText;
    if s == [] {
      NothingIsFormText();
    } else {
      var c, r, rest := s[0], EncodeUnit(s[0]), Encoded(s[1..]);
      EncodedAlphabet(s[1..]);
      UnitAlphabet(c, rest);
      TimesConcat(0x2B, r, rest);
    }
  }

  lemma {:induction false} NoPlusInTriplets(r: seq<Wide>)
    requires Triplets(r)
    ensures Times(0x2B, r) == 0
    decreases |r|
  {
    if r != [] {
      NoPlusInTriplets(r[3..]);
      assert r[1..][1..] == r[2..] && r[2..][1..] == r[3..];
      assert Times(0x2B, r[2..]) == 0 && Times(0x2B, r[1..]) == 0;
    }
  }

  // ---------------------------------------------------------------- the loops

  lemma {:induction false} EncodedMore(s: seq<Wide>, i: nat)
    requires i < |s|
    ensures Encoded(s[..i + 1]) == Encoded(s[..i]) + EncodeUnit(s[i])
    decreases i
  {
    hide EncodeUnit;
    if i > 0 {
      EncodedMore(s[1..], i - 1);
      assert s[..i + 1][1..] == s[1..][..i] && s[..i][1..] == s[1..][..i - 1];
    } else {
      assert s[..1][1..] == [];
    }
  }

  /** The body of encode's loop. */
  method AppendUnit(text: seq<Wide>, wch: Wide) returns (encoded: seq<Wide>)
    ensures encoded == text + EncodeUnit(wch)
  {
    hide HexEnc;
    encoded := text;
    if 0x41 <= wch <= 0x5A {
      encoded := encoded + [wch];
    } else if 0x61 <= wch <= 0x7A {
      encoded := encoded + [wch];
    } else if 0x30 <= wch <= 0x39 {
      encoded := encoded + [wch];
    } else if wch == SPACE {
      encoded := encoded + [PLUS];
    } else if wch == 0x2D || wch == 0x5F || wch == 0x2E || wch == 0x21 || wch == 0x7E || wch == 0x2A
              || wch == 0x27 || wch == 0x28 || wch == 0x29 {
      encoded := encoded + [wch];
    } else if wch <= 0x7F {
      encoded := encoded + HexEnc(wch);
    } else if wch <= 0x7FF {
      encoded := encoded + HexEnc(0xC0 | (wch >> 6));
      encoded := encoded + HexEnc(0x80 | (wch & 0x3F));
    } else {
      encoded := encoded + HexEnc(0xE0 | (wch >> 12));
      encoded := encoded + HexEnc(0x80 | ((wch >> 6) & 0x3F));
      encoded := encoded + HexEnc(0x80 | (wch & 0x3F));
    }
  }

  method Encode(text: seq<Wide>) returns (encoded: seq<Wide>)
    ensures encoded == Encoded(text)
    ensures Decoded(encoded) == Plussed(text)
    ensures FormText(encoded) && FormDecode(encoded, true) == Some(text)
  {
    hide Decoded, Encoded, EncodeUnit, FormText, FormDecode;
    NoneEncoded(text);
    encoded := [];
    for i := 0 to |text|
      invariant encoded == Encoded(text[..i])
    {
      EncodedMore(text, i);
      encoded := AppendUnit(encoded, text[i]);
    }
    assert text[..|text|] == text;
    RoundTrip(text);
    FormRoundTrip(text, true);
    EncodedAlphabet(text);
  }

  lemma NoneEncoded(s: seq<Wide>)
    ensures Encoded(s[..0]) == []
  {
  }

  /** What decode's loop does with the value of %hh. */
  method Take(sequence: int, conwch: Wide, decoded: seq<Wide>, octet: Wide)
    returns (sequence': int, conwch': Wide, decoded': seq<Wide>)
    ensures Decoder(sequence', conwch', decoded') == TakeOctet(Decoder(sequence, conwch, decoded), octet)
  {
    hide TakePartial;
    sequence', conwch', decoded' := sequence, conwch, decoded;
    if octet <= 0x7F {
      decoded' := decoded' + [octet];
    } else if 0x80 <= octet <= 0xBF {
      sequence', conwch', decoded' := TakeBits(sequence, conwch, decoded, octet & 0x3F);
    } else if 0xC0 <= octet <= 0xDF {
      conwch' := (octet & 0x1F) << 6;
      sequence' := 1;
    } else if 0xE0 <= octet <= 0xEF {
      conwch' := (octet & 0xF) << 12;
      sequence' := 2;
    }
  }

  method TakeBits(sequence: int, conwch: Wide, decoded: seq<Wide>, bits: Wide)
    returns (sequence': int, conwch': Wide, decoded': seq<Wide>)
    ensures Decoder(sequence', conwch', decoded') == TakePartial(Decoder(sequence, conwch, decoded), bits)
  {
    var tconwch := bits;
    if sequence == 2 {
      tconwch := Shifted(tconwch);
    }
    sequence' := sequence - 1;
    conwch' := conwch | tconwch;
    decoded' := decoded;
    if sequence' == 0 {
      decoded' := decoded' + [conwch'];
    }
  }

  method Decode(text: seq<Wide>) returns (decoded: seq<Wide>)
    ensures decoded == Decoded(text)
    ensures PLUS !in text && FormDecode(text, true).Some? ==> decoded == FormDecode(text, true).value
  {
    hide Wcstol, TakeOctet, FormDecode;
    DecodesWellFormed(text);
    decoded := [];
    var len := |text|;
    var sequence, conwch: Wide := 0, 0;
    var i := 0;
    assert text[0..] == text;
    while i < len
      invariant i <= len
      invariant DecodeFrom(Decoder(sequence, conwch, decoded), text[i..]).decoded == Decoded(text)
      decreases len - i
    {
      ghost var rest := text[i..];
      assert rest != [] && rest[0] == text[i] && rest[1..] == text[i + 1..];
      var wch := text[i];
      i := i + 1;
      if wch == PERCENT && i + 1 < len {
        assert rest[1] == text[i] && rest[2] == text[i + 1] && rest[3..] == text[i + 2..];
        var c := text[i];
        i := i + 1;
        sequence, conwch, decoded := Take(sequence, conwch, decoded, Wcstol(c, text[i]));
      } else {
        i := i - 1;
        decoded := decoded + [text[i]];
      }
      i := i + 1;
    }
  }
}
