/**
 Raw memory as the drivers see it: sequences of bytes, 32-bit little-endian words
 inside them, and the one way memory changes, overwriting a stretch of bytes.
 */
module Words {

  type Byte = b: int | 0 <= b < 0x100

  const WORD_LIMIT := 0x1_0000_0000

  type Word = w: int | 0 <= w < WORD_LIMIT

  /** The four bytes of an unsigned int, least significant first; higher bits are cut off. */
  function Le32(v: nat): (bytes: seq<Byte>)
    ensures |bytes| == 4
  {
    [v % 0x100, v / 0x100 % 0x100, v / 0x1_0000 % 0x100, v / 0x100_0000 % 0x100]
  }

  /** The unsigned int stored at position `at`. */
  function Get32(mem: seq<Byte>, at: nat): Word
    requires at + 4 <= |mem|
  {
    mem[at] as int + 0x100 * (mem[at + 1] as int) + 0x1_0000 * (mem[at + 2] as int) + 0x100_0000 * (mem[at + 3] as int)
  }

  lemma Le32RoundTrip(v: nat, mem: seq<Byte>, at: nat)
    requires v < WORD_LIMIT && at + 4 <= |mem| && mem[at..at + 4] == Le32(v)
    ensures Get32(mem, at) == v
  {
    var bytes := mem[at..at + 4];
    assert mem[at] == bytes[0] && mem[at + 1] == bytes[1] && mem[at + 2] == bytes[2] && mem[at + 3] == bytes[3];
    DigitsOf(v);
  }

  lemma DigitsOf(v: nat)
    requires v < WORD_LIMIT
    ensures v % 0x100 + 0x100 * (v / 0x100 % 0x100) + 0x1_0000 * (v / 0x1_0000 % 0x100) + 0x100_0000 * (v / 0x100_0000 % 0x100) == v
  {
    assert v / 0x1_0000 == v / 0x100 / 0x100;
    assert v / 0x100_0000 == v / 0x1_0000 / 0x100;
    assert v / 0x100_0000 < 0x100;
  }

  lemma DigitsBack(a: Byte, b: Byte, c: Byte, d: Byte)
    ensures var v := a as int + 0x100 * (b as int) + 0x1_0000 * (c as int) + 0x100_0000 * (d as int);
      v % 0x100 == a && v / 0x100 % 0x100 == b && v / 0x1_0000 % 0x100 == c && v / 0x100_0000 % 0x100 == d
  {
    var v := a as int + 0x100 * (b as int) + 0x1_0000 * (c as int) + 0x100_0000 * (d as int);
    assert v / 0x100 == b as int + 0x100 * (c as int) + 0x1_0000 * (d as int);
    assert v / 0x1_0000 == v / 0x100 / 0x100 == c as int + 0x100 * (d as int);
    assert v / 0x100_0000 == v / 0x1_0000 / 0x100 == d as int;
  }

  /** A word's bytes are determined by the word. */
  lemma WordBytes(mem: seq<Byte>, at: nat)
    requires at + 4 <= |mem|
    ensures mem[at..at + 4] == Le32(Get32(mem, at))
  {
    DigitsBack(mem[at], mem[at + 1], mem[at + 2], mem[at + 3]);
  }

  /** Two memories holding the same four bytes hold the same word. */
  lemma SameWord(mem: seq<Byte>, at: nat, mem': seq<Byte>, at': nat)
    requires at + 4 <= |mem| && at' + 4 <= |mem'| && mem[at..at + 4] == mem'[at'..at' + 4]
    ensures Get32(mem, at) == Get32(mem', at')
  {
    var bytes := mem[at..at + 4];
    assert mem[at] == bytes[0] && mem[at + 1] == bytes[1] && mem[at + 2] == bytes[2] && mem[at + 3] == bytes[3];
    var bytes' := mem'[at'..at' + 4];
    assert mem'[at'] == bytes'[0] && mem'[at' + 1] == bytes'[1] && mem'[at' + 2] == bytes'[2] && mem'[at' + 3] == bytes'[3];
  }

  /** Memory after the bytes `src` have been written at position `at`. */
  function Splice(mem: seq<Byte>, at: nat, src: seq<Byte>): (mem': seq<Byte>)
    requires at + |src| <= |mem|
    ensures |mem'| == |mem|
    ensures mem'[at..at + |src|] == src
    ensures forall k :: 0 <= k < at || at + |src| <= k < |mem| ==> mem'[k] == mem[k]
  {
    mem[..at] + src + mem[at + |src|..]
  }

  lemma SpliceElsewhere(mem: seq<Byte>, at: nat, src: seq<Byte>, lo: nat, hi: nat)
    requires at + |src| <= |mem| && lo <= hi <= |mem|
    requires hi <= at || at + |src| <= lo
    ensures Splice(mem, at, src)[lo..hi] == mem[lo..hi]
  {
  }

  /** A word is not touched by a write elsewhere. */
  lemma SpliceKeepsWord(mem: seq<Byte>, at: nat, src: seq<Byte>, other: nat)
    requires at + |src| <= |mem| && other + 4 <= |mem|
    requires other + 4 <= at || at + |src| <= other
    ensures Get32(Splice(mem, at, src), other) == Get32(mem, other)
  {
    SpliceElsewhere(mem, at, src, other, other + 4);
    SameWord(mem, other, Splice(mem, at, src), other);
  }

  /** Reading back a word just written. */
  lemma SpliceWord(mem: seq<Byte>, at: nat, v: nat)
    requires at + 4 <= |mem| && v < WORD_LIMIT
    ensures Get32(Splice(mem, at, Le32(v)), at) == v
  {
    Le32RoundTrip(v, Splice(mem, at, Le32(v)), at);
  }

  /** RtlCopyMemory into a buffer. */
  method CopyBytes(dst: array<Byte>, at: nat, src: seq<Byte>)
    requires at + |src| <= dst.Length
    modifies dst
    ensures dst[..] == Splice(old(dst[..]), at, src)
  {
    for k := 0 to |src|
      invariant dst[at..at + k] == src[..k]
      invariant forall j :: 0 <= j < at || at + k <= j < dst.Length ==> dst[j] == old(dst[j])
    {
      dst[at + k] := src[k];
    }
  }

  /** A store through an unsigned int pointer. */
  method PutWord(dst: array<Byte>, at: nat, v: nat)
    requires at + 4 <= dst.Length
    modifies dst
    ensures dst[..] == Splice(old(dst[..]), at, Le32(v))
  {
    CopyBytes(dst, at, Le32(v));
  }

  // ---------------------------------------------------------------- a stretch of memory

  /** The memory holds `bytes` at position `at`. */
  ghost predicate Holds(mem: seq<Byte>, at: nat, bytes: seq<Byte>)
  {
    at + |bytes| <= |mem| && mem[at..at + |bytes|] == bytes
  }

  lemma SplitHolds(mem: seq<Byte>, at: nat, first: seq<Byte>, rest: seq<Byte>)
    requires Holds(mem, at, first + rest)
    ensures Holds(mem, at, first)
    ensures Holds(mem, at + |first|, rest)
  {
    var whole := mem[at..at + |first + rest|];
    assert mem[at..at + |first|] == whole[..|first|];
    assert mem[at + |first|..at + |first| + |rest|] == whole[|first|..];
  }

  lemma WordHeld(mem: seq<Byte>, at: nat, v: nat)
    requires v < WORD_LIMIT && Holds(mem, at, Le32(v))
    ensures at + 4 <= |mem| && Get32(mem, at) == v
  {
    Le32RoundTrip(v, mem, at);
  }
}
