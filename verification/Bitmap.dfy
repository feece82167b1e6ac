/**
 The block bitmap of the shared event buffer: kernel code reserves runs of clear bits in it, and
 user-space code clears them again, byte by byte, in the same memory.
 */
module Bitmap {

  const BLOCK_SIZE := 16
  // BUFFER_SIZE / BLOCK_SIZE bits, one for each block of the 512 KB buffer
  const BITMAP_BITS := 32768
  const BITMAP_BYTES := 4096

  const ULONG_LIMIT := 0x1_0000_0000

  type ULong = x: int | 0 <= x < ULONG_LIMIT

  // ---------------------------------------------------------------- single bits

  predicate BitOf(b: bv8, j: nat)
    requires j < 8
  {
    (b >> j) & 1 == 1
  }

  /** Bit k of the bitmap, counted as RTL_BITMAP does: from the low end of each byte. */
  predicate Bit(bytes: seq<bv8>, k: nat)
    requires k < 8 * |bytes|
  {
    BitOf(bytes[k / 8], k % 8)
  }

  /** `*position &= ~(~(0xFF << count) << shift)` on one byte, computed in int width. */
  function Masked(b: bv8, count: nat, shift: nat): bv8
    requires count <= 8 && shift < 8
  {
    ((b as bv32) & !((!((0xFF as bv32) << count)) << shift) & 0xFF) as bv8
  }

  ghost predicate ClearsOnly(b: bv8, count: nat, shift: nat, j: nat)
    requires j < 8 && count <= 8 && shift < 8
  {
    BitOf(Masked(b, count, shift), j) <==> BitOf(b, j) && !(shift <= j < shift + count)
  }

  lemma MaskFromBit0(b: bv8, count: nat, j: nat)
    requires j < 8 && 1 <= count <= 8
    ensures ClearsOnly(b, count, 0, j)
  {
    if j == 0 {} else if j == 1 {} else if j == 2 {} else if j == 3 {} else if j == 4 {} else if j == 5 {} else if j == 6 {} else {}
    if count == 1 {} else if count == 2 {} else if count == 3 {} else if count == 4 {} else if count == 5 {} else if count == 6 {} else if count == 7 {} else {}
  }

  lemma MaskFromBit1(b: bv8, count: nat, j: nat)
    requires j < 8 && 1 <= count <= 7
    ensures ClearsOnly(b, count, 1, j)
  {
    if j == 0 {} else if j == 1 {} else if j == 2 {} else if j == 3 {} else if j == 4 {} else if j == 5 {} else if j == 6 {} else {}
    if count == 1 {} else if count == 2 {} else if count == 3 {} else if count == 4 {} else if count == 5 {} else if count == 6 {} else {}
  }

  lemma MaskFromBit2(b: bv8, count: nat, j: nat)
    requires j < 8 && 1 <= count <= 6
    ensures ClearsOnly(b, count, 2, j)
  {
    if j == 0 {} else if j == 1 {} else if j == 2 {} else if j == 3 {} else if j == 4 {} else if j == 5 {} else if j == 6 {} else {}
    if count == 1 {} else if count == 2 {} else if count == 3 {} else if count == 4 {} else if count == 5 {} else {}
  }

  lemma MaskFromBit3(b: bv8, count: nat, j: nat)
    requires j < 8 && 1 <= count <= 5
    ensures ClearsOnly(b, count, 3, j)
  {
    if j == 0 {} else if j == 1 {} else if j == 2 {} else if j == 3 {} else if j == 4 {} else if j == 5 {} else if j == 6 {} else {}
    if count == 1 {} else if count == 2 {} else if count == 3 {} else if count == 4 {} else {}
  }

  lemma MaskFromBit4(b: bv8, count: nat, j: nat)
    requires j < 8 && 1 <= count <= 4
    ensures ClearsOnly(b, count, 4, j)
  {
    if j == 0 {} else if j == 1 {} else if j == 2 {} else if j == 3 {} else if j == 4 {} else if j == 5 {} else if j == 6 {} else {}
    if count == 1 {} else if count == 2 {} else if count == 3 {} else {}
  }

  lemma MaskFromBit5(b: bv8, count: nat, j: nat)
    requires j < 8 && 1 <= count <= 3
    ensures ClearsOnly(b, count, 5, j)
  {
    if j == 0 {} else if j == 1 {} else if j == 2 {} else if j == 3 {} else if j == 4 {} else if j == 5 {} else if j == 6 {} else {}
    if count == 1 {} else if count == 2 {} else {}
  }

  lemma MaskFromBit6(b: bv8, count: nat, j: nat)
    requires j < 8 && 1 <= count <= 2
    ensures ClearsOnly(b, count, 6, j)
  {
    if j == 0 {} else if j == 1 {} else if j == 2 {} else if j == 3 {} else if j == 4 {} else if j == 5 {} else if j == 6 {} else {}
    if count == 1 {} else {}
  }

  lemma MaskFromBit7(b: bv8, j: nat)
    requires j < 8
    ensures ClearsOnly(b, 1, 7, j)
  {
    if j == 0 {} else if j == 1 {} else if j == 2 {} else if j == 3 {} else if j == 4 {} else if j == 5 {} else if j == 6 {} else {}
  }

  /** The mask clears exactly the bits [shift, shift + count) of a byte, for every alignment and length. */
  lemma MaskClears(b: bv8, count: nat, shift: nat, j: nat)
    requires j < 8 && 1 <= count && shift + count <= 8
    ensures ClearsOnly(b, count, shift, j)
  {
    hide ClearsOnly;
    match shift
    case 0 => MaskFromBit0(b, count, j);
    case 1 => MaskFromBit1(b, count, j);
    case 2 => MaskFromBit2(b, count, j);
    case 3 => MaskFromBit3(b, count, j);
    case 4 => MaskFromBit4(b, count, j);
    case 5 => MaskFromBit5(b, count, j);
    case 6 => MaskFromBit6(b, count, j);
    case _ => MaskFromBit7(b, j);
  }

  /** A byte is determined by its bits. */
  lemma SameBits(a: bv8, b: bv8)
    requires forall j :: 0 <= j < 8 ==> BitOf(a, j) == BitOf(b, j)
    ensures a == b
  {
    assert BitOf(a, 0) == BitOf(b, 0) && BitOf(a, 1) == BitOf(b, 1) && BitOf(a, 2) == BitOf(b, 2) && BitOf(a, 3) == BitOf(b, 3);
    assert BitOf(a, 4) == BitOf(b, 4) && BitOf(a, 5) == BitOf(b, 5) && BitOf(a, 6) == BitOf(b, 6) && BitOf(a, 7) == BitOf(b, 7);
  }

  lemma SameBitmap(x: seq<bv8>, y: seq<bv8>)
    requires |x| == |y| && forall k :: 0 <= k < 8 * |x| ==> Bit(x, k) == Bit(y, k)
    ensures x == y
  {
    forall i | 0 <= i < |x|
      ensures x[i] == y[i]
    {
      forall j | 0 <= j < 8
        ensures BitOf(x[i], j) == BitOf(y[i], j)
      {
        assert Bit(x, 8 * i + j) == Bit(y, 8 * i + j);
        assert (8 * i + j) / 8 == i && (8 * i + j) % 8 == j;
      }
      SameBits(x[i], y[i]);
    }
  }

  // ---------------------------------------------------------------- clearing a run of bits

  // ALIGN_UP(size, Block) / BLOCK_SIZE, in ULONG arithmetic
  function BlocksFor(size: ULong): ULong
  {
    (size + BLOCK_SIZE - 1) % ULONG_LIMIT / BLOCK_SIZE
  }

  /** The end of the stretch of bits BufferClearBits touches. */
  function ClearEnd(index: nat, bits: nat, bitmapSize: nat): nat
  {
    if index >= bitmapSize then index else if index + bits > bitmapSize then bitmapSize else index + bits
  }

  lemma ClearStep(before: seq<bv8>, after: seq<bv8>, index: nat, count: nat)
    requires index < 8 * |before| && 1 <= count && index % 8 + count <= 8
    requires after == before[index / 8 := Masked(before[index / 8], count, index % 8)]
    ensures forall k :: 0 <= k < 8 * |before| ==> (Bit(after, k) <==> Bit(before, k) && !(index <= k < index + count))
  {
    hide BitOf, Masked;
    forall k | 0 <= k < 8 * |before|
      ensures Bit(after, k) <==> Bit(before, k) && !(index <= k < index + count)
    {
      if k / 8 == index / 8 {
        MaskClears(before[k / 8], count, index % 8, k % 8);
      }
    }
  }

  /** BufferClearBits: `data` is the address of the block less that of the buffer. */
  method BufferClearBits(bitmap: array<bv8>, bitmapSize: ULong, data: ULong, size: ULong)
    requires bitmapSize <= 8 * bitmap.Length
    modifies bitmap
    ensures forall k :: 0 <= k < 8 * bitmap.Length ==>
      (Bit(bitmap[..], k) <==>
         old(Bit(bitmap[..], k)) && !(data / BLOCK_SIZE <= k < ClearEnd(data / BLOCK_SIZE, BlocksFor(size), bitmapSize)))
  {
    hide BitOf, Masked;
    var bits: nat := BlocksFor(size);
    var index: nat := data / BLOCK_SIZE;
    if index >= bitmapSize || bits == 0 {
      return;
    }
    if index + bits > bitmapSize {
      bits := bitmapSize - index;
    }
    var position := index / 8;
    ghost var start, end := index, index + bits;
    while bits != 0
      invariant index + bits == end && start <= index && end <= bitmapSize
      invariant bits != 0 ==> position == index / 8
      invariant forall k :: 0 <= k < 8 * bitmap.Length ==> (Bit(bitmap[..], k) <==> old(Bit(bitmap[..], k)) && !(start <= k < index))
      decreases bits
    {
      var shift := index % 8;
      var count := if bits > 8 - shift then 8 - shift else bits;
      ghost var before := bitmap[..];
      bitmap[position] := Masked(bitmap[position], count, shift);
      ClearStep(before, bitmap[..], index, count);
      position := position + 1;
      bits := bits - count;
      index := index + count;
    }
  }

  // ---------------------------------------------------------------- reserving a run of bits

  /** A reserved run of blocks. */
  datatype Region = Region(start: nat, count: nat)

  predicate Covers(r: Region, k: nat)
  {
    r.start <= k < r.start + r.count
  }

  predicate Apart(r: Region, s: Region)
  {
    r.start + r.count <= s.start || s.start + s.count <= r.start
  }

  ghost predicate IsClear(bytes: seq<bv8>, r: Region)
    requires r.start + r.count <= 8 * |bytes|
  {
    forall k :: r.start <= k < r.start + r.count ==> !Bit(bytes, k)
  }

  /** No run of `count` clear bits exists anywhere. */
  ghost predicate NoRoom(bytes: seq<bv8>, count: nat)
  {
    forall p: nat :: p + count <= 8 * |bytes| ==> !IsClear(bytes, Region(p, count))
  }

  lemma SetBitLow(b: bv8, j: nat, i: nat)
    requires i < 8 && j < 4
    ensures BitOf(b | (1 << j), i) <==> i == j || BitOf(b, i)
  {
    if j == 0 {} else if j == 1 {} else if j == 2 {} else {}
    if i == 0 {} else if i == 1 {} else if i == 2 {} else if i == 3 {} else if i == 4 {} else if i == 5 {} else if i == 6 {} else {}
  }

  lemma SetBitHigh(b: bv8, j: nat, i: nat)
    requires i < 8 && 4 <= j < 8
    ensures BitOf(b | (1 << j), i) <==> i == j || BitOf(b, i)
  {
    if j == 4 {} else if j == 5 {} else if j == 6 {} else {}
    if i == 0 {} else if i == 1 {} else if i == 2 {} else if i == 3 {} else if i == 4 {} else if i == 5 {} else if i == 6 {} else {}
  }

  lemma SetBitOnly(b: bv8, j: nat, i: nat)
    requires i < 8 && j < 8
    ensures BitOf(b | (1 << j), i) <==> i == j || BitOf(b, i)
  {
    if j < 4 {
      SetBitLow(b, j, i);
    } else {
      SetBitHigh(b, j, i);
    }
  }

  method SetRun(bitmap: array<bv8>, r: Region)
    requires r.start + r.count <= 8 * bitmap.Length
    modifies bitmap
    ensures forall k :: 0 <= k < 8 * bitmap.Length ==> (Bit(bitmap[..], k) <==> old(Bit(bitmap[..], k)) || Covers(r, k))
  {
    hide BitOf;
    for i := 0 to r.count
      invariant forall k :: 0 <= k < 8 * bitmap.Length ==>
        (Bit(bitmap[..], k) <==> old(Bit(bitmap[..], k)) || r.start <= k < r.start + i)
    {
      var at := r.start + i;
      ghost var before := bitmap[..];
      bitmap[at / 8] := bitmap[at / 8] | (1 << (at % 8));
      forall k | 0 <= k < 8 * bitmap.Length
        ensures Bit(bitmap[..], k) <==> Bit(before, k) || k == at
      {
        SetBitOnly(before[at / 8], at % 8, k % 8);
      }
    }
  }

  method ClearRunAt(bitmap: array<bv8>, r: Region) returns (clear: bool)
    requires r.start + r.count <= 8 * bitmap.Length
    ensures clear <==> IsClear(bitmap[..], r)
  {
    hide BitOf;
    for i := 0 to r.count
      invariant forall k :: r.start <= k < r.start + i ==> !Bit(bitmap[..], k)
    {
      if Bit(bitmap[..], r.start + i) {
        return false;
      }
    }
    return true;
  }

  /** The first clear run that starts in [from, to), or -1. */
  method FindClearRun(bitmap: array<bv8>, from: nat, to: nat, count: nat) returns (position: int)
    requires from <= to && to + count <= 8 * bitmap.Length + 1
    ensures position == -1 || from <= position < to
    ensures position >= 0 ==> IsClear(bitmap[..], Region(position, count))
    ensures position >= 0 ==> forall p: nat :: from <= p < position ==> !IsClear(bitmap[..], Region(p, count))
    ensures position < 0 ==> forall p: nat :: from <= p < to ==> !IsClear(bitmap[..], Region(p, count))
  {
    hide IsClear;
    for p := from to to
      invariant forall q: nat :: from <= q < p ==> !IsClear(bitmap[..], Region(q, count))
    {
      var clear := ClearRunAt(bitmap, Region(p, count));
      if clear {
        return p;
      }
    }
    return -1;
  }

  /**
   RtlFindClearBitsAndSet, to its documented behaviour: a run is looked for from the hint on, then
   from the start; -1 stands for its 0xFFFFFFFF.
   */
  method FindClearBitsAndSet(bitmap: array<bv8>, count: nat, hint: nat) returns (position: int)
    requires count > 0
    modifies bitmap
    ensures -1 <= position && position + count <= 8 * bitmap.Length + (if position < 0 then count + 1 else 0)
    ensures position < 0 ==> bitmap[..] == old(bitmap[..])
    ensures position < 0 ==> NoRoom(bitmap[..], count)
    ensures position >= 0 ==> IsClear(old(bitmap[..]), Region(position, count))
    ensures hint + count <= 8 * bitmap.Length && IsClear(old(bitmap[..]), Region(hint, count)) ==> position == hint
    ensures var start := if hint + count <= 8 * bitmap.Length then hint else 0;
      && (position >= start ==> forall p: nat :: start <= p < position ==> !IsClear(old(bitmap[..]), Region(p, count)))
      && (0 <= position < start ==> forall p: nat :: p < position || start <= p <= 8 * bitmap.Length - count ==>
            !IsClear(old(bitmap[..]), Region(p, count)))
    ensures position >= 0 ==> forall k :: 0 <= k < 8 * bitmap.Length ==>
      (Bit(bitmap[..], k) <==> old(Bit(bitmap[..], k)) || Covers(Region(position, count), k))
  {
    hide IsClear, BitOf;
    if count > 8 * bitmap.Length {
      return -1;
    }
    var limit := 8 * bitmap.Length - count + 1;
    var start := if hint < limit then hint else 0;
    position := FindClearRun(bitmap, start, limit, count);
    if position < 0 {
      position := FindClearRun(bitmap, 0, start, count);
    }
    if position >= 0 {
      SetRun(bitmap, Region(position, count));
    }
  }

  // ---------------------------------------------------------------- the bitmap and the live reservations

  /**
   The live reservations lie inside the buffer and are pairwise disjoint, and the set bits are
   exactly the union of their blocks.
   */
  ghost predicate Accounts(bytes: seq<bv8>, live: set<Region>)
  {
    && |bytes| == BITMAP_BYTES
    && (forall r :: r in live ==> 0 < r.count && r.start + r.count <= BITMAP_BITS)
    && (forall r, s :: r in live && s in live && r != s ==> Apart(r, s))
    && (forall k :: 0 <= k < BITMAP_BITS ==> (Bit(bytes, k) <==> exists r :: r in live && Covers(r, k)))
  }

  lemma ReserveAccounts(before: seq<bv8>, after: seq<bv8>, live: set<Region>, r: Region)
    requires Accounts(before, live) && |after| == |before|
    requires 0 < r.count && r.start + r.count <= BITMAP_BITS && IsClear(before, r)
    requires forall k :: 0 <= k < BITMAP_BITS ==> (Bit(after, k) <==> Bit(before, k) || Covers(r, k))
    ensures r !in live && Accounts(after, live + {r})
  {
    hide Bit;
    forall s | s in live
      ensures Apart(r, s)
    {
      var k := if r.start < s.start then s.start else r.start;
      assert k < BITMAP_BITS && Covers(s, k) ==> Bit(before, k);
    }
    var live' := live + {r};
    forall k | 0 <= k < BITMAP_BITS
      ensures Bit(after, k) <==> exists s :: s in live' && Covers(s, k)
    {
      if Covers(r, k) {
        assert r in live';
      }
      if Bit(before, k) {
        var s :| s in live && Covers(s, k);
        assert s in live';
      }
    }
  }

  lemma ReleaseAccounts(before: seq<bv8>, after: seq<bv8>, live: set<Region>, r: Region)
    requires Accounts(before, live) && |after| == |before| && r in live
    requires forall k :: 0 <= k < BITMAP_BITS ==> (Bit(after, k) <==> Bit(before, k) && !Covers(r, k))
    ensures Accounts(after, live - {r})
  {
    hide Bit;
    var live' := live - {r};
    forall k | 0 <= k < BITMAP_BITS
      ensures Bit(after, k) <==> exists s :: s in live' && Covers(s, k)
    {
      if Bit(after, k) {
        var s :| s in live && Covers(s, k);
        assert s in live';
      }
      if s :| s in live' && Covers(s, k) {
        assert s in live && Apart(s, r);
      }
    }
  }

  /** Which reservations are live determines the whole bitmap. */
  lemma SameReservations(x: seq<bv8>, y: seq<bv8>, live: set<Region>)
    requires Accounts(x, live) && Accounts(y, live)
    ensures x == y
  {
    hide Bit;
    forall k | 0 <= k < 8 * |x|
      ensures Bit(x, k) == Bit(y, k)
    {
    }
    SameBitmap(x, y);
  }

  /** The Buffer struct, without the block memory itself. */
  class Buffer {
    const bitmap: array<bv8>
    var hint: nat
    ghost var live: set<Region>

    ghost predicate Valid()
      reads this, bitmap
    {
      Accounts(bitmap[..], live)
    }

    // InitialiseBufferManager
    constructor ()
      ensures Valid() && live == {} && hint == 0 && fresh(bitmap)
    {
      bitmap := new bv8[BITMAP_BYTES](_ => 0);
      hint := 0;
      live := {};
    }

    /** ReserveSpace: the block position, or -1 if no run of that many free blocks exists. */
    method ReserveSpace(size: ULong) returns (position: int)
      requires Valid() && 0 < size <= ULONG_LIMIT - BLOCK_SIZE
      modifies this, bitmap
      ensures Valid() && -1 <= position
      ensures position >= 0 ==>
        var r := Region(position, BlocksFor(size));
        && r !in old(live) && live == old(live) + {r} && hint == position
        && BLOCK_SIZE * (r.count - 1) < size <= BLOCK_SIZE * r.count
      ensures old(hint) + BlocksFor(size) <= BITMAP_BITS && IsClear(old(bitmap[..]), Region(old(hint), BlocksFor(size))) ==> position == old(hint)
      ensures position < 0 ==> live == old(live) && bitmap[..] == old(bitmap[..])
      ensures position < 0 ==> NoRoom(bitmap[..], BlocksFor(size))
    {
      hide IsClear, BitOf;
      var bits := BlocksFor(size);
      position := FindClearBitsAndSet(bitmap, bits, hint);
      if position >= 0 {
        hint := position;
        ReserveAccounts(old(bitmap[..]), bitmap[..], live, Region(position, bits));
        live := live + {Region(position, bits)};
      }
    }

    /** BufferClearBits on a live reservation: exactly that one is given back. */
    method Release(data: ULong, size: ULong, ghost r: Region)
      requires Valid() && r in live && r == Region(data / BLOCK_SIZE, BlocksFor(size))
      modifies this`live, bitmap
      ensures Valid() && live == old(live) - {r}
    {
      hide BitOf;
      BufferClearBits(bitmap, BITMAP_BITS, data, size);
      ReleaseAccounts(old(bitmap[..]), bitmap[..], live, r);
      live := live - {r};
    }
  }

  /** Reserving and releasing the same size leaves the bitmap, byte for byte, as it was. */
  method ReserveThenRelease(buffer: Buffer, size: ULong) returns (position: int)
    requires buffer.Valid() && 0 < size <= ULONG_LIMIT - BLOCK_SIZE
    modifies buffer, buffer.bitmap
    ensures buffer.Valid() && buffer.live == old(buffer.live)
    ensures buffer.bitmap[..] == old(buffer.bitmap[..])
  {
    position := buffer.ReserveSpace(size);
    if position >= 0 {
      buffer.Release(position * BLOCK_SIZE, size, Region(position, BlocksFor(size)));
      SameReservations(old(buffer.bitmap[..]), buffer.bitmap[..], buffer.live);
    }
  }
}
