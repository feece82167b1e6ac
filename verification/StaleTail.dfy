/**
 Inserting into a drained shared list: its tail still names the last event consumed, whose blocks
 have been given back. InsertEvent links the new event from there all the same. This module says
 exactly when that write leaves a well-formed list.
 */
module StaleTail {
  import opened Words
  import opened Bitmap
  import opened SharedEvents

  /** A write at `at` does not touch the event struct. */
  predicate MissesEvent(s: Rec, at: nat)
  {
    at + 4 <= At(s.block) || At(s.block) + EVENT_BYTES <= at
  }

  /** As far as the write touches a container's header or data, these bytes are there already. */
  ghost predicate MissesPart(mem: seq<Byte>, p: Part, at: nat, src: seq<Byte>)
    requires at + |src| <= |mem|
  {
    forall k :: at <= k < at + |src| && At(p.block) <= k < At(p.block) + CONTAINER_BYTES + |p.field.value| ==> mem[k] == src[k - at]
  }

  /** The write through a stale tail destroys nothing that an event of `recs` says. */
  ghost predicate Harmless(mem: seq<Byte>, recs: set<Rec>, at: nat, src: seq<Byte>)
    requires at + |src| <= |mem|
  {
    forall s :: s in recs ==> MissesEvent(s, at) && forall i :: 0 <= i < |s.parts| ==> MissesPart(mem, s.parts[i], at, src)
  }

  // ---------------------------------------------------------------- one container

  lemma WordsFromWord(a: seq<Byte>, b: seq<Byte>, at: nat)
    requires |a| == |b| && at + 4 <= |a| && Get32(a, at) == Get32(b, at)
    ensures forall k :: at <= k < at + 4 ==> a[k] == b[k]
  {
    hide Get32, Le32;
    WordBytes(a, at);
    WordBytes(b, at);
    forall k | at <= k < at + 4
      ensures a[k] == b[k]
    {
      assert a[k] == a[at..at + 4][k - at] && b[k] == b[at..at + 4][k - at];
    }
  }

  /** What a container says determines its bytes. */
  lemma PartBytes(a: seq<Byte>, b: seq<Byte>, p: Part, next: nat)
    requires |a| == |b| == BUFFER_BYTES && PartOk(a, p, next) && PartOk(b, p, next)
    ensures forall k :: At(p.block) <= k < At(p.block) + CONTAINER_BYTES + |p.field.value| ==> a[k] == b[k]
  {
    hide Get32;
    var at, data := At(p.block), At(p.block) + CONTAINER_BYTES;
    WordsFromWord(a, b, at + NEXT);
    WordsFromWord(a, b, at + KEY);
    WordsFromWord(a, b, at + TYPE);
    WordsFromWord(a, b, at + SIZE);
    forall k | data <= k < data + |p.field.value|
      ensures a[k] == b[k]
    {
      assert a[k] == p.field.value[k - data] == b[k];
    }
  }

  lemma SliceSame(a: seq<Byte>, b: seq<Byte>, lo: nat, hi: nat)
    requires |a| == |b| && lo <= hi <= |a| && forall k :: lo <= k < hi ==> a[k] == b[k]
    ensures a[lo..hi] == b[lo..hi]
  {
  }

  /** A container whose bytes are the same says the same. */
  lemma PartFromBytes(a: seq<Byte>, b: seq<Byte>, p: Part, next: nat)
    requires |a| == |b| == BUFFER_BYTES && PartOk(a, p, next)
    requires forall k :: At(p.block) <= k < At(p.block) + CONTAINER_BYTES + |p.field.value| ==> a[k] == b[k]
    ensures PartOk(b, p, next)
  {
    hide Get32;
    var at, data := At(p.block), At(p.block) + CONTAINER_BYTES;
    SliceSame(a, b, at + NEXT, at + NEXT + 4);
    SliceSame(a, b, at + KEY, at + KEY + 4);
    SliceSame(a, b, at + TYPE, at + TYPE + 4);
    SliceSame(a, b, at + SIZE, at + SIZE + 4);
    SliceSame(a, b, data, data + |p.field.value|);
    SameWord(a, at + NEXT, b, at + NEXT);
    SameWord(a, at + KEY, b, at + KEY);
    SameWord(a, at + TYPE, b, at + TYPE);
    SameWord(a, at + SIZE, b, at + SIZE);
  }

  /** A container still says the same after a write iff the write misses it. */
  lemma PartAfterWrite(mem: seq<Byte>, p: Part, next: nat, at: nat, src: seq<Byte>)
    requires |mem| == BUFFER_BYTES && PartOk(mem, p, next) && at + |src| <= BUFFER_BYTES
    ensures PartOk(Splice(mem, at, src), p, next) <==> MissesPart(mem, p, at, src)
  {
    var mem' := Splice(mem, at, src);
    forall k | 0 <= k < BUFFER_BYTES
      ensures mem'[k] == if at <= k < at + |src| then src[k - at] else mem[k]
    {
    }
    hide Splice, PartOk;
    if MissesPart(mem, p, at, src) {
      PartFromBytes(mem, mem', p, next);
    }
    if PartOk(mem', p, next) {
      PartBytes(mem, mem', p, next);
    }
  }

  // ---------------------------------------------------------------- one event

  lemma EventMissed(mem: seq<Byte>, s: Rec, at: nat, v: nat)
    requires |mem| == BUFFER_BYTES && at + 4 <= BUFFER_BYTES && Inside(EventRegion(s.block)) && MissesEvent(s, at)
    ensures SameLinks(mem, Splice(mem, at, Le32(v)), s)
    ensures Get32(Splice(mem, at, Le32(v)), At(s.block) + HEAD) == Get32(mem, At(s.block) + HEAD)
    ensures Get32(Splice(mem, at, Le32(v)), At(s.block) + TAIL) == Get32(mem, At(s.block) + TAIL)
  {
    hide Get32, Le32, Splice;
    SpliceKeepsWord(mem, at, Le32(v), At(s.block) + NEXT);
    SpliceKeepsWord(mem, at, Le32(v), At(s.block) + PREVIOUS);
    SpliceKeepsWord(mem, at, Le32(v), At(s.block) + READY);
    SpliceKeepsWord(mem, at, Le32(v), At(s.block) + HEAD);
    SpliceKeepsWord(mem, at, Le32(v), At(s.block) + TAIL);
  }

  lemma RecMissed(mem: seq<Byte>, recs: set<Rec>, s: Rec, at: nat, v: nat)
    requires |mem| == BUFFER_BYTES && at + 4 <= BUFFER_BYTES && RecOk(mem, s) && s in recs
    requires Harmless(mem, recs, at, Le32(v))
    ensures RecOk(Splice(mem, at, Le32(v)), s) && SameLinks(mem, Splice(mem, at, Le32(v)), s)
  {
    hide Get32, Le32, Splice, PartOk, MissesPart, MissesEvent, SameLinks;
    assert MissesEvent(s, at);
    EventMissed(mem, s, at, v);
    forall i | 0 <= i < |s.parts|
      ensures PartOk(Splice(mem, at, Le32(v)), s.parts[i], NextPart(s.parts, i))
    {
      PartAfterWrite(mem, s.parts[i], NextPart(s.parts, i), at, Le32(v));
    }
  }

  lemma HarmlessKeepsSound(mem: seq<Byte>, live: set<Region>, queue: seq<Rec>, open: set<Rec>, at: nat, v: nat)
    requires |mem| == BUFFER_BYTES && at + 4 <= BUFFER_BYTES && Sound(mem, live, queue, open)
    requires Harmless(mem, Recs(queue, open), at, Le32(v))
    ensures Sound(Splice(mem, at, Le32(v)), live, queue, open)
  {
    hide Le32, Splice, RecOk, SameLinks, Harmless, Chained, Packed, Owns, Recs;
    var mem' := Splice(mem, at, Le32(v));
    forall s | s in Recs(queue, open)
      ensures RecOk(mem', s) && SameLinks(mem, mem', s)
    {
      RecMissed(mem, Recs(queue, open), s, at, v);
    }
    ChainedFrame(mem, mem', queue, open);
  }

  // ---------------------------------------------------------------- a write that hits something

  /** No container starts where another event does. */
  lemma NotAPart(live: set<Region>, recs: set<Rec>, r: Rec, s: Rec, i: nat)
    requires Packed(live) && Owns(live, recs) && r in recs && s in recs && Spread(s) && i < |s.parts|
    ensures s.parts[i].block != r.block
  {
    hide Extents, Inside;
    PartExtent(s, i);
    EventExtent(r);
    assert PartRegion(s.parts[i]) in live && EventRegion(r.block) in live;
    assert PartRegion(s.parts[i]).count > 0;
  }

  lemma TailIsNoEvent(mem: seq<Byte>, live: set<Region>, recs: set<Rec>, r: Rec, s: Rec)
    requires |mem| == BUFFER_BYTES && Packed(live) && Owns(live, recs) && AllOk(mem, recs) && r in recs && s in recs
    ensures Inside(EventRegion(s.block)) && Get32(mem, At(s.block) + TAIL) != Offset(r.block)
  {
    hide Get32, Packed, Owns, PartOk;
    assert RecOk(mem, s);
    if s.parts != [] {
      NotAPart(live, recs, r, s, |s.parts| - 1);
    }
  }

  /** The one inserted event and those being filled all end their links. */
  lemma NextIsZero(mem: seq<Byte>, r: Rec, open: set<Rec>, s: Rec)
    requires |mem| == BUFFER_BYTES && Chained(mem, [r], open) && s in Recs([r], open)
    ensures At(s.block) + EVENT_BYTES <= BUFFER_BYTES && Get32(mem, At(s.block) + NEXT) == 0
  {
    hide Get32;
    if s in open {
      assert Loose(mem, s);
    } else {
      assert [r][0] == s && LinkedIn(mem, [r], 0);
    }
  }

  /** A write over the start of an event's first or second block ruins a link. */
  lemma EventHit(mem: seq<Byte>, live: set<Region>, r: Rec, open: set<Rec>, s: Rec, b: nat)
    requires |mem| == BUFFER_BYTES && At(b) + 4 <= BUFFER_BYTES && s in Recs([r], open) && r.block < BUFFER_BYTES
    requires Sound(Splice(mem, At(b), Le32(Offset(r.block))), live, [r], open)
    ensures MissesEvent(s, At(b))
  {
    hide Get32, Le32, Splice, AllOk, Owns, Packed, Chained;
    var mem' := Splice(mem, At(b), Le32(Offset(r.block)));
    SpliceWord(mem, At(b), Offset(r.block));
    NextIsZero(mem', r, open, s);
    assert r in [r] && r in Recs([r], open);
    TailIsNoEvent(mem', live, Recs([r], open), r, s);
    assert At(s.block) + NEXT == At(s.block) && At(s.block) + TAIL == At(s.block + 1);
    assert b != s.block && b != s.block + 1;
  }

  lemma SoundMeansHarmless(mem: seq<Byte>, live: set<Region>, r: Rec, open: set<Rec>, b: nat)
    requires |mem| == BUFFER_BYTES && At(b) + 4 <= BUFFER_BYTES && r.block < BUFFER_BYTES
    requires AllOk(mem, Recs([r], open)) && Sound(Splice(mem, At(b), Le32(Offset(r.block))), live, [r], open)
    ensures Harmless(mem, Recs([r], open), At(b), Le32(Offset(r.block)))
  {
    hide Get32, Le32, Splice, Owns, Packed, Chained, Recs, MissesEvent, MissesPart, PartOk;
    var src := Le32(Offset(r.block));
    var mem' := Splice(mem, At(b), src);
    forall s | s in Recs([r], open)
      ensures MissesEvent(s, At(b)) && forall i :: 0 <= i < |s.parts| ==> MissesPart(mem, s.parts[i], At(b), src)
    {
      EventHit(mem, live, r, open, s, b);
      assert RecOk(mem, s) && RecOk(mem', s);
      forall i | 0 <= i < |s.parts|
        ensures MissesPart(mem, s.parts[i], At(b), src)
      {
        PartAfterWrite(mem, s.parts[i], NextPart(s.parts, i), At(b), src);
      }
    }
  }

  // ---------------------------------------------------------------- the insertion

  /** Memory after InsertEvent has made the event ready and pointed it back at the stale tail. */
  function Readied(mem: seq<Byte>, r: Rec, tail: nat): (mem': seq<Byte>)
    requires At(r.block) + EVENT_BYTES <= |mem|
    ensures |mem'| == |mem|
  {
    Splice(Splice(mem, At(r.block) + READY, Le32(1)), At(r.block) + PREVIOUS, Le32(tail))
  }

  /** Memory after all of InsertEvent's writes on a list whose tail is the offset of block b. */
  function StaleInsert(mem: seq<Byte>, r: Rec, b: nat): (mem': seq<Byte>)
    requires At(r.block) + EVENT_BYTES <= |mem| && At(b) + 4 <= |mem|
    ensures |mem'| == |mem|
  {
    Splice(Readied(mem, r, Offset(b)), At(b), Le32(Offset(r.block)))
  }

  lemma ReadiedSound(mem: seq<Byte>, live: set<Region>, open: set<Rec>, r: Rec, tail: Word)
    requires |mem| == BUFFER_BYTES && Sound(mem, live, [], open) && r in open && Inside(EventRegion(r.block))
    ensures Sound(Readied(mem, r, tail), live, [r], open - {r}) && Recs([r], open - {r}) == Recs([], open)
  {
    hide Get32, Le32, Splice, AllOk, Packed, Owns, Chained, LinkWord, Recs;
    var recs := Recs([], open);
    OpenIn([], open, r);
    var readied := Splice(mem, At(r.block) + READY, Le32(1));
    LinkWritten(mem, live, recs, r, READY, 1);
    LinkWritten(readied, live, recs, r, PREVIOUS, tail);
    assert [] + [r] == [r];
    RecsMoved([], open, r);
    ReadiedChained(mem, readied, Readied(mem, r, tail), open, r, tail);
  }

  lemma ReadiedChained(mem: seq<Byte>, readied: seq<Byte>, mem': seq<Byte>, open: set<Rec>, r: Rec, tail: nat)
    requires |mem| == |readied| == |mem'| == BUFFER_BYTES && Chained(mem, [], open) && r in open
    requires Relinked(mem, readied, Recs([], open), r, READY, 1) && Relinked(readied, mem', Recs([], open), r, PREVIOUS, tail)
    ensures Chained(mem', [r], open - {r})
  {
    hide Get32;
    assert Loose(mem, r) && r in Recs([], open);
    assert LinkWord(mem', r, NEXT) == LinkWord(readied, r, NEXT) == LinkWord(mem, r, NEXT);
    assert LinkWord(mem', r, READY) == LinkWord(readied, r, READY) == 1;
    assert LinkedIn(mem', [r], 0);
    forall s | s in open - {r}
      ensures Loose(mem', s)
    {
      assert Loose(mem, s) && s in Recs([], open);
      assert LinkWord(mem', s, NEXT) == LinkWord(readied, s, NEXT) == LinkWord(mem, s, NEXT);
    }
  }

  lemma MissesAlike(a: seq<Byte>, b: seq<Byte>, p: Part, next: nat, at: nat, src: seq<Byte>)
    requires |a| == |b| == BUFFER_BYTES && PartOk(a, p, next) && PartOk(b, p, next) && at + |src| <= BUFFER_BYTES
    requires MissesPart(a, p, at, src)
    ensures MissesPart(b, p, at, src)
  {
    hide PartOk;
    PartBytes(a, b, p, next);
  }

  /** The containers' bytes do not depend on whether the event has been readied. */
  lemma HarmlessAlike(a: seq<Byte>, b: seq<Byte>, recs: set<Rec>, at: nat, src: seq<Byte>)
    requires |a| == |b| == BUFFER_BYTES && AllOk(a, recs) && AllOk(b, recs) && at + |src| <= BUFFER_BYTES
    requires Harmless(a, recs, at, src)
    ensures Harmless(b, recs, at, src)
  {
    hide PartOk, MissesEvent, MissesPart, Get32, Spread;
    forall s | s in recs
      ensures MissesEvent(s, at) && forall i :: 0 <= i < |s.parts| ==> MissesPart(b, s.parts[i], at, src)
    {
      assert RecOk(a, s) && RecOk(b, s);
      forall i | 0 <= i < |s.parts|
        ensures MissesPart(b, s.parts[i], at, src)
      {
        MissesAlike(a, b, s.parts[i], NextPart(s.parts, i), at, src);
      }
    }
  }

  /**
   InsertEvent on a drained list whose tail is the offset of block b gives a well-formed list of this
   one event iff the write through the tail hits no event struct, and no byte of a container it
   hits changes.
   */
  lemma StaleInsertSound(mem: seq<Byte>, live: set<Region>, open: set<Rec>, r: Rec, b: nat)
    requires |mem| == BUFFER_BYTES && Sound(mem, live, [], open) && r in open
    requires Inside(EventRegion(r.block)) && At(b) + 4 <= BUFFER_BYTES
    ensures Sound(StaleInsert(mem, r, b), live, [r], open - {r}) <==> Harmless(mem, open, At(b), Le32(Offset(r.block)))
  {
    hide Get32, Le32, Splice, AllOk, Packed, Owns, Chained, Harmless, Readied;
    var readied, src, rest := Readied(mem, r, Offset(b)), Le32(Offset(r.block)), open - {r};
    ReadiedSound(mem, live, open, r, Offset(b));
    assert Recs([r], rest) == Recs([], open) == open;
    if Harmless(mem, open, At(b), src) {
      HarmlessAlike(mem, readied, open, At(b), src);
      HarmlessKeepsSound(readied, live, [r], rest, At(b), Offset(r.block));
    }
    if Sound(StaleInsert(mem, r, b), live, [r], rest) {
      SoundMeansHarmless(readied, live, r, rest, b);
      HarmlessAlike(readied, mem, open, At(b), src);
    }
  }

  /** A stale tail in blocks that are still free does no harm. */
  lemma FreeIsHarmless(mem: seq<Byte>, live: set<Region>, open: set<Rec>, b: nat, src: seq<Byte>)
    requires |mem| == BUFFER_BYTES && Sound(mem, live, [], open) && At(b) + |src| <= BUFFER_BYTES && |src| == 4
    requires forall e :: e in live ==> Apart(e, Region(b, 1))
    ensures Harmless(mem, open, At(b), src)
  {
    hide Extents, AllOk, Packed, Chained;
    forall s | s in open
      ensures MissesEvent(s, At(b)) && forall i :: 0 <= i < |s.parts| ==> MissesPart(mem, s.parts[i], At(b), src)
    {
      assert s in Recs([], open);
      EventExtent(s);
      assert EventRegion(s.block) in live;
      forall i | 0 <= i < |s.parts|
        ensures MissesPart(mem, s.parts[i], At(b), src)
      {
        PartExtent(s, i);
        assert PartRegion(s.parts[i]) in live;
      }
    }
  }

  /** If the new event was given the blocks the stale tail names, it links to itself. */
  lemma OwnBlockLinksToItself(mem: seq<Byte>, live: set<Region>, open: set<Rec>, r: Rec)
    requires |mem| == BUFFER_BYTES && Sound(mem, live, [], open) && r in open && Inside(EventRegion(r.block))
    ensures Get32(StaleInsert(mem, r, r.block), At(r.block) + NEXT) == Offset(r.block)
    ensures !Sound(StaleInsert(mem, r, r.block), live, [r], open - {r})
  {
    hide Get32, Le32, Splice, Readied, AllOk, Packed, Owns, Chained;
    SpliceWord(Readied(mem, r, Offset(r.block)), At(r.block), Offset(r.block));
    StaleInsertSound(mem, live, open, r, r.block);
    assert !MissesEvent(r, At(r.block));
  }
}
