/**
 The event list shared between a kernel driver (Common/EventList.c) and the client
 (NetworkMonitor.cpp), as it lies in the block memory: which blocks belong to which event, what its
 containers say, and how the events are linked.
 */
module SharedEvents {
  import opened Words
  import opened Bitmap

  // Offset of Buffer.buffer in the kernel's EventList: head, tail, RTL_BITMAP, lock, hint, bitmap
  const BUFFER_OFFSET := 4120
  const BUFFER_BYTES := 524288

  // sizeof(Event) and sizeof(DataContainer) of Common/EventList.h
  const EVENT_BYTES := 20
  const CONTAINER_BYTES := 16

  // Byte positions of the fields of Event
  const NEXT := 0
  const PREVIOUS := 4
  const READY := 8
  const HEAD := 12
  const TAIL := 16

  // Byte positions of the fields of DataContainer
  const KEY := 4
  const TYPE := 8
  const SIZE := 12

  /** What one AddEventData call stores. */
  datatype Field = Field(key: Word, kind: Word, value: seq<Byte>)

  /** A container in the buffer, and an event with its containers in chain order. */
  datatype Part = Part(block: nat, field: Field)
  datatype Rec = Rec(block: nat, parts: seq<Part>)

  /** Where a block starts in the block memory, and its offset from the list. */
  function At(block: nat): nat
  {
    BLOCK_SIZE * block
  }

  function Offset(block: nat): nat
  {
    BUFFER_OFFSET + At(block)
  }

  // ---------------------------------------------------------------- the blocks of an event

  function EventRegion(block: nat): Region
  {
    Region(block, 2)
  }

  function ContainerBlocks(size: nat): nat
  {
    (CONTAINER_BYTES + size + BLOCK_SIZE - 1) / BLOCK_SIZE
  }

  function PartRegion(p: Part): Region
  {
    Region(p.block, ContainerBlocks(|p.field.value|))
  }

  function Extents(r: Rec): set<Region>
  {
    {EventRegion(r.block)} + set i | 0 <= i < |r.parts| :: PartRegion(r.parts[i])
  }

  ghost predicate Inside(e: Region)
  {
    At(e.start + e.count) <= BUFFER_BYTES
  }

  /** The bytes of a region are the same in both memories. */
  ghost predicate Same(mem: seq<Byte>, mem': seq<Byte>, e: Region)
    requires |mem| == |mem'| == BUFFER_BYTES
  {
    Inside(e) && mem[At(e.start)..At(e.start + e.count)] == mem'[At(e.start)..At(e.start + e.count)]
  }

  // ---------------------------------------------------------------- what an event says

  /** The container at its block holds the field and links to `next`. */
  ghost predicate PartOk(mem: seq<Byte>, p: Part, next: nat)
    requires |mem| == BUFFER_BYTES
  {
    var at := At(p.block);
    && at + CONTAINER_BYTES + |p.field.value| <= BUFFER_BYTES
    && Get32(mem, at + NEXT) == next
    && Get32(mem, at + KEY) == p.field.key
    && Get32(mem, at + TYPE) == p.field.kind
    && Get32(mem, at + SIZE) == |p.field.value|
    && mem[at + CONTAINER_BYTES..at + CONTAINER_BYTES + |p.field.value|] == p.field.value
  }

  function NextPart(parts: seq<Part>, i: nat): nat
  {
    if i + 1 < |parts| then Offset(parts[i + 1].block) else 0
  }

  function HeadPart(parts: seq<Part>): nat
  {
    if parts == [] then 0 else Offset(parts[0].block)
  }

  function TailPart(parts: seq<Part>): nat
  {
    if parts == [] then 0 else Offset(parts[|parts| - 1].block)
  }

  /** The regions of an event lie in the buffer and do not overlap. */
  ghost predicate Spread(r: Rec)
  {
    && Inside(EventRegion(r.block))
    && (forall i :: 0 <= i < |r.parts| ==> Inside(PartRegion(r.parts[i])) && Apart(EventRegion(r.block), PartRegion(r.parts[i])))
    && (forall i, j :: 0 <= i < j < |r.parts| ==> Apart(PartRegion(r.parts[i]), PartRegion(r.parts[j])))
  }

  ghost predicate RecOk(mem: seq<Byte>, r: Rec)
    requires |mem| == BUFFER_BYTES
  {
    && Spread(r)
    && Get32(mem, At(r.block) + HEAD) == HeadPart(r.parts)
    && Get32(mem, At(r.block) + TAIL) == TailPart(r.parts)
    && (forall i :: 0 <= i < |r.parts| ==> PartOk(mem, r.parts[i], NextPart(r.parts, i)))
  }

  lemma SubSlice(mem: seq<Byte>, lo: nat, hi: nat, at: nat, size: nat)
    requires lo <= at && at + size <= hi <= |mem|
    ensures mem[lo..hi][at - lo..at - lo + size] == mem[at..at + size]
  {
    var whole := mem[lo..hi];
    var part := whole[at - lo..at - lo + size];
    forall k | 0 <= k < size
      ensures part[k] == mem[at..at + size][k]
    {
      assert part[k] == whole[at - lo + k] == mem[at + k];
    }
  }

  lemma WordInRegion(mem: seq<Byte>, mem': seq<Byte>, e: Region, at: nat)
    requires |mem| == |mem'| == BUFFER_BYTES && Same(mem, mem', e)
    requires At(e.start) <= at && at + 4 <= At(e.start + e.count)
    ensures Get32(mem, at) == Get32(mem', at)
  {
    hide Get32;
    var lo, hi := At(e.start), At(e.start + e.count);
    SubSlice(mem, lo, hi, at, 4);
    SubSlice(mem', lo, hi, at, 4);
    SameWord(mem, at, mem', at);
  }

  lemma PartFrame(mem: seq<Byte>, mem': seq<Byte>, p: Part, next: nat)
    requires |mem| == |mem'| == BUFFER_BYTES && Same(mem, mem', PartRegion(p))
    requires PartOk(mem, p, next)
    ensures PartOk(mem', p, next)
  {
    hide Get32;
    var e, at, size := PartRegion(p), At(p.block), |p.field.value|;
    WordInRegion(mem, mem', e, at + NEXT);
    WordInRegion(mem, mem', e, at + KEY);
    WordInRegion(mem, mem', e, at + TYPE);
    WordInRegion(mem, mem', e, at + SIZE);
    var lo, hi := At(e.start), At(e.start + e.count);
    SubSlice(mem, lo, hi, at + CONTAINER_BYTES, size);
    SubSlice(mem', lo, hi, at + CONTAINER_BYTES, size);
  }

  /** An event whose containers and whose head and tail words are untouched still says the same. */
  lemma RecFrame(mem: seq<Byte>, mem': seq<Byte>, r: Rec)
    requires |mem| == |mem'| == BUFFER_BYTES && RecOk(mem, r)
    requires Get32(mem', At(r.block) + HEAD) == Get32(mem, At(r.block) + HEAD)
    requires Get32(mem', At(r.block) + TAIL) == Get32(mem, At(r.block) + TAIL)
    requires forall i :: 0 <= i < |r.parts| ==> Same(mem, mem', PartRegion(r.parts[i]))
    ensures RecOk(mem', r)
  {
    hide Get32, PartOk, Same;
    forall i | 0 <= i < |r.parts|
      ensures PartOk(mem', r.parts[i], NextPart(r.parts, i))
    {
      PartFrame(mem, mem', r.parts[i], NextPart(r.parts, i));
    }
  }

  /** The words that tie an event into the list are the same in both memories. */
  ghost predicate SameLinks(mem: seq<Byte>, mem': seq<Byte>, r: Rec)
    requires |mem| == |mem'| == BUFFER_BYTES
  {
    var at := At(r.block);
    && at + EVENT_BYTES <= BUFFER_BYTES
    && Get32(mem', at + NEXT) == Get32(mem, at + NEXT)
    && Get32(mem', at + PREVIOUS) == Get32(mem, at + PREVIOUS)
    && Get32(mem', at + READY) == Get32(mem, at + READY)
  }

  lemma WordsKept(mem: seq<Byte>, mem': seq<Byte>, r: Rec)
    requires |mem| == |mem'| == BUFFER_BYTES && Same(mem, mem', EventRegion(r.block))
    ensures SameLinks(mem, mem', r)
    ensures Get32(mem', At(r.block) + HEAD) == Get32(mem, At(r.block) + HEAD)
    ensures Get32(mem', At(r.block) + TAIL) == Get32(mem, At(r.block) + TAIL)
  {
    hide Get32;
    var e := EventRegion(r.block);
    assert Inside(e);
    WordInRegion(mem, mem', e, At(r.block) + HEAD);
    WordInRegion(mem, mem', e, At(r.block) + TAIL);
    WordInRegion(mem, mem', e, At(r.block) + NEXT);
    WordInRegion(mem, mem', e, At(r.block) + PREVIOUS);
    WordInRegion(mem, mem', e, At(r.block) + READY);
  }

  lemma PartExtent(r: Rec, i: nat)
    requires i < |r.parts|
    ensures PartRegion(r.parts[i]) in Extents(r)
  {
  }

  lemma RecUntouched(mem: seq<Byte>, mem': seq<Byte>, r: Rec)
    requires |mem| == |mem'| == BUFFER_BYTES && RecOk(mem, r)
    requires forall e :: e in Extents(r) ==> Same(mem, mem', e)
    ensures RecOk(mem', r)
    ensures SameLinks(mem, mem', r)
  {
    hide Get32, PartOk, Same, PartRegion, SameLinks;
    assert EventRegion(r.block) in Extents(r);
    WordsKept(mem, mem', r);
    forall i | 0 <= i < |r.parts|
      ensures Same(mem, mem', PartRegion(r.parts[i]))
    {
      PartExtent(r, i);
    }
    RecFrame(mem, mem', r);
  }

  /** A write inside one region leaves every region apart from it as it was. */
  lemma WriteApart(mem: seq<Byte>, at: nat, src: seq<Byte>, w: Region, e: Region)
    requires |mem| == BUFFER_BYTES && Inside(w) && Inside(e) && Apart(w, e)
    requires At(w.start) <= at && at + |src| <= At(w.start + w.count)
    ensures Same(mem, Splice(mem, at, src), e)
  {
    SpliceElsewhere(mem, at, src, At(e.start), At(e.start + e.count));
  }

  lemma SameTrans(a: seq<Byte>, b: seq<Byte>, c: seq<Byte>, e: Region)
    requires |a| == |b| == |c| == BUFFER_BYTES && Same(a, b, e) && Same(b, c, e)
    ensures Same(a, c, e)
  {
  }

  // ---------------------------------------------------------------- who owns which blocks

  ghost predicate AllOk(mem: seq<Byte>, recs: set<Rec>)
    requires |mem| == BUFFER_BYTES
  {
    forall r :: r in recs ==> RecOk(mem, r)
  }

  /** All an event's blocks are reserved, and no two events share any. */
  ghost predicate Disjoint(live: set<Region>, recs: set<Rec>)
  {
    && (forall r :: r in recs ==> Extents(r) <= live)
    && (forall r, s :: r in recs && s in recs && r != s ==> Extents(r) !! Extents(s))
  }

  /** Every reservation belongs to some event. */
  ghost predicate NoLeak(live: set<Region>, recs: set<Rec>)
  {
    forall e :: e in live ==> exists r :: r in recs && e in Extents(r)
  }

  ghost predicate Owns(live: set<Region>, recs: set<Rec>)
  {
    Disjoint(live, recs) && NoLeak(live, recs)
  }

  lemma DisjointMore(live: set<Region>, recs: set<Rec>, r: Rec)
    requires Disjoint(live, recs) && Extents(r) !! live
    ensures r !in recs && Disjoint(live + Extents(r), recs + {r})
  {
    assert EventRegion(r.block) in Extents(r);
    hide Extents, EventRegion;
    assert r !in recs;
    forall s, t | s in recs + {r} && t in recs + {r} && s != t
      ensures Extents(s) !! Extents(t)
    {
      assert s in recs || t in recs;
    }
  }

  lemma NoLeakMore(live: set<Region>, recs: set<Rec>, r: Rec)
    requires NoLeak(live, recs)
    ensures NoLeak(live + Extents(r), recs + {r})
  {
    hide Extents;
    var recs' := recs + {r};
    forall e | e in live + Extents(r)
      ensures exists s :: s in recs' && e in Extents(s)
    {
      if e in Extents(r) {
        assert r in recs';
      } else {
        var s :| s in recs && e in Extents(s);
        assert s in recs';
      }
    }
  }

  lemma OwnsMore(live: set<Region>, recs: set<Rec>, r: Rec)
    requires Owns(live, recs) && Extents(r) !! live
    ensures r !in recs && Owns(live + Extents(r), recs + {r})
  {
    DisjointMore(live, recs, r);
    NoLeakMore(live, recs, r);
  }

  lemma OwnsLess(live: set<Region>, recs: set<Rec>, r: Rec)
    requires Owns(live, recs) && r in recs
    ensures Owns(live - Extents(r), recs - {r})
  {
    hide Extents;
    var recs' := recs - {r};
    forall e | e in live - Extents(r)
      ensures exists s :: s in recs' && e in Extents(s)
    {
      var s :| s in recs && e in Extents(s);
      assert s in recs';
    }
  }

  // ---------------------------------------------------------------- writes of the producer

  /** Outside the regions `ws` nothing has changed. */
  ghost predicate OnlyIn(mem: seq<Byte>, mem': seq<Byte>, ws: set<Region>)
    requires |mem| == |mem'| == BUFFER_BYTES
  {
    forall e :: Inside(e) && (forall w :: w in ws ==> Apart(w, e)) ==> Same(mem, mem', e)
  }

  lemma WriteOnlyIn(mem: seq<Byte>, at: nat, src: seq<Byte>, w: Region, ws: set<Region>)
    requires |mem| == BUFFER_BYTES && Inside(w) && w in ws
    requires At(w.start) <= at && at + |src| <= At(w.start + w.count)
    ensures OnlyIn(mem, Splice(mem, at, src), ws)
  {
    hide Same;
    forall e | Inside(e) && (forall w :: w in ws ==> Apart(w, e))
      ensures Same(mem, Splice(mem, at, src), e)
    {
      WriteApart(mem, at, src, w, e);
    }
  }

  lemma OnlyInTrans(a: seq<Byte>, b: seq<Byte>, c: seq<Byte>, ws: set<Region>)
    requires |a| == |b| == |c| == BUFFER_BYTES && OnlyIn(a, b, ws) && OnlyIn(b, c, ws)
    ensures OnlyIn(a, c, ws)
  {
    hide Same;
    forall e | Inside(e) && (forall w :: w in ws ==> Apart(w, e))
      ensures Same(a, c, e)
    {
      SameTrans(a, b, c, e);
    }
  }

  /** Writes to blocks not among an event's leave the event as it was. */
  lemma OthersUntouched(mem: seq<Byte>, mem': seq<Byte>, ws: set<Region>, r: Rec)
    requires |mem| == |mem'| == BUFFER_BYTES && OnlyIn(mem, mem', ws) && RecOk(mem, r)
    requires forall w, e :: w in ws && e in Extents(r) ==> Apart(w, e)
    ensures RecOk(mem', r)
    ensures SameLinks(mem, mem', r)
  {
    hide Same, Get32, SameLinks;
    forall e | e in Extents(r)
      ensures Same(mem, mem', e)
    {
    }
    RecUntouched(mem, mem', r);
  }

  lemma RelinkPart(mem: seq<Byte>, p: Part, next: nat, next': nat)
    requires |mem| == BUFFER_BYTES && PartOk(mem, p, next) && next' < WORD_LIMIT
    ensures PartOk(Splice(mem, At(p.block) + NEXT, Le32(next')), p, next')
  {
    hide Get32, Le32, Splice;
    var at := At(p.block);
    SpliceWord(mem, at + NEXT, next');
    SpliceKeepsWord(mem, at + NEXT, Le32(next'), at + KEY);
    SpliceKeepsWord(mem, at + NEXT, Le32(next'), at + TYPE);
    SpliceKeepsWord(mem, at + NEXT, Le32(next'), at + SIZE);
    SpliceElsewhere(mem, at + NEXT, Le32(next'), at + CONTAINER_BYTES, at + CONTAINER_BYTES + |p.field.value|);
  }

  /** A word write into one region, as seen from a part in another. */
  lemma PartKept(mem: seq<Byte>, at: nat, v: nat, w: Region, p: Part, next: nat)
    requires |mem| == BUFFER_BYTES && PartOk(mem, p, next) && Inside(w) && Inside(PartRegion(p)) && Apart(w, PartRegion(p))
    requires At(w.start) <= at && at + 4 <= At(w.start + w.count)
    ensures PartOk(Splice(mem, at, Le32(v)), p, next)
  {
    hide PartOk, Same;
    WriteApart(mem, at, Le32(v), w, PartRegion(p));
    PartFrame(mem, Splice(mem, at, Le32(v)), p, next);
  }

  /** Linking the first container of an event: its offset becomes head and tail. */
  lemma LinkFirst(mem: seq<Byte>, r: Rec, p: Part, headed: seq<Byte>, mem': seq<Byte>)
    requires |mem| == BUFFER_BYTES && RecOk(mem, r) && r.parts == [] && PartOk(mem, p, 0) && Spread(Rec(r.block, [p]))
    requires headed == Splice(mem, At(r.block) + HEAD, Le32(Offset(p.block)))
    requires mem' == Splice(headed, At(r.block) + TAIL, Le32(Offset(p.block)))
    ensures RecOk(mem', Rec(r.block, [p]))
  {
    hide PartOk, Get32, Le32, Splice;
    var w := EventRegion(r.block);
    var event := Rec(r.block, [p]);
    assert event.parts[0] == p;
    PartKept(mem, At(r.block) + HEAD, Offset(p.block), w, p, 0);
    PartKept(headed, At(r.block) + TAIL, Offset(p.block), w, p, 0);
    SpliceWord(mem, At(r.block) + HEAD, Offset(p.block));
    SpliceKeepsWord(headed, At(r.block) + TAIL, Le32(Offset(p.block)), At(r.block) + HEAD);
    SpliceWord(headed, At(r.block) + TAIL, Offset(p.block));
  }

  /** One container of an event, after a further one has been linked behind its last. */
  lemma LinkedPart(mem: seq<Byte>, r: Rec, p: Part, linked: seq<Byte>, i: nat)
    requires |mem| == BUFFER_BYTES && RecOk(mem, r) && r.parts != [] && PartOk(mem, p, 0) && Spread(Rec(r.block, r.parts + [p]))
    requires linked == Splice(mem, At(r.parts[|r.parts| - 1].block) + NEXT, Le32(Offset(p.block)))
    requires i <= |r.parts|
    ensures var parts := r.parts + [p]; PartOk(linked, parts[i], NextPart(parts, i))
  {
    hide PartOk, Get32, Le32, Splice, Spread;
    var n := |r.parts| - 1;
    var last, off, parts := r.parts[n], Offset(p.block), r.parts + [p];
    SpreadPieces(Rec(r.block, parts));
    assert parts[n] == last && parts[n + 1] == p;
    if i < n {
      assert parts[i] == r.parts[i] && NextPart(parts, i) == NextPart(r.parts, i);
      PartKept(mem, At(last.block) + NEXT, off, PartRegion(last), parts[i], NextPart(parts, i));
    } else if i == n {
      RelinkPart(mem, last, 0, off);
    } else {
      PartKept(mem, At(last.block) + NEXT, off, PartRegion(last), p, 0);
    }
  }

  lemma TailWords(mem: seq<Byte>, block: nat, w: Region, at: nat, off: nat, linked: seq<Byte>, mem': seq<Byte>)
    requires |mem| == BUFFER_BYTES && Inside(EventRegion(block)) && Inside(w) && Apart(EventRegion(block), w)
    requires At(w.start) <= at && at + 4 <= At(w.start + w.count) && off < WORD_LIMIT
    requires linked == Splice(mem, at, Le32(off)) && mem' == Splice(linked, At(block) + TAIL, Le32(off))
    ensures Get32(mem', At(block) + HEAD) == Get32(mem, At(block) + HEAD)
    ensures Get32(mem', At(block) + TAIL) == off
  {
    hide Get32, Le32, Splice;
    SpliceKeepsWord(mem, at, Le32(off), At(block) + HEAD);
    SpliceKeepsWord(linked, At(block) + TAIL, Le32(off), At(block) + HEAD);
    SpliceWord(linked, At(block) + TAIL, off);
  }

  lemma LinkedParts(mem: seq<Byte>, r: Rec, p: Part, linked: seq<Byte>, mem': seq<Byte>)
    requires |mem| == BUFFER_BYTES && RecOk(mem, r) && r.parts != [] && PartOk(mem, p, 0) && Spread(Rec(r.block, r.parts + [p]))
    requires linked == Splice(mem, At(r.parts[|r.parts| - 1].block) + NEXT, Le32(Offset(p.block)))
    requires mem' == Splice(linked, At(r.block) + TAIL, Le32(Offset(p.block)))
    ensures var parts := r.parts + [p]; forall i :: 0 <= i < |parts| ==> PartOk(mem', parts[i], NextPart(parts, i))
  {
    hide PartOk, Get32, Le32, Splice, Spread, NextPart;
    var parts := r.parts + [p];
    SpreadPieces(Rec(r.block, parts));
    forall i | 0 <= i < |parts|
      ensures PartOk(mem', parts[i], NextPart(parts, i))
    {
      LinkedPart(mem, r, p, linked, i);
      PartKept(linked, At(r.block) + TAIL, Offset(p.block), EventRegion(r.block), parts[i], NextPart(parts, i));
    }
  }

  lemma LinkedWords(mem: seq<Byte>, r: Rec, p: Part, linked: seq<Byte>, mem': seq<Byte>)
    requires |mem| == BUFFER_BYTES && RecOk(mem, r) && r.parts != [] && Spread(Rec(r.block, r.parts + [p]))
    requires At(r.parts[|r.parts| - 1].block) + 4 <= BUFFER_BYTES
    requires linked == Splice(mem, At(r.parts[|r.parts| - 1].block) + NEXT, Le32(Offset(p.block)))
    requires mem' == Splice(linked, At(r.block) + TAIL, Le32(Offset(p.block)))
    ensures Get32(mem', At(r.block) + HEAD) == HeadPart(r.parts + [p])
    ensures Get32(mem', At(r.block) + TAIL) == TailPart(r.parts + [p])
  {
    hide PartOk, Get32, Le32, Splice, Spread;
    var n, parts := |r.parts| - 1, r.parts + [p];
    SpreadPieces(Rec(r.block, parts));
    assert parts[n] == r.parts[n] && parts[n + 1] == p && parts[0] == r.parts[0];
    TailWords(mem, r.block, PartRegion(parts[n]), At(parts[n].block) + NEXT, Offset(p.block), linked, mem');
  }

  /** Linking a further container: the last one's link and the event's tail get its offset. */
  lemma LinkMore(mem: seq<Byte>, r: Rec, p: Part, linked: seq<Byte>, mem': seq<Byte>)
    requires |mem| == BUFFER_BYTES && RecOk(mem, r) && r.parts != [] && PartOk(mem, p, 0) && Spread(Rec(r.block, r.parts + [p]))
    requires linked == Splice(mem, At(r.parts[|r.parts| - 1].block) + NEXT, Le32(Offset(p.block)))
    requires mem' == Splice(linked, At(r.block) + TAIL, Le32(Offset(p.block)))
    ensures RecOk(mem', Rec(r.block, r.parts + [p]))
  {
    hide PartOk, Get32, Le32, Splice, Spread, NextPart, HeadPart, TailPart;
    var n, parts := |r.parts| - 1, r.parts + [p];
    SpreadPieces(Rec(r.block, parts));
    assert parts[n] == r.parts[n] && Inside(PartRegion(parts[n]));
    LinkedParts(mem, r, p, linked, mem');
    LinkedWords(mem, r, p, linked, mem');
  }

  lemma SpreadPieces(r: Rec)
    requires Spread(r)
    ensures Inside(EventRegion(r.block))
    ensures forall i :: 0 <= i < |r.parts| ==> Inside(PartRegion(r.parts[i])) && Apart(EventRegion(r.block), PartRegion(r.parts[i]))
    ensures forall i, j :: 0 <= i < |r.parts| && 0 <= j < |r.parts| && i != j ==> Apart(PartRegion(r.parts[i]), PartRegion(r.parts[j]))
  {
  }

  // ---------------------------------------------------------------- the whole list

  ghost predicate Packed(live: set<Region>)
  {
    && (forall e :: e in live ==> 0 < e.count && Inside(e))
    && (forall e, f :: e in live && f in live && e != f ==> Apart(e, f))
  }

  lemma PackedInside(live: set<Region>, e: Region)
    requires Packed(live) && e in live
    ensures Inside(e) && 0 < e.count
  {
  }

  lemma AccountsPacked(bytes: seq<bv8>, live: set<Region>)
    requires Accounts(bytes, live)
    ensures Packed(live)
  {
    hide Bit;
  }

  /** Writes into reserved regions leave the events that do not own them as they were. */
  lemma OthersKept(mem: seq<Byte>, mem': seq<Byte>, live: set<Region>, recs: set<Rec>, ws: set<Region>)
    requires |mem| == |mem'| == BUFFER_BYTES && OnlyIn(mem, mem', ws) && AllOk(mem, recs)
    requires Packed(live) && ws <= live
    requires forall s :: s in recs ==> Extents(s) <= live && Extents(s) !! ws
    ensures AllOk(mem', recs)
    ensures forall s :: s in recs ==> SameLinks(mem, mem', s)
  {
    hide Extents, RecOk, OnlyIn, SameLinks;
    forall s | s in recs
      ensures RecOk(mem', s) && SameLinks(mem, mem', s)
    {
      assert forall w, e :: w in ws && e in Extents(s) ==> Apart(w, e);
      OthersUntouched(mem, mem', ws, s);
    }
  }

  function EventOffset(queue: seq<Rec>, i: nat): nat
  {
    if i < |queue| then Offset(queue[i].block) else 0
  }

  function LastOffset(queue: seq<Rec>): nat
  {
    if queue == [] then 0 else Offset(queue[|queue| - 1].block)
  }

  /** Queued event i links to the one behind it, is marked ready, and points back unless it is the first. */
  ghost predicate LinkedIn(mem: seq<Byte>, queue: seq<Rec>, i: nat)
    requires |mem| == BUFFER_BYTES && i < |queue|
  {
    var at := At(queue[i].block);
    && at + EVENT_BYTES <= BUFFER_BYTES
    && Get32(mem, at + NEXT) == EventOffset(queue, i + 1)
    && Get32(mem, at + READY) == 1
    && (i > 0 ==> Get32(mem, at + PREVIOUS) == Offset(queue[i - 1].block))
  }

  /** An event still being filled is not linked to anything. */
  ghost predicate Loose(mem: seq<Byte>, r: Rec)
    requires |mem| == BUFFER_BYTES
  {
    At(r.block) + EVENT_BYTES <= BUFFER_BYTES && Get32(mem, At(r.block) + NEXT) == 0
  }

  ghost predicate Distinct(queue: seq<Rec>, open: set<Rec>)
  {
    && (forall i, j :: 0 <= i < j < |queue| ==> queue[i] != queue[j])
    && (forall q :: q in queue ==> q !in open)
  }

  ghost predicate Chained(mem: seq<Byte>, queue: seq<Rec>, open: set<Rec>)
    requires |mem| == BUFFER_BYTES
  {
    && Distinct(queue, open)
    && (forall i :: 0 <= i < |queue| ==> LinkedIn(mem, queue, i))
    && (forall r :: r in open ==> Loose(mem, r))
  }

  ghost function Recs(queue: seq<Rec>, open: set<Rec>): set<Rec>
  {
    (set r | r in queue) + open
  }

  lemma ChainedFrame(mem: seq<Byte>, mem': seq<Byte>, queue: seq<Rec>, open: set<Rec>)
    requires |mem| == |mem'| == BUFFER_BYTES && Chained(mem, queue, open)
    requires forall s :: s in Recs(queue, open) ==> SameLinks(mem, mem', s)
    ensures Chained(mem', queue, open)
  {
    hide Get32;
    forall i | 0 <= i < |queue|
      ensures LinkedIn(mem', queue, i)
    {
      assert queue[i] in Recs(queue, open) && LinkedIn(mem, queue, i);
    }
    forall r | r in open
      ensures Loose(mem', r)
    {
      assert r in Recs(queue, open) && Loose(mem, r);
    }
  }

  // ---------------------------------------------------------------- creating an event

  /** A zeroed event in freshly reserved blocks joins the open ones. */
  lemma Created(mem: seq<Byte>, mem': seq<Byte>, live: set<Region>, queue: seq<Rec>, open: set<Rec>, r: Rec, zeros: seq<Byte>)
    requires |mem| == BUFFER_BYTES && r.parts == []
    requires Owns(live, Recs(queue, open)) && AllOk(mem, Recs(queue, open)) && Chained(mem, queue, open)
    requires EventRegion(r.block) !in live && Packed(live + {EventRegion(r.block)})
    requires |zeros| == EVENT_BYTES && (forall k :: 0 <= k < EVENT_BYTES ==> zeros[k] == 0)
    requires At(r.block) + EVENT_BYTES <= BUFFER_BYTES && mem' == Splice(mem, At(r.block), zeros)
    ensures r !in Recs(queue, open) && Owns(live + {EventRegion(r.block)}, Recs(queue, open + {r}))
    ensures AllOk(mem', Recs(queue, open + {r})) && Chained(mem', queue, open + {r})
  {
    hide Extents, EventRegion, Chained, Owns, AllOk, OnlyIn, RecOk, SameLinks, Recs, Splice, Loose, Packed, Inside;
    var region := EventRegion(r.block);
    var live', recs := live + {region}, Recs(queue, open);
    BareExtents(r);
    RecsMore(queue, open, r);
    PackedInside(live', region);
    OwnsMore(live, recs, r);
    ZeroedEvent(mem, mem', r, zeros);
    DisjointFrom(live, recs, region);
    OthersKept(mem, mem', live', recs, {region});
    AllOkMore(mem', recs, r);
    ChainedFrame(mem, mem', queue, open);
    ChainedMore(mem', queue, open, r);
  }

  lemma BareExtents(r: Rec)
    requires r.parts == []
    ensures Extents(r) == {EventRegion(r.block)}
  {
  }

  lemma RecsMore(queue: seq<Rec>, open: set<Rec>, r: Rec)
    ensures Recs(queue, open + {r}) == Recs(queue, open) + {r}
  {
  }

  lemma DisjointFrom(live: set<Region>, recs: set<Rec>, e: Region)
    requires Owns(live, recs) && e !in live
    ensures forall s :: s in recs ==> Extents(s) <= live + {e} && Extents(s) !! {e}
  {
    hide Extents;
  }

  lemma AllOkMore(mem: seq<Byte>, recs: set<Rec>, r: Rec)
    requires |mem| == BUFFER_BYTES && AllOk(mem, recs) && RecOk(mem, r)
    ensures AllOk(mem, recs + {r})
  {
    hide RecOk;
  }

  lemma ChainedMore(mem: seq<Byte>, queue: seq<Rec>, open: set<Rec>, r: Rec)
    requires |mem| == BUFFER_BYTES && Chained(mem, queue, open) && Loose(mem, r) && r !in Recs(queue, open)
    ensures Chained(mem, queue, open + {r})
  {
    hide Loose, LinkedIn;
    var open' := open + {r};
    forall q | q in queue
      ensures q !in open'
    {
      assert q in Recs(queue, open);
    }
  }

  lemma ZeroedEvent(mem: seq<Byte>, mem': seq<Byte>, r: Rec, zeros: seq<Byte>)
    requires |mem| == BUFFER_BYTES && r.parts == [] && Inside(EventRegion(r.block))
    requires |zeros| == EVENT_BYTES && (forall k :: 0 <= k < EVENT_BYTES ==> zeros[k] == 0)
    requires At(r.block) + EVENT_BYTES <= BUFFER_BYTES && mem' == Splice(mem, At(r.block), zeros)
    ensures RecOk(mem', r) && Loose(mem', r) && OnlyIn(mem, mem', {EventRegion(r.block)})
  {
    var at := At(r.block);
    forall j | at <= j < at + EVENT_BYTES
      ensures mem'[j] == 0
    {
      assert mem'[at..at + EVENT_BYTES][j - at] == zeros[j - at];
    }
    WriteOnlyIn(mem, at, zeros, EventRegion(r.block), {EventRegion(r.block)});
  }

  // ---------------------------------------------------------------- adding data to an event

  lemma OnlyInWider(mem: seq<Byte>, mem': seq<Byte>, ws: set<Region>, ws': set<Region>)
    requires |mem| == |mem'| == BUFFER_BYTES && OnlyIn(mem, mem', ws) && ws <= ws'
    ensures OnlyIn(mem, mem', ws')
  {
    hide Same;
    forall e | Inside(e) && (forall w :: w in ws' ==> Apart(w, e))
      ensures Same(mem, mem', e)
    {
      assert forall w :: w in ws ==> Apart(w, e);
    }
  }

  lemma WordOnlyIn(mem: seq<Byte>, at: nat, v: nat, w: Region, ws: set<Region>)
    requires |mem| == BUFFER_BYTES && Inside(w) && w in ws
    requires At(w.start) <= at && at + 4 <= At(w.start + w.count)
    ensures OnlyIn(mem, Splice(mem, at, Le32(v)), ws)
  {
    WriteOnlyIn(mem, at, Le32(v), w, ws);
  }

  function Zeros(n: nat): (bytes: seq<Byte>)
    ensures |bytes| == n && forall k :: 0 <= k < n ==> bytes[k] == 0
  {
    seq(n, k => 0)
  }

  /** Memory after AddEventData's writes to a container: header zeroed, key, type, size, and maybe the data. */
  function Zeroed(mem: seq<Byte>, at: nat): (mem': seq<Byte>)
    requires at + CONTAINER_BYTES <= |mem|
    ensures |mem'| == |mem|
  {
    Splice(mem, at, Zeros(CONTAINER_BYTES))
  }

  function Headed(mem: seq<Byte>, at: nat, f: Field): (mem': seq<Byte>)
    requires at + CONTAINER_BYTES <= |mem|
    ensures |mem'| == |mem|
  {
    var keyed := Splice(Zeroed(mem, at), at + KEY, Le32(f.key));
    var typed := Splice(keyed, at + TYPE, Le32(f.kind));
    Splice(typed, at + SIZE, Le32(|f.value|))
  }

  lemma ZeroedNext(mem: seq<Byte>, at: nat)
    requires at + CONTAINER_BYTES <= |mem|
    ensures Get32(Zeroed(mem, at), at + NEXT) == 0
  {
    var mem' := Zeroed(mem, at);
    forall j | at <= j < at + CONTAINER_BYTES
      ensures mem'[j] == 0
    {
      assert mem'[at..at + CONTAINER_BYTES][j - at] == 0;
    }
  }

  lemma HeadedWords(mem: seq<Byte>, at: nat, f: Field)
    requires at + CONTAINER_BYTES <= |mem| && |f.value| < WORD_LIMIT
    ensures var m := Headed(mem, at, f);
      && Get32(m, at + NEXT) == 0 && Get32(m, at + KEY) == f.key
      && Get32(m, at + TYPE) == f.kind && Get32(m, at + SIZE) == |f.value|
  {
    hide Get32, Le32, Splice, Zeroed;
    var zeroed := Zeroed(mem, at);
    var keyed := Splice(zeroed, at + KEY, Le32(f.key));
    var typed := Splice(keyed, at + TYPE, Le32(f.kind));
    ZeroedNext(mem, at);
    SpliceKeepsWord(zeroed, at + KEY, Le32(f.key), at + NEXT);
    SpliceWord(zeroed, at + KEY, f.key);
    SpliceKeepsWord(keyed, at + TYPE, Le32(f.kind), at + NEXT);
    SpliceKeepsWord(keyed, at + TYPE, Le32(f.kind), at + KEY);
    SpliceWord(keyed, at + TYPE, f.kind);
    SpliceKeepsWord(typed, at + SIZE, Le32(|f.value|), at + NEXT);
    SpliceKeepsWord(typed, at + SIZE, Le32(|f.value|), at + KEY);
    SpliceKeepsWord(typed, at + SIZE, Le32(|f.value|), at + TYPE);
    SpliceWord(typed, at + SIZE, |f.value|);
  }

  lemma HeadedOnlyIn(mem: seq<Byte>, at: nat, f: Field, w: Region)
    requires |mem| == BUFFER_BYTES && Inside(w) && At(w.start) <= at && at + CONTAINER_BYTES <= At(w.start + w.count)
    ensures OnlyIn(mem, Headed(mem, at, f), {w})
    ensures forall k :: at + CONTAINER_BYTES <= k < BUFFER_BYTES ==> Headed(mem, at, f)[k] == mem[k]
  {
    hide Le32, OnlyIn;
    var zeroed := Zeroed(mem, at);
    var keyed := Splice(zeroed, at + KEY, Le32(f.key));
    var typed := Splice(keyed, at + TYPE, Le32(f.kind));
    WriteOnlyIn(mem, at, Zeros(CONTAINER_BYTES), w, {w});
    WordOnlyIn(zeroed, at + KEY, f.key, w, {w});
    WordOnlyIn(keyed, at + TYPE, f.kind, w, {w});
    WordOnlyIn(typed, at + SIZE, |f.value|, w, {w});
    OnlyInTrans(mem, zeroed, keyed, {w});
    OnlyInTrans(mem, keyed, typed, {w});
    OnlyInTrans(mem, typed, Headed(mem, at, f), {w});
  }

  /** The container once written: with data it holds the data, without it whatever lay in its blocks. */
  lemma StoredPart(mem: seq<Byte>, p: Part, filled: bool, mem': seq<Byte>)
    requires |mem| == BUFFER_BYTES && Inside(PartRegion(p))
    requires var at := At(p.block) + CONTAINER_BYTES;
      at + |p.field.value| <= BUFFER_BYTES && (filled || p.field.value == mem[at..at + |p.field.value|])
    requires var headed := Headed(mem, At(p.block), p.field);
      mem' == if filled then Splice(headed, At(p.block) + CONTAINER_BYTES, p.field.value) else headed
    ensures PartOk(mem', p, 0) && OnlyIn(mem, mem', {PartRegion(p)})
  {
    hide Get32, Le32, Headed, OnlyIn;
    var at, f, w := At(p.block), p.field, PartRegion(p);
    var headed := Headed(mem, at, f);
    HeadedWords(mem, at, f);
    HeadedOnlyIn(mem, at, f, w);
    if filled {
      SpliceKeepsWord(headed, at + CONTAINER_BYTES, f.value, at + NEXT);
      SpliceKeepsWord(headed, at + CONTAINER_BYTES, f.value, at + KEY);
      SpliceKeepsWord(headed, at + CONTAINER_BYTES, f.value, at + TYPE);
      SpliceKeepsWord(headed, at + CONTAINER_BYTES, f.value, at + SIZE);
      WriteOnlyIn(headed, at + CONTAINER_BYTES, f.value, w, {w});
      OnlyInTrans(mem, headed, mem', {w});
    }
  }

  /** The event with one more container. */
  function Longer(r: Rec, p: Part): Rec
  {
    Rec(r.block, r.parts + [p])
  }

  lemma LongerExtents(r: Rec, p: Part)
    ensures Extents(Longer(r, p)) == Extents(r) + {PartRegion(p)}
  {
    hide PartRegion, EventRegion;
    var parts, parts' := r.parts, r.parts + [p];
    assert parts'[|parts|] == p;
    forall e | e in Extents(Longer(r, p))
      ensures e in Extents(r) + {PartRegion(p)}
    {
      if e != EventRegion(r.block) {
        var i :| 0 <= i < |parts'| && e == PartRegion(parts'[i]);
        assert i < |parts| ==> parts'[i] == parts[i];
      }
    }
    forall e | e in Extents(r) + {PartRegion(p)}
      ensures e in Extents(Longer(r, p))
    {
      if e in Extents(r) && e != EventRegion(r.block) {
        var i :| 0 <= i < |parts| && e == PartRegion(parts[i]);
        assert e == PartRegion(parts'[i]);
      } else if e != EventRegion(r.block) {
        assert e == PartRegion(parts'[|parts|]);
      }
    }
  }

  lemma LongerSpread(live: set<Region>, r: Rec, p: Part)
    requires Spread(r) && Extents(r) <= live && PartRegion(p) !in live && Packed(live + {PartRegion(p)})
    ensures Spread(Longer(r, p))
  {
    hide PartRegion, EventRegion, Extents, Inside, Apart;
    var e, live', parts, parts' := PartRegion(p), live + {PartRegion(p)}, r.parts, r.parts + [p];
    assert e in live';
    EventExtent(r);
    assert Apart(EventRegion(r.block), e);
    forall i | 0 <= i < |parts|
      ensures Apart(PartRegion(parts[i]), e)
    {
      PartExtent(r, i);
    }
    assert forall i :: 0 <= i < |parts| ==> parts'[i] == parts[i];
  }

  lemma EventExtent(r: Rec)
    ensures EventRegion(r.block) in Extents(r)
  {
  }

  /** The writes that link a stored container to its event. */
  ghost predicate LinksPart(mem: seq<Byte>, r: Rec, p: Part, mem': seq<Byte>)
    requires |mem| == BUFFER_BYTES && At(r.block) + EVENT_BYTES <= BUFFER_BYTES
  {
    if r.parts == [] then
      mem' == Splice(Splice(mem, At(r.block) + HEAD, Le32(Offset(p.block))), At(r.block) + TAIL, Le32(Offset(p.block)))
    else
      var last := At(r.parts[|r.parts| - 1].block) + NEXT;
      last + 4 <= BUFFER_BYTES
      && mem' == Splice(Splice(mem, last, Le32(Offset(p.block))), At(r.block) + TAIL, Le32(Offset(p.block)))
  }

  lemma PartLinked(mem: seq<Byte>, r: Rec, p: Part, mem': seq<Byte>)
    requires |mem| == |mem'| == BUFFER_BYTES && RecOk(mem, r) && PartOk(mem, p, 0) && Spread(Longer(r, p))
    requires Inside(EventRegion(r.block)) && LinksPart(mem, r, p, mem')
    ensures RecOk(mem', Longer(r, p))
  {
    hide PartOk, Get32, Le32, Splice, Spread, RecOk;
    if r.parts == [] {
      assert r.parts + [p] == [p];
      var headed := Splice(mem, At(r.block) + HEAD, Le32(Offset(p.block)));
      LinkFirst(mem, r, p, headed, mem');
    } else {
      var last := At(r.parts[|r.parts| - 1].block) + NEXT;
      LinkMore(mem, r, p, Splice(mem, last, Le32(Offset(p.block))), mem');
    }
  }

  lemma WordKeepsLinks(mem: seq<Byte>, at: nat, v: nat, w: Region, r: Rec)
    requires |mem| == BUFFER_BYTES && Inside(w) && At(w.start) <= at && at + 4 <= At(w.start + w.count)
    requires Inside(EventRegion(r.block))
    requires Apart(w, EventRegion(r.block)) || at == At(r.block) + HEAD || at == At(r.block) + TAIL
    ensures SameLinks(mem, Splice(mem, at, Le32(v)), r)
  {
    hide Get32, Le32, Splice;
    var e := At(r.block);
    SpliceKeepsWord(mem, at, Le32(v), e + NEXT);
    SpliceKeepsWord(mem, at, Le32(v), e + PREVIOUS);
    SpliceKeepsWord(mem, at, Le32(v), e + READY);
  }

  lemma LinkingFrame(mem: seq<Byte>, r: Rec, p: Part, mem': seq<Byte>, ws: set<Region>)
    requires |mem| == |mem'| == BUFFER_BYTES && Spread(r) && Extents(r) <= ws
    requires Inside(EventRegion(r.block)) && LinksPart(mem, r, p, mem')
    ensures OnlyIn(mem, mem', ws) && SameLinks(mem, mem', r)
  {
    hide Get32, Le32, Splice, Extents, OnlyIn;
    var w, at, off := EventRegion(r.block), At(r.block), Offset(p.block);
    EventExtent(r);
    if r.parts == [] {
      var m := Splice(mem, at + HEAD, Le32(off));
      WordKeepsLinks(mem, at + HEAD, off, w, r);
      WordKeepsLinks(m, at + TAIL, off, w, r);
      WordOnlyIn(mem, at + HEAD, off, w, ws);
      WordOnlyIn(m, at + TAIL, off, w, ws);
      OnlyInTrans(mem, m, mem', ws);
    } else {
      var n := |r.parts| - 1;
      PartExtent(r, n);
      var last := r.parts[n];
      var m := Splice(mem, At(last.block) + NEXT, Le32(off));
      WordKeepsLinks(mem, At(last.block) + NEXT, off, PartRegion(last), r);
      WordKeepsLinks(m, at + TAIL, off, w, r);
      WordOnlyIn(mem, At(last.block) + NEXT, off, PartRegion(last), ws);
      WordOnlyIn(m, at + TAIL, off, w, ws);
      OnlyInTrans(mem, m, mem', ws);
    }
  }

  /** Everything said about the blocks and links of a list at once. */
  ghost predicate Sound(mem: seq<Byte>, live: set<Region>, queue: seq<Rec>, open: set<Rec>)
    requires |mem| == BUFFER_BYTES
  {
    Packed(live) && Owns(live, Recs(queue, open)) && AllOk(mem, Recs(queue, open)) && Chained(mem, queue, open)
  }

  /** The event still says what it said after a container in new blocks has been written. */
  lemma StillOk(mem: seq<Byte>, mem': seq<Byte>, live: set<Region>, recs: set<Rec>, r: Rec, e: Region)
    requires |mem| == |mem'| == BUFFER_BYTES && AllOk(mem, recs) && Owns(live, recs) && r in recs
    requires e !in live && Packed(live + {e}) && OnlyIn(mem, mem', {e})
    ensures RecOk(mem', r) && SameLinks(mem, mem', r)
  {
    hide Extents, RecOk, OnlyIn, SameLinks, Owns, Packed;
    DisjointFrom(live, recs, e);
    OthersKept(mem, mem', live + {e}, recs, {e});
  }

  lemma Replaced(live: set<Region>, recs: set<Rec>, r: Rec, p: Part)
    requires Owns(live, recs) && r in recs && PartRegion(p) !in live
    ensures Longer(r, p) !in recs - {r} && Owns(live + {PartRegion(p)}, recs - {r} + {Longer(r, p)})
    ensures forall s :: s in recs - {r} ==> Extents(s) <= live + {PartRegion(p)} && Extents(s) !! Extents(Longer(r, p))
  {
    var e, r' := PartRegion(p), Longer(r, p);
    hide Extents, PartRegion, Longer, NoLeak;
    OwnsLess(live, recs, r);
    LongerExtents(r, p);
    OwnsMore(live - Extents(r), recs - {r}, r');
    assert live - Extents(r) + Extents(r') == live + {e};
  }

  lemma ChainedReplaced(mem: seq<Byte>, queue: seq<Rec>, open: set<Rec>, r: Rec, r': Rec)
    requires |mem| == BUFFER_BYTES && Chained(mem, queue, open - {r}) && r in open
    requires Loose(mem, r') && r' !in Recs(queue, open - {r})
    ensures Chained(mem, queue, open - {r} + {r'})
  {
    hide Chained, Loose, Recs;
    ChainedMore(mem, queue, open - {r}, r');
  }

  lemma ChainedLess(mem: seq<Byte>, queue: seq<Rec>, open: set<Rec>, r: Rec)
    requires |mem| == BUFFER_BYTES && Chained(mem, queue, open) && r in open
    ensures Chained(mem, queue, open - {r}) && Loose(mem, r)
    ensures Recs(queue, open - {r}) == Recs(queue, open) - {r}
  {
    hide LinkedIn, Loose;
    assert r !in queue;
  }

  lemma LooseFrame(mem: seq<Byte>, mem': seq<Byte>, r: Rec)
    requires |mem| == |mem'| == BUFFER_BYTES && Loose(mem, r) && SameLinks(mem, mem', r)
    ensures Loose(mem', r)
  {
    hide Get32;
  }

  lemma SameLinksTrans(a: seq<Byte>, b: seq<Byte>, c: seq<Byte>, r: Rec)
    requires |a| == |b| == |c| == BUFFER_BYTES && SameLinks(a, b, r) && SameLinks(b, c, r)
    ensures SameLinks(a, c, r)
  {
    hide Get32;
  }

  /** One container more: written to new blocks, linked behind the event's last. */
  lemma Added(mem: seq<Byte>, stored: seq<Byte>, mem': seq<Byte>, live: set<Region>, queue: seq<Rec>, open: set<Rec>, r: Rec, p: Part)
    requires |mem| == |stored| == |mem'| == BUFFER_BYTES && Sound(mem, live, queue, open) && r in open
    requires PartRegion(p) !in live && Packed(live + {PartRegion(p)})
    requires PartOk(stored, p, 0) && OnlyIn(mem, stored, {PartRegion(p)})
    requires Inside(EventRegion(r.block)) && LinksPart(stored, r, p, mem')
    ensures Sound(mem', live + {PartRegion(p)}, queue, open - {r} + {Longer(r, p)})
  {
    hide Packed, Owns, AllOk, Chained, Recs, PartRegion, PartOk, OnlyIn, LinksPart, Longer, Extents, RecOk, SameLinks, Loose, Spread, Inside, EventRegion;
    var e, recs, r' := PartRegion(p), Recs(queue, open), Longer(r, p);
    var live', rest := live + {e}, recs - {r};
    OpenIn(queue, open, r);
    StillOk(mem, stored, live, recs, r, e);
    Replaced(live, recs, r, p);
    LongerExtents(r, p);
    OkSpread(stored, r);
    OwnedExtents(live, recs, r);
    LongerSpread(live, r, p);
    PartLinked(stored, r, p, mem');
    LinkingFrame(stored, r, p, mem', Extents(r'));
    OnlyInWider(mem, stored, {e}, Extents(r'));
    OnlyInTrans(mem, stored, mem', Extents(r'));
    OwnedExtents(live', recs - {r} + {r'}, r');
    AllOkLess(mem, recs, rest);
    OthersKept(mem, mem', live', rest, Extents(r'));
    AllOkMore(mem', rest, r');
    ChainedLess(mem, queue, open, r);
    ChainedFrame(mem, mem', queue, open - {r});
    SameLinksTrans(mem, stored, mem', r);
    LooseFrame(mem, mem', r);
    LongerLoose(mem', r, p);
    ChainedReplaced(mem', queue, open, r, r');
    RecsMore(queue, open - {r}, r');
  }

  lemma OpenIn(queue: seq<Rec>, open: set<Rec>, r: Rec)
    requires r in open
    ensures r in Recs(queue, open)
  {
  }

  lemma OkSpread(mem: seq<Byte>, r: Rec)
    requires |mem| == BUFFER_BYTES && RecOk(mem, r)
    ensures Spread(r)
  {
  }

  lemma OwnedExtents(live: set<Region>, recs: set<Rec>, r: Rec)
    requires Owns(live, recs) && r in recs
    ensures Extents(r) <= live
  {
    hide Extents;
  }

  lemma AllOkLess(mem: seq<Byte>, recs: set<Rec>, rest: set<Rec>)
    requires |mem| == BUFFER_BYTES && AllOk(mem, recs) && rest <= recs
    ensures AllOk(mem, rest)
  {
    hide RecOk;
  }

  lemma LongerLoose(mem: seq<Byte>, r: Rec, p: Part)
    requires |mem| == BUFFER_BYTES && Loose(mem, r)
    ensures Loose(mem, Longer(r, p))
  {
    hide Get32;
  }

  // ---------------------------------------------------------------- inserting an event

  /** A word of an event, named by its position in the struct. */
  function LinkWord(mem: seq<Byte>, s: Rec, f: nat): nat
  {
    var at := At(s.block) + f;
    if at + 4 <= |mem| then Get32(mem, at) else 0
  }

  ghost predicate LinkField(f: nat)
  {
    f == NEXT || f == PREVIOUS || f == READY
  }

  /** Only word f of event r has changed, to v, as far as links go. */
  ghost predicate Relinked(mem: seq<Byte>, mem': seq<Byte>, recs: set<Rec>, r: Rec, f: nat, v: nat)
  {
    && LinkWord(mem', r, f) == v
    && (forall s, g :: s in recs && LinkField(g) && !(s == r && g == f) ==> LinkWord(mem', s, g) == LinkWord(mem, s, g))
  }

  lemma WordFar(mem: seq<Byte>, live: set<Region>, recs: set<Rec>, r: Rec, f: nat, v: nat, s: Rec, g: nat)
    requires |mem| == BUFFER_BYTES && Packed(live) && Owns(live, recs) && r in recs && s in recs
    requires f % 4 == 0 && f < EVENT_BYTES && g % 4 == 0 && g < EVENT_BYTES && !(s == r && g == f)
    requires Inside(EventRegion(r.block)) && Inside(EventRegion(s.block))
    ensures Get32(Splice(mem, At(r.block) + f, Le32(v)), At(s.block) + g) == Get32(mem, At(s.block) + g)
  {
    hide Get32, Le32, Splice, Extents;
    EventExtent(r);
    EventExtent(s);
    SpliceKeepsWord(mem, At(r.block) + f, Le32(v), At(s.block) + g);
  }

  lemma PartsFar(mem: seq<Byte>, live: set<Region>, recs: set<Rec>, r: Rec, f: nat, v: nat, s: Rec, i: nat)
    requires |mem| == BUFFER_BYTES && Packed(live) && Owns(live, recs) && r in recs && s in recs && Spread(s) && i < |s.parts|
    requires f + 4 <= EVENT_BYTES && Inside(EventRegion(r.block))
    ensures Same(mem, Splice(mem, At(r.block) + f, Le32(v)), PartRegion(s.parts[i]))
  {
    hide Get32, Le32, Splice, Extents, Same;
    EventExtent(r);
    PartExtent(s, i);
    WriteApart(mem, At(r.block) + f, Le32(v), EventRegion(r.block), PartRegion(s.parts[i]));
  }

  lemma OneKept(mem: seq<Byte>, live: set<Region>, recs: set<Rec>, r: Rec, f: nat, v: nat, s: Rec)
    requires |mem| == BUFFER_BYTES && Packed(live) && Owns(live, recs) && r in recs && s in recs && RecOk(mem, s)
    requires LinkField(f) && Inside(EventRegion(r.block))
    ensures RecOk(Splice(mem, At(r.block) + f, Le32(v)), s)
  {
    hide Get32, Le32, Splice, Extents, Same, Packed, Owns, PartOk;
    var mem' := Splice(mem, At(r.block) + f, Le32(v));
    WordFar(mem, live, recs, r, f, v, s, HEAD);
    WordFar(mem, live, recs, r, f, v, s, TAIL);
    forall i | 0 <= i < |s.parts|
      ensures Same(mem, mem', PartRegion(s.parts[i]))
    {
      PartsFar(mem, live, recs, r, f, v, s, i);
    }
    RecFrame(mem, mem', s);
  }

  lemma EventInside(mem: seq<Byte>, recs: set<Rec>, r: Rec)
    requires |mem| == BUFFER_BYTES && AllOk(mem, recs) && r in recs
    ensures Inside(EventRegion(r.block))
  {
    assert RecOk(mem, r);
  }

  /** Writing one link of one event changes that link only. */
  lemma LinkWritten(mem: seq<Byte>, live: set<Region>, recs: set<Rec>, r: Rec, f: nat, v: nat)
    requires |mem| == BUFFER_BYTES && Packed(live) && Owns(live, recs) && AllOk(mem, recs) && r in recs
    requires LinkField(f) && v < WORD_LIMIT && Inside(EventRegion(r.block))
    ensures var mem' := Splice(mem, At(r.block) + f, Le32(v));
      AllOk(mem', recs) && Relinked(mem, mem', recs, r, f, v)
  {
    hide Get32, Le32, Splice, RecOk, Packed, Owns;
    var mem' := Splice(mem, At(r.block) + f, Le32(v));
    SpliceWord(mem, At(r.block) + f, v);
    forall s | s in recs
      ensures RecOk(mem', s)
    {
      OneKept(mem, live, recs, r, f, v, s);
    }
    forall s, g | s in recs && LinkField(g) && !(s == r && g == f)
      ensures LinkWord(mem', s, g) == LinkWord(mem, s, g)
    {
      EventInside(mem, recs, s);
      WordFar(mem, live, recs, r, f, v, s, g);
    }
  }

  /** InsertEvent's writes to the events. */
  ghost predicate InsertWrites(mem: seq<Byte>, queue: seq<Rec>, r: Rec, mem': seq<Byte>)
    requires |mem| == BUFFER_BYTES && At(r.block) + EVENT_BYTES <= BUFFER_BYTES
  {
    var readied := Splice(mem, At(r.block) + READY, Le32(1));
    var backed := Splice(readied, At(r.block) + PREVIOUS, Le32(LastOffset(queue)));
    if queue == [] then
      mem' == backed
    else
      var last := queue[|queue| - 1];
      At(last.block) + EVENT_BYTES <= BUFFER_BYTES
      && mem' == Splice(backed, At(last.block) + NEXT, Le32(Offset(r.block)))
  }

  lemma RecsMoved(queue: seq<Rec>, open: set<Rec>, r: Rec)
    requires r in open
    ensures Recs(queue + [r], open - {r}) == Recs(queue, open)
  {
  }

  lemma OffsetFits(block: nat)
    requires Inside(EventRegion(block))
    ensures 0 < Offset(block) < WORD_LIMIT
  {
  }

  lemma LastFits(mem: seq<Byte>, queue: seq<Rec>, open: set<Rec>)
    requires |mem| == BUFFER_BYTES && AllOk(mem, Recs(queue, open))
    ensures LastOffset(queue) < WORD_LIMIT
    ensures queue != [] ==> queue[|queue| - 1] in Recs(queue, open)
    ensures queue != [] ==> Inside(EventRegion(queue[|queue| - 1].block))
  {
    if queue != [] {
      var last := queue[|queue| - 1];
      assert RecOk(mem, last);
    }
  }

  /** The links after the insertion. */
  ghost predicate LinksMoved(mem: seq<Byte>, mem': seq<Byte>, queue: seq<Rec>, open: set<Rec>, r: Rec)
  {
    && LinkWord(mem', r, READY) == 1
    && LinkWord(mem', r, PREVIOUS) == LastOffset(queue)
    && (queue != [] ==> LinkWord(mem', queue[|queue| - 1], NEXT) == Offset(r.block))
    && (forall s :: s in Recs(queue, open) && (queue == [] || s != queue[|queue| - 1]) ==> LinkWord(mem', s, NEXT) == LinkWord(mem, s, NEXT))
    && (forall s :: s in Recs(queue, open) && s != r ==>
          LinkWord(mem', s, PREVIOUS) == LinkWord(mem, s, PREVIOUS) && LinkWord(mem', s, READY) == LinkWord(mem, s, READY))
  }

  lemma InsertLinks(mem: seq<Byte>, live: set<Region>, queue: seq<Rec>, open: set<Rec>, r: Rec, mem': seq<Byte>)
    requires |mem| == |mem'| == BUFFER_BYTES && Sound(mem, live, queue, open) && r in open
    requires Inside(EventRegion(r.block)) && InsertWrites(mem, queue, r, mem')
    ensures AllOk(mem', Recs(queue, open)) && LinksMoved(mem, mem', queue, open, r)
  {
    hide Get32, Le32, Splice, AllOk, Packed, Owns, Chained, LinkWord, Recs;
    var recs := Recs(queue, open);
    OpenIn(queue, open, r);
    LastFits(mem, queue, open);
    var readied := Splice(mem, At(r.block) + READY, Le32(1));
    var backed := Splice(readied, At(r.block) + PREVIOUS, Le32(LastOffset(queue)));
    LinkWritten(mem, live, recs, r, READY, 1);
    LinkWritten(readied, live, recs, r, PREVIOUS, LastOffset(queue));
    if queue != [] {
      var last := queue[|queue| - 1];
      OffsetFits(r.block);
      LinkWritten(backed, live, recs, last, NEXT, Offset(r.block));
    }
  }

  lemma InsertChained(mem: seq<Byte>, queue: seq<Rec>, open: set<Rec>, r: Rec, mem': seq<Byte>)
    requires |mem| == |mem'| == BUFFER_BYTES && Chained(mem, queue, open) && r in open
    requires LinksMoved(mem, mem', queue, open, r)
    ensures Chained(mem', queue + [r], open - {r})
  {
    hide Get32;
    var n, queue', open' := |queue|, queue + [r], open - {r};
    assert Loose(mem, r);
    forall i | 0 <= i < |queue'|
      ensures LinkedIn(mem', queue', i)
    {
      if i < n {
        assert queue'[i] == queue[i] && LinkedIn(mem, queue, i) && queue[i] in queue && queue[i] in Recs(queue, open);
        assert EventOffset(queue', i + 1) == if i + 1 < n then EventOffset(queue, i + 1) else Offset(r.block);
      } else {
        assert queue'[i] == r && (n > 0 ==> queue'[n - 1] == queue[n - 1]) && r in Recs(queue, open);
        assert n > 0 ==> queue[n - 1] in queue;
      }
    }
    forall s | s in open'
      ensures Loose(mem', s)
    {
      assert Loose(mem, s) && s in Recs(queue, open);
    }
  }

  /** InsertEvent: the event leaves the open ones and is the last of the queue. */
  lemma Inserted(mem: seq<Byte>, live: set<Region>, queue: seq<Rec>, open: set<Rec>, r: Rec, mem': seq<Byte>)
    requires |mem| == |mem'| == BUFFER_BYTES && Sound(mem, live, queue, open) && r in open
    requires Inside(EventRegion(r.block)) && InsertWrites(mem, queue, r, mem')
    ensures Sound(mem', live, queue + [r], open - {r})
  {
    hide AllOk, Packed, Owns, Chained, Recs, InsertWrites, LinksMoved, Inside;
    InsertLinks(mem, live, queue, open, r, mem');
    InsertChained(mem, queue, open, r, mem');
    RecsMoved(queue, open, r);
  }

  // ---------------------------------------------------------------- consuming the head event

  /** The blocks of some containers. */
  function PartExtents(parts: seq<Part>): set<Region>
  {
    set i | 0 <= i < |parts| :: PartRegion(parts[i])
  }

  /** What the producer stored, in order. */
  function Fields(parts: seq<Part>): seq<Field>
  {
    if parts == [] then [] else Fields(parts[..|parts| - 1]) + [parts[|parts| - 1].field]
  }

  lemma {:induction false} FieldsInOrder(parts: seq<Part>)
    ensures |Fields(parts)| == |parts| && forall i :: 0 <= i < |parts| ==> Fields(parts)[i] == parts[i].field
    decreases |parts|
  {
    if parts != [] {
      FieldsInOrder(parts[..|parts| - 1]);
    }
  }

  lemma TakeStep(parts: seq<Part>, i: nat)
    requires i < |parts|
    ensures PartExtents(parts[..i + 1]) == PartExtents(parts[..i]) + {PartRegion(parts[i])}
    ensures Fields(parts[..i + 1]) == Fields(parts[..i]) + [parts[i].field]
  {
    hide PartRegion;
    var more, less := parts[..i + 1], parts[..i];
    assert more[..i] == less && more[i] == parts[i];
    assert forall k :: 0 <= k < i ==> more[k] == less[k];
    assert PartRegion(parts[i]) in PartExtents(more);
    forall e | e in PartExtents(less)
      ensures e in PartExtents(more)
    {
      var k :| 0 <= k < i && e == PartRegion(less[k]);
      assert e == PartRegion(more[k]);
    }
    forall e | e in PartExtents(more)
      ensures e in PartExtents(less) + {PartRegion(parts[i])}
    {
      var k :| 0 <= k <= i && e == PartRegion(more[k]);
      assert k < i ==> e == PartRegion(less[k]);
    }
  }

  lemma NotYetFreed(r: Rec, i: nat)
    requires Spread(r) && i < |r.parts|
    ensures PartRegion(r.parts[i]) !in PartExtents(r.parts[..i])
    ensures EventRegion(r.block) !in PartExtents(r.parts[..i])
  {
    hide Inside;
    SpreadPieces(r);
  }

  lemma EventNotFreed(r: Rec)
    requires Spread(r)
    ensures EventRegion(r.block) !in PartExtents(r.parts)
    ensures Extents(r) == {EventRegion(r.block)} + PartExtents(r.parts)
  {
    hide Inside;
    SpreadPieces(r);
  }

  lemma RecsLess(queue: seq<Rec>, open: set<Rec>)
    requires queue != [] && Distinct(queue, open)
    ensures Recs(queue[1..], open) == Recs(queue, open) - {queue[0]}
  {
    var rest := queue[1..];
    forall s | s in Recs(queue, open) - {queue[0]}
      ensures s in Recs(rest, open)
    {
      if s !in open {
        var i :| 0 <= i < |queue| && queue[i] == s;
        assert rest[i - 1] == s;
      }
    }
    forall s | s in Recs(rest, open)
      ensures s in Recs(queue, open) - {queue[0]}
    {
      if s in rest {
        var i :| 0 <= i < |rest| && rest[i] == s;
        assert queue[i + 1] == s;
      } else {
        assert queue[0] in queue;
      }
    }
  }

  lemma RestChained(mem: seq<Byte>, queue: seq<Rec>, open: set<Rec>)
    requires |mem| == BUFFER_BYTES && Chained(mem, queue, open) && queue != []
    ensures Chained(mem, queue[1..], open)
  {
    hide Get32;
    var rest := queue[1..];
    forall i | 0 <= i < |rest|
      ensures LinkedIn(mem, rest, i)
    {
      assert rest[i] == queue[i + 1] && LinkedIn(mem, queue, i + 1);
    }
  }

  lemma PackedLess(live: set<Region>, live': set<Region>)
    requires Packed(live) && live' <= live
    ensures Packed(live')
  {
    hide Inside;
  }

  /** Giving back the head event's blocks leaves a sound list of the others. */
  lemma Consumed(mem: seq<Byte>, live: set<Region>, queue: seq<Rec>, open: set<Rec>)
    requires |mem| == BUFFER_BYTES && Sound(mem, live, queue, open) && queue != []
    ensures Sound(mem, live - Extents(queue[0]), queue[1..], open)
  {
    hide AllOk, Packed, Owns, LinkedIn, Loose, Extents;
    var recs, r := Recs(queue, open), queue[0];
    assert r in queue && r in recs;
    OwnsLess(live, recs, r);
    RecsLess(queue, open);
    AllOkLess(mem, recs, recs - {r});
    RestChained(mem, queue, open);
    PackedLess(live, live - Extents(r));
  }
}
