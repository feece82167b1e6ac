/**
 Common/EventList.c's shared event list and NetworkMonitor.cpp's consumer of it, over one block
 memory and one bitmap.
 */
module SharedEventList {
  import opened Words
  import opened Bitmap
  import opened SharedEvents
  import opened StaleTail

  datatype Data = Given(bytes: seq<Byte>) | Absent

  /** What a container made by AddEventData carries: the data given, or what its blocks held before. */
  function Stored(mem: seq<Byte>, block: nat, key: Word, kind: Word, size: nat, data: Data): Field
    requires At(block) + CONTAINER_BYTES + size <= |mem|
  {
    var at := At(block) + CONTAINER_BYTES;
    Field(key, kind, if data.Given? then data.bytes else mem[at..at + size])
  }

  lemma StoredIs(mem: seq<Byte>, block: nat, key: Word, kind: Word, size: nat, data: Data)
    requires At(block) + CONTAINER_BYTES + size <= |mem|
    ensures Stored(mem, block, key, kind, size, data) ==
      Field(key, kind, if data.Given? then data.bytes else mem[At(block) + CONTAINER_BYTES..][..size])
  {
  }

  lemma LongerIs(r: Rec, p: Part)
    ensures Longer(r, p) == Rec(r.block, r.parts + [p])
  {
  }

  lemma WordsOfFree(live: set<Region>, e: Region)
    requires Packed(live) && e in live
    ensures At(e.start + e.count) <= BUFFER_BYTES
  {
  }

  class EventList {
    const memory: array<Byte>
    const buffer: Buffer
    // offsets of the first and the last event from the start of the list; 0 for none
    var head: nat
    var tail: nat
    // the events inserted and not yet consumed, and those still being filled
    ghost var queue: seq<Rec>
    ghost var open: set<Rec>

    /** Blocks, containers and links are in order; nothing is said of the list's tail. */
    ghost predicate Intact()
      reads this, memory, buffer, buffer.bitmap
    {
      && memory.Length == BUFFER_BYTES
      && (memory as object) != buffer.bitmap
      && buffer.Valid()
      && Sound(memory[..], buffer.live, queue, open)
      && head == EventOffset(queue, 0)
    }

    ghost predicate Valid()
      reads this, memory, buffer, buffer.bitmap
    {
      Intact() && tail == LastOffset(queue)
    }

    /** The list is empty, but its tail is the offset of a block that an event consumed earlier began in. */
    ghost predicate Drained()
      reads this, memory, buffer, buffer.bitmap
    {
      Intact() && queue == [] && tail == Offset(StaleBlock()) && At(StaleBlock()) + 4 <= BUFFER_BYTES
    }

    ghost function StaleBlock(): nat
      reads this`tail
    {
      if tail < BUFFER_OFFSET then 0 else (tail - BUFFER_OFFSET) / BLOCK_SIZE
    }

    // InitialiseSharedEventList
    constructor ()
      ensures Valid() && queue == [] && open == {} && buffer.live == {} && buffer.hint == 0
      ensures fresh(memory) && fresh(buffer) && fresh(buffer.bitmap)
    {
      memory := new Byte[BUFFER_BYTES](_ => 0);
      buffer := new Buffer();
      head, tail := 0, 0;
      queue, open := [], {};
    }

    /** CreateEvent: the event's block, or -1 when no two blocks in a row are free. */
    method CreateEvent() returns (event: int)
      requires Intact()
      modifies this`open, memory, buffer, buffer.bitmap
      ensures Intact() && -1 <= event
      ensures event >= 0 ==> Rec(event, []) !in old(open) && open == old(open) + {Rec(event, [])}
      ensures event >= 0 ==> buffer.live == old(buffer.live) + {EventRegion(event)} && buffer.hint == event
      ensures event >= 0 ==> At(event) + EVENT_BYTES <= BUFFER_BYTES
      ensures event >= 0 ==> forall k :: 0 <= k < BUFFER_BYTES ==>
        memory[k] == if At(event) <= k < At(event) + EVENT_BYTES then 0 else old(memory[k])
      ensures old(buffer.live) == {} && old(buffer.hint) == 0 ==> event == 0
      ensures event < 0 ==> open == old(open) && memory[..] == old(memory[..])
      ensures event < 0 ==> buffer.live == old(buffer.live) && buffer.bitmap[..] == old(buffer.bitmap[..])
      ensures event < 0 ==> NoRoom(buffer.bitmap[..], 2)
    {
      hide Sound, NoRoom, Accounts, IsClear;
      assert BlocksFor(EVENT_BYTES) == 2;
      if buffer.live == {} {
        NothingReserved(buffer.bitmap[..]);
      }
      event := buffer.ReserveSpace(EVENT_BYTES);
      if event < 0 {
        return;
      }
      ghost var mem, r := memory[..], Rec(event, []);
      AccountsPacked(buffer.bitmap[..], buffer.live);
      WordsOfFree(buffer.live, EventRegion(event));
      var zeros := Zeros(EVENT_BYTES);
      CopyBytes(memory, At(event), zeros);
      EventJoins(mem, memory[..], old(buffer.live), queue, open, r, zeros);
      open := open + {r};
    }

    /** AddEventData's writes to the container itself. */
    method StoreContainer(container: nat, key: Word, kind: Word, size: Word, data: Data)
      requires memory.Length == BUFFER_BYTES && At(container) + CONTAINER_BYTES + size <= BUFFER_BYTES
      requires data.Given? ==> |data.bytes| == size
      modifies memory
      ensures var f := Stored(old(memory[..]), container, key, kind, size, data);
        memory[..] == Written(old(memory[..]), container, f, data.Given?)
    {
      hide Le32, Splice;
      var at := At(container);
      CopyBytes(memory, at, Zeros(CONTAINER_BYTES));
      PutWord(memory, at + KEY, key);
      PutWord(memory, at + TYPE, kind);
      PutWord(memory, at + SIZE, size);
      if data.Given? {
        CopyBytes(memory, at + CONTAINER_BYTES, data.bytes);
      }
    }

    /** AddEventData's insertion into the event's list of containers. */
    method LinkContainer(event: nat, container: nat, ghost r: Rec, ghost p: Part)
      requires memory.Length == BUFFER_BYTES && RecOk(memory[..], r) && r.block == event && p.block == container
      requires Inside(EventRegion(event)) && Inside(PartRegion(p))
      modifies memory
      ensures LinksPart(old(memory[..]), r, p, memory[..])
    {
      LinkTarget(memory[..], r);
      HeadAndTail(memory[..], r);
      PartOffsetFits(p);
      hide Get32, Le32, Splice, RecOk;
      var at, offset := At(event), Offset(container);
      var head := Get32(memory[..], at + HEAD);
      var tail := Get32(memory[..], at + TAIL);
      if head == 0 {
        PutWord(memory, at + HEAD, offset);
      }
      if tail != 0 {
        PutWord(memory, tail - BUFFER_OFFSET + NEXT, offset);
      }
      PutWord(memory, at + TAIL, offset);
    }

    /**
     AddEventData: the container's block, or -1 when the blocks it needs are not free. With no data
     given this is ReserveEventData.
     */
    method AddEventData(event: nat, key: Word, kind: Word, size: Word, data: Data, ghost r: Rec) returns (container: int)
      requires Intact() && r in open && r.block == event
      requires CONTAINER_BYTES + size <= ULONG_LIMIT - BLOCK_SIZE
      requires data.Given? ==> |data.bytes| == size
      modifies this`open, memory, buffer, buffer.bitmap
      ensures container < 0 ==> NoRoom(buffer.bitmap[..], ContainerBlocks(size))
      ensures Intact() && -1 <= container
      ensures container >= 0 ==> At(container) + CONTAINER_BYTES + size <= BUFFER_BYTES
      ensures container >= 0 ==>
        var value := if data.Given? then data.bytes else old(memory[..])[At(container) + CONTAINER_BYTES..][..size];
        var p := Part(container, Field(key, kind, value));
        && PartRegion(p) !in old(buffer.live) && buffer.live == old(buffer.live) + {PartRegion(p)}
        && open == old(open) - {r} + {Rec(event, r.parts + [p])}
      ensures container < 0 ==> open == old(open) && memory[..] == old(memory[..]) && buffer.live == old(buffer.live)
    {
      hide Sound, NoRoom, Accounts, Longer, Packed, PartRegion, Written, RecOk, LinksPart, Inside, EventRegion;
      assert BlocksFor(CONTAINER_BYTES + size) == ContainerBlocks(size);
      container := buffer.ReserveSpace(CONTAINER_BYTES + size);
      if container < 0 {
        return;
      }
      assert memory[..] == old(memory[..]);
      AccountsPacked(buffer.bitmap[..], buffer.live);
      ghost var p := NewPart(memory[..], buffer.live, container, key, kind, size, data);
      StoreContainer(container, key, kind, size, data);
      ghost var stored := memory[..];
      StoredEvent(old(memory[..]), stored, old(buffer.live), queue, open, r, p, data.Given?);
      LinkContainer(event, container, r, p);
      DataJoins(old(memory[..]), stored, memory[..], old(buffer.live), queue, open, r, p, data.Given?);
      LongerIs(r, p);
      StoredIs(old(memory[..]), container, key, kind, size, data);
      open := open - {r} + {Longer(r, p)};
    }

    /** InsertEvent's writes. */
    method LinkEvent(event: nat)
      requires memory.Length == BUFFER_BYTES && At(event) + EVENT_BYTES <= BUFFER_BYTES
      requires tail != 0 ==> BUFFER_OFFSET <= tail && tail - BUFFER_OFFSET + 4 <= BUFFER_BYTES
      modifies this`head, this`tail, memory
      ensures memory[..] == EventWrites(old(memory[..]), event, old(tail))
      ensures tail == Offset(event) && head == if old(head) == 0 then Offset(event) else old(head)
    {
      hide Get32, Le32, Splice;
      var at, offset := At(event), Offset(event);
      PutWord(memory, at + READY, 1);
      PutWord(memory, at + PREVIOUS, tail);
      if head == 0 {
        head := offset;
      }
      if tail != 0 {
        PutWord(memory, tail - BUFFER_OFFSET + NEXT, offset);
      }
      tail := offset;
    }

    /**
     InsertEvent: the filled event becomes the last of the list. On a drained list the link is written
     through the stale tail, and the list is well formed afterwards iff that does no harm.
     */
    method InsertEvent(event: nat, ghost r: Rec)
      requires Valid() || Drained()
      requires r in open && r.block == event
      modifies this, memory
      ensures queue == old(queue) + [r] && open == old(open) - {r}
      ensures head == EventOffset(queue, 0) && tail == LastOffset(queue)
      ensures At(event) + EVENT_BYTES <= BUFFER_BYTES
      ensures old(Valid()) ==> Valid() && Get32(memory[..], At(event) + READY) == 1 && Get32(memory[..], At(event) + PREVIOUS) == old(tail)
      ensures old(Drained()) ==> (Valid() <==> Harmless(old(memory[..]), old(open), At(old(StaleBlock())), Le32(Offset(event))))
      ensures old(Drained()) && old(StaleBlock()) == event ==> Get32(memory[..], At(event) + NEXT) == Offset(event)
    {
      hide Get32, Le32, Sound, Accounts, Recs, Harmless, EventWrites, StaleInsert;
      OpenFits(memory[..], buffer.live, queue, open, r);
      ghost var mem, b := memory[..], StaleBlock();
      if Valid() {
        ValidInsert(mem, buffer.live, queue, open, r);
        InsertSays(mem, buffer.live, queue, open, r);
      } else {
        DrainedInsert(mem, buffer.live, open, r, b);
      }
      queue, open := queue + [r], open - {r};
      LinkEvent(event);
    }

    /**
     processTcpEvents and processUdpEvents: hand over what the producer stored in the head event and
     give all its blocks back. The list's tail is not updated, so the list is well formed afterwards
     exactly when the head event was not its only one.
     */
    method ProcessEvent() returns (fields: seq<Field>)
      requires Valid()
      modifies this`head, this`queue, buffer, buffer.bitmap
      ensures old(queue) == [] ==> fields == [] && queue == [] && buffer.live == old(buffer.live)
      ensures old(queue) != [] ==>
        var r := old(queue)[0];
        && fields == Fields(r.parts) && queue == old(queue)[1..]
        && |fields| == |r.parts| && (forall i :: 0 <= i < |fields| ==> fields[i] == r.parts[i].field)
        && buffer.live == old(buffer.live) - Extents(r)
      ensures Intact() && buffer.hint == old(buffer.hint)
      ensures Valid() <==> |old(queue)| != 1
      ensures |old(queue)| == 1 ==> Drained() && StaleBlock() == old(queue)[0].block
    {
      hide Sound, Accounts, Get32, Extents, PartExtents, RecOk, Fields, PartRegion, Spread;
      fields := [];
      if head == 0 {
        return;
      }
      ghost var r := queue[0];
      HeadSet(memory[..], buffer.live, queue, open);
      OkSpread(memory[..], r);
      HeadAndTail(memory[..], r);
      NothingTaken(r.parts);
      var event := head - BUFFER_OFFSET;
      var dataOffset := Get32(memory[..], event + HEAD);
      ghost var i := 0;
      while dataOffset != 0
        invariant i <= |r.parts| && dataOffset == PartOffset(r.parts, i)
        invariant fields == Fields(r.parts[..i])
        invariant buffer.Valid() && buffer.live == old(buffer.live) - PartExtents(r.parts[..i])
        modifies buffer`live, buffer.bitmap
        decreases |r.parts| - i
      {
        var data := dataOffset - BUFFER_OFFSET;
        PartSays(memory[..], r, i);
        RegionOf(memory[..], r.parts[i], PartOffset(r.parts, i + 1));
        NotYetFreed(r, i);
        PartExtent(r, i);
        TakeStep(r.parts, i);
        var size := Get32(memory[..], data + SIZE);
        fields := fields + [Field(Get32(memory[..], data + KEY), Get32(memory[..], data + TYPE),
                                  memory[..][data + CONTAINER_BYTES..data + CONTAINER_BYTES + size])];
        dataOffset := Get32(memory[..], data + NEXT);
        buffer.Release(data, CONTAINER_BYTES + size, PartRegion(r.parts[i]));
        i := i + 1;
      }
      assert r.parts[..i] == r.parts;
      FieldsInOrder(r.parts);
      head := Get32(memory[..], event + NEXT);
      EventNotFreed(r);
      buffer.Release(event, EVENT_BYTES, EventRegion(r.block));
      Consumed(memory[..], old(buffer.live), queue, open);
      queue := queue[1..];
    }
  }

  function PartOffset(parts: seq<Part>, i: nat): nat
  {
    if i < |parts| then Offset(parts[i].block) else 0
  }

  lemma OpenFits(mem: seq<Byte>, live: set<Region>, queue: seq<Rec>, open: set<Rec>, r: Rec)
    requires |mem| == BUFFER_BYTES && Sound(mem, live, queue, open) && r in open
    ensures Inside(EventRegion(r.block))
    ensures LastOffset(queue) < WORD_LIMIT
    ensures queue != [] ==> Inside(EventRegion(queue[|queue| - 1].block))
  {
    hide Packed, Owns, AllOk, Chained;
    OpenIn(queue, open, r);
    EventInside(mem, Recs(queue, open), r);
    LastFits(mem, queue, open);
  }

  /** Memory after InsertEvent on a list with this tail. */
  function EventWrites(mem: seq<Byte>, event: nat, tail: nat): (mem': seq<Byte>)
    requires At(event) + EVENT_BYTES <= |mem|
    requires tail != 0 ==> BUFFER_OFFSET <= tail && tail - BUFFER_OFFSET + 4 <= |mem|
    ensures |mem'| == |mem|
  {
    var readied := Splice(mem, At(event) + READY, Le32(1));
    var backed := Splice(readied, At(event) + PREVIOUS, Le32(tail));
    if tail != 0 then Splice(backed, tail - BUFFER_OFFSET + NEXT, Le32(Offset(event))) else backed
  }

  lemma ValidInsert(mem: seq<Byte>, live: set<Region>, queue: seq<Rec>, open: set<Rec>, r: Rec)
    requires |mem| == BUFFER_BYTES && Sound(mem, live, queue, open) && r in open && Inside(EventRegion(r.block))
    requires queue != [] ==> Inside(EventRegion(queue[|queue| - 1].block))
    ensures Sound(EventWrites(mem, r.block, LastOffset(queue)), live, queue + [r], open - {r})
  {
    hide Get32, Le32, Splice, Sound;
    Inserted(mem, live, queue, open, r, EventWrites(mem, r.block, LastOffset(queue)));
  }

  lemma InsertSays(mem: seq<Byte>, live: set<Region>, queue: seq<Rec>, open: set<Rec>, r: Rec)
    requires |mem| == BUFFER_BYTES && Inside(EventRegion(r.block))
    requires queue != [] ==> Inside(EventRegion(queue[|queue| - 1].block))
    requires LastOffset(queue) < WORD_LIMIT && Sound(EventWrites(mem, r.block, LastOffset(queue)), live, queue + [r], open - {r})
    ensures var mem' := EventWrites(mem, r.block, LastOffset(queue));
      Get32(mem', At(r.block) + READY) == 1 && Get32(mem', At(r.block) + PREVIOUS) == LastOffset(queue)
  {
    hide Get32, Le32, Splice, Packed, Owns, AllOk;
    assert LinkedIn(EventWrites(mem, r.block, LastOffset(queue)), queue + [r], |queue|);
    if queue == [] {
      SpliceWord(Splice(mem, At(r.block) + READY, Le32(1)), At(r.block) + PREVIOUS, 0);
    }
  }

  lemma DrainedInsert(mem: seq<Byte>, live: set<Region>, open: set<Rec>, r: Rec, b: nat)
    requires |mem| == BUFFER_BYTES && Sound(mem, live, [], open) && r in open && Inside(EventRegion(r.block))
    requires At(b) + 4 <= BUFFER_BYTES
    ensures var mem' := EventWrites(mem, r.block, Offset(b));
      && (Sound(mem', live, [] + [r], open - {r}) <==> Harmless(mem, open, At(b), Le32(Offset(r.block))))
      && (b == r.block ==> Get32(mem', At(r.block) + NEXT) == Offset(r.block))
  {
    hide Get32, Le32, Splice, Sound, Harmless;
    assert EventWrites(mem, r.block, Offset(b)) == StaleInsert(mem, r, b);
    assert [] + [r] == [r];
    StaleInsertSound(mem, live, open, r, b);
    if b == r.block {
      OwnBlockLinksToItself(mem, live, open, r);
    }
  }

  /** Reading the head event. */
  lemma HeadSet(mem: seq<Byte>, live: set<Region>, queue: seq<Rec>, open: set<Rec>)
    requires |mem| == BUFFER_BYTES && Sound(mem, live, queue, open) && queue != []
    ensures RecOk(mem, queue[0]) && Extents(queue[0]) <= live && Inside(EventRegion(queue[0].block))
    ensures Get32(mem, At(queue[0].block) + NEXT) == EventOffset(queue, 1)
  {
    hide Packed, RecOk, Extents;
    assert queue[0] in queue && queue[0] in Recs(queue, open);
    assert LinkedIn(mem, queue, 0);
    EventInside(mem, Recs(queue, open), queue[0]);
  }

  lemma NothingTaken(parts: seq<Part>)
    ensures PartExtents(parts[..0]) == {} && Fields(parts[..0]) == []
  {
  }

  /** Reading container i of an event. */
  lemma PartSays(mem: seq<Byte>, r: Rec, i: nat)
    requires |mem| == BUFFER_BYTES && RecOk(mem, r) && i < |r.parts|
    ensures PartOk(mem, r.parts[i], PartOffset(r.parts, i + 1))
  {
    hide Get32, PartOk;
    assert PartOk(mem, r.parts[i], NextPart(r.parts, i));
  }

  lemma RegionOf(mem: seq<Byte>, p: Part, next: nat)
    requires |mem| == BUFFER_BYTES && PartOk(mem, p, next)
    ensures PartRegion(p) == Region(At(p.block) / BLOCK_SIZE, BlocksFor(CONTAINER_BYTES + |p.field.value|))
  {
    hide Get32;
  }

  /** Memory after a container has been written. */
  function Written(mem: seq<Byte>, container: nat, f: Field, filled: bool): (mem': seq<Byte>)
    requires At(container) + CONTAINER_BYTES + |f.value| <= |mem|
    ensures |mem'| == |mem|
  {
    var headed := Headed(mem, At(container), f);
    if filled then Splice(headed, At(container) + CONTAINER_BYTES, f.value) else headed
  }

  lemma PartOffsetFits(p: Part)
    requires Inside(PartRegion(p))
    ensures 0 < Offset(p.block) < WORD_LIMIT
  {
  }

  /** Where AddEventData's write through the event's tail goes. */
  lemma LinkTarget(mem: seq<Byte>, r: Rec)
    requires |mem| == BUFFER_BYTES && RecOk(mem, r)
    ensures r.parts != [] ==> At(r.parts[|r.parts| - 1].block) + NEXT + 4 <= BUFFER_BYTES
  {
    if r.parts != [] {
      assert Inside(PartRegion(r.parts[|r.parts| - 1]));
    }
  }

  lemma HeadAndTail(mem: seq<Byte>, r: Rec)
    requires |mem| == BUFFER_BYTES && RecOk(mem, r)
    ensures Get32(mem, At(r.block) + HEAD) == HeadPart(r.parts)
    ensures Get32(mem, At(r.block) + TAIL) == TailPart(r.parts)
  {
    hide Get32;
  }

  /** The container a fresh reservation is for. */
  ghost function NewPart(mem: seq<Byte>, live: set<Region>, container: nat, key: Word, kind: Word, size: Word, data: Data): (p: Part)
    requires CONTAINER_BYTES + size <= ULONG_LIMIT - BLOCK_SIZE && (data.Given? ==> |data.bytes| == size)
    requires |mem| == BUFFER_BYTES && Packed(live) && Region(container, BlocksFor(CONTAINER_BYTES + size)) in live
    ensures At(container) + CONTAINER_BYTES + size <= BUFFER_BYTES
    ensures p == Part(container, Stored(mem, container, key, kind, size, data))
    ensures PartRegion(p) == Region(container, BlocksFor(CONTAINER_BYTES + size)) && Inside(PartRegion(p))
  {
    assert Inside(Region(container, BlocksFor(CONTAINER_BYTES + size)));
    Part(container, Stored(mem, container, key, kind, size, data))
  }

  lemma WrittenPart(mem: seq<Byte>, p: Part, filled: bool, stored: seq<Byte>)
    requires |mem| == BUFFER_BYTES && Inside(PartRegion(p)) && At(p.block) + CONTAINER_BYTES + |p.field.value| <= BUFFER_BYTES
    requires var at := At(p.block) + CONTAINER_BYTES; filled || p.field.value == mem[at..at + |p.field.value|]
    requires stored == Written(mem, p.block, p.field, filled)
    ensures PartOk(stored, p, 0) && OnlyIn(mem, stored, {PartRegion(p)})
  {
    hide PartOk, OnlyIn, Headed, Splice;
    StoredPart(mem, p, filled, stored);
  }

  lemma StoredEvent(mem: seq<Byte>, stored: seq<Byte>, live: set<Region>, queue: seq<Rec>, open: set<Rec>, r: Rec, p: Part, filled: bool)
    requires |mem| == BUFFER_BYTES && Sound(mem, live, queue, open) && r in open
    requires PartRegion(p) !in live && Packed(live + {PartRegion(p)})
    requires Inside(PartRegion(p)) && At(p.block) + CONTAINER_BYTES + |p.field.value| <= BUFFER_BYTES
    requires var at := At(p.block) + CONTAINER_BYTES; filled || p.field.value == mem[at..at + |p.field.value|]
    requires stored == Written(mem, p.block, p.field, filled)
    ensures RecOk(stored, r) && Inside(EventRegion(r.block))
  {
    hide Packed, Owns, AllOk, Chained, Recs, PartOk, OnlyIn, RecOk, Written, SameLinks, PartRegion, Inside;
    WrittenPart(mem, p, filled, stored);
    OpenIn(queue, open, r);
    StillOk(mem, stored, live, Recs(queue, open), r, PartRegion(p));
    EventInside(mem, Recs(queue, open), r);
  }

  lemma DataJoins(mem: seq<Byte>, stored: seq<Byte>, mem': seq<Byte>, live: set<Region>, queue: seq<Rec>, open: set<Rec>,
    r: Rec, p: Part, filled: bool)
    requires |mem| == |mem'| == BUFFER_BYTES && Sound(mem, live, queue, open) && r in open
    requires PartRegion(p) !in live && Packed(live + {PartRegion(p)})
    requires Inside(PartRegion(p)) && At(p.block) + CONTAINER_BYTES + |p.field.value| <= BUFFER_BYTES
    requires var at := At(p.block) + CONTAINER_BYTES; filled || p.field.value == mem[at..at + |p.field.value|]
    requires stored == Written(mem, p.block, p.field, filled)
    requires Inside(EventRegion(r.block)) && LinksPart(stored, r, p, mem')
    ensures Sound(mem', live + {PartRegion(p)}, queue, open - {r} + {Longer(r, p)})
  {
    hide Packed, Sound, PartOk, OnlyIn, Written, Longer, LinksPart, PartRegion, Inside;
    WrittenPart(mem, p, filled, stored);
    Added(mem, stored, mem', live, queue, open, r, p);
  }

  lemma EventJoins(mem: seq<Byte>, mem': seq<Byte>, live: set<Region>, queue: seq<Rec>, open: set<Rec>, r: Rec, zeros: seq<Byte>)
    requires |mem| == BUFFER_BYTES && r.parts == [] && Sound(mem, live, queue, open)
    requires EventRegion(r.block) !in live && Packed(live + {EventRegion(r.block)})
    requires |zeros| == EVENT_BYTES && (forall k :: 0 <= k < EVENT_BYTES ==> zeros[k] == 0)
    requires At(r.block) + EVENT_BYTES <= BUFFER_BYTES && mem' == Splice(mem, At(r.block), zeros)
    ensures r !in open && Sound(mem', live + {EventRegion(r.block)}, queue, open + {r})
  {
    hide Chained, AllOk, Owns, Packed, RecOk;
    Created(mem, mem', live, queue, open, r, zeros);
  }

  lemma OneField(p: Part)
    ensures Fields([p]) == [p.field]
  {
    assert [p][..0] == [];
  }

  /** The kernel's side of a connection event with one field; false if there was no room for all of it. */
  method Send(list: EventList, key: Word, kind: Word, value: seq<Byte>) returns (sent: bool)
    requires (list.Valid() || list.Drained()) && CONTAINER_BYTES + |value| <= ULONG_LIMIT - BLOCK_SIZE
    modifies list, list.memory, list.buffer, list.buffer.bitmap
    ensures old(list.Valid()) ==> list.Valid()
    ensures old(list.Drained()) && !sent ==> list.Drained()
    ensures sent ==> |list.queue| == |old(list.queue)| + 1 && list.queue[..|old(list.queue)|] == old(list.queue)
    ensures sent ==> Fields(list.queue[|old(list.queue)|].parts) == [Field(key, kind, value)]
    ensures !sent ==> list.queue == old(list.queue)
  {
    hide Sound, Accounts, NoRoom, Fields, PartRegion;
    var event := list.CreateEvent();
    if event < 0 {
      return false;
    }
    ghost var r := Rec(event, []);
    var container := list.AddEventData(event, key, kind, |value|, Given(value), r);
    if container < 0 {
      return false;
    }
    ghost var p := Part(container, Field(key, kind, value));
    assert r.parts + [p] == [p];
    OneField(p);
    list.InsertEvent(event, Rec(event, [p]));
    return true;
  }

  /** Two events sent and one received: the first comes out, with what was put in, and the second stays. */
  method SendTwoReceiveOne(key: Word, kind: Word, first: seq<Byte>, second: seq<Byte>) returns (sent: bool, fields: seq<Field>)
    requires CONTAINER_BYTES + |first| <= ULONG_LIMIT - BLOCK_SIZE && CONTAINER_BYTES + |second| <= ULONG_LIMIT - BLOCK_SIZE
    ensures sent ==> fields == [Field(key, kind, first)]
  {
    hide Sound, Accounts, Fields, Extents;
    var list := new EventList();
    sent := Send(list, key, kind, first);
    fields := [];
    if sent {
      ghost var head := list.queue[0];
      sent := Send(list, key, kind, second);
      assert list.queue[0] == head;
      fields := list.ProcessEvent();
      assert sent ==> list.Valid() && Fields(list.queue[0].parts) == [Field(key, kind, second)];
    }
  }

  lemma NothingReserved(bytes: seq<bv8>)
    requires Accounts(bytes, {})
    ensures 2 <= 8 * |bytes| == BITMAP_BITS && IsClear(bytes, Region(0, 2)) && !NoRoom(bytes, 2)
  {
    hide Bit;
    assert IsClear(bytes, Region(0, 2));
  }

  /**
   The smallest run that breaks the list: one event inserted and consumed. The list is then empty,
   but its tail still names the event, whose blocks have been given back.
   */
  method DrainToEmpty() returns (list: EventList)
    ensures list.Drained() && list.buffer.live == {} && list.open == {} && list.buffer.hint == list.StaleBlock() == 0
    ensures !list.Valid()
    ensures fresh(list) && fresh(list.memory) && fresh(list.buffer) && fresh(list.buffer.bitmap)
  {
    hide Sound, Accounts, NoRoom;
    list := new EventList();
    NothingReserved(list.buffer.bitmap[..]);
    var event := list.CreateEvent();
    assert event >= 0;
    list.InsertEvent(event, Rec(event, []));
    var fields := list.ProcessEvent();
    assert Extents(Rec(event, [])) == {EventRegion(event)};
  }

  /**
   The run goes on: the next event is given the blocks just given back, so the stale tail names the
   new event itself. The list then has one event, which links to itself.
   */
  method DrainThenInsert() returns (list: EventList)
    ensures list.queue == [Rec(0, [])] && list.head == Offset(0) && !list.Valid()
    ensures list.memory.Length == BUFFER_BYTES && Get32(list.memory[..], At(0) + NEXT) == list.head
  {
    hide Sound, Accounts, NoRoom, IsClear, Harmless, Get32;
    list := DrainToEmpty();
    var event := list.CreateEvent();
    SelfHit(list.memory[..], list.open, Rec(event, []));
    list.InsertEvent(event, Rec(event, []));
  }

  lemma SelfHit(mem: seq<Byte>, open: set<Rec>, r: Rec)
    requires |mem| == BUFFER_BYTES && At(r.block) + 4 <= BUFFER_BYTES && r in open
    ensures !Harmless(mem, open, At(r.block), Le32(Offset(r.block)))
  {
    assert !MissesEvent(r, At(r.block));
  }
}
