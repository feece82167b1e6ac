/**
 The event ring of EventRingList.c: staging buffers, list buffers and the ring of four lists.
 Each public operation is one atomic step.
 */
module EventRing {
  import opened Words
  import opened EventImage
  import opened EventStaging
  import opened EventReuse
  import opened RingQueue

  // MAX_EVENT_BUFFERS of EventRingList.h
  const MAX_EVENT_BUFFERS := 256

  // The `event` pointer of a staging buffer, as an offset into it
  const NO_EVENT := -1

  /** A staging buffer: one event is built in it at a time. */
  class EventBuffer {
    const buffer: array<Byte>
    const bufferLength: nat
    var id: nat
    var event: int
    var inUse: bool
    var bufferUsed: nat
    var bufferRemaining: nat

    /** The AddEventData calls since CreateEvent, and what the buffer held then. */
    ghost var staged: seq<Field>
    ghost var began: seq<Byte>

    ghost predicate Valid()
      reads this, buffer
    {
      && buffer.Length == bufferLength
      && Sane(buffer[..])
      && bufferUsed + bufferRemaining == bufferLength
      && (!inUse ==> bufferUsed == 0)
      && (inUse ==>
            event == 0 && |began| == bufferLength && bufferUsed == EventSize(staged) && Building(began, buffer[..], staged))
    }

    /** The bytes AddEvent copies out of this buffer. */
    ghost function Image(): (img: seq<Byte>)
      reads this, buffer
    {
      if bufferUsed <= buffer.Length then buffer[..bufferUsed] else []
    }

    lemma ImageOfEvent()
      requires Valid() && inUse
      ensures bufferUsed <= bufferLength == buffer.Length && Image() == buffer[..bufferUsed] && IsImage(Image())
    {
      assert buffer[..bufferUsed][..4] == buffer[..][..4];
    }

    /** Exactly when an event carries its AddEventData calls and nothing else, wherever it goes. */
    lemma ImageCarries()
      requires Valid() && inUse
      ensures IsImage(Image()) && |began| >= EVENT_SIZE
      ensures CarriesAnywhere(Image()[4..], staged) <==> ComesOutRight(TailData(began), staged)
    {
      ImageOfEvent();
      EventComesOut(began, staged);
      assert Image() == StagedImage(StageAll(began, staged), EventSize(staged));
    }

    ghost predicate NeverUsed()
      reads this, buffer
    {
      Valid() && !inUse && TailData(buffer[..]) == 0
    }

    // CreateEventBuffer
    constructor (length: nat, id: nat)
      requires EVENT_SIZE <= length < WORD_LIMIT
      ensures NeverUsed() && Valid() && bufferLength == length && this.id == id
      ensures fresh(buffer)
    {
      bufferLength := length;
      buffer := new Byte[length](_ => 0);
      bufferUsed, bufferRemaining := 0, length;
      this.id := id;
      event, inUse := NO_EVENT, false;
      staged, began := [], [];
      new;
      var zeros := buffer[..];
      assert zeros[..4] == Le32(0);
      assert Get32(zeros, HEAD_DATA_OFFSET) == 0 && Get32(zeros, TAIL_DATA_OFFSET) == 0;
    }

    // The part of CreateEvent that places the event in the buffer found
    method PlaceEvent()
      requires Valid() && !inUse
      modifies this
      ensures Valid() && inUse && id == old(id)
      ensures bufferUsed == EVENT_SIZE && staged == []
      ensures began == buffer[..]
    {
      inUse := true;
      event := bufferUsed;
      bufferUsed := bufferUsed + EVENT_SIZE;
      bufferRemaining := bufferRemaining - EVENT_SIZE;
      staged := [];
      began := buffer[..];
    }

    // RemoveEvent and ResetEventBuffer: neither touches the buffer's bytes
    method Reset(clearPointer: bool)
      requires Valid()
      modifies this
      ensures Valid() && !inUse && id == old(id)
    {
      bufferRemaining := bufferLength;
      bufferUsed := 0;
      if clearPointer {
        event := NO_EVENT;
      }
      inUse := false;
    }

    /** The header words of a record, around a value already in place. */
    method WriteHeader(at: nat, key: Word, kind: Word, length: nat, ghost f: Field)
      requires f.key == key && f.kind == kind && |f.value| == length
      requires at + EVENT_DATA_SIZE + length <= buffer.Length && Holds(buffer[..], at + EVENT_DATA_SIZE, f.value)
      modifies buffer
      ensures buffer[..] == Splice(old(buffer[..]), at, Le32(0) + FieldBody(f))
    {
      PutWord(buffer, at, 0);
      PutWord(buffer, at + DATA_KEY, key);
      PutWord(buffer, at + DATA_LENGTH, length);
      PutWord(buffer, at + DATA_TYPE, kind);
      RecordWritten(old(buffer[..]), at, f);
    }

    /** A whole record. */
    method WriteRecord(at: nat, f: Field)
      requires at + EVENT_DATA_SIZE + |f.value| <= buffer.Length
      modifies buffer
      ensures buffer[..] == Splice(old(buffer[..]), at, Le32(0) + FieldBody(f))
    {
      CopyBytes(buffer, at + EVENT_DATA_SIZE, f.value);
      WriteHeader(at, f.key, f.kind, |f.value|, f);
      SpliceOver(old(buffer[..]), at, Le32(0) + FieldBody(f), at + EVENT_DATA_SIZE, f.value);
    }

    /** Names the record at `offset` in the event's header and in its last record so far. */
    method LinkRecord(offset: nat, ghost after: seq<Byte>)
      requires buffer.Length >= EVENT_SIZE && TailData(buffer[..]) + 4 <= buffer.Length && event == 0
      requires after == LinkedIn(buffer[..], offset)
      modifies buffer
      ensures buffer[..] == after
    {
      if Get32(buffer[..], HEAD_DATA_OFFSET) == 0 {
        SpliceKeepsWord(buffer[..], HEAD_DATA_OFFSET, Le32(offset), TAIL_DATA_OFFSET);
        PutWord(buffer, HEAD_DATA_OFFSET, offset);
      }
      var tail := Get32(buffer[..], TAIL_DATA_OFFSET);
      if tail != 0 {
        PutWord(buffer, event + tail, offset);
      }
      PutWord(buffer, TAIL_DATA_OFFSET, offset);
    }

    /** Links in a record just written at the end of the event and counts it. */
    method FinishRecord(size: nat, ghost f: Field, ghost after: seq<Byte>)
      requires buffer.Length == bufferLength && bufferUsed + bufferRemaining == bufferLength
      requires inUse && event == 0 && EVENT_SIZE <= bufferUsed && size <= bufferRemaining
      requires TailData(buffer[..]) + 4 <= bufferLength && after == LinkedIn(buffer[..], bufferUsed)
      requires |began| == bufferLength && EventSize(staged + [f]) == bufferUsed + size && Building(began, after, staged + [f]) && Sane(after)
      modifies this, buffer
      ensures Valid() && inUse && id == old(id) && began == old(began)
      ensures buffer[..] == after
      ensures bufferUsed == old(bufferUsed) + size
      ensures staged == old(staged) + [f]
    {
      hide LinkedIn, Building, Sane, EventSize, Splice, Get32;
      LinkRecord(bufferUsed - event, after);
      bufferUsed := bufferUsed + size;
      bufferRemaining := bufferRemaining - size;
      staged := staged + [f];
    }

    method AddEventData(key: Word, kind: Word, value: seq<Byte>) returns (ok: bool)
      requires Valid() && inUse && EVENT_DATA_SIZE + |value| < WORD_LIMIT
      modifies this, buffer
      ensures Valid() && inUse && id == old(id) && began == old(began)
      ensures ok <==> EVENT_DATA_SIZE + |value| <= old(bufferRemaining)
      ensures ok ==> buffer[..] == StageField(old(buffer[..]), old(bufferUsed), Field(key, kind, value))
      ensures ok ==> bufferUsed == old(bufferUsed) + EVENT_DATA_SIZE + |value|
      ensures ok ==> staged == old(staged) + [Field(key, kind, value)]
      ensures !ok ==> buffer[..] == old(buffer[..]) && bufferUsed == old(bufferUsed) && staged == old(staged)
    {
      hide StageField, LinkedIn, Splice;
      if EVENT_DATA_SIZE + |value| > bufferRemaining {
        return false;
      }
      ghost var f := Field(key, kind, value);
      WriteRecord(bufferUsed, Field(key, kind, value));
      ghost var after := PlanRecord(began, old(buffer[..]), staged, f);
      FinishRecord(EVENT_DATA_SIZE + |value|, f, after);
      return true;
    }

    /** ReserveEventDataSpace where the record fits. */
    method ReserveRecord(key: Word, kind: Word, length: nat) returns (ghost f: Field)
      requires Valid() && inUse && EVENT_DATA_SIZE + length <= bufferRemaining
      modifies this, buffer
      ensures Valid() && inUse && id == old(id) && began == old(began)
      ensures f == Field(key, kind, old(buffer[..])[old(bufferUsed) + EVENT_DATA_SIZE..][..length])
      ensures bufferUsed == old(bufferUsed) + EVENT_DATA_SIZE + length
      ensures staged == old(staged) + [f]
      ensures buffer[..] == StageField(old(buffer[..]), old(bufferUsed), f)
    {
      hide StageField, LinkedIn, Splice, Sane;
      f := Field(key, kind, buffer[..][bufferUsed + EVENT_DATA_SIZE..][..length]);
      HoldsOwn(buffer[..], bufferUsed + EVENT_DATA_SIZE, length);
      WriteHeader(bufferUsed, key, kind, length, f);
      ghost var after := PlanRecord(began, old(buffer[..]), staged, f);
      FinishRecord(EVENT_DATA_SIZE + length, f, after);
    }

    /** As AddEventData, but the value is whatever the buffer held; the caller fills it in later. */
    method ReserveEventDataSpace(key: Word, kind: Word, length: nat) returns (position: int, ghost f: Field)
      requires Valid() && inUse && EVENT_DATA_SIZE + length < WORD_LIMIT
      modifies this, buffer
      ensures Valid() && inUse && id == old(id) && began == old(began)
      ensures position == if EVENT_DATA_SIZE + length <= old(bufferRemaining) then old(bufferUsed) + EVENT_DATA_SIZE else -1
      ensures position >= 0 ==>
        && f == Field(key, kind, old(buffer[..])[position..][..length])
        && bufferUsed == position + length
        && staged == old(staged) + [f]
        && buffer[..] == StageField(old(buffer[..]), old(bufferUsed), f)
      ensures position < 0 ==> buffer[..] == old(buffer[..]) && bufferUsed == old(bufferUsed) && staged == old(staged)
    {
      if EVENT_DATA_SIZE + length > bufferRemaining {
        return -1, Field(key, kind, []);
      }
      position := bufferUsed + EVENT_DATA_SIZE;
      f := ReserveRecord(key, kind, length);
    }
  }

  /** A list's bytes and offsets, as they must be when it holds `images`. */
  ghost predicate Listed(mem: seq<Byte>, used: nat, head: nat, tail: nat, images: seq<Image>)
  {
    && (forall i :: 0 <= i < |images| ==> IsImage(images[i]))
    && used == TotalLength(images)
    && Holds(mem, 0, ListBytes(images))
    && head == HeadEvent(images)
    && tail == TailEvent(images)
  }

  lemma ListedMore(before: seq<Byte>, used: nat, head: nat, tail: nat, images: seq<Image>, img: Image, after: seq<Byte>)
    requires Listed(before, used, head, tail, images) && IsImage(img) && used + |img| <= |before|
    requires tail != 0 ==> EVENT_LIST_SIZE <= tail && tail - EVENT_LIST_SIZE + 4 <= |before|
    requires var stored := Splice(before, used, img);
      after == if tail != 0 then Splice(stored, tail - EVENT_LIST_SIZE, Le32(EVENT_LIST_SIZE + used)) else stored
    ensures Listed(after, used + |img|, if head == 0 then EVENT_LIST_SIZE + used else head, EVENT_LIST_SIZE + used, images + [img])
  {
    hide Splice;
    hide Le32;
    hide Linked;
    ChainLengthOfTails(images);
    AppendImage(images, img);
    TotalLengthAppend(images, img);
    if images == [] {
      assert Tails(images) == [];
      StoreFirst(before, EVENT_LIST_SIZE, img, after);
    } else {
      LastRecordEnds(Tails(images));
      StoreNext(before, Tails(images), EVENT_LIST_SIZE, img, used, tail - EVENT_LIST_SIZE, EVENT_LIST_SIZE + used, after);
    }
  }

  lemma TailInside(mem: seq<Byte>, used: nat, head: nat, tail: nat, images: seq<Image>)
    requires Listed(mem, used, head, tail, images) && tail != 0
    ensures EVENT_LIST_SIZE <= tail && tail - EVENT_LIST_SIZE + 4 <= used <= |mem|
  {
    ChainLengthOfTails(images);
    LastRecordEnds(Tails(images));
  }

  /** A list buffer: events copied in one behind the other, linked by offsets from the struct itself. */
  class EventList {
    const data: array<Byte>
    const dataLength: nat
    var headEventOffset: nat
    var tailEventOffset: nat
    var ready: bool
    var spaceUsed: nat
    var spaceRemaining: nat

    /** The images of the events in the list, in the order they were added. */
    ghost var images: seq<Image>

    ghost predicate Valid()
      reads this, data
    {
      && data.Length == dataLength
      && EVENT_LIST_SIZE + dataLength < WORD_LIMIT
      && spaceUsed + spaceRemaining == dataLength
      && Listed(data[..], spaceUsed, headEventOffset, tailEventOffset, images)
    }

    // CreateEventList; the data itself is not zeroed
    constructor (length: nat)
      requires EVENT_LIST_SIZE + length < WORD_LIMIT
      ensures Valid() && dataLength == length && images == [] && ready
      ensures fresh(data)
    {
      data := new Byte[length];
      dataLength := length;
      headEventOffset, tailEventOffset := 0, 0;
      spaceUsed, spaceRemaining := 0, length;
      ready := true;
      images := [];
    }

    // ResetEventList
    method Reset()
      requires Valid()
      modifies this, data
      ensures Valid() && images == [] && ready
    {
      headEventOffset := 0;
      tailEventOffset := 0;
      ready := true;
      spaceUsed := 0;
      spaceRemaining := dataLength;
      images := [];
      forall i | 0 <= i < data.Length {
        data[i] := 0;
      }
    }

    // Clearing `ready` stops further writes to the list
    method Close()
      requires Valid()
      modifies this`ready
      ensures Valid() && !ready
    {
      ready := false;
    }

    // The part of AddEvent that copies the event into the list and links it
    method Append(img: Image)
      requires Valid() && IsImage(img) && |img| <= spaceRemaining
      modifies this, data
      ensures Valid() && ready == old(ready)
      ensures images == old(images) + [img]
    {
      hide Listed;
      hide Splice;
      var offset := EVENT_LIST_SIZE + spaceUsed;
      if tailEventOffset != 0 {
        TailInside(data[..], spaceUsed, headEventOffset, tailEventOffset, images);
      }
      CopyBytes(data, spaceUsed, img);
      spaceUsed := spaceUsed + |img|;
      spaceRemaining := spaceRemaining - |img|;
      if headEventOffset == 0 {
        headEventOffset := offset;
      }
      if tailEventOffset != 0 {
        PutWord(data, tailEventOffset - EVENT_LIST_SIZE, offset);
      }
      ListedMore(old(data[..]), old(spaceUsed), old(headEventOffset), old(tailEventOffset), images, img, data[..]);
      tailEventOffset := offset;
      images := images + [img];
    }

    /** RtlCopyMemory of the used part of the list: exactly the events added are read from it, in order. */
    method CopyOut() returns (head: nat, bytes: seq<Byte>)
      requires Valid()
      ensures forall events :: AreEvents(images, events) ==> EventChain(bytes, EVENT_LIST_SIZE, head, events)
    {
      ChainLengthOfTails(images);
      head := headEventOffset;
      bytes := data[..spaceUsed];
      forall events | AreEvents(images, events)
        ensures EventChain(bytes, EVENT_LIST_SIZE, head, events)
      {
        ReadListBytes(images, events, bytes);
      }
    }

    /** The space left is what the events in the list leave of its length. */
    lemma Room()
      requires Valid()
      ensures TotalLength(images) + spaceRemaining == dataLength
    {
    }
  }

  /** The ring itself. */
  class EventRingList {
    const eventListLength: nat
    const eventBufferLength: nat
    // event_lists: the four slots in use of MAX_EVENT_LISTS, never changed after initialisation
    const eventLists: seq<EventList>
    var readList: EventList
    var writeList: EventList
    var readPosition: nat
    var writePosition: nat
    // event_buffers: the slots in use of MAX_EVENT_BUFFERS, filled from the front
    var eventBuffers: seq<EventBuffer>
    var numEventBuffers: nat

    ghost predicate Lists()
      reads eventLists, set i | 0 <= i < |eventLists| :: eventLists[i].data
    {
      && |eventLists| == NUM_EVENT_LISTS
      && (forall i :: 0 <= i < |eventLists| ==> eventLists[i].Valid() && eventLists[i].dataLength == eventListLength)
      && (forall i, j :: 0 <= i < j < |eventLists| ==> eventLists[i] != eventLists[j] && eventLists[i].data != eventLists[j].data)
    }

    /** The list pointers agree with the positions, which differ. */
    ghost predicate Placed()
      reads this
    {
      && |eventLists| == NUM_EVENT_LISTS
      && Positions(readPosition, writePosition)
      && readList == eventLists[readPosition]
      && writeList == eventLists[writePosition]
    }

    ghost function Contents(): (lists: seq<seq<Image>>)
      requires |eventLists| == NUM_EVENT_LISTS
      reads eventLists
      ensures |lists| == NUM_EVENT_LISTS
    {
      [eventLists[0].images, eventLists[1].images, eventLists[2].images, eventLists[3].images]
    }

    /** The ring as a queue of lists, from the read position round to the write position. */
    ghost function Pending(): (q: Queue)
      reads this, eventLists
      ensures 2 <= |q| <= NUM_EVENT_LISTS
    {
      if Placed() then Round(Contents(), readPosition, writePosition) else [[], []]
    }

    /** The staging buffers in use slots, none sharing bytes with another. */
    ghost predicate Buffers()
      reads this`eventBuffers, this`numEventBuffers, eventBuffers, set i | 0 <= i < |eventBuffers| :: eventBuffers[i].buffer
    {
      && EVENT_SIZE <= eventBufferLength < WORD_LIMIT
      && 1 <= numEventBuffers == |eventBuffers| <= MAX_EVENT_BUFFERS
      && (forall i :: 0 <= i < |eventBuffers| ==> eventBuffers[i].Valid() && eventBuffers[i].bufferLength == eventBufferLength)
      && (forall i, j :: 0 <= i < j < |eventBuffers| ==> eventBuffers[i] != eventBuffers[j] && eventBuffers[i].buffer != eventBuffers[j].buffer)
    }

    /** No list shares bytes with a staging buffer. */
    ghost predicate Apart()
      reads this`eventBuffers
    {
      forall i, j :: 0 <= i < |eventLists| && 0 <= j < |eventBuffers| ==> eventLists[i].data != eventBuffers[j].buffer
    }

    ghost predicate Valid()
      reads this, eventLists, eventBuffers
      reads set i | 0 <= i < |eventLists| :: eventLists[i].data
      reads set i | 0 <= i < |eventBuffers| :: eventBuffers[i].buffer
    {
      && Placed() && Lists() && writeList.ready
      && Buffers() && Apart()
      && eventBufferLength <= eventListLength
    }

    // InitialiseEventRingList, every allocation succeeding
    constructor (listLength: nat, numBuffers: nat, bufferLength: nat)
      requires EVENT_SIZE <= bufferLength <= listLength && EVENT_LIST_SIZE + listLength < WORD_LIMIT
      requires 1 <= numBuffers <= MAX_EVENT_BUFFERS
      ensures Valid() && Pending() == [[], []]
      ensures eventListLength == listLength && eventBufferLength == bufferLength && numEventBuffers == numBuffers
      ensures forall i :: 0 <= i < |eventBuffers| ==> eventBuffers[i].NeverUsed()
    {
      hide EventList.Valid, EventBuffer.Valid, EventBuffer.NeverUsed;
      var buffers := FreshBuffers(numBuffers, bufferLength);
      var lists := FreshLists(listLength);
      eventListLength, eventBufferLength := listLength, bufferLength;
      eventBuffers, numEventBuffers := buffers, numBuffers;
      eventLists := lists;
      readPosition, writePosition := 0, 1;
      readList, writeList := lists[0], lists[1];
      new;
      assert Round(Contents(), 1, 1) == [[]];
    }

    static method FreshLists(length: nat) returns (lists: seq<EventList>)
      requires EVENT_LIST_SIZE + length < WORD_LIMIT
      ensures |lists| == NUM_EVENT_LISTS
      ensures forall k :: 0 <= k < |lists| ==> fresh(lists[k]) && fresh(lists[k].data)
      ensures forall k :: 0 <= k < |lists| ==>
        lists[k].Valid() && lists[k].dataLength == length && lists[k].images == [] && lists[k].ready
      ensures forall j, k :: 0 <= j < k < |lists| ==> lists[j] != lists[k] && lists[j].data != lists[k].data
    {
      hide EventList.Valid;
      lists := [];
      for i := 0 to NUM_EVENT_LISTS
        invariant |lists| == i
        invariant forall k :: 0 <= k < i ==> fresh(lists[k]) && fresh(lists[k].data)
        invariant forall k :: 0 <= k < i ==>
          lists[k].Valid() && lists[k].dataLength == length && lists[k].images == [] && lists[k].ready
        invariant forall j, k :: 0 <= j < k < i ==> lists[j] != lists[k] && lists[j].data != lists[k].data
      {
        var list := new EventList(length);
        lists := lists + [list];
      }
    }

    static method FreshBuffers(count: nat, length: nat) returns (buffers: seq<EventBuffer>)
      requires EVENT_SIZE <= length < WORD_LIMIT
      ensures |buffers| == count
      ensures forall k :: 0 <= k < count ==> fresh(buffers[k]) && fresh(buffers[k].buffer)
      ensures forall k :: 0 <= k < count ==> buffers[k].Valid() && buffers[k].bufferLength == length
      ensures forall k :: 0 <= k < count ==> buffers[k].NeverUsed()
      ensures forall j, k :: 0 <= j < k < count ==> buffers[j] != buffers[k] && buffers[j].buffer != buffers[k].buffer
    {
      hide EventBuffer.Valid, EventBuffer.NeverUsed;
      buffers := [];
      for i := 0 to count
        invariant |buffers| == i
        invariant forall k :: 0 <= k < i ==> fresh(buffers[k]) && fresh(buffers[k].buffer)
        invariant forall k :: 0 <= k < i ==> buffers[k].Valid() && buffers[k].bufferLength == length
        invariant forall k :: 0 <= k < i ==> buffers[k].NeverUsed()
        invariant forall j, k :: 0 <= j < k < i ==> buffers[j] != buffers[k] && buffers[j].buffer != buffers[k].buffer
      {
        var b := new EventBuffer(length, count);
        buffers := buffers + [b];
      }
    }

    /** Empties the list at `position` and makes it the write list. */
    method OpenWriteList(position: nat)
      requires Lists() && position < NUM_EVENT_LISTS
      modifies this`writePosition, this`writeList, eventLists[position], eventLists[position].data
      ensures Lists() && Contents() == old(Contents())[position := []]
      ensures writePosition == position && writeList == eventLists[position]
      ensures writeList.ready && writeList.images == []
    {
      hide EventList.Valid;
      writePosition := position;
      writeList := eventLists[writePosition];
      writeList.Reset();
    }

    lemma ListsDiffer(i: nat, j: nat)
      requires Lists() && i < NUM_EVENT_LISTS && j < NUM_EVENT_LISTS && i != j
      ensures |eventLists| == NUM_EVENT_LISTS && eventLists[i] != eventLists[j]
    {
    }

    lemma ContentsAt(i: nat)
      requires |eventLists| == NUM_EVENT_LISTS && i < NUM_EVENT_LISTS
      ensures Contents()[i] == eventLists[i].images
    {
    }

    /** Stops further writes to one of the lists. */
    method CloseList(list: EventList)
      requires Lists() && list in eventLists
      modifies list`ready
      ensures Lists() && Contents() == old(Contents()) && !list.ready
    {
      hide EventList.Valid;
      list.Close();
    }

    // AcquireReadEventList: hands out the list at the read position
    method AcquireReadEventList() returns (list: EventList)
      requires Placed() && Lists() && writeList.ready
      modifies this`readPosition, this`writePosition, this`readList, this`writeList
      modifies eventLists, set i | 0 <= i < |eventLists| :: eventLists[i].data
      ensures Placed() && Lists() && writeList.ready
      ensures list in eventLists && list.images == old(Pending())[0]
      ensures Pending() == ReadList(old(Pending()))
      ensures list != writeList && !list.ready && readPosition == (old(readPosition) + 1) % NUM_EVENT_LISTS
      ensures if readPosition == old(writePosition) then
          writePosition == (old(writePosition) + 1) % NUM_EVENT_LISTS && Contents() == old(Contents())[writePosition := []]
        else
          writePosition == old(writePosition) && Contents() == old(Contents())
    {
      hide EventList.Valid, Lists, Contents, Round, ReadList;
      ghost var at := readPosition;
      ListsDiffer(at, writePosition);
      ContentsAt(at);
      RoundRead(Contents(), readPosition, writePosition);
      CloseList(readList);
      readPosition := (readPosition + 1) % NUM_EVENT_LISTS;
      if readPosition == writePosition {
        OpenWriteList((writePosition + 1) % NUM_EVENT_LISTS);
      }
      list := readList;
      readList := eventLists[readPosition];
      ContentsAt(at);
      ListsDiffer(at, writePosition);
    }

    // AcquireNextWriteEventList: moves on to the next list, giving up the oldest one if it is in the way
    method AcquireNextWriteEventList()
      requires Placed() && Lists() && writeList.ready
      modifies this`readPosition, this`writePosition, this`readList, this`writeList
      modifies eventLists, set i | 0 <= i < |eventLists| :: eventLists[i].data
      ensures Placed() && Lists() && writeList.ready
      ensures writeList.images == [] && writePosition == (old(writePosition) + 1) % NUM_EVENT_LISTS
      ensures var q := old(Pending()); Pending() == (if |q| == NUM_EVENT_LISTS then q[1..] else q) + [[]]
    {
      hide EventList.Valid;
      hide Round;
      RoundNextWrite(Contents(), readPosition, writePosition, []);
      CloseList(writeList);
      var position := (writePosition + 1) % NUM_EVENT_LISTS;
      if position == readPosition {
        readPosition := (readPosition + 1) % NUM_EVENT_LISTS;
        readList := eventLists[readPosition];
      }
      OpenWriteList(position);
    }

    /** The copying half of AddEvent: the image goes behind the last event of the write list. */
    method AppendToWriteList(img: Image)
      requires Placed() && Lists() && writeList.ready && IsImage(img) && |img| <= writeList.spaceRemaining
      modifies eventLists, set i | 0 <= i < |eventLists| :: eventLists[i].data
      ensures Placed() && Lists() && writeList.ready
      ensures writeList.images == old(writeList.images) + [img]
      ensures Contents() == old(Contents())[writePosition := writeList.images]
      ensures var q := old(Pending()); Pending() == q[..|q| - 1] + [q[|q| - 1] + [img]]
    {
      hide EventList.Valid;
      hide Round;
      RoundEnds(Contents(), readPosition, writePosition);
      RoundWriteList(Contents(), readPosition, writePosition, writeList.images + [img]);
      writeList.Append(img);
      assert Contents() == old(Contents())[writePosition := old(writeList.images) + [img]];
    }

    /**
     AcquireWriteEventList: the spin on `ready` ends at once, as the write list is ready, and the next
     list is taken if the image does not fit.
     */
    method AcquireWriteEventList(size: nat)
      requires Placed() && Lists() && writeList.ready && size <= eventListLength
      modifies this`readPosition, this`writePosition, this`readList, this`writeList
      modifies eventLists, set i | 0 <= i < |eventLists| :: eventLists[i].data
      ensures Placed() && Lists() && writeList.ready && size <= writeList.spaceRemaining
      ensures size <= old(writeList.spaceRemaining) ==>
        readPosition == old(readPosition) && writePosition == old(writePosition) && writeList == old(writeList)
        && Contents() == old(Contents()) && Pending() == old(Pending())
      ensures size > old(writeList.spaceRemaining) ==>
        writePosition == (old(writePosition) + 1) % NUM_EVENT_LISTS && writeList.images == []
      ensures Pending() == MakeRoom(old(Pending()), size, eventListLength)
    {
      hide EventList.Valid;
      hide Round, TotalLength;
      RoundEnds(Contents(), readPosition, writePosition);
      writeList.Room();
      if size > writeList.spaceRemaining {
        AcquireNextWriteEventList();
        writeList.Room();
        TotalLengthEmpty();
      }
    }

    /** AcquireWriteEventList and the copying. */
    method WriteImage(img: Image)
      requires Placed() && Lists() && writeList.ready && IsImage(img) && |img| <= eventListLength
      modifies this`readPosition, this`writePosition, this`readList, this`writeList
      modifies eventLists, set i | 0 <= i < |eventLists| :: eventLists[i].data
      ensures Placed() && Lists() && writeList.ready
      ensures |img| <= old(writeList.spaceRemaining) ==>
        readPosition == old(readPosition) && writePosition == old(writePosition) && writeList == old(writeList)
        && Contents() == old(Contents())[writePosition := old(writeList.images) + [img]]
        && var q := old(Pending()); Pending() == q[..|q| - 1] + [q[|q| - 1] + [img]]
      ensures |img| > old(writeList.spaceRemaining) ==>
        writePosition == (old(writePosition) + 1) % NUM_EVENT_LISTS && writeList.images == [img]
      ensures Pending() == WriteEvent(old(Pending()), img, eventListLength)
    {
      hide EventList.Valid, Lists, Pending, WriteEvent, MakeRoom;
      RoomThenAppend(Pending(), img, eventListLength);
      AcquireWriteEventList(|img|);
      AppendToWriteList(img);
    }

    // AddEvent
    method AddEvent(id: nat)
      requires id < |eventBuffers| && eventBuffers[id].inUse
      requires Valid()
      modifies this`readPosition, this`writePosition, this`readList, this`writeList, eventBuffers[id]
      modifies eventLists, set i | 0 <= i < |eventLists| :: eventLists[i].data
      ensures Pending() == WriteEvent(old(Pending()), old(eventBuffers[id].Image()), eventListLength)
      ensures old(eventBuffers[id].bufferUsed) <= old(writeList.spaceRemaining) ==>
        readPosition == old(readPosition) && writePosition == old(writePosition) && writeList == old(writeList)
        && Contents() == old(Contents())[writePosition := old(writeList.images) + [old(eventBuffers[id].Image())]]
        && var q := old(Pending()); Pending() == q[..|q| - 1] + [q[|q| - 1] + [old(eventBuffers[id].Image())]]
      ensures old(eventBuffers[id].bufferUsed) > old(writeList.spaceRemaining) ==>
        writePosition == (old(writePosition) + 1) % NUM_EVENT_LISTS && writeList.images == [old(eventBuffers[id].Image())]
      ensures Valid() && !old(eventBuffers[id]).inUse
    {
      hide EventList.Valid, EventBuffer.Valid, Pending;
      var buffer := eventBuffers[id];
      buffer.ImageOfEvent();
      assert |buffer.Image()| == buffer.bufferUsed;
      WriteImage(buffer.buffer[..buffer.bufferUsed]);
      buffer.Reset(true);
    }

    /**
     HandleGetEventRingListListIoctl for a large enough output buffer: what a reader gets. The bytes
     delivered decode to exactly the events of the oldest pending list, in order.
     */
    method ReadEventList() returns (head: nat, bytes: seq<Byte>, ghost images: seq<Image>)
      requires Valid()
      modifies this`readPosition, this`writePosition, this`readList, this`writeList
      modifies eventLists, set i | 0 <= i < |eventLists| :: eventLists[i].data
      ensures Valid() && images == old(Pending())[0]
      ensures Pending() == ReadList(old(Pending()))
      ensures forall events :: AreEvents(images, events) ==> EventChain(bytes, EVENT_LIST_SIZE, head, events)
    {
      hide EventList.Valid, EventBuffer.Valid, AreEvents, EventChain, ReadList, Pending;
      var list := AcquireReadEventList();
      images := list.images;
      head, bytes := list.CopyOut();
    }

    /** What CreateEventBuffers(number) brings the pool of `size` to, with memory for so many more buffers. */
    function Grown(size: nat, number: nat, memory: nat): nat
    {
      if size < number <= MAX_EVENT_BUFFERS then (if number <= size + memory then number else size + memory) else size
    }

    // CreateEventBuffers; the first allocation that fails ends the loop
    method CreateEventBuffers(number: nat, memory: nat)
      requires Valid()
      modifies this`eventBuffers, this`numEventBuffers
      ensures Valid() && old(eventBuffers) <= eventBuffers
      ensures number <= |old(eventBuffers)| || number > MAX_EVENT_BUFFERS ==> eventBuffers == old(eventBuffers)
      ensures |old(eventBuffers)| < number <= MAX_EVENT_BUFFERS ==>
        |eventBuffers| == if number <= |old(eventBuffers)| + memory then number else |old(eventBuffers)| + memory
      ensures forall i :: |old(eventBuffers)| <= i < |eventBuffers| ==>
        fresh(eventBuffers[i]) && fresh(eventBuffers[i].buffer) && eventBuffers[i].NeverUsed()
    {
      hide EventList.Valid, EventBuffer.Valid, EventBuffer.NeverUsed;
      if number > MAX_EVENT_BUFFERS {
        return;
      }
      var before := numEventBuffers;
      for i := 0 to number
        invariant Valid() && old(eventBuffers) <= eventBuffers
        invariant i <= number && |eventBuffers| == Grown(|old(eventBuffers)|, i, memory)
        invariant forall k :: |old(eventBuffers)| <= k < |eventBuffers| ==>
          fresh(eventBuffers[k]) && fresh(eventBuffers[k].buffer) && eventBuffers[k].NeverUsed()
      {
        if i >= |eventBuffers| {
          if numEventBuffers - before == memory {
            break;
          }
          var b := new EventBuffer(eventBufferLength, numEventBuffers);
          eventBuffers := eventBuffers + [b];
          numEventBuffers := numEventBuffers + 1;
        }
      }
    }

    /** The first buffer not in use, as CreateEvent's inner loop finds it. */
    method FindFree() returns (id: int)
      requires Valid()
      ensures -1 <= id < |eventBuffers|
      ensures id >= 0 ==> !eventBuffers[id].inUse
      ensures forall i :: 0 <= i < (if id >= 0 then id else |eventBuffers|) ==> eventBuffers[i].inUse
    {
      hide EventList.Valid, EventBuffer.Valid;
      for i := 0 to numEventBuffers
        invariant forall k :: 0 <= k < i ==> eventBuffers[k].inUse
      {
        if !eventBuffers[i].inUse {
          return i;
        }
      }
      return -1;
    }

    /**
     CreateEvent up to the buffer found. While all buffers are in use the pool is doubled; where it cannot
     grow, the source goes on scanning until a buffer is freed elsewhere, and this method returns -1.
     */
    method FindOrGrow(memory: nat) returns (id: int)
      requires Valid()
      modifies this`eventBuffers, this`numEventBuffers
      ensures Valid() && old(eventBuffers) <= eventBuffers && -1 <= id < |eventBuffers|
      ensures id >= 0 ==> !eventBuffers[id].inUse && forall i :: 0 <= i < id && i < |old(eventBuffers)| ==> old(eventBuffers[i].inUse)
      ensures 0 <= id < |old(eventBuffers)| || id < 0 ==> eventBuffers == old(eventBuffers)
      ensures id >= |old(eventBuffers)| ==>
        id == |old(eventBuffers)| && |eventBuffers| == if memory < id then id + memory else 2 * id
      ensures id >= |old(eventBuffers)| ==>
        fresh(eventBuffers[id]) && fresh(eventBuffers[id].buffer) && eventBuffers[id].NeverUsed()
      ensures id < 0 <==> (forall b :: b in old(eventBuffers) ==> old(b.inUse)) && (memory == 0 || 2 * |old(eventBuffers)| > MAX_EVENT_BUFFERS)
    {
      hide EventList.Valid, EventBuffer.Valid;
      id := FindFree();
      while id < 0
        invariant Valid() && old(eventBuffers) <= eventBuffers && -1 <= id < |eventBuffers|
        invariant id >= 0 ==> !eventBuffers[id].inUse
        invariant forall i :: |old(eventBuffers)| <= i < |eventBuffers| ==>
          fresh(eventBuffers[i]) && fresh(eventBuffers[i].buffer) && eventBuffers[i].NeverUsed()
        invariant forall i :: 0 <= i < (if id < 0 then |old(eventBuffers)| else id) && i < |old(eventBuffers)| ==> old(eventBuffers[i].inUse)
        invariant if id < 0 then eventBuffers == old(eventBuffers)
                  else |eventBuffers| > |old(eventBuffers)| ==> memory > 0 && 2 * |old(eventBuffers)| <= MAX_EVENT_BUFFERS
        invariant if id < |old(eventBuffers)| then eventBuffers == old(eventBuffers)
                  else id == |old(eventBuffers)| && |eventBuffers| == if memory < id then id + memory else 2 * id
        decreases -id
      {
        var before := numEventBuffers;
        CreateEventBuffers(2 * numEventBuffers, memory);
        if numEventBuffers == before {
          return -1;
        }
        assert eventBuffers[before].NeverUsed();
        id := FindFree();
      }
    }

    /** CreateEvent, or -1 where the source goes on scanning. */
    method CreateEvent(memory: nat) returns (id: int)
      requires Valid()
      modifies this`eventBuffers, this`numEventBuffers, eventBuffers
      ensures Valid() && old(eventBuffers) <= eventBuffers && -1 <= id < |eventBuffers|
      ensures id >= 0 ==>
        var b := eventBuffers[id];
        b.inUse && b.bufferUsed == EVENT_SIZE && b.staged == []
      ensures 0 <= id < |old(eventBuffers)| || id < 0 ==> eventBuffers == old(eventBuffers)
      ensures id >= |old(eventBuffers)| ==>
        id == |old(eventBuffers)| && |eventBuffers| == if memory < id then id + memory else 2 * id
      ensures forall i :: 0 <= i < id && i < |old(eventBuffers)| ==> old(eventBuffers[i].inUse)
      ensures 0 <= id < |old(eventBuffers)| ==>
        !old(eventBuffers[id].inUse) && eventBuffers[id].began == old(eventBuffers[id].buffer[..])
      ensures id >= |old(eventBuffers)| ==>
        fresh(eventBuffers[id]) && |eventBuffers[id].began| >= EVENT_SIZE && TailData(eventBuffers[id].began) == 0
      ensures forall i :: 0 <= i < |old(eventBuffers)| && i != id ==> unchanged(eventBuffers[i])
      ensures id < 0 <==> (forall b :: b in old(eventBuffers) ==> old(b.inUse)) && (memory == 0 || 2 * |old(eventBuffers)| > MAX_EVENT_BUFFERS)
    {
      hide EventList.Valid, EventBuffer.Valid;
      id := FindOrGrow(memory);
      if id >= 0 {
        eventBuffers[id].PlaceEvent();
      }
    }
  }
}
