/**
 The bytes of a ring-list event and of a ring-list buffer (EventRingList.h, 32-bit layout),
 and, independently of how they were written, what a reader following the offsets finds.
 */
module EventImage {
  import opened Basics
  import opened Words

  // sizeof(Event), sizeof(EventData) and sizeof(EventList) of EventRingList.h
  const EVENT_SIZE := 12
  const EVENT_DATA_SIZE := 16
  const EVENT_LIST_SIZE := 36

  // Byte positions of the fields of Event and EventData
  const HEAD_DATA_OFFSET := 4
  const TAIL_DATA_OFFSET := 8
  const DATA_KEY := 4
  const DATA_TYPE := 8
  const DATA_LENGTH := 12

  /** One AddEventData call: what it was asked to store. */
  datatype Field = Field(key: Word, kind: Word, value: seq<Byte>)

  // ---------------------------------------------------------------- records linked by offsets

  function ChainLength(bodies: seq<seq<Byte>>): nat
  {
    if bodies == [] then 0 else 4 + |bodies[0]| + ChainLength(bodies[1..])
  }

  /** Records laid end to end from offset `at`, each a link to the next one and a body. */
  function Linked(bodies: seq<seq<Byte>>, at: nat): (bytes: seq<Byte>)
    ensures |bytes| == ChainLength(bodies)
  {
    if bodies == [] then []
    else (Le32(at + 4 + |bodies[0]|) + bodies[0]) + Linked(bodies[1..], at + 4 + |bodies[0]|)
  }

  lemma {:induction false} ChainLengthAppend(bodies: seq<seq<Byte>>, body: seq<Byte>)
    ensures ChainLength(bodies + [body]) == ChainLength(bodies) + 4 + |body|
  {
    if bodies == [] {
      assert bodies + [body] == [body] && [body][1..] == [];
    } else {
      assert (bodies + [body])[1..] == bodies[1..] + [body];
      ChainLengthAppend(bodies[1..], body);
    }
  }

  lemma LinkedFirst(bodies: seq<seq<Byte>>, at: nat)
    requires bodies != []
    ensures var next := at + 4 + |bodies[0]|;
      Linked(bodies, at) == (Le32(next) + bodies[0]) + Linked(bodies[1..], next)
    ensures ChainLength(bodies) == 4 + |bodies[0]| + ChainLength(bodies[1..])
  {
    hide Le32;
  }

  lemma LinkedNone(bodies: seq<seq<Byte>>, at: nat)
    requires bodies == []
    ensures Linked(bodies, at) == [] && ChainLength(bodies) == 0
  {
  }

  lemma {:induction false} LinkedAppend(bodies: seq<seq<Byte>>, at: nat, body: seq<Byte>)
    ensures Linked(bodies + [body], at) == Linked(bodies, at) + (Le32(at + ChainLength(bodies) + 4 + |body|) + body)
  {
    hide Le32, Linked, ChainLength;
    var last := Le32(at + ChainLength(bodies) + 4 + |body|) + body;
    LinkedFirst(bodies + [body], at);
    if bodies == [] {
      LinkedNone(bodies, at);
      LinkedNone((bodies + [body])[1..], at + 4 + |body|);
      assert last + [] == last == [] + last;
    } else {
      var next := at + 4 + |bodies[0]|;
      assert (bodies + [body])[1..] == bodies[1..] + [body];
      LinkedFirst(bodies, at);
      LinkedAppend(bodies[1..], next, body);
      Associative(Le32(next) + bodies[0], Linked(bodies[1..], next), last);
    }
  }

  /** Where the last record of a chain starts. */
  function LastRecord(bodies: seq<seq<Byte>>): nat
    requires bodies != []
  {
    ChainLength(bodies[..|bodies| - 1])
  }

  lemma LastRecordEnds(bodies: seq<seq<Byte>>)
    requires bodies != []
    ensures LastRecord(bodies) + 4 + |bodies[|bodies| - 1]| == ChainLength(bodies)
  {
    var n := |bodies| - 1;
    assert bodies[..n] + [bodies[n]] == bodies;
    ChainLengthAppend(bodies[..n], bodies[n]);
  }

  /** A whole chain: the last record's link is 0. */
  function ChainImage(bodies: seq<seq<Byte>>, at: nat): (bytes: seq<Byte>)
    ensures |bytes| == ChainLength(bodies)
  {
    if bodies == [] then []
    else
      LastRecordEnds(bodies);
      Linked(bodies[..|bodies| - 1], at) + (Le32(0) + bodies[|bodies| - 1])
  }

  /** Writing into the last record the offset just behind the chain links all records onward. */
  lemma LinkOnward(bodies: seq<seq<Byte>>, at: nat)
    requires bodies != []
    ensures LastRecord(bodies) + 4 <= ChainLength(bodies)
    ensures Splice(ChainImage(bodies, at), LastRecord(bodies), Le32(at + ChainLength(bodies))) == Linked(bodies, at)
  {
    hide Le32, Splice, Linked, ChainLength, ChainImage, LastRecord;
    var n := |bodies| - 1;
    var front, last := Linked(bodies[..n], at), bodies[n];
    LastOfChain(bodies, at);
    Relink(front, Le32(0), Le32(at + ChainLength(bodies)), last);
  }

  lemma LastOfChain(bodies: seq<seq<Byte>>, at: nat)
    requires bodies != []
    ensures var front, last := Linked(bodies[..|bodies| - 1], at), bodies[|bodies| - 1];
      && |front| == LastRecord(bodies)
      && LastRecord(bodies) + 4 <= ChainLength(bodies)
      && ChainImage(bodies, at) == front + (Le32(0) + last)
      && Linked(bodies, at) == front + (Le32(at + ChainLength(bodies)) + last)
  {
    hide Le32, Linked, ChainLength;
    var n := |bodies| - 1;
    LastRecordEnds(bodies);
    assert bodies[..n] + [bodies[n]] == bodies;
    LinkedAppend(bodies[..n], at, bodies[n]);
    assert at + ChainLength(bodies) == at + ChainLength(bodies[..n]) + 4 + |bodies[n]|;
  }

  lemma Relink(front: seq<Byte>, link: seq<Byte>, link': seq<Byte>, body: seq<Byte>)
    requires |link| == |link'|
    ensures Splice(front + (link + body), |front|, link') == front + (link' + body)
  {
  }

  /** A chain with one more record: all earlier records linked onward, and the new one at the end. */
  lemma AppendRecord(bodies: seq<seq<Byte>>, at: nat, body: seq<Byte>)
    ensures LastRecord(bodies + [body]) == ChainLength(bodies)
    ensures ChainImage(bodies + [body], at) == Linked(bodies, at) + (Le32(0) + body)
  {
    assert (bodies + [body])[..|bodies|] == bodies;
  }

  lemma ChainImageOne(bodies: seq<seq<Byte>>, at: nat)
    requires |bodies| == 1
    ensures ChainImage(bodies, at) == Le32(0) + bodies[0]
  {
    hide Le32;
    assert bodies[..0] == [];
    assert [] + (Le32(0) + bodies[0]) == Le32(0) + bodies[0];
  }

  /** A chain of several records: the first one linked to the chain of the others. */
  lemma ChainImageMany(bodies: seq<seq<Byte>>, at: nat)
    requires |bodies| > 1
    ensures var next := at + 4 + |bodies[0]|;
      ChainImage(bodies, at) == (Le32(next) + bodies[0]) + ChainImage(bodies[1..], next)
  {
    hide Le32, ChainLength, LastRecord, ChainImage, Linked;
    var n := |bodies| - 1;
    var next, rest := at + 4 + |bodies[0]|, bodies[1..];
    LastOfChain(bodies, at);
    LastOfChain(rest, next);
    LinkedFirst(bodies[..n], at);
    assert bodies[..n][1..] == rest[..n - 1] && rest[n - 1] == bodies[n];
    Associative(Le32(next) + bodies[0], Linked(rest[..n - 1], next), Le32(0) + bodies[n]);
  }

  /** Memory holding a chain holds its first record and, right behind it, the chain of the others. */
  lemma SplitChain(mem: seq<Byte>, pos: nat, bodies: seq<seq<Byte>>, at: nat)
    requires bodies != [] && Holds(mem, pos, ChainImage(bodies, at))
    ensures var next := at + 4 + |bodies[0]|;
      && Holds(mem, pos, Le32(if |bodies| == 1 then 0 else next) + bodies[0])
      && Holds(mem, pos + 4 + |bodies[0]|, ChainImage(bodies[1..], next))
  {
    hide Le32, ChainImage, ChainLength, Holds;
    var next := at + 4 + |bodies[0]|;
    if |bodies| == 1 {
      ChainImageOne(bodies, at);
      NothingHeld(mem, pos, Le32(0) + bodies[0], bodies[1..], next);
    } else {
      ChainImageMany(bodies, at);
      SplitHolds(mem, pos, Le32(next) + bodies[0], ChainImage(bodies[1..], next));
    }
  }

  lemma NothingHeld(mem: seq<Byte>, pos: nat, first: seq<Byte>, none: seq<seq<Byte>>, at: nat)
    requires Holds(mem, pos, first) && none == []
    ensures Holds(mem, pos + |first|, ChainImage(none, at))
  {
  }

  lemma StorePrefix(mem: seq<Byte>, n: nat, src: seq<Byte>)
    requires n + |src| <= |mem|
    ensures Splice(mem, n, src)[..n + |src|] == mem[..n] + src
  {
  }

  lemma LinkPrefix(mem: seq<Byte>, at: nat, src: seq<Byte>, first: seq<Byte>, rest: seq<Byte>)
    requires at + |src| <= |first| && Holds(mem, 0, first + rest)
    ensures Splice(mem, at, src)[..|first| + |rest|] == Splice(first, at, src) + rest
  {
    var n := |first| + |rest|;
    assert mem == (first + rest) + mem[n..];
    assert Splice(mem, at, src) == (Splice(first, at, src) + rest) + mem[n..];
  }

  lemma StoreAndLink(mem: seq<Byte>, chain: seq<Byte>, record: seq<Byte>, at: nat, link: seq<Byte>, linked: seq<Byte>, mem': seq<Byte>)
    requires Holds(mem, 0, chain) && |chain| + |record| <= |mem| && at + |link| <= |chain|
    requires linked == Splice(chain, at, link)
    requires mem' == Splice(Splice(mem, |chain|, record), at, link)
    ensures Holds(mem', 0, linked + record)
  {
    StorePrefix(mem, |chain|, record);
    LinkPrefix(Splice(mem, |chain|, record), at, link, chain, record);
  }

  /** The first record of a chain: nothing to link from. */
  lemma StoreFirst(mem: seq<Byte>, at: nat, record: seq<Byte>, mem': seq<Byte>)
    requires |record| <= |mem| && mem' == Splice(mem, 0, record)
    ensures Holds(mem', 0, Linked([], at) + record)
  {
    assert mem' == record + mem[|record|..];
    assert Linked([], at) + record == record;
  }

  /** A further record: stored behind the chain, then linked from the chain's last record. */
  lemma StoreNext(mem: seq<Byte>, bodies: seq<seq<Byte>>, at: nat, record: seq<Byte>, end: nat, last: nat, link: nat, mem': seq<Byte>)
    requires bodies != [] && end == ChainLength(bodies) && last == LastRecord(bodies) && link == at + end
    requires Holds(mem, 0, ChainImage(bodies, at)) && end + |record| <= |mem| && last + 4 <= end
    requires mem' == Splice(Splice(mem, end, record), last, Le32(link))
    ensures Holds(mem', 0, Linked(bodies, at) + record)
  {
    hide Le32, Splice, Linked, ChainImage, ChainLength, LastRecord;
    LinkOnward(bodies, at);
    StoreAndLink(mem, ChainImage(bodies, at), record, last, Le32(link), Linked(bodies, at), mem');
  }

  // ---------------------------------------------------------------- one event

  function FieldBody(f: Field): (body: seq<Byte>)
    ensures |body| == EVENT_DATA_SIZE - 4 + |f.value|
  {
    Le32(f.key) + (Le32(f.kind) + (Le32(|f.value|) + f.value))
  }

  function Bodies(fields: seq<Field>): (bodies: seq<seq<Byte>>)
    ensures |bodies| == |fields|
  {
    seq(|fields|, i requires 0 <= i < |fields| => FieldBody(fields[i]))
  }

  /** The bytes of an event holding `fields`; its offsets count from the event itself. */
  function EventBytes(fields: seq<Field>): (bytes: seq<Byte>)
    ensures |bytes| == EVENT_SIZE + ChainLength(Bodies(fields))
  {
    Le32(0)
    + Le32(if fields == [] then 0 else EVENT_SIZE)
    + Le32(if fields == [] then 0 else EVENT_SIZE + LastRecord(Bodies(fields)))
    + ChainImage(Bodies(fields), EVENT_SIZE)
  }

  /** Reader: the EventData at `offset` of the event `ev` lies inside it and says `f`. */
  ghost predicate FieldAt(ev: seq<Byte>, offset: nat, f: Field)
  {
    && offset + EVENT_DATA_SIZE <= |ev|
    && var length := Get32(ev, offset + DATA_LENGTH);
    && offset + EVENT_DATA_SIZE + length <= |ev|
    && f.key == Get32(ev, offset + DATA_KEY)
    && f.kind == Get32(ev, offset + DATA_TYPE)
    && f.value == ev[offset + EVENT_DATA_SIZE..offset + EVENT_DATA_SIZE + length]
  }

  /** Reader: following next_offset from `offset` within the event `ev` yields exactly `fields` and ends at 0. */
  ghost predicate DataChain(ev: seq<Byte>, offset: nat, fields: seq<Field>)
    decreases |fields|
  {
    if offset == 0 then fields == []
    else fields != [] && FieldAt(ev, offset, fields[0]) && DataChain(ev, Get32(ev, offset), fields[1..])
  }

  /** Reader: the event at the start of `ev` carries exactly `fields`. */
  ghost predicate Carries(ev: seq<Byte>, fields: seq<Field>)
  {
    |ev| >= EVENT_SIZE && DataChain(ev, Get32(ev, HEAD_DATA_OFFSET), fields)
  }

  /** A chain of data is read in one way only. */
  lemma {:induction false} DataChainUnique(ev: seq<Byte>, offset: nat, f: seq<Field>, g: seq<Field>)
    requires DataChain(ev, offset, f) && DataChain(ev, offset, g)
    ensures f == g
    decreases |f|
  {
    if offset != 0 {
      DataChainUnique(ev, Get32(ev, offset), f[1..], g[1..]);
      assert f == [f[0]] + f[1..] && g == [g[0]] + g[1..];
    }
  }

  lemma ReadField(ev: seq<Byte>, at: nat, link: Word, f: Field)
    requires |f.value| < WORD_LIMIT && Holds(ev, at, Le32(link) + FieldBody(f))
    ensures FieldAt(ev, at, f) && Get32(ev, at) == link
  {
    var length := Le32(|f.value|) + f.value;
    SplitHolds(ev, at, Le32(link), FieldBody(f));
    SplitHolds(ev, at + 4, Le32(f.key), Le32(f.kind) + length);
    SplitHolds(ev, at + 8, Le32(f.kind), length);
    SplitHolds(ev, at + 12, Le32(|f.value|), f.value);
    WordHeld(ev, at, link);
    WordHeld(ev, at + 4, f.key);
    WordHeld(ev, at + 8, f.kind);
    WordHeld(ev, at + 12, |f.value|);
  }

  lemma HeldWithin(mem: seq<Byte>, at: nat, bytes: seq<Byte>)
    requires Holds(mem, at, bytes)
    ensures at + |bytes| <= |mem|
  {
  }

  lemma BodiesSplit(fields: seq<Field>)
    requires fields != []
    ensures Bodies(fields)[0] == FieldBody(fields[0]) && Bodies(fields)[1..] == Bodies(fields[1..])
  {
    hide FieldBody;
  }

  lemma DataChainStep(ev: seq<Byte>, offset: nat, fields: seq<Field>)
    requires offset != 0 && fields != [] && FieldAt(ev, offset, fields[0]) && DataChain(ev, Get32(ev, offset), fields[1..])
    ensures DataChain(ev, offset, fields)
  {
    hide FieldAt, Get32;
  }

  /** The data chain of `fields` is read back wherever its bytes lie in an event. */
  lemma {:induction false} ReadDataChain(ev: seq<Byte>, at: nat, fields: seq<Field>)
    requires 0 < at && |ev| < WORD_LIMIT && Holds(ev, at, ChainImage(Bodies(fields), at))
    ensures DataChain(ev, if fields == [] then 0 else at, fields)
    decreases |fields|
  {
    hide FieldAt, Le32, Get32, ChainImage, ChainLength, Holds, Bodies, FieldBody;
    if fields != [] {
      BodiesSplit(fields);
      SplitChain(ev, at, Bodies(fields), at);
      var next := at + EVENT_DATA_SIZE + |fields[0].value|;
      var link := if |fields| == 1 then 0 else next;
      HeldWithin(ev, next, ChainImage(Bodies(fields)[1..], next));
      ReadField(ev, at, link, fields[0]);
      ReadDataChain(ev, next, fields[1..]);
      DataChainStep(ev, at, fields);
    }
  }

  /**
   What relocation must preserve: wherever these bytes are copied, whatever list link is put in
   front of them and whatever follows, a reader finds exactly `fields`.
   */
  ghost predicate CarriesAnywhere(tail: seq<Byte>, fields: seq<Field>)
  {
    forall ev: seq<Byte> {:trigger Holds(ev, 4, tail)} :: |ev| < WORD_LIMIT && Holds(ev, 4, tail) ==> Carries(ev, fields)
  }

  /** The bytes of a staged event keep their meaning when the event is copied into a list. */
  lemma EventCarriesAnywhere(fields: seq<Field>)
    ensures CarriesAnywhere(EventBytes(fields)[4..], fields)
  {
    forall ev: seq<Byte> | |ev| < WORD_LIMIT && Holds(ev, 4, EventBytes(fields)[4..])
      ensures Carries(ev, fields)
    {
      RelocatedEventCarries(fields, ev);
    }
  }

  lemma RelocatedEventCarries(fields: seq<Field>, ev: seq<Byte>)
    requires |ev| < WORD_LIMIT && Holds(ev, 4, EventBytes(fields)[4..])
    ensures Carries(ev, fields)
  {
    hide Le32, Get32, DataChain, ChainImage, LastRecord, Bodies;
    var head := if fields == [] then 0 else EVENT_SIZE;
    var tail := if fields == [] then 0 else EVENT_SIZE + LastRecord(Bodies(fields));
    var chain := ChainImage(Bodies(fields), EVENT_SIZE);
    assert EventBytes(fields)[4..] == Le32(head) + (Le32(tail) + chain);
    SplitHolds(ev, 4, Le32(head), Le32(tail) + chain);
    SplitHolds(ev, 8, Le32(tail), chain);
    WordHeld(ev, HEAD_DATA_OFFSET, head);
    ReadDataChain(ev, EVENT_SIZE, fields);
  }

  // ---------------------------------------------------------------- one list of events

  /** An event image, as it is copied into a list: a header whose list link is still 0, then its data. */
  ghost predicate IsImage(img: seq<Byte>)
  {
    |img| >= EVENT_SIZE && img[..4] == Le32(0)
  }

  function Tails(images: seq<seq<Byte>>): (tails: seq<seq<Byte>>)
    requires forall i :: 0 <= i < |images| ==> IsImage(images[i])
    ensures |tails| == |images|
    ensures forall i :: 0 <= i < |images| ==> IsImage(images[i]) && tails[i] == images[i][4..]
  {
    seq(|images|, i requires 0 <= i < |images| => (assert IsImage(images[i]); images[i][4..]))
  }

  function TotalLength(images: seq<seq<Byte>>): nat
  {
    if images == [] then 0 else |images[0]| + TotalLength(images[1..])
  }

  lemma TotalLengthEmpty()
    ensures TotalLength([]) == 0
  {
  }

  lemma {:induction false} TotalLengthAppend(images: seq<seq<Byte>>, img: seq<Byte>)
    ensures TotalLength(images + [img]) == TotalLength(images) + |img|
  {
    if images == [] {
      assert (images + [img])[1..] == [];
    } else {
      assert (images + [img])[1..] == images[1..] + [img];
      TotalLengthAppend(images[1..], img);
    }
  }

  lemma {:induction false} ChainLengthOfTails(images: seq<seq<Byte>>)
    requires forall i :: 0 <= i < |images| ==> IsImage(images[i])
    ensures ChainLength(Tails(images)) == TotalLength(images)
  {
    if images != [] {
      assert Tails(images)[1..] == Tails(images[1..]);
      ChainLengthOfTails(images[1..]);
    }
  }

  /** The used bytes of a list holding `images`; list offsets count from the EventList struct. */
  function ListBytes(images: seq<seq<Byte>>): seq<Byte>
    requires forall i :: 0 <= i < |images| ==> IsImage(images[i])
  {
    ChainImage(Tails(images), EVENT_LIST_SIZE)
  }

  /** head_event_offset and tail_event_offset of a list holding `images`. */
  function HeadEvent(images: seq<seq<Byte>>): nat
  {
    if images == [] then 0 else EVENT_LIST_SIZE
  }

  function TailEvent(images: seq<seq<Byte>>): nat
    requires forall i :: 0 <= i < |images| ==> IsImage(images[i])
  {
    if images == [] then 0 else EVENT_LIST_SIZE + LastRecord(Tails(images))
  }

  /** Reader: the event at `offset` of a list whose first data byte has offset `base` carries `fields`. */
  ghost predicate EventAt(mem: seq<Byte>, base: nat, offset: nat, fields: seq<Field>)
  {
    base <= offset && offset - base + EVENT_SIZE <= |mem| && Carries(mem[offset - base..], fields)
  }

  /**
   Reader of a delivered list: following the event offsets visits exactly one event for each
   element of `events`, in order, each carrying exactly those fields, and then reaches 0.
   */
  ghost predicate EventChain(mem: seq<Byte>, base: nat, offset: nat, events: seq<seq<Field>>)
    decreases |events|
  {
    if offset == 0 then events == []
    else
      && events != []
      && EventAt(mem, base, offset, events[0])
      && EventChain(mem, base, Get32(mem, offset - base), events[1..])
  }

  lemma {:induction false} EventChainUnique(mem: seq<Byte>, base: nat, offset: nat, e: seq<seq<Field>>, g: seq<seq<Field>>)
    requires EventChain(mem, base, offset, e) && EventChain(mem, base, offset, g)
    ensures e == g
    decreases |e|
  {
    if offset != 0 {
      var ev := mem[offset - base..];
      DataChainUnique(ev, Get32(ev, HEAD_DATA_OFFSET), e[0], g[0]);
      EventChainUnique(mem, base, Get32(mem, offset - base), e[1..], g[1..]);
      assert e == [e[0]] + e[1..] && g == [g[0]] + g[1..];
    }
  }

  lemma ReadEvent(mem: seq<Byte>, base: nat, pos: nat, link: Word, tail: seq<Byte>, fields: seq<Field>)
    requires |tail| + 4 >= EVENT_SIZE && CarriesAnywhere(tail, fields)
    requires |mem| < WORD_LIMIT && Holds(mem, pos, Le32(link) + tail)
    ensures EventAt(mem, base, base + pos, fields) && Get32(mem, pos) == link
  {
    SplitHolds(mem, pos, Le32(link), tail);
    WordHeld(mem, pos, link);
    assert Holds(mem[pos..], 4, tail) by {
      assert mem[pos..][4..4 + |tail|] == mem[pos + 4..pos + 4 + |tail|];
    }
  }

  ghost predicate AreTails(tails: seq<seq<Byte>>, events: seq<seq<Field>>)
    decreases |tails|
  {
    if tails == [] || events == [] then tails == [] && events == []
    else |tails[0]| + 4 >= EVENT_SIZE && CarriesAnywhere(tails[0], events[0]) && AreTails(tails[1..], events[1..])
  }

  lemma EventChainStep(mem: seq<Byte>, base: nat, offset: nat, events: seq<seq<Field>>)
    requires offset != 0 && events != [] && EventAt(mem, base, offset, events[0])
    requires EventChain(mem, base, Get32(mem, offset - base), events[1..])
    ensures EventChain(mem, base, offset, events)
  {
  }

  /** The bytes of a list are read back as exactly the events put into it, in order. */
  lemma {:induction false} ReadEventChain(mem: seq<Byte>, base: nat, pos: nat, tails: seq<seq<Byte>>, events: seq<seq<Field>>)
    requires AreTails(tails, events)
    requires 0 < base && base + |mem| < WORD_LIMIT && Holds(mem, pos, ChainImage(tails, base + pos))
    ensures EventChain(mem, base, if events == [] then 0 else base + pos, events)
    decreases |events|
  {
    hide CarriesAnywhere, EventAt, ChainImage, Le32, Get32;
    if events != [] {
      SplitChain(mem, pos, tails, base + pos);
      var next := pos + 4 + |tails[0]|;
      ReadEvent(mem, base, pos, if |tails| == 1 then 0 else base + next, tails[0], events[0]);
      ReadEventChain(mem, base, next, tails[1..], events[1..]);
      EventChainStep(mem, base, base + pos, events);
    }
  }

  lemma ImageSplit(img: seq<Byte>)
    requires IsImage(img)
    ensures img == Le32(0) + img[4..]
  {
  }

  lemma TailsAppend(images: seq<seq<Byte>>, img: seq<Byte>)
    requires forall i :: 0 <= i < |images| ==> IsImage(images[i])
    requires IsImage(img)
    ensures Tails(images + [img]) == Tails(images) + [img[4..]]
  {
  }

  /** The bytes of a list holding one more image, from the bytes before. */
  lemma AppendImage(images: seq<seq<Byte>>, img: seq<Byte>)
    requires forall i :: 0 <= i < |images| ==> IsImage(images[i])
    requires IsImage(img)
    ensures |ListBytes(images)| == TotalLength(images)
    ensures TailEvent(images + [img]) == EVENT_LIST_SIZE + TotalLength(images)
    ensures ListBytes(images + [img]) == Linked(Tails(images), EVENT_LIST_SIZE) + img
  {
    ChainLengthOfTails(images);
    TailsAppend(images, img);
    AppendRecord(Tails(images), EVENT_LIST_SIZE, img[4..]);
    ImageSplit(img);
  }

  lemma BodiesAppend(fields: seq<Field>, f: Field)
    ensures Bodies(fields + [f]) == Bodies(fields) + [FieldBody(f)]
  {
  }

  /** The bytes of an event holding one more field, from the bytes before. */
  lemma AppendField(fields: seq<Field>, f: Field)
    ensures |EventBytes(fields + [f])| == |EventBytes(fields)| + EVENT_DATA_SIZE + |f.value|
    ensures LastRecord(Bodies(fields + [f])) == ChainLength(Bodies(fields))
    ensures ChainImage(Bodies(fields + [f]), EVENT_SIZE)
         == Linked(Bodies(fields), EVENT_SIZE) + (Le32(0) + FieldBody(f))
  {
    BodiesAppend(fields, f);
    ChainLengthAppend(Bodies(fields), FieldBody(f));
    AppendRecord(Bodies(fields), EVENT_SIZE, FieldBody(f));
  }

  /** The images a list was given carry these events. */
  ghost predicate AreEvents(images: seq<seq<Byte>>, events: seq<seq<Field>>)
  {
    |images| == |events| && forall i :: 0 <= i < |images| ==> IsImage(images[i]) && CarriesAnywhere(images[i][4..], events[i])
  }

  lemma {:induction false} TailsCarry(images: seq<seq<Byte>>, events: seq<seq<Field>>)
    requires AreEvents(images, events)
    ensures AreTails(Tails(images), events)
  {
    if images != [] {
      assert Tails(images)[1..] == Tails(images[1..]);
      TailsCarry(images[1..], events[1..]);
    }
  }

  /** The reader of a list buffer finds exactly the events whose images the list holds. */
  lemma ReadListBytes(images: seq<seq<Byte>>, events: seq<seq<Field>>, mem: seq<Byte>)
    requires AreEvents(images, events)
    requires EVENT_LIST_SIZE + |mem| < WORD_LIMIT && Holds(mem, 0, ListBytes(images))
    ensures EventChain(mem, EVENT_LIST_SIZE, HeadEvent(images), events)
  {
    TailsCarry(images, events);
    ReadEventChain(mem, EVENT_LIST_SIZE, 0, Tails(images), events);
  }
}
