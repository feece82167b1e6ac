/**
 The staging buffer of one event, as bytes: what AddEventData writes into it.
 */
module EventStaging {
  import opened Basics
  import opened Words
  import opened EventImage

  const FIRST_DATA := EVENT_SIZE
  const FIRST_VALUE := EVENT_SIZE + EVENT_DATA_SIZE

  function HeadData(buf: seq<Byte>): Word
    requires |buf| >= EVENT_SIZE
  {
    Get32(buf, HEAD_DATA_OFFSET)
  }

  function TailData(buf: seq<Byte>): Word
    requires |buf| >= EVENT_SIZE
  {
    Get32(buf, TAIL_DATA_OFFSET)
  }

  /** Where a data record can start: right behind the header, or behind at least one other record. */
  predicate IsDataPosition(at: nat)
  {
    at == FIRST_DATA || at >= FIRST_VALUE
  }

  /** What every buffer satisfies, also between events: nothing ever resets the header words. */
  ghost predicate Sane(buf: seq<Byte>)
  {
    && EVENT_SIZE <= |buf| < WORD_LIMIT
    && buf[..4] == Le32(0)
    && (HeadData(buf) == 0 <==> TailData(buf) == 0)
    && (HeadData(buf) != 0 ==> HeadData(buf) == FIRST_DATA)
    && (TailData(buf) != 0 ==> IsDataPosition(TailData(buf)) && TailData(buf) + EVENT_DATA_SIZE <= |buf|)
  }

  /** The whole buffer after AddEventData has stored `f` behind the first `used` bytes. */
  function StageField(buf: seq<Byte>, used: nat, f: Field): (buf': seq<Byte>)
    requires Sane(buf) && IsDataPosition(used) && used + EVENT_DATA_SIZE + |f.value| <= |buf|
    ensures |buf'| == |buf|
  {
    var stored := Splice(buf, used, Le32(0) + FieldBody(f));
    var headed := if HeadData(buf) == 0 then Splice(stored, HEAD_DATA_OFFSET, Le32(used)) else stored;
    var linked := if TailData(buf) != 0 then Splice(headed, TailData(buf), Le32(used)) else headed;
    Splice(linked, TAIL_DATA_OFFSET, Le32(used))
  }

  /** The links and header words written once a record lies at `at`. */
  function LinkedIn(mem: seq<Byte>, at: nat): (mem': seq<Byte>)
    requires |mem| >= EVENT_SIZE && TailData(mem) + 4 <= |mem|
    ensures |mem'| == |mem|
  {
    var headed := if HeadData(mem) == 0 then Splice(mem, HEAD_DATA_OFFSET, Le32(at)) else mem;
    var linked := if TailData(mem) != 0 then Splice(headed, TailData(mem), Le32(at)) else headed;
    Splice(linked, TAIL_DATA_OFFSET, Le32(at))
  }

  lemma StageIsStoreThenLink(buf: seq<Byte>, used: nat, f: Field)
    requires Sane(buf) && IsDataPosition(used) && used + EVENT_DATA_SIZE + |f.value| <= |buf|
    ensures var stored := Splice(buf, used, Le32(0) + FieldBody(f));
      TailData(stored) == TailData(buf) && TailData(stored) + 4 <= |buf| && StageField(buf, used, f) == LinkedIn(stored, used)
  {
    SpliceKeepsWord(buf, used, Le32(0) + FieldBody(f), HEAD_DATA_OFFSET);
    SpliceKeepsWord(buf, used, Le32(0) + FieldBody(f), TAIL_DATA_OFFSET);
  }

  lemma SpliceJoin(mem: seq<Byte>, at: nat, x: seq<Byte>, y: seq<Byte>)
    requires at + |x| + |y| <= |mem|
    ensures Splice(Splice(mem, at, x), at + |x|, y) == Splice(mem, at, x + y)
  {
  }

  lemma SpliceSame(mem: seq<Byte>, at: nat, x: seq<Byte>, y: seq<Byte>)
    requires at + |x| + |y| <= |mem| && Holds(mem, at + |x|, y)
    ensures Splice(mem, at, x) == Splice(mem, at, x + y)
  {
    assert mem[at + |x|..] == y + mem[at + |x| + |y|..];
  }

  lemma SpliceSwap(mem: seq<Byte>, at: nat, x: seq<Byte>, y: seq<Byte>)
    requires at + |x| + |y| <= |mem|
    ensures Splice(Splice(mem, at + |x|, y), at, x) == Splice(mem, at, x + y)
  {
  }

  lemma HoldsOwn(mem: seq<Byte>, at: nat, length: nat)
    requires at + length <= |mem|
    ensures Holds(mem, at, mem[at..][..length])
  {
    assert mem[at..][..length] == mem[at..at + length];
  }

  lemma SpliceOver(mem: seq<Byte>, at: nat, x: seq<Byte>, inner: nat, y: seq<Byte>)
    requires at <= inner && inner + |y| <= at + |x| <= |mem|
    ensures Splice(Splice(mem, inner, y), at, x) == Splice(mem, at, x)
  {
  }

  /** The four header words of a record, written around a value already in place. */
  lemma RecordWritten(buf: seq<Byte>, at: nat, f: Field)
    requires at + EVENT_DATA_SIZE + |f.value| <= |buf| && Holds(buf, at + EVENT_DATA_SIZE, f.value)
    ensures Splice(Splice(Splice(Splice(buf, at, Le32(0)), at + DATA_KEY, Le32(f.key)), at + DATA_LENGTH, Le32(|f.value|)), at + DATA_TYPE, Le32(f.kind))
         == Splice(buf, at, Le32(0) + FieldBody(f))
  {
    hide Le32, Splice;
    var l, k, t, n := Le32(0), Le32(f.key), Le32(f.kind), Le32(|f.value|);
    SpliceJoin(buf, at, l, k);
    var keyed := Splice(buf, at, l + k);
    SpliceSwap(keyed, at + DATA_TYPE, t, n);
    SpliceJoin(buf, at, l + k, t + n);
    SpliceSame(buf, at, (l + k) + (t + n), f.value);
    assert ((l + k) + (t + n)) + f.value == l + FieldBody(f);
  }

  /** A buffer starts out with no event data iff its two data offsets are 0 at CreateEvent. */
  lemma BeginsEmpty(buf: seq<Byte>)
    requires Sane(buf)
    ensures buf[..EVENT_SIZE] == EventBytes([]) <==> HeadData(buf) == 0
  {
    assert EventBytes([]) == Le32(0) + Le32(0) + Le32(0);
    if buf[..EVENT_SIZE] == EventBytes([]) {
      assert buf[4..8] == buf[..EVENT_SIZE][4..8] == Le32(0);
      Le32RoundTrip(0, buf, 4);
    }
    if HeadData(buf) == 0 {
      assert buf[..EVENT_SIZE] == buf[..4] + [buf[4], buf[5], buf[6], buf[7]] + [buf[8], buf[9], buf[10], buf[11]];
    }
  }

  ghost predicate CanStage(buf: seq<Byte>, used: nat, f: Field)
  {
    && Sane(buf) && IsDataPosition(used) && used + EVENT_DATA_SIZE + |f.value| <= |buf|
    && (HeadData(buf) == 0 ==> used == FIRST_DATA)
  }

  lemma StageKeepsSane(buf: seq<Byte>, used: nat, f: Field)
    requires CanStage(buf, used, f)
    ensures Sane(StageField(buf, used, f))
    ensures HeadData(StageField(buf, used, f)) == FIRST_DATA && TailData(StageField(buf, used, f)) == used
  {
    var record := Le32(0) + FieldBody(f);
    var stored := Splice(buf, used, record);
    SpliceElsewhere(buf, used, record, 0, 4);
    SpliceKeepsWord(buf, used, record, HEAD_DATA_OFFSET);
    var headed := if HeadData(buf) == 0 then Splice(stored, HEAD_DATA_OFFSET, Le32(used)) else stored;
    SpliceElsewhere(stored, HEAD_DATA_OFFSET, Le32(used), 0, 4);
    SpliceWord(stored, HEAD_DATA_OFFSET, used);
    var linked := if TailData(buf) != 0 then Splice(headed, TailData(buf), Le32(used)) else headed;
    if TailData(buf) != 0 {
      SpliceElsewhere(headed, TailData(buf), Le32(used), 0, 4);
      SpliceKeepsWord(headed, TailData(buf), Le32(used), HEAD_DATA_OFFSET);
    }
    SpliceElsewhere(linked, TAIL_DATA_OFFSET, Le32(used), 0, 4);
    SpliceKeepsWord(linked, TAIL_DATA_OFFSET, Le32(used), HEAD_DATA_OFFSET);
    SpliceWord(linked, TAIL_DATA_OFFSET, used);
  }

  /** The first `used` bytes are exactly those of an event with these fields. */
  ghost predicate Staged(buf: seq<Byte>, used: nat, fields: seq<Field>)
  {
    used == |EventBytes(fields)| && Holds(buf, 0, EventBytes(fields))
  }

  lemma SplitEventBytes(buf: seq<Byte>, used: nat, fields: seq<Field>)
    requires Staged(buf, used, fields) && used < WORD_LIMIT
    ensures EVENT_SIZE <= used == EVENT_SIZE + ChainLength(Bodies(fields))
    ensures HeadData(buf) == if fields == [] then 0 else EVENT_SIZE
    ensures TailData(buf) == if fields == [] then 0 else EVENT_SIZE + LastRecord(Bodies(fields))
    ensures buf[EVENT_SIZE..used] == ChainImage(Bodies(fields), EVENT_SIZE)
  {
    hide Le32, Get32, LastRecord;
    var head := if fields == [] then 0 else EVENT_SIZE;
    var tail := if fields == [] then 0 else EVENT_SIZE + LastRecord(Bodies(fields));
    var chain := ChainImage(Bodies(fields), EVENT_SIZE);
    if fields != [] {
      LastRecordEnds(Bodies(fields));
    }
    Associative(Le32(0) + Le32(head), Le32(tail), chain);
    Associative(Le32(0), Le32(head), Le32(tail) + chain);
    SplitHolds(buf, 0, Le32(0), Le32(head) + (Le32(tail) + chain));
    SplitHolds(buf, 4, Le32(head), Le32(tail) + chain);
    SplitHolds(buf, 8, Le32(tail), chain);
    WordHeld(buf, 4, head);
    WordHeld(buf, 8, tail);
  }

  lemma JoinEventBytes(buf: seq<Byte>, link: seq<Byte>, head: seq<Byte>, tail: seq<Byte>, chain: seq<Byte>)
    requires |link| == |head| == |tail| == 4 && EVENT_SIZE <= |buf|
    requires buf[..4] == link && buf[4..8] == head && buf[8..12] == tail && Holds(buf[EVENT_SIZE..], 0, chain)
    ensures Holds(buf, 0, link + head + tail + chain)
  {
    assert buf == (buf[..4] + buf[4..8] + buf[8..12]) + buf[EVENT_SIZE..];
    assert buf[EVENT_SIZE..] == chain + buf[EVENT_SIZE..][|chain|..];
    assert buf == (link + head + tail + chain) + buf[EVENT_SIZE..][|chain|..];
  }

  lemma HeaderWrite(mem: seq<Byte>, at: nat, src: seq<Byte>)
    requires at + |src| <= EVENT_SIZE <= |mem|
    ensures Splice(mem, at, src)[EVENT_SIZE..] == mem[EVENT_SIZE..]
  {
  }

  lemma DataWrite(mem: seq<Byte>, at: nat, src: seq<Byte>)
    requires EVENT_SIZE <= at && at + |src| <= |mem|
    ensures Splice(mem, at, src)[EVENT_SIZE..] == Splice(mem[EVENT_SIZE..], at - EVENT_SIZE, src)
  {
  }

  /** The data area after StageField: the record stored, then linked from the record the header names as last. */
  lemma StageData(buf: seq<Byte>, used: nat, f: Field)
    requires CanStage(buf, used, f)
    ensures var stored := Splice(buf[EVENT_SIZE..], used - EVENT_SIZE, Le32(0) + FieldBody(f));
      StageField(buf, used, f)[EVENT_SIZE..]
      == if TailData(buf) != 0 then Splice(stored, TailData(buf) - EVENT_SIZE, Le32(used)) else stored
  {
    hide Le32, Splice;
    var stored := Splice(buf, used, Le32(0) + FieldBody(f));
    DataWrite(buf, used, Le32(0) + FieldBody(f));
    HeaderWrite(stored, HEAD_DATA_OFFSET, Le32(used));
    var headed := if HeadData(buf) == 0 then Splice(stored, HEAD_DATA_OFFSET, Le32(used)) else stored;
    var linked := if TailData(buf) != 0 then Splice(headed, TailData(buf), Le32(used)) else headed;
    if TailData(buf) != 0 {
      DataWrite(headed, TailData(buf), Le32(used));
    }
    HeaderWrite(linked, TAIL_DATA_OFFSET, Le32(used));
  }

  lemma DataOfStaged(buf: seq<Byte>, used: nat, fields: seq<Field>)
    requires Staged(buf, used, fields) && used < WORD_LIMIT
    ensures Holds(buf[EVENT_SIZE..], 0, ChainImage(Bodies(fields), EVENT_SIZE))
  {
    SplitEventBytes(buf, used, fields);
    var chain := ChainImage(Bodies(fields), EVENT_SIZE);
    assert buf[EVENT_SIZE..][..|chain|] == buf[EVENT_SIZE..used];
  }

  lemma StageChainFirst(buf: seq<Byte>, f: Field)
    requires CanStage(buf, FIRST_DATA, f) && TailData(buf) == 0
    ensures Holds(StageField(buf, FIRST_DATA, f)[EVENT_SIZE..], 0, Linked([], EVENT_SIZE) + (Le32(0) + FieldBody(f)))
  {
    StageData(buf, FIRST_DATA, f);
    StoreFirst(buf[EVENT_SIZE..], EVENT_SIZE, Le32(0) + FieldBody(f), StageField(buf, FIRST_DATA, f)[EVENT_SIZE..]);
  }

  lemma StageChainNext(buf: seq<Byte>, used: nat, bodies: seq<seq<Byte>>, f: Field)
    requires CanStage(buf, used, f) && bodies != []
    requires used == EVENT_SIZE + ChainLength(bodies) && TailData(buf) == EVENT_SIZE + LastRecord(bodies)
    requires Holds(buf[EVENT_SIZE..], 0, ChainImage(bodies, EVENT_SIZE))
    ensures Holds(StageField(buf, used, f)[EVENT_SIZE..], 0, Linked(bodies, EVENT_SIZE) + (Le32(0) + FieldBody(f)))
  {
    StageData(buf, used, f);
    LastRecordEnds(bodies);
    StoreNext(buf[EVENT_SIZE..], bodies, EVENT_SIZE, Le32(0) + FieldBody(f),
              used - EVENT_SIZE, TailData(buf) - EVENT_SIZE, used, StageField(buf, used, f)[EVENT_SIZE..]);
  }

  /** The data area after StageField, if it held the chain of `fields`. */
  lemma StageChain(buf: seq<Byte>, used: nat, fields: seq<Field>, f: Field)
    requires CanStage(buf, used, f) && Staged(buf, used, fields)
    ensures Holds(StageField(buf, used, f)[EVENT_SIZE..], 0, Linked(Bodies(fields), EVENT_SIZE) + (Le32(0) + FieldBody(f)))
  {
    SplitEventBytes(buf, used, fields);
    if fields == [] {
      assert Bodies(fields) == [];
      StageChainFirst(buf, f);
    } else {
      DataOfStaged(buf, used, fields);
      StageChainNext(buf, used, Bodies(fields), f);
    }
  }

  lemma StageSize(fields: seq<Field>, f: Field)
    ensures |EventBytes(fields + [f])| == |EventBytes(fields)| + EVENT_DATA_SIZE + |f.value|
    ensures EventBytes(fields + [f])
         == Le32(0) + Le32(FIRST_DATA) + Le32(|EventBytes(fields)|)
            + (Linked(Bodies(fields), EVENT_SIZE) + (Le32(0) + FieldBody(f)))
  {
    hide Le32, Get32;
    AppendField(fields, f);
  }

  /** AddEventData on an event that began empty: the buffer is that of the event with one more field. */
  lemma StageFieldAppends(buf: seq<Byte>, used: nat, fields: seq<Field>, f: Field)
    requires CanStage(buf, used, f) && Staged(buf, used, fields)
    ensures Staged(StageField(buf, used, f), used + EVENT_DATA_SIZE + |f.value|, fields + [f])
  {
    StageKeepsSane(buf, used, f);
    StageChain(buf, used, fields, f);
    StageSize(fields, f);
    var buf' := StageField(buf, used, f);
    WordBytes(buf', 4);
    WordBytes(buf', 8);
    JoinEventBytes(buf', Le32(0), Le32(FIRST_DATA), Le32(used),
                   Linked(Bodies(fields), EVENT_SIZE) + (Le32(0) + FieldBody(f)));
  }
}
