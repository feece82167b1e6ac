/**
 A staging buffer used again: nothing clears its header between events, so the first AddEventData
 of the next event still writes into the record the header names as last. This module says, for
 any list of fields, exactly when the event comes out right all the same.
 */
module EventReuse {
  import opened Words
  import opened EventImage
  import opened EventStaging

  /** The bytes an event with these fields takes up. */
  function EventSize(fields: seq<Field>): (size: nat)
    ensures if fields == [] then size == FIRST_DATA else size >= FIRST_VALUE
  {
    if fields == [] then FIRST_DATA
    else EventSize(fields[..|fields| - 1]) + EVENT_DATA_SIZE + |fields[|fields| - 1].value|
  }

  lemma {:induction false} EventSizeIsLength(fields: seq<Field>)
    ensures EventSize(fields) == |EventBytes(fields)|
  {
    if fields != [] {
      var n := |fields| - 1;
      assert fields == fields[..n] + [fields[n]];
      EventSizeIsLength(fields[..n]);
      AppendField(fields[..n], fields[n]);
    }
  }

  lemma {:induction false} EventSizePrefix(fields: seq<Field>, k: nat)
    requires k <= |fields|
    ensures EventSize(fields[..k]) <= EventSize(fields)
  {
    if k == |fields| {
      assert fields[..k] == fields;
    } else {
      var front := fields[..|fields| - 1];
      assert front[..k] == fields[..k];
      EventSizePrefix(front, k);
    }
  }

  /** The buffer after CreateEvent and one AddEventData for each field, `buf` being what it held before. */
  function StageAll(buf: seq<Byte>, fields: seq<Field>): (buf': seq<Byte>)
    requires Sane(buf) && EventSize(fields) <= |buf|
    ensures |buf'| == |buf| && Sane(buf')
    ensures fields == [] ==> buf' == buf
    ensures fields != [] ==> HeadData(buf') == FIRST_DATA && TailData(buf') == EventSize(fields[..|fields| - 1])
  {
    if fields == [] then buf
    else
      var front, f := fields[..|fields| - 1], fields[|fields| - 1];
      var before := StageAll(buf, front);
      StageKeepsSane(before, EventSize(front), f);
      StageField(before, EventSize(front), f)
  }

  lemma StageAllAppend(buf: seq<Byte>, fields: seq<Field>, f: Field)
    requires Sane(buf) && EventSize(fields) + EVENT_DATA_SIZE + |f.value| <= |buf|
    ensures EventSize(fields + [f]) == EventSize(fields) + EVENT_DATA_SIZE + |f.value|
    ensures CanStage(StageAll(buf, fields), EventSize(fields), f)
    ensures StageAll(buf, fields + [f]) == StageField(StageAll(buf, fields), EventSize(fields), f)
  {
    hide StageField, Sane;
    assert (fields + [f])[..|fields|] == fields;
  }

  // ---------------------------------------------------------------- the condition

  /**
   When the bytes 12, 0, 0, 0 that the first AddEventData writes at the stale offset do no harm: the
   offset lies beyond the new record's value, or the value has these bytes there anyway.
   */
  ghost predicate ValueSurvives(stale: nat, value: seq<Byte>)
  {
    forall k :: stale <= FIRST_VALUE + k < stale + 4 && 0 <= k < |value| ==> value[k] == Le32(FIRST_DATA)[FIRST_VALUE + k - stale]
  }

  /**
   Whether an event with these fields comes out right where the header's tail_data_offset was
   `stale` at CreateEvent. A stale offset of 12 makes the first record link to itself, which the
   second AddEventData repairs.
   */
  ghost predicate ComesOutRight(stale: nat, fields: seq<Field>)
  {
    stale == 0
    || (fields != [] && if stale == FIRST_DATA then |fields| >= 2 else ValueSurvives(stale, fields[0].value))
  }

  // ---------------------------------------------------------------- the first call

  lemma SpliceOverValue(mem: seq<Byte>, lo: nat, value: seq<Byte>, at: nat, src: seq<Byte>)
    requires Holds(mem, lo, value) && lo <= at && at + |src| <= |mem|
    ensures Holds(Splice(mem, at, src), lo, value)
      <==> forall k :: at <= lo + k < at + |src| && 0 <= k < |value| ==> value[k] == src[lo + k - at]
  {
    var mem' := Splice(mem, at, src);
    var old', new' := mem[lo..lo + |value|], mem'[lo..lo + |value|];
    forall k | 0 <= k < |value|
      ensures new'[k] == if at <= lo + k < at + |src| then src[lo + k - at] else value[k]
    {
      assert old'[k] == mem[lo + k] && new'[k] == mem'[lo + k];
      if at <= lo + k < at + |src| {
        assert mem'[at..at + |src|][lo + k - at] == mem'[lo + k];
      }
    }
  }

  /** The words of the record at the start of the data area. */
  ghost predicate RecordWords(buf: seq<Byte>, link: Word, f: Field)
  {
    && FIRST_VALUE <= |buf|
    && Get32(buf, FIRST_DATA) == link
    && Get32(buf, FIRST_DATA + DATA_KEY) == f.key
    && Get32(buf, FIRST_DATA + DATA_TYPE) == f.kind
    && Get32(buf, FIRST_DATA + DATA_LENGTH) == |f.value|
  }

  lemma KeepRecordWords(buf: seq<Byte>, link: Word, f: Field, at: nat, src: seq<Byte>)
    requires RecordWords(buf, link, f) && at + |src| <= |buf| && (at + |src| <= FIRST_DATA || FIRST_VALUE <= at)
    ensures RecordWords(Splice(buf, at, src), link, f)
  {
    SpliceKeepsWord(buf, at, src, FIRST_DATA);
    SpliceKeepsWord(buf, at, src, FIRST_DATA + DATA_KEY);
    SpliceKeepsWord(buf, at, src, FIRST_DATA + DATA_TYPE);
    SpliceKeepsWord(buf, at, src, FIRST_DATA + DATA_LENGTH);
  }

  lemma StoredRecord(buf: seq<Byte>, f: Field)
    requires CanStage(buf, FIRST_DATA, f)
    ensures var stored := Splice(buf, FIRST_DATA, Le32(0) + FieldBody(f));
      RecordWords(stored, 0, f) && Holds(stored, FIRST_VALUE, f.value)
  {
    var stored := Splice(buf, FIRST_DATA, Le32(0) + FieldBody(f));
    assert Holds(stored, FIRST_DATA, Le32(0) + FieldBody(f));
    ReadField(stored, FIRST_DATA, 0, f);
  }

  /** A stale offset behind the header words: they stand, and the value may be hit. */
  lemma StaleBehind(buf: seq<Byte>, f: Field)
    requires CanStage(buf, FIRST_DATA, f) && TailData(buf) >= FIRST_VALUE
    ensures var buf' := StageField(buf, FIRST_DATA, f);
      RecordWords(buf', 0, f) && (Holds(buf', FIRST_VALUE, f.value) <==> ValueSurvives(TailData(buf), f.value))
  {
    hide Splice, Le32, Get32;
    StoredRecord(buf, f);
    var stored := Splice(buf, FIRST_DATA, Le32(0) + FieldBody(f));
    var link := Le32(FIRST_DATA);
    var linked := Splice(stored, TailData(buf), link);
    KeepRecordWords(stored, 0, f, TailData(buf), link);
    KeepRecordWords(linked, 0, f, TAIL_DATA_OFFSET, link);
    SpliceOverValue(stored, FIRST_VALUE, f.value, TailData(buf), link);
    SpliceElsewhere(linked, TAIL_DATA_OFFSET, link, FIRST_VALUE, FIRST_VALUE + |f.value|);
  }

  /** A stale offset of 12: the new record links to itself. */
  lemma StaleSelf(buf: seq<Byte>, f: Field)
    requires CanStage(buf, FIRST_DATA, f) && TailData(buf) == FIRST_DATA
    ensures Get32(StageField(buf, FIRST_DATA, f), FIRST_DATA) == FIRST_DATA
  {
    hide Splice, Le32, Get32;
    var stored := Splice(buf, FIRST_DATA, Le32(0) + FieldBody(f));
    SpliceWord(stored, FIRST_DATA, FIRST_DATA);
    SpliceKeepsWord(Splice(stored, FIRST_DATA, Le32(FIRST_DATA)), TAIL_DATA_OFFSET, Le32(FIRST_DATA), FIRST_DATA);
  }

  lemma RecordBytes(mem: seq<Byte>, f: Field)
    requires RecordWords(mem, 0, f) && Holds(mem, FIRST_VALUE, f.value)
    ensures Holds(mem[EVENT_SIZE..], 0, Le32(0) + FieldBody(f))
  {
    hide Le32, Get32;
    WordBytes(mem, FIRST_DATA);
    WordBytes(mem, FIRST_DATA + DATA_KEY);
    WordBytes(mem, FIRST_DATA + DATA_TYPE);
    WordBytes(mem, FIRST_DATA + DATA_LENGTH);
    var record := Le32(0) + FieldBody(f);
    var end := FIRST_VALUE + |f.value|;
    assert mem[12..end] == mem[12..16] + (mem[16..20] + (mem[20..24] + (mem[24..28] + mem[28..end])));
    assert mem[EVENT_SIZE..][..|record|] == mem[12..end];
  }

  lemma OneField(f: Field)
    ensures EventSize([f]) == FIRST_VALUE + |f.value|
    ensures EventBytes([f]) == Le32(0) + Le32(FIRST_DATA) + Le32(FIRST_DATA) + (Le32(0) + FieldBody(f))
  {
    hide Le32;
    assert [] + [f] == [f] && [f][..0] == [];
    AppendField([], f);
    assert Linked(Bodies([]), EVENT_SIZE) + (Le32(0) + FieldBody(f)) == Le32(0) + FieldBody(f);
  }

  /** A buffer whose header names one record, and which holds that record, holds the event of this one field. */
  lemma StagedOne(buf: seq<Byte>, f: Field)
    requires Sane(buf) && HeadData(buf) == TailData(buf) == FIRST_DATA && Holds(buf[EVENT_SIZE..], 0, Le32(0) + FieldBody(f))
    ensures Staged(buf, FIRST_VALUE + |f.value|, [f])
  {
    hide Le32, Get32;
    OneField(f);
    WordBytes(buf, 4);
    WordBytes(buf, 8);
    JoinEventBytes(buf, Le32(0), Le32(FIRST_DATA), Le32(FIRST_DATA), Le32(0) + FieldBody(f));
  }

  lemma StageAllOne(buf: seq<Byte>, f: Field)
    requires Sane(buf) && FIRST_VALUE + |f.value| <= |buf|
    ensures EventSize([f]) == FIRST_VALUE + |f.value| && CanStage(buf, FIRST_DATA, f)
    ensures StageAll(buf, [f]) == StageField(buf, FIRST_DATA, f)
  {
    assert [] + [f] == [f];
    StageAllAppend(buf, [], f);
  }

  lemma SurvivorStaged(buf: seq<Byte>, f: Field)
    requires Sane(buf) && EventSize([f]) <= |buf|
    requires TailData(buf) >= FIRST_VALUE && ValueSurvives(TailData(buf), f.value)
    ensures Staged(StageAll(buf, [f]), EventSize([f]), [f])
  {
    OneField(f);
    StageAllOne(buf, f);
    StaleBehind(buf, f);
    StageKeepsSane(buf, FIRST_DATA, f);
    RecordBytes(StageField(buf, FIRST_DATA, f), f);
    StagedOne(StageField(buf, FIRST_DATA, f), f);
  }

  // ---------------------------------------------------------------- the second call repairs a self-link

  lemma SpliceCovered(mem: seq<Byte>, at: nat, x: seq<Byte>, other: nat, record: seq<Byte>, y: seq<Byte>)
    requires |x| == |y| && at + |x| <= other && other + |record| <= |mem|
    ensures Splice(Splice(Splice(mem, at, x), other, record), at, y) == Splice(Splice(mem, other, record), at, y)
  {
  }

  /** What the last record's link was is of no matter to the next AddEventData. */
  lemma LinkOverwritten(buf: seq<Byte>, used: nat, f: Field)
    requires CanStage(buf, used, f) && TailData(buf) == FIRST_DATA && FIRST_VALUE <= used
    ensures CanStage(Splice(buf, FIRST_DATA, Le32(0)), used, f) && TailData(Splice(buf, FIRST_DATA, Le32(0))) == FIRST_DATA
    ensures HeadData(Splice(buf, FIRST_DATA, Le32(0))) == HeadData(buf)
    ensures StageField(Splice(buf, FIRST_DATA, Le32(0)), used, f) == StageField(buf, used, f)
  {
    hide Le32, Get32, Splice, StageField;
    var cut := Splice(buf, FIRST_DATA, Le32(0));
    SpliceElsewhere(buf, FIRST_DATA, Le32(0), 0, 4);
    SpliceKeepsWord(buf, FIRST_DATA, Le32(0), HEAD_DATA_OFFSET);
    SpliceKeepsWord(buf, FIRST_DATA, Le32(0), TAIL_DATA_OFFSET);
    StageIsStoreThenLink(cut, used, f);
    StageIsStoreThenLink(buf, used, f);
    var record := Le32(0) + FieldBody(f);
    SpliceKeepsWord(cut, used, record, HEAD_DATA_OFFSET);
    SpliceKeepsWord(buf, used, record, HEAD_DATA_OFFSET);
    SpliceCovered(buf, FIRST_DATA, Le32(0), used, record, Le32(used));
  }

  lemma SelfLinkCut(buf: seq<Byte>, f: Field)
    requires CanStage(buf, FIRST_DATA, f) && TailData(buf) == FIRST_DATA
    ensures Staged(Splice(StageField(buf, FIRST_DATA, f), FIRST_DATA, Le32(0)), FIRST_VALUE + |f.value|, [f])
  {
    hide Le32, Get32;
    var buf' := StageField(buf, FIRST_DATA, f);
    StageKeepsSane(buf, FIRST_DATA, f);
    StageData(buf, FIRST_DATA, f);
    var cut := Splice(buf', FIRST_DATA, Le32(0));
    DataWrite(buf', FIRST_DATA, Le32(0));
    SpliceElsewhere(buf', FIRST_DATA, Le32(0), 0, 4);
    SpliceKeepsWord(buf', FIRST_DATA, Le32(0), HEAD_DATA_OFFSET);
    SpliceKeepsWord(buf', FIRST_DATA, Le32(0), TAIL_DATA_OFFSET);
    CutTwice(buf[EVENT_SIZE..], Le32(0), FieldBody(f), Le32(FIRST_DATA));
    StagedOne(cut, f);
  }

  lemma CutTwice(mem: seq<Byte>, link: seq<Byte>, body: seq<Byte>, other: seq<Byte>)
    requires |link| == |other| && |link| + |body| <= |mem|
    ensures Holds(Splice(Splice(Splice(mem, 0, link + body), 0, other), 0, link), 0, link + body)
  {
  }

  lemma RepairedStaged(buf: seq<Byte>, f: Field, g: Field)
    requires Sane(buf) && EventSize([f, g]) <= |buf| && TailData(buf) == FIRST_DATA
    ensures Staged(StageAll(buf, [f, g]), EventSize([f, g]), [f, g])
  {
    hide Staged, Sane, StageField;
    assert [f] + [g] == [f, g] && [f, g][..1] == [f];
    StageAllOne(buf, f);
    StageAllAppend(buf, [f], g);
    var buf' := StageField(buf, FIRST_DATA, f);
    var used := FIRST_VALUE + |f.value|;
    var cut := Splice(buf', FIRST_DATA, Le32(0));
    StageKeepsSane(buf, FIRST_DATA, f);
    LinkOverwritten(buf', used, g);
    SelfLinkCut(buf, f);
    StageFieldAppends(cut, used, [f], g);
  }

  // ---------------------------------------------------------------- all further calls

  /** Once the first `k` calls have left the bytes of an event of `k` fields, all later calls keep it right. */
  lemma {:induction false} StagedFrom(buf: seq<Byte>, fields: seq<Field>, k: nat)
    requires Sane(buf) && EventSize(fields) <= |buf| && k <= |fields|
    requires EventSize(fields[..k]) <= |buf| && Staged(StageAll(buf, fields[..k]), EventSize(fields[..k]), fields[..k])
    ensures Staged(StageAll(buf, fields), EventSize(fields), fields)
  {
    hide Staged, Sane, StageField;
    if k == |fields| {
      assert fields[..k] == fields;
    } else {
      var front, f := fields[..|fields| - 1], fields[|fields| - 1];
      assert front[..k] == fields[..k] && front + [f] == fields;
      StagedFrom(buf, front, k);
      StageAllAppend(buf, front, f);
      StageFieldAppends(StageAll(buf, front), EventSize(front), front, f);
    }
  }

  lemma FreshStaged(buf: seq<Byte>)
    requires Sane(buf) && TailData(buf) == 0
    ensures Staged(buf, EventSize([]), [])
  {
    BeginsEmpty(buf);
  }

  lemma RightIsStaged(buf: seq<Byte>, fields: seq<Field>)
    requires Sane(buf) && EventSize(fields) <= |buf| && ComesOutRight(TailData(buf), fields)
    ensures Staged(StageAll(buf, fields), EventSize(fields), fields)
  {
    hide Staged, StageAll, ValueSurvives;
    if TailData(buf) == 0 {
      assert fields[..0] == [];
      FreshStaged(buf);
      StagedFrom(buf, fields, 0);
    } else if TailData(buf) == FIRST_DATA {
      assert fields[..2] == [fields[0], fields[1]];
      EventSizePrefix(fields, 2);
      RepairedStaged(buf, fields[0], fields[1]);
      StagedFrom(buf, fields, 2);
    } else {
      assert fields[..1] == [fields[0]];
      EventSizePrefix(fields, 1);
      SurvivorStaged(buf, fields[0]);
      StagedFrom(buf, fields, 1);
    }
  }

  // ---------------------------------------------------------------- what is lost stays lost

  lemma StageKeepsStretch(buf: seq<Byte>, used: nat, f: Field, lo: nat, hi: nat)
    requires CanStage(buf, used, f) && EVENT_SIZE <= lo <= hi <= used
    requires TailData(buf) + 4 <= lo || hi <= TailData(buf)
    ensures StageField(buf, used, f)[lo..hi] == buf[lo..hi]
  {
    hide Le32, Splice;
    var stored := Splice(buf, used, Le32(0) + FieldBody(f));
    SpliceElsewhere(buf, used, Le32(0) + FieldBody(f), lo, hi);
    var headed := if HeadData(buf) == 0 then Splice(stored, HEAD_DATA_OFFSET, Le32(used)) else stored;
    SpliceElsewhere(stored, HEAD_DATA_OFFSET, Le32(used), lo, hi);
    var linked := if TailData(buf) != 0 then Splice(headed, TailData(buf), Le32(used)) else headed;
    if TailData(buf) != 0 {
      SpliceElsewhere(headed, TailData(buf), Le32(used), lo, hi);
    }
    SpliceElsewhere(linked, TAIL_DATA_OFFSET, Le32(used), lo, hi);
  }

  /** No later call touches the first record behind its link. */
  lemma {:induction false} FirstRecordStays(buf: seq<Byte>, fields: seq<Field>)
    requires Sane(buf) && EventSize(fields) <= |buf| && fields != [] && EventSize(fields[..1]) <= |buf|
    ensures var lo, hi := FIRST_DATA + DATA_KEY, EventSize(fields[..1]);
      StageAll(buf, fields)[lo..hi] == StageAll(buf, fields[..1])[lo..hi]
  {
    hide Sane, StageField;
    if |fields| == 1 {
      assert fields[..1] == fields;
    } else {
      var front, f := fields[..|fields| - 1], fields[|fields| - 1];
      assert front[..1] == fields[..1] && front + [f] == fields;
      FirstRecordStays(buf, front);
      StageAllAppend(buf, front, f);
      EventSizePrefix(front, 1);
      if |front| > 1 {
        assert front[..|front| - 1][..1] == fields[..1];
        EventSizePrefix(front[..|front| - 1], 1);
      } else {
        assert front[..|front| - 1] == [];
      }
      StageKeepsStretch(StageAll(buf, front), EventSize(front), f, FIRST_DATA + DATA_KEY, EventSize(fields[..1]));
    }
  }

  /** The first `used` bytes: what AddEvent copies into a list. */
  function StagedImage(buf: seq<Byte>, used: nat): seq<Byte>
    requires used <= |buf|
  {
    buf[..used]
  }

  lemma TruncatedWord(buf: seq<Byte>, used: nat, at: nat)
    requires at + 4 <= used <= |buf|
    ensures Get32(StagedImage(buf, used), at) == Get32(buf, at)
  {
  }

  lemma SliceWord(a: seq<Byte>, b: seq<Byte>, lo: nat, hi: nat, at: nat)
    requires lo <= at && at + 4 <= hi <= |a| && hi <= |b| && a[lo..hi] == b[lo..hi]
    ensures Get32(a, at) == Get32(b, at)
  {
    var s, t := a[lo..hi], b[lo..hi];
    assert forall j :: at <= j < at + 4 ==> a[j] == s[j - lo] && b[j] == t[j - lo];
  }

  /** A stale offset inside the first value: the first field is misread. */
  lemma ValueLost(buf: seq<Byte>, fields: seq<Field>)
    requires Sane(buf) && EventSize(fields) <= |buf| && fields != []
    requires TailData(buf) >= FIRST_VALUE && !ValueSurvives(TailData(buf), fields[0].value)
    ensures !FieldAt(StagedImage(StageAll(buf, fields), EventSize(fields)), FIRST_DATA, fields[0])
  {
    hide Sane, StageField, StageAll, ValueSurvives, Get32;
    var f, all, size := fields[0], StageAll(buf, fields), EventSize(fields);
    assert fields[..1] == [f];
    EventSizePrefix(fields, 1);
    StageAllOne(buf, f);
    StaleBehind(buf, f);
    FirstRecordStays(buf, fields);
    var one := StageField(buf, FIRST_DATA, f);
    var lo, hi := FIRST_DATA + DATA_KEY, FIRST_VALUE + |f.value|;
    SliceWord(all, one, lo, hi, FIRST_DATA + DATA_LENGTH);
    TruncatedWord(all, size, FIRST_DATA + DATA_LENGTH);
    assert StagedImage(all, size)[FIRST_VALUE..hi] == all[lo..hi][FIRST_VALUE - lo..];
    assert one[FIRST_VALUE..hi] == one[lo..hi][FIRST_VALUE - lo..];
  }

  lemma WrongIsNotCarried(buf: seq<Byte>, fields: seq<Field>)
    requires Sane(buf) && EventSize(fields) <= |buf| && !ComesOutRight(TailData(buf), fields)
    ensures !Carries(StagedImage(StageAll(buf, fields), EventSize(fields)), fields)
  {
    hide StageField, StageAll, ValueSurvives, FieldAt, Get32;
    var all, size := StageAll(buf, fields), EventSize(fields);
    TruncatedWord(all, size, HEAD_DATA_OFFSET);
    if fields != [] {
      if TailData(buf) == FIRST_DATA {
        assert fields == [fields[0]];
        StageAllOne(buf, fields[0]);
        StaleSelf(buf, fields[0]);
        TruncatedWord(all, size, FIRST_DATA);
        assert !DataChain(StagedImage(all, size), FIRST_DATA, fields[1..]);
      } else {
        ValueLost(buf, fields);
      }
    }
  }

  // ---------------------------------------------------------------- the main result

  lemma StagedIsCarried(buf: seq<Byte>, used: nat, fields: seq<Field>)
    requires used <= |buf| && Staged(buf, used, fields)
    ensures used >= 4 && CarriesAnywhere(StagedImage(buf, used)[4..], fields)
  {
    assert StagedImage(buf, used) == EventBytes(fields);
    EventCarriesAnywhere(fields);
  }

  lemma AnywhereIsHere(image: seq<Byte>, fields: seq<Field>)
    requires 4 <= |image| < WORD_LIMIT && CarriesAnywhere(image[4..], fields)
    ensures Carries(image, fields)
  {
    assert Holds(image, 4, image[4..]);
  }

  /**
   Exactly when CreateEvent and any number of AddEventData calls, in a buffer used before or not,
   give an event that carries these fields and nothing else, where it was built and wherever its
   bytes are copied to.
   */
  lemma EventComesOut(buf: seq<Byte>, fields: seq<Field>)
    requires Sane(buf) && EventSize(fields) <= |buf|
    ensures var image := StagedImage(StageAll(buf, fields), EventSize(fields));
      && (Carries(image, fields) <==> ComesOutRight(TailData(buf), fields))
      && (CarriesAnywhere(image[4..], fields) <==> ComesOutRight(TailData(buf), fields))
  {
    hide Carries, CarriesAnywhere, ComesOutRight, StageAll, Staged;
    var image := StagedImage(StageAll(buf, fields), EventSize(fields));
    if ComesOutRight(TailData(buf), fields) {
      RightIsStaged(buf, fields);
      StagedIsCarried(StageAll(buf, fields), EventSize(fields), fields);
      AnywhereIsHere(image, fields);
    } else {
      WrongIsNotCarried(buf, fields);
      if CarriesAnywhere(image[4..], fields) {
        AnywhereIsHere(image, fields);
      }
    }
  }

  // ---------------------------------------------------------------- a buffer's whole life

  /** What CreateEventBuffer allocates. */
  function NewBuffer(length: nat): seq<Byte>
  {
    seq(length, i => 0)
  }

  lemma NewBufferSane(length: nat)
    requires EVENT_SIZE <= length < WORD_LIMIT
    ensures Sane(NewBuffer(length)) && TailData(NewBuffer(length)) == 0
  {
    assert NewBuffer(length)[..4] == Le32(0);
  }

  ghost predicate Fit(length: nat, events: seq<seq<Field>>)
  {
    EVENT_SIZE <= length < WORD_LIMIT && forall i :: 0 <= i < |events| ==> EventSize(events[i]) <= length
  }

  /** A buffer in which these events have been built, one after the other. */
  function AfterEvents(length: nat, events: seq<seq<Field>>): (buf: seq<Byte>)
    requires Fit(length, events)
    ensures |buf| == length && Sane(buf)
  {
    NewBufferSane(length);
    if events == [] then NewBuffer(length)
    else StageAll(AfterEvents(length, events[..|events| - 1]), events[|events| - 1])
  }

  /** Where the last record of the last event that had any data started; 0 if none had. */
  function StaleOffset(events: seq<seq<Field>>): nat
  {
    if events == [] then 0
    else
      var last := events[|events| - 1];
      if last == [] then StaleOffset(events[..|events| - 1]) else EventSize(last[..|last| - 1])
  }

  lemma {:induction false} TailIsStaleOffset(length: nat, events: seq<seq<Field>>)
    requires Fit(length, events)
    ensures TailData(AfterEvents(length, events)) == StaleOffset(events)
  {
    hide Sane, StageAll;
    if events == [] {
      NewBufferSane(length);
    } else {
      TailIsStaleOffset(length, events[..|events| - 1]);
    }
  }

  /** The same condition from what was built in the buffer before. */
  lemma EventComesOutAfter(length: nat, events: seq<seq<Field>>, fields: seq<Field>)
    requires Fit(length, events) && EventSize(fields) <= length
    ensures var image := StagedImage(StageAll(AfterEvents(length, events), fields), EventSize(fields));
      && (Carries(image, fields) <==> ComesOutRight(StaleOffset(events), fields))
      && (CarriesAnywhere(image[4..], fields) <==> ComesOutRight(StaleOffset(events), fields))
  {
    hide Carries, CarriesAnywhere, ComesOutRight, StageAll;
    TailIsStaleOffset(length, events);
    EventComesOut(AfterEvents(length, events), fields);
  }

  /**
   Two events in one new buffer. The first comes out right; if it had one field, a second of one
   field never does, and one of two fields always does.
   */
  lemma SecondUse(length: nat, f: Field, g: Field, h: Field)
    requires EventSize([f]) <= length && EventSize([g]) <= EventSize([g, h]) <= length < WORD_LIMIT
    ensures Sane(NewBuffer(length)) && Fit(length, [[f]])
    ensures Carries(StagedImage(StageAll(NewBuffer(length), [f]), EventSize([f])), [f])
    ensures !Carries(StagedImage(StageAll(AfterEvents(length, [[f]]), [g]), EventSize([g])), [g])
    ensures Carries(StagedImage(StageAll(AfterEvents(length, [[f]]), [g, h]), EventSize([g, h])), [g, h])
  {
    hide Carries, CarriesAnywhere, StageAll, Sane;
    NewBufferSane(length);
    EventComesOut(NewBuffer(length), [f]);
    assert [f][..0] == [] && StaleOffset([[f]]) == FIRST_DATA;
    EventComesOutAfter(length, [[f]], [g]);
    EventComesOutAfter(length, [[f]], [g, h]);
  }

  // ---------------------------------------------------------------- an event under construction

  /** The bytes `buf` of a buffer that held `began` at CreateEvent and has been given `fields` since. */
  ghost predicate Building(began: seq<Byte>, buf: seq<Byte>, fields: seq<Field>)
  {
    Sane(began) && EventSize(fields) <= |began| && buf == StageAll(began, fields)
  }

  lemma PlanRecord(began: seq<Byte>, buf: seq<Byte>, fields: seq<Field>, f: Field) returns (after: seq<Byte>)
    requires Building(began, buf, fields) && EventSize(fields) + EVENT_DATA_SIZE + |f.value| <= |began|
    ensures CanStage(buf, EventSize(fields), f) && after == StageField(buf, EventSize(fields), f)
    ensures Sane(after) && Building(began, after, fields + [f]) && EventSize(fields + [f]) == EventSize(fields) + EVENT_DATA_SIZE + |f.value|
    ensures var stored := Splice(buf, EventSize(fields), Le32(0) + FieldBody(f));
      TailData(stored) + 4 <= |buf| && after == LinkedIn(stored, EventSize(fields))
  {
    StageAllAppend(began, fields, f);
    after := StageField(buf, EventSize(fields), f);
    StageIsStoreThenLink(buf, EventSize(fields), f);
  }
}
