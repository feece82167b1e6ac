/**
 The event ring seen as a queue: the lists waiting to be read, oldest first, the last one being
 the list written to. What one AddEvent and one read request do to it, and what that means for
 every run of both.
 */
module RingQueue {
  import opened Basics
  import opened Words
  import opened EventImage

  // num_event_lists, fixed by InitialiseEventRingList
  const NUM_EVENT_LISTS := 4

  type Image = seq<Byte>
  type Queue = seq<seq<Image>>

  /** A write goes to the last list, or opens a new one when it does not fit; a fifth list costs the oldest. */
  function WriteEvent(q: Queue, img: Image, capacity: nat): Queue
    requires q != []
  {
    var last := q[|q| - 1];
    if TotalLength(last) + |img| <= capacity then q[..|q| - 1] + [last + [img]]
    else if |q| < NUM_EVENT_LISTS then q + [[img]]
    else q[1..] + [[img]]
  }

  /** A list with room for `size` more bytes at the end of the queue: the last one, or a new one. */
  function MakeRoom(q: Queue, size: nat, capacity: nat): Queue
    requires q != []
  {
    if TotalLength(q[|q| - 1]) + size <= capacity then q
    else (if |q| < NUM_EVENT_LISTS then q else q[1..]) + [[]]
  }

  lemma RoomThenAppend(q: Queue, img: Image, capacity: nat)
    requires 1 < |q| <= NUM_EVENT_LISTS
    ensures var p := MakeRoom(q, |img|, capacity);
      p != [] && p[..|p| - 1] + [p[|p| - 1] + [img]] == WriteEvent(q, img, capacity)
  {
    hide TotalLength;
    FirstInNewList(q, img);
    FirstInNewList(q[1..], img);
  }

  /** A read takes the oldest list; if only the write list is left, a new one is opened behind it. */
  function ReadList(q: Queue): Queue
    requires |q| >= 2
  {
    if |q| == 2 then [q[1], []] else q[1..]
  }

  ghost predicate Fits(q: Queue, capacity: nat)
  {
    2 <= |q| <= NUM_EVENT_LISTS && forall i :: 0 <= i < |q| ==> TotalLength(q[i]) <= capacity
  }

  // ---------------------------------------------------------------- the ring positions

  function Next(position: nat): nat
  {
    (position + 1) % NUM_EVENT_LISTS
  }

  predicate Positions(r: nat, w: nat)
  {
    r < NUM_EVENT_LISTS && w < NUM_EVENT_LISTS && r != w
  }

  /** What lies in the lists from the read position round to the write position. */
  function Round(lists: seq<seq<Image>>, r: nat, w: nat): Queue
    requires |lists| == NUM_EVENT_LISTS && r < NUM_EVENT_LISTS && w < NUM_EVENT_LISTS
    ensures |Round(lists, r, w)| == (w + NUM_EVENT_LISTS - r) % NUM_EVENT_LISTS + 1
    decreases (w + NUM_EVENT_LISTS - r) % NUM_EVENT_LISTS
  {
    if r == w then [lists[w]] else [lists[r]] + Round(lists, Next(r), w)
  }

  lemma {:induction false} RoundEnds(lists: seq<seq<Image>>, r: nat, w: nat)
    requires |lists| == NUM_EVENT_LISTS && r < NUM_EVENT_LISTS && w < NUM_EVENT_LISTS
    ensures var q := Round(lists, r, w); q[0] == lists[r] && q[|q| - 1] == lists[w]
    decreases (w + NUM_EVENT_LISTS - r) % NUM_EVENT_LISTS
  {
    if r != w {
      RoundEnds(lists, Next(r), w);
    }
  }

  /** Changing the write list changes the last element of the queue. */
  lemma {:induction false} RoundWriteList(lists: seq<seq<Image>>, r: nat, w: nat, l: seq<Image>)
    requires |lists| == NUM_EVENT_LISTS && r < NUM_EVENT_LISTS && w < NUM_EVENT_LISTS
    ensures var q := Round(lists, r, w); |q| > 0 && Round(lists[w := l], r, w) == q[..|q| - 1] + [l]
    decreases (w + NUM_EVENT_LISTS - r) % NUM_EVENT_LISTS
  {
    var q := Round(lists, r, w);
    if r != w {
      var q' := Round(lists, Next(r), w);
      RoundWriteList(lists, Next(r), w, l);
      assert q[..|q| - 1] == [lists[r]] + q'[..|q'| - 1];
    }
  }

  /** Moving the write position on puts an emptied list behind the queue. */
  lemma {:induction false} RoundAdvance(lists: seq<seq<Image>>, r: nat, w: nat, l: seq<Image>)
    requires |lists| == NUM_EVENT_LISTS && r < NUM_EVENT_LISTS && w < NUM_EVENT_LISTS && Next(w) != r
    ensures Round(lists[Next(w) := l], r, Next(w)) == Round(lists, r, w) + [l]
    decreases (w + NUM_EVENT_LISTS - r) % NUM_EVENT_LISTS
  {
    var lists' := lists[Next(w) := l];
    if r != w {
      RoundAdvance(lists, Next(r), w, l);
      assert [lists[r]] + (Round(lists, Next(r), w) + [l]) == ([lists[r]] + Round(lists, Next(r), w)) + [l];
    } else {
      assert Round(lists', Next(w), Next(w)) == [l];
    }
  }

  /** The ring after AcquireReadEventList has moved the read position, and the write position if caught up with. */
  lemma RoundRead(lists: seq<seq<Image>>, r: nat, w: nat)
    requires |lists| == NUM_EVENT_LISTS && Positions(r, w)
    ensures var q := Round(lists, r, w);
      && |q| >= 2 && q[0] == lists[r]
      && if Next(r) != w then Round(lists, Next(r), w) == ReadList(q)
         else Round(lists[Next(w) := []], Next(r), Next(w)) == ReadList(q)
  {
    if Next(r) == w {
      RoundAdvance(lists, w, w, []);
    }
  }

  /** The ring after AcquireNextWriteEventList: the oldest list is given up if the writer caught up with it. */
  lemma RoundNextWrite(lists: seq<seq<Image>>, r: nat, w: nat, l: seq<Image>)
    requires |lists| == NUM_EVENT_LISTS && Positions(r, w)
    ensures var q := Round(lists, r, w);
      && 2 <= |q| <= NUM_EVENT_LISTS && q[|q| - 1] == lists[w]
      && (Next(w) == r <==> |q| == NUM_EVENT_LISTS)
      && Round(lists[Next(w) := l], if Next(w) == r then Next(r) else r, Next(w))
         == (if |q| == NUM_EVENT_LISTS then q[1..] else q) + [l]
  {
    RoundEnds(lists, r, w);
    if Next(w) == r {
      RoundAdvance(lists, Next(r), w, l);
      assert Round(lists, Next(r), w) == Round(lists, r, w)[1..];
    } else {
      RoundAdvance(lists, r, w, l);
    }
  }

  lemma FirstInNewList(q: Queue, img: Image)
    ensures var p: Queue := q + [[]]; p[..|p| - 1] + [p[|p| - 1] + [img]] == q + [[img]]
  {
    var p: Queue := q + [[]];
    assert p[|p| - 1] + [img] == [img];
  }

  // ---------------------------------------------------------------- runs

  datatype Op = Write(img: Image) | Read

  datatype Exit = Delivered(img: Image) | Dropped(img: Image)

  /** What has been written, how each event has left the ring, and what is still pending. */
  datatype History = History(pending: Queue, exits: seq<Exit>, written: seq<Image>)

  function Flatten(q: Queue): seq<Image>
  {
    if q == [] then [] else q[0] + Flatten(q[1..])
  }

  function Deliver(l: seq<Image>): (out: seq<Exit>)
    ensures |out| == |l|
  {
    seq(|l|, i requires 0 <= i < |l| => Delivered(l[i]))
  }

  function Drop(l: seq<Image>): (out: seq<Exit>)
    ensures |out| == |l|
  {
    seq(|l|, i requires 0 <= i < |l| => Dropped(l[i]))
  }

  function Images(exits: seq<Exit>): (images: seq<Image>)
    ensures |images| == |exits|
  {
    seq(|exits|, i requires 0 <= i < |exits| => exits[i].img)
  }

  /** True iff this write finds the ring full and the write list too short: the oldest list is lost. */
  predicate Overflows(q: Queue, img: Image, capacity: nat)
  {
    |q| == NUM_EVENT_LISTS && TotalLength(q[|q| - 1]) + |img| > capacity
  }

  function Step(h: History, op: Op, capacity: nat): History
    requires |h.pending| >= 2
  {
    match op
    case Write(img) =>
      History(WriteEvent(h.pending, img, capacity),
              if Overflows(h.pending, img, capacity) then h.exits + Drop(h.pending[0]) else h.exits,
              h.written + [img])
    case Read => History(ReadList(h.pending), h.exits + Deliver(h.pending[0]), h.written)
  }

  ghost predicate Writable(ops: seq<Op>, capacity: nat)
  {
    forall i :: 0 <= i < |ops| && ops[i].Write? ==> |ops[i].img| <= capacity
  }

  lemma StepKeepsShape(h: History, op: Op, capacity: nat)
    requires Fits(h.pending, capacity) && (op.Write? ==> |op.img| <= capacity)
    ensures Fits(Step(h, op, capacity).pending, capacity)
  {
    if op.Write? {
      var last := h.pending[|h.pending| - 1];
      TotalLengthAppend(last, op.img);
      TotalLengthAppend([], op.img);
      assert [] + [op.img] == [op.img];
    }
  }

  /** The state after a whole run of operations, from the ring as InitialiseEventRingList leaves it. */
  ghost function Run(ops: seq<Op>, capacity: nat): (h: History)
    requires Writable(ops, capacity)
    ensures Fits(h.pending, capacity)
  {
    if ops == [] then History([[], []], [], [])
    else
      var n := |ops| - 1;
      StepKeepsShape(Run(ops[..n], capacity), ops[n], capacity);
      Step(Run(ops[..n], capacity), ops[n], capacity)
  }

  lemma {:induction false} FlattenConcat(p: Queue, q: Queue)
    ensures Flatten(p + q) == Flatten(p) + Flatten(q)
  {
    if p == [] {
      assert p + q == q;
    } else {
      assert (p + q)[1..] == p[1..] + q;
      FlattenConcat(p[1..], q);
    }
  }

  lemma FlattenOne(l: seq<Image>)
    ensures Flatten([l]) == l
  {
    assert [l][1..] == [];
  }

  lemma FlattenFirst(q: Queue)
    requires q != []
    ensures Flatten(q) == q[0] + Flatten(q[1..])
  {
  }

  lemma FlattenLast(q: Queue, l: seq<Image>)
    ensures Flatten(q + [l]) == Flatten(q) + l
  {
    FlattenConcat(q, [l]);
    FlattenOne(l);
  }

  lemma WriteInPlace(q: Queue, img: Image)
    requires q != []
    ensures Flatten(q[..|q| - 1] + [q[|q| - 1] + [img]]) == Flatten(q) + [img]
  {
    hide Flatten;
    var front, last := q[..|q| - 1], q[|q| - 1];
    FlattenLast(front, last + [img]);
    FlattenLast(front, last);
    assert q == front + [last];
    Associative(Flatten(front), last, [img]);
  }

  lemma WriteOverOldest(q: Queue, img: Image)
    requires q != []
    ensures q[0] + Flatten(q[1..] + [[img]]) == Flatten(q) + [img]
  {
    hide Flatten;
    FlattenFirst(q);
    FlattenLast(q[1..], [img]);
    Associative(q[0], Flatten(q[1..]), [img]);
  }

  /** The queue of one write: everything pending before stays, in order, but the oldest list on overflow. */
  lemma WriteIsFifo(q: Queue, img: Image, capacity: nat)
    requires 2 <= |q| <= NUM_EVENT_LISTS
    ensures var kept := Flatten(WriteEvent(q, img, capacity));
      Flatten(q) + [img] == if Overflows(q, img, capacity) then q[0] + kept else kept
  {
    hide Flatten;
    hide TotalLength;
    WriteInPlace(q, img);
    FlattenLast(q, [img]);
    WriteOverOldest(q, img);
  }

  lemma ReadIsFifo(q: Queue)
    requires |q| >= 2
    ensures Flatten(q) == q[0] + Flatten(ReadList(q))
  {
    hide Flatten;
    FlattenFirst(q);
    if |q| == 2 {
      assert q[1..] == [q[1]];
      FlattenOne(q[1]);
      FlattenTwo(q[1]);
    }
  }

  lemma FlattenTwo(l: seq<Image>)
    ensures Flatten([l, []]) == l
  {
    assert [l, []][1..] == [[]];
    FlattenOne([]);
  }

  /**
   The events that left the ring, in the order they left it, followed by those still pending,
   are exactly the events written, in the order they were written.
   */
  ghost predicate Conserves(h: History)
  {
    Images(h.exits) + Flatten(h.pending) == h.written
  }

  lemma Regroup(exits: seq<Image>, gone: seq<Image>, pending: seq<Image>, pending': seq<Image>, new': seq<Image>)
    requires pending + new' == gone + pending'
    ensures (exits + pending) + new' == (exits + gone) + pending'
  {
    assert (exits + pending) + new' == exits + (pending + new');
    assert (exits + gone) + pending' == exits + (gone + pending');
  }

  lemma ImagesOfMore(exits: seq<Exit>, more: seq<Exit>)
    ensures Images(exits + more) == Images(exits) + Images(more)
  {
  }

  lemma WriteConserves(h: History, img: Image, capacity: nat)
    requires 2 <= |h.pending| <= NUM_EVENT_LISTS && Conserves(h)
    ensures Conserves(Step(h, Write(img), capacity))
  {
    var gone: seq<Image> := if Overflows(h.pending, img, capacity) then h.pending[0] else [];
    var kept := Flatten(WriteEvent(h.pending, img, capacity));
    WriteIsFifo(h.pending, img, capacity);
    assert [] + kept == kept;
    Regroup(Images(h.exits), gone, Flatten(h.pending), Flatten(WriteEvent(h.pending, img, capacity)), [img]);
    ImagesOfMore(h.exits, Drop(gone));
    assert Images(Drop(gone)) == gone;
    assert h.exits + [] == h.exits;
  }

  lemma ReadConserves(h: History, capacity: nat)
    requires 2 <= |h.pending| && Conserves(h)
    ensures Conserves(Step(h, Read, capacity))
  {
    var gone := h.pending[0];
    ReadIsFifo(h.pending);
    Regroup(Images(h.exits), gone, Flatten(h.pending), Flatten(ReadList(h.pending)), []);
    ImagesOfMore(h.exits, Deliver(gone));
    assert Images(Deliver(gone)) == gone;
  }

  /** So in every run each event is delivered once, dropped once or still pending, and nothing overtakes. */
  lemma {:induction false} RunConserves(ops: seq<Op>, capacity: nat)
    requires Writable(ops, capacity)
    ensures Conserves(Run(ops, capacity))
  {
    if ops == [] {
      FlattenTwo([]);
    } else {
      var n := |ops| - 1;
      var h := Run(ops[..n], capacity);
      RunConserves(ops[..n], capacity);
      match ops[n]
      case Write(img) => WriteConserves(h, img, capacity);
      case Read => ReadConserves(h, capacity);
    }
  }

  // ---------------------------------------------------------------- lists are filled before a new one is opened

  /** A write changes the last list only, if the event fits there; else it is the first event of a new last list. */
  lemma OpensOnlyWhenFull(q: Queue, img: Image, capacity: nat)
    requires 2 <= |q| <= NUM_EVENT_LISTS
    ensures var q', last := WriteEvent(q, img, capacity), q[|q| - 1];
      if TotalLength(last) + |img| <= capacity then
        |q'| == |q| && q'[..|q| - 1] == q[..|q| - 1] && q'[|q| - 1] == last + [img]
      else
        |q'| >= 2 && q'[|q'| - 1] == [img] && q'[|q'| - 2] == last && (|q| < NUM_EVENT_LISTS ==> q'[..|q|] == q)
  {
    hide TotalLength;
  }

  /**
   Every list from the third on was opened by a write, as reads and initialisation leave two lists at
   most: it begins with an event that did not fit into the list before it.
   */
  ghost predicate Filled(q: Queue, capacity: nat)
  {
    forall i {:trigger q[i]} :: 2 <= i < |q| ==> q[i] != [] && TotalLength(q[i - 1]) + |q[i][0]| > capacity
  }

  lemma StepKeepsFilled(h: History, op: Op, capacity: nat)
    requires Fits(h.pending, capacity) && Filled(h.pending, capacity)
    ensures Filled(Step(h, op, capacity).pending, capacity)
  {
    hide TotalLength;
    var q, q' := h.pending, Step(h, op, capacity).pending;
    forall i {:trigger q'[i]} | 2 <= i < |q'|
      ensures q'[i] != [] && TotalLength(q'[i - 1]) + |q'[i][0]| > capacity
    {
      if op.Write? {
        OpensOnlyWhenFull(q, op.img, capacity);
        assert i < |q| ==> q[i] != [];
        assert i + 1 < |q| ==> q[i + 1] != [];
      } else {
        assert q'[i] == q[i + 1];
      }
    }
  }

  /** In every run a list opened by a write begins with an event that did not fit into the list before it. */
  lemma {:induction false} RunFilled(ops: seq<Op>, capacity: nat)
    requires Writable(ops, capacity)
    ensures Filled(Run(ops, capacity).pending, capacity)
  {
    hide Filled, Step;
    if ops == [] {
      FilledAtFirst(capacity);
    } else {
      var n := |ops| - 1;
      RunFilled(ops[..n], capacity);
      StepKeepsFilled(Run(ops[..n], capacity), ops[n], capacity);
    }
  }

  lemma FilledAtFirst(capacity: nat)
    ensures Filled([[], []], capacity)
  {
  }

  lemma {:induction false} TotalLengthConcat(a: seq<Image>, b: seq<Image>)
    ensures TotalLength(a + b) == TotalLength(a) + TotalLength(b)
  {
    if a == [] {
      assert a + b == b;
    } else {
      assert (a + b)[0] == a[0] && (a + b)[1..] == a[1..] + b;
      TotalLengthConcat(a[1..], b);
    }
  }

  lemma FirstInside(l: seq<Image>)
    requires l != []
    ensures |l[0]| <= TotalLength(l)
  {
  }

  /** When a write finds four lists and no room, the last three and the new event take more than two lists' length. */
  lemma OverflowBytes(q: Queue, img: Image, capacity: nat)
    requires |q| == NUM_EVENT_LISTS && Filled(q, capacity) && TotalLength(q[3]) + |img| > capacity
    ensures TotalLength(Flatten(q[1..]) + [img]) >= 2 * capacity + 2
  {
    hide Flatten, TotalLength;
    assert q[2] != [] && TotalLength(q[2 - 1]) + |q[2][0]| > capacity;
    FirstInside(q[2]);
    assert q[1..] == [q[1]] + ([q[2]] + [q[3]]);
    FlattenConcat([q[1]], [q[2]] + [q[3]]);
    FlattenConcat([q[2]], [q[3]]);
    FlattenOne(q[1]);
    FlattenOne(q[2]);
    FlattenOne(q[3]);
    TotalLengthConcat(q[1], q[2] + q[3]);
    TotalLengthConcat(q[2], q[3]);
    TotalLengthAppend(q[1] + (q[2] + q[3]), img);
  }

  /** The events behind those dropped by a write, the new one included, are the tail of what has been written. */
  lemma BehindDropped(h: History, img: Image, capacity: nat, k: nat)
    requires 2 <= |h.pending| <= NUM_EVENT_LISTS && Conserves(h) && Overflows(h.pending, img, capacity)
    requires |h.exits| <= k < |h.exits| + |h.pending[0]|
    ensures var tail, later := Flatten(h.pending[1..]) + [img], h.written + [img];
      k < |later| && |tail| < |later| - k && later[|later| - |tail|..] == tail
  {
    hide Flatten;
    FlattenFirst(h.pending);
    var tail, later := Flatten(h.pending[1..]) + [img], h.written + [img];
    assert later == (Images(h.exits) + h.pending[0]) + tail;
  }

  lemma TailShorter(all: seq<Image>, k: nat, n: nat)
    requires k <= n <= |all|
    ensures TotalLength(all[k..]) >= TotalLength(all[n..])
  {
    assert all[k..] == all[k..n] + all[n..];
    TotalLengthConcat(all[k..n], all[n..]);
  }

  lemma WriteDropsLate(h: History, img: Image, capacity: nat, k: nat)
    requires 2 <= |h.pending| <= NUM_EVENT_LISTS && Conserves(h) && Filled(h.pending, capacity)
    requires |h.exits| <= k < |Step(h, Write(img), capacity).exits|
    ensures k < |h.written| && TotalLength((h.written + [img])[k + 1..]) >= 2 * capacity + 2
  {
    hide Flatten, TotalLength, Filled, Conserves;
    BehindDropped(h, img, capacity, k);
    OverflowBytes(h.pending, img, capacity);
    var tail, later := Flatten(h.pending[1..]) + [img], h.written + [img];
    TailShorter(later, k + 1, |later| - |tail|);
  }

  /**
   In every run an event is dropped only after at least 2 * capacity + 2 further bytes of events have
   been written; event number k leaves the ring as exit number k.
   */
  lemma {:induction false} DroppedLate(ops: seq<Op>, capacity: nat, k: nat)
    requires Writable(ops, capacity)
    requires k < |Run(ops, capacity).exits| && Run(ops, capacity).exits[k].Dropped?
    ensures var h := Run(ops, capacity);
      k < |h.written| && h.written[k] == h.exits[k].img && TotalLength(h.written[k + 1..]) >= 2 * capacity + 2
    decreases |ops|
  {
    hide Flatten, TotalLength, Filled;
    RunConserves(ops, capacity);
    ExitIsWritten(Run(ops, capacity), k);
    if ops != [] {
      var n := |ops| - 1;
      var h := Run(ops[..n], capacity);
      if k < |h.exits| {
        DroppedLate(ops[..n], capacity, k);
        if ops[n].Write? {
          var img := ops[n].img;
          assert (h.written + [img])[k + 1..] == h.written[k + 1..] + [img];
          TotalLengthAppend(h.written[k + 1..], img);
        }
      } else if ops[n].Write? {
        RunConserves(ops[..n], capacity);
        RunFilled(ops[..n], capacity);
        WriteDropsLate(h, ops[n].img, capacity, k);
      }
    }
  }

  lemma ExitIsWritten(h: History, k: nat)
    requires Conserves(h) && k < |h.exits|
    ensures k < |h.written| && h.written[k] == h.exits[k].img
  {
    assert Images(h.exits)[k] == h.exits[k].img;
  }

  // ---------------------------------------------------------------- draining

  /** `n` read requests in a row. */
  function Reads(q: Queue, n: nat): (r: (seq<Image>, Queue))
    requires |q| >= 2
    ensures |r.1| >= 2
    decreases n
  {
    if n == 0 then ([], q)
    else
      var (out, q') := Reads(ReadList(q), n - 1);
      (q[0] + out, q')
  }

  /** Nothing is stuck: as many reads as there are lists deliver everything pending and leave two empty lists. */
  lemma {:induction false} DrainDeliversAll(q: Queue, n: nat)
    requires |q| >= 2 && n >= |q|
    ensures Reads(q, n) == (Flatten(q), [[], []])
    decreases n
  {
    var q' := ReadList(q);
    ReadIsFifo(q);
    if |q| > 2 {
      DrainDeliversAll(q', n - 1);
    } else {
      DrainTwo(q[1], n - 1);
      FlattenTwo(q[1]);
    }
  }

  lemma {:induction false} DrainTwo(l: seq<Image>, n: nat)
    requires n >= 1
    ensures Reads([l, []], n) == (l, [[], []])
    decreases n
  {
    if n > 1 {
      DrainTwo([], n - 1);
      assert l + [] == l;
    } else {
      assert Reads([[], []], 0) == ([], [[], []]);
      assert l + [] == l;
    }
  }
}
