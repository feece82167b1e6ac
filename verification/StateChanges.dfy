/**
 State changes reported by a client (StateChange.java and its two kinds), the order in which the
 server writes them out, and stable sorting by that order.
 */
module StateChanges {

  /** ObjectStateChange and ProcessStateChange without its lists; `time` in milliseconds. */
  datatype Event =
    | Object(kind: string, time: int, processId: int, process: string, action: string, object1: string, object2: string)
    | Process(kind: string, time: int, parentId: int, parent: string, action: string, processId: int, process: string)

  // ---------------------------------------------------------------- the comparator

  /** String.compareTo, as <= 0. */
  predicate StringLeq(a: string, b: string)
  {
    if a == [] then true
    else if b == [] then false
    else if a[0] != b[0] then a[0] < b[0]
    else StringLeq(a[1..], b[1..])
  }

  /** What the comparator looks at. */
  datatype Key = Key(time: int, kind: string)

  function KeyOf(e: Event): Key
  {
    Key(e.time, e.kind)
  }

  /** compare(a, b) <= 0: earlier first, then by type from the end of the alphabet. */
  predicate Leq(a: Key, b: Key)
  {
    if a.time != b.time then a.time < b.time else StringLeq(b.kind, a.kind)
  }

  lemma {:induction false} StringTotal(a: string, b: string)
    ensures StringLeq(a, b) || StringLeq(b, a)
    ensures StringLeq(a, b) && StringLeq(b, a) ==> a == b
  {
    if a != [] && b != [] && a[0] == b[0] {
      StringTotal(a[1..], b[1..]);
      assert a == [a[0]] + a[1..] && b == [b[0]] + b[1..];
    }
  }

  lemma {:induction false} StringTransitive(a: string, b: string, c: string)
    requires StringLeq(a, b) && StringLeq(b, c)
    ensures StringLeq(a, c)
  {
    if a != [] && b != [] && c != [] && a[0] == b[0] == c[0] {
      StringTransitive(a[1..], b[1..], c[1..]);
    }
  }

  /** b and a agree up to k, and there b ends or has the smaller character. */
  ghost predicate PrecedesAt(b: string, a: string, k: nat)
  {
    k <= |b| && k < |a| && b[..k] == a[..k] && (k == |b| || b[k] < a[k])
  }

  /** b comes before a in the alphabet: as a proper beginning of it, or by the first character that differs. */
  ghost predicate Precedes(b: string, a: string)
  {
    exists k: nat :: PrecedesAt(b, a, k)
  }

  lemma PrecedesAtNext(b: string, a: string, k: nat)
    requires b != [] && a != [] && b[0] == a[0]
    ensures PrecedesAt(b, a, k + 1) <==> PrecedesAt(b[1..], a[1..], k)
  {
    if k < |b| && k < |a| {
      assert b[..k + 1] == [b[0]] + b[1..][..k] && a[..k + 1] == [a[0]] + a[1..][..k];
      assert b[1..][..k] == b[..k + 1][1..] && a[1..][..k] == a[..k + 1][1..];
    }
  }

  lemma PrecedesNext(b: string, a: string)
    requires b != [] && a != [] && b[0] == a[0]
    ensures Precedes(b, a) <==> Precedes(b[1..], a[1..])
  {
    assert !PrecedesAt(b, a, 0);
    hide PrecedesAt;
    if Precedes(b[1..], a[1..]) {
      var k: nat :| PrecedesAt(b[1..], a[1..], k);
      PrecedesAtNext(b, a, k);
    }
    if Precedes(b, a) {
      var k: nat :| PrecedesAt(b, a, k);
      PrecedesAtNext(b, a, k - 1);
    }
  }

  lemma PrecedesLater(b: string, a: string, k: nat)
    requires PrecedesAt(b, a, k) && k > 0
    ensures b != [] && a != [] && b[0] == a[0]
  {
    assert b[..k][0] == a[..k][0];
  }

  lemma PrecedesAtOnce(b: string, a: string)
    requires b == [] || a == [] || b[0] != a[0]
    ensures Precedes(b, a) <==> a != [] && (b == [] || b[0] < a[0])
  {
    assert PrecedesAt(b, a, 0) <==> a != [] && (b == [] || b[0] < a[0]);
    hide PrecedesAt;
    if Precedes(b, a) {
      var k: nat :| PrecedesAt(b, a, k);
      if k > 0 {
        PrecedesLater(b, a, k);
      }
    }
  }

  /** What compareTo compares by. */
  lemma {:induction false} StringLeqMeans(b: string, a: string)
    ensures StringLeq(b, a) <==> b == a || Precedes(b, a)
  {
    hide Precedes;
    if b == [] || a == [] || b[0] != a[0] {
      PrecedesAtOnce(b, a);
    } else {
      StringLeqMeans(b[1..], a[1..]);
      PrecedesNext(b, a);
      assert b == [b[0]] + b[1..] && a == [a[0]] + a[1..];
    }
  }

  /** The comparator is a total order on keys, and only equal keys compare as equal. */
  lemma KeyOrder(a: Key, b: Key, c: Key)
    ensures Leq(a, b) || Leq(b, a)
    ensures Leq(a, b) && Leq(b, a) ==> a == b
    ensures Leq(a, b) && Leq(b, c) ==> Leq(a, c)
  {
    StringTotal(a.kind, b.kind);
    if StringLeq(b.kind, a.kind) && StringLeq(c.kind, b.kind) {
      StringTransitive(c.kind, b.kind, a.kind);
    }
  }

  // ---------------------------------------------------------------- stable sorting

  ghost predicate Sorted(s: seq<Event>)
  {
    forall i, j :: 0 <= i < j < |s| ==> Leq(KeyOf(s[i]), KeyOf(s[j]))
  }

  /** Earlier events first; of events of one time, those whose type comes later in the alphabet first. */
  ghost predicate Chronological(s: seq<Event>)
  {
    forall i, j :: 0 <= i < j < |s| ==>
      && s[i].time <= s[j].time
      && (s[i].time == s[j].time && s[i].kind != s[j].kind ==> Precedes(s[j].kind, s[i].kind))
  }

  lemma SortedMeans(s: seq<Event>)
    ensures Sorted(s) <==> Chronological(s)
  {
    forall i, j | 0 <= i < j < |s|
      ensures Leq(KeyOf(s[i]), KeyOf(s[j])) <==>
        s[i].time <= s[j].time && (s[i].time == s[j].time && s[i].kind != s[j].kind ==> Precedes(s[j].kind, s[i].kind))
    {
      hide StringLeq, Precedes;
      StringLeqMeans(s[j].kind, s[i].kind);
    }
  }

  /** The events of one key, in the order they come in. */
  function Filter(s: seq<Event>, k: Key): seq<Event>
  {
    if s == [] then [] else (if KeyOf(s[0]) == k then [s[0]] else []) + Filter(s[1..], k)
  }

  /** A sorted arrangement of s that keeps events of equal keys in order. */
  ghost predicate StableSortOf(r: seq<Event>, s: seq<Event>)
  {
    Sorted(r) && forall k :: Filter(r, k) == Filter(s, k)
  }

  lemma {:induction false} FilterAppend(a: seq<Event>, b: seq<Event>, k: Key)
    ensures Filter(a + b, k) == Filter(a, k) + Filter(b, k)
  {
    if a == [] {
      assert a + b == b;
    } else {
      assert (a + b)[0] == a[0] && (a + b)[1..] == a[1..] + b;
      FilterAppend(a[1..], b, k);
    }
  }

  lemma {:induction false} FilterMember(s: seq<Event>, k: Key)
    ensures Filter(s, k) != [] ==> exists i :: 0 <= i < |s| && KeyOf(s[i]) == k
  {
    if s != [] && KeyOf(s[0]) != k && Filter(s, k) != [] {
      FilterMember(s[1..], k);
      var i :| 0 <= i < |s[1..]| && KeyOf(s[1..][i]) == k;
      assert KeyOf(s[i + 1]) == k;
    }
  }

  lemma HeadLeast(s: seq<Event>, k: Key)
    requires Sorted(s) && Filter(s, k) != []
    ensures s != [] && Leq(KeyOf(s[0]), k)
  {
    FilterMember(s, k);
    KeyOrder(k, k, k);
  }

  /** There is only one stable sort of a list. */
  lemma {:induction false} StableSortUnique(p: seq<Event>, q: seq<Event>)
    requires Sorted(p) && Sorted(q) && forall k :: Filter(p, k) == Filter(q, k)
    ensures p == q
  {
    if p == [] {
      assert q != [] ==> Filter(q, KeyOf(q[0])) == Filter(p, KeyOf(q[0]));
    } else {
      var k := KeyOf(p[0]);
      assert Filter(p, k)[0] == p[0];
      HeadLeast(q, k);
      var k' := KeyOf(q[0]);
      assert Filter(q, k')[0] == q[0];
      assert Filter(p, k') == Filter(q, k');
      HeadLeast(p, k');
      KeyOrder(k, k', k);
      assert p[0] == q[0];
      forall l
        ensures Filter(p[1..], l) == Filter(q[1..], l)
      {
        assert Filter(p, l) == Filter(q, l);
        var one := if k == l then [p[0]] else [];
        assert Filter(p, l) == one + Filter(p[1..], l) && Filter(q, l) == one + Filter(q[1..], l);
        assert Filter(p[1..], l) == Filter(p, l)[|one|..] && Filter(q[1..], l) == Filter(q, l)[|one|..];
      }
      StableSortUnique(p[1..], q[1..]);
      assert p == [p[0]] + p[1..] && q == [q[0]] + q[1..];
    }
  }

  /** e before all events of s that do not come strictly before it. */
  function Place(e: Event, s: seq<Event>): seq<Event>
  {
    if s == [] || Leq(KeyOf(e), KeyOf(s[0])) then [e] + s else [s[0]] + Place(e, s[1..])
  }

  /** What Collections.sort is documented to do with the comparator: a stable sort. */
  function StableSort(s: seq<Event>): seq<Event>
  {
    if s == [] then [] else Place(s[0], StableSort(s[1..]))
  }

  lemma {:induction false} PlaceBag(e: Event, s: seq<Event>)
    ensures multiset(Place(e, s)) == multiset{e} + multiset(s)
  {
    if s != [] && !Leq(KeyOf(e), KeyOf(s[0])) {
      PlaceBag(e, s[1..]);
      assert s == [s[0]] + s[1..];
    }
  }

  lemma {:induction false} PlaceFilter(e: Event, s: seq<Event>, k: Key)
    requires Sorted(s)
    ensures Filter(Place(e, s), k) == Filter([e], k) + Filter(s, k)
  {
    if s == [] || Leq(KeyOf(e), KeyOf(s[0])) {
      FilterAppend([e], s, k);
    } else {
      PlaceFilter(e, s[1..], k);
      var rest := Place(e, s[1..]);
      assert ([s[0]] + rest)[1..] == rest;
      if KeyOf(s[0]) == k {
        KeyOrder(k, k, k);
        assert KeyOf(e) != k;
      }
    }
  }

  lemma {:induction false} PlaceSorted(e: Event, s: seq<Event>)
    requires Sorted(s)
    ensures Sorted(Place(e, s))
  {
    var r := Place(e, s);
    if s == [] || Leq(KeyOf(e), KeyOf(s[0])) {
      forall j | 0 < j < |r|
        ensures Leq(KeyOf(r[0]), KeyOf(r[j]))
      {
        KeyOrder(KeyOf(e), KeyOf(s[0]), KeyOf(s[j - 1]));
        KeyOrder(KeyOf(e), KeyOf(e), KeyOf(e));
      }
    } else {
      var rest := Place(e, s[1..]);
      PlaceSorted(e, s[1..]);
      PlaceBag(e, s[1..]);
      KeyOrder(KeyOf(e), KeyOf(s[0]), KeyOf(e));
      forall j | 0 <= j < |rest|
        ensures Leq(KeyOf(s[0]), KeyOf(rest[j]))
      {
        assert rest[j] in multiset(rest);
        assert rest[j] != e ==> rest[j] in s[1..];
      }
    }
  }

  /** StableSort sorts, is stable, and neither loses nor duplicates an event. */
  lemma {:induction false} StableSortMeets(s: seq<Event>)
    ensures StableSortOf(StableSort(s), s)
    ensures Chronological(StableSort(s)) && multiset(StableSort(s)) == multiset(s)
  {
    hide Chronological;
    SortedMeans(StableSort(s));
    if s != [] {
      var rest := StableSort(s[1..]);
      StableSortMeets(s[1..]);
      PlaceSorted(s[0], rest);
      PlaceBag(s[0], rest);
      assert s == [s[0]] + s[1..];
      forall k
        ensures Filter(StableSort(s), k) == Filter(s, k)
      {
        PlaceFilter(s[0], rest, k);
        FilterAppend([s[0]], s[1..], k);
      }
    }
  }

  /** Sorting a part of a list beforehand makes no difference. */
  lemma SortedInside(a: seq<Event>, b: seq<Event>, c: seq<Event>)
    ensures StableSort(a + StableSort(b) + c) == StableSort(a + b + c)
  {
    var x, y := a + StableSort(b) + c, a + b + c;
    StableSortMeets(b);
    StableSortMeets(x);
    StableSortMeets(y);
    forall k
      ensures Filter(StableSort(x), k) == Filter(StableSort(y), k)
    {
      FilterAppend(a + StableSort(b), c, k);
      FilterAppend(a, StableSort(b), k);
      FilterAppend(a + b, c, k);
      FilterAppend(a, b, k);
      assert Filter(StableSort(x), k) == Filter(x, k) && Filter(StableSort(y), k) == Filter(y, k);
      assert Filter(StableSort(b), k) == Filter(b, k);
    }
    StableSortUnique(StableSort(x), StableSort(y));
  }
}
