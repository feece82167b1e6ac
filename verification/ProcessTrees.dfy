/**
 The forest of processes that StateChangeHandler builds, as values: where an event is hung, what the
 forest then holds, and the list getAllStateChanges makes of a tree.
 */
module ProcessTrees {
  import opened Basics
  import opened StateChanges

  /** A ProcessStateChange with what has been hung under it. */
  datatype Tree = Tree(event: Event, objects: seq<Event>, children: seq<Tree>)

  /** The process id an event looks for: an object change its process, a process its parent. */
  function Target(e: Event): int
  {
    if e.Object? then e.processId else e.parentId
  }

  function Leaf(e: Event): Tree
  {
    Tree(e, [], [])
  }

  function Attach(t: Tree, e: Event): Tree
  {
    if e.Object? then t.(objects := t.objects + [e]) else t.(children := t.children + [Leaf(e)])
  }

  /** ProcessStateChange.addStateChange; None if the event was not taken. */
  function Insert(t: Tree, e: Event): Option<Tree>
    decreases t
  {
    if t.event.processId == Target(e) then
      Some(Attach(t, e))
    else
      match InsertIn(t.children, e)
      case Some(children) => Some(t.(children := children))
      case None => None
  }

  /** The loop over trees, in addStateChange of a node as of the handler: the first that takes the event. */
  function InsertIn(ts: seq<Tree>, e: Event): Option<seq<Tree>>
    decreases ts
  {
    if ts == [] then
      None
    else
      match Insert(ts[0], e)
      case Some(t) => Some([t] + ts[1..])
      case None =>
        match InsertIn(ts[1..], e)
        case Some(rest) => Some([ts[0]] + rest)
        case None => None
  }

  /** The process made up for an object change of a process nothing is known of. */
  function Root(e: Event): Event
  {
    Process("process", e.time, 0, "CaptureClient.exe", "created", e.processId, e.process)
  }

  /** StateChangeHandler.addStateChange on the forest. */
  function Handle(ts: seq<Tree>, e: Event): seq<Tree>
  {
    match InsertIn(ts, e)
    case Some(ts') => ts'
    case None => if e.Process? then ts + [Leaf(e)] else ts + [Tree(Root(e), [e], [])]
  }

  /**
   The tree made for an event that no process of the forest takes: of the process itself, or of a process
   made up from what the object change says of it, started by the client when the change happened.
   */
  predicate MadeFor(t: Tree, e: Event)
  {
    && t.children == []
    && if e.Process? then
         t.event == e && t.objects == []
       else
         && t.objects == [e] && t.event.Process?
         && t.event.processId == e.processId && t.event.process == e.process && t.event.time == e.time
         && t.event.parentId == 0 && t.event.parent == "CaptureClient.exe"
         && t.event.kind == "process" && t.event.action == "created"
  }

  // ---------------------------------------------------------------- where an event ends up

  /** The process ids of a forest in pre-order. */
  function Pids(ts: seq<Tree>): seq<int>
  {
    if ts == [] then [] else [ts[0].event.processId] + Pids(ts[0].children) + Pids(ts[1..])
  }

  /** The forest with e hung under its k-th node in pre-order. */
  function AttachAt(ts: seq<Tree>, k: nat, e: Event): seq<Tree>
    requires k < |Pids(ts)|
    decreases ts
  {
    var below := |Pids(ts[0].children)|;
    if k == 0 then
      [Attach(ts[0], e)] + ts[1..]
    else if k <= below then
      [ts[0].(children := AttachAt(ts[0].children, k - 1, e))] + ts[1..]
    else
      [ts[0]] + AttachAt(ts[1..], k - 1 - below, e)
  }

  predicate IsFirst(pids: seq<int>, k: nat, x: int)
  {
    k < |pids| && pids[k] == x && forall j :: 0 <= j < k ==> pids[j] != x
  }

  /** Nothing in the forest takes an event whose process is not in it. */
  lemma {:induction false} NoMatch(ts: seq<Tree>, e: Event)
    requires Target(e) !in Pids(ts)
    ensures InsertIn(ts, e) == None
    decreases ts
  {
    if ts != [] {
      assert ts[0].event.processId in Pids(ts);
      NoMatch(ts[0].children, e);
      NoMatch(ts[1..], e);
    }
  }

  /** Where the first match lies, in terms of the first tree, its children and the other trees. */
  lemma FirstParts(ts: seq<Tree>, k: nat, x: int)
    requires ts != [] && IsFirst(Pids(ts), k, x)
    ensures var below, rest := Pids(ts[0].children), Pids(ts[1..]);
      && (k == 0 <==> ts[0].event.processId == x)
      && (0 < k <= |below| ==> IsFirst(below, k - 1, x))
      && (k > |below| ==> x !in below && IsFirst(rest, k - 1 - |below|, x))
  {
    var head, below, rest := [ts[0].event.processId], Pids(ts[0].children), Pids(ts[1..]);
    hide IsFirst;
    FirstOfTwo(head + below, rest, k, x);
    if k <= |below| {
      FirstOfTwo(head, below, k, x);
    } else {
      assert x !in head + below;
      assert forall y :: y in below ==> y in head + below;
      assert head[0] in head + below;
    }
    if k == 0 {
      FirstAtZero(head, x);
    }
  }

  lemma FirstAtZero(pids: seq<int>, x: int)
    requires IsFirst(pids, 0, x)
    ensures pids[0] == x
  {
  }

  lemma FirstOfTwo(a: seq<int>, b: seq<int>, k: nat, x: int)
    requires IsFirst(a + b, k, x)
    ensures k < |a| ==> IsFirst(a, k, x)
    ensures k >= |a| ==> x !in a && IsFirst(b, k - |a|, x)
  {
    var s := a + b;
    forall j | 0 <= j < |a| && j < k
      ensures a[j] != x
    {
      assert s[j] == a[j];
    }
    forall j | 0 <= j < k - |a|
      ensures b[j] != x
    {
      assert s[j + |a|] == b[j];
    }
  }

  /** An event is hung under the first node in pre-order with the process id it looks for. */
  lemma {:induction false} FirstMatch(ts: seq<Tree>, e: Event, k: nat)
    requires IsFirst(Pids(ts), k, Target(e))
    ensures InsertIn(ts, e) == Some(AttachAt(ts, k, e))
    decreases ts
  {
    var below := |Pids(ts[0].children)|;
    FirstParts(ts, k, Target(e));
    hide Pids;
    if 0 < k <= below {
      FirstMatch(ts[0].children, e, k - 1);
    } else if k > below {
      NoMatch(ts[0].children, e);
      FirstMatch(ts[1..], e, k - 1 - below);
    }
  }

  function FirstIndex(pids: seq<int>, x: int): (k: nat)
    requires x in pids
    ensures IsFirst(pids, k, x)
  {
    if pids[0] == x then 0 else 1 + FirstIndex(pids[1..], x)
  }

  /** Where addStateChange of the handler puts any event, in every case. */
  lemma HandlePlaces(ts: seq<Tree>, e: Event)
    ensures Target(e) in Pids(ts) ==> Handle(ts, e) == AttachAt(ts, FirstIndex(Pids(ts), Target(e)), e)
    ensures Target(e) !in Pids(ts) ==>
      Handle(ts, e) == ts + [if e.Process? then Leaf(e) else Tree(Root(e), [e], [])]
    ensures Target(e) !in Pids(ts) ==> MadeFor(Handle(ts, e)[|ts|], e)
  {
    if Target(e) in Pids(ts) {
      FirstMatch(ts, e, FirstIndex(Pids(ts), Target(e)));
    } else {
      NoMatch(ts, e);
    }
  }

  // ---------------------------------------------------------------- events hang where they belong

  /** Object changes hang under their process, processes under their parent. */
  predicate Proper(ts: seq<Tree>)
  {
    ts != [] ==>
    && ts[0].event.Process?
    && (forall o :: o in ts[0].objects ==> o.Object? && o.processId == ts[0].event.processId)
    && (forall c :: c in ts[0].children ==> c.event.Process? && c.event.parentId == ts[0].event.processId)
    && Proper(ts[0].children)
    && Proper(ts[1..])
  }

  lemma {:induction false} ProperAppend(a: seq<Tree>, b: seq<Tree>)
    requires Proper(a) && Proper(b)
    ensures Proper(a + b)
  {
    if a == [] {
      assert a + b == b;
    } else {
      assert (a + b)[0] == a[0] && (a + b)[1..] == a[1..] + b;
      ProperAppend(a[1..], b);
    }
  }

  lemma ProperOne(t: Tree, rest: seq<Tree>)
    requires Proper([t]) && Proper(rest)
    ensures Proper([t] + rest)
  {
    ProperAppend([t], rest);
  }

  lemma {:induction false} AttachProper(t: Tree, e: Event)
    requires Proper([t]) && t.event.processId == Target(e)
    ensures Proper([Attach(t, e)])
  {
    if e.Process? {
      ProperAppend(t.children, [Leaf(e)]);
    }
    assert [Attach(t, e)][1..] == [];
  }

  /** Events of a forest's trees are kept by an insertion: only the node that takes the event changes. */
  lemma {:induction false} InsertProper(ts: seq<Tree>, e: Event)
    requires Proper(ts) && InsertIn(ts, e).Some?
    ensures Proper(InsertIn(ts, e).value)
    ensures |InsertIn(ts, e).value| == |ts| && forall i :: 0 <= i < |ts| ==> InsertIn(ts, e).value[i].event == ts[i].event
    decreases ts
  {
    var t, rest, ts' := ts[0], ts[1..], InsertIn(ts, e).value;
    assert [t][1..] == [] && Proper([t]);
    if Insert(t, e).Some? {
      var t' := Insert(t, e).value;
      assert ts'[1..] == rest;
      if t.event.processId == Target(e) {
        AttachProper(t, e);
      } else {
        InsertProper(t.children, e);
        forall c | c in t'.children
          ensures c.event.Process? && c.event.parentId == t.event.processId
        {
          var i :| 0 <= i < |t'.children| && t'.children[i] == c;
          assert t.children[i] in t.children;
        }
        assert [t'][1..] == [];
      }
      ProperOne(t', rest);
    } else {
      InsertProper(rest, e);
      ProperOne(t, ts'[1..]);
      assert ts' == [t] + ts'[1..];
    }
  }

  lemma HandleKeepsProper(ts: seq<Tree>, e: Event)
    requires Proper(ts)
    ensures Proper(Handle(ts, e))
  {
    if InsertIn(ts, e).Some? {
      InsertProper(ts, e);
    } else {
      var t := if e.Process? then Leaf(e) else Tree(Root(e), [e], []);
      assert [t][1..] == [];
      ProperAppend(ts, [t]);
    }
  }

  // ---------------------------------------------------------------- what a forest holds

  function Bag(ts: seq<Tree>): multiset<Event>
  {
    if ts == [] then multiset{}
    else multiset(ts[0].objects) + Bag(ts[0].children) + multiset{ts[0].event} + Bag(ts[1..])
  }

  lemma {:induction false} BagAppend(a: seq<Tree>, b: seq<Tree>)
    ensures Bag(a + b) == Bag(a) + Bag(b)
  {
    if a == [] {
      assert a + b == b;
    } else {
      assert (a + b)[0] == a[0] && (a + b)[1..] == a[1..] + b;
      BagAppend(a[1..], b);
    }
  }

  lemma BagOne(t: Tree)
    ensures Bag([t]) == multiset(t.objects) + Bag(t.children) + multiset{t.event}
  {
    assert [t][1..] == [];
  }

  lemma AttachBag(t: Tree, e: Event)
    ensures Bag([Attach(t, e)]) == Bag([t]) + multiset{e}
  {
    BagOne(t);
    BagOne(Attach(t, e));
    BagOne(Leaf(e));
    if e.Process? {
      BagAppend(t.children, [Leaf(e)]);
    }
  }

  lemma BagCons(t: Tree, rest: seq<Tree>)
    ensures Bag([t] + rest) == Bag([t]) + Bag(rest)
  {
    BagAppend([t], rest);
  }

  lemma {:induction false} InsertBag(ts: seq<Tree>, e: Event)
    requires InsertIn(ts, e).Some?
    ensures Bag(InsertIn(ts, e).value) == Bag(ts) + multiset{e}
    decreases ts
  {
    hide Bag, Attach;
    var t, rest := ts[0], ts[1..];
    assert ts == [t] + rest;
    BagCons(t, rest);
    if Insert(t, e).Some? {
      var t' := Insert(t, e).value;
      BagCons(t', rest);
      if t.event.processId == Target(e) {
        AttachBag(t, e);
      } else {
        InsertBag(t.children, e);
        BagOne(t);
        BagOne(t');
      }
    } else {
      InsertBag(rest, e);
      BagCons(t, InsertIn(rest, e).value);
    }
  }

  /** The made-up process an event brings along, if any. */
  function Roots(ts: seq<Tree>, e: Event): seq<Event>
  {
    if e.Object? && e.processId !in Pids(ts) then [Root(e)] else []
  }

  /** The forest grows by exactly the event, and by one made-up process if its own is unknown. */
  lemma HandleBag(ts: seq<Tree>, e: Event)
    ensures Bag(Handle(ts, e)) == Bag(ts) + multiset{e} + multiset(Roots(ts, e))
  {
    if Target(e) in Pids(ts) {
      FirstMatch(ts, e, FirstIndex(Pids(ts), Target(e)));
      InsertBag(ts, e);
    } else {
      NoMatch(ts, e);
      var t := if e.Process? then Leaf(e) else Tree(Root(e), [e], []);
      BagAppend(ts, [t]);
      BagOne(t);
    }
  }

  function HandleAll(ts: seq<Tree>, es: seq<Event>): seq<Tree>
    decreases |es|
  {
    if es == [] then ts else HandleAll(Handle(ts, es[0]), es[1..])
  }

  function AllRoots(ts: seq<Tree>, es: seq<Event>): seq<Event>
    decreases |es|
  {
    if es == [] then [] else Roots(ts, es[0]) + AllRoots(Handle(ts, es[0]), es[1..])
  }

  /** After any sequence of events each has its place, none is lost, and only made-up processes are added. */
  lemma {:induction false} HandleAllKeeps(ts: seq<Tree>, es: seq<Event>)
    requires Proper(ts)
    ensures Proper(HandleAll(ts, es))
    ensures Bag(HandleAll(ts, es)) == Bag(ts) + multiset(es) + multiset(AllRoots(ts, es))
    decreases |es|
  {
    hide Proper, Handle, Bag, Roots;
    if es != [] {
      HandleKeepsProper(ts, es[0]);
      HandleBag(ts, es[0]);
      HandleAllKeeps(Handle(ts, es[0]), es[1..]);
      assert es == [es[0]] + es[1..];
    }
  }

  lemma {:induction false} PidsAppend(a: seq<Tree>, b: seq<Tree>)
    ensures Pids(a + b) == Pids(a) + Pids(b)
  {
    if a == [] {
      assert a + b == b;
    } else {
      assert (a + b)[0] == a[0] && (a + b)[1..] == a[1..] + b;
      PidsAppend(a[1..], b);
    }
  }

  lemma {:induction false} InsertKeepsPids(ts: seq<Tree>, e: Event, x: int)
    requires InsertIn(ts, e).Some? && x in Pids(ts)
    ensures x in Pids(InsertIn(ts, e).value)
    decreases ts
  {
    var t, rest := ts[0], ts[1..];
    if Insert(t, e).Some? {
      var t' := Insert(t, e).value;
      assert InsertIn(ts, e).value[1..] == rest;
      if x in Pids(t.children) {
        if t.event.processId != Target(e) {
          InsertKeepsPids(t.children, e, x);
        } else if e.Process? {
          PidsAppend(t.children, [Leaf(e)]);
        }
      }
    } else {
      var rest' := InsertIn(rest, e).value;
      assert ([t] + rest')[1..] == rest';
      if x in Pids(rest) {
        InsertKeepsPids(rest, e, x);
      }
    }
  }

  lemma HandleKeepsPids(ts: seq<Tree>, e: Event, x: int)
    requires x in Pids(ts) || (e.Object? && x == e.processId)
    ensures x in Pids(Handle(ts, e))
  {
    if Target(e) !in Pids(ts) {
      NoMatch(ts, e);
      var t := if e.Process? then Leaf(e) else Tree(Root(e), [e], []);
      PidsAppend(ts, [t]);
      assert Pids([t])[0] == t.event.processId;
    } else {
      FirstMatch(ts, e, FirstIndex(Pids(ts), Target(e)));
      InsertKeepsPids(ts, e, x);
    }
  }

  /** No process that is known, made up or not, is ever made up again. */
  lemma {:induction false} RootsAreNew(ts: seq<Tree>, es: seq<Event>, x: int)
    requires x in Pids(ts)
    ensures forall r :: r in AllRoots(ts, es) ==> r.processId != x
    decreases |es|
  {
    if es != [] {
      HandleKeepsPids(ts, es[0], x);
      RootsAreNew(Handle(ts, es[0]), es[1..], x);
    }
  }

  /** No two of these processes have the same id. */
  predicate DistinctIds(rs: seq<Event>)
  {
    rs != [] ==> (forall r :: r in rs[1..] ==> r.processId != rs[0].processId) && DistinctIds(rs[1..])
  }

  /** Over any sequence of events at most one process is made up for a process id. */
  lemma {:induction false} RootsDistinct(ts: seq<Tree>, es: seq<Event>)
    ensures DistinctIds(AllRoots(ts, es))
    decreases |es|
  {
    if es != [] {
      var e, ts' := es[0], Handle(ts, es[0]);
      var first, rest := Roots(ts, e), AllRoots(ts', es[1..]);
      RootsDistinct(ts', es[1..]);
      if first != [] {
        HandleKeepsPids(ts, e, e.processId);
        RootsAreNew(ts', es[1..], e.processId);
        assert (first + rest)[1..] == rest;
      } else {
        assert first + rest == rest;
      }
    }
  }

  // ---------------------------------------------------------------- events stay in the order they came in

  /** The events occur among the others in this order. */
  ghost predicate Subsequence(xs: seq<Event>, es: seq<Event>)
    decreases |es|
  {
    xs == []
    || (es != [] && (Subsequence(xs, es[..|es| - 1])
                     || (xs[|xs| - 1] == es[|es| - 1] && Subsequence(xs[..|xs| - 1], es[..|es| - 1]))))
  }

  lemma SubsequenceMore(xs: seq<Event>, es: seq<Event>, e: Event)
    requires Subsequence(xs, es)
    ensures Subsequence(xs, es + [e]) && Subsequence(xs + [e], es + [e])
  {
    assert (es + [e])[..|es|] == es && (xs + [e])[..|xs|] == xs;
  }

  function Events(ts: seq<Tree>): (es: seq<Event>)
    ensures |es| == |ts|
  {
    seq(|ts|, i requires 0 <= i < |ts| => ts[i].event)
  }

  /** Under every process its object changes, and the processes it has started, are in the order they came in. */
  ghost predicate InOrder(ts: seq<Tree>, es: seq<Event>)
  {
    ts != [] ==>
    && Subsequence(ts[0].objects, es)
    && Subsequence(Events(ts[0].children), es)
    && InOrder(ts[0].children, es)
    && InOrder(ts[1..], es)
  }

  lemma {:induction false} InOrderMore(ts: seq<Tree>, es: seq<Event>, e: Event)
    requires InOrder(ts, es)
    ensures InOrder(ts, es + [e])
    decreases ts
  {
    hide Subsequence;
    if ts != [] {
      SubsequenceMore(ts[0].objects, es, e);
      SubsequenceMore(Events(ts[0].children), es, e);
      InOrderMore(ts[0].children, es, e);
      InOrderMore(ts[1..], es, e);
    }
  }

  lemma {:induction false} InOrderAppend(a: seq<Tree>, b: seq<Tree>, es: seq<Event>)
    requires InOrder(a, es) && InOrder(b, es)
    ensures InOrder(a + b, es)
  {
    hide Subsequence;
    if a == [] {
      assert a + b == b;
    } else {
      assert (a + b)[0] == a[0] && (a + b)[1..] == a[1..] + b;
      InOrderAppend(a[1..], b, es);
    }
  }

  lemma OneInOrder(t: Tree, es: seq<Event>)
    requires Subsequence(t.objects, es) && Subsequence(Events(t.children), es) && InOrder(t.children, es)
    ensures InOrder([t], es)
  {
    hide Subsequence;
    assert [t][1..] == [];
  }

  lemma LeafInOrder(e: Event, es: seq<Event>)
    ensures InOrder([Leaf(e)], es)
  {
    assert Events([]) == [];
    OneInOrder(Leaf(e), es);
  }

  lemma AttachInOrder(t: Tree, es: seq<Event>, e: Event)
    requires InOrder([t], es)
    ensures InOrder([Attach(t, e)], es + [e])
  {
    hide Subsequence;
    SubsequenceMore(t.objects, es, e);
    SubsequenceMore(Events(t.children), es, e);
    InOrderMore(t.children, es, e);
    if e.Process? {
      assert Events(t.children + [Leaf(e)]) == Events(t.children) + [e];
      LeafInOrder(e, es + [e]);
      InOrderAppend(t.children, [Leaf(e)], es + [e]);
    }
    OneInOrder(Attach(t, e), es + [e]);
  }

  lemma {:induction false} InsertInOrder(ts: seq<Tree>, es: seq<Event>, e: Event)
    requires InOrder(ts, es) && InsertIn(ts, e).Some?
    ensures InOrder(InsertIn(ts, e).value, es + [e])
    ensures Events(InsertIn(ts, e).value) == Events(ts)
    decreases ts
  {
    hide Subsequence, Attach;
    var t, rest, ts' := ts[0], ts[1..], InsertIn(ts, e).value;
    assert [t][1..] == [] && InOrder([t], es);
    AttachKeepsEvent(t, e);
    if Insert(t, e).Some? {
      var t' := Insert(t, e).value;
      assert ts' == [t'] + rest;
      if t.event.processId == Target(e) {
        AttachInOrder(t, es, e);
      } else {
        InsertInOrder(t.children, es, e);
        SubsequenceMore(t.objects, es, e);
        SubsequenceMore(Events(t.children), es, e);
        OneInOrder(t', es + [e]);
      }
      InOrderMore(rest, es, e);
      InOrderAppend([t'], rest, es + [e]);
    } else {
      InsertInOrder(rest, es, e);
      InOrderMore([t], es, e);
      assert ts' == [t] + InsertIn(rest, e).value;
      InOrderAppend([t], InsertIn(rest, e).value, es + [e]);
      EventsOfMore(t, rest, InsertIn(rest, e).value);
      assert ts == [t] + rest;
    }
  }

  lemma AttachKeepsEvent(t: Tree, e: Event)
    ensures Attach(t, e).event == t.event
  {
  }

  lemma EventsOfMore(t: Tree, a: seq<Tree>, b: seq<Tree>)
    requires Events(a) == Events(b)
    ensures Events([t] + a) == Events([t] + b)
  {
    assert forall i :: 0 <= i < |a| ==> Events(a)[i] == a[i].event && Events(b)[i] == b[i].event;
  }

  lemma HandleInOrder(ts: seq<Tree>, es: seq<Event>, e: Event)
    requires InOrder(ts, es)
    ensures InOrder(Handle(ts, e), es + [e])
  {
    hide Subsequence, InsertIn;
    if InsertIn(ts, e).Some? {
      InsertInOrder(ts, es, e);
    } else {
      InOrderMore(ts, es, e);
      LeafInOrder(e, es + [e]);
      if e.Process? {
        InOrderAppend(ts, [Leaf(e)], es + [e]);
      } else {
        assert [] + [e] == [e] && Events([]) == [];
        EmptyFirst(es);
        SubsequenceMore([], es, e);
        OneInOrder(Tree(Root(e), [e], []), es + [e]);
        InOrderAppend(ts, [Tree(Root(e), [e], [])], es + [e]);
      }
    }
  }

  lemma EmptyFirst(es: seq<Event>)
    ensures Subsequence([], es)
  {
  }

  /** Over any sequence of events. */
  lemma {:induction false} HandleAllInOrder(ts: seq<Tree>, before: seq<Event>, es: seq<Event>)
    requires InOrder(ts, before)
    ensures InOrder(HandleAll(ts, es), before + es)
    decreases |es|
  {
    hide InOrder, Handle;
    if es == [] {
      assert before + es == before;
    } else {
      HandleInOrder(ts, before, es[0]);
      HandleAllInOrder(Handle(ts, es[0]), before + [es[0]], es[1..]);
      assert (before + [es[0]]) + es[1..] == before + es;
    }
  }

  // ---------------------------------------------------------------- the list of a tree's events

  /** All events of a tree, unsorted, in the order getAllStateChanges collects them. */
  function Flatten(t: Tree): seq<Event>
    decreases t
  {
    t.objects + FlattenAll(t.children) + [t.event]
  }

  function FlattenAll(ts: seq<Tree>): seq<Event>
    decreases ts
  {
    if ts == [] then [] else Flatten(ts[0]) + FlattenAll(ts[1..])
  }

  /** getAllStateChanges, which sorts at every level of the tree. */
  function AllStateChanges(t: Tree): seq<Event>
    decreases t
  {
    StableSort(t.objects + ChildStateChanges(t.children) + [t.event])
  }

  function ChildStateChanges(ts: seq<Tree>): seq<Event>
    decreases ts
  {
    if ts == [] then [] else AllStateChanges(ts[0]) + ChildStateChanges(ts[1..])
  }

  lemma {:induction false} SortChildren(ts: seq<Tree>, before: seq<Event>, after: seq<Event>)
    ensures StableSort(before + ChildStateChanges(ts) + after) == StableSort(before + FlattenAll(ts) + after)
    decreases ts, 0
  {
    hide StableSort;
    if ts != [] {
      var first, rest := Flatten(ts[0]), ChildStateChanges(ts[1..]);
      OneSort(ts[0]);
      assert before + ChildStateChanges(ts) + after == before + StableSort(first) + (rest + after);
      SortedInside(before, first, rest + after);
      assert before + first + (rest + after) == (before + first) + rest + after;
      SortChildren(ts[1..], before + first, after);
      assert (before + first) + FlattenAll(ts[1..]) + after == before + FlattenAll(ts) + after;
    }
  }

  /** Sorting at every level gives what one stable sort of the whole tree gives. */
  lemma {:induction false} OneSort(t: Tree)
    ensures AllStateChanges(t) == StableSort(Flatten(t))
    decreases t, 1
  {
    SortChildren(t.children, t.objects, [t.event]);
  }

  lemma {:induction false} FlattenBag(ts: seq<Tree>)
    ensures multiset(FlattenAll(ts)) == Bag(ts)
    decreases ts
  {
    if ts != [] {
      FlattenBag(ts[0].children);
      FlattenBag(ts[1..]);
    }
  }

  /** getAllStateChanges lists every event of the tree exactly once, in order of time and then type. */
  lemma AllStateChangesComplete(t: Tree)
    ensures multiset(AllStateChanges(t)) == Bag([t])
    ensures StableSortOf(AllStateChanges(t), Flatten(t))
    ensures Chronological(AllStateChanges(t))
  {
    OneSort(t);
    StableSortMeets(Flatten(t));
    FlattenBag(t.children);
    BagOne(t);
  }

  /** The events of one key in the lists of the trees, tree by tree. */
  function TiesOf(ts: seq<Tree>, k: Key): seq<Event>
  {
    if ts == [] then [] else Filter(AllStateChanges(ts[0]), k) + TiesOf(ts[1..], k)
  }

  lemma {:induction false} FilterChildren(ts: seq<Tree>, k: Key)
    ensures Filter(ChildStateChanges(ts), k) == TiesOf(ts, k)
    decreases ts
  {
    hide AllStateChanges, Filter;
    if ts == [] {
      FilterNone(k);
    } else {
      FilterChildren(ts[1..], k);
      FilterAppend(AllStateChanges(ts[0]), ChildStateChanges(ts[1..]), k);
    }
  }

  lemma FilterNone(k: Key)
    ensures Filter([], k) == []
  {
  }

  /** Events of one time and type: a process's object changes first, then what its children list, child by child, itself last. */
  lemma TiesInTreeOrder(t: Tree, k: Key)
    ensures Filter(AllStateChanges(t), k)
         == Filter(t.objects, k) + TiesOf(t.children, k) + (if t.event.time == k.time && t.event.kind == k.kind then [t.event] else [])
  {
    hide StableSort, Sorted;
    var list := t.objects + ChildStateChanges(t.children) + [t.event];
    StableSortMeets(list);
    FilterAppend(t.objects + ChildStateChanges(t.children), [t.event], k);
    FilterAppend(t.objects, ChildStateChanges(t.children), k);
    FilterChildren(t.children, k);
    assert [t.event][1..] == [];
    assert k == Key(k.time, k.kind);
  }
}
