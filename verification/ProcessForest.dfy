/**
 ProcessStateChange.java and StateChangeHandler.java as they are: nodes that events are hung under in
 place, and the handler's list of trees. What they build is the forest of ProcessTrees.
 */
module ProcessForest {
  import opened Basics
  import opened StateChanges
  import opened ProcessTrees

  /** What addStateChange is called with: an object change, or a process with nothing under it yet. */
  datatype StateChange = ObjectChange(change: Event) | ProcessChange(node: ProcessStateChange)

  function EventOf(sc: StateChange): Event
  {
    if sc.ObjectChange? then sc.change else sc.node.event
  }

  /** The node a state change brings into the forest. */
  ghost function Brought(sc: StateChange): set<ProcessStateChange>
  {
    if sc.ProcessChange? then {sc.node} else {}
  }

  ghost predicate Fits(sc: StateChange, repr: set<ProcessStateChange>)
    reads Brought(sc)
  {
    if sc.ObjectChange? then
      sc.change.Object?
    else
      sc.node !in repr && sc.node.event.Process? && sc.node.Repr == {sc.node}
      && sc.node.Valid() && sc.node.tree == Leaf(sc.node.event)
  }

  /** The nodes are the roots of these trees; the trees lie apart and within `repr`. */
  ghost predicate Rooted(ps: seq<ProcessStateChange>, ts: seq<Tree>, repr: set<ProcessStateChange>)
    reads repr
    decreases repr, 1
  {
    && |ps| == |ts|
    && (forall i :: 0 <= i < |ps| ==> ps[i] in repr && ps[i].Repr <= repr && ps[i].Valid() && ps[i].tree == ts[i])
    && (forall i, j :: 0 <= i < j < |ps| ==> ps[i].Repr !! ps[j].Repr)
  }

  class ProcessStateChange {
    const event: Event
    var stateChanges: seq<Event>
    var childProcesses: seq<ProcessStateChange>
    ghost var Repr: set<ProcessStateChange>
    ghost var tree: Tree

    ghost predicate Valid()
      reads this, Repr
      decreases Repr, 0
    {
      && this in Repr
      && tree.event == event && tree.objects == stateChanges
      && Rooted(childProcesses, tree.children, Repr - {this})
    }

    constructor (event: Event)
      requires event.Process?
      ensures Valid() && this.event == event && tree == Leaf(event) && Repr == {this}
    {
      this.event := event;
      stateChanges, childProcesses := [], [];
      tree, Repr := Leaf(event), {this};
    }

    /** Hang the state change under the first process in pre-order it belongs to, if there is one. */
    method AddStateChange(sc: StateChange) returns (added: bool)
      requires Valid() && Fits(sc, Repr)
      modifies Repr
      ensures added == Insert(old(tree), EventOf(sc)).Some?
      ensures added ==> Valid() && Insert(old(tree), EventOf(sc)) == Some(tree) && Repr == old(Repr) + Brought(sc)
      ensures !added ==> forall p :: p in old(Repr) ==> unchanged(p)
      decreases Repr, 0
    {
      hide InsertIn;
      if sc.ObjectChange? && sc.change.processId == event.processId {
        stateChanges := stateChanges + [sc.change];
        tree := Attach(tree, sc.change);
        return true;
      }
      if sc.ProcessChange? && sc.node.event.parentId == event.processId {
        childProcesses := childProcesses + [sc.node];
        tree := Attach(tree, sc.node.event);
        Repr := Repr + {sc.node};
        return true;
      }
      added := AddToFirst(childProcesses, tree.children, Repr - {this}, sc);
      if added {
        tree := tree.(children := InsertIn(tree.children, EventOf(sc)).value);
        Repr := Repr + Brought(sc);
      }
    }

    /** All events of the tree, sorted at this level after having been sorted at every level below. */
    method GetAllStateChanges() returns (allStateChanges: seq<Event>)
      requires Valid()
      ensures allStateChanges == AllStateChanges(tree)
      ensures Chronological(allStateChanges) && multiset(allStateChanges) == Bag([tree])
      decreases Repr
    {
      hide StableSort, Chronological, Bag;
      allStateChanges := stateChanges;
      for i := 0 to |childProcesses|
        invariant allStateChanges == stateChanges + ChildStateChanges(tree.children[..i])
      {
        var changes := childProcesses[i].GetAllStateChanges();
        allStateChanges := allStateChanges + changes;
        ChildrenUpTo(tree.children, i);
      }
      assert tree.children[..|childProcesses|] == tree.children;
      allStateChanges := allStateChanges + [event];
      allStateChanges := StableSort(allStateChanges);
      AllStateChangesComplete(tree);
    }
  }

  lemma {:induction false} ChildrenAppend(a: seq<Tree>, b: seq<Tree>)
    ensures ChildStateChanges(a + b) == ChildStateChanges(a) + ChildStateChanges(b)
  {
    if a == [] {
      assert a + b == b;
    } else {
      assert (a + b)[0] == a[0] && (a + b)[1..] == a[1..] + b;
      ChildrenAppend(a[1..], b);
    }
  }

  lemma ChildrenUpTo(ts: seq<Tree>, i: nat)
    requires i < |ts|
    ensures ChildStateChanges(ts[..i + 1]) == ChildStateChanges(ts[..i]) + AllStateChanges(ts[i])
  {
    assert ts[..i + 1] == ts[..i] + [ts[i]];
    ChildrenAppend(ts[..i], [ts[i]]);
    assert [ts[i]][1..] == [];
  }

  lemma {:induction false} FirstThatTakes(ts: seq<Tree>, e: Event, i: nat)
    requires i <= |ts| && forall j :: 0 <= j < i ==> Insert(ts[j], e) == None
    ensures i == |ts| ==> InsertIn(ts, e) == None
    ensures i < |ts| && Insert(ts[i], e).Some? ==> InsertIn(ts, e) == Some(ts[i := Insert(ts[i], e).value])
    decreases i
  {
    if i > 0 {
      var rest := ts[1..];
      assert forall j :: 0 <= j < i - 1 ==> rest[j] == ts[j + 1];
      FirstThatTakes(rest, e, i - 1);
      if i < |ts| && Insert(ts[i], e).Some? {
        var t := Insert(ts[i], e).value;
        assert [ts[0]] + rest[i - 1 := t] == ts[i := t];
      }
    } else if ts != [] && Insert(ts[0], e).Some? {
      var t := Insert(ts[0], e).value;
      assert [t] + ts[1..] == ts[0 := t];
    }
  }

  /** The loop over trees that addStateChange of nodes and of the handler share. */
  method AddToFirst(ps: seq<ProcessStateChange>, ghost ts: seq<Tree>, ghost repr: set<ProcessStateChange>, sc: StateChange)
    returns (added: bool)
    requires Rooted(ps, ts, repr) && Fits(sc, repr)
    modifies repr
    ensures added == InsertIn(ts, EventOf(sc)).Some?
    ensures added ==> Rooted(ps, InsertIn(ts, EventOf(sc)).value, repr + Brought(sc))
    ensures !added ==> forall p :: p in repr ==> unchanged(p)
    decreases repr, 1
  {
    hide Insert, InsertIn;
    for i := 0 to |ps|
      invariant forall p :: p in repr ==> unchanged(p)
      invariant forall j :: 0 <= j < i ==> Insert(ts[j], EventOf(sc)) == None
    {
      var p := ps[i];
      added := p.AddStateChange(sc);
      if added {
        FirstThatTakes(ts, EventOf(sc), i);
        return;
      }
    }
    FirstThatTakes(ts, EventOf(sc), |ps|);
    return false;
  }

  class StateChangeHandler {
    var processTrees: seq<ProcessStateChange>
    ghost var forest: seq<Tree>
    ghost var Repr: set<ProcessStateChange>

    ghost predicate Valid()
      reads this, Repr
    {
      Rooted(processTrees, forest, Repr)
    }

    constructor ()
      ensures Valid() && forest == [] && Repr == {}
    {
      processTrees, forest, Repr := [], [], {};
    }

    /** The tree for an object change whose process is not known. */
    method NewTree(sc: StateChange) returns (newPsc: ProcessStateChange)
      requires sc.ObjectChange? && sc.change.Object?
      ensures fresh(newPsc) && newPsc.Valid() && newPsc.Repr == {newPsc}
      ensures newPsc.tree == Tree(Root(sc.change), [sc.change], []) && MadeFor(newPsc.tree, sc.change)
    {
      var e := sc.change;
      newPsc := new ProcessStateChange(Process("process", e.time, 0, "CaptureClient.exe", "created", e.processId, e.process));
      assert [] + [e] == [e];
      var added := newPsc.AddStateChange(sc);
    }

    /** Every state change is accepted, and hung where the forest of ProcessTrees has it. */
    method AddStateChange(sc: StateChange) returns (added: bool)
      requires Valid() && Fits(sc, Repr)
      modifies this, Repr
      ensures Valid() && added
      ensures forest == Handle(old(forest), EventOf(sc))
      ensures fresh(Repr - old(Repr) - Brought(sc)) && old(Repr) + Brought(sc) <= Repr
    {
      hide InsertIn, Insert, Leaf, Root;
      added := AddToFirst(processTrees, forest, Repr, sc);
      var e := EventOf(sc);
      if added {
        forest, Repr := InsertIn(forest, e).value, Repr + Brought(sc);
      } else if sc.ProcessChange? {
        processTrees := processTrees + [sc.node];
        forest, Repr := forest + [Leaf(e)], Repr + {sc.node};
        added := true;
      } else {
        var newPsc := NewTree(sc);
        added := true;
        processTrees := processTrees + [newPsc];
        forest, Repr := forest + [newPsc.tree], Repr + {newPsc};
      }
    }
  }
}
