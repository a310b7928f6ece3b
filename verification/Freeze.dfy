/** The deep freeze that keeps an anomaly detector from rewriting what it was shown: a
    depth-first walk over the own properties of an object graph that may share parts and
    may have cycles. */
module Freeze {

  datatype Value = Primitive | Ref(node: Node)

  class Node {
    var frozen: bool
    /** The values of the own string-named properties, in order. */
    var props: seq<Value>
  }

  predicate IsChild(parent: Node, child: Node)
    reads parent`props
  {
    Ref(child) in parent.props
  }

  /** No property leads out of the set. */
  ghost predicate Closed(nodes: set<Node>)
    reads nodes`props
  {
    forall n, v :: n in nodes && v in n.props && v.Ref? ==> v.node in nodes
  }

  /** The objects at most `steps` properties away from the root. */
  ghost function Within(root: Node, heap: set<Node>, steps: nat): (r: set<Node>)
    requires root in heap
    reads heap`props
    ensures root in r && r <= heap
  {
    if steps == 0 then {root}
    else
      var near := Within(root, heap, steps - 1);
      near + set n, m | m in near && n in heap && IsChild(m, n) :: n
  }

  ghost function Reachable(root: Node, heap: set<Node>): (r: set<Node>)
    requires root in heap
    reads heap`props
    ensures root in r && r <= heap
  {
    assert root in Within(root, heap, 0);
    set n | n in heap && exists steps: nat :: n in Within(root, heap, steps)
  }

  lemma ReachableIsClosed(root: Node, heap: set<Node>)
    requires root in heap && Closed(heap)
    ensures Closed(Reachable(root, heap))
  {
    forall n, v | n in Reachable(root, heap) && v in n.props && v.Ref?
      ensures v.node in Reachable(root, heap)
    {
      var steps: nat :| n in Within(root, heap, steps);
      assert IsChild(n, v.node);
      assert v.node in Within(root, heap, steps + 1);
    }
  }

  /** Nothing smaller than the reachable objects contains the root and is closed. */
  lemma {:induction false} ReachableIsLeast(root: Node, heap: set<Node>, nodes: set<Node>, steps: nat)
    requires root in heap && root in nodes && Closed(nodes)
    ensures Within(root, heap, steps) <= nodes
  {
    if steps > 0 {
      ReachableIsLeast(root, heap, nodes, steps - 1);
    }
  }

  class Freezer {
    var seen: set<Node>

    constructor ()
      ensures seen == {}
    {
      seen := {};
    }

    /** One visit: freezes what it sees for the first time, and leaves nothing seen with an
        unseen child except what was already being visited. `closed` is any set the walk
        cannot leave. The unseen objects are what gets fewer at each level. */
    method Walk(value: Value, ghost heap: set<Node>, ghost closed: set<Node>)
      requires Closed(heap) && Closed(closed) && seen <= heap
      requires value.Ref? ==> value.node in heap && value.node in closed
      modifies this, heap`frozen
      ensures old(seen) <= seen <= heap
      ensures seen <= old(seen) + closed
      ensures value.Ref? ==> value.node in seen
      ensures forall n, v :: n in seen - old(seen) && v in n.props && v.Ref? ==> v.node in seen
      ensures forall n :: n in heap ==> (n.frozen <==> old(n.frozen) || n in seen - old(seen))
      decreases heap - seen, 0
    {
      if value.Primitive? {
        return;
      }
      if value.node in seen {
        return;
      }
      seen := seen + {value.node};
      value.node.frozen := true;
      WalkProps(value.node, heap, closed);
    }

    method WalkProps(node: Node, ghost heap: set<Node>, ghost closed: set<Node>)
      requires Closed(heap) && Closed(closed) && seen <= heap
      requires node in seen && node in closed
      modifies this, heap`frozen
      ensures old(seen) <= seen <= heap
      ensures seen <= old(seen) + closed
      ensures forall v :: v in node.props && v.Ref? ==> v.node in seen
      ensures forall n, v :: n in seen - old(seen) && v in n.props && v.Ref? ==> v.node in seen
      ensures forall n :: n in heap ==> (n.frozen <==> old(n.frozen) || n in seen - old(seen))
      decreases heap - seen, 1
    {
      var i := 0;
      while i < |node.props|
        invariant i <= |node.props|
        invariant old(seen) <= seen <= heap
        invariant seen <= old(seen) + closed
        invariant forall k :: 0 <= k < i && node.props[k].Ref? ==> node.props[k].node in seen
        invariant forall n, v :: n in seen - old(seen) && v in n.props && v.Ref? ==> v.node in seen
        invariant forall n :: n in heap ==> (n.frozen <==> old(n.frozen) || n in seen - old(seen))
        decreases |node.props| - i
      {
        Walk(node.props[i], heap, closed);
        i := i + 1;
      }
    }
  }

  /** After the freeze exactly the objects reachable from the observation are frozen, besides
      those that already were; no property changed; and it ends on any finite graph, cyclic
      or not. An object frozen beforehand is still walked through. */
  method FreezeObservation(observation: Node, ghost heap: set<Node>) returns (r: Node)
    requires observation in heap && Closed(heap)
    modifies heap`frozen
    ensures r == observation
    ensures forall n :: n in heap ==> (n.frozen <==> old(n.frozen) || n in Reachable(observation, heap))
    ensures Reachable(observation, heap) == old(Reachable(observation, heap))
  {
    var freezer := new Freezer();
    ghost var reachable := Reachable(observation, heap);
    ReachableIsClosed(observation, heap);
    freezer.Walk(Ref(observation), heap, reachable);
    assert Reachable(observation, heap) == reachable;
    assert freezer.seen == reachable by {
      forall n | n in reachable ensures n in freezer.seen {
        assert n in Reachable(observation, heap);
        var steps: nat :| n in Within(observation, heap, steps);
        ReachableIsLeast(observation, heap, freezer.seen, steps);
      }
    }
    r := observation;
  }

  /** In particular nothing the observation leads to is left for a detector to change. */
  method FrozenThroughEveryProperty(observation: Node, ghost heap: set<Node>)
    requires observation in heap && Closed(heap)
    modifies heap`frozen
    ensures observation.frozen
    ensures forall n, m :: n in Reachable(observation, heap) && m in heap && IsChild(n, m) ==> m.frozen
  {
    var _ := FreezeObservation(observation, heap);
    ReachableIsClosed(observation, heap);
  }
}
