/**
 The wait queue: an intrusive circular doubly linked list with a sentinel (`Sched::WaitQueue`).

 The ghost sequence `items` is the abstract queue; `Valid` ties the pointers to it.
 */
module WaitQueues {

  /** The part of a thread the queue links through. */
  class Node {
    var next: Node?
    var prev: Node?

    constructor ()
      ensures next == null && prev == null
    {
      next, prev := null, null;
    }
  }

  /** Once round the ring, the sentinel at both ends. */
  ghost function Ring(root: Node, items: seq<Node>): seq<Node> { [root] + items + [root] }

  /** Neighbours point at each other. */
  ghost predicate Link(a: Node, b: Node)
    reads a, b
  {
    a.next == b && b.prev == a
  }

  ghost predicate Linked(ring: seq<Node>)
    reads ring
  {
    forall i :: 0 <= i < |ring| - 1 ==> Link(ring[i], ring[i + 1])
  }

  ghost predicate Distinct(root: Node, items: seq<Node>) {
    root !in items && forall i, j :: 0 <= i < j < |items| ==> items[i] != items[j]
  }

  /** Leaving out either copy of the sentinel, no node is met twice. */
  lemma RingDistinct(root: Node, items: seq<Node>)
    requires Distinct(root, items)
    ensures var ring := Ring(root, items);
            && (forall i, j :: 0 <= i < j < |ring| - 1 ==> ring[i] != ring[j])
            && (forall i, j :: 1 <= i < j < |ring| ==> ring[i] != ring[j])
  {
  }

  lemma DistinctInsert(root: Node, items: seq<Node>, item: Node, at: nat)
    requires Distinct(root, items) && item != root && item !in items && at <= |items|
    ensures Distinct(root, items[..at] + [item] + items[at..])
  {
  }

  lemma DistinctRemove(root: Node, items: seq<Node>, at: nat)
    requires Distinct(root, items) && at < |items|
    ensures Distinct(root, items[..at] + items[at + 1..]) && items[at] !in items[..at] + items[at + 1..]
  {
  }

  class WaitQueue {
    const root: Node
    ghost var items: seq<Node>

    ghost predicate Valid()
      reads this, root, items
    {
      Distinct(root, items) && Linked(Ring(root, items))
    }

    constructor ()
      ensures Valid() && items == [] && fresh(root)
    {
      root := new Node();
      items := [];
      new;
      root.next := root;
      root.prev := root;
    }

    method IsEmpty() returns (b: bool)
      requires Valid()
      ensures b <==> items == []
    {
      assert Link(Ring(root, items)[0], Ring(root, items)[0 + 1]);
      b := root.next == root;
    }

    /** Walks the ring from the sentinel back to the sentinel. */
    method Contains(item: Node) returns (b: bool)
      requires Valid()
      ensures b <==> item in items
    {
      ghost var ring := Ring(root, items);
      ghost var k := 0;
      assert Link(ring[0], ring[0 + 1]);
      var current := root.next;
      while current != root
        invariant 0 <= k <= |items| && current == ring[k + 1]
        invariant item !in items[..k]
        decreases |items| - k
      {
        assert k < |items| && current == items[k];
        if current == item {
          return true;
        }
        assert Link(ring[k + 1], ring[k + 1 + 1]);
        current := current.next;
        k := k + 1;
      }
      return false;
    }

    method InsertBetween(prevNode: Node, nextNode: Node, item: Node, ghost at: nat)
      requires Valid() && item != root && item !in items
      requires at <= |items| && prevNode == Ring(root, items)[at] && nextNode == Ring(root, items)[at + 1]
      modifies this, root, items, item
      ensures Valid() && items == old(items)[..at] + [item] + old(items)[at..]
    {
      hide Distinct;
      RingDistinct(root, items);
      ghost var ring := Ring(root, items);
      item.prev := prevNode;
      item.next := nextNode;
      prevNode.next := item;
      nextNode.prev := item;
      DistinctInsert(root, items, item, at);
      items := items[..at] + [item] + items[at..];
      ghost var grown := Ring(root, items);
      assert forall i :: 0 <= i <= at ==> grown[i] == ring[i];
      assert forall i :: at + 1 < i < |grown| ==> grown[i] == ring[i - 1];
      forall i | 0 <= i < |grown| - 1 ensures Link(grown[i], grown[i + 1]) {
        if i < at { assert old(Link(ring[i], ring[i + 1])); }
        if i > at + 1 { assert old(Link(ring[i - 1], ring[i - 1 + 1])); }
      }
    }

    method EnqueueFirst(item: Node)
      requires Valid() && item != root && item !in items
      modifies this, root, items, item
      ensures Valid() && items == [item] + old(items)
    {
      assert Link(Ring(root, items)[0], Ring(root, items)[0 + 1]);
      InsertBetween(root, root.next, item, 0);
    }

    method EnqueueLast(item: Node)
      requires Valid() && item != root && item !in items
      modifies this, root, items, item
      ensures Valid() && items == old(items) + [item]
    {
      assert Link(Ring(root, items)[|items|], Ring(root, items)[|items| + 1]);
      InsertBetween(root.prev, root, item, |items|);
    }

    /** Unlinks any member, wherever it is. */
    method Remove(item: Node, ghost at: nat)
      requires Valid() && at < |items| && items[at] == item
      modifies this, root, items
      ensures Valid() && items == old(items)[..at] + old(items)[at + 1..]
      ensures item.next == null && item.prev == null
    {
      hide Distinct;
      RingDistinct(root, items);
      ghost var ring := Ring(root, items);
      assert ring[at + 1] == item;
      assert Link(ring[at], ring[at + 1]) && Link(ring[at + 1], ring[at + 1 + 1]);
      item.prev.next := item.next;
      item.next.prev := item.prev;
      item.next := null;
      item.prev := null;
      DistinctRemove(root, items, at);
      items := items[..at] + items[at + 1..];
      ghost var shrunk := Ring(root, items);
      assert forall i :: 0 <= i <= at ==> shrunk[i] == ring[i];
      assert forall i :: at < i < |shrunk| ==> shrunk[i] == ring[i + 1];
      forall i | 0 <= i < |shrunk| - 1 ensures Link(shrunk[i], shrunk[i + 1]) {
        if i < at { assert old(Link(ring[i], ring[i + 1])); }
        if i > at { assert old(Link(ring[i + 1], ring[i + 1 + 1])); }
      }
    }

    method Dequeue() returns (item: Node?)
      requires Valid()
      modifies this, root, items
      ensures Valid()
      ensures old(items) == [] ==> item == null && items == []
      ensures old(items) != [] ==> item == old(items)[0] && items == old(items)[1..]
    {
      var empty := IsEmpty();
      if empty {
        return null;
      }
      assert Link(Ring(root, items)[0], Ring(root, items)[0 + 1]);
      item := root.next;
      Remove(item, 0);
    }
  }
}
