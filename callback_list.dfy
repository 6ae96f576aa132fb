/**
 * One source's callback list as the singly-linked structure the driver keeps:
 * heap nodes holding a callback and a next pointer, reached from a head
 * pointer. Registration pushes a node at the head; unregistration walks the
 * list with a trailing pointer and relinks around the first match.
 *
 * The ghost sequence `nodes` names the nodes from head to tail; `Contents` is
 * the abstract value (the callbacks in list order) that the methods are
 * specified against.
 */
module CallbackLists {
  import opened Callbacks

  /** A list node (struct callback_link). */
  class Node {
    var callback: Callback
    var next: Node?

    constructor (callback: Callback, next: Node?)
      ensures this.callback == callback && this.next == next
    {
      this.callback := callback;
      this.next := next;
    }
  }

  /** A list head together with the nodes it owns. */
  class CallbackList {
    var head: Node?

    ghost var nodes: seq<Node>
    ghost var Contents: seq<Callback>
    ghost var Repr: set<object>

    /** The head reaches exactly `nodes`, in order, through distinct nodes
        (so the list is acyclic and ends in NULL), and node i holds
        Contents[i]. */
    ghost predicate Valid()
      reads this, Repr
    {
      && this in Repr
      && (forall i :: 0 <= i < |nodes| ==> nodes[i] in Repr)
      && |Contents| == |nodes|
      && head == (if nodes == [] then null else nodes[0])
      && (forall i :: 0 <= i < |nodes| ==> nodes[i].callback == Contents[i])
      && (forall i :: 0 <= i < |nodes| - 1 ==> nodes[i].next == nodes[i + 1])
      && (nodes != [] ==> nodes[|nodes| - 1].next == null)
      && (forall i, j :: 0 <= i < j < |nodes| ==> nodes[i] != nodes[j])
    }

    /** An empty list (a NULL head). */
    constructor ()
      ensures Valid() && fresh(Repr)
      ensures Contents == []
    {
      head := null;
      nodes := [];
      Contents := [];
      Repr := {this};
    }

    /** __register_callback: a new node goes in front of the old head. The
        node allocation is an input: when it fails the head is overwritten
        with NULL and the previous nodes are no longer reachable. Duplicates
        are not rejected. */
    method Register(cb: Callback, allocOk: bool)
      requires Valid()
      modifies Repr
      ensures Valid() && fresh(Repr - old(Repr))
      ensures Contents == if allocOk then [cb] + old(Contents) else []
    {
      var next := head;
      if allocOk {
        var node := new Node(cb, next);
        head := node;
        nodes := [node] + nodes;
        Contents := [cb] + Contents;
        Repr := Repr + {node};
      } else {
        head := null;
        nodes := [];
        Contents := [];
      }
    }

    /** The relinking step of __unregister_callback: unlink node i, whose
        predecessor is `last` (NULL when node i is the head). */
    method Unlink(last: Node?, cur: Node, ghost i: nat)
      requires Valid()
      requires i < |nodes| && cur == nodes[i]
      requires last == if i == 0 then null else nodes[i - 1]
      modifies this, last
      ensures Valid() && Repr == old(Repr) - {cur}
      ensures nodes == old(nodes[..i] + nodes[i + 1..])
      ensures Contents == old(Contents[..i] + Contents[i + 1..])
    {
      ghost var was := nodes;
      if last != null {
        last.next := cur.next;
      } else {
        head := cur.next;
      }
      nodes := nodes[..i] + nodes[i + 1..];
      Contents := Contents[..i] + Contents[i + 1..];
      Repr := Repr - {cur};
      forall j, k | 0 <= j < k < |nodes|
        ensures nodes[j] != nodes[k]
      {
        var j' := if j < i then j else j + 1;
        var k' := if k < i then k else k + 1;
        assert nodes[j] == was[j'] && nodes[k] == was[k'];
      }
    }

    /** __unregister_callback: walk with `last` trailing `cur` and unlink the
        first node whose callback equals `cb`; no match leaves the list as it
        was. The freed node leaves the footprint. */
    method Unregister(cb: Callback)
      requires Valid()
      modifies Repr
      ensures Valid() && Repr <= old(Repr)
      ensures Contents == RemoveFirst(old(Contents), cb)
      ensures cb !in old(Contents) ==> nodes == old(nodes) && Repr == old(Repr)
      ensures cb in old(Contents) ==>
                exists i :: 0 <= i < |old(nodes)| && nodes == old(nodes[..i] + nodes[i + 1..]) &&
                            Repr == old(Repr) - {old(nodes)[i]}
    {
      var last: Node? := null;
      var cur := head;
      ghost var i := 0;
      while cur != null
        invariant Valid()
        invariant nodes == old(nodes) && Contents == old(Contents) && Repr == old(Repr)
        invariant 0 <= i <= |nodes|
        invariant cur == if i < |nodes| then nodes[i] else null
        invariant last == if i == 0 then null else nodes[i - 1]
        invariant forall j :: 0 <= j < i ==> Contents[j] != cb
        decreases |nodes| - i
      {
        if cur.callback == cb {
          RemoveFirstAt(Contents, cb, i);
          Unlink(last, cur, i);
          return;
        }
        last := cur;
        cur := cur.next;
        i := i + 1;
      }
      RemoveFirstAbsent(Contents, cb);
    }
  }
}
