/**
 struct itc_queue of itc_queue.c: a queue of user pointers over two-way linked nodes.  A NULL user
 pointer is None.  The queue's own mutex makes each operation atomic.
 */
module Queue {
  import opened LinkedList

  /** What draining by "dequeue until NULL" leaves: everything behind the first NULL item. */
  function AfterClear<T(==)>(s: seq<Option<T>>): seq<Option<T>>
  {
    if s == [] then [] else if s[0] == None then s[1..] else AfterClear(s[1..])
  }

  /** Exactly the items behind the first NULL item are left, in order; none if there is no NULL item. */
  lemma {:induction false} AfterClearIs<T>(s: seq<Option<T>>)
    ensures AfterClear(s) == if None in s then s[IndexOf(s, None) + 1..] else []
  {
    if s != [] && s[0] != None {
      AfterClearIs(s[1..]);
    }
  }

  /** Clearing empties the queue exactly when no NULL pointer sits before the last position. */
  lemma {:induction false} ClearEmptiesIff<T>(s: seq<Option<T>>)
    ensures AfterClear(s) == [] <==> s == [] || None !in s[..|s| - 1]
  {
    if s != [] && s[0] != None {
      ClearEmptiesIff(s[1..]);
      if |s| > 1 {
        assert s[..|s| - 1] == [s[0]] + s[1..][..|s| - 2];
      }
    }
  }

  class ItcQueue<T(==)> {
    var head: Node?<Option<T>>
    var tail: Node?<Option<T>>
    var size: nat
    ghost var nodes: seq<Node<Option<T>>>
    /** Nodes obtained from malloc and not yet freed. */
    ghost var live: set<Node<Option<T>>>

    /** Links, ends and counter agree with `nodes`. */
    ghost predicate Chained()
      reads this, nodes
    {
      && Linked(nodes)
      && head == At(nodes, 0)
      && tail == At(nodes, |nodes| - 1)
      && size == |nodes|
    }

    /** Moreover the queued nodes are exactly the live ones: none leaked, none freed too early. */
    ghost predicate Valid()
      reads this, live
    {
      live == Elements(nodes) && Chained()
    }

    ghost function Contents(): seq<Option<T>>
      reads this
    {
      Data(nodes)
    }

    /** q_init */
    constructor ()
      ensures Valid() && Contents() == []
    {
      head, tail, size := null, null, 0;
      nodes, live := [], {};
    }

    /** A queue that nobody touches stays valid. */
    twostate lemma StillValid()
      requires old(Valid()) && unchanged(this) && unchanged(live)
      ensures Valid()
    {
      StillLinked(nodes);
    }

    /** free() of a node: it must be live, so nothing is freed twice. */
    ghost method Free(node: Node<Option<T>>)
      requires node in live
      modifies this`live
      ensures live == old(live) - {node}
    {
      live := live - {node};
    }

    /** Callers that walk the list themselves: the first node. */
    method First() returns (iter: Node?<Option<T>>)
      requires Valid()
      ensures iter == At(nodes, 0)
    {
      iter := head;
    }

    /** iter->p_data, which may only be read while the node is live. */
    method Item(iter: Node<Option<T>>) returns (data: Option<T>)
      requires iter in live
      ensures data == iter.data
    {
      data := iter.data;
    }

    /** iter->next, which may only be read while the node is live. */
    method Next(iter: Node<Option<T>>, ghost k: nat) returns (next: Node?<Option<T>>)
      requires iter in live && Valid() && k < |nodes| && nodes[k] == iter
      ensures next == At(nodes, k + 1)
    {
      assert LinkedAt(nodes, k);
      next := iter.next;
    }

    /** q_enqueue */
    method Enqueue(data: Option<T>)
      requires Valid()
      modifies this, live
      ensures Valid() && fresh(live - old(live))
      ensures Contents() == old(Contents()) + [data]
    {
      var node := new Node(data);
      live := live + {node};
      if tail == null {
        head := node;
        tail := node;
      } else {
        LinkBehind(nodes, tail, node);
        tail := node;
      }
      size := size + 1;
      nodes := nodes + [node];
    }

    /** q_dequeue: with several items the old head is freed through the new head's prev pointer. */
    method Dequeue() returns (data: Option<T>, empty: bool)
      requires Valid()
      modifies this, live
      ensures Valid() && live <= old(live)
      ensures empty <==> old(Contents()) == []
      ensures empty ==> data == None && Contents() == []
      ensures !empty ==> data == old(Contents())[0] && Contents() == old(Contents())[1..]
      ensures nodes == if empty then [] else old(nodes)[1..]
    {
      if head == null {
        return None, true;
      }
      empty := false;
      data := head.data;
      if head == tail {
        Free(head);
        head := null;
        tail := null;
      } else {
        assert LinkedAt(nodes, 0) && LinkedAt(nodes, 1);
        head := head.next;
        Free(head.prev);
        CutHead(nodes, head);
      }
      size := size - 1;
      nodes := nodes[1..];
    }

    /** The search loop of q_remove. */
    method Find(data: Option<T>) returns (iter: Node?<Option<T>>, ghost k: nat)
      requires Valid()
      ensures k == IndexOf(Contents(), data) && iter == At(nodes, k)
    {
      iter, k := head, 0;
      while iter != null && iter.data != data
        invariant k <= |nodes| && iter == At(nodes, k)
        invariant IndexOf(Contents(), data) == k + IndexOf(Contents()[k..], data)
        decreases |nodes| - k
      {
        assert LinkedAt(nodes, k);
        assert Contents()[k..][1..] == Contents()[k + 1..];
        iter := iter.next;
        k := k + 1;
      }
    }

    /** The pointer part of q_remove for the first node. */
    method TakeOutHead(iter: Node<Option<T>>)
      requires Chained() && nodes != [] && iter == head
      modifies this, nodes
      ensures Chained() && live == old(live) && nodes == old(nodes)[1..]
    {
      if size == 1 {
        head := null;
        tail := null;
      } else {
        assert LinkedAt(nodes, 0);
        head := iter.next;
        CutHead(nodes, head);
      }
      size := size - 1;
      nodes := nodes[1..];
    }

    /** The pointer part of q_remove for a later node. */
    method TakeOutLater(iter: Node<Option<T>>, ghost k: nat)
      requires Chained() && 0 < k < |nodes| && iter == nodes[k]
      modifies this, nodes
      ensures Chained() && live == old(live) && nodes == old(nodes)[..k] + old(nodes)[k + 1..]
    {
      assert LinkedAt(nodes, k);
      ghost var rest := nodes[..k] + nodes[k + 1..];
      if iter == tail {
        assert k == |nodes| - 1;
        assert rest == nodes[..k];
        tail := iter.prev;
        CutTail(nodes, tail);
      } else {
        CutInner(nodes, k, iter.prev, iter.next);
      }
      size := size - 1;
      nodes := rest;
    }

    method TakeOut(iter: Node<Option<T>>, ghost k: nat)
      requires Chained() && k < |nodes| && iter == nodes[k]
      modifies this, nodes
      ensures Chained() && live == old(live) && nodes == old(nodes)[..k] + old(nodes)[k + 1..]
    {
      if iter == head {
        assert k == 0;
        TakeOutHead(iter);
      } else {
        TakeOutLater(iter, k);
      }
    }

    /** Unlink a node and free it. */
    method Delete(iter: Node<Option<T>>, ghost k: nat)
      requires Valid() && k < |nodes| && iter == nodes[k]
      modifies this, live
      ensures Valid() && live == old(live) - {iter}
      ensures Contents() == old(Contents())[..k] + old(Contents())[k + 1..]
    {
      WithoutNode(nodes, k);
      TakeOut(iter, k);
      Free(iter);
    }

    /** q_remove: unlink and free the first node that points to `data`, at any position. */
    method Remove(data: Option<T>)
      requires Valid()
      modifies this, live
      ensures Valid() && live <= old(live)
      ensures Contents() == RemoveFirst(old(Contents()), data)
      ensures var k := IndexOf(old(Contents()), data); k < |old(nodes)| ==> old(nodes)[k] !in live
    {
      var iter, k := Find(data);
      if iter != null {
        Delete(iter, k);
      }
    }

    /** q_clear, and the draining part of q_exit. */
    method Clear()
      requires Valid()
      modifies this, live
      ensures Valid() && live <= old(live)
      ensures Contents() == AfterClear(old(Contents()))
    {
      if size > 0 {
        var more := true;
        ghost var k := 0;
        while more
          invariant Valid() && live <= old(live)
          invariant AfterClear(old(Contents())) == if more then AfterClear(Contents()) else Contents()
          invariant k <= |old(nodes)| && nodes == old(nodes)[k..]
          decreases more, |nodes|
        {
          var data, empty := Dequeue();
          more := data != None;
          k := if empty then k else k + 1;
        }
      }
    }
  }
}
