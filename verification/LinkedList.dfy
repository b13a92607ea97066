/**
 Two-way linked nodes, as itc_queue.c (struct itcq_node) and itc_local.c (struct llqueue_item) chain
 them, and the sequence operations that specify both queues.
 */
module LinkedList {

  datatype Option<+T> = None | Some(value: T)

  class Node<T> {
    var next: Node?<T>
    var prev: Node?<T>
    const data: T

    constructor (data: T)
      ensures this.data == data && next == null && prev == null
    {
      this.data := data;
      next, prev := null, null;
    }
  }

  /** The node at position `i`, null outside the sequence. */
  ghost function At<T>(nodes: seq<Node<T>>, i: int): Node?<T>
  {
    if 0 <= i < |nodes| then nodes[i] else null
  }

  /** The i-th node is linked to its neighbours. */
  ghost predicate LinkedAt<T>(nodes: seq<Node<T>>, i: nat)
    requires i < |nodes|
    reads nodes
  {
    nodes[i].next == At(nodes, i + 1) && nodes[i].prev == At(nodes, i - 1)
  }

  /** The nodes are distinct and linked both ways in this order, with null at both ends. */
  ghost predicate Linked<T>(nodes: seq<Node<T>>)
    reads nodes
  {
    && (forall i, j :: 0 <= i < j < |nodes| ==> nodes[i] != nodes[j])
    && (forall i: nat :: i < |nodes| ==> LinkedAt(nodes, i))
  }

  /** Links that nobody touches stay as they are. */
  twostate lemma StillLinked<T>(nodes: seq<Node<T>>)
    requires old(Linked(nodes)) && unchanged(nodes)
    ensures Linked(nodes)
  {
    forall i: nat | i < |nodes| ensures LinkedAt(nodes, i) {
      assert old(LinkedAt(nodes, i));
    }
  }

  /** Link `node` behind the last node. */
  method LinkBehind<T>(ghost nodes: seq<Node<T>>, tail: Node<T>, node: Node<T>)
    requires Linked(nodes) && nodes != [] && tail == nodes[|nodes| - 1]
    requires node !in nodes && node.next == null
    modifies tail`next, node`prev
    ensures Linked(nodes + [node])
  {
    assert forall i: nat :: i < |nodes| ==> LinkedAt(nodes, i);
    tail.next := node;
    node.prev := tail;
    ghost var all := nodes + [node];
    forall i: nat | i < |all| ensures LinkedAt(all, i) {
      if i < |nodes| - 1 {
        assert all[i] == nodes[i] != tail;
        assert old(LinkedAt(nodes, i));
      } else if i == |nodes| - 1 {
        assert old(LinkedAt(nodes, i));
      }
    }
  }

  /** Cut the first of several nodes off through the second node's prev pointer. */
  method CutHead<T>(ghost nodes: seq<Node<T>>, second: Node<T>)
    requires Linked(nodes) && |nodes| > 1 && second == nodes[1]
    modifies second`prev
    ensures Linked(nodes[1..])
  {
    second.prev := null;
    ghost var rest := nodes[1..];
    forall i: nat | i < |rest| ensures LinkedAt(rest, i) {
      assert rest[i] == nodes[i + 1];
      assert old(LinkedAt(nodes, i + 1));
    }
  }

  /** Cut the last of several nodes off. */
  method CutTail<T>(ghost nodes: seq<Node<T>>, beforeLast: Node<T>)
    requires Linked(nodes) && |nodes| > 1 && beforeLast == nodes[|nodes| - 2]
    modifies beforeLast`next
    ensures Linked(nodes[..|nodes| - 1])
  {
    beforeLast.next := null;
    ghost var rest := nodes[..|nodes| - 1];
    forall i: nat | i < |rest| ensures LinkedAt(rest, i) {
      assert old(LinkedAt(nodes, i));
    }
  }

  /** Take a node out from between its two neighbours. */
  method CutInner<T>(ghost nodes: seq<Node<T>>, ghost k: nat, before: Node<T>, after: Node<T>)
    requires Linked(nodes) && 0 < k < |nodes| - 1 && before == nodes[k - 1] && after == nodes[k + 1]
    modifies before`next, after`prev
    ensures Linked(nodes[..k] + nodes[k + 1..])
  {
    before.next := after;
    after.prev := before;
    ghost var rest := nodes[..k] + nodes[k + 1..];
    forall i: nat | i < |rest| ensures LinkedAt(rest, i) {
      if i < k {
        assert rest[i] == nodes[i];
        assert old(LinkedAt(nodes, i));
      } else {
        assert rest[i] == nodes[i + 1];
        assert old(LinkedAt(nodes, i + 1));
      }
    }
  }

  ghost function Data<T>(nodes: seq<Node<T>>): (s: seq<T>)
    ensures |s| == |nodes| && forall i :: 0 <= i < |s| ==> s[i] == nodes[i].data
  {
    seq(|nodes|, i requires 0 <= i < |nodes| => nodes[i].data)
  }

  ghost function Elements<T>(nodes: seq<Node<T>>): set<Node<T>>
  {
    set n | n in nodes
  }

  /** Taking one node out of a linked sequence takes out its datum and that node only. */
  lemma WithoutNode<T>(nodes: seq<Node<T>>, k: nat)
    requires k < |nodes| && forall i, j :: 0 <= i < j < |nodes| ==> nodes[i] != nodes[j]
    ensures var rest := nodes[..k] + nodes[k + 1..];
            && Elements(rest) == Elements(nodes) - {nodes[k]}
            && Data(rest) == Data(nodes)[..k] + Data(nodes)[k + 1..]
  {
    var rest := nodes[..k] + nodes[k + 1..];
    forall n | n in nodes && n != nodes[k] ensures n in rest {
      var i :| 0 <= i < |nodes| && nodes[i] == n;
      assert i < k ==> rest[i] == n;
      assert i > k ==> rest[i - 1] == n;
    }
  }

  /** Index of the first occurrence of `x`, or the length. */
  function IndexOf<T(==)>(s: seq<T>, x: T): (k: nat)
    ensures k <= |s| && x !in s[..k]
    ensures k < |s| ==> s[k] == x
  {
    if s == [] || s[0] == x then 0 else 1 + IndexOf(s[1..], x)
  }

  /** The sequence without its first occurrence of `x`. */
  function RemoveFirst<T(==)>(s: seq<T>, x: T): seq<T>
  {
    var k := IndexOf(s, x);
    if k == |s| then s else s[..k] + s[k + 1..]
  }
}
