/**
 The rx queue of one mailbox in itc_local.c: two-way linked items that point to messages, with the
 in-rx-queue flag kept in the message header.
 */
module RxQueue {
  import opened LinkedList

  /** The header field of struct itc_message that the queue touches; bit 0 is ITC_FLAGS_MSG_INRXQUEUE. */
  class ItcMessage {
    var flags: nat

    constructor ()
      ensures flags == 0
    {
      flags := 0;
    }

    method Flag()
      modifies this`flags
      ensures Flagged(flags) && OtherFlags(flags) == OtherFlags(old(flags))
    {
      flags := if Flagged(flags) then flags else flags + 1;
    }

    method Unflag()
      modifies this`flags
      ensures !Flagged(flags) && OtherFlags(flags) == OtherFlags(old(flags))
    {
      flags := if Flagged(flags) then flags - 1 else flags;
    }
  }

  predicate Flagged(flags: nat)
  {
    flags % 2 == 1
  }

  function OtherFlags(flags: nat): nat
  {
    flags / 2
  }

  class RxQueue {
    var head: Node?<ItcMessage>
    var tail: Node?<ItcMessage>
    ghost var nodes: seq<Node<ItcMessage>>
    /** Items obtained from malloc and not yet freed. */
    ghost var live: set<Node<ItcMessage>>

    ghost predicate Chained()
      reads this, nodes
    {
      Linked(nodes) && head == At(nodes, 0) && tail == At(nodes, |nodes| - 1)
    }

    /** The queued items are exactly the live ones: none leaked, none freed too early. */
    ghost predicate Valid()
      reads this, nodes
    {
      Chained() && live == Elements(nodes)
    }

    ghost function Contents(): seq<ItcMessage>
      reads this
    {
      Data(nodes)
    }

    /** init_queue */
    constructor ()
      ensures Valid() && Contents() == []
    {
      head, tail := null, null;
      nodes, live := [], {};
    }

    /** remove_qitem: the item must be live, so nothing is freed twice. */
    ghost method Free(item: Node<ItcMessage>)
      requires item in live
      modifies this`live
      ensures live == old(live) - {item}
    {
      live := live - {item};
    }

    /** enqueue_message: append, and flag the message. */
    method Enqueue(message: ItcMessage)
      requires Valid()
      modifies this, nodes, message`flags
      ensures Valid() && fresh(live - old(live))
      ensures Contents() == old(Contents()) + [message]
      ensures Flagged(message.flags) && OtherFlags(message.flags) == OtherFlags(old(message.flags))
    {
      var item := new Node(message);
      live := live + {item};
      if tail == null {
        head := item;
        tail := item;
      } else {
        LinkBehind(nodes, tail, item);
        tail := item;
      }
      nodes := nodes + [item];
      message.Flag();
    }

    /** dequeue_message: the oldest message, unflagged, or None on an empty queue. */
    method Dequeue() returns (message: Option<ItcMessage>)
      requires Valid()
      modifies this, nodes, if Contents() == [] then {} else {Contents()[0]}
      ensures Valid()
      ensures message == None <==> old(Contents()) == []
      ensures message == None ==> Contents() == [] && nodes == []
      ensures message.Some? ==>
                && message.value == old(Contents())[0]
                && nodes == old(nodes)[1..] && Contents() == old(Contents())[1..]
                && live == old(live) - {old(nodes)[0]}
                && !Flagged(message.value.flags)
                && OtherFlags(message.value.flags) == OtherFlags(old(Contents()[0].flags))
    {
      if head == null {
        return None;
      }
      var m := head.data;
      UnlinkHead();
      m.Unflag();
      message := Some(m);
    }

    /** The pointer part of dequeue_message: with several items the old head is freed through the new head's prev. */
    method UnlinkHead()
      requires Valid() && nodes != []
      modifies this, nodes
      ensures Valid() && nodes == old(nodes)[1..] && live == old(live) - {old(nodes)[0]}
    {
      if head == tail {
        Free(head);
        head := null;
        tail := null;
      } else {
        assert LinkedAt(nodes, 0) && LinkedAt(nodes, 1);
        head := head.next;
        Free(head.prev);
        CutHead(nodes, head);
      }
      nodes := nodes[1..];
    }

    /** The messages of the first nodes of `start` have been taken out, unflagged, and passed on. */
    ghost predicate Freed(start: seq<Node<ItcMessage>>, freed: seq<ItcMessage>)
      reads this, freed
    {
      && |freed| <= |start| && nodes == start[|freed|..]
      && forall i :: 0 <= i < |freed| ==> freed[i] == start[i].data && !Flagged(freed[i].flags)
    }

    /** One round of the discarding loop. */
    method DrainOne(ghost start: seq<Node<ItcMessage>>, freed: seq<ItcMessage>) returns (more: seq<ItcMessage>)
      requires Valid() && Freed(start, freed)
      modifies this, start, Data(start)
      ensures Valid() && Freed(start, more)
      ensures if |freed| == |start| then more == freed else |more| == |freed| + 1
    {
      assert nodes != [] ==> Contents()[0] == Data(start)[|freed|];
      var message := Dequeue();
      more := if message == None then freed else freed + [message.value];
    }

    /**
     The discarding loop of local_delete_mbox: every pending message is passed to itc_free once, in
     queue order and unflagged at that moment, so that itc_free does not refuse it for its flag; no
     item of the queue stays allocated.
     */
    method Drain() returns (freed: seq<ItcMessage>)
      requires Valid()
      modifies this, nodes, Contents()
      ensures Valid() && Contents() == [] && live == {}
      ensures freed == old(Contents())
      ensures forall m :: m in freed ==> !Flagged(m.flags)
    {
      ghost var start := nodes;
      freed := [];
      while true
        invariant Valid() && Freed(start, freed)
        decreases |start| - |freed|
      {
        var more := DrainOne(start, freed);
        if |more| == |freed| {
          break;
        }
        freed := more;
      }
    }
  }
}
