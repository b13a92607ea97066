/**
 free_list and used_list of itccoord.c: two queues of process pointers, as sequences of slots.
 */
module ProcessLists {
  import opened LinkedList
  import opened Queue
  import opened Coordinator

  // ---- Contents ----------------------------------------------------------------------------

  /** The lists hold process pointers and never NULL. */
  ghost predicate AllSome(s: seq<Option<Slot>>)
  {
    forall i :: 0 <= i < |s| ==> s[i].Some?
  }

  ghost function Values(s: seq<Option<Slot>>): (r: seq<Slot>)
    requires AllSome(s)
    ensures |r| == |s| && forall i :: 0 <= i < |s| ==> Some(r[i]) == s[i]
  {
    seq(|s|, i requires 0 <= i < |s| => s[i].value)
  }

  lemma {:induction false} ValuesIndex(s: seq<Option<Slot>>, p: Slot)
    requires AllSome(s)
    ensures IndexOf(Values(s), p) == IndexOf(s, Some(p))
    decreases |s|
  {
    if s != [] && s[0] != Some(p) {
      assert Values(s)[1..] == Values(s[1..]);
      ValuesIndex(s[1..], p);
    }
  }

  lemma ValuesCut(s: seq<Option<Slot>>, k: nat)
    requires AllSome(s) && k < |s|
    ensures AllSome(s[..k] + s[k + 1..]) && Values(s[..k] + s[k + 1..]) == Values(s)[..k] + Values(s)[k + 1..]
  {
  }

  /** q_remove on pointers is the removal of the process. */
  lemma ValuesRemove(s: seq<Option<Slot>>, p: Slot)
    requires AllSome(s)
    ensures AllSome(RemoveFirst(s, Some(p))) && Values(RemoveFirst(s, Some(p))) == RemoveFirst(Values(s), p)
  {
    ValuesIndex(s, p);
    if IndexOf(s, Some(p)) < |s| {
      ValuesCut(s, IndexOf(s, Some(p)));
    }
  }

  // ---- The two lists -----------------------------------------------------------------------

  class Lists {
    const freeList: ItcQueue<Slot>
    const usedList: ItcQueue<Slot>
    /** The processes in the lists, and the objects the lists are made of. */
    ghost var free: seq<Slot>
    ghost var used: seq<Slot>
    ghost var repr: set<object>

    ghost predicate Valid()
      reads this, repr
    {
      && {freeList, usedList} <= repr && freeList != usedList && this !in repr
      && freeList.live <= repr && usedList.live <= repr && freeList.live !! usedList.live
      && freeList.Valid() && AllSome(freeList.Contents()) && free == Values(freeList.Contents())
      && usedList.Valid() && AllSome(usedList.Contents()) && used == Values(usedList.Contents())
    }

    constructor ()
      ensures Valid() && fresh(repr) && free == [] && used == []
    {
      freeList := new ItcQueue<Slot>();
      usedList := new ItcQueue<Slot>();
      free, used := [], [];
      repr := {freeList, usedList};
    }

    /** q_enqueue on the free list. */
    method PutFree(p: Slot)
      requires Valid()
      modifies this, repr
      ensures Valid() && fresh(repr - old(repr)) && fresh(freeList.live - old(freeList.live))
      ensures free == old(free) + [p] && used == old(used) && unchanged(usedList)
    {
      freeList.Enqueue(Some(p));
      free, repr := free + [p], repr + freeList.live;
      usedList.StillValid();
    }

    /** q_enqueue on the used list. */
    method PutUsed(p: Slot)
      requires Valid()
      modifies this, repr
      ensures Valid() && fresh(repr - old(repr)) && fresh(usedList.live - old(usedList.live))
      ensures used == old(used) + [p] && free == old(free) && unchanged(freeList)
    {
      usedList.Enqueue(Some(p));
      used, repr := used + [p], repr + usedList.live;
      freeList.StillValid();
    }

    /** q_dequeue on the free list. */
    method TakeFree() returns (p: Option<Slot>)
      requires Valid()
      modifies this, repr
      ensures Valid() && repr == old(repr) && freeList.live <= old(freeList.live)
      ensures if old(free) == [] then p == None && free == [] else p == Some(old(free)[0]) && free == old(free)[1..]
      ensures used == old(used) && unchanged(usedList)
    {
      var proc, empty := freeList.Dequeue();
      usedList.StillValid();
      if empty {
        return None;
      }
      free := free[1..];
      p := proc;
    }

    /** q_remove on the used list; the node of the first entry for the process is freed. */
    method RemoveUsed(p: Slot)
      requires Valid()
      modifies this, repr
      ensures Valid() && repr == old(repr) && usedList.live <= old(usedList.live)
      ensures used == RemoveFirst(old(used), p) && free == old(free) && unchanged(freeList)
      ensures var k := IndexOf(old(used), p); k < |old(usedList.nodes)| ==> old(usedList.nodes)[k] !in usedList.live
    {
      ValuesRemove(usedList.Contents(), p);
      ValuesIndex(usedList.Contents(), p);
      usedList.Remove(Some(p));
      freeList.StillValid();
      used := RemoveFirst(used, p);
    }
  }
}
