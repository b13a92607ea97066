/**
 itccoord_inst as an object: the handlers of itccoord.c and one iteration of its main loop, updating
 the process table, the two linked lists and the name indexes in place, against the functions of
 Coordinator.  List nodes are read only through operations that demand a live node.
 */
module CoordinatorInstance {
  import opened Bytes
  import opened LinkedList
  import opened ProcessLists
  import C = Coordinator
  import opened Coordinator
  import opened CoordinatorRuns

  /** How a pass or an iteration ends: main goes on, exits, or is about to read a freed list node. */
  datatype Ending = Continues | Exits | ReadsFreed

  /** The pass starts on a list without duplicates, unless main exits before. */
  ghost predicate PassReady(o: Outcome)
  {
    !o.Stray? && (o.Go? ==> Distinct(o.s.used))
  }

  class ItcCoord {
    const lists: Lists
    var freelistCount: int
    var mboxTree: map<string, u32>
    var counter: int
    const processes: array<Process>

    ghost predicate Valid()
      reads lists, lists.repr
    {
      && processes.Length == MAX_PROCESSES && processes !in lists.repr && this !in lists.repr
      && lists.Valid()
    }

    ghost function Model(): State
      requires processes.Length == MAX_PROCESSES
      reads this, processes, lists
    {
      State(lists.free, lists.used, freelistCount, processes[..], mboxTree, counter)
    }

    /** The node belongs to one of the lists, so it is not freed. */
    ghost predicate Allocated(node: Node<Option<Slot>>)
      reads lists.freeList, lists.usedList
    {
      node in lists.freeList.live || node in lists.usedList.live
    }

    /** The first node of the used list that points to the process. */
    ghost function NodeOf(p: Slot): Node?<Option<Slot>>
      reads lists, lists.usedList
    {
      At(lists.usedList.nodes, IndexOf(lists.used, p))
    }

    /** The initialisation part of main. */
    constructor (coordPid: int)
      ensures Valid() && fresh(processes) && fresh(lists) && fresh(lists.repr)
      ensures Model() == C.Init(coordPid)
    {
      processes := new Process[MAX_PROCESSES](i requires 0 <= i < MAX_PROCESSES =>
        if i == 1 then Process(SHIFT, coordPid, false, Connected, map[]) else Process(NO_MBOX_ID, -1, false, Invalid, map[]));
      lists := new Lists();
      freelistCount, mboxTree, counter := 0, map[], 0;
      new;
      AddSlots(coordPid);
    }

    /** The initialisation loop. */
    method AddSlots(ghost coordPid: int)
      requires Valid() && lists.free == [] && lists.used == [] && freelistCount == 0
      requires processes[0] == InitProcess(0, coordPid) && processes[1] == InitProcess(1, coordPid)
      modifies this`freelistCount, processes, lists, lists.repr
      ensures Valid() && fresh(lists.repr - old(lists.repr))
      ensures processes[..] == C.Init(coordPid).procs
      ensures lists.free == C.Init(coordPid).free && lists.used == [] && freelistCount == USABLE
    {
      var i := 2;
      while i < MAX_PROCESSES
        invariant 2 <= i <= MAX_PROCESSES
        invariant Valid() && fresh(lists.repr - old(lists.repr))
        invariant forall k :: 0 <= k < i ==> processes[..][k] == InitProcess(k, coordPid)
        invariant lists.free == seq(i - 2, k requires 0 <= k < i - 2 => k + 2) && lists.used == [] && freelistCount == i - 2
      {
        AddSlot(i);
        i := i + 1;
      }
    }

    /** One round of the initialisation loop. */
    method AddSlot(i: Slot)
      requires Valid()
      modifies this`freelistCount, processes, lists, lists.repr
      ensures Valid() && fresh(lists.repr - old(lists.repr))
      ensures processes[..] == old(processes[..])[i := Process(i * SHIFT, -1, false, Unused, map[])]
      ensures lists.free == old(lists.free) + [i] && lists.used == old(lists.used)
      ensures freelistCount == old(freelistCount) + 1
    {
      processes[i] := Process(i * SHIFT, -1, false, Unused, map[]);
      lists.PutFree(i);
      freelistCount := freelistCount + 1;
    }

    /** The part of handle_locate_coord_request that fills in the process. */
    method Listen(p: Slot, pid: int)
      requires Valid()
      modifies this`freelistCount, processes
      ensures Valid() && unchanged(lists) && unchanged(lists.repr)
      ensures Model() == old(Model()).(freeCount := old(freelistCount) - 1,
                                       procs := old(processes[..])[p := old(processes[p]).(pid := pid, open := true, status := Listening)])
    {
      freelistCount := freelistCount - 1;
      processes[p] := processes[p].(pid := pid, open := true, status := Listening);
    }

    /** handle_locate_coord_request */
    method Register(pid: int) returns (ok: bool)
      requires Valid()
      modifies this, processes, lists, lists.repr
      ensures Valid() && fresh(lists.repr - old(lists.repr))
      ensures ok <==> C.Register(old(Model()), pid).Go?
      ensures ok ==> Model() == C.Register(old(Model()), pid).s
    {
      var proc := lists.TakeFree();
      if proc == None {
        return false;
      }
      lists.PutUsed(proc.value);
      Listen(proc.value, pid);
      return true;
    }

    /** The twalk that deletes the counterparts of a process's names in mbox_tree. */
    method DropNames(all: set<string>)
      modifies this`mboxTree
      ensures mboxTree == old(mboxTree) - all
    {
      var names := all;
      while names != {}
        invariant names <= all && mboxTree == old(mboxTree) - (all - names)
        decreases names
      {
        var name :| name in names;
        if name in mboxTree {
          mboxTree := mboxTree - {name};
        }
        names := names - {name};
      }
    }

    /** The part of disconnect_from_process between the two list operations. */
    method ClearProcess(p: Slot)
      requires processes.Length == MAX_PROCESSES
      modifies this`mboxTree, processes
      ensures mboxTree == old(mboxTree) - old(processes[p]).mboxes.Keys
      ensures processes[..] == old(processes[..])[p := old(processes[p]).(pid := -1, open := false, status := Unused, mboxes := map[])]
    {
      DropNames(processes[p].mboxes.Keys);
      processes[p] := processes[p].(pid := -1, open := false, status := Unused, mboxes := map[]);
    }

    /** disconnect_from_process up to the second list operation. */
    method Detach(p: Slot)
      requires Valid()
      modifies this`mboxTree, processes, lists, lists.repr
      ensures Valid() && lists.repr == old(lists.repr) && unchanged(lists.freeList)
      ensures Model() == C.Disconnect(old(Model()), p).(free := old(lists.free), freeCount := old(freelistCount))
      ensures old(NodeOf(p)) != null ==> old(NodeOf(p)) !in lists.usedList.live
    {
      lists.RemoveUsed(p);
      ClearProcess(p);
    }

    /** The end of disconnect_from_process: the slot goes back to the free list. */
    method ReturnSlot(p: Slot)
      requires Valid()
      modifies this`freelistCount, lists, lists.repr
      ensures Valid() && fresh(lists.repr - old(lists.repr))
      ensures unchanged(lists.usedList) && fresh(lists.freeList.live - old(lists.freeList.live))
      ensures Model() == old(Model()).(free := old(lists.free) + [p], freeCount := old(freelistCount) + 1)
    {
      lists.PutFree(p);
      freelistCount := freelistCount + 1;
    }

    /** disconnect_from_process: the first list node that points to the process is freed. */
    method DisconnectFrom(p: Slot)
      requires Valid()
      modifies this, processes, lists, lists.repr
      ensures Valid() && fresh(lists.repr - old(lists.repr))
      ensures Model() == C.Disconnect(old(Model()), p)
      ensures old(NodeOf(p)) != null ==> !Allocated(old(NodeOf(p)))
    {
      Detach(p);
      ReturnSlot(p);
    }

    /** handle_add_mbox */
    method Add(id: u32, name: string)
      requires Valid() && ProcIndex(id) != MAX_PROCESSES
      modifies this, processes
      ensures Valid() && Model() == C.AddMbox(old(Model()), id, name)
    {
      var index := FindProcess(id);
      if index == None {
        return;
      }
      var p := index.value;
      if processes[p].status != Connected || name in mboxTree {
        return;
      }
      mboxTree := mboxTree[name := id];
      var own := processes[p].mboxes;
      if name !in own {
        processes[p] := processes[p].(mboxes := own[name := id]);
      }
    }

    /** handle_remove_mbox */
    method Remove(id: u32, name: string)
      requires Valid() && ProcIndex(id) != MAX_PROCESSES
      modifies this, processes
      ensures Valid() && Model() == C.RemoveMbox(old(Model()), id, name)
    {
      var index := FindProcess(id);
      if index == None {
        return;
      }
      var p := index.value;
      if processes[p].status != Connected || name !in mboxTree {
        return;
      }
      mboxTree := mboxTree - {name};
      processes[p] := processes[p].(mboxes := processes[p].mboxes - {name});
    }

    /** connect_to_process, for a process that does not hang up. */
    method ConnectTo(p: Slot)
      requires Valid()
      modifies processes
      ensures Valid() && Model() == C.Connect(old(Model()), p) && unchanged(lists) && unchanged(lists.repr)
    {
      processes[p] := processes[p].(open := true, status := Connected);
    }

    /** Disconnecting a zombie. */
    method Reclaim(p: Slot)
      requires Valid()
      modifies this, processes, lists, lists.repr
      ensures Valid() && fresh(lists.repr - old(lists.repr))
      ensures Model() == C.Disconnect(old(Model()), p).(counter := old(counter) - 1)
    {
      DisconnectFrom(p);
      counter := counter - 1;
    }

    /** One entry of the pass; None while the pass goes on. */
    method Visit(p: Slot, ev: Event) returns (end: Option<Ending>)
      requires Valid()
      modifies this, processes, lists, lists.repr
      ensures Valid() && fresh(lists.repr - old(lists.repr))
      ensures match C.Visit(old(Model()), p, ev)
              case On(s) => end == None && Model() == s && unchanged(lists) && unchanged(lists.repr)
              case Over(Exit) => end == Some(Exits)
              case Over(Go(s)) => end == Some(Continues) && Model() == s
              case Over(Stray(s)) => end == Some(ReadsFreed) && Model() == s
      ensures end == Some(ReadsFreed) && old(NodeOf(p)) != null ==> !Allocated(old(NodeOf(p)))
    {
      var process := processes[p];
      if process.open && p in ev.ready {
        if process.status == Listening {
          if p in ev.aborted {
            DisconnectFrom(p);
            return Some(ReadsFreed);
          }
          ConnectTo(p);
          return None;
        } else if process.status == Connected {
          DisconnectFrom(p);
          return Some(Continues);
        } else {
          return Some(Exits);
        }
      } else if (counter == RETRIES - 1 || freelistCount < LOW_THRESHOLD) && process.status == Listening
                && process.pid > 0 && process.pid in ev.dead {
        Reclaim(p);
        return Some(Continues);
      }
      return None;
    }

    /**
     The pass of main over the used list, from node to node.  Every node it reads is live, except that
     after an aborted accept the next read would be that of `iter`, which is then freed.
     */
    method PassOver(ev: Event) returns (end: Ending, ghost iter: Node?<Option<Slot>>)
      requires Valid() && Distinct(lists.used)
      modifies this, processes, lists, lists.repr
      ensures Valid() && fresh(lists.repr - old(lists.repr))
      ensures match C.Walk(old(Model()), old(lists.used), ev)
              case Exit => end == Exits
              case Go(s) => end == Continues && Model() == s
              case Stray(s) => end == ReadsFreed && Model() == s && iter != null && iter in old(lists.usedList.live) && !Allocated(iter)
    {
      ghost var used := lists.used;
      var node := lists.usedList.First();
      ghost var k := 0;
      while node != null
        invariant Valid() && lists.used == used && unchanged(lists) && unchanged(lists.repr)
        invariant k <= |used| && node == At(lists.usedList.nodes, k)
        invariant C.Walk(Model(), used[k..], ev) == C.Walk(old(Model()), used, ev)
        decreases |used| - k
      {
        var proc := lists.usedList.Item(node);
        assert used[k..][0] == used[k] == proc.value && used[k..][1..] == used[k + 1..];
        IndexOfDistinct(used, k);
        var over := Visit(proc.value, ev);
        if over.Some? {
          return over.value, node;
        }
        node := lists.usedList.Next(node, k);
        k := k + 1;
      }
      return Continues, null;
    }

    /** The first part of an iteration: a registration and the pass. */
    method PassWithArrival(ev: Event) returns (end: Ending, ghost iter: Node?<Option<Slot>>)
      requires Valid() && PassReady(BeforePass(Model(), ev))
      modifies this, processes, lists, lists.repr
      ensures Valid() && fresh(lists.repr - old(lists.repr))
      ensures match C.BeforeRequest(old(Model()), ev)
              case Exit => end == Exits
              case Go(s) => end == Continues && Model() == s
              case Stray(s) => end == ReadsFreed && Model() == s && iter != null && !Allocated(iter)
    {
      if ev.register.Some? {
        var ok := Register(ev.register.value);
        if !ok {
          return Exits, null;
        }
      }
      end, iter := PassOver(ev);
    }

    /** handle_incoming_request for the requests that change the name indexes, and the zombie counter. */
    method Finish(req: Request)
      requires Valid() && InBounds(req)
      modifies this, processes
      ensures Valid() && Model() == C.Tick(C.Handle(old(Model()), req))
    {
      match req {
        case Add(id, name) => Add(id, name);
        case Remove(id, name) => Remove(id, name);
        case _ =>
      }
      counter := (counter + 1) % RETRIES;
    }

    /**
     One iteration of the main loop: the new state is the one of the model, to which the run theorems
     apply; when the model says so, main is about to read a list node that is no longer allocated.
     */
    method Iterate(ev: Event) returns (end: Ending, ghost iter: Node?<Option<Slot>>)
      requires Valid() && Steady(Model()) && InBounds(ev.request)
      modifies this, processes, lists, lists.repr
      ensures Valid() && fresh(lists.repr - old(lists.repr))
      ensures match C.Iterate(old(Model()), ev)
              case Exit => end == Exits
              case Go(s) => end == Continues && Model() == s
              case Stray(s) => end == ReadsFreed && Model() == s && iter != null && !Allocated(iter)
      ensures end == ReadsFreed <==> Aborts(old(Model()), ev)
    {
      IterateSteady(Model(), ev);
      PassSlots(Model(), ev);
      end, iter := PassWithArrival(ev);
      if end == Continues {
        Finish(ev.request);
      }
    }
  }
}
