/**
 What one iteration of the coordinator does to each slot and each name, said on the fields of the
 state: who registers, who gets connected, who is disconnected, and what a request changes.
 */
module CoordinatorEffects {
  import opened Bytes
  import opened LinkedList
  import opened Coordinator
  import opened CoordinatorRuns

  // ---- Registration ------------------------------------------------------------------------

  /** The first free process is now used and listening, with the pid that was announced. */
  ghost predicate Arrives(s: State, t: State, pid: int)
  {
    && s.free != [] && t.free == s.free[1..] && t.used == s.used + [s.free[0]]
    && t.freeCount == s.freeCount - 1 && t.tree == s.tree && t.counter == s.counter
    && (forall q: Slot :: q != s.free[0] ==> t.procs[q] == s.procs[q])
    && (var p, p' := s.procs[s.free[0]], t.procs[s.free[0]];
        p'.pid == pid && p'.open && p'.status == Listening && p'.mboxId == p.mboxId && p'.mboxes == p.mboxes)
  }

  lemma RegisterEffect(s: State, pid: int)
    ensures if s.free == [] then Register(s, pid) == Exit else Register(s, pid).Go? && Arrives(s, Register(s, pid).s, pid)
  {
  }

  // ---- The pass over the used list ---------------------------------------------------------

  /** A connected process whose socket is readable: it has hung up. */
  ghost predicate HungUp(s: State, p: Slot, ev: Event)
  {
    s.procs[p].open && p in ev.ready && s.procs[p].status == Connected
  }

  /** A listening process whose socket is readable: it wants to connect. */
  ghost predicate Connecting(s: State, p: Slot, ev: Event)
  {
    s.procs[p].open && p in ev.ready && s.procs[p].status == Listening
  }

  /**
   A listening process that shows no sign of life and whose known pid is dead, when the check is due:
   every tenth iteration, or always while fewer than 10 slots are free.
   */
  ghost predicate DueDead(s: State, p: Slot, ev: Event)
  {
    && !(s.procs[p].open && p in ev.ready) && s.procs[p].status == Listening
    && 0 < s.procs[p].pid && s.procs[p].pid in ev.dead
    && (s.counter == 9 || s.freeCount < 10)
  }

  /** The entry at which the pass disconnects a process and ends. */
  ghost predicate Stops(s: State, p: Slot, ev: Event)
  {
    HungUp(s, p, ev) || DueDead(s, p, ev)
  }

  /** Entry `k` is the first at which the pass stops; none if `k` is the length of the list. */
  ghost predicate FirstStop(s: State, ev: Event, k: nat)
  {
    && k <= |s.used|
    && (forall j :: 0 <= j < k ==> !Stops(s, s.used[j], ev))
    && (k < |s.used| ==> Stops(s, s.used[k], ev))
  }

  lemma {:induction false} FindStop(s: State, ev: Event, from: nat) returns (k: nat)
    requires from <= |s.used| && forall j :: 0 <= j < from ==> !Stops(s, s.used[j], ev)
    ensures FirstStop(s, ev, k)
    decreases |s.used| - from
  {
    k := from;
    if from < |s.used| && !Stops(s, s.used[from], ev) {
      k := FindStop(s, ev, from + 1);
    }
  }

  /** No process up to entry `k` hangs up while it is accepted. */
  ghost predicate NoAbort(s: State, ev: Event, k: nat)
    requires k <= |s.used|
  {
    forall j :: 0 <= j < k ==> !(Connecting(s, s.used[j], ev) && s.used[j] in ev.aborted)
  }

  /** The process is forgotten; only its slot's mailbox id is left. */
  ghost predicate Cleared(p: Process, p': Process)
  {
    p'.status == Unused && !p'.open && p'.pid == -1 && p'.mboxes == map[] && p'.mboxId == p.mboxId
  }

  ghost predicate NowConnected(p: Process, p': Process)
  {
    p'.status == Connected && p'.open && p'.pid == p.pid && p'.mboxes == p.mboxes && p'.mboxId == p.mboxId
  }

  /** What the first `i` entries did to slot `q`: a connecting process is connected, nothing else changes. */
  ghost predicate PassedSlot(s: State, t: State, ev: Event, i: nat, q: Slot)
    requires i <= |s.used|
  {
    if q in s.used[..i] && Connecting(s, q, ev) then NowConnected(s.procs[q], t.procs[q]) else t.procs[q] == s.procs[q]
  }

  /** The pass has gone over the first `i` entries of the list and disconnected nobody. */
  ghost predicate Passing(s: State, t: State, ev: Event, i: nat)
    requires i <= |s.used|
  {
    && t.used == s.used && t.free == s.free && t.freeCount == s.freeCount && t.tree == s.tree && t.counter == s.counter
    && forall q: Slot :: PassedSlot(s, t, ev, i, q)
  }

  /** Process `p`, entry `k` of the list, has been disconnected: its slot is free and its names are gone. */
  ghost predicate Disconnected(s: State, t: State, k: nat)
    requires k < |s.used|
  {
    var p := s.used[k];
    && t.used == s.used[..k] + s.used[k + 1..] && t.free == s.free + [p] && t.freeCount == s.freeCount + 1
    && Cleared(s.procs[p], t.procs[p])
    && (forall name :: name in t.tree <==> name in s.tree && name !in s.procs[p].mboxes)
    && (forall name :: name in t.tree ==> t.tree[name] == s.tree[name])
  }

  /**
   What the pass leaves: the connecting processes before entry `k` are connected, the process at entry
   `k`, if there is one, is disconnected, and every other slot and name is as it was.
   */
  ghost predicate PassDone(s: State, t: State, ev: Event, k: nat)
    requires k <= |s.used|
  {
    if k == |s.used| then Passing(s, t, ev, k)
    else
      && Disconnected(s, t, k)
      && t.counter == (if DueDead(s, s.used[k], ev) then s.counter - 1 else s.counter)
      && forall q: Slot :: q != s.used[k] ==> PassedSlot(s, t, ev, k, q)
  }

  lemma DisconnectEffect(s: State, k: nat)
    requires Distinct(s.used) && k < |s.used|
    ensures var t := Disconnect(s, s.used[k]);
            Disconnected(s, t, k) && t.counter == s.counter && forall q: Slot :: q != s.used[k] ==> t.procs[q] == s.procs[q]
  {
    IndexOfDistinct(s.used, k);
  }

  /** Up to now the entry to come has not been touched. */
  lemma NextUntouched(s: State, t: State, ev: Event, i: nat)
    requires Slots(s) && i < |s.used| && Passing(s, t, ev, i)
    ensures t.procs[s.used[i]] == s.procs[s.used[i]]
    ensures s.used[i] !in s.used[..i] && IsUsed(s, s.used[i])
  {
    assert s.used[i] in s.used;
    assert PassedSlot(s, t, ev, i, s.used[i]);
  }

  lemma PassingOn(s: State, t: State, t': State, ev: Event, i: nat)
    requires Slots(s) && i < |s.used| && Passing(s, t, ev, i)
    requires t' == if Connecting(s, s.used[i], ev) then Connect(t, s.used[i]) else t
    ensures Passing(s, t', ev, i + 1)
  {
    NextUntouched(s, t, ev, i);
    var n := i + 1;
    assert s.used[..n] == s.used[..i] + [s.used[i]];
    forall q: Slot ensures PassedSlot(s, t', ev, n, q) {
      assert PassedSlot(s, t, ev, i, q);
    }
  }

  /** At the entry where it stops, the pass disconnects the process. */
  lemma StopEffect(s: State, t: State, ev: Event, k: nat)
    requires Slots(s) && k < |s.used| && Passing(s, t, ev, k) && Stops(s, s.used[k], ev)
    ensures Visit(t, s.used[k], ev).Over? && Visit(t, s.used[k], ev).outcome.Go?
    ensures PassDone(s, Visit(t, s.used[k], ev).outcome.s, ev, k)
  {
    NextUntouched(s, t, ev, k);
    DisconnectEffect(t, k);
    var u := Visit(t, s.used[k], ev).outcome.s;
    forall q: Slot | q != s.used[k] ensures PassedSlot(s, u, ev, k, q) {
      assert PassedSlot(s, t, ev, k, q);
    }
  }

  /** From entry `i` on. */
  lemma {:induction false} WalkEffect(s: State, t: State, ev: Event, i: nat, k: nat)
    requires Slots(s) && i <= k && FirstStop(s, ev, k) && NoAbort(s, ev, k) && Passing(s, t, ev, i)
    ensures Walk(t, s.used[i..], ev).Go? && PassDone(s, Walk(t, s.used[i..], ev).s, ev, k)
    decreases k - i
  {
    if i < |s.used| {
      NextUntouched(s, t, ev, i);
      assert s.used[i..][0] == s.used[i] && s.used[i..][1..] == s.used[i + 1..];
      if i == k {
        StopEffect(s, t, ev, k);
      } else {
        var t' := if Connecting(s, s.used[i], ev) then Connect(t, s.used[i]) else t;
        PassingOn(s, t, t', ev, i);
        assert Visit(t, s.used[i], ev) == On(t');
        WalkEffect(s, t', ev, i + 1, k);
      }
    }
  }

  /**
   The pass over the used list, from any state in order: unless a process hangs up while it is accepted,
   exactly the first process that has hung up or is found dead is disconnected, the ones before it that
   want to connect are connected, and nothing else changes.
   */
  lemma PassEffect(s: State, ev: Event, k: nat)
    requires Slots(s) && FirstStop(s, ev, k) && NoAbort(s, ev, k)
    ensures Walk(s, s.used, ev).Go? && PassDone(s, Walk(s, s.used, ev).s, ev, k)
  {
    assert s.used[0..] == s.used;
    assert forall q: Slot :: PassedSlot(s, s, ev, 0, q);
    WalkEffect(s, s, ev, 0, k);
  }

  /** A process that hangs up while it is accepted, at entry `i`, before the pass stops. */
  ghost predicate AbortsAt(s: State, ev: Event, i: nat)
  {
    i < |s.used| && Connecting(s, s.used[i], ev) && s.used[i] in ev.aborted && forall j :: 0 <= j < i ==> !Stops(s, s.used[j], ev)
  }

  lemma SameStops(s: State, p: Slot, ev: Event)
    requires IsUsed(s, p)
    ensures EndsPass(s, p, ev) <==> Stops(s, p, ev)
    ensures Accepting(s, p, ev) <==> Connecting(s, p, ev)
  {
  }

  /** The pass ends in the read of a freed node exactly when a process hangs up while it is accepted before the pass stops. */
  lemma StrayEffect(s: State, ev: Event)
    requires Slots(s)
    ensures Walk(s, s.used, ev).Stray? <==> exists i: nat :: AbortsAt(s, ev, i)
  {
    WalkSlots(s, s.used, ev);
    forall i | 0 <= i < |s.used|
      ensures EndsPass(s, s.used[i], ev) <==> Stops(s, s.used[i], ev)
      ensures Accepting(s, s.used[i], ev) <==> Connecting(s, s.used[i], ev)
    {
      assert s.used[i] in s.used;
      SameStops(s, s.used[i], ev);
    }
    if ReachesAbort(s, s.used, ev) {
      var i :| 0 <= i < |s.used| && Accepting(s, s.used[i], ev) && s.used[i] in ev.aborted
               && forall j :: 0 <= j < i ==> !EndsPass(s, s.used[j], ev);
      assert AbortsAt(s, ev, i);
    }
  }

  /** Every pass that does not end in such a read is one of those described. */
  lemma PassHappens(s: State, ev: Event) returns (k: nat)
    requires Slots(s) && Walk(s, s.used, ev).Go?
    ensures FirstStop(s, ev, k) && NoAbort(s, ev, k) && PassDone(s, Walk(s, s.used, ev).s, ev, k)
  {
    k := FindStop(s, ev, 0);
    StrayEffect(s, ev);
    forall j | 0 <= j < k ensures !(Connecting(s, s.used[j], ev) && s.used[j] in ev.aborted) {
      if Connecting(s, s.used[j], ev) && s.used[j] in ev.aborted {
        assert AbortsAt(s, ev, j);
      }
    }
    PassEffect(s, ev, k);
  }

  /**
   A disconnected process in a state in agreement: no name with its index is left in the common index,
   and every name of another process is still there with its id.
   */
  lemma DisconnectedNames(s: State, t: State, k: nat)
    requires Agreement(s) && k < |s.used| && Disconnected(s, t, k)
    ensures forall name :: name in t.tree ==> t.tree[name] / 0x10_0000 != s.used[k]
    ensures forall name :: name in s.tree && s.tree[name] / 0x10_0000 != s.used[k] ==> name in t.tree && t.tree[name] == s.tree[name]
  {
    forall name | name in s.tree ensures name in s.procs[s.used[k]].mboxes <==> s.tree[name] / 0x10_0000 == s.used[k] {
      assert Owned(s, name);
    }
  }

  // ---- Requests ----------------------------------------------------------------------------

  /** The requester is a process the coordinator regards as connected. */
  ghost predicate ByConnected(s: State, id: u32)
  {
    id / 0x10_0000 < 255 && s.procs[id / 0x10_0000].status == Connected
  }

  /** Apart from the names of process `p` and the common index nothing changes. */
  ghost predicate OnlyNamesOf(s: State, t: State, p: Slot)
  {
    && t.free == s.free && t.used == s.used && t.freeCount == s.freeCount && t.counter == s.counter
    && (forall q: Slot :: q != p ==> t.procs[q] == s.procs[q])
    && (var a, b := s.procs[p], t.procs[p];
        b.status == a.status && b.open == a.open && b.pid == a.pid && b.mboxId == a.mboxId)
  }

  /** Name `n` is registered as before, both in the common index and with process `p`. */
  ghost predicate SameName(s: State, t: State, p: Slot, n: string)
  {
    && (n in t.tree <==> n in s.tree) && (n in s.tree && n in t.tree ==> t.tree[n] == s.tree[n])
    && (n in t.procs[p].mboxes <==> n in s.procs[p].mboxes)
    && (n in s.procs[p].mboxes && n in t.procs[p].mboxes ==> t.procs[p].mboxes[n] == s.procs[p].mboxes[n])
  }

  /**
   Adding a new name for a connected process: from then on a locate answers with exactly the id that was
   registered and the pid of its process.  Any other add changes nothing.
   */
  lemma AddEffect(s: State, id: u32, name: string)
    requires InBounds(Add(id, name))
    ensures var t := Handle(s, Add(id, name));
            if ByConnected(s, id) && name !in s.tree then
              var p := id / 0x10_0000;
              && name in t.tree && t.tree[name] == id
              && LocateMbox(t, name) == Found(id, s.procs[p].pid)
              && name in t.procs[p].mboxes
              && t.procs[p].mboxes[name] == (if name in s.procs[p].mboxes then s.procs[p].mboxes[name] else id)
              && OnlyNamesOf(s, t, p) && forall n :: n != name ==> SameName(s, t, p, n)
            else t == s
  {
  }

  /**
   Removing a registered name for a connected process: it is gone from the common index and from the
   index of the requester, and a locate answers that it is not here.  Any other remove changes nothing.
   */
  lemma RemoveEffect(s: State, id: u32, name: string)
    requires InBounds(Remove(id, name))
    ensures var t := Handle(s, Remove(id, name));
            if ByConnected(s, id) && name in s.tree then
              var p := id / 0x10_0000;
              && name !in t.tree && name !in t.procs[p].mboxes && LocateMbox(t, name) == NotHere
              && OnlyNamesOf(s, t, p) && forall n :: n != name ==> SameName(s, t, p, n)
            else t == s
  {
  }

  /** The answer to a locate, and that it changes nothing. */
  lemma LocateEffect(s: State, name: string)
    requires name in s.tree ==> ProcIndex(s.tree[name]) != MAX_PROCESSES
    ensures Handle(s, Locate(name)) == s && Handle(s, Unknown) == s
    ensures name !in s.tree ==> LocateMbox(s, name) == NotHere
    ensures name in s.tree ==>
              var id := s.tree[name];
              if id / 0x10_0000 > 255 then LocateMbox(s, name) == UnknownProcess
              else id / 0x10_0000 < 255 &&
                   LocateMbox(s, name) == if ByConnected(s, id) then Found(id, s.procs[id / 0x10_0000].pid) else JustTerminated
  {
  }

  // ---- A whole iteration -------------------------------------------------------------------

  /**
   One iteration that neither exits nor reads a freed node, in three parts: a registration leads to
   `s1`, the pass to `t`, the request and the counter to the next loop head.
   */
  lemma IterationEffect(s: State, ev: Event) returns (s1: State, k: nat, t: State)
    requires Steady(s) && InBounds(ev.request) && Iterate(s, ev).Go?
    ensures if ev.register == None then s1 == s else Arrives(s, s1, ev.register.value)
    ensures FirstStop(s1, ev, k) && NoAbort(s1, ev, k) && PassDone(s1, t, ev, k)
    ensures var u := Handle(t, ev.request);
            Iterate(s, ev).s == u.(counter := (t.counter + 1) % 10)
    ensures BeforeRequest(s, ev) == Go(t)
  {
    IterateSteady(s, ev);
    PassSlots(s, ev);
    if ev.register.Some? {
      RegisterEffect(s, ev.register.value);
    }
    s1 := BeforePass(s, ev).s;
    k := PassHappens(s1, ev);
    t := Walk(s1, s1.used, ev).s;
  }

  /**
   A process that hangs up is forgotten: if it is the first on the list to have hung up or to be found
   dead, then after the iteration, whatever request came with it, its slot is free and unused, it has no
   name, and locating a name it had registered answers that it is not here, unless that very request
   registered the name anew.
   */
  lemma HangUpForgotten(s: State, ev: Event, k: nat, name: string)
    requires Steady(s) && Agreement(s) && ev.register == None && InBounds(ev.request)
    requires FirstStop(s, ev, k) && NoAbort(s, ev, k) && k < |s.used|
    ensures Iterate(s, ev).Go?
    ensures var t, p := Iterate(s, ev).s, s.used[k];
            && t.procs[p].status == Unused && !t.procs[p].open && t.procs[p].mboxes == map[]
            && p in t.free && p !in t.used
            && (name in s.procs[p].mboxes && !(ev.request.Add? && ev.request.name == name) ==> name !in t.tree)
  {
    PassEffect(s, ev, k);
    var t, p := Walk(s, s.used, ev).s, s.used[k];
    IterateSteady(s, ev);
    HandleSlots(t, ev.request);
    assert Distinct(s.used);
    assert p !in s.used[..k] + s.used[k + 1..];
    assert p in t.free;
    match ev.request
    case Add(id, n) => AddEffect(t, id, n);
    case Remove(id, n) => RemoveEffect(t, id, n);
    case _ =>
  }
}
