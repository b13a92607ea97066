/**
 What holds over every run of the coordinator's main loop, for arbitrary events in every iteration.
 */
module CoordinatorRuns {
  import opened Bytes
  import opened LinkedList
  import opened Coordinator

  ghost predicate Distinct(s: seq<Slot>)
  {
    forall i, j :: 0 <= i < j < |s| ==> s[i] != s[j]
  }

  lemma RemoveFirstDistinct(s: seq<Slot>, p: Slot)
    requires Distinct(s) && p in s
    ensures var r := RemoveFirst(s, p);
            |r| == |s| - 1 && Distinct(r) && forall q: Slot :: q in r <==> q in s && q != p
  {
    var k, r := IndexOf(s, p), RemoveFirst(s, p);
    assert p !in s[..k];
    assert s[..|s|] == s;
    assert k < |s|;
    assert forall i :: 0 <= i < |r| ==> r[i] == if i < k then s[i] else s[i + 1];
    forall q: Slot | q in s && q != p ensures q in r {
      var i :| 0 <= i < |s| && s[i] == q;
      assert r[if i < k then i else i - 1] == q;
    }
  }

  lemma {:induction false} IndexOfDistinct(s: seq<Slot>, k: nat)
    requires Distinct(s) && k < |s|
    ensures IndexOf(s, s[k]) == k
  {
    if k > 0 {
      IndexOfDistinct(s[1..], k - 1);
      assert s[0] != s[k] && s[1..][k - 1] == s[k];
    }
  }

  // ---- Process slots -----------------------------------------------------------------------

  ghost predicate IsFree(s: State, p: Slot)
  {
    2 <= p && s.procs[p].status == Unused && !s.procs[p].open
  }

  ghost predicate IsUsed(s: State, p: Slot)
  {
    2 <= p && (s.procs[p].status == Listening || s.procs[p].status == Connected) && s.procs[p].open
  }

  /**
   Slots 2..254 are split between the two lists without duplicates, the unused ones being the free
   ones; the counter counts the free list; and every slot keeps its mailbox id.
   */
  ghost predicate Slots(s: State)
  {
    && Distinct(s.free) && Distinct(s.used)
    && (forall p: Slot :: p in s.free ==> IsFree(s, p))
    && (forall p: Slot :: p in s.used ==> IsUsed(s, p))
    && (forall p: Slot :: 2 <= p ==> p in s.free || p in s.used)
    && s.freeCount == |s.free| == USABLE - |s.used|
    && s.procs[0].status == Invalid && s.procs[1].status == Connected
    && (forall p: Slot :: 1 <= p ==> s.procs[p].mboxId == p * SHIFT)
  }

  lemma InitSlots(coordPid: int)
    ensures Slots(Init(coordPid))
  {
    var s := Init(coordPid);
    forall p: Slot | 2 <= p ensures p in s.free {
      assert s.free[p - 2] == p;
    }
  }

  lemma RegisterSlots(s: State, pid: int)
    requires Slots(s)
    ensures if |s.used| == USABLE then Register(s, pid) == Exit else Register(s, pid).Go?
    ensures Register(s, pid).Go? ==> Slots(Register(s, pid).s) && Register(s, pid).s.counter == s.counter
  {
    if s.free != [] {
      var p := s.free[0];
      assert p in s.free && IsFree(s, p);
      assert p in s.used ==> IsUsed(s, p);
      assert p !in s.used;
      var t := Register(s, pid).s;
      assert s.free == [p] + s.free[1..];
      forall q: Slot | q in t.free ensures IsFree(t, q) {
        assert q in s.free && q != p;
      }
    }
  }

  lemma ConnectSlots(s: State, p: Slot)
    requires Slots(s) && p in s.used
    ensures Slots(Connect(s, p))
  {
    assert IsUsed(s, p);
  }

  lemma DisconnectSlots(s: State, p: Slot)
    requires Slots(s) && p in s.used
    ensures Slots(Disconnect(s, p))
    ensures forall q: Slot :: q in Disconnect(s, p).used <==> q in s.used && q != p
  {
    assert IsUsed(s, p);
    RemoveFirstDistinct(s.used, p);
    var t := Disconnect(s, p);
    assert p in s.free ==> IsFree(s, p);
    assert p !in s.free;
    forall q: Slot | 2 <= q ensures q in t.free || q in t.used {
      assert q in s.free || q in s.used;
      assert q in s.free ==> q in t.free;
    }
  }

  /** Accepting one process changes nothing for the rest of the pass. */
  lemma ConnectReaches(s: State, p: Slot, list: seq<Slot>, ev: Event)
    requires p !in list
    ensures ReachesAbort(Connect(s, p), list, ev) <==> ReachesAbort(s, list, ev)
  {
    var t := Connect(s, p);
    assert forall i :: 0 <= i < |list| ==> t.procs[list[i]] == s.procs[list[i]];
    assert forall i :: 0 <= i < |list| ==> (Accepting(t, list[i], ev) <==> Accepting(s, list[i], ev));
    assert forall i :: 0 <= i < |list| ==> (EndsPass(t, list[i], ev) <==> EndsPass(s, list[i], ev));
  }

  /** The first entry decides, or the others do. */
  lemma ReachesAbortStep(s: State, list: seq<Slot>, ev: Event)
    requires list != []
    ensures ReachesAbort(s, list, ev) <==>
              (Accepting(s, list[0], ev) && list[0] in ev.aborted)
              || (!EndsPass(s, list[0], ev) && ReachesAbort(s, list[1..], ev))
  {
    var rest := list[1..];
    assert forall i :: 0 <= i < |rest| ==> rest[i] == list[i + 1];
    if i :| 0 <= i < |list| && Accepting(s, list[i], ev) && list[i] in ev.aborted
            && forall j :: 0 <= j < i ==> !EndsPass(s, list[j], ev) {
      if i > 0 {
        assert rest[i - 1] == list[i];
        assert forall j :: 0 <= j < i - 1 ==> rest[j] == list[j + 1];
      }
    }
    if !EndsPass(s, list[0], ev) {
      if i :| 0 <= i < |rest| && Accepting(s, rest[i], ev) && rest[i] in ev.aborted
              && forall j :: 0 <= j < i ==> !EndsPass(s, rest[j], ev) {
        assert list[i + 1] == rest[i];
        assert forall j :: 0 < j < i + 1 ==> list[j] == rest[j - 1];
      }
    }
  }

  /**
   The pass over the used list never makes main exit and reads a freed node exactly when it comes to a
   process that hangs up during accept; up to that moment, or to its end, it keeps the slots in order.
   */
  lemma {:induction false} WalkSlots(s: State, rest: seq<Slot>, ev: Event)
    requires Slots(s) && Distinct(rest) && forall q: Slot :: q in rest ==> q in s.used
    ensures Walk(s, rest, ev) != Exit && Slots(Walk(s, rest, ev).s)
    ensures Walk(s, rest, ev).Stray? <==> ReachesAbort(s, rest, ev)
    ensures Walk(s, rest, ev).Stray? ==> Walk(s, rest, ev).s.counter == s.counter
    ensures 0 <= s.counter < RETRIES ==> -1 <= Walk(s, rest, ev).s.counter < RETRIES
    decreases |rest|
  {
    if rest != [] {
      var p := rest[0];
      assert p in rest && IsUsed(s, p);
      ReachesAbortStep(s, rest, ev);
      forall q: Slot | q in rest[1..] ensures q in s.used && q != p {
        assert q in rest;
      }
      if Accepting(s, p, ev) && p !in ev.aborted {
        ConnectSlots(s, p);
        ConnectReaches(s, p, rest[1..], ev);
        WalkSlots(Connect(s, p), rest[1..], ev);
      } else if Accepting(s, p, ev) || EndsPass(s, p, ev) {
        DisconnectSlots(s, p);
      } else {
        WalkSlots(s, rest[1..], ev);
      }
    }
  }

  lemma HandleSlots(s: State, req: Request)
    requires Slots(s) && InBounds(req)
    ensures Slots(Handle(s, req)) && Handle(s, req).counter == s.counter
  {
    var t := Handle(s, req);
    assert t.free == s.free && t.used == s.used;
    assert forall p: Slot :: t.procs[p].status == s.procs[p].status && t.procs[p].open == s.procs[p].open;
    assert forall p: Slot :: p in s.free ==> IsFree(s, p);
    assert forall p: Slot :: p in s.used ==> IsUsed(s, p);
  }

  ghost predicate Steady(s: State)
  {
    Slots(s) && 0 <= s.counter < RETRIES
  }

  /** In this iteration a process hangs up during accept when the pass comes to it. */
  ghost predicate Aborts(s: State, ev: Event)
  {
    var o := BeforePass(s, ev);
    o.Go? && ReachesAbort(o.s, o.s.used, ev)
  }

  lemma PassSlots(s: State, ev: Event)
    requires Steady(s)
    ensures BeforePass(s, ev) == Exit <==> ev.register.Some? && |s.used| == USABLE
    ensures BeforePass(s, ev).Stray? == false
    ensures BeforePass(s, ev).Go? ==> Steady(BeforePass(s, ev).s)
  {
    if ev.register.Some? {
      RegisterSlots(s, ev.register.value);
    }
  }

  /**
   One iteration with any events: the coordinator exits only on a registration when all 253 slots are
   taken, and reads a freed list node exactly when the pass comes to a process that hangs up during
   accept.  Otherwise, and up to such a read, the slots are in order and the zombie counter is in 0..9.
   */
  lemma IterateSteady(s: State, ev: Event)
    requires Steady(s) && InBounds(ev.request)
    ensures Iterate(s, ev) == Exit <==> ev.register.Some? && |s.used| == USABLE
    ensures Iterate(s, ev).Stray? <==> Aborts(s, ev)
    ensures Iterate(s, ev) != Exit ==> Steady(Iterate(s, ev).s)
    ensures Iterate(s, ev).Go? ==> BeforeRequest(s, ev).Go? && Slots(BeforeRequest(s, ev).s)
  {
    PassSlots(s, ev);
    var o := BeforePass(s, ev);
    if o.Go? {
      WalkSlots(o.s, o.s.used, ev);
      var o1 := Walk(o.s, o.s.used, ev);
      if o1.Go? {
        HandleSlots(o1.s, ev.request);
      }
    }
  }

  // ---- Agreement of the name indexes -------------------------------------------------------

  /** A registered name is in the tree of the connected process its id names, with the same id. */
  ghost predicate Owned(s: State, name: string)
    requires name in s.tree
  {
    var p := ProcIndex(s.tree[name]);
    p < MAX_PROCESSES && s.procs[p].status == Connected
    && name in s.procs[p].mboxes && s.procs[p].mboxes[name] == s.tree[name]
  }

  /**
   The index of all names is the disjoint union of the indexes of the processes, and only connected
   processes have names.
   */
  ghost predicate Agreement(s: State)
  {
    && (forall name :: name in s.tree ==> Owned(s, name))
    && (forall p: Slot, name :: name in s.procs[p].mboxes ==>
                            name in s.tree && ProcIndex(s.tree[name]) == p)
  }

  /** A process that is not connected has no name, neither of its own nor in the common index. */
  lemma NoNameOfDisconnected(s: State, p: Slot)
    requires Agreement(s) && s.procs[p].status != Connected
    ensures s.procs[p].mboxes == map[]
    ensures forall name :: name in s.tree ==> ProcIndex(s.tree[name]) != p
  {
    forall name | name in s.tree ensures ProcIndex(s.tree[name]) != p {
      assert Owned(s, name);
    }
    assert forall name :: name !in s.procs[p].mboxes;
  }

  lemma RegisterAgreement(s: State, pid: int)
    requires Slots(s) && Agreement(s) && Register(s, pid).Go?
    ensures Agreement(Register(s, pid).s)
  {
    var p, t := s.free[0], Register(s, pid).s;
    assert IsFree(s, p);
    NoNameOfDisconnected(s, p);
    forall name | name in t.tree ensures Owned(t, name) {
      assert Owned(s, name);
    }
  }

  lemma ConnectAgreement(s: State, p: Slot)
    requires Agreement(s)
    ensures Agreement(Connect(s, p))
  {
    var t := Connect(s, p);
    forall name | name in t.tree ensures Owned(t, name) {
      assert Owned(s, name);
    }
  }

  lemma DisconnectAgreement(s: State, p: Slot)
    requires Agreement(s)
    ensures Agreement(Disconnect(s, p))
  {
    var t := Disconnect(s, p);
    forall name | name in t.tree ensures Owned(t, name) {
      assert Owned(s, name);
    }
    forall q: Slot, name | name in t.procs[q].mboxes
      ensures name in t.tree && ProcIndex(t.tree[name]) == q
    {
      assert name in s.procs[q].mboxes && q != p;
      assert name !in s.procs[p].mboxes;
    }
  }

  lemma {:induction false} WalkAgreement(s: State, rest: seq<Slot>, ev: Event)
    requires Agreement(s) && Walk(s, rest, ev) != Exit
    ensures Agreement(Walk(s, rest, ev).s)
    decreases |rest|
  {
    if rest != [] {
      var p := rest[0];
      ConnectAgreement(s, p);
      DisconnectAgreement(s, p);
      if s.procs[p].open && p in ev.ready {
        if s.procs[p].status == Listening && p !in ev.aborted {
          WalkAgreement(Connect(s, p), rest[1..], ev);
        }
      } else if !(ChecksZombies(s) && IsZombie(s, p, ev.dead)) {
        WalkAgreement(s, rest[1..], ev);
      }
    }
  }

  lemma AddAgreement(s: State, id: u32, name: string)
    requires Agreement(s) && ProcIndex(id) != MAX_PROCESSES
    ensures Agreement(AddMbox(s, id, name))
  {
    var t := AddMbox(s, id, name);
    forall n | n in t.tree ensures Owned(t, n) {
      assert n in s.tree ==> Owned(s, n);
    }
  }

  /** A remove request that takes effect names a mailbox registered by the requesting process. */
  ghost predicate Proper(s: State, req: Request)
    requires InBounds(req)
  {
    req.Remove? && FromConnected(s, req.id) && req.name in s.tree ==> ProcIndex(s.tree[req.name]) == ProcIndex(req.id)
  }

  /** Handling a request keeps the indexes in agreement exactly when the request is proper. */
  lemma RequestKeepsAgreementIff(s: State, req: Request)
    requires Agreement(s) && InBounds(req)
    ensures Agreement(Handle(s, req)) <==> Proper(s, req)
  {
    match req
    case Add(id, name) => AddAgreement(s, id, name);
    case Remove(id, name) =>
      if FromConnected(s, id) && name in s.tree {
        var t, p := RemoveMbox(s, id, name), ProcIndex(id);
        assert Owned(s, name);
        if ProcIndex(s.tree[name]) == p {
          forall n | n in t.tree ensures Owned(t, n) {
            assert Owned(s, n);
          }
          forall q: Slot, n | n in t.procs[q].mboxes
            ensures n in t.tree && ProcIndex(t.tree[n]) == q
          {
            assert n in s.procs[q].mboxes;
          }
        } else {
          var q := ProcIndex(s.tree[name]);
          assert name in t.procs[q].mboxes && name !in t.tree;
        }
      }
    case _ =>
  }

  /** A locate request answers with the connected owner of the name, if the name is registered. */
  lemma LocateFindsOwner(s: State, name: string)
    requires Agreement(s)
    ensures name in s.tree ==> ProcIndex(s.tree[name]) != MAX_PROCESSES
    ensures LocateMbox(s, name) == NotHere <==> name !in s.tree
    ensures name in s.tree ==>
              LocateMbox(s, name) == Found(s.tree[name], s.procs[ProcIndex(s.tree[name])].pid)
  {
    assert name in s.tree ==> Owned(s, name);
  }

  // ---- Runs --------------------------------------------------------------------------------

  ghost predicate AllInBounds(evs: seq<Event>)
  {
    forall i :: 0 <= i < |evs| ==> InBounds(evs[i].request)
  }

  /** What becomes of main in these iterations. */
  function Run(s: State, evs: seq<Event>): Outcome
    requires AllInBounds(evs)
    decreases |evs|
  {
    if evs == [] then Go(s)
    else
      assert InBounds(evs[0].request) && forall i :: 0 <= i < |evs[1..]| ==> evs[1..][i] == evs[i + 1];
      var o := Iterate(s, evs[0]);
      if o.Go? then Run(o.s, evs[1..]) else o
  }

  /** In every run that does not exit, slots and counter are in order to the end, or to the first stray read. */
  lemma {:induction false} RunSteady(s: State, evs: seq<Event>)
    requires Steady(s) && AllInBounds(evs)
    ensures Run(s, evs) != Exit ==> Steady(Run(s, evs).s)
    decreases |evs|
  {
    if evs != [] {
      IterateSteady(s, evs[0]);
      assert forall i :: 0 <= i < |evs[1..]| ==> evs[1..][i] == evs[i + 1];
      if Iterate(s, evs[0]).Go? {
        RunSteady(Iterate(s, evs[0]).s, evs[1..]);
      }
    }
  }

  lemma SlotsInEveryRun(coordPid: int, evs: seq<Event>)
    requires AllInBounds(evs) && Run(Init(coordPid), evs) != Exit
    ensures Steady(Run(Init(coordPid), evs).s)
  {
    InitSlots(coordPid);
    RunSteady(Init(coordPid), evs);
  }

  /** Every request of the run is proper in the state in which it is handled. */
  ghost predicate AllProper(s: State, evs: seq<Event>)
    requires AllInBounds(evs)
    decreases |evs|
  {
    evs == [] ||
    (assert InBounds(evs[0].request) && forall i :: 0 <= i < |evs[1..]| ==> evs[1..][i] == evs[i + 1];
     Iterate(s, evs[0]).Go? ==>
       Proper(BeforeRequest(s, evs[0]).s, evs[0].request) && AllProper(Iterate(s, evs[0]).s, evs[1..]))
  }

  /** The indexes agree at every loop head of the run. */
  ghost predicate AlwaysAgree(s: State, evs: seq<Event>)
    requires AllInBounds(evs)
    decreases |evs|
  {
    Agreement(s) &&
    (evs == [] ||
     (assert InBounds(evs[0].request) && forall i :: 0 <= i < |evs[1..]| ==> evs[1..][i] == evs[i + 1];
      Iterate(s, evs[0]).Go? ==> AlwaysAgree(Iterate(s, evs[0]).s, evs[1..])))
  }

  /** Up to its request an iteration keeps the indexes in agreement. */
  lemma PassAgreement(s: State, ev: Event)
    requires Steady(s) && Agreement(s) && BeforeRequest(s, ev) != Exit
    ensures Agreement(BeforeRequest(s, ev).s)
  {
    PassSlots(s, ev);
    if ev.register.Some? {
      RegisterAgreement(s, ev.register.value);
    }
    var s1 := BeforePass(s, ev).s;
    WalkAgreement(s1, s1.used, ev);
  }

  lemma IterateAgreementIff(s: State, ev: Event)
    requires Steady(s) && Agreement(s) && InBounds(ev.request) && Iterate(s, ev).Go?
    ensures Agreement(BeforeRequest(s, ev).s)
    ensures Agreement(Iterate(s, ev).s) <==> Proper(BeforeRequest(s, ev).s, ev.request)
  {
    PassAgreement(s, ev);
    var s1 := BeforeRequest(s, ev).s;
    RequestKeepsAgreementIff(s1, ev.request);
    TickAgreement(Handle(s1, ev.request));
  }

  lemma TickAgreement(s: State)
    ensures Agreement(Tick(s)) <==> Agreement(s)
  {
    assert forall name :: name in s.tree ==> (Owned(Tick(s), name) <==> Owned(s, name));
  }

  /**
   Over every run from a state in agreement: the indexes agree at every loop head exactly when no
   process ever has the name of another process's mailbox removed.
   */
  lemma {:induction false} AgreementInEveryRunIff(s: State, evs: seq<Event>)
    requires Steady(s) && Agreement(s) && AllInBounds(evs)
    ensures AlwaysAgree(s, evs) <==> AllProper(s, evs)
    decreases |evs|
  {
    if evs != [] {
      IterateSteady(s, evs[0]);
      assert forall i :: 0 <= i < |evs[1..]| ==> evs[1..][i] == evs[i + 1];
      if Iterate(s, evs[0]).Go? {
        IterateAgreementIff(s, evs[0]);
        if Agreement(Iterate(s, evs[0]).s) {
          AgreementInEveryRunIff(Iterate(s, evs[0]).s, evs[1..]);
        }
      }
    }
  }

  // ---- Reads of freed list nodes -----------------------------------------------------------

  /** Some iteration of the run passes over a process that hangs up during accept. */
  ghost predicate EverAborts(s: State, evs: seq<Event>)
    requires AllInBounds(evs)
    decreases |evs|
  {
    evs != [] &&
    (assert InBounds(evs[0].request) && forall i :: 0 <= i < |evs[1..]| ==> evs[1..][i] == evs[i + 1];
     Aborts(s, evs[0]) || (Iterate(s, evs[0]).Go? && EverAborts(Iterate(s, evs[0]).s, evs[1..])))
  }

  /** A run reads a freed node if and only if a pass comes to a process that hangs up during accept. */
  lemma {:induction false} StrayInRunIff(s: State, evs: seq<Event>)
    requires Steady(s) && AllInBounds(evs)
    ensures Run(s, evs).Stray? <==> EverAborts(s, evs)
    decreases |evs|
  {
    if evs != [] {
      IterateSteady(s, evs[0]);
      assert forall i :: 0 <= i < |evs[1..]| ==> evs[1..][i] == evs[i + 1];
      if Iterate(s, evs[0]).Go? {
        StrayInRunIff(Iterate(s, evs[0]).s, evs[1..]);
      }
    }
  }

  // ---- Locating over whole runs ------------------------------------------------------------

  lemma InitAgreement(coordPid: int)
    ensures Steady(Init(coordPid)) && Agreement(Init(coordPid))
  {
    InitSlots(coordPid);
  }

  /** A locate handled in this state finds nothing or a connected owner. */
  ghost predicate Answered(s: State, req: Request)
  {
    req.Locate? ==>
      && (req.name in s.tree ==> ProcIndex(s.tree[req.name]) != MAX_PROCESSES)
      && (LocateMbox(s, req.name).NotHere? || LocateMbox(s, req.name).Found?)
  }

  /** In the state in which a request of the run is handled no unconnected process has a name, and locates are answered. */
  ghost predicate AllAnswered(s: State, evs: seq<Event>)
    requires AllInBounds(evs)
    decreases |evs|
  {
    evs == [] ||
    (assert InBounds(evs[0].request) && forall i :: 0 <= i < |evs[1..]| ==> evs[1..][i] == evs[i + 1];
     Iterate(s, evs[0]).Go? ==>
       var s1 := BeforeRequest(s, evs[0]).s;
       && Answered(s1, evs[0].request)
       && (forall p: Slot :: s1.procs[p].status != Connected ==> s1.procs[p].mboxes == map[])
       && (forall name :: name in s1.tree ==>
              ProcIndex(s1.tree[name]) < MAX_PROCESSES && s1.procs[ProcIndex(s1.tree[name])].status == Connected)
       && AllAnswered(Iterate(s, evs[0]).s, evs[1..]))
  }

  lemma AgreementAnswers(s: State, req: Request)
    requires Agreement(s)
    ensures Answered(s, req)
    ensures forall p: Slot :: s.procs[p].status != Connected ==> s.procs[p].mboxes == map[]
    ensures forall name :: name in s.tree ==>
              ProcIndex(s.tree[name]) < MAX_PROCESSES && s.procs[ProcIndex(s.tree[name])].status == Connected
  {
    if req.Locate? {
      LocateFindsOwner(s, req.name);
    }
    forall p: Slot | s.procs[p].status != Connected ensures s.procs[p].mboxes == map[] {
      NoNameOfDisconnected(s, p);
    }
    forall name | name in s.tree
      ensures ProcIndex(s.tree[name]) < MAX_PROCESSES && s.procs[ProcIndex(s.tree[name])].status == Connected
    {
      assert Owned(s, name);
    }
  }

  lemma {:induction false} RunAnswers(s: State, evs: seq<Event>)
    requires Steady(s) && Agreement(s) && AllInBounds(evs) && AllProper(s, evs)
    ensures AllAnswered(s, evs)
    decreases |evs|
  {
    if evs != [] {
      IterateSteady(s, evs[0]);
      assert forall i :: 0 <= i < |evs[1..]| ==> evs[1..][i] == evs[i + 1];
      if Iterate(s, evs[0]).Go? {
        IterateAgreementIff(s, evs[0]);
        AgreementAnswers(BeforeRequest(s, evs[0]).s, evs[0].request);
        RunAnswers(Iterate(s, evs[0]).s, evs[1..]);
      }
    }
  }

  /**
   From the start, in every run in which no process has the mailbox of another one removed: whenever a
   locate is handled it yields NotHere or the connected owner, never the branch for a just-terminated
   process, and no name of an unconnected process is in any index.
   */
  lemma LocatesInEveryRun(coordPid: int, evs: seq<Event>)
    requires AllInBounds(evs) && AllProper(Init(coordPid), evs)
    ensures AllAnswered(Init(coordPid), evs)
  {
    InitAgreement(coordPid);
    RunAnswers(Init(coordPid), evs);
  }
}
