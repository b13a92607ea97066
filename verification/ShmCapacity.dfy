/**
 How many messages of each pool the shared-memory queue can take: when the early return of
 posixshm_send is taken, that it can be reached for every pool, and how callers avoid it.
 */
module ShmCapacity {
  import opened ShmLayout
  import opened Messages
  import opened ShmMemory
  import opened ShmQueue
  import opened ShmProtocol
  import opened ShmRuns

  // ---- Counting messages by pool -----------------------------------------------------------

  function CountClass(msgs: seq<Message>, pool: nat): nat
  {
    if msgs == [] then 0 else InClass(msgs[0], pool) + CountClass(msgs[1..], pool)
  }

  lemma {:induction false} CountAppend(msgs: seq<Message>, msg: Message, pool: nat)
    ensures CountClass(msgs + [msg], pool) == CountClass(msgs, pool) + InClass(msg, pool)
  {
    if msgs == [] {
      assert [] + [msg] == [msg];
    } else {
      assert (msgs + [msg])[1..] == msgs[1..] + [msg];
      CountAppend(msgs[1..], msg, pool);
    }
  }

  /** Indexes of the queued slots of a pool. */
  ghost function SlotsOf(chain: seq<Ref>, pool: nat): set<int>
  {
    set r | r in chain && r.pool == pool :: r.slot
  }

  /** A further slot at the front adds its index if it is of the pool. */
  lemma SlotsOfFirst(chain: seq<Ref>, pool: nat)
    requires chain != [] && Distinct(chain)
    ensures Distinct(chain[1..]) && chain[0] !in chain[1..]
    ensures SlotsOf(chain, pool) == SlotsOf(chain[1..], pool) + if chain[0].pool == pool then {chain[0].slot} else {}
  {
    assert chain == [chain[0]] + chain[1..];
  }

  lemma {:induction false} SlotsOfCount(chain: seq<Ref>, msgs: seq<Message>, pool: nat)
    requires ByClass(chain, msgs) && Distinct(chain)
    ensures |SlotsOf(chain, pool)| == CountClass(msgs, pool)
    decreases |chain|
  {
    if chain != [] {
      var r, rest := chain[0], chain[1..];
      SlotsOfFirst(chain, pool);
      SlotsOfMember(rest, pool, r.slot);
      SlotsOfCount(rest, msgs[1..], pool);
      assert InClass(msgs[0], pool) == if r.pool == pool then 1 else 0;
    }
  }

  ghost function UpTo(n: nat): (s: set<int>)
    ensures |s| == n && forall j :: j in s <==> 0 <= j < n
  {
    if n == 0 then {} else UpTo(n - 1) + {n - 1}
  }

  lemma SubsetCount(a: set<int>, b: set<int>)
    requires a <= b
    ensures |a| <= |b| && (|a| == |b| <==> a == b)
  {
    assert b == a + (b - a);
    assert |b| == |a| + |b - a|;
  }

  lemma SlotsOfMember(chain: seq<Ref>, pool: nat, j: int)
    ensures j in SlotsOf(chain, pool) <==> Ref(pool, j) in chain
  {
    if Ref(pool, j) in chain {
      assert Ref(pool, j).slot in SlotsOf(chain, pool);
    }
  }

  lemma SlotsInPool(m: Region, chain: seq<Ref>, msgs: seq<Message>, pool: nat)
    requires Queued(m, chain, msgs) && pool < STATIC_POOLS
    ensures SlotsOf(chain, pool) <= UpTo(NumSlots(pool))
    ensures PoolFull(chain, pool) <==> SlotsOf(chain, pool) == UpTo(NumSlots(pool))
  {
    forall j ensures j in SlotsOf(chain, pool) <==> Ref(pool, j) in chain {
      SlotsOfMember(chain, pool, j);
    }
    forall j | j in SlotsOf(chain, pool) ensures 0 <= j < NumSlots(pool) {
      var i: nat :| i < |chain| && chain[i] == Ref(pool, j);
      assert LinkOk(Abs(m), chain, Wires(msgs), i);
    }
  }

  /** A pool never holds more messages than it has slots, and it is full exactly when it holds as many. */
  lemma ClassFull(m: Region, chain: seq<Ref>, msgs: seq<Message>, pool: nat)
    requires Queued(m, chain, msgs) && ByClass(chain, msgs) && pool < STATIC_POOLS
    ensures CountClass(msgs, pool) <= NumSlots(pool)
    ensures PoolFull(chain, pool) <==> CountClass(msgs, pool) == NumSlots(pool)
  {
    SlotsOfCount(chain, msgs, pool);
    SlotsInPool(m, chain, msgs, pool);
    SubsetCount(SlotsOf(chain, pool), UpTo(NumSlots(pool)));
  }

  lemma PendingClass(s: State, pool: nat)
    requires Inv(s) && pool < STATIC_POOLS
    ensures CountClass(Pending(s.d), pool) <= NumSlots(pool)
    ensures PoolFull(s.d.chain, pool) <==> CountClass(Pending(s.d), pool) == NumSlots(pool)
  {
    ClassFull(ApplyAll(s.d.mem, s.d.todo), s.d.chain, Pending(s.d), pool);
  }

  /** Pool of the message a sender searches a slot for. */
  function Wanted(s: State, k: nat): (pool: nat)
    requires Enabled(s, Search(k))
    ensures pool < STATIC_POOLS
  {
    PoolFor(Size(s.c.senders[k].msg))
  }

  /** There are fewer messages of the pool pending than the pool has slots. */
  ghost predicate Room(s: State, step: Step)
    requires Inv(s) && Enabled(s, step)
  {
    step.Search? ==> CountClass(Pending(s.d), Wanted(s, step.k)) < NumSlots(Wanted(s, step.k))
  }

  /**
   A sender takes the early return exactly when as many messages of its pool are sent and not yet
   delivered as the pool has slots.
   */
  lemma StuckIffNoRoom(s: State, k: nat)
    requires Inv(s) && Enabled(s, Search(k))
    ensures Apply(s, Search(k)).c.senders[k].Stuck? <==> !Room(s, Search(k))
  {
    StuckIffPoolFull(s, k);
    PendingClass(s, Wanted(s, k));
  }

  /** A search with room links the message in and leaves the sender with its stores to make. */
  lemma FoundSearch(s: State, k: nat)
    requires Inv(s) && Enabled(s, Search(k)) && Room(s, Search(k))
    ensures var s' := Apply(s, Search(k));
            && Inv(s') && s'.c == s.c.(senders := s.c.senders[k := Writing])
            && Pending(s'.d) == Pending(s.d) + [s.c.senders[k].msg]
  {
    StepInv(s, Search(k));
    PendingClass(s, Wanted(s, k));
    HolderFindsNoStores(s.c, |Pending(s.d)|, k);
    SearchContent(s.d, s.c.senders[k].msg);
  }

  // ---- Whole runs --------------------------------------------------------------------------

  ghost predicate RoomAlways(s: State, steps: seq<Step>)
    requires Inv(s) && IsRun(s, steps)
    decreases |steps|
  {
    steps == [] || (Room(s, steps[0]) && (StepInv(s, steps[0]); RoomAlways(Apply(s, steps[0]), steps[1..])))
  }

  lemma AdvanceNoneStuck(s: State, step: Step, found: bool)
    requires Enabled(s, step) && NoneStuck(s.c)
    ensures NoneStuck(Advance(s.c, step, found)) <==> !step.Search? || found
  {
    var c := Advance(s.c, step, found);
    if step.Search? {
      assert c.senders[step.k].Stuck? <==> !found;
    }
  }

  /** Only a search without room makes a sender stuck. */
  lemma StepStuckIff(s: State, step: Step)
    requires Inv(s) && Enabled(s, step) && NoneStuck(s.c)
    ensures NoneStuck(Apply(s, step).c) <==> Room(s, step)
  {
    if step.Search? {
      StuckIffNoRoom(s, step.k);
      AdvanceNoneStuck(s, step, Finds(s.d, s.c.senders[step.k].msg));
    } else {
      AdvanceNoneStuck(s, step, true);
    }
  }

  /** No sender ever takes the early return if and only if every search of the run has room. */
  lemma {:induction false} NoneStuckIff(s: State, steps: seq<Step>)
    requires Inv(s) && IsRun(s, steps) && NoneStuck(s.c)
    ensures NoneStuck(Exec(s, steps).c) <==> RoomAlways(s, steps)
    decreases |steps|
  {
    if steps != [] {
      var s1 := Apply(s, steps[0]);
      StepInv(s, steps[0]);
      StepStuckIff(s, steps[0]);
      if NoneStuck(s1.c) {
        NoneStuckIff(s1, steps[1..]);
      } else {
        var k :| 0 <= k < |s1.c.senders| && s1.c.senders[k].Stuck?;
        StuckFreezesQueue(s1, k, steps[1..]);
        assert Exec(s, steps).c.senders[k].Stuck?;
      }
    }
  }

  /** Nothing but a new call can happen. */
  ghost predicate AtRest(s: State)
  {
    forall step :: Enabled(s, step) ==> step.Call?
  }

  lemma InitNoneStuck(n: nat, m: Region)
    requires Queued(m, [], [])
    ensures Inv(Init(n, m)) && NoneStuck(Init(n, m).c)
  {
    InitInv(n, m);
  }

  /**
   From the start, for any number of senders and any interleaving that has come to rest: everything was
   delivered and every sender has returned if and only if every slot search along the run found fewer
   messages of its pool pending than the pool has slots.
   */
  lemma DrainedIffRoom(n: nat, m: Region, steps: seq<Step>)
    requires Queued(m, [], []) && IsRun(Init(n, m), steps) && AtRest(Exec(Init(n, m), steps))
    ensures Inv(Init(n, m))
    ensures Drained(Exec(Init(n, m), steps)) <==> RoomAlways(Init(n, m), steps)
  {
    InitNoneStuck(n, m);
    RunInv(Init(n, m), steps);
    NoneStuckIff(Init(n, m), steps);
    var s := Exec(Init(n, m), steps);
    if NoneStuck(s.c) && !Drained(s) {
      var step := NoDeadlock(s);
    }
  }

  /** In every interleaving no pool ever holds more messages than it has slots. */
  lemma PoolBoundInEveryRun(n: nat, m: Region, steps: seq<Step>, pool: nat)
    requires Queued(m, [], []) && IsRun(Init(n, m), steps) && pool < STATIC_POOLS
    ensures Inv(Exec(Init(n, m), steps)) && CountClass(Pending(Exec(Init(n, m), steps).d), pool) <= NumSlots(pool)
  {
    InitInv(n, m);
    RunInv(Init(n, m), steps);
    PendingClass(Exec(Init(n, m), steps), pool);
  }

  // ---- Flow control by the callers ---------------------------------------------------------

  /** Messages of a pool that were passed to posixshm_send and are neither delivered nor refused. */
  function InFlight(s: State, pool: nat): nat
    requires |s.d.delivered| <= |s.d.sent|
  {
    Total(s.c.senders, Class(pool)) + CountClass(Pending(s.d), pool)
  }

  ghost predicate Bounded(s: State)
    requires |s.d.delivered| <= |s.d.sent|
  {
    forall pool: nat :: pool < STATIC_POOLS ==> InFlight(s, pool) <= NumSlots(pool)
  }

  /** A call is made only while fewer messages of its pool are in flight than the pool has slots. */
  ghost predicate Metered(s: State, step: Step)
    requires Inv(s) && Enabled(s, step)
  {
    step.Call? ==> InFlight(s, PoolFor(Size(step.msg))) < NumSlots(PoolFor(Size(step.msg)))
  }

  ghost predicate MeteredAlways(s: State, steps: seq<Step>)
    requires Inv(s) && IsRun(s, steps)
    decreases |steps|
  {
    steps == [] || (Metered(s, steps[0]) && (StepInv(s, steps[0]); MeteredAlways(Apply(s, steps[0]), steps[1..])))
  }

  lemma BoundedRoom(s: State, step: Step)
    requires Inv(s) && Enabled(s, step) && Bounded(s)
    ensures Room(s, step)
  {
    if step.Search? {
      var pool := Wanted(s, step.k);
      TotalUpdate(s.c.senders, step.k, Idle, Class(pool));
      assert InFlight(s, pool) <= NumSlots(pool);
    }
  }

  /** A message that passes from its sender to the queue stays in flight. */
  lemma LinkedFlight(s: State, s': State, k: nat, pool: nat)
    requires |s.d.delivered| <= |s.d.sent| && |s'.d.delivered| <= |s'.d.sent|
    requires k < |s.c.senders| && s.c.senders[k].Locked? && s'.c.senders == s.c.senders[k := Writing]
    requires Pending(s'.d) == Pending(s.d) + [s.c.senders[k].msg]
    ensures InFlight(s', pool) == InFlight(s, pool)
  {
    CountAppend(Pending(s.d), s.c.senders[k].msg, pool);
    TotalUpdate(s.c.senders, k, Writing, Class(pool));
  }

  lemma SearchFlight(s: State, k: nat, pool: nat)
    requires Inv(s) && Enabled(s, Search(k)) && Room(s, Search(k))
    ensures var s' := Apply(s, Search(k)); Inv(s') && InFlight(s', pool) == InFlight(s, pool)
  {
    FoundSearch(s, k);
    LinkedFlight(s, Apply(s, Search(k)), k, pool);
  }

  lemma TakeFlight(s: State, pool: nat)
    requires Inv(s) && Enabled(s, RxTake)
    ensures var s' := Apply(s, RxTake); Inv(s') && InFlight(s', pool) <= InFlight(s, pool)
  {
    StepInv(s, RxTake);
    HolderFindsNoStores(s.c, |Pending(s.d)|, 0);
    TakeContent(s.d);
  }

  lemma StoreFlight(s: State, step: Step, pool: nat)
    requires Inv(s) && Enabled(s, step) && (step.SendStore? || step.RxStore?)
    ensures var s' := Apply(s, step); Inv(s') && InFlight(s', pool) == InFlight(s, pool)
  {
    StepInv(s, step);
    StoreContent(s.d);
  }

  /** Apart from the search only a new call changes how many messages of a pool the senders carry. */
  lemma AdvanceClass(s: State, step: Step, pool: nat)
    requires Enabled(s, step) && !step.Search?
    ensures Total(Advance(s.c, step, true).senders, Class(pool))
            == Total(s.c.senders, Class(pool)) + if step.Call? then InClass(step.msg, pool) else 0
  {
    if BySender(step) {
      var p := NextPhase(s.c.senders[step.k], step, true);
      TotalUpdate(s.c.senders, step.k, p, Class(pool));
      assert Advance(s.c, step, true).senders == s.c.senders[step.k := p];
    }
  }

  lemma AdvanceFlight(s: State, step: Step, pool: nat)
    requires Inv(s) && Enabled(s, step)
    requires !step.Search? && !step.RxTake? && !step.SendStore? && !step.RxStore?
    ensures var s' := Apply(s, step);
            Inv(s') && InFlight(s', pool) == InFlight(s, pool) + if step.Call? then InClass(step.msg, pool) else 0
  {
    StepInv(s, step);
    AdvanceClass(s, step, pool);
    assert Apply(s, step) == s.(c := Advance(s.c, step, true));
  }

  lemma MeteredStep(s: State, step: Step)
    requires Inv(s) && Enabled(s, step) && Bounded(s) && Metered(s, step)
    ensures Inv(Apply(s, step)) && Bounded(Apply(s, step))
  {
    StepInv(s, step);
    BoundedRoom(s, step);
    forall pool: nat | pool < STATIC_POOLS ensures InFlight(Apply(s, step), pool) <= NumSlots(pool) {
      assert InFlight(s, pool) <= NumSlots(pool);
      if step.Search? {
        SearchFlight(s, step.k, pool);
      } else if step.RxTake? {
        TakeFlight(s, pool);
      } else if step.SendStore? || step.RxStore? {
        StoreFlight(s, step, pool);
      } else {
        AdvanceFlight(s, step, pool);
      }
    }
  }

  lemma {:induction false} MeteredHasRoom(s: State, steps: seq<Step>)
    requires Inv(s) && IsRun(s, steps) && Bounded(s) && MeteredAlways(s, steps)
    ensures RoomAlways(s, steps)
    decreases |steps|
  {
    if steps != [] {
      BoundedRoom(s, steps[0]);
      MeteredStep(s, steps[0]);
      MeteredHasRoom(Apply(s, steps[0]), steps[1..]);
    }
  }

  lemma InitBounded(n: nat, m: Region)
    requires Queued(m, [], [])
    ensures Inv(Init(n, m)) && Bounded(Init(n, m))
  {
    InitInv(n, m);
    forall pool: nat | pool < STATIC_POOLS ensures InFlight(Init(n, m), pool) <= NumSlots(pool) {
      TotalIdle(n, Class(pool));
    }
  }

  /**
   What callers can do: if posixshm_send is called only while fewer messages of the pool are in flight
   than the pool has slots, then in every interleaving nobody takes the early return, and a run that
   has come to rest has delivered everything.
   */
  lemma MeteredRunsDrain(n: nat, m: Region, steps: seq<Step>)
    requires Queued(m, [], []) && IsRun(Init(n, m), steps)
    ensures Inv(Init(n, m))
    ensures MeteredAlways(Init(n, m), steps) ==> NoneStuck(Exec(Init(n, m), steps).c)
    ensures MeteredAlways(Init(n, m), steps) && AtRest(Exec(Init(n, m), steps)) ==> Drained(Exec(Init(n, m), steps))
  {
    InitNoneStuck(n, m);
    InitBounded(n, m);
    if MeteredAlways(Init(n, m), steps) {
      MeteredHasRoom(Init(n, m), steps);
      NoneStuckIff(Init(n, m), steps);
      if AtRest(Exec(Init(n, m), steps)) {
        DrainedIffRoom(n, m, steps);
      }
    }
  }

  // ---- The early return is reached ---------------------------------------------------------

  predicate StepOf(step: Step, k: nat)
  {
    BySender(step) && step.k == k
  }

  ghost predicate ClosedUnder(states: iset<State>, k: nat)
  {
    forall s, step :: s in states && StepOf(step, k) && Enabled(s, step) ==> Apply(s, step) in states
  }

  /** Steps of sender `k` alone lead from `s` to `t`: no set closed under them has `s` but not `t`. */
  ghost predicate Reaches(s: State, k: nat, t: State)
  {
    forall states: iset<State> :: s in states && ClosedUnder(states, k) ==> t in states
  }

  lemma ReachesStep(s: State, k: nat, t: State, step: Step)
    requires Reaches(s, k, t) && StepOf(step, k) && Enabled(t, step)
    ensures Reaches(s, k, Apply(t, step))
  {
    forall states: iset<State> | s in states && ClosedUnder(states, k) ensures Apply(t, step) in states {
      assert t in states;
    }
  }

  ghost predicate IsRunOf(s: State, k: nat, steps: seq<Step>, t: State)
  {
    IsRun(s, steps) && Exec(s, steps) == t && forall i :: 0 <= i < |steps| ==> StepOf(steps[i], k)
  }

  lemma {:induction false} RunStep(s: State, k: nat, steps: seq<Step>, t: State, step: Step)
    requires IsRunOf(s, k, steps, t) && StepOf(step, k) && Enabled(t, step)
    ensures IsRunOf(s, k, steps + [step], Apply(t, step))
    decreases |steps|
  {
    if steps == [] {
      assert [step][1..] == [] && [] + [step] == [step];
      assert IsRun(Apply(t, step), []);
    } else {
      assert (steps + [step])[1..] == steps[1..] + [step] && (steps + [step])[0] == steps[0];
      assert forall i :: 0 <= i < |steps[1..]| ==> steps[1..][i] == steps[i + 1];
      RunStep(Apply(s, steps[0]), k, steps[1..], t, step);
    }
  }

  ghost predicate Visited(s: State, k: nat, t: State)
  {
    exists run :: IsRunOf(s, k, run, t)
  }

  /** What is reached is reached by a run. */
  lemma RunTo(s: State, k: nat, t: State) returns (steps: seq<Step>)
    requires Reaches(s, k, t)
    ensures IsRunOf(s, k, steps, t)
  {
    var states := iset u | Visited(s, k, u);
    assert s in states by {
      assert IsRunOf(s, k, [], s);
    }
    forall u, step | u in states && StepOf(step, k) && Enabled(u, step) ensures Apply(u, step) in states {
      var run :| IsRunOf(s, k, run, u);
      RunStep(s, k, run, u, step);
    }
    assert ClosedUnder(states, k);
    assert t in states;
    steps :| IsRunOf(s, k, steps, t);
  }

  /** Nobody is inside a call and the receiver waits. */
  ghost predicate Quiet(s: State)
  {
    && Inv(s) && s.c.mutex == 1 && s.c.rx.RxWaiting? && s.d.todo == []
    && forall k :: 0 <= k < |s.c.senders| ==> s.c.senders[k].Idle?
  }

  lemma QuietSlots(s: State)
    requires Quiet(s)
    ensures s.c.slots + |Pending(s.d)| == MAX_SLOTS
  {
    if Total(s.c.senders, Ticket) > 0 {
      var k := TotalWitness(s.c.senders, Ticket);
    }
  }

  lemma Overwrite(ps: seq<Phase>, k: nat, p: Phase, q: Phase)
    requires k < |ps|
    ensures ps[k := p][k := q] == ps[k := q]
  {
  }

  /** From a quiet state a sender gets as far as its search. */
  lemma LockRun(s: State, k: nat, msg: Message) returns (t: State)
    requires Quiet(s) && k < |s.c.senders| && Sendable(msg) && |Pending(s.d)| < MAX_SLOTS
    ensures Reaches(s, k, t) && Inv(t) && t.d == s.d
    ensures t.c.senders == s.c.senders[k := Locked(msg)] && t.c.mutex == 0 && t.c.rx == RxWaiting
  {
    QuietSlots(s);
    var t1 := Apply(s, Call(k, msg));
    StepInv(s, Call(k, msg));
    ReachesStep(s, k, s, Call(k, msg));
    var t2 := Apply(t1, WaitSlot(k));
    StepInv(t1, WaitSlot(k));
    ReachesStep(s, k, t1, WaitSlot(k));
    t := Apply(t2, WaitMutex(k));
    StepInv(t2, WaitMutex(k));
    ReachesStep(s, k, t2, WaitMutex(k));
    Overwrite(s.c.senders, k, Wanting(msg), Ticketed(msg));
    Overwrite(s.c.senders, k, Ticketed(msg), Locked(msg));
  }

  lemma FoundNext(s: State, k: nat, msg: Message) returns (t: State)
    requires Inv(s) && k < |s.c.senders| && s.c.senders[k] == Locked(msg) && Sendable(msg)
    requires CountClass(Pending(s.d), PoolFor(Size(msg))) < NumSlots(PoolFor(Size(msg)))
    ensures Reaches(s, k, t) && Inv(t)
    ensures Pending(t.d) == Pending(s.d) + [msg] && t.c == s.c.(senders := s.c.senders[k := Writing])
  {
    t := Apply(s, Search(k));
    assert Room(s, Search(k));
    FoundSearch(s, k);
    ReachesStep(s, k, s, Search(k));
  }

  /** A sender that has found a slot makes all its stores. */
  lemma {:induction false} StoresRun(s: State, k: nat) returns (t: State)
    requires Inv(s) && k < |s.c.senders| && s.c.senders[k].Writing?
    ensures Reaches(s, k, t) && Inv(t) && t.c == s.c && t.d.todo == [] && Pending(t.d) == Pending(s.d)
    decreases |s.d.todo|
  {
    t := s;
    if s.d.todo != [] {
      StoreNext(s, k);
      t := StoresRun(Apply(s, SendStore(k)), k);
    }
  }

  lemma StoreNext(s: State, k: nat)
    requires Inv(s) && Enabled(s, SendStore(k))
    ensures var t := Apply(s, SendStore(k));
            Reaches(s, k, t) && Inv(t) && t.c == s.c && |t.d.todo| < |s.d.todo| && Pending(t.d) == Pending(s.d)
  {
    StepInv(s, SendStore(k));
    StoreContent(s.d);
    ReachesStep(s, k, s, SendStore(k));
  }

  lemma UnlockRun(s: State, k: nat) returns (t: State)
    requires Inv(s) && k < |s.c.senders| && s.c.senders[k].Writing? && s.d.todo == []
    ensures Reaches(s, k, t) && Inv(t) && t.d == s.d
    ensures t.c.senders == s.c.senders[k := Idle] && t.c.mutex == s.c.mutex + 1 && t.c.rx == s.c.rx
  {
    var s1 := Apply(s, PostMutex(k));
    StepInv(s, PostMutex(k));
    ReachesStep(s, k, s, PostMutex(k));
    t := Apply(s1, PostNotify(k));
    StepInv(s1, PostNotify(k));
    ReachesStep(s, k, s1, PostNotify(k));
    Overwrite(s.c.senders, k, Notifying, Idle);
  }

  lemma SearchRun(s: State, k: nat, msg: Message) returns (t: State)
    requires Quiet(s) && k < |s.c.senders| && Sendable(msg) && |Pending(s.d)| < MAX_SLOTS
    requires CountClass(Pending(s.d), PoolFor(Size(msg))) < NumSlots(PoolFor(Size(msg)))
    ensures Reaches(s, k, t) && Inv(t) && Pending(t.d) == Pending(s.d) + [msg]
    ensures t.c.senders == s.c.senders[k := Writing] && t.c.mutex == 0 && t.c.rx == RxWaiting
  {
    t := LockRun(s, k, msg);
    t := FoundNext(t, k, msg);
    Overwrite(s.c.senders, k, Locked(msg), Writing);
  }

  lemma FinishRun(s: State, k: nat) returns (t: State)
    requires Inv(s) && k < |s.c.senders| && s.c.senders[k].Writing?
    ensures Reaches(s, k, t) && Inv(t) && t.d.todo == [] && Pending(t.d) == Pending(s.d)
    ensures t.c.senders == s.c.senders[k := Idle] && t.c.mutex == s.c.mutex + 1 && t.c.rx == s.c.rx
  {
    t := StoresRun(s, k);
    t := UnlockRun(t, k);
  }

  lemma QuietAgain(s: State, k: nat, t: State)
    requires Quiet(s) && k < |s.c.senders| && Inv(t) && t.d.todo == []
    requires t.c.senders == s.c.senders[k := Idle] && t.c.mutex == 1 && t.c.rx == RxWaiting
    ensures Quiet(t)
  {
  }

  /** With room for it, one message is sent and the state is quiet again. */
  lemma SendRun(s: State, k: nat, msg: Message) returns (t: State)
    requires Quiet(s) && k < |s.c.senders| && Sendable(msg) && |Pending(s.d)| < MAX_SLOTS
    requires CountClass(Pending(s.d), PoolFor(Size(msg))) < NumSlots(PoolFor(Size(msg)))
    ensures Reaches(s, k, t) && Quiet(t) && |t.c.senders| == |s.c.senders|
    ensures Pending(t.d) == Pending(s.d) + [msg]
  {
    t := SearchRun(s, k, msg);
    t := FinishRun(t, k);
    Overwrite(s.c.senders, k, Writing, Idle);
    QuietAgain(s, k, t);
  }

  /** One sender alone fills the pool of its message. */
  lemma {:induction false} FillRun(s: State, k: nat, msg: Message) returns (t: State)
    requires Quiet(s) && k < |s.c.senders| && Sendable(msg)
    requires CountClass(Pending(s.d), PoolFor(Size(msg))) == |Pending(s.d)|
    ensures Reaches(s, k, t) && Quiet(t) && |t.c.senders| == |s.c.senders|
    ensures CountClass(Pending(t.d), PoolFor(Size(msg))) == |Pending(t.d)| == NumSlots(PoolFor(Size(msg)))
    decreases NumSlots(PoolFor(Size(msg))) - |Pending(s.d)|
  {
    var pool := PoolFor(Size(msg));
    PendingClass(s, pool);
    t := s;
    if |Pending(s.d)| != NumSlots(pool) {
      t := SendRun(s, k, msg);
      CountAppend(Pending(s.d), msg, pool);
      PendingClass(t, pool);
      t := FillRun(t, k, msg);
    }
  }

  /** From a quiet state whose pool is full, a call ends stuck. */
  lemma StuckRun(s: State, k: nat, msg: Message) returns (t: State)
    requires Quiet(s) && k < |s.c.senders| && Sendable(msg) && |Pending(s.d)| < MAX_SLOTS
    requires CountClass(Pending(s.d), PoolFor(Size(msg))) == NumSlots(PoolFor(Size(msg)))
    ensures Reaches(s, k, t) && k < |t.c.senders| && t.c.senders[k].Stuck?
  {
    var s1 := LockRun(s, k, msg);
    StuckIffNoRoom(s1, k);
    ReachesStep(s, k, s1, Search(k));
    t := Apply(s1, Search(k));
  }

  /** Every static pool has a message of its size class. */
  lemma MessageOfClass(pool: nat) returns (msg: Message)
    requires pool < STATIC_POOLS
    ensures Sendable(msg) && PoolFor(Size(msg)) == pool
  {
    msg := Message(0, 0, 0, 0, seq(SlotSize(pool) - OVERHEAD - 4, _ => 0));
    SizeClasses(Size(msg));
  }

  lemma InitQuiet(n: nat, m: Region)
    requires Queued(m, [], [])
    ensures Quiet(Init(n, m)) && Pending(Init(n, m).d) == []
  {
    InitInv(n, m);
  }

  lemma FillThenStuck(s: State, k: nat, msg: Message) returns (t: State)
    requires Quiet(s) && k < |s.c.senders| && Sendable(msg) && Pending(s.d) == []
    ensures Reaches(s, k, t) && k < |t.c.senders| && t.c.senders[k].Stuck?
  {
    t := FillRun(s, k, msg);
    t := StuckRun(t, k, msg);
  }

  /**
   The early return is reached for every static pool, whatever the number of senders: while the
   receiver takes no step, any one sender fills the pool, and its next call ends stuck.
   */
  lemma EarlyReturnReached(n: nat, m: Region, k: nat, pool: nat) returns (steps: seq<Step>, t: State)
    requires Queued(m, [], []) && k < n && pool < STATIC_POOLS
    ensures IsRunOf(Init(n, m), k, steps, t) && k < |t.c.senders| && t.c.senders[k].Stuck?
  {
    InitQuiet(n, m);
    var msg := MessageOfClass(pool);
    t := FillThenStuck(Init(n, m), k, msg);
    steps := RunTo(Init(n, m), k, t);
  }
}
