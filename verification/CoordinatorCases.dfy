/**
 Concrete runs of the coordinator from its start that show the promises it does not keep: a process
 that hangs up during accept, and a process that has the mailbox of another one removed.
 */
module CoordinatorCases {
  import opened LinkedList
  import opened Coordinator
  import opened CoordinatorRuns
  import opened CoordinatorEffects

  /** Processes locate the coordinator or connect; `ready` are the readable ones. */
  function Arrival(pid: int, ready: set<nat>): Event
  {
    Event(Some(pid), ready, {}, {}, Unknown)
  }

  function Incoming(ready: set<nat>, req: Request): Event
  {
    Event(None, ready, {}, {}, req)
  }

  function Arrived(s: State, p: Slot, pid: int): Process
  {
    s.procs[p].(pid := pid, open := true, status := Listening)
  }

  /** The zombie check is not due. */
  predicate Unchecked(s: State)
  {
    0 <= s.counter < RETRIES - 1 && s.freeCount > LOW_THRESHOLD
  }

  lemma FirstArrival(s: State, pid: int)
    requires s.free != [] && s.used == [] && Unchecked(s)
    ensures var p := s.free[0];
            Iterate(s, Arrival(pid, {})) ==
            Go(s.(free := s.free[1..], used := [p], freeCount := s.freeCount - 1,
                  procs := s.procs[p := Arrived(s, p, pid)], counter := s.counter + 1))
  {
    var ev, s1 := Arrival(pid, {}), Register(s, pid).s;
    assert s1.used == [s.free[0]];
    assert s1.used[1..] == [];
    assert Walk(s1, [], ev) == Go(s1);
    assert Walk(s1, s1.used, ev) == Go(s1);
  }

  /** A second process arrives and the first one connects. */
  lemma SecondArrival(s: State, p: Slot, pid: int)
    requires s.free != [] && s.used == [p] && Unchecked(s) && s.free[0] != p
    requires s.procs[p].open && s.procs[p].status == Listening
    ensures var q := s.free[0];
            Iterate(s, Arrival(pid, {p})) ==
            Go(s.(free := s.free[1..], used := [p, q], freeCount := s.freeCount - 1,
                  procs := s.procs[q := Arrived(s, q, pid)][p := s.procs[p].(status := Connected)],
                  counter := s.counter + 1))
  {
    var ev, q, s1 := Arrival(pid, {p}), s.free[0], Register(s, pid).s;
    var s2 := Connect(s1, p);
    assert s1.used == [p, q] && [p, q][1..] == [q] && [q][1..] == [];
    assert s2.procs[q] == s1.procs[q];
    assert Walk(s2, [], ev) == Go(s2);
    assert Walk(s2, [q], ev) == Go(s2);
    assert Walk(s1, [p, q], ev) == Walk(s2, [q], ev);
  }

  /** The second process connects; then a request is handled. */
  lemma SecondConnects(s: State, p: Slot, q: Slot, req: Request)
    requires s.used == [p, q] && Unchecked(s) && p != q && InBounds(req)
    requires s.procs[p].open && s.procs[p].status == Connected && s.procs[q].open && s.procs[q].status == Listening
    ensures Iterate(s, Incoming({q}, req)) == Go(Tick(Handle(Connect(s, q), req)))
  {
    var ev, s1 := Incoming({q}, req), Connect(s, q);
    assert [p, q][1..] == [q] && [q][1..] == [];
    assert Walk(s1, [], ev) == Go(s1);
    assert Walk(s, [q], ev) == Go(s1);
    assert Walk(s, [p, q], ev) == Walk(s, [q], ev);
  }

  /** With two connected processes and no readable socket the pass changes nothing. */
  lemma IdlePass(s: State, p: Slot, q: Slot, req: Request)
    requires s.used == [p, q] && s.procs[p].status == Connected && s.procs[q].status == Connected
    ensures BeforeRequest(s, Incoming({}, req)) == Go(s)
  {
    var ev := Incoming({}, req);
    assert [p, q][1..] == [q] && [q][1..] == [];
    assert Walk(s, [], ev) == Go(s);
    assert Walk(s, [q], ev) == Go(s);
    assert Walk(s, [p, q], ev) == Go(s);
  }

  /** After the first arrival: slot 2 is listening. */
  function OneListening(): State
  {
    var s := Init(1);
    s.(free := s.free[1..], used := [2], freeCount := 252, procs := s.procs[2 := Arrived(s, 2, 10)], counter := 1)
  }

  lemma OneListeningReached()
    ensures Iterate(Init(1), Arrival(10, {})) == Go(OneListening())
    ensures OneListening().free[0] == 3
  {
    assert Init(1).free[0] == 2 && Init(1).free[1] == 3;
    FirstArrival(Init(1), 10);
  }

  /** The first process hangs up while it is accepted: the pass follows the next pointer of a freed node. */
  lemma AbortedAcceptReadsFreed()
    ensures var evs := [Arrival(10, {}), Event(None, {2}, {2}, {}, Unknown)];
            AllInBounds(evs) && Run(Init(1), evs).Stray?
  {
    var evs := [Arrival(10, {}), Event(None, {2}, {2}, {}, Unknown)];
    var s := OneListening();
    OneListeningReached();
    assert evs[1..] == [evs[1]];
    assert Walk(s, [2], evs[1]).Stray?;
    assert Iterate(s, evs[1]).Stray?;
    assert Run(s, evs[1..]) == Iterate(s, evs[1]);
  }

  /** After the second arrival: slot 2 is connected, slot 3 listening. */
  function OneConnected(): State
  {
    var s := OneListening();
    s.(free := s.free[1..], used := [2, 3], freeCount := 251,
       procs := s.procs[3 := Arrived(s, 3, 11)][2 := s.procs[2].(status := Connected)], counter := 2)
  }

  lemma OneConnectedReached()
    ensures Iterate(OneListening(), Arrival(11, {2})) == Go(OneConnected())
  {
    OneListeningReached();
    SecondArrival(OneListening(), 2, 11);
  }

  const ADD := Add(2 * SHIFT + 1, "a")
  const FOREIGN_REMOVE := Remove(3 * SHIFT + 1, "a")

  /** Both processes are connected and the first one has registered "a". */
  function Registered(): State
  {
    Tick(Handle(Connect(OneConnected(), 3), ADD))
  }

  lemma RegisteredReached()
    ensures Iterate(OneConnected(), Incoming({3}, ADD)) == Go(Registered())
    ensures Registered().used == [2, 3] && Registered().tree == map["a" := 2 * SHIFT + 1]
    ensures Registered().procs[2].status == Connected && Registered().procs[3].status == Connected
  {
    SecondConnects(OneConnected(), 2, 3, ADD);
  }

  /** Two processes arrive and connect, the first one registers "a", the second one asks to remove it. */
  function ForeignRun(): (evs: seq<Event>)
    ensures AllInBounds(evs)
  {
    [Arrival(10, {}), Arrival(11, {2}), Incoming({3}, ADD), Incoming({}, FOREIGN_REMOVE)]
  }

  lemma ForeignRequest()
    ensures !AllProper(Registered(), [Incoming({}, FOREIGN_REMOVE)])
  {
    RegisteredReached();
    IdlePass(Registered(), 2, 3, FOREIGN_REMOVE);
    assert !Proper(Registered(), FOREIGN_REMOVE);
  }

  /** In this run from the start of the coordinator the indexes do not stay in agreement. */
  lemma ForeignRemoveBreaksAgreement()
    ensures AllInBounds(ForeignRun()) && !AlwaysAgree(Init(1), ForeignRun())
  {
    var evs := ForeignRun();
    OneListeningReached();
    OneConnectedReached();
    RegisteredReached();
    ForeignRequest();
    assert evs[1..] == [evs[1], evs[2], evs[3]];
    assert [evs[1], evs[2], evs[3]][1..] == [evs[2], evs[3]];
    assert [evs[2], evs[3]][1..] == [evs[3]];
    assert !AllProper(OneConnected(), [evs[2], evs[3]]);
    assert !AllProper(OneListening(), [evs[1], evs[2], evs[3]]);
    InitAgreement(1);
    AgreementInEveryRunIff(Init(1), evs);
  }

  // ---- A process that closes its socket ----------------------------------------------------

  /** The only process connects; then a request is handled. */
  lemma OnlyConnects(s: State, p: Slot, req: Request)
    requires s.used == [p] && s.procs[p].open && s.procs[p].status == Listening && InBounds(req)
    ensures Iterate(s, Incoming({p}, req)) == Go(Tick(Handle(Connect(s, p), req)))
  {
    var ev := Incoming({p}, req);
    assert [p][1..] == [];
    assert Walk(Connect(s, p), [], ev) == Go(Connect(s, p));
    assert Walk(s, [p], ev) == Go(Connect(s, p));
  }

  /** One process, connected in the iteration in which it registers "a". */
  function OneNamed(): State
  {
    Tick(Handle(Connect(OneListening(), 2), ADD))
  }

  lemma OneNamedReached()
    ensures Iterate(OneListening(), Incoming({2}, ADD)) == Go(OneNamed()) && Steady(OneNamed()) && Agreement(OneNamed())
    ensures OneNamed().used == [2] && OneNamed().procs[2].open && OneNamed().procs[2].status == Connected
    ensures "a" in OneNamed().procs[2].mboxes && LocateMbox(OneNamed(), "a") == Found(0x20_0001, 10)
  {
    InitAgreement(1);
    OneListeningReached();
    IterateSteady(Init(1), Arrival(10, {}));
    IterateAgreementIff(Init(1), Arrival(10, {}));
    OnlyConnects(OneListening(), 2, ADD);
    IterateSteady(OneListening(), Incoming({2}, ADD));
    IterateAgreementIff(OneListening(), Incoming({2}, ADD));
    AddEffect(Connect(OneListening(), 2), 2 * SHIFT + 1, "a");
  }

  /** The process closes its socket: when the request of that iteration is handled, it is forgotten. */
  lemma SocketCloses(ev: Event)
    requires ev == Incoming({2}, Locate("a"))
    ensures BeforeRequest(OneNamed(), ev).Go? && "a" !in BeforeRequest(OneNamed(), ev).s.tree
    ensures Iterate(OneNamed(), ev).Go?
    ensures var s := Iterate(OneNamed(), ev).s;
            s.procs[2].status == Unused && 2 in s.free && 2 !in s.used && "a" !in s.tree
  {
    var s := OneNamed();
    OneNamedReached();
    assert HungUp(s, s.used[0], ev);
    HangUpForgotten(s, ev, 0, "a");
    PassEffect(s, ev, 0);
  }

  lemma ThreeIterations(s: State, s1: State, s2: State, a: Event, b: Event, c: Event)
    requires InBounds(a.request) && InBounds(b.request) && InBounds(c.request)
    requires Iterate(s, a) == Go(s1) && Iterate(s1, b) == Go(s2) && Iterate(s2, c).Go?
    ensures AllInBounds([a, b, c]) && Run(s, [a, b, c]) == Iterate(s2, c)
  {
    assert [a, b, c][1..] == [b, c] && [b, c][1..] == [c] && [c][1..] == [];
    assert Run(s2, [c]) == Run(Iterate(s2, c).s, []);
    assert Run(s1, [b, c]) == Run(s2, [c]);
  }

  /** A run from the start: a process arrives, connects and registers "a", and closes its socket. */
  lemma ClosedSocketForgotten()
    ensures var evs := [Arrival(10, {}), Incoming({2}, ADD), Incoming({2}, Locate("a"))];
            && AllInBounds(evs) && Run(Init(1), evs).Go?
            && (var s := Run(Init(1), evs).s;
                s.procs[2].status == Unused && 2 in s.free && 2 !in s.used && "a" !in s.tree)
  {
    var ev := Incoming({2}, Locate("a"));
    OneListeningReached();
    OneNamedReached();
    SocketCloses(ev);
    ThreeIterations(Init(1), OneListening(), OneNamed(), Arrival(10, {}), Incoming({2}, ADD), ev);
  }
}
