/**
 Concrete runs of the mailbox machine from its start that show the promises it does not keep: two
 mailboxes of one name, and a pending message that is neither returned nor freed.
 */
module MailboxCases {
  import opened LinkedList
  import opened Mailboxes
  import opened MailboxRuns

  // ---- Two mailboxes set up one after the other ---------------------------------------------

  /** A mailbox that is set up, empty, without fd. */
  function Fresh(name: string, t: Tid): Mbox
  {
    Mbox(true, Some([]), 0, None, name, With(t), [], [])
  }

  const BLANK := Mbox(false, None, 0, None, "", InFree, [], [])

  /** Both threads have a mailbox. */
  function Both(a: string, b: string): State
  {
    State([Fresh(a, 0), Fresh(b, 1)], [], [Owner(0), Owner(1)], if a == b then map[a := 0] else map[a := 0, b := 1], [], 0)
  }

  function SetUp(a: string, b: string): seq<Step>
  {
    [CreateTake(0, a), CreateCommit(0), CreateTake(1, b), CreateCommit(1)]
  }

  lemma FirstReached(name: string, s: State)
    requires |name| <= MAX_NAME
    requires s == State([Fresh(name, 0), BLANK], [1], [Owner(0), NoBox], map[name := 0], [], 0)
    ensures IsRun(Init(2, 2), [CreateTake(0, name), CreateCommit(0)])
    ensures Exec(Init(2, 2), [CreateTake(0, name), CreateCommit(0)]) == s
  {
    var s0 := Init(2, 2);
    assert s0 == State([BLANK, BLANK], [0, 1], [NoBox, NoBox], map[], [], 0);
    var s1 := Apply(s0, CreateTake(0, name));
    assert s1.free == [1];
    assert Apply(s1, CreateCommit(0)) == s;
    RunOn(s1, CreateCommit(0), []);
    RunOn(s0, CreateTake(0, name), [CreateCommit(0)]);
  }

  lemma SecondReached(a: string, b: string, s: State)
    requires |b| <= MAX_NAME
    requires s == State([Fresh(a, 0), BLANK], [1], [Owner(0), NoBox], map[a := 0], [], 0)
    ensures IsRun(s, [CreateTake(1, b), CreateCommit(1)])
    ensures Exec(s, [CreateTake(1, b), CreateCommit(1)]) == Both(a, b)
  {
    var s1 := Apply(s, CreateTake(1, b));
    assert s1.free == [];
    assert Apply(s1, CreateCommit(1)) == Both(a, b);
    RunOn(s1, CreateCommit(1), []);
    RunOn(s, CreateTake(1, b), [CreateCommit(1)]);
  }

  lemma BothReached(a: string, b: string)
    requires |a| <= MAX_NAME && |b| <= MAX_NAME
    ensures IsRun(Init(2, 2), SetUp(a, b)) && Exec(Init(2, 2), SetUp(a, b)) == Both(a, b)
  {
    var s := State([Fresh(a, 0), BLANK], [1], [Owner(0), NoBox], map[a := 0], [], 0);
    FirstReached(a, s);
    SecondReached(a, b, s);
    RunAppend(Init(2, 2), [CreateTake(0, a), CreateCommit(0)], [CreateTake(1, b), CreateCommit(1)]);
    assert SetUp(a, b) == [CreateTake(0, a), CreateCommit(0)] + [CreateTake(1, b), CreateCommit(1)];
  }

  /** Two threads that create a mailbox of the same name: the second one is not in the index. */
  lemma TwoOfOneName(name: string)
    requires |name| <= MAX_NAME
    ensures IsRun(Init(2, 2), SetUp(name, name))
    ensures var s := Exec(Init(2, 2), SetUp(name, name));
            Listed(s, 1) && s.boxes[1].name == name && s.names == map[name := 0]
  {
    BothReached(name, name);
  }

  // ---- A message that leaks ----------------------------------------------------------------

  /** Thread 1 allocates a message, damages its ENDPOINT and sends it to mailbox 0. */
  function DamagedSend(): seq<Step>
  {
    [Alloc(1), WriteGuard(1, 0, false), Send(1, 0, 0)]
  }

  /** Thread 0 deletes its mailbox. */
  function Delete(): seq<Step>
  {
    [DeleteUnlist(0), DeleteMark(0), DeleteClose(0), DeleteDrain(0)]
  }

  function Pending(): State
  {
    var s := Both("a", "b");
    s.(boxes := [s.boxes[0].(rxq := Some([0]), len := 1, accepted := [0]), s.boxes[1]], msgs := [Msg(Queued(0), true, false)])
  }

  lemma PendingReached()
    ensures IsRun(Both("a", "b"), DamagedSend()) && Exec(Both("a", "b"), DamagedSend()) == Pending()
  {
    var s0 := Both("a", "b");
    var s1 := Apply(s0, Alloc(1));
    var s2 := Apply(s1, WriteGuard(1, 0, false));
    assert s2.msgs == [Msg(Held(1), false, false)];
    var s3 := Apply(s2, Send(1, 0, 0));
    var none: seq<MsgId> := [];
    assert none + [0] == [0];
    assert s3.boxes[0] == Pending().boxes[0];
    assert s3.boxes == Pending().boxes && s3.msgs == Pending().msgs && s3.threads == Pending().threads;
    RunOn(s2, Send(1, 0, 0), []);
    RunOn(s1, WriteGuard(1, 0, false), [Send(1, 0, 0)]);
    RunOn(s0, Alloc(1), [WriteGuard(1, 0, false), Send(1, 0, 0)]);
  }

  lemma DrainOne(msg: Msg)
    requires msg.place != Freed
    ensures DrainMsgs([msg], [0]) == Some([Discarded(msg)])
  {
    var q: seq<MsgId> := [0];
    assert q[1..] == [] && [msg][0 := Discarded(msg)] == [Discarded(msg)];
  }

  /** The mailbox is closed with the message still in it. */
  lemma ClosedReached(s: State)
    requires s == Pending().(threads := [Closed(0), Owner(1)], names := map["b" := 1],
                             boxes := [Pending().boxes[0].(inUse := false), Pending().boxes[1]])
    ensures IsRun(Pending(), Delete()[..3]) && Exec(Pending(), Delete()[..3]) == s
  {
    var s0 := Pending();
    var s1 := Apply(s0, DeleteUnlist(0));
    assert s1.names == map["b" := 1];
    var s2 := Apply(s1, DeleteMark(0));
    assert Apply(s2, DeleteClose(0)) == s;
    RunOn(s2, DeleteClose(0), []);
    RunOn(s1, DeleteMark(0), [DeleteClose(0)]);
    RunOn(s0, DeleteUnlist(0), [DeleteMark(0), DeleteClose(0)]);
    assert Delete()[..3] == [DeleteUnlist(0), DeleteMark(0), DeleteClose(0)];
  }

  lemma LeakReached()
    ensures IsRun(Pending(), Delete()) && Exec(Pending(), Delete()).msgs == [Msg(Dropped, false, false)]
  {
    var s := Pending().(threads := [Closed(0), Owner(1)], names := map["b" := 1],
                        boxes := [Pending().boxes[0].(inUse := false), Pending().boxes[1]]);
    ClosedReached(s);
    DrainOne(s.msgs[0]);
    RunOn(s, DeleteDrain(0), []);
    RunAppend(Pending(), Delete()[..3], [DeleteDrain(0)]);
    assert Delete() == Delete()[..3] + [DeleteDrain(0)];
  }

  /** A run from the start after which the message is in no queue, with no thread, and not freed. */
  lemma DamagedMessageLeaks()
    ensures var steps := SetUp("a", "b") + DamagedSend() + Delete();
            IsRun(Init(2, 2), steps) && Exec(Init(2, 2), steps).msgs == [Msg(Dropped, false, false)]
  {
    BothReached("a", "b");
    PendingReached();
    RunAppend(Init(2, 2), SetUp("a", "b"), DamagedSend());
    LeakReached();
    RunAppend(Init(2, 2), SetUp("a", "b") + DamagedSend(), Delete());
  }

  // ---- An eventfd that is readable ---------------------------------------------------------

  /** Thread 1 sends a message to mailbox 0, whose owner then asks for the fd. */
  function SendThenGetFd(): seq<Step>
  {
    [Alloc(1), Send(1, 0, 0), GetFd(0)]
  }

  /** A run from the start in which the fd comes into being with a message pending, and is readable. */
  lemma ReadableFdReached()
    ensures var steps := SetUp("a", "b") + SendThenGetFd();
            && IsRun(Init(2, 2), steps) && |Exec(Init(2, 2), steps).boxes| == 2
            && Exec(Init(2, 2), steps).boxes[0].fd == Some(1) && Exec(Init(2, 2), steps).boxes[0].rxq == Some([0])
  {
    BothReached("a", "b");
    var s0 := Both("a", "b");
    var s1 := Apply(s0, Alloc(1));
    var s2 := Apply(s1, Send(1, 0, 0));
    assert s2.boxes[0].len == 1 && s2.threads[0] == Owner(0);
    var s3 := Apply(s2, GetFd(0));
    var none: seq<MsgId> := [];
    assert none + [0] == [0];
    RunOn(s2, GetFd(0), []);
    RunOn(s1, Send(1, 0, 0), [GetFd(0)]);
    RunOn(s0, Alloc(1), [Send(1, 0, 0), GetFd(0)]);
    RunAppend(Init(2, 2), SetUp("a", "b"), SendThenGetFd());
  }

  /** A receive that may not wait returns from an empty mailbox. */
  lemma NoWaitReturns()
    ensures var steps := SetUp("a", "b") + [ReceiveCall(0), Poll(0, true)];
            IsRun(Init(2, 2), steps) && Exec(Init(2, 2), steps) == Both("a", "b")
  {
    BothReached("a", "b");
    var s0 := Both("a", "b");
    var s1 := Apply(s0, ReceiveCall(0));
    assert s1.threads == [Polling(0), Owner(1)];
    assert Apply(s1, Poll(0, true)) == s0;
    RunOn(s1, Poll(0, true), []);
    RunOn(s0, ReceiveCall(0), [Poll(0, true)]);
    RunAppend(Init(2, 2), SetUp("a", "b"), [ReceiveCall(0), Poll(0, true)]);
  }
}
