/**
 What holds over whole runs of the shared-memory queue: safety in every reachable state, exclusion,
 what the early return on a full pool does, freedom from deadlock otherwise, and draining.
 */
module ShmRuns {
  import opened ShmLayout
  import opened Messages
  import opened ShmMemory
  import opened ShmQueue
  import opened ShmProtocol

  /** `steps` can be taken one after the other from `s`. */
  ghost predicate IsRun(s: State, steps: seq<Step>)
    decreases |steps|
  {
    steps == [] || (Enabled(s, steps[0]) && IsRun(Apply(s, steps[0]), steps[1..]))
  }

  ghost function Exec(s: State, steps: seq<Step>): State
    requires IsRun(s, steps)
    decreases |steps|
  {
    if steps == [] then s else Exec(Apply(s, steps[0]), steps[1..])
  }

  lemma {:induction false} RunInv(s: State, steps: seq<Step>)
    requires Inv(s) && IsRun(s, steps)
    ensures Inv(Exec(s, steps))
    decreases |steps|
  {
    if steps != [] {
      StepInv(s, steps[0]);
      RunInv(Apply(s, steps[0]), steps[1..]);
    }
  }

  /**
   In every interleaving of any number of senders with the receiver: the three semaphore equations
   hold; the queue never exceeds 70 messages; no error branch was ever taken, in particular the
   receiver never finds an empty queue after a notification; what was delivered is the first part of
   what was sent, in order; and whenever the mutex is free the bytes of the region represent exactly
   the rest.
   */
  lemma QueueSafety(n: nat, m: Region, steps: seq<Step>)
    requires Queued(m, [], []) && IsRun(Init(n, m), steps)
    ensures var s := Exec(Init(n, m), steps);
            && |s.d.delivered| <= |s.d.sent|
            && Counts(s.c, |Pending(s.d)|)
            && |Pending(s.d)| <= MAX_SLOTS
            && s.d.faults == 0
            && (forall i :: 0 <= i < |s.d.delivered| ==> s.d.delivered[i] == s.d.sent[i].(flags := 0))
            && (s.c.mutex == 1 ==> Queued(s.d.mem, s.d.chain, Pending(s.d)))
  {
    InitInv(n, m);
    RunInv(Init(n, m), steps);
    var s := Exec(Init(n, m), steps);
    if s.c.mutex == 1 && s.d.todo != [] && !s.c.rx.RxWriting? {
      var k :| 0 <= k < |s.c.senders| && s.c.senders[k].Writing?;
      TotalUpdate(s.c.senders, k, Idle, Mutex);
    }
  }

  /** No two senders, and no sender and the receiver, hold the mutex at the same time. */
  lemma MutualExclusion(s: State, j: nat, k: nat)
    requires Inv(s) && j < |s.c.senders| && k < |s.c.senders| && Of(Mutex, s.c.senders[j]) == 1
    ensures RxMutex(s.c.rx) == 0
    ensures j != k ==> Of(Mutex, s.c.senders[k]) == 0
  {
    TotalUpdate(s.c.senders, j, Idle, Mutex);
    if j != k {
      TotalPair(s.c.senders, j, k, Mutex);
    }
  }

  // ---- The early return on a full pool ------------------------------------------------------

  /** A sender takes the early return exactly when every slot of its message's pool is queued. */
  lemma StuckIffPoolFull(s: State, k: nat)
    requires Inv(s) && Enabled(s, Search(k))
    ensures Apply(s, Search(k)).c.senders[k].Stuck? <==> PoolFull(s.d.chain, PoolFor(Size(s.c.senders[k].msg)))
  {
    HolderFindsNoStores(s.c, |Pending(s.d)|, k);
    SearchContent(s.d, s.c.senders[k].msg);
  }

  lemma StuckStep(s: State, k: nat, step: Step)
    requires Inv(s) && k < |s.c.senders| && s.c.senders[k].Stuck? && Enabled(s, step)
    ensures Apply(s, step).d == s.d
    ensures |Apply(s, step).c.senders| == |s.c.senders| && Apply(s, step).c.senders[k] == s.c.senders[k]
  {
    if BySender(step) {
      MutualExclusion(s, k, step.k);
    } else {
      MutualExclusion(s, k, k);
    }
  }

  /**
   The early return freezes the queue: from then on, in every continuation, the sender keeps mutex
   and ticket, no byte of the region changes and no message is linked in or delivered.
   */
  lemma {:induction false} StuckFreezesQueue(s: State, k: nat, steps: seq<Step>)
    requires Inv(s) && k < |s.c.senders| && s.c.senders[k].Stuck? && IsRun(s, steps)
    ensures Exec(s, steps).d == s.d
    ensures |Exec(s, steps).c.senders| == |s.c.senders| && Exec(s, steps).c.senders[k] == s.c.senders[k]
    decreases |steps|
  {
    if steps != [] {
      StepInv(s, steps[0]);
      StuckStep(s, k, steps[0]);
      StuckFreezesQueue(Apply(s, steps[0]), k, steps[1..]);
    }
  }

  // ---- Progress -----------------------------------------------------------------------------

  ghost predicate NoneStuck(c: Control)
  {
    forall k :: 0 <= k < |c.senders| ==> !c.senders[k].Stuck?
  }

  /** Every sender has returned and every message was handed over. */
  ghost predicate Drained(s: State)
  {
    && s.c.rx.RxWaiting?
    && (forall k :: 0 <= k < |s.c.senders| ==> s.c.senders[k].Idle?)
    && |s.d.delivered| == |s.d.sent|
  }

  /** Some party inside its critical section can always go on. */
  lemma HolderCanStep(s: State) returns (step: Step)
    requires Inv(s) && NoneStuck(s.c) && s.c.mutex == 0
    ensures Enabled(s, step) && !step.Call?
  {
    if s.c.rx.RxLocked? {
      step := RxTake;
    } else if s.c.rx.RxWriting? {
      step := if s.d.todo == [] then RxPostMutex else RxStore;
    } else {
      var k := TotalWitness(s.c.senders, Mutex);
      step := if s.c.senders[k].Locked? then Search(k) else if s.d.todo == [] then PostMutex(k) else SendStore(k);
    }
  }

  /** With the mutex free and no slot left, a message is on its way to free one. */
  lemma SlotWillBeFreed(s: State) returns (step: Step)
    requires Inv(s) && NoneStuck(s.c) && s.c.mutex == 1 && s.c.slots == 0 && s.c.rx.RxWaiting?
    ensures Enabled(s, step) && !step.Call?
  {
    if s.c.notify > 0 {
      step := RxWaitNotify;
    } else if Total(s.c.senders, Ticket) > 0 {
      var k := TotalWitness(s.c.senders, Ticket);
      TotalUpdate(s.c.senders, k, Idle, Mutex);
      step := WaitMutex(k);
    } else {
      var k := TotalWitness(s.c.senders, Unnotified);
      TotalUpdate(s.c.senders, k, Idle, Mutex);
      step := PostNotify(k);
    }
  }

  /** With the mutex free, a sender inside a call goes on, or what it waits for does. */
  lemma SenderCanStep(s: State, k: nat) returns (step: Step)
    requires Inv(s) && NoneStuck(s.c) && s.c.mutex == 1 && s.c.rx.RxWaiting?
    requires k < |s.c.senders| && !s.c.senders[k].Idle?
    ensures Enabled(s, step) && !step.Call?
  {
    TotalUpdate(s.c.senders, k, Idle, Mutex);
    var p := s.c.senders[k];
    if p.Notifying? {
      step := PostNotify(k);
    } else if p.Ticketed? {
      step := WaitMutex(k);
    } else if s.c.slots > 0 {
      step := WaitSlot(k);
    } else {
      step := SlotWillBeFreed(s);
    }
  }

  /** With the mutex free, the receiver waiting and every sender idle, a notification is left to take. */
  lemma ReceiverCanStep(s: State)
    requires Inv(s) && s.c.mutex == 1 && s.c.rx.RxWaiting? && !Drained(s)
    requires forall k :: 0 <= k < |s.c.senders| ==> s.c.senders[k].Idle?
    ensures s.c.notify > 0
  {
    if Total(s.c.senders, Unnotified) > 0 {
      var k := TotalWitness(s.c.senders, Unnotified);
    }
  }

  /**
   No deadlock: unless a sender has taken the early return, a state with unfinished work has a step
   other than a new call.
   */
  lemma NoDeadlock(s: State) returns (step: Step)
    requires Inv(s) && NoneStuck(s.c) && !Drained(s)
    ensures Enabled(s, step) && !step.Call?
  {
    if s.c.mutex == 0 {
      step := HolderCanStep(s);
    } else if s.c.rx.RxNotified? {
      step := RxWaitMutex;
    } else if s.c.rx.RxPosting? {
      step := RxPostSlot;
    } else if k :| 0 <= k < |s.c.senders| && !s.c.senders[k].Idle? {
      step := SenderCanStep(s, k);
    } else {
      ReceiverCanStep(s);
      step := RxWaitNotify;
    }
  }

  function RxRank(rx: RxPhase): nat
  {
    match rx
    case RxWriting => 11
    case RxPosting => 10
    case RxWaiting => 9
    case RxNotified => 8
    case RxLocked => 7
  }

  /** Work left in the control flow of the senders and of the receiver. */
  function ControlWork(c: Control): nat
  {
    Total(c.senders, Rank) + RxRank(c.rx)
  }

  /** Work left altogether: with the pending stores and the messages still to be received. */
  function Work(s: State): nat
    requires |s.d.delivered| <= |s.d.sent|
  {
    ControlWork(s.c) + |s.d.todo| + 20 * |Pending(s.d)|
  }

  lemma AdvanceWork(s: State, step: Step, found: bool)
    requires Enabled(s, step) && !step.Call?
    ensures var w, w' := ControlWork(s.c), ControlWork(Advance(s.c, step, found));
            if step.RxTake? then w' == w + 4
            else if step.SendStore? || step.RxStore? then w' == w
            else if step.Search? then w' <= w - 48 - Size(s.c.senders[step.k].msg)
            else w' < w
  {
    if BySender(step) {
      TotalUpdate(s.c.senders, step.k, NextPhase(s.c.senders[step.k], step, found), Rank);
    }
  }

  lemma SearchWork(s: State, k: nat)
    requires Inv(s) && Enabled(s, Search(k))
    ensures Work(Apply(s, Search(k))) < Work(s)
  {
    var msg := s.c.senders[k].msg;
    HolderFindsNoStores(s.c, |Pending(s.d)|, k);
    SearchContent(s.d, msg);
    AdvanceWork(s, Search(k), Finds(s.d, msg));
  }

  lemma TakeWork(s: State)
    requires Inv(s) && Enabled(s, RxTake)
    ensures Work(Apply(s, RxTake)) < Work(s)
  {
    HolderFindsNoStores(s.c, |Pending(s.d)|, 0);
    TakeContent(s.d);
    AdvanceWork(s, RxTake, true);
  }

  lemma StoreWork(s: State, step: Step)
    requires Inv(s) && Enabled(s, step) && (step.SendStore? || step.RxStore?)
    ensures Inv(Apply(s, step)) && Work(Apply(s, step)) < Work(s)
  {
    StepInv(s, step);
    StoreContent(s.d);
  }

  /** Every step but a new call leaves less work. */
  lemma WorkDecreases(s: State, step: Step)
    requires Inv(s) && Enabled(s, step) && !step.Call?
    ensures Inv(Apply(s, step)) && Work(Apply(s, step)) < Work(s)
  {
    StepInv(s, step);
    if step.Search? {
      SearchWork(s, step.k);
    } else if step.RxTake? {
      TakeWork(s);
    } else if step.SendStore? || step.RxStore? {
      StoreWork(s, step);
    } else {
      AdvanceWork(s, step, true);
    }
  }

  ghost predicate NoCalls(steps: seq<Step>)
  {
    forall i :: 0 <= i < |steps| ==> !steps[i].Call?
  }

  /**
   Every run without new calls ends, within the work left at its start; and if it cannot be continued
   and no sender has taken the early return, every message that was sent has been delivered.
   */
  lemma {:induction false} RunsDrain(s: State, steps: seq<Step>)
    requires Inv(s) && IsRun(s, steps) && NoCalls(steps)
    ensures Inv(Exec(s, steps)) && |steps| + Work(Exec(s, steps)) <= Work(s)
    ensures (forall step :: Enabled(Exec(s, steps), step) ==> step.Call?) && NoneStuck(Exec(s, steps).c) ==>
              Drained(Exec(s, steps))
    decreases |steps|
  {
    if steps == [] {
      if NoneStuck(s.c) && !Drained(s) {
        var step := NoDeadlock(s);
      }
    } else {
      assert !steps[0].Call? && forall i :: 0 <= i < |steps[1..]| ==> steps[1..][i] == steps[i + 1];
      WorkDecreases(s, steps[0]);
      RunsDrain(Apply(s, steps[0]), steps[1..]);
    }
  }
}
