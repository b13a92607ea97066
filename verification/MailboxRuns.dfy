/**
 What holds over every run of the mailbox machine: length and eventfd counters, wake-ups, FIFO order,
 conservation of messages, ownership of mailboxes and the local name index.
 */
module MailboxRuns {
  import opened LinkedList
  import opened Mailboxes

  lemma InitInv(n: nat, threads: nat)
    ensures Inv(Init(n, threads))
  {
    var s := Init(n, threads);
    forall b: Box | b < |s.boxes| ensures BoxInv(s, b) {
      assert s.free[b] == b;
    }
  }

  /** Facts about the thread of a step and its mailbox. */
  lemma AtStep(s: State, t: Tid)
    requires Inv(s) && t < |s.threads| && !s.threads[t].NoBox?
    ensures var b := s.threads[t].box;
            && b < |s.boxes| && s.boxes[b].holder == With(t) && Matches(s.threads[t], s.boxes[b])
            && BoxInv(s, b) && QueueInv(s, b) && b !in s.free
  {
    assert ThreadInv(s, t);
    assert BoxInv(s, s.threads[t].box);
    assert QueueInv(s, s.threads[t].box);
  }

  /** A step on a thread and its own mailbox that moves no message. */
  lemma OwnStepInv(s: State, t: Tid, pc: Pc, box: Mbox, names: map<string, Box>)
    requires Inv(s) && t < |s.threads| && !s.threads[t].NoBox? && !pc.NoBox? && pc.box == s.threads[t].box
    requires pc.box < |s.boxes|
    requires Matches(pc, box) && box.holder == With(t)
    requires box.rxq == s.boxes[pc.box].rxq || (s.boxes[pc.box].rxq == None && box.rxq == Some([]))
    ensures Inv(Move(s, t, pc, pc.box, box).(names := names))
  {
    var b := pc.box;
    var s' := Move(s, t, pc, b, box).(names := names);
    AtStep(s, t);
    forall c: Box | c < |s'.boxes| ensures BoxInv(s', c) {
      assert BoxInv(s, c);
    }
    forall u: Tid | u < |s'.threads| ensures ThreadInv(s', u) {
      assert ThreadInv(s, u);
    }
    forall c: Box | c < |s'.boxes| ensures QueueInv(s', c) {
      assert QueueInv(s, c);
    }
    forall m: MsgId | m < |s'.msgs| ensures MsgInv(s', m) {
      assert MsgInv(s, m);
    }
  }

  /** A step on messages in no queue only. */
  lemma MsgsInv(s: State, msgs: seq<Msg>)
    requires Inv(s) && |s.msgs| <= |msgs|
    requires forall m: MsgId :: m < |msgs| ==>
               (m < |s.msgs| && msgs[m].place == s.msgs[m].place && msgs[m].flagged == s.msgs[m].flagged)
               || (!msgs[m].place.Queued? && !msgs[m].flagged && (m < |s.msgs| ==> !s.msgs[m].place.Queued?))
    ensures Inv(s.(msgs := msgs))
  {
    var s' := s.(msgs := msgs);
    forall b: Box | b < |s.boxes| ensures BoxInv(s', b) && QueueInv(s', b) {
      assert BoxInv(s, b) && QueueInv(s, b);
    }
    forall m: MsgId | m < |s'.msgs| ensures MsgInv(s', m) {
      assert m < |s.msgs| ==> MsgInv(s, m);
    }
    forall u: Tid | u < |s.threads| ensures ThreadInv(s', u) {
      assert ThreadInv(s, u);
    }
  }

  /** itc_free frees exactly the messages that are in no queue and whose ENDPOINT is intact. */
  lemma FreeInvariant(s: State, m: MsgId)
    requires Inv(s) && m < |s.msgs| && s.msgs[m].place != Freed
    ensures Inv(DoFree(s, m))
    ensures if s.msgs[m].place.Queued? || !s.msgs[m].intact then DoFree(s, m) == s else DoFree(s, m).msgs[m].place == Freed
  {
    assert MsgInv(s, m);
    MsgsInv(s, DoFree(s, m).msgs);
  }

  lemma CreateTakeInv(s: State, t: Tid, name: string)
    requires Inv(s) && Enabled(s, CreateTake(t, name))
    ensures Inv(DoCreateTake(s, t, name))
  {
    var b, s' := s.free[0], DoCreateTake(s, t, name);
    assert b in s.free && BoxInv(s, b);
    assert s.free == [b] + s.free[1..];
    forall c | c in s'.free ensures c < |s'.boxes| {
      assert c in s.free;
    }
    forall c: Box | c < |s.boxes| ensures BoxInv(s', c) && QueueInv(s', c) {
      assert BoxInv(s, c) && QueueInv(s, c);
    }
    forall m: MsgId | m < |s.msgs| ensures MsgInv(s', m) {
      assert MsgInv(s, m);
    }
    forall u: Tid | u < |s.threads| ensures ThreadInv(s', u) {
      assert ThreadInv(s, u);
    }
  }

  lemma SendInv(s: State, t: Tid, m: MsgId, to: Box)
    requires Inv(s) && Enabled(s, Send(t, m, to))
    ensures Inv(DoSend(s, m, to))
    ensures s.boxes[to].inUse ==> DoSend(s, m, to).boxes[to].accepted == s.boxes[to].accepted + [m]
  {
    assert BoxInv(s, to) && QueueInv(s, to) && MsgInv(s, m);
    if s.boxes[to].inUse {
      var s' := DoSend(s, m, to);
      assert m !in s.boxes[to].rxq.value;
      assert s'.boxes[to].accepted == s'.boxes[to].returned + s'.boxes[to].rxq.value;
      assert Counted(s'.boxes[to]);
      forall c: Box | c < |s.boxes| ensures BoxInv(s', c) {
        assert BoxInv(s, c);
      }
      forall c: Box | c < |s.boxes| ensures QueueInv(s', c) {
        assert QueueInv(s, c);
      }
      forall k: MsgId | k < |s.msgs| ensures MsgInv(s', k) {
        assert MsgInv(s, k);
      }
      forall u: Tid | u < |s.threads| ensures ThreadInv(s', u) {
        assert ThreadInv(s, u);
      }
    }
  }

  /** The mailbox of the thread becomes `box`, without the first message, which the thread then holds. */
  function Taken(s: State, t: Tid, box: Mbox, m: MsgId): State
    requires t < |s.threads| && s.threads[t].Polling? && s.threads[t].box < |s.boxes| && m < |s.msgs|
  {
    Move(s, t, Owner(s.threads[t].box), s.threads[t].box, box)
    .(msgs := s.msgs[m := s.msgs[m].(place := Held(t), flagged := false)])
  }

  lemma TakenMsgs(s: State, t: Tid, box: Mbox, m: MsgId)
    requires Inv(s) && t < |s.threads| && s.threads[t].Polling? && s.threads[t].box < |s.boxes| && m < |s.msgs|
    requires var q := s.boxes[s.threads[t].box].rxq; q.Some? && q.value != [] && q.value[0] == m && box.rxq == Some(q.value[1..])
    ensures forall c: Box :: c < |s.boxes| ==> QueueInv(Taken(s, t, box, m), c)
    ensures forall k: MsgId :: k < |s.msgs| ==> MsgInv(Taken(s, t, box, m), k)
  {
    var q, s' := s.boxes[s.threads[t].box].rxq.value, Taken(s, t, box, m);
    assert q == [m] + q[1..];
    forall c: Box | c < |s.boxes| ensures QueueInv(s', c) {
      assert QueueInv(s, c);
      assert QueueInv(s, s.threads[t].box);
    }
    forall k: MsgId | k < |s.msgs| ensures MsgInv(s', k) {
      assert MsgInv(s, k);
    }
  }

  /** A thread takes the first message out of its mailbox. */
  lemma TakeInv(s: State, t: Tid, box: Mbox, m: MsgId)
    requires Inv(s) && t < |s.threads| && s.threads[t].Polling? && s.threads[t].box < |s.boxes| && m < |s.msgs|
    requires var q := s.boxes[s.threads[t].box].rxq; q.Some? && q.value != [] && q.value[0] == m && box.rxq == Some(q.value[1..])
    requires Matches(Owner(s.threads[t].box), box) && box.holder == With(t)
    ensures Inv(Taken(s, t, box, m))
  {
    AtStep(s, t);
    var s' := Taken(s, t, box, m);
    TakenMsgs(s, t, box, m);
    forall c: Box | c < |s.boxes| ensures BoxInv(s', c) {
      assert BoxInv(s, c);
    }
    forall u: Tid | u < |s.threads| ensures ThreadInv(s', u) {
      assert ThreadInv(s, u);
    }
  }

  /** A receiver that finds its queue non-empty returns the oldest message; the eventfd read never blocks. */
  lemma PollTakeInv(s: State, t: Tid, noWait: bool)
    requires Inv(s) && Enabled(s, Poll(t, noWait))
    requires s.boxes[s.threads[t].box].rxq.Some? && s.boxes[s.threads[t].box].rxq.value != []
    ensures Inv(DoPoll(s, t, noWait))
    ensures var b := s.threads[t].box;
            var m := s.boxes[b].rxq.value[0];
            && m < |s.msgs| && DoPoll(s, t, noWait).msgs[m] == s.msgs[m].(place := Held(t), flagged := false)
            && DoPoll(s, t, noWait).boxes[b].returned == s.boxes[b].returned + [m]
  {
    AtStep(s, t);
    var b := s.threads[t].box;
    var q := s.boxes[b].rxq.value;
    var m := q[0];
    var s' := DoPoll(s, t, noWait);
    assert q == [m] + q[1..];
    assert s'.boxes[b].accepted == s'.boxes[b].returned + s'.boxes[b].rxq.value;
    assert Matches(s'.threads[t], s'.boxes[b]);
    TakeInv(s, t, s'.boxes[b], m);
  }

  /**
   Draining a queue passes each of its messages to itc_free once, which frees it exactly if its
   ENDPOINT is intact, and touches no other message.
   */
  lemma {:induction false} DrainDiscardsEach(msgs: seq<Msg>, q: seq<MsgId>)
    requires forall i, j :: 0 <= i < j < |q| ==> q[i] != q[j]
    requires forall i :: 0 <= i < |q| ==> q[i] < |msgs| && msgs[q[i]].place != Freed
    ensures DrainMsgs(msgs, q).Some? && |DrainMsgs(msgs, q).value| == |msgs|
    ensures forall m :: 0 <= m < |msgs| ==>
                          DrainMsgs(msgs, q).value[m] == if m in q then Discarded(msgs[m]) else msgs[m]
    decreases |q|
  {
    if q != [] {
      assert forall i :: 0 <= i < |q[1..]| ==> q[1..][i] == q[i + 1];
      DrainDiscardsEach(msgs[q[0] := Discarded(msgs[q[0]])], q[1..]);
      assert q == [q[0]] + q[1..];
    }
  }

  lemma DeleteDrainInv(s: State, t: Tid)
    requires Inv(s) && Enabled(s, DeleteDrain(t))
    ensures Inv(DoDeleteDrain(s, t))
    ensures var q, s' := s.boxes[s.threads[t].box].rxq, DoDeleteDrain(s, t);
            && q.Some? && |s'.msgs| == |s.msgs|
            && forall m: MsgId :: m < |s.msgs| ==> s'.msgs[m] == if m in q.value then Discarded(s.msgs[m]) else s.msgs[m]
  {
    AtStep(s, t);
    var b := s.threads[t].box;
    var q := s.boxes[b].rxq.value;
    DrainDiscardsEach(s.msgs, q);
    var s' := DoDeleteDrain(s, t);
    forall c: Box | c < |s.boxes| ensures BoxInv(s', c) {
      assert BoxInv(s, c);
    }
    forall c: Box | c < |s.boxes| ensures QueueInv(s', c) {
      assert QueueInv(s, c);
      if c != b && s.boxes[c].rxq.Some? {
        var r := s.boxes[c].rxq.value;
        forall i | 0 <= i < |r| ensures r[i] < |s'.msgs| && s'.msgs[r[i]].place == Queued(c) {
          assert r[i] !in q;
        }
      }
    }
    forall k: MsgId | k < |s.msgs| ensures MsgInv(s', k) {
      assert MsgInv(s, k);
    }
    forall u: Tid | u < |s.threads| ensures ThreadInv(s', u) {
      assert ThreadInv(s, u);
    }
  }

  /** The steps of a thread on its own mailbox that move no message. */
  predicate OnOwnBox(s: State, step: Step)
    requires Enabled(s, step)
  {
    match step
    case CreateCommit(_) => true
    case ReceiveCall(_) => true
    case Poll(t, _) => s.boxes[s.threads[t].box].rxq == Some([])
    case Wake(_) => true
    case Timeout(_) => true
    case GetFd(_) => true
    case DeleteUnlist(_) => true
    case DeleteMark(_) => true
    case DeleteClose(_) => true
    case _ => false
  }

  lemma OwnStepsInv(s: State, step: Step)
    requires Inv(s) && Enabled(s, step) && OnOwnBox(s, step)
    ensures Inv(Apply(s, step))
  {
    var t, s' := step.t, Apply(s, step);
    var b := s.threads[t].box;
    AtStep(s, t);
    assert s' == Move(s, t, s'.threads[t], b, s'.boxes[b]).(names := s'.names);
    OwnStepInv(s, t, s'.threads[t], s'.boxes[b], s'.names);
  }

  lemma StepInv(s: State, step: Step)
    requires Inv(s) && Enabled(s, step)
    ensures Inv(Apply(s, step))
  {
    var t := step.t;
    var pc := s.threads[t];
    if !pc.NoBox? {
      AtStep(s, t);
    }
    match step
    case Alloc(_) => MsgsInv(s, Apply(s, step).msgs);
    case Free(_, m) => FreeInvariant(s, m);
    case WriteGuard(_, _, _) => MsgsInv(s, Apply(s, step).msgs);
    case CreateTake(_, name) => CreateTakeInv(s, t, name);
    case Send(_, m, to) => SendInv(s, t, m, to);
    case DeleteDrain(_) => DeleteDrainInv(s, t);
    case Poll(_, noWait) =>
      if s.boxes[pc.box].rxq.value != [] {
        PollTakeInv(s, t, noWait);
      } else {
        OwnStepsInv(s, step);
      }
    case _ => OwnStepsInv(s, step);
  }

  // ---- Runs --------------------------------------------------------------------------------

  ghost predicate IsRun(s: State, steps: seq<Step>)
    decreases |steps|
  {
    steps == [] || (Enabled(s, steps[0]) && IsRun(Apply(s, steps[0]), steps[1..]))
  }

  ghost function Exec(s: State, steps: seq<Step>): State
    requires IsRun(s, steps)
    decreases |steps|
  {
    if steps == [] then s else Exec(Apply(s, steps[0]), steps[1..])
  }

  lemma RunOn(s: State, step: Step, rest: seq<Step>)
    requires Enabled(s, step) && IsRun(Apply(s, step), rest)
    ensures IsRun(s, [step] + rest) && Exec(s, [step] + rest) == Exec(Apply(s, step), rest)
  {
    assert ([step] + rest)[1..] == rest;
  }

  lemma SplitFirst(a: seq<Step>, b: seq<Step>)
    requires a != []
    ensures a + b == [a[0]] + (a[1..] + b)
  {
  }

  lemma {:induction false} RunAppend(s: State, a: seq<Step>, b: seq<Step>)
    requires IsRun(s, a) && IsRun(Exec(s, a), b)
    ensures IsRun(s, a + b) && Exec(s, a + b) == Exec(Exec(s, a), b)
    decreases |a|
  {
    if a == [] {
      assert a + b == b;
    } else {
      SplitFirst(a, b);
      RunAppend(Apply(s, a[0]), a[1..], b);
      RunOn(s, a[0], a[1..] + b);
    }
  }

  lemma {:induction false} RunInv(s: State, steps: seq<Step>)
    requires Inv(s) && IsRun(s, steps)
    ensures Inv(Exec(s, steps))
    decreases |steps|
  {
    if steps != [] {
      StepInv(s, steps[0]);
      RunInv(Apply(s, steps[0]), steps[1..]);
    }
  }

  /**
   In every run of any number of threads over any number of mailboxes: the length counter is the rx
   queue length; once the fd exists the eventfd counter is 1 if the queue is non-empty and 0 if not,
   and no read of it ever blocked; messages come out in the order in which they were accepted; and a
   receiver that waits unsignalled has an empty queue.
   */
  lemma CountersInEveryRun(n: nat, threads: nat, steps: seq<Step>, b: Box)
    requires IsRun(Init(n, threads), steps) && b < |Exec(Init(n, threads), steps).boxes|
    ensures var s := Exec(Init(n, threads), steps);
            var box := s.boxes[b];
            && s.faults == 0
            && (box.rxq.Some? ==>
                  && box.len == |box.rxq.value|
                  && (box.fd.Some? ==> box.fd.value == if box.rxq.value == [] then 0 else 1)
                  && box.accepted == box.returned + box.rxq.value)
            && (forall t: Tid :: t < |s.threads| && s.threads[t] == Blocked(b, false) ==> box.rxq == Some([]))
  {
    InitInv(n, threads);
    RunInv(Init(n, threads), steps);
    var s := Exec(Init(n, threads), steps);
    assert BoxInv(s, b);
    forall t: Tid | t < |s.threads| && s.threads[t] == Blocked(b, false) ensures s.boxes[b].rxq == Some([]) {
      AtStep(s, t);
    }
  }

  // ---- Conservation of messages ------------------------------------------------------------

  ghost predicate InQueue(s: State, m: MsgId, b: Box)
  {
    b < |s.boxes| && s.boxes[b].rxq.Some? && m in s.boxes[b].rxq.value
  }

  /** Every allocated message is user-held, in one rx queue once, freed or leaked; the flag marks the queued ones. */
  lemma MessageInOnePlace(s: State, m: MsgId)
    requires Inv(s) && m < |s.msgs|
    ensures s.msgs[m].flagged <==> exists b: Box :: InQueue(s, m, b)
    ensures forall b: Box :: InQueue(s, m, b) <==> s.msgs[m].place == Queued(b)
    ensures forall b: Box :: InQueue(s, m, b) ==> multiset(s.boxes[b].rxq.value)[m] == 1
  {
    assert MsgInv(s, m);
    forall b: Box | InQueue(s, m, b)
      ensures s.msgs[m].place == Queued(b) && multiset(s.boxes[b].rxq.value)[m] == 1
    {
      assert QueueInv(s, b);
      OnceInDistinct(s.boxes[b].rxq.value, m);
    }
    if s.msgs[m].place.Queued? {
      assert InQueue(s, m, s.msgs[m].place.box);
    }
  }

  lemma {:induction false} OnceInDistinct(q: seq<MsgId>, m: MsgId)
    requires m in q && forall i, j :: 0 <= i < j < |q| ==> q[i] != q[j]
    ensures multiset(q)[m] == 1
  {
    assert q == [q[0]] + q[1..];
    if q[0] == m {
      assert m !in q[1..];
    } else {
      OnceInDistinct(q[1..], m);
    }
  }

  /** Freed or leaked: nobody will touch the message again. */
  predicate Gone(msg: Msg)
  {
    msg.place == Freed || msg.place == Dropped
  }

  /**
   What a step does to a message that is not gone: it is freed by itc_free of its holder or by draining
   the queue it is in, and then its ENDPOINT was intact; it leaks exactly if it is in a queue that is
   drained and its ENDPOINT is damaged.  A message that is gone stays so.
   */
  lemma GoneStep(s: State, step: Step, m: MsgId)
    requires Inv(s) && Enabled(s, step) && m < |s.msgs|
    ensures m < |Apply(s, step).msgs|
    ensures Gone(s.msgs[m]) ==> Apply(s, step).msgs[m] == s.msgs[m]
    ensures !Gone(s.msgs[m]) ==>
              (Apply(s, step).msgs[m].place == Freed <==>
                 s.msgs[m].intact
                 && ((step == Free(step.t, m) && s.msgs[m].place == Held(step.t))
                     || (step.DeleteDrain? && s.msgs[m].place == Queued(s.threads[step.t].box))))
    ensures !Gone(s.msgs[m]) ==>
              (Apply(s, step).msgs[m].place == Dropped <==>
                 !s.msgs[m].intact && step.DeleteDrain? && s.msgs[m].place == Queued(s.threads[step.t].box))
  {
    assert MsgInv(s, m);
    if !s.threads[step.t].NoBox? {
      AtStep(s, step.t);
    }
    if step.DeleteDrain? {
      DrainDiscardsEach(s.msgs, s.boxes[s.threads[step.t].box].rxq.value);
    }
  }

  /** What is freed or leaked stays so, in no queue, in every continuation: nothing is freed twice. */
  lemma {:induction false} GoneForGood(s: State, steps: seq<Step>, m: MsgId)
    requires Inv(s) && IsRun(s, steps) && m < |s.msgs| && Gone(s.msgs[m])
    ensures m < |Exec(s, steps).msgs| && Exec(s, steps).msgs[m] == s.msgs[m]
    ensures forall b: Box :: !InQueue(Exec(s, steps), m, b)
    decreases |steps|
  {
    if steps == [] {
      MessageInOnePlace(s, m);
    } else {
      StepInv(s, steps[0]);
      GoneStep(s, steps[0], m);
      GoneForGood(Apply(s, steps[0]), steps[1..], m);
    }
  }

  ghost predicate NoneLeaked(s: State)
  {
    forall m: MsgId :: m < |s.msgs| ==> s.msgs[m].place != Dropped
  }

  /** A mailbox is not deleted while a message with a damaged ENDPOINT is pending in it. */
  ghost predicate DrainsIntact(s: State, step: Step)
    requires Enabled(s, step)
  {
    step.DeleteDrain? ==>
      forall m: MsgId :: InQueue(s, m, s.threads[step.t].box) && m < |s.msgs| ==> s.msgs[m].intact
  }

  lemma StepLeaksIff(s: State, step: Step)
    requires Inv(s) && Enabled(s, step) && NoneLeaked(s)
    ensures NoneLeaked(Apply(s, step)) <==> DrainsIntact(s, step)
  {
    var s' := Apply(s, step);
    forall m: MsgId | m < |s.msgs|
      ensures m < |s'.msgs|
      ensures s'.msgs[m].place == Dropped <==>
                step.DeleteDrain? && !s.msgs[m].intact && InQueue(s, m, s.threads[step.t].box)
    {
      GoneStep(s, step, m);
      MessageInOnePlace(s, m);
    }
    if step.DeleteDrain? {
      DeleteDrainInv(s, step.t);
    }
  }

  ghost predicate AlwaysDrainsIntact(s: State, steps: seq<Step>)
    requires IsRun(s, steps)
    decreases |steps|
  {
    steps == [] || (DrainsIntact(s, steps[0]) && AlwaysDrainsIntact(Apply(s, steps[0]), steps[1..]))
  }

  lemma {:induction false} LeakStays(s: State, steps: seq<Step>)
    requires Inv(s) && IsRun(s, steps) && !NoneLeaked(s)
    ensures !NoneLeaked(Exec(s, steps))
  {
    var m: MsgId :| m < |s.msgs| && s.msgs[m].place == Dropped;
    GoneForGood(s, steps, m);
  }

  /**
   Over every run: no message leaks if and only if no mailbox is ever deleted while a message with a
   damaged ENDPOINT is pending in it; so each pending message of a deleted mailbox is freed once.
   */
  lemma {:induction false} NoLeakIff(s: State, steps: seq<Step>)
    requires Inv(s) && IsRun(s, steps) && NoneLeaked(s)
    ensures NoneLeaked(Exec(s, steps)) <==> AlwaysDrainsIntact(s, steps)
    decreases |steps|
  {
    if steps != [] {
      StepInv(s, steps[0]);
      StepLeaksIff(s, steps[0]);
      if NoneLeaked(Apply(s, steps[0])) {
        NoLeakIff(Apply(s, steps[0]), steps[1..]);
      } else {
        LeakStays(Apply(s, steps[0]), steps[1..]);
      }
    }
  }

  lemma NoLeakInRunIff(n: nat, threads: nat, steps: seq<Step>)
    requires IsRun(Init(n, threads), steps)
    ensures NoneLeaked(Exec(Init(n, threads), steps)) <==> AlwaysDrainsIntact(Init(n, threads), steps)
  {
    InitInv(n, threads);
    NoLeakIff(Init(n, threads), steps);
  }

  // ---- Wake-up -----------------------------------------------------------------------------

  /** The receiver is inside itc_receive on this mailbox. */
  predicate Receiving(pc: Pc, b: Box)
  {
    pc == Polling(b) || pc == Blocked(b, true) || pc == Blocked(b, false)
  }

  /** A step changes a mailbox that is neither its thread's nor the free one it takes only by appending to it. */
  lemma ForeignBox(s: State, step: Step, b: Box)
    requires Enabled(s, step) && b < |s.boxes|
    requires s.threads[step.t].NoBox? || s.threads[step.t].box != b
    requires step.CreateTake? ==> s.free[0] != b
    ensures b < |Apply(s, step).boxes|
    ensures var box, box' := s.boxes[b], Apply(s, step).boxes[b];
            && box'.name == box.name && box'.holder == box.holder
            && (box' == box || (box.rxq.Some? && box'.rxq.Some? && box.rxq.value <= box'.rxq.value))
  {
  }

  /** A step moves no other thread; it may signal one that is blocked. */
  lemma ForeignThread(s: State, step: Step, u: Tid)
    requires Enabled(s, step) && u < |s.threads| && u != step.t
    ensures u < |Apply(s, step).threads|
    ensures var pc, pc' := s.threads[u], Apply(s, step).threads[u];
            pc' == pc || (pc.Blocked? && pc' == Blocked(pc.box, true))
  {
  }

  /** While other threads run, a receiver's queue only grows at its end. */
  lemma OthersOnlyAppend(s: State, step: Step, u: Tid, b: Box)
    requires Inv(s) && Enabled(s, step) && step.t != u && u < |s.threads| && Receiving(s.threads[u], b)
    ensures Inv(Apply(s, step)) && u < |Apply(s, step).threads| && Receiving(Apply(s, step).threads[u], b)
    ensures b < |s.boxes| && b < |Apply(s, step).boxes| && s.boxes[b].rxq.Some? && Apply(s, step).boxes[b].rxq.Some?
    ensures s.boxes[b].rxq.value <= Apply(s, step).boxes[b].rxq.value
  {
    StepInv(s, step);
    AtStep(s, u);
    if !s.threads[step.t].NoBox? {
      AtStep(s, step.t);
    }
    if step.CreateTake? {
      assert s.free[0] in s.free;
    }
    ForeignBox(s, step, b);
    ForeignThread(s, step, u);
  }

  ghost predicate NoStepOf(steps: seq<Step>, u: Tid)
  {
    forall i :: 0 <= i < |steps| ==> steps[i].t != u
  }

  /** The thread is runnable, and its next round of itc_receive returns the oldest message of its queue. */
  ghost predicate NextRoundReturns(s: State, u: Tid, b: Box, noWait: bool)
    requires u < |s.threads| && b < |s.boxes| && s.boxes[b].rxq.Some? && s.boxes[b].rxq.value != []
  {
    && (s.threads[u] == Polling(b) || s.threads[u] == Blocked(b, true))
    && (var r := if s.threads[u].Polling? then s else Apply(s, Wake(u));
        && Enabled(r, Poll(u, noWait))
        && Apply(r, Poll(u, noWait)).threads[u] == Owner(b)
        && Apply(r, Poll(u, noWait)).boxes[b].returned == s.boxes[b].returned + [s.boxes[b].rxq.value[0]])
  }

  lemma ReceiverReturns(s: State, u: Tid, b: Box, noWait: bool)
    requires Inv(s) && u < |s.threads| && Receiving(s.threads[u], b)
    ensures b < |s.boxes| && s.boxes[b].rxq.Some?
    ensures s.boxes[b].rxq.value != [] ==> NextRoundReturns(s, u, b, noWait)
  {
    AtStep(s, u);
    if s.boxes[b].rxq.value != [] {
      if s.threads[u].Polling? {
        PollTakeInv(s, u, noWait);
      } else {
        StepInv(s, Wake(u));
        PollTakeInv(Apply(s, Wake(u)), u, noWait);
      }
    }
  }

  /**
   No lost wake-up: let a thread be inside itc_receive and let any other threads run, in any
   interleaving.  If a message is then in its queue, the thread is runnable, and its next round returns
   the oldest message, which is the first one that was queued at the start if there was any.
   */
  lemma {:induction false} NoLostWakeup(s: State, u: Tid, b: Box, steps: seq<Step>, noWait: bool)
    requires Inv(s) && u < |s.threads| && Receiving(s.threads[u], b) && IsRun(s, steps) && NoStepOf(steps, u)
    ensures var s' := Exec(s, steps);
            && Inv(s') && u < |s'.threads| && b < |s.boxes| && b < |s'.boxes|
            && s.boxes[b].rxq.Some? && s'.boxes[b].rxq.Some?
            && s.boxes[b].rxq.value <= s'.boxes[b].rxq.value
            && (s'.boxes[b].rxq.value != [] ==> NextRoundReturns(s', u, b, noWait))
    decreases |steps|
  {
    if steps == [] {
      ReceiverReturns(s, u, b, noWait);
    } else {
      assert steps[0].t != u && forall i :: 0 <= i < |steps[1..]| ==> steps[1..][i] == steps[i + 1];
      OthersOnlyAppend(s, steps[0], u, b);
      NoLostWakeup(Apply(s, steps[0]), u, b, steps[1..], noWait);
    }
  }

  // ---- Ownership of mailboxes --------------------------------------------------------------

  ghost predicate Owns(s: State, t: Tid, b: Box)
  {
    t < |s.threads| && !s.threads[t].NoBox? && s.threads[t].box == b
  }

  /**
   A mailbox is in the free queue, or lost, or with exactly one thread.  In the free queue or lost it
   is UNUSED without rx queue; with a thread that is neither creating nor deleting it, it is INUSE
   with an rx queue.
   */
  lemma MailboxInOnePlace(s: State, b: Box)
    requires Inv(s) && b < |s.boxes|
    ensures b in s.free ==> s.boxes[b].holder == InFree && Dormant(s.boxes[b]) && forall t: Tid :: !Owns(s, t, b)
    ensures s.boxes[b].holder == Lost ==> b !in s.free && Dormant(s.boxes[b]) && forall t: Tid :: !Owns(s, t, b)
    ensures b !in s.free && s.boxes[b].holder != Lost ==> exists t: Tid :: Owns(s, t, b)
    ensures forall t: Tid, u: Tid :: Owns(s, t, b) && Owns(s, u, b) ==> t == u
    ensures forall t: Tid :: Owns(s, t, b) && (s.threads[t].Owner? || Receiving(s.threads[t], b)) ==>
                          s.boxes[b].inUse && s.boxes[b].rxq.Some?
  {
    assert BoxInv(s, b);
    forall t: Tid | Owns(s, t, b) ensures s.boxes[b].holder == With(t) && Matches(s.threads[t], s.boxes[b]) {
      AtStep(s, t);
    }
    if s.boxes[b].holder.With? {
      assert Owns(s, s.boxes[b].holder.thread, b);
    }
  }

  /** Only a name that is too long loses a mailbox, and nothing ever brings it back. */
  lemma LostIffNameTooLong(s: State, step: Step, b: Box)
    requires Inv(s) && Enabled(s, step) && b < |s.boxes|
    ensures b < |Apply(s, step).boxes|
    ensures Apply(s, step).boxes[b].holder == Lost <==>
              s.boxes[b].holder == Lost || (step.CreateTake? && b == s.free[0] && |step.name| > MAX_NAME)
  {
    assert BoxInv(s, b);
    if !s.threads[step.t].NoBox? {
      AtStep(s, step.t);
    }
    if step.CreateTake? {
      assert s.free[0] in s.free;
    }
  }

  /**
   In every run, at its end: each message is user-held, queued in one mailbox, freed or leaked, with
   the flag telling which; each mailbox is free, lost or with one thread.
   */
  lemma PlacesInEveryRun(n: nat, threads: nat, steps: seq<Step>, m: MsgId, b: Box)
    requires IsRun(Init(n, threads), steps)
    ensures var s := Exec(Init(n, threads), steps);
            && (m < |s.msgs| ==> forall c: Box :: InQueue(s, m, c) <==> s.msgs[m].place == Queued(c) && s.msgs[m].flagged)
            && (m < |s.msgs| && !s.msgs[m].flagged ==> forall c: Box :: !InQueue(s, m, c))
            && (b < |s.boxes| ==> (b in s.free <==> s.boxes[b].holder == InFree))
            && (b < |s.boxes| ==> (s.boxes[b].holder.With? <==> exists t: Tid :: Owns(s, t, b)))
            && (forall t: Tid, u: Tid :: Owns(s, t, b) && Owns(s, u, b) ==> t == u)
  {
    InitInv(n, threads);
    RunInv(Init(n, threads), steps);
    var s := Exec(Init(n, threads), steps);
    if m < |s.msgs| {
      assert MsgInv(s, m);
      MessageInOnePlace(s, m);
    }
    if b < |s.boxes| {
      assert BoxInv(s, b);
      MailboxInOnePlace(s, b);
    }
    forall t: Tid | Owns(s, t, b) ensures b < |s.boxes| && s.boxes[b].holder == With(t) {
      AtStep(s, t);
    }
  }

  // ---- The local name index ----------------------------------------------------------------

  /** The mailbox is set up and its owner has not begun to delete it. */
  ghost predicate Listed(s: State, b: Box)
  {
    b < |s.boxes| && s.boxes[b].holder.With? &&
    var t := s.boxes[b].holder.thread;
    t < |s.threads| && (s.threads[t].Owner? || Receiving(s.threads[t], b))
  }

  /** The index maps exactly the names of the listed mailboxes, each to its mailbox. */
  ghost predicate NamesExact(s: State)
  {
    && (forall b: Box :: Listed(s, b) ==> s.boxes[b].name in s.names && s.names[s.boxes[b].name] == b)
    && (forall name :: name in s.names ==> Listed(s, s.names[name]) && s.boxes[s.names[name]].name == name)
  }

  /** A mailbox is set up under the name of another one. */
  ghost predicate Duplicate(s: State, step: Step)
    requires Enabled(s, step)
  {
    step.CreateCommit? && exists b: Box :: Listed(s, b) && s.boxes[b].name == s.boxes[s.threads[step.t].box].name
  }

  /** Which mailboxes are listed after a step. */
  ghost predicate ListedAfter(s: State, step: Step, b: Box)
    requires Enabled(s, step)
  {
    var mine := Owns(s, step.t, b);
    (Listed(s, b) && !(mine && step.DeleteUnlist?)) || (mine && step.CreateCommit?)
  }

  lemma ListedOwnStep(s: State, step: Step)
    requires Inv(s) && Enabled(s, step) && !s.threads[step.t].NoBox?
    ensures var b := s.threads[step.t].box;
            && (Listed(Apply(s, step), b) <==> ListedAfter(s, step, b))
            && (ListedAfter(s, step, b) ==> b < |s.boxes| && Apply(s, step).boxes[b].name == s.boxes[b].name)
  {
    AtStep(s, step.t);
  }

  lemma ListedForeignStep(s: State, step: Step, b: Box)
    requires Inv(s) && Enabled(s, step) && b < |s.boxes| && !Owns(s, step.t, b)
    requires !(step.CreateTake? && s.free[0] == b)
    ensures Listed(Apply(s, step), b) <==> Listed(s, b)
    ensures b < |Apply(s, step).boxes| && Apply(s, step).boxes[b].name == s.boxes[b].name
  {
    assert BoxInv(s, b);
    ForeignBox(s, step, b);
    if s.boxes[b].holder.With? {
      ForeignThread(s, step, s.boxes[b].holder.thread);
    }
  }

  /** What a step does to the set of listed mailboxes and to their names. */
  lemma ListedStep(s: State, step: Step, b: Box)
    requires Inv(s) && Enabled(s, step)
    ensures Listed(Apply(s, step), b) <==> ListedAfter(s, step, b)
    ensures ListedAfter(s, step, b) ==> b < |s.boxes| && Apply(s, step).boxes[b].name == s.boxes[b].name
  {
    if Owns(s, step.t, b) {
      ListedOwnStep(s, step);
    } else if b < |s.boxes| {
      assert BoxInv(s, b);
      if step.CreateTake? && s.free[0] == b {
        assert s.free[0] in s.free;
      } else {
        ListedForeignStep(s, step, b);
      }
    }
  }

  /** Only setting up and deleting a mailbox change the index. */
  lemma NamesStep(s: State, step: Step)
    requires Inv(s) && Enabled(s, step)
    ensures !step.CreateCommit? && !step.DeleteUnlist? ==> Apply(s, step).names == s.names
    ensures step.CreateCommit? ==>
              var b := s.threads[step.t].box;
              Apply(s, step).names == if s.boxes[b].name in s.names then s.names else s.names[s.boxes[b].name := b]
  {
    if !s.threads[step.t].NoBox? {
      AtStep(s, step.t);
    }
  }

  /** The listed mailboxes are those of `s` with `add` put in and `drop` taken out, under the same names. */
  ghost predicate Relisted(s: State, s': State, add: set<Box>, drop: set<Box>)
  {
    forall b: Box ::
      && (Listed(s', b) <==> (Listed(s, b) && b !in drop) || b in add)
      && (Listed(s', b) ==> b < |s.boxes| && s'.boxes[b].name == s.boxes[b].name)
  }

  lemma NamesKept(s: State, s': State)
    requires NamesExact(s) && Relisted(s, s', {}, {}) && s'.names == s.names
    ensures NamesExact(s')
  {
  }

  lemma NamesUnlisted(s: State, s': State, b: Box)
    requires NamesExact(s) && Relisted(s, s', {}, {b}) && Listed(s, b) && s'.names == s.names - {s.boxes[b].name}
    ensures NamesExact(s')
  {
  }

  lemma NamesListedIff(s: State, s': State, b: Box)
    requires NamesExact(s) && Relisted(s, s', {b}, {}) && !Listed(s, b) && b < |s.boxes|
    requires s'.names == if s.boxes[b].name in s.names then s.names else s.names[s.boxes[b].name := b]
    ensures NamesExact(s') <==> !exists c: Box :: Listed(s, c) && s.boxes[c].name == s.boxes[b].name
  {
    assert Listed(s', b);
    if s.boxes[b].name in s.names {
      assert Listed(s, s.names[s.boxes[b].name]);
    }
  }

  lemma RelistedStep(s: State, step: Step)
    requires Inv(s) && Enabled(s, step)
    ensures var pc := s.threads[step.t];
            && ((step.CreateCommit? || step.DeleteUnlist?) ==> !pc.NoBox?)
            && Relisted(s, Apply(s, step), if step.CreateCommit? then {pc.box} else {}, if step.DeleteUnlist? then {pc.box} else {})
  {
    var s', pc := Apply(s, step), s.threads[step.t];
    var add, drop := if step.CreateCommit? then {pc.box} else {}, if step.DeleteUnlist? then {pc.box} else {};
    forall b: Box
      ensures Listed(s', b) <==> (Listed(s, b) && b !in drop) || b in add
      ensures Listed(s', b) ==> b < |s.boxes| && s'.boxes[b].name == s.boxes[b].name
    {
      ListedStep(s, step, b);
    }
  }

  /** A step keeps the index exact if and only if it does not set up a second mailbox of a name. */
  lemma StepKeepsNamesIff(s: State, step: Step)
    requires Inv(s) && Enabled(s, step) && NamesExact(s)
    ensures NamesExact(Apply(s, step)) <==> !Duplicate(s, step)
  {
    var s', pc := Apply(s, step), s.threads[step.t];
    RelistedStep(s, step);
    NamesStep(s, step);
    if step.CreateCommit? {
      AtStep(s, step.t);
      NamesListedIff(s, s', pc.box);
    } else if step.DeleteUnlist? {
      AtStep(s, step.t);
      NamesUnlisted(s, s', pc.box);
    } else {
      NamesKept(s, s');
    }
  }

  ghost predicate AlwaysExact(s: State, steps: seq<Step>)
    requires IsRun(s, steps)
    decreases |steps|
  {
    NamesExact(s) && (steps == [] || AlwaysExact(Apply(s, steps[0]), steps[1..]))
  }

  ghost predicate NoDuplicate(s: State, steps: seq<Step>)
    requires IsRun(s, steps)
    decreases |steps|
  {
    steps == [] || (!Duplicate(s, steps[0]) && NoDuplicate(Apply(s, steps[0]), steps[1..]))
  }

  lemma {:induction false} AlwaysExactIff(s: State, steps: seq<Step>)
    requires Inv(s) && IsRun(s, steps) && NamesExact(s)
    ensures AlwaysExact(s, steps) <==> NoDuplicate(s, steps)
    decreases |steps|
  {
    if steps != [] {
      StepInv(s, steps[0]);
      StepKeepsNamesIff(s, steps[0]);
      if NamesExact(Apply(s, steps[0])) {
        AlwaysExactIff(Apply(s, steps[0]), steps[1..]);
      }
    }
  }

  /**
   The name index is exact all along a run if and only if no mailbox is ever set up under the name of
   another one that is listed at that time.
   */
  lemma NamesInEveryRunIff(n: nat, threads: nat, steps: seq<Step>)
    requires IsRun(Init(n, threads), steps)
    ensures AlwaysExact(Init(n, threads), steps) <==> NoDuplicate(Init(n, threads), steps)
  {
    InitInv(n, threads);
    AlwaysExactIff(Init(n, threads), steps);
  }
}
