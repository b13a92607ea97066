/**
 What each call of itc.c does to threads, mailboxes and messages, said on the fields of the state: when
 itc_receive returns and with what, when an eventfd exists, who a message or a mailbox goes to.
 */
module MailboxEffects {
  import opened LinkedList
  import opened Mailboxes
  import opened MailboxRuns

  // ---- itc_receive -------------------------------------------------------------------------

  /**
   A round of itc_receive that finds nothing: without waiting the call returns, otherwise the thread
   waits; nothing else changes.
   */
  lemma EmptyRound(s: State, t: Tid, noWait: bool)
    requires Inv(s) && Enabled(s, Poll(t, noWait)) && s.boxes[s.threads[t].box].rxq == Some([])
    ensures var b := s.threads[t].box;
            Apply(s, Poll(t, noWait)) == s.(threads := s.threads[t := if noWait then Owner(b) else Blocked(b, false)])
  {
  }

  /** A round that finds a message: the oldest one goes to the thread, and no other message moves. */
  ghost predicate TakesOldest(s: State, s': State, t: Tid, b: Box)
    requires t < |s.threads| && b < |s.boxes| && s.boxes[b].rxq.Some? && s.boxes[b].rxq.value != []
  {
    var box, m := s.boxes[b], s.boxes[b].rxq.value[0];
    && m < |s.msgs|
    && s'.threads == s.threads[t := Owner(b)]
    && s'.msgs == s.msgs[m := Msg(Held(t), false, s.msgs[m].intact)]
    && s'.free == s.free && s'.names == s.names
    && |s'.boxes| == |s.boxes| && (forall c: Box :: c < |s.boxes| && c != b ==> s'.boxes[c] == s.boxes[c])
    && (var box' := s'.boxes[b];
        && box'.rxq == Some(box.rxq.value[1..]) && box'.returned == box.returned + [m] && box'.accepted == box.accepted
        && box'.inUse == box.inUse && box'.name == box.name && box'.holder == box.holder && box'.fd.Some? == box.fd.Some?)
  }

  lemma FullRound(s: State, t: Tid, noWait: bool)
    requires Inv(s) && Enabled(s, Poll(t, noWait))
    requires s.boxes[s.threads[t].box].rxq.Some? && s.boxes[s.threads[t].box].rxq.value != []
    ensures TakesOldest(s, Apply(s, Poll(t, noWait)), t, s.threads[t].box)
  {
    AtStep(s, t);
  }

  /**
   A thread inside itc_receive leaves it exactly by a round that finds a message, by a round that finds
   none and may not wait, or by a timeout; with a message it is the oldest one, otherwise nothing else
   changes.  Until then it stays inside, on the same mailbox.
   */
  lemma LeavesReceiveIff(s: State, step: Step, u: Tid, b: Box)
    requires Inv(s) && Enabled(s, step) && u < |s.threads| && Receiving(s.threads[u], b)
    ensures b < |s.boxes| && s.boxes[b].rxq.Some? && u < |Apply(s, step).threads|
    ensures var s', q := Apply(s, step), s.boxes[b].rxq.value;
            && (s'.threads[u] == Owner(b) <==>
                  step.t == u && (step.Timeout? || (step.Poll? && (q != [] || step.noWait))))
            && (s'.threads[u] == Owner(b) || Receiving(s'.threads[u], b))
            && (s'.threads[u] == Owner(b) && step.Poll? && q != [] ==> TakesOldest(s, s', u, b))
            && (s'.threads[u] == Owner(b) && !(step.Poll? && q != []) ==> s' == s.(threads := s.threads[u := Owner(b)]))
  {
    AtStep(s, u);
    if step.t != u {
      ForeignThread(s, step, u);
    } else if step.Poll? && s.boxes[b].rxq.value != [] {
      FullRound(s, u, step.noWait);
    }
  }

  /** Inside itc_receive a thread polls, waits when it finds nothing, and polls again when it wakes up. */
  lemma InsideReceive(s: State, step: Step, u: Tid, b: Box)
    requires Inv(s) && Enabled(s, step) && u < |s.threads| && step.t == u
    ensures s.threads[u] == Owner(b) && step.ReceiveCall? ==> Apply(s, step) == s.(threads := s.threads[u := Polling(b)])
    ensures s.threads[u].Blocked? && s.threads[u].box == b && step.Wake? ==> Apply(s, step) == s.(threads := s.threads[u := Polling(b)])
    ensures s.threads[u] == Polling(b) ==> (step.Poll? || step.Alloc? || step.Free? || step.WriteGuard?)
    ensures s.threads[u].Blocked? ==> (step.Wake? || step.Timeout? || step.Alloc? || step.Free? || step.WriteGuard?)
  {
  }

  /** A waiting thread is signalled exactly by a message accepted for its mailbox. */
  lemma SignalledIff(s: State, step: Step, u: Tid, b: Box)
    requires Inv(s) && Enabled(s, step) && u < |s.threads| && s.threads[u] == Blocked(b, false) && step.t != u
    ensures u < |Apply(s, step).threads|
    ensures Apply(s, step).threads[u] == if step.Send? && step.to == b then Blocked(b, true) else Blocked(b, false)
  {
    AtStep(s, u);
  }

  // ---- itc_get_fd --------------------------------------------------------------------------

  /** After itc_get_fd the fd exists, readable exactly if messages are pending; nothing else changes. */
  lemma GetFdEffect(s: State, t: Tid)
    requires Inv(s) && Enabled(s, GetFd(t))
    ensures var b := s.threads[t].box;
            var s' := Apply(s, GetFd(t));
            && b < |s.boxes| && |s'.boxes| == |s.boxes| && s.boxes[b].rxq.Some?
            && s'.boxes[b].fd.Some? && (s'.boxes[b].fd.value == 1 <==> s.boxes[b].rxq.value != [])
            && (s'.boxes[b].fd.value == 0 <==> s.boxes[b].rxq.value == [])
            && (s.boxes[b].fd.Some? ==> s'.boxes[b].fd == s.boxes[b].fd)
            && s' == s.(boxes := s.boxes[b := s.boxes[b].(fd := s'.boxes[b].fd)])
  {
    AtStep(s, t);
  }

  /** An fd comes into being by itc_get_fd of the owner alone, and goes by its deleting the mailbox alone. */
  lemma FdExistsIff(s: State, step: Step, b: Box)
    requires Inv(s) && Enabled(s, step) && b < |s.boxes|
    ensures b < |Apply(s, step).boxes|
    ensures var mine := !s.threads[step.t].NoBox? && s.threads[step.t].box == b;
            Apply(s, step).boxes[b].fd.Some? <==>
              (s.boxes[b].fd.Some? && !(mine && step.DeleteClose?)) || (mine && step.GetFd?)
  {
    if !s.threads[step.t].NoBox? {
      AtStep(s, step.t);
    }
  }

  // ---- itc_send ----------------------------------------------------------------------------

  /** A message is accepted: it is the last one in the queue, and the receiver is told in both ways. */
  ghost predicate Accepts(s: State, s': State, m: MsgId, to: Box)
    requires m < |s.msgs| && to < |s.boxes| && s.boxes[to].rxq.Some?
  {
    var box := s.boxes[to];
    && s'.msgs == s.msgs[m := Msg(Queued(to), true, s.msgs[m].intact)]
    && s'.free == s.free && s'.names == s.names
    && |s'.boxes| == |s.boxes| && (forall c: Box :: c < |s.boxes| && c != to ==> s'.boxes[c] == s.boxes[c])
    && |s'.threads| == |s.threads|
    && (forall u: Tid :: u < |s.threads| ==>
          s'.threads[u] == if s.threads[u] == Blocked(to, false) then Blocked(to, true) else s.threads[u])
    && (var box' := s'.boxes[to];
        && box'.rxq == Some(box.rxq.value + [m]) && box'.accepted == box.accepted + [m] && box'.returned == box.returned
        && box'.inUse && box'.name == box.name && box'.holder == box.holder
        && box'.fd == (if box.fd.Some? then Some(1) else None))
  }

  /** itc_send is accepted exactly by a mailbox in use; otherwise the sender keeps the message and nothing changes. */
  lemma SendEffect(s: State, t: Tid, m: MsgId, to: Box)
    requires Inv(s) && Enabled(s, Send(t, m, to))
    ensures if s.boxes[to].inUse then s.boxes[to].rxq.Some? && Accepts(s, Apply(s, Send(t, m, to)), m, to)
            else Apply(s, Send(t, m, to)) == s
  {
    assert BoxInv(s, to);
  }

  // ---- Messages ----------------------------------------------------------------------------

  /** itc_alloc gives a new intact message to the caller; only its holder's writes touch its ENDPOINT. */
  lemma AllocEffect(s: State, t: Tid)
    requires Enabled(s, Alloc(t))
    ensures Apply(s, Alloc(t)) == s.(msgs := s.msgs + [Msg(Held(t), false, true)])
  {
  }

  lemma GuardStep(s: State, step: Step, m: MsgId)
    requires Inv(s) && Enabled(s, step) && m < |s.msgs|
    ensures m < |Apply(s, step).msgs|
    ensures Apply(s, step).msgs[m].intact ==
              if step.WriteGuard? && step.m == m then step.intact else s.msgs[m].intact
    ensures step.WriteGuard? && step.m == m ==> Apply(s, step) == s.(msgs := s.msgs[m := s.msgs[m].(intact := step.intact)])
  {
    if !s.threads[step.t].NoBox? {
      AtStep(s, step.t);
    }
    if step.DeleteDrain? {
      DrainDiscardsEach(s.msgs, s.boxes[s.threads[step.t].box].rxq.value);
    }
  }

  // ---- itc_create_mailbox and itc_delete_mailbox -------------------------------------------

  /** The first free mailbox goes to the thread, under the name; a name over 255 loses it. */
  lemma TakeFreeEffect(s: State, t: Tid, name: string)
    requires Inv(s) && Enabled(s, CreateTake(t, name))
    ensures var b, s' := s.free[0], Apply(s, CreateTake(t, name));
            && s'.free == s.free[1..] && s'.names == s.names && s'.msgs == s.msgs
            && |s'.boxes| == |s.boxes| && (forall c: Box :: c < |s.boxes| && c != b ==> s'.boxes[c] == s.boxes[c])
            && s'.boxes[b].rxq == None && !s'.boxes[b].inUse
            && if |name| > 255 then s'.threads == s.threads && s'.boxes[b].holder == Lost
               else s'.threads == s.threads[t := Creating(b)] && s'.boxes[b].name == name && s'.boxes[b].holder == With(t)
  {
    assert s.free[0] in s.free && BoxInv(s, s.free[0]);
  }

  /** The mailbox is in use with an empty queue and without fd, listed unless its name already is. */
  lemma CommitEffect(s: State, t: Tid)
    requires Inv(s) && Enabled(s, CreateCommit(t))
    ensures var b := s.threads[t].box;
            var s' := Apply(s, CreateCommit(t));
            && b < |s.boxes| && s'.threads == s.threads[t := Owner(b)] && s'.free == s.free && s'.msgs == s.msgs
            && s'.boxes == s.boxes[b := Mbox(true, Some([]), 0, None, s.boxes[b].name, With(t), [], [])]
            && s'.names == if s.boxes[b].name in s.names then s.names else s.names[s.boxes[b].name := b]
  {
    AtStep(s, t);
  }

  /** The mailbox leaves the index, is marked unused, loses its fd, and goes empty to the end of the free queue. */
  lemma DeleteEffect(s: State, t: Tid, step: Step)
    requires Inv(s) && Enabled(s, step) && step.t == t && !s.threads[t].NoBox?
    ensures var b := s.threads[t].box;
            var box := s.boxes[b];
            && b < |s.boxes|
            && (step.DeleteUnlist? ==> Apply(s, step) == s.(threads := s.threads[t := Unlisted(b)], names := s.names - {box.name}))
            && (step.DeleteMark? ==> Apply(s, step) == s.(threads := s.threads[t := Closing(b)], boxes := s.boxes[b := box.(inUse := false)]))
            && (step.DeleteClose? ==> Apply(s, step) == s.(threads := s.threads[t := Closed(b)], boxes := s.boxes[b := box.(fd := None)]))
            && (step.DeleteDrain? ==>
                  var s' := Apply(s, step);
                  && s'.threads == s.threads[t := NoBox] && s'.free == s.free + [b] && s'.names == s.names
                  && |s'.boxes| == |s.boxes| && (forall c: Box :: c < |s.boxes| && c != b ==> s'.boxes[c] == s.boxes[c])
                  && s'.boxes[b].rxq == None && s'.boxes[b].fd == None && !s'.boxes[b].inUse
                  && s'.boxes[b].name == "" && s'.boxes[b].holder == InFree)
  {
    AtStep(s, t);
    if step.DeleteDrain? {
      DrainDiscardsEach(s.msgs, s.boxes[s.threads[t].box].rxq.value);
    }
  }

  // ---- Create and delete undo each other ---------------------------------------------------

  function CreateSteps(t: Tid, name: string): seq<Step>
  {
    [CreateTake(t, name), CreateCommit(t)]
  }

  function DeleteSteps(t: Tid): seq<Step>
  {
    [DeleteUnlist(t), DeleteMark(t), DeleteClose(t), DeleteDrain(t)]
  }

  /** The thread has a new mailbox, listed under its name. */
  ghost predicate Created(s: State, s': State, t: Tid, name: string)
    requires s.free != [] && t < |s.threads|
  {
    var b := s.free[0];
    && b < |s.boxes|
    && s' == s.(free := s.free[1..], threads := s.threads[t := Owner(b)], names := s.names[name := b],
                boxes := s.boxes[b := Mbox(true, Some([]), 0, None, name, With(t), [], [])])
  }

  /** itc_create_mailbox without interference, for a name that is not taken. */
  lemma CreateCall(s: State, t: Tid, name: string)
    requires Inv(s) && Enabled(s, CreateTake(t, name)) && |name| <= 255 && name !in s.names
    ensures IsRun(s, CreateSteps(t, name)) && Created(s, Exec(s, CreateSteps(t, name)), t, name)
  {
    var s1 := Apply(s, CreateTake(t, name));
    TakeFreeEffect(s, t, name);
    StepInv(s, CreateTake(t, name));
    CommitEffect(s1, t);
    StepInv(s1, CreateCommit(t));
    RunOn(s1, CreateCommit(t), []);
    RunOn(s, CreateTake(t, name), [CreateCommit(t)]);
  }

  /**
   Create and delete undo each other: afterwards the index of names, the messages and the threads are
   as before, and the mailbox is unused at the end of the free queue.
   */
  lemma CreateDeleteRoundTrip(s: State, t: Tid, name: string)
    requires Inv(s) && Enabled(s, CreateTake(t, name)) && |name| <= 255 && name !in s.names
    ensures var steps := CreateSteps(t, name) + DeleteSteps(t);
            && IsRun(s, steps) && s.free[0] < |s.boxes|
            && Exec(s, steps) == s.(free := s.free[1..] + [s.free[0]],
                                    boxes := s.boxes[s.free[0] := Mbox(false, None, 0, None, "", InFree, [], [])])
  {
    CreateCall(s, t, name);
    RunInv(s, CreateSteps(t, name));
    var s' := Exec(s, CreateSteps(t, name));
    DeleteCall(s', t);
    RunAppend(s, CreateSteps(t, name), DeleteSteps(t));
    assert s'.threads[t := NoBox] == s.threads;
    assert s'.names - {name} == s.names;
  }

  lemma Overwrite<T>(q: seq<T>, i: nat, x: T, y: T)
    requires i < |q|
    ensures q[i := x][i := y] == q[i := y]
  {
  }

  /** The first three steps of itc_delete_mailbox, without interference. */
  lemma CloseCall(s: State, t: Tid)
    requires t < |s.threads| && s.threads[t].Owner? && s.threads[t].box < |s.boxes|
    ensures IsRun(s, DeleteSteps(t)[..3])
    ensures var b := s.threads[t].box;
            Exec(s, DeleteSteps(t)[..3]) ==
              s.(threads := s.threads[t := Closed(b)], names := s.names - {s.boxes[b].name},
                 boxes := s.boxes[b := s.boxes[b].(inUse := false, fd := None)])
  {
    var b := s.threads[t].box;
    var s1 := Apply(s, DeleteUnlist(t));
    var s2 := Apply(s1, DeleteMark(t));
    var s3 := Apply(s2, DeleteClose(t));
    Overwrite(s.threads, t, Unlisted(b), Closing(b));
    Overwrite(s.threads, t, Closing(b), Closed(b));
    Overwrite(s.boxes, b, s.boxes[b].(inUse := false), s.boxes[b].(inUse := false, fd := None));
    RunOn(s2, DeleteClose(t), []);
    RunOn(s1, DeleteMark(t), [DeleteClose(t)]);
    RunOn(s, DeleteUnlist(t), [DeleteMark(t), DeleteClose(t)]);
    assert DeleteSteps(t)[..3] == [DeleteUnlist(t), DeleteMark(t), DeleteClose(t)];
  }

  /** itc_delete_mailbox of an empty mailbox, without interference. */
  lemma DeleteCall(s: State, t: Tid)
    requires t < |s.threads| && s.threads[t].Owner? && s.threads[t].box < |s.boxes|
    requires s.boxes[s.threads[t].box].rxq == Some([])
    ensures IsRun(s, DeleteSteps(t))
    ensures var b := s.threads[t].box;
            Exec(s, DeleteSteps(t)) ==
              s.(threads := s.threads[t := NoBox], names := s.names - {s.boxes[b].name}, free := s.free + [b],
                 boxes := s.boxes[b := s.boxes[b].(inUse := false, rxq := None, fd := None, name := "", holder := InFree)])
  {
    var b := s.threads[t].box;
    CloseCall(s, t);
    var s' := Exec(s, DeleteSteps(t)[..3]);
    Overwrite(s.threads, t, Closed(b), NoBox);
    Overwrite(s.boxes, b, s'.boxes[b], s'.boxes[b].(rxq := None, name := "", holder := InFree));
    RunOn(s', DeleteDrain(t), []);
    RunAppend(s, DeleteSteps(t)[..3], [DeleteDrain(t)]);
    assert DeleteSteps(t) == DeleteSteps(t)[..3] + [DeleteDrain(t)];
  }

  // ---- Progress ----------------------------------------------------------------------------

  /**
   No call hangs except in the wait of itc_receive, which a wake-up, spurious or not, or the timeout ends
   at any time.
   */
  lemma CallsProceed(s: State, t: Tid, name: string)
    requires Inv(s) && t < |s.threads|
    ensures Enabled(s, Alloc(t))
    ensures match s.threads[t]
            case NoBox => Enabled(s, CreateTake(t, name)) <==> s.free != []
            case Creating(_) => Enabled(s, CreateCommit(t))
            case Owner(_) => Enabled(s, ReceiveCall(t)) && Enabled(s, GetFd(t)) && Enabled(s, DeleteUnlist(t))
            case Polling(_) => Enabled(s, Poll(t, true)) && Enabled(s, Poll(t, false))
            case Blocked(_, _) => Enabled(s, Wake(t)) && Enabled(s, Timeout(t))
            case Unlisted(_) => Enabled(s, DeleteMark(t))
            case Closing(_) => Enabled(s, DeleteClose(t))
            case Closed(_) => Enabled(s, DeleteDrain(t))
  {
    assert ThreadInv(s, t);
    assert s.free != [] ==> s.free[0] in s.free;
  }

  /**
   A thread may free and write to exactly what it holds, except that a stale pointer to a queued message
   may reach itc_free; with a mailbox it can send such a message to any other mailbox.
   */
  lemma MessageCalls(s: State, t: Tid, m: MsgId, intact: bool, to: Box)
    requires Inv(s) && t < |s.threads| && m < |s.msgs|
    ensures Enabled(s, Free(t, m)) <==> s.msgs[m].place == Held(t) || s.msgs[m].place.Queued?
    ensures Enabled(s, WriteGuard(t, m, intact)) <==> s.msgs[m].place == Held(t)
    ensures Enabled(s, Send(t, m, to)) <==>
              s.msgs[m].place == Held(t) && s.threads[t].Owner? && to != s.threads[t].box && to < |s.boxes|
  {
    assert ThreadInv(s, t);
  }
}
