/**
 Mailboxes of one process (itc.c with the local transport): any number of threads, interleaved at
 every region that runs under a mailbox mutex or outside any lock.  A message is delivered inside the
 process; itc_send tests the mailbox state as part of its locked region.
 */
module Mailboxes {
  import opened LinkedList

  type Box = nat
  type Tid = nat
  type MsgId = nat

  const MAX_NAME: nat := 255

  // ---- State -------------------------------------------------------------------------------

  /** Where a thread is: which mailbox it owns and what call it is in. */
  datatype Pc =
    | NoBox
    | Creating(box: Box)
    | Owner(box: Box)
    | Polling(box: Box)
    | Blocked(box: Box, signalled: bool)
    | Unlisted(box: Box)
    | Closing(box: Box)
    | Closed(box: Box)

  /** History: who has a mailbox at hand. */
  datatype Holder = InFree | Lost | With(thread: Tid)

  /**
   struct itc_mailbox with its rx queue; `fd` is the eventfd counter once the fd exists.  History since
   the mailbox was created: messages accepted by itc_send and returned by itc_receive.
   */
  datatype Mbox = Mbox(
    inUse: bool, rxq: Option<seq<MsgId>>, len: int, fd: Option<nat>, name: string,
    holder: Holder, accepted: seq<MsgId>, returned: seq<MsgId>)

  /**
   History: where a message is.  A freed message may not be touched again; a dropped one is allocated
   but nobody has a pointer to it any more.
   */
  datatype Place = Held(thread: Tid) | Queued(box: Box) | Freed | Dropped

  /** `flagged` is ITC_FLAGS_MSG_INRXQUEUE; `intact` tells whether ENDPOINT still follows the user part. */
  datatype Msg = Msg(place: Place, flagged: bool, intact: bool)

  /** `faults` counts what must not happen: a blocking read, a missing or stale rx queue, a double free. */
  datatype State = State(
    boxes: seq<Mbox>, free: seq<Box>, threads: seq<Pc>, names: map<string, Box>, msgs: seq<Msg>, faults: nat)

  function Init(n: nat, threads: nat): State
  {
    State(seq(n, _ => Mbox(false, None, 0, None, "", InFree, [], [])), seq(n, i => i),
          seq(threads, _ => NoBox), map[], [], 0)
  }

  // ---- Steps -------------------------------------------------------------------------------

  datatype Step =
    | Alloc(t: Tid)
    | Free(t: Tid, m: MsgId)
    | WriteGuard(t: Tid, m: MsgId, intact: bool)
    | CreateTake(t: Tid, name: string)
    | CreateCommit(t: Tid)
    | Send(t: Tid, m: MsgId, to: Box)
    | ReceiveCall(t: Tid)
    | Poll(t: Tid, noWait: bool)
    | Wake(t: Tid)
    | Timeout(t: Tid)
    | GetFd(t: Tid)
    | DeleteUnlist(t: Tid)
    | DeleteMark(t: Tid)
    | DeleteClose(t: Tid)
    | DeleteDrain(t: Tid)

  /**
   Threads use messages they hold, except that a stale pointer to a queued one may reach itc_free.  A
   thread that writes past the user part of its message may damage ENDPOINT, or restore it.
   */
  predicate Enabled(s: State, step: Step)
  {
    step.t < |s.threads| &&
    var pc := s.threads[step.t];
    (pc.NoBox? || pc.box < |s.boxes|) &&
    match step
    case Alloc(_) => true
    case Free(t, m) => m < |s.msgs| && (s.msgs[m].place == Held(t) || s.msgs[m].place.Queued?)
    case WriteGuard(t, m, _) => m < |s.msgs| && s.msgs[m].place == Held(t)
    case CreateTake(_, _) => pc.NoBox? && s.free != [] && s.free[0] < |s.boxes|
    case CreateCommit(_) => pc.Creating?
    case Send(t, m, to) => pc.Owner? && to != pc.box && to < |s.boxes| && m < |s.msgs| && s.msgs[m].place == Held(t)
    case ReceiveCall(_) => pc.Owner?
    case Poll(_, _) => pc.Polling?
    case Wake(_) => pc.Blocked?
    case Timeout(_) => pc.Blocked?
    case GetFd(_) => pc.Owner?
    case DeleteUnlist(_) => pc.Owner?
    case DeleteMark(_) => pc.Unlisted?
    case DeleteClose(_) => pc.Closing?
    case DeleteDrain(_) => pc.Closed?
  }

  /** Thread `t` moves to `pc` and its mailbox becomes `box`. */
  function Move(s: State, t: Tid, pc: Pc, b: Box, box: Mbox): State
    requires t < |s.threads| && b < |s.boxes|
  {
    s.(threads := s.threads[t := pc], boxes := s.boxes[b := box])
  }

  /** itc_free refuses a message that is still in an rx queue or whose ENDPOINT is damaged. */
  function DoFree(s: State, m: MsgId): State
    requires m < |s.msgs|
  {
    if s.msgs[m].flagged || !s.msgs[m].intact then s else s.(msgs := s.msgs[m := s.msgs[m].(place := Freed)])
  }

  /** itc_create_mailbox up to the lock; a name that is too long loses the dequeued mailbox. */
  function DoCreateTake(s: State, t: Tid, name: string): State
    requires Enabled(s, CreateTake(t, name))
  {
    var b := s.free[0];
    var s' := s.(free := s.free[1..]);
    if |name| > MAX_NAME then s'.(boxes := s.boxes[b := s.boxes[b].(holder := Lost)])
    else Move(s', t, Creating(b), b, s.boxes[b].(name := name, len := 0, holder := With(t)))
  }

  /** The locked region of itc_create_mailbox; a name already listed stays with its mailbox. */
  function DoCreateCommit(s: State, t: Tid): State
    requires Enabled(s, CreateCommit(t))
  {
    var b := s.threads[t].box;
    var box := s.boxes[b];
    if box.rxq.Some? then s.(faults := s.faults + 1)
    else
      Move(s, t, Owner(b), b, box.(inUse := true, rxq := Some([]), accepted := [], returned := []))
      .(names := if box.name in s.names then s.names else s.names[box.name := b])
  }

  /** pthread_cond_signal on a mailbox. */
  function Signal(threads: seq<Pc>, b: Box): (r: seq<Pc>)
    ensures |r| == |threads|
  {
    seq(|threads|, i requires 0 <= i < |threads| => if threads[i] == Blocked(b, false) then Blocked(b, true) else threads[i])
  }

  /** itc_send to a mailbox of this process. */
  function DoSend(s: State, m: MsgId, to: Box): State
    requires to < |s.boxes| && m < |s.msgs|
  {
    var box := s.boxes[to];
    if !box.inUse then s
    else if box.rxq == None then s.(faults := s.faults + 1)
    else
      var fd := if box.fd.Some? && box.len == 0 then Some(box.fd.value + 1) else box.fd;
      s.(boxes := s.boxes[to := box.(rxq := Some(box.rxq.value + [m]), fd := fd, len := box.len + 1,
                                     accepted := box.accepted + [m])],
         msgs := s.msgs[m := s.msgs[m].(place := Queued(to), flagged := true)],
         threads := Signal(s.threads, to))
  }

  /** One round of itc_receive under the lock; reading an eventfd at 0 would block. */
  function DoPoll(s: State, t: Tid, noWait: bool): State
    requires Enabled(s, Poll(t, noWait))
  {
    var b := s.threads[t].box;
    var box := s.boxes[b];
    if box.rxq == None then s.(faults := s.faults + 1)
    else if box.rxq.value == [] then s.(threads := s.threads[t := if noWait then Owner(b) else Blocked(b, false)])
    else
      var m := box.rxq.value[0];
      var drained := box.len - 1 == 0;
      if m >= |s.msgs| || (box.fd.Some? && drained && box.fd.value == 0) then s.(faults := s.faults + 1)
      else
        Move(s, t, Owner(b), b, box.(rxq := Some(box.rxq.value[1..]), len := box.len - 1,
                                     fd := if box.fd.Some? && drained then Some(0) else box.fd,
                                     returned := box.returned + [m]))
        .(msgs := s.msgs[m := s.msgs[m].(place := Held(t), flagged := false)])
  }

  /** itc_get_fd */
  function DoGetFd(s: State, t: Tid): State
    requires Enabled(s, GetFd(t))
  {
    var b := s.threads[t].box;
    var box := s.boxes[b];
    if box.fd.Some? then s
    else s.(boxes := s.boxes[b := box.(fd := Some(if box.len != 0 then 1 else 0))])
  }

  /** A pending message taken out and passed to itc_free, whose refusal nobody looks at. */
  function Discarded(msg: Msg): Msg
  {
    msg.(place := if msg.intact then Freed else Dropped, flagged := false)
  }

  /** The draining loop of local_delete_mbox: unflag and free each message; None on a double free. */
  function DrainMsgs(msgs: seq<Msg>, q: seq<MsgId>): Option<seq<Msg>>
    decreases |q|
  {
    if q == [] then Some(msgs)
    else if q[0] >= |msgs| || msgs[q[0]].place == Freed then None
    else DrainMsgs(msgs[q[0] := Discarded(msgs[q[0]])], q[1..])
  }

  /** The second locked region of itc_delete_mailbox. */
  function DoDeleteDrain(s: State, t: Tid): State
    requires Enabled(s, DeleteDrain(t))
  {
    var b := s.threads[t].box;
    var box := s.boxes[b];
    if box.rxq == None || DrainMsgs(s.msgs, box.rxq.value) == None then s.(faults := s.faults + 1)
    else
      Move(s, t, NoBox, b, box.(rxq := None, name := "", holder := InFree))
      .(msgs := DrainMsgs(s.msgs, box.rxq.value).value, free := s.free + [b])
  }

  function Apply(s: State, step: Step): State
    requires Enabled(s, step)
  {
    var t := step.t;
    var pc := s.threads[t];
    match step
    case Alloc(_) => s.(msgs := s.msgs + [Msg(Held(t), false, true)])
    case Free(_, m) => DoFree(s, m)
    case WriteGuard(_, m, intact) => s.(msgs := s.msgs[m := s.msgs[m].(intact := intact)])
    case CreateTake(_, name) => DoCreateTake(s, t, name)
    case CreateCommit(_) => DoCreateCommit(s, t)
    case Send(_, m, to) => DoSend(s, m, to)
    case ReceiveCall(_) => s.(threads := s.threads[t := Polling(pc.box)])
    case Poll(_, noWait) => DoPoll(s, t, noWait)
    case Wake(_) => s.(threads := s.threads[t := Polling(pc.box)])
    case Timeout(_) => s.(threads := s.threads[t := Owner(pc.box)])
    case GetFd(_) => DoGetFd(s, t)
    case DeleteUnlist(_) =>
      s.(threads := s.threads[t := Unlisted(pc.box)], names := s.names - {s.boxes[pc.box].name})
    case DeleteMark(_) => Move(s, t, Closing(pc.box), pc.box, s.boxes[pc.box].(inUse := false))
    case DeleteClose(_) => Move(s, t, Closed(pc.box), pc.box, s.boxes[pc.box].(fd := None))
    case DeleteDrain(_) => DoDeleteDrain(s, t)
  }

  // ---- Invariant ---------------------------------------------------------------------------

  /** Not set up: as after itc_init, except possibly for name and length counter. */
  ghost predicate Dormant(box: Mbox)
  {
    !box.inUse && box.rxq == None && box.fd == None
  }

  /**
   The length counter is the queue length, the eventfd counter tells whether the queue is non-empty,
   and what was accepted is what was returned followed by what is queued.
   */
  ghost predicate Counted(box: Mbox)
  {
    && box.rxq.Some?
    && box.len == |box.rxq.value|
    && (box.fd.Some? ==> box.fd.value == if box.rxq.value == [] then 0 else 1)
    && box.accepted == box.returned + box.rxq.value
  }

  /** State of a mailbox according to where its owner is. */
  ghost predicate Matches(pc: Pc, box: Mbox)
  {
    match pc
    case NoBox => false
    case Creating(_) => Dormant(box) && box.len == 0
    case Owner(_) => box.inUse && Counted(box)
    case Polling(_) => box.inUse && Counted(box)
    case Blocked(_, signalled) => box.inUse && Counted(box) && (!signalled ==> box.rxq.value == [])
    case Unlisted(_) => box.inUse && Counted(box)
    case Closing(_) => !box.inUse && Counted(box)
    case Closed(_) => !box.inUse && Counted(box) && box.fd == None
  }

  ghost predicate BoxInv(s: State, b: Box)
    requires b < |s.boxes|
  {
    var box := s.boxes[b];
    && (b in s.free <==> box.holder == InFree)
    && match box.holder
       case InFree => Dormant(box)
       case Lost => Dormant(box)
       case With(t) => t < |s.threads| && !s.threads[t].NoBox? && s.threads[t].box == b && Matches(s.threads[t], box)
  }

  ghost predicate ThreadInv(s: State, t: Tid)
    requires t < |s.threads|
  {
    var pc := s.threads[t];
    !pc.NoBox? ==> pc.box < |s.boxes| && s.boxes[pc.box].holder == With(t)
  }

  /** A queue holds each of its messages once, and they are recorded as queued there. */
  ghost predicate QueueInv(s: State, b: Box)
    requires b < |s.boxes|
  {
    s.boxes[b].rxq.Some? ==>
      var q := s.boxes[b].rxq.value;
      && (forall i, j :: 0 <= i < j < |q| ==> q[i] != q[j])
      && (forall i :: 0 <= i < |q| ==> q[i] < |s.msgs| && s.msgs[q[i]].place == Queued(b))
  }

  /** The flag is set exactly on queued messages, and a queued message is in that queue. */
  ghost predicate MsgInv(s: State, m: MsgId)
    requires m < |s.msgs|
  {
    var msg := s.msgs[m];
    && (msg.flagged <==> msg.place.Queued?)
    && (msg.place.Queued? ==>
          msg.place.box < |s.boxes| && s.boxes[msg.place.box].rxq.Some? && m in s.boxes[msg.place.box].rxq.value)
  }

  ghost predicate FreeInv(s: State)
  {
    && (forall i, j :: 0 <= i < j < |s.free| ==> s.free[i] != s.free[j])
    && (forall b :: b in s.free ==> b < |s.boxes|)
  }

  ghost predicate Inv(s: State)
  {
    && s.faults == 0
    && FreeInv(s)
    && (forall b: Box :: b < |s.boxes| ==> BoxInv(s, b))
    && (forall t: Tid :: t < |s.threads| ==> ThreadInv(s, t))
    && (forall b: Box :: b < |s.boxes| ==> QueueInv(s, b))
    && (forall m: MsgId :: m < |s.msgs| ==> MsgInv(s, m))
  }
}
