/**
 Any number of senders and one receiver thread on one shared region, interleaved at every semaphore
 call and every store of the critical sections (posixshm_send, posixshm_rx_thread): an int of a slot
 reference, a flag, a byte of the memcpy.  Messages fit the static pools and semaphore calls do not fail.
 */
module ShmProtocol {
  import opened Bytes
  import opened ShmLayout
  import opened Messages
  import opened ShmMemory
  import opened ShmQueue

  // ---- Stores of the critical sections -----------------------------------------------------

  datatype Write = Write(at: nat, bytes: seq<byte>)

  ghost predicate InRegion(ws: seq<Write>)
  {
    forall i :: 0 <= i < |ws| ==> ws[i].at + |ws[i].bytes| <= REGION
  }

  function ApplyAll(m: Region, ws: seq<Write>): Region
    requires InRegion(ws)
    decreases |ws|
  {
    if ws == [] then m else ApplyAll(Store(m, ws[0].at, ws[0].bytes), ws[1..])
  }

  /** A slot reference is two ints, stored one after the other. */
  function RefWrites(at: nat, l: Ref): (ws: seq<Write>)
    requires Storable(l)
    ensures |ws| == 2
  {
    [Write(at, LE32(OfInt32(l.pool))), Write(at + 4, LE32(OfInt32(l.slot)))]
  }

  /** memcpy byte by byte. */
  function CopyWrites(at: nat, s: seq<byte>): (ws: seq<Write>)
    ensures |ws| == |s|
    decreases |s|
  {
    if s == [] then [] else [Write(at, [s[0]])] + CopyWrites(at + 1, s[1..])
  }

  /** Where posixshm_send puts the reference to a new slot: next_slot of the tail, or head. */
  function LinkAddr(m: Region): (at: nat)
    requires Storable(RefAt(m, TAIL))
    ensures at + 8 <= REGION
  {
    var tail := RefAt(m, TAIL);
    if tail == NONE then HEAD else (SlotsDisjoint(tail, tail); Addr(tail))
  }

  /** The stores of posixshm_send once slot `r` is found, in program order. */
  function SendWrites(m: Region, r: Ref, s: seq<byte>): (ws: seq<Write>)
    requires IsSlot(r) && Storable(RefAt(m, TAIL))
    ensures |ws| == 5 + |s|
  {
    SlotsDisjoint(r, r);
    (RefWrites(LinkAddr(m), r) + RefWrites(TAIL, r)) + ([Write(Addr(r) + IN_USE, [1])] + CopyWrites(Addr(r) + SLOT_HEADER, s))
  }

  /** The stores of posixshm_rx_thread once the slot at head is handled, in program order. */
  function ReceiveWrites(m: Region): (ws: seq<Write>)
    requires IsSlot(RefAt(m, HEAD)) && Storable(CellAt(m, RefAt(m, HEAD)).next)
    ensures 5 <= |ws| <= 7
  {
    var h := RefAt(m, HEAD);
    SlotsDisjoint(h, h);
    (if h == RefAt(m, TAIL) then RefWrites(HEAD, NONE) + RefWrites(TAIL, NONE) else RefWrites(HEAD, CellAt(m, h).next))
    + ([Write(Addr(h) + IN_USE, [0])] + RefWrites(Addr(h), NONE))
  }

  /** Stores `ws` lie in the region and take `m` to `m'`. */
  ghost predicate Leads(m: Region, ws: seq<Write>, m': Region)
  {
    InRegion(ws) && ApplyAll(m, ws) == m'
  }

  lemma {:induction false} LeadsAppend(m: Region, a: seq<Write>, m1: Region, b: seq<Write>, m2: Region)
    requires Leads(m, a, m1) && Leads(m1, b, m2)
    ensures Leads(m, a + b, m2)
    decreases |a|
  {
    if a == [] {
      assert a + b == b;
    } else {
      assert (a + b)[1..] == a[1..] + b;
      assert InRegion(a[1..]) by {
        assert forall i :: 0 <= i < |a[1..]| ==> a[1..][i] == a[i + 1];
      }
      LeadsAppend(Store(m, a[0].at, a[0].bytes), a[1..], m1, b, m2);
    }
  }

  lemma LeadsOne(m: Region, at: nat, s: seq<byte>)
    requires at + |s| <= REGION
    ensures Leads(m, [Write(at, s)], Store(m, at, s))
  {
    assert [Write(at, s)][1..] == [];
  }

  /** Adjacent stores add up to one. */
  lemma StoreStore(m: seq<byte>, at: nat, a: seq<byte>, b: seq<byte>)
    requires at + |a| + |b| <= |m|
    ensures Store(Store(m, at, a), at + |a|, b) == Store(m, at, a + b)
  {
  }

  lemma LeadsRef(m: Region, at: nat, l: Ref)
    requires Storable(l) && at + 8 <= REGION
    ensures Leads(m, RefWrites(at, l), Store(m, at, EncodeRef(l)))
  {
    var p, q := LE32(OfInt32(l.pool)), LE32(OfInt32(l.slot));
    LeadsOne(m, at, p);
    LeadsOne(Store(m, at, p), at + 4, q);
    LeadsAppend(m, [Write(at, p)], Store(m, at, p), [Write(at + 4, q)], Store(Store(m, at, p), at + 4, q));
    StoreStore(m, at, p, q);
    assert RefWrites(at, l) == [Write(at, p)] + [Write(at + 4, q)];
  }

  lemma {:induction false} LeadsCopy(m: Region, at: nat, s: seq<byte>)
    requires at + |s| <= REGION
    ensures Leads(m, CopyWrites(at, s), Store(m, at, s))
    decreases |s|
  {
    if s == [] {
      assert Store(m, at, s) == m;
    } else {
      var m1 := Store(m, at, [s[0]]);
      LeadsOne(m, at, [s[0]]);
      LeadsCopy(m1, at + 1, s[1..]);
      LeadsAppend(m, [Write(at, [s[0]])], m1, CopyWrites(at + 1, s[1..]), Store(m1, at + 1, s[1..]));
      StoreStore(m, at, [s[0]], s[1..]);
      assert s == [s[0]] + s[1..];
    }
  }

  lemma LinkWrites(m: Region, r: Ref)
    requires IsSlot(r) && Storable(RefAt(m, TAIL))
    ensures Leads(m, RefWrites(LinkAddr(m), r) + RefWrites(TAIL, r), Link(m, r))
  {
    var m1 := Store(m, LinkAddr(m), EncodeRef(r));
    LeadsRef(m, LinkAddr(m), r);
    LeadsRef(m1, TAIL, r);
    LeadsAppend(m, RefWrites(LinkAddr(m), r), m1, RefWrites(TAIL, r), SetTail(m1, r));
  }

  lemma MarkThenCopy(m: Region, at: nat, to: nat, s: seq<byte>)
    requires at < REGION && to + |s| <= REGION
    ensures Leads(m, [Write(at, [1])] + CopyWrites(to, s), Store(Store(m, at, [1]), to, s))
  {
    var m1 := Store(m, at, [1]);
    LeadsOne(m, at, [1]);
    LeadsCopy(m1, to, s);
    LeadsAppend(m, [Write(at, [1])], m1, CopyWrites(to, s), Store(m1, to, s));
  }

  lemma OccupyWrites(m: Region, r: Ref, s: seq<byte>)
    requires IsSlot(r) && SLOT_HEADER + |s| <= SlotSize(r.pool)
    ensures Leads(m, [Write(Addr(r) + IN_USE, [1])] + CopyWrites(Addr(r) + SLOT_HEADER, s), Occupy(m, r, s))
  {
    SlotsDisjoint(r, r);
    MarkThenCopy(m, Addr(r) + IN_USE, Addr(r) + SLOT_HEADER, s);
  }

  /** The stores of a sender, one int, flag or byte at a time, add up to the append. */
  lemma SendWritesEnqueue(m: Region, r: Ref, s: seq<byte>)
    requires IsSlot(r) && SLOT_HEADER + |s| <= SlotSize(r.pool) && Storable(RefAt(m, TAIL))
    ensures InRegion(SendWrites(m, r, s))
    ensures ApplyAll(m, SendWrites(m, r, s)) == Enqueue(m, r, s)
  {
    SlotsDisjoint(r, r);
    LinkWrites(m, r);
    OccupyWrites(Link(m, r), r, s);
    LeadsAppend(m, RefWrites(LinkAddr(m), r) + RefWrites(TAIL, r), Link(m, r),
                [Write(Addr(r) + IN_USE, [1])] + CopyWrites(Addr(r) + SLOT_HEADER, s), Enqueue(m, r, s));
  }

  lemma UnlinkWrites(m: Region)
    requires IsSlot(RefAt(m, HEAD)) && Storable(CellAt(m, RefAt(m, HEAD)).next)
    ensures RefAt(m, HEAD) == RefAt(m, TAIL) ==> Leads(m, RefWrites(HEAD, NONE) + RefWrites(TAIL, NONE), Unlink(m))
    ensures RefAt(m, HEAD) != RefAt(m, TAIL) ==> Leads(m, RefWrites(HEAD, CellAt(m, RefAt(m, HEAD)).next), Unlink(m))
  {
    var m1 := SetHead(m, NONE);
    LeadsRef(m, HEAD, NONE);
    LeadsRef(m1, TAIL, NONE);
    LeadsAppend(m, RefWrites(HEAD, NONE), m1, RefWrites(TAIL, NONE), SetTail(m1, NONE));
    LeadsRef(m, HEAD, CellAt(m, RefAt(m, HEAD)).next);
  }

  lemma VacateWrites(m: Region, h: Ref)
    requires IsSlot(h)
    ensures Leads(m, [Write(Addr(h) + IN_USE, [0])] + RefWrites(Addr(h), NONE), Vacate(m, h))
  {
    SlotsDisjoint(h, h);
    var m1 := SetInUse(m, h, false);
    LeadsOne(m, Addr(h) + IN_USE, [0]);
    LeadsRef(m1, Addr(h), NONE);
    LeadsAppend(m, [Write(Addr(h) + IN_USE, [0])], m1, RefWrites(Addr(h), NONE), SetNext(m1, h, NONE));
  }

  /** The stores of the receiver, one int or flag at a time, add up to dropping the first message. */
  lemma ReceiveWritesDequeue(m: Region)
    requires IsSlot(RefAt(m, HEAD)) && Storable(CellAt(m, RefAt(m, HEAD)).next)
    ensures InRegion(ReceiveWrites(m))
    ensures ApplyAll(m, ReceiveWrites(m)) == Dequeue(m)
  {
    var h := RefAt(m, HEAD);
    SlotsDisjoint(h, h);
    var ws := if h == RefAt(m, TAIL) then RefWrites(HEAD, NONE) + RefWrites(TAIL, NONE)
              else RefWrites(HEAD, CellAt(m, h).next);
    UnlinkWrites(m);
    VacateWrites(Unlink(m), h);
    LeadsAppend(m, ws, Unlink(m), [Write(Addr(h) + IN_USE, [0])] + RefWrites(Addr(h), NONE), Dequeue(m));
  }

  // ---- State -------------------------------------------------------------------------------

  /** Where a sender is in posixshm_send; Stuck is the early return on a full pool. */
  datatype Phase =
    | Idle
    | Wanting(msg: Message)
    | Ticketed(msg: Message)
    | Locked(msg: Message)
    | Writing
    | Notifying
    | Stuck(msg: Message)

  /** Where the receiver thread is in its loop. */
  datatype RxPhase = RxWaiting | RxNotified | RxLocked | RxWriting | RxPosting

  /** Semaphores and program counters. */
  datatype Control = Control(mutex: nat, notify: nat, slots: nat, senders: seq<Phase>, rx: RxPhase)

  /**
   The region, and in `todo` the stores the holder of the mutex has still to make.  The rest is
   history: queued slots, messages linked in, messages handed to itc_send, and the number of times a
   party found nothing after a notification, dropped a message or followed a stray slot reference.
   */
  datatype Data = Data(mem: Region, todo: seq<Write>,
                       chain: seq<Ref>, sent: seq<Message>, delivered: seq<Message>, faults: nat)

  datatype State = State(c: Control, d: Data)

  ghost function Init(n: nat, m: Region): State
    requires Queued(m, [], [])
  {
    State(Control(1, 0, MAX_SLOTS, seq(n, _ => Idle), RxWaiting), Data(m, [], [], [], [], 0))
  }

  predicate Sendable(msg: Message)
  {
    Allocatable(msg) && PoolFor(Size(msg)) < STATIC_POOLS
  }

  // ---- Steps -------------------------------------------------------------------------------

  datatype Step =
    | Call(k: nat, msg: Message)
    | WaitSlot(k: nat)
    | WaitMutex(k: nat)
    | Search(k: nat)
    | SendStore(k: nat)
    | PostMutex(k: nat)
    | PostNotify(k: nat)
    | RxWaitNotify
    | RxWaitMutex
    | RxTake
    | RxStore
    | RxPostMutex
    | RxPostSlot

  predicate Enabled(s: State, step: Step)
  {
    var c := s.c;
    match step
    case Call(k, msg) => k < |c.senders| && c.senders[k].Idle? && Sendable(msg)
    case WaitSlot(k) => k < |c.senders| && c.senders[k].Wanting? && c.slots > 0
    case WaitMutex(k) => k < |c.senders| && c.senders[k].Ticketed? && c.mutex > 0
    case Search(k) => k < |c.senders| && c.senders[k].Locked? && Sendable(c.senders[k].msg)
    case SendStore(k) => k < |c.senders| && c.senders[k].Writing? && s.d.todo != []
    case PostMutex(k) => k < |c.senders| && c.senders[k].Writing? && s.d.todo == []
    case PostNotify(k) => k < |c.senders| && c.senders[k].Notifying?
    case RxWaitNotify => c.rx.RxWaiting? && c.notify > 0
    case RxWaitMutex => c.rx.RxNotified? && c.mutex > 0
    case RxTake => c.rx.RxLocked?
    case RxStore => c.rx.RxWriting? && s.d.todo != []
    case RxPostMutex => c.rx.RxWriting? && s.d.todo == []
    case RxPostSlot => c.rx.RxPosting?
  }

  /** The sender's next phase; `found` is the outcome of the slot search. */
  function NextPhase(p: Phase, step: Step, found: bool): Phase
  {
    match step
    case Call(_, msg) => Wanting(msg)
    case WaitSlot(_) => if p.Wanting? then Ticketed(p.msg) else p
    case WaitMutex(_) => if p.Ticketed? then Locked(p.msg) else p
    case Search(_) => if p.Locked? && !found then Stuck(p.msg) else Writing
    case PostMutex(_) => Notifying
    case PostNotify(_) => Idle
    case _ => p
  }

  predicate BySender(step: Step)
  {
    step.Call? || step.WaitSlot? || step.WaitMutex? || step.Search? || step.SendStore? || step.PostMutex? || step.PostNotify?
  }

  /** Effect of a step on the semaphores and program counters. */
  function Advance(c: Control, step: Step, found: bool): Control
    requires BySender(step) ==> step.k < |c.senders|
    requires step.WaitSlot? ==> c.slots > 0
    requires step.WaitMutex? || step.RxWaitMutex? ==> c.mutex > 0
    requires step.RxWaitNotify? ==> c.notify > 0
  {
    if BySender(step) then
      var c' := c.(senders := c.senders[step.k := NextPhase(c.senders[step.k], step, found)]);
      match step
      case WaitSlot(_) => c'.(slots := c.slots - 1)
      case WaitMutex(_) => c'.(mutex := c.mutex - 1)
      case PostMutex(_) => c'.(mutex := c.mutex + 1)
      case PostNotify(_) => c'.(notify := c.notify + 1)
      case _ => c'
    else match step
      case RxWaitNotify => c.(rx := RxNotified, notify := c.notify - 1)
      case RxWaitMutex => c.(rx := RxLocked, mutex := c.mutex - 1)
      case RxTake => c.(rx := RxWriting)
      case RxPostMutex => c.(rx := RxPosting, mutex := c.mutex + 1)
      case RxPostSlot => c.(rx := RxWaiting, slots := c.slots + 1)
      case _ => c
  }

  /** One store of a critical section reaches memory. */
  function DoStore(d: Data): Data
    requires d.todo != []
  {
    var w := d.todo[0];
    if w.at + |w.bytes| <= REGION
    then d.(mem := Store(d.mem, w.at, w.bytes), todo := d.todo[1..])
    else d.(todo := d.todo[1..], faults := d.faults + 1)
  }

  /** Whether the slot search succeeds. */
  predicate Finds(d: Data, msg: Message)
    requires Sendable(msg)
  {
    Storable(RefAt(d.mem, TAIL)) && TrySend(d.mem, msg).Sent?
  }

  /** Slot search under the mutex; on success the stores of the section are due. */
  function DoSearch(d: Data, msg: Message): (d': Data)
    requires Sendable(msg)
    ensures |d'.todo| <= |d.todo| + 5 + Size(msg) + ITC_HEADER + 1
  {
    if !Storable(RefAt(d.mem, TAIL)) then d.(faults := d.faults + 1)
    else if !Finds(d, msg) then d
    else
      SizeClasses(Size(msg));
      var r := Ref(PoolFor(Size(msg)), TrySend(d.mem, msg).slot);
      d.(todo := d.todo + SendWrites(d.mem, r, Wire(msg)), chain := d.chain + [r], sent := d.sent + [msg])
  }

  /** The receiver inspects head under the mutex and hands the message to itc_send. */
  function DoTake(d: Data): (d': Data)
    ensures |d'.todo| <= |d.todo| + 7
  {
    var h := RefAt(d.mem, HEAD);
    if !IsSlot(h) || !Storable(CellAt(d.mem, h).next) then d.(faults := d.faults + 1)
    else
      var d' := d.(todo := d.todo + ReceiveWrites(d.mem), chain := if d.chain == [] then [] else d.chain[1..]);
      match HandleSlot(CellAt(d.mem, h))
      case Delivered(msg) => d'.(delivered := d.delivered + [msg])
      case _ => d'.(faults := d.faults + 1)
  }

  function Apply(s: State, step: Step): State
    requires Enabled(s, step)
  {
    match step
    case Search(k) =>
      var msg := s.c.senders[k].msg;
      State(Advance(s.c, step, Finds(s.d, msg)), DoSearch(s.d, msg))
    case SendStore(_) => s.(d := DoStore(s.d))
    case RxStore => s.(d := DoStore(s.d))
    case RxTake => State(Advance(s.c, step, true), DoTake(s.d))
    case _ => s.(c := Advance(s.c, step, true))
  }

  // ---- Weighted sums over the senders ------------------------------------------------------

  /**
   What a sum over the senders counts: holders of the mutex, unspent tickets, notifications still to
   post, messages of a pool on their way to the search; Rank is the work a sender has still to do.
   */
  datatype Weight = Mutex | Ticket | Unnotified | Class(pool: nat) | Rank

  /** Messages of the pool among one message. */
  function InClass(msg: Message, pool: nat): nat
  {
    if Allocatable(msg) && PoolFor(Size(msg)) == pool then 1 else 0
  }

  function Of(w: Weight, p: Phase): nat
  {
    match w
    case Mutex => if p.Locked? || p.Writing? || p.Stuck? then 1 else 0
    case Ticket => if p.Ticketed? || p.Locked? || p.Stuck? then 1 else 0
    case Unnotified => if p.Writing? || p.Notifying? then 1 else 0
    case Class(pool) => if p.Wanting? || p.Ticketed? || p.Locked? then InClass(p.msg, pool) else 0
    case Rank => match p
      case Idle => 0
      case Wanting(msg) => 52 + Size(msg)
      case Ticketed(msg) => 51 + Size(msg)
      case Locked(msg) => 50 + Size(msg)
      case Writing => 2
      case Notifying => 1
      case Stuck(_) => 0
  }

  function Total(ps: seq<Phase>, w: Weight): nat
  {
    if ps == [] then 0 else Of(w, ps[0]) + Total(ps[1..], w)
  }

  lemma {:induction false} TotalUpdate(ps: seq<Phase>, k: nat, p: Phase, w: Weight)
    requires k < |ps|
    ensures Total(ps[k := p], w) == Total(ps, w) - Of(w, ps[k]) + Of(w, p)
    ensures Of(w, ps[k]) <= Total(ps, w)
  {
    if k > 0 {
      TotalUpdate(ps[1..], k - 1, p, w);
      assert ps[k := p][1..] == ps[1..][k - 1 := p];
    } else {
      assert ps[k := p][1..] == ps[1..];
    }
  }

  lemma TotalPair(ps: seq<Phase>, i: nat, j: nat, w: Weight)
    requires i < |ps| && j < |ps| && i != j
    ensures Of(w, ps[i]) + Of(w, ps[j]) <= Total(ps, w)
  {
    TotalUpdate(ps, i, Idle, w);
    TotalUpdate(ps[i := Idle], j, Idle, w);
  }

  lemma {:induction false} TotalWitness(ps: seq<Phase>, w: Weight) returns (k: nat)
    requires Total(ps, w) > 0
    ensures k < |ps| && Of(w, ps[k]) > 0
  {
    if Of(w, ps[0]) > 0 {
      k := 0;
    } else {
      k := TotalWitness(ps[1..], w);
      k := k + 1;
    }
  }

  lemma {:induction false} TotalIdle(n: nat, w: Weight)
    ensures Total(seq(n, _ => Idle), w) == 0
  {
    if n > 0 {
      assert seq(n, _ => Idle)[1..] == seq(n - 1, _ => Idle);
      TotalIdle(n - 1, w);
    }
  }

  // ---- Invariant ---------------------------------------------------------------------------

  function RxMutex(rx: RxPhase): nat
  {
    if rx.RxLocked? || rx.RxWriting? then 1 else 0
  }

  function RxTicket(rx: RxPhase): nat
  {
    if rx.RxWriting? || rx.RxPosting? then 1 else 0
  }

  function RxNotice(rx: RxPhase): nat
  {
    if rx.RxNotified? || rx.RxLocked? then 1 else 0
  }

  /** Messages linked in and not yet handed over, oldest first. */
  function Pending(d: Data): seq<Message>
    requires |d.delivered| <= |d.sent|
  {
    d.sent[|d.delivered|..]
  }

  /** The three semaphores account for every party and each of `n` pending messages. */
  ghost predicate Counts(c: Control, n: nat)
  {
    && c.mutex + Total(c.senders, Mutex) + RxMutex(c.rx) == 1
    && c.slots + Total(c.senders, Ticket) + n + RxTicket(c.rx) == MAX_SLOTS
    && n == c.notify + Total(c.senders, Unnotified) + RxNotice(c.rx)
  }

  ghost predicate MessagesFit(c: Control)
  {
    forall k :: 0 <= k < |c.senders| && (c.senders[k].Wanting? || c.senders[k].Ticketed? || c.senders[k].Locked?) ==>
                  Sendable(c.senders[k].msg)
  }

  /** A critical section has begun to write. */
  ghost predicate Busy(c: Control)
  {
    c.rx.RxWriting? || exists k :: 0 <= k < |c.senders| && c.senders[k].Writing?
  }

  /** The receiver has delivered a prefix of what was sent, with fresh flags. */
  ghost predicate Logged(delivered: seq<Message>, sent: seq<Message>)
  {
    && |delivered| <= |sent|
    && (forall i :: 0 <= i < |delivered| ==> delivered[i] == sent[i].(flags := 0))
  }

  lemma LogSend(delivered: seq<Message>, sent: seq<Message>, msg: Message)
    requires Logged(delivered, sent)
    ensures Logged(delivered, sent + [msg])
    ensures (sent + [msg])[|delivered|..] == sent[|delivered|..] + [msg]
  {
  }

  lemma LogTake(delivered: seq<Message>, sent: seq<Message>)
    requires Logged(delivered, sent) && |delivered| < |sent|
    ensures var next := sent[|delivered|..][0];
            && Logged(delivered + [next.(flags := 0)], sent)
            && sent[|delivered| + 1..] == sent[|delivered|..][1..]
  {
  }

  /** Every message sits in a slot of its own pool. */
  ghost predicate ByClass(chain: seq<Ref>, msgs: seq<Message>)
  {
    && |chain| == |msgs|
    && forall i :: 0 <= i < |msgs| ==> Allocatable(msgs[i]) && chain[i].pool == PoolFor(Size(msgs[i]))
  }

  /**
   Once the pending stores are made the bytes hold exactly the pending messages, in order and each in
   the pool of its size; what was delivered is what was sent, in order, with fresh flags; and no error
   branch was ever taken.
   */
  ghost predicate Content(d: Data)
  {
    && d.faults == 0
    && Logged(d.delivered, d.sent)
    && InRegion(d.todo)
    && Queued(ApplyAll(d.mem, d.todo), d.chain, Pending(d))
    && ByClass(d.chain, Pending(d))
  }

  ghost predicate Inv(s: State)
  {
    && Content(s.d)
    && Counts(s.c, |Pending(s.d)|)
    && MessagesFit(s.c)
    && (s.d.todo != [] ==> Busy(s.c))
  }

  lemma InitInv(n: nat, m: Region)
    requires Queued(m, [], [])
    ensures Inv(Init(n, m))
  {
    TotalIdle(n, Mutex);
    TotalIdle(n, Ticket);
    TotalIdle(n, Unnotified);
  }

  // ---- Preservation ------------------------------------------------------------------------

  /** A party that holds the mutex without writing yet finds no store pending. */
  lemma HolderFindsNoStores(c: Control, n: nat, k: nat)
    requires Counts(c, n)
    requires c.rx.RxLocked? || (k < |c.senders| && c.senders[k].Locked?)
    ensures !Busy(c)
  {
    if Busy(c) {
      if c.rx.RxLocked? {
        var j :| 0 <= j < |c.senders| && c.senders[j].Writing?;
        TotalUpdate(c.senders, j, Idle, Mutex);
      } else {
        TotalUpdate(c.senders, k, Idle, Mutex);
        var j :| 0 <= j < |c.senders| && c.senders[j].Writing?;
        TotalPair(c.senders, j, k, Mutex);
      }
    }
  }

  lemma SenderCounts(s: State, n: nat, step: Step, found: bool)
    requires Counts(s.c, n) && Enabled(s, step) && BySender(step)
    ensures Counts(Advance(s.c, step, found), if step.Search? && found then n + 1 else n)
  {
    var ps, k := s.c.senders, step.k;
    var p := NextPhase(ps[k], step, found);
    TotalUpdate(ps, k, p, Mutex);
    TotalUpdate(ps, k, p, Ticket);
    TotalUpdate(ps, k, p, Unnotified);
    assert Advance(s.c, step, found).senders == ps[k := p] && Advance(s.c, step, found).rx == s.c.rx;
  }

  /** The semaphore equations, for `n` pending messages before and `n'` after the step. */
  lemma AdvanceCounts(s: State, n: nat, step: Step, found: bool, n': nat)
    requires Counts(s.c, n) && Enabled(s, step)
    requires n' == if step.Search? && found then n + 1 else if step.RxTake? then n - 1 else n
    ensures Counts(Advance(s.c, step, found), n')
  {
    if BySender(step) {
      SenderCounts(s, n, step, found);
    }
  }

  /** Other parties leave a section that has begun to write in that phase. */
  lemma AdvanceBusy(s: State, step: Step, found: bool)
    requires Enabled(s, step) && MessagesFit(s.c)
    ensures MessagesFit(Advance(s.c, step, found))
    ensures Busy(s.c) && !step.PostMutex? && !step.RxPostMutex? ==> Busy(Advance(s.c, step, found))
  {
    var c' := Advance(s.c, step, found);
    if Busy(s.c) && !s.c.rx.RxWriting? && !step.PostMutex? {
      var j :| 0 <= j < |s.c.senders| && s.c.senders[j].Writing?;
      assert c'.senders[j].Writing?;
    }
  }

  lemma StoreContent(d: Data)
    requires Content(d) && d.todo != []
    ensures Content(DoStore(d)) && Pending(DoStore(d)) == Pending(d)
  {
    assert forall i :: 0 <= i < |d.todo[1..]| ==> d.todo[1..][i] == d.todo[i + 1];
  }

  lemma SearchEffect(m: Region, chain: seq<Ref>, msgs: seq<Message>, msg: Message)
    requires Queued(m, chain, msgs) && Sendable(msg)
    ensures Storable(RefAt(m, TAIL)) && SLOT_HEADER + |Wire(msg)| <= SlotSize(PoolFor(Size(msg)))
    ensures TrySend(m, msg) == NoSlot <==> PoolFull(chain, PoolFor(Size(msg)))
    ensures TrySend(m, msg).Sent? ==>
              var r := Ref(PoolFor(Size(msg)), TrySend(m, msg).slot);
              IsSlot(r) && InRegion(SendWrites(m, r, Wire(msg)))
              && Queued(ApplyAll(m, SendWrites(m, r, Wire(msg))), chain + [r], msgs + [msg])
  {
    TrySendAppends(m, chain, msgs, msg);
    SizeClasses(Size(msg));
    if TrySend(m, msg).Sent? {
      SendWritesEnqueue(m, Ref(PoolFor(Size(msg)), TrySend(m, msg).slot), Wire(msg));
    }
  }

  lemma ByClassEnds(chain: seq<Ref>, msgs: seq<Message>, r: Ref, msg: Message)
    requires ByClass(chain, msgs)
    ensures Allocatable(msg) && r.pool == PoolFor(Size(msg)) ==> ByClass(chain + [r], msgs + [msg])
    ensures msgs != [] ==> ByClass(chain[1..], msgs[1..])
  {
  }

  lemma LinkedContent(d: Data, ws: seq<Write>, r: Ref, msg: Message)
    requires Content(d) && InRegion(ws)
    requires Allocatable(msg) && r.pool == PoolFor(Size(msg))
    requires Queued(ApplyAll(d.mem, ws), d.chain + [r], Pending(d) + [msg])
    ensures var d' := d.(todo := ws, chain := d.chain + [r], sent := d.sent + [msg]);
            Content(d') && Pending(d') == Pending(d) + [msg]
  {
    var d' := d.(todo := ws, chain := d.chain + [r], sent := d.sent + [msg]);
    LogSend(d.delivered, d.sent, msg);
    ByClassEnds(d.chain, Pending(d), r, msg);
  }

  lemma SearchForm(d: Data, msg: Message)
    requires d.todo == [] && Sendable(msg) && Storable(RefAt(d.mem, TAIL)) && Finds(d, msg)
    requires SLOT_HEADER + |Wire(msg)| <= SlotSize(PoolFor(Size(msg)))
    ensures var r := Ref(PoolFor(Size(msg)), TrySend(d.mem, msg).slot);
            IsSlot(r) &&
            DoSearch(d, msg) == d.(todo := SendWrites(d.mem, r, Wire(msg)), chain := d.chain + [r], sent := d.sent + [msg])
  {
    var r := Ref(PoolFor(Size(msg)), TrySend(d.mem, msg).slot);
    assert d.todo + SendWrites(d.mem, r, Wire(msg)) == SendWrites(d.mem, r, Wire(msg));
  }

  lemma SearchContent(d: Data, msg: Message)
    requires Content(d) && d.todo == [] && Sendable(msg)
    ensures Content(DoSearch(d, msg))
    ensures Pending(DoSearch(d, msg)) == if Finds(d, msg) then Pending(d) + [msg] else Pending(d)
    ensures Finds(d, msg) <==> !PoolFull(d.chain, PoolFor(Size(msg)))
    ensures !Finds(d, msg) ==> DoSearch(d, msg) == d
  {
    SearchEffect(d.mem, d.chain, Pending(d), msg);
    if Finds(d, msg) {
      var r := Ref(PoolFor(Size(msg)), TrySend(d.mem, msg).slot);
      var ws := SendWrites(d.mem, r, Wire(msg));
      LinkedContent(d, ws, r, msg);
      SearchForm(d, msg);
    }
  }

  lemma TakeEffect(m: Region, chain: seq<Ref>, msgs: seq<Message>)
    requires Queued(m, chain, msgs) && msgs != []
    ensures chain != [] && IsSlot(RefAt(m, HEAD)) && Storable(CellAt(m, RefAt(m, HEAD)).next)
    ensures HandleSlot(CellAt(m, RefAt(m, HEAD))) == Delivered(msgs[0].(flags := 0))
    ensures InRegion(ReceiveWrites(m)) && Queued(ApplyAll(m, ReceiveWrites(m)), chain[1..], msgs[1..])
  {
    DequeueMessage(m, chain, msgs);
    ReceiveWritesDequeue(m);
  }

  lemma UnlinkedContent(d: Data, ws: seq<Write>)
    requires Content(d) && InRegion(ws) && Pending(d) != [] && d.chain != []
    requires Queued(ApplyAll(d.mem, ws), d.chain[1..], Pending(d)[1..])
    ensures var d' := d.(todo := ws, chain := d.chain[1..], delivered := d.delivered + [Pending(d)[0].(flags := 0)]);
            Content(d') && Pending(d') == Pending(d)[1..]
  {
    var d' := d.(todo := ws, chain := d.chain[1..], delivered := d.delivered + [Pending(d)[0].(flags := 0)]);
    LogTake(d.delivered, d.sent);
    ByClassEnds(d.chain, Pending(d), d.chain[0], Pending(d)[0]);
    assert Pending(d') == d.sent[|d.delivered| + 1..] == Pending(d)[1..];
  }

  lemma TakeForm(d: Data, msg: Message)
    requires d.todo == [] && d.chain != []
    requires IsSlot(RefAt(d.mem, HEAD)) && Storable(CellAt(d.mem, RefAt(d.mem, HEAD)).next)
    requires HandleSlot(CellAt(d.mem, RefAt(d.mem, HEAD))) == Delivered(msg)
    ensures DoTake(d) == d.(todo := ReceiveWrites(d.mem), chain := d.chain[1..], delivered := d.delivered + [msg])
  {
    assert d.todo + ReceiveWrites(d.mem) == ReceiveWrites(d.mem);
  }

  lemma TakeContent(d: Data)
    requires Content(d) && d.todo == [] && Pending(d) != []
    ensures Content(DoTake(d)) && Pending(DoTake(d)) == Pending(d)[1..]
  {
    TakeEffect(d.mem, d.chain, Pending(d));
    var ws := ReceiveWrites(d.mem);
    UnlinkedContent(d, ws);
    TakeForm(d, Pending(d)[0].(flags := 0));
  }

  lemma SearchInv(s: State, k: nat)
    requires Inv(s) && Enabled(s, Search(k))
    ensures Inv(Apply(s, Search(k)))
  {
    var n, msg := |Pending(s.d)|, s.c.senders[k].msg;
    var found := Finds(s.d, msg);
    HolderFindsNoStores(s.c, n, k);
    SearchContent(s.d, msg);
    AdvanceCounts(s, n, Search(k), found, if found then n + 1 else n);
    AdvanceBusy(s, Search(k), found);
    assert found ==> Advance(s.c, Search(k), found).senders[k].Writing?;
  }

  lemma TakeInv(s: State)
    requires Inv(s) && Enabled(s, RxTake)
    ensures Inv(Apply(s, RxTake))
  {
    var n := |Pending(s.d)|;
    HolderFindsNoStores(s.c, n, 0);
    TakeContent(s.d);
    AdvanceCounts(s, n, RxTake, true, n - 1);
    AdvanceBusy(s, RxTake, true);
  }

  lemma StepInv(s: State, step: Step)
    requires Inv(s) && Enabled(s, step)
    ensures Inv(Apply(s, step))
  {
    match step
    case Search(k) => SearchInv(s, k);
    case RxTake => TakeInv(s);
    case SendStore(_) => StoreContent(s.d);
    case RxStore => StoreContent(s.d);
    case _ =>
      AdvanceCounts(s, |Pending(s.d)|, step, true, |Pending(s.d)|);
      AdvanceBusy(s, step, true);
  }
}
