/**
 itccoord.c as a state machine: process slots with free and used lists, the index of all registered
 mailbox names beside one index per process, and the main loop with its zombie check.
 */
module Coordinator {
  import opened Bytes
  import opened LinkedList

  const MAX_PROCESSES: nat := 255
  const USABLE: nat := 253
  const SHIFT: nat := 0x10_0000
  const RETRIES: nat := 10
  const LOW_THRESHOLD: nat := 10
  const NO_MBOX_ID: u32 := 0xFFFF_FFFF

  // ---- State -------------------------------------------------------------------------------

  datatype Status = Unused | Listening | Connected | Invalid

  /** struct itc_process; `open` is sockfd != -1, `mboxes` the names of list_mboxes_tree. */
  datatype Process = Process(mboxId: u32, pid: int, open: bool, status: Status, mboxes: map<string, u32>)

  /** A pointer into the process table. */
  type Slot = p: nat | p < MAX_PROCESSES

  type Table = ps: seq<Process> | |ps| == MAX_PROCESSES
    witness seq(MAX_PROCESSES, i => Process(0, -1, false, Unused, map[]))

  /** itccoord_inst and the zombie counter of main; list entries are process indices. */
  datatype State = State(
    free: seq<Slot>, used: seq<Slot>, freeCount: int,
    procs: Table, tree: map<string, u32>, counter: int)

  function InitProcess(i: nat, coordPid: int): Process
    requires i < MAX_PROCESSES
  {
    if i == 0 then Process(NO_MBOX_ID, -1, false, Invalid, map[])
    else if i == 1 then Process(SHIFT, coordPid, false, Connected, map[])
    else Process(i * SHIFT, -1, false, Unused, map[])
  }

  function Init(coordPid: int): State
  {
    State(seq(USABLE, i requires 0 <= i < USABLE => i + 2), [], USABLE,
          seq(MAX_PROCESSES, i requires 0 <= i < MAX_PROCESSES => InitProcess(i, coordPid)), map[], 0)
  }

  // ---- Process slots -----------------------------------------------------------------------

  /**
   What becomes of main: it goes on, calls exit(), or follows the next pointer of a list node that was
   freed, in state `s`.  C gives that read no meaning, so a run ends there.
   */
  datatype Outcome = Go(s: State) | Exit | Stray(s: State)

  /**
   handle_locate_coord_request: q_dequeue on an empty free list sets ITC_QUEUE_EMPTY, which the code
   takes for a failure, so main exits and the NO_MBOX_ID reply is never sent.
   */
  function Register(s: State, pid: int): Outcome
  {
    if s.free == [] then Exit
    else
      var p := s.free[0];
      Go(s.(free := s.free[1..], freeCount := s.freeCount - 1, used := s.used + [p],
            procs := s.procs[p := s.procs[p].(pid := pid, open := true, status := Listening)]))
  }

  /** connect_to_process after a successful accept and ack. */
  function Connect(s: State, p: Slot): State
  {
    s.(procs := s.procs[p := s.procs[p].(open := true, status := Connected)])
  }

  /** disconnect_from_process: the process's names leave the index of all names. */
  function Disconnect(s: State, p: Slot): State
  {
    s.(used := RemoveFirst(s.used, p), free := s.free + [p], freeCount := s.freeCount + 1,
       tree := s.tree - s.procs[p].mboxes.Keys,
       procs := s.procs[p := s.procs[p].(pid := -1, open := false, status := Unused, mboxes := map[])])
  }

  // ---- Mailbox names -----------------------------------------------------------------------

  function ProcIndex(id: u32): nat
  {
    id / SHIFT
  }

  /** find_process tests index > MAX_SUPPORTED_PROCESSES, one more than the array holds. */
  function FindProcess(id: u32): Option<nat>
  {
    if ProcIndex(id) > MAX_PROCESSES then None else Some(ProcIndex(id))
  }

  /** The pointer find_process returns lies inside the array exactly when the index is not 255. */
  lemma FindProcessInBoundsIff(id: u32)
    ensures (FindProcess(id).Some? ==> FindProcess(id).value < MAX_PROCESSES) <==> ProcIndex(id) != MAX_PROCESSES
  {
  }

  datatype Request = Add(id: u32, name: string) | Remove(id: u32, name: string) | Locate(name: string) | Unknown

  /** The handlers dereference what find_process returns. */
  predicate InBounds(req: Request)
  {
    req.Add? || req.Remove? ==> ProcIndex(req.id) != MAX_PROCESSES
  }

  /** Whether the request comes from a process the coordinator regards as connected. */
  predicate FromConnected(s: State, id: u32)
    requires ProcIndex(id) != MAX_PROCESSES
  {
    FindProcess(id).Some? && s.procs[FindProcess(id).value].status == Connected
  }

  /** handle_add_mbox; tsearch keeps an entry that is already in the process's own tree. */
  function AddMbox(s: State, id: u32, name: string): State
    requires ProcIndex(id) != MAX_PROCESSES
  {
    if !FromConnected(s, id) || name in s.tree then s
    else
      var p := ProcIndex(id);
      var own := s.procs[p].mboxes;
      s.(tree := s.tree[name := id],
         procs := s.procs[p := s.procs[p].(mboxes := if name in own then own else own[name := id])])
  }

  /** handle_remove_mbox: deletes the name whichever process registered it. */
  function RemoveMbox(s: State, id: u32, name: string): State
    requires ProcIndex(id) != MAX_PROCESSES
  {
    if !FromConnected(s, id) || name !in s.tree then s
    else
      var p := ProcIndex(id);
      s.(tree := s.tree - {name}, procs := s.procs[p := s.procs[p].(mboxes := s.procs[p].mboxes - {name})])
  }

  datatype Located = NotHere | UnknownProcess | JustTerminated | Found(id: u32, pid: int)

  /** handle_locate_mbox on this host. */
  function LocateMbox(s: State, name: string): Located
    requires name in s.tree ==> ProcIndex(s.tree[name]) != MAX_PROCESSES
  {
    if name !in s.tree then NotHere
    else match FindProcess(s.tree[name])
      case None => UnknownProcess
      case Some(p) => if s.procs[p].status != Connected then JustTerminated else Found(s.tree[name], s.procs[p].pid)
  }

  function Handle(s: State, req: Request): State
    requires InBounds(req)
  {
    match req
    case Add(id, name) => AddMbox(s, id, name)
    case Remove(id, name) => RemoveMbox(s, id, name)
    case _ => s
  }

  // ---- The main loop -----------------------------------------------------------------------

  /**
   What one iteration finds: a process locating the coordinator, the processes whose socket is
   readable, those among them that hang up during accept, the pids that no longer exist, a request.
   */
  datatype Event = Event(register: Option<int>, ready: set<nat>, aborted: set<nat>, dead: set<int>, request: Request)

  predicate ChecksZombies(s: State)
  {
    s.counter == RETRIES - 1 || s.freeCount < LOW_THRESHOLD
  }

  predicate IsZombie(s: State, p: Slot, dead: set<int>)
  {
    s.procs[p].status == Listening && s.procs[p].pid > 0 && s.procs[p].pid in dead
  }

  /** The process is about to be accepted. */
  predicate Accepting(s: State, p: Slot, ev: Event)
  {
    s.procs[p].open && p in ev.ready && s.procs[p].status == Listening
  }

  /** The pass ends at this entry. */
  predicate EndsPass(s: State, p: Slot, ev: Event)
  {
    if s.procs[p].open && p in ev.ready then s.procs[p].status != Listening
    else ChecksZombies(s) && IsZombie(s, p, ev.dead)
  }

  /** The pass over `list` comes to a process that hangs up during accept. */
  ghost predicate ReachesAbort(s: State, list: seq<Slot>, ev: Event)
  {
    exists i :: 0 <= i < |list| && Accepting(s, list[i], ev) && list[i] in ev.aborted
                && forall j :: 0 <= j < i ==> !EndsPass(s, list[j], ev)
  }

  /** After one entry the pass goes on in a state, or is over. */
  datatype Visited = On(s: State) | Over(outcome: Outcome)

  /**
   One entry of the pass over the used list.  When a process hangs up during accept,
   connect_to_process disconnects it, which frees the list node the pass stands on, and the pass goes
   on through the next pointer of that node.
   */
  function Visit(s: State, p: Slot, ev: Event): Visited
  {
    if s.procs[p].open && p in ev.ready then
      match s.procs[p].status
      case Listening => if p in ev.aborted then Over(Stray(Disconnect(s, p))) else On(Connect(s, p))
      case Connected => Over(Go(Disconnect(s, p)))
      case _ => Over(Exit)
    else if ChecksZombies(s) && IsZombie(s, p, ev.dead) then
      Over(Go(Disconnect(s, p).(counter := s.counter - 1)))
    else
      On(s)
  }

  /** The pass over the used list, from entry `rest[0]` on. */
  function Walk(s: State, rest: seq<Slot>, ev: Event): Outcome
    decreases |rest|
  {
    if rest == [] then Go(s)
    else match Visit(s, rest[0], ev)
      case On(s') => Walk(s', rest[1..], ev)
      case Over(outcome) => outcome
  }

  function Tick(s: State): State
  {
    s.(counter := (s.counter + 1) % RETRIES)
  }

  /** The state in which the iteration passes over the used list. */
  function BeforePass(s: State, ev: Event): Outcome
  {
    if ev.register == None then Go(s) else Register(s, ev.register.value)
  }

  /** The state in which the iteration handles its request. */
  function BeforeRequest(s: State, ev: Event): Outcome
  {
    var o := BeforePass(s, ev);
    if o.Go? then Walk(o.s, o.s.used, ev) else o
  }

  function Iterate(s: State, ev: Event): Outcome
    requires InBounds(ev.request)
  {
    var o := BeforeRequest(s, ev);
    if o.Go? then Go(Tick(Handle(o.s, ev.request))) else o
  }
}
