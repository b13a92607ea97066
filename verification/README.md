# A verified model of the ITC framework

ITC passes messages between threads, processes and hosts. A message lives in an `itc_message`
(header, user bytes starting with `msgno`, ENDPOINT guard byte) and travels between mailboxes: inside
a process through an rx queue, between processes through shared memory, between hosts through a pair
of gateways. One coordinator per host hands out process slots and keeps the index of mailbox names.
This project models the five parts of the system whose correctness spans several functions, threads
or processes, and proves what they promise, for all inputs and over all runs.

## Parts

- **Shared-memory queue** (`Bytes`, `ShmLayout`, `Messages`, `ShmMemory`, `ShmQueue`, `SharedMemory`,
  `ShmProtocol`, `ShmRuns`, `ShmCapacity`). Three levels over the 25 mapped pages: bytes, slot cells,
  and a sequence of messages. `SharedMemory.Shm` updates the bytes in place. `ShmProtocol` is a step
  machine for any number of senders and one receiver in which every semaphore call and every store of
  a critical section is a step of its own: each int of a slot reference, each flag, each byte of the
  memcpy, in ascending order. The reads of a critical section (the slot search, the receiver's look at
  the slot at head) are one step each, as nobody writes without the mutex. `ShmRuns` holds the theorems
  over whole runs, `ShmCapacity` those about the number of messages per pool.
- **Linked queues** (`LinkedList`, `Queue`, `RxQueue`). The heap structures of `itc_queue.c` and of
  the rx queues, refined to sequences, each with the set of live nodes as witness against leaks and
  double frees.
- **Coordinator** (`Coordinator`, `CoordinatorRuns`, `CoordinatorEffects`, `CoordinatorCases`,
  `Zombies`, `ProcessLists`, `CoordinatorInstance`). The handlers and one loop iteration as functions
  on a state, the theorems over all runs of that function, what each iteration does to every slot and
  every name, concrete runs, some of which break promises, and the object that performs the same
  iteration in place, over two linked lists whose nodes it may read only while they are live.
- **Mailbox core** (`Mailboxes`, `MailboxRuns`, `MailboxEffects`, `MailboxCases`, `Bits`,
  `MailboxIds`). A step machine for any number of threads and mailboxes with local delivery: one step
  per region that runs under a mailbox mutex or outside any lock; `MailboxRuns` holds what is true of
  every run, `MailboxEffects` what each call does. `MailboxIds` covers ids, masks and the two lookup tables, with
  bitwise operations defined bit by bit.
- **Gateway** (`GatewayFrames`, `GatewaySocket`, `GatewayForward`). The frames, the server as a
  function of the byte stream, the loops over a socket with arbitrary fragmentation, and the way of a
  message from a process through two gateways.

History variables (`sent`, `delivered`, `accepted`, `returned`, `holder`, `chain`, `faults`) record
what happened and decide nothing; the history variable `place` of a message only says which thread may
pass it to a call and exposes a double free or a leak. Error branches that must not be reached increase `faults`;
the run theorems show that it stays 0.

## Where the code does not do what it seems to promise

Each of these is stated exactly, with the condition under which the promise holds.

- A sender that finds its pool full returns with mutex and slot ticket still held; this happens exactly
  when as many messages of its size class are sent and not delivered as the pool has slots
  (`StuckIffNoRoom`), and from then on the queue of that receiver is frozen (`StuckFreezesQueue`).
  Runs from the start reach this for every pool (`EarlyReturnReached`). Everything is delivered exactly
  if every search finds room (`DrainedIffRoom`), which callers can ensure by bounding the messages in
  flight per size class (`MeteredRunsDrain`).
- A process that hangs up during `accept` is disconnected from inside the pass over the used list,
  which then follows the next pointer of the list node it has freed. C gives that read no meaning, so
  the model's run ends there (`WalkSlots`, `StrayInRunIff`); a concrete run is
  `AbortedAcceptReadsFreed`. All other reads of the pass are of live nodes (`ItcCoord.PassOver`).
- `handle_remove_mbox` removes a name whichever process registered it
  (`RequestKeepsAgreementIff`, `ForeignRemoveBreaksAgreement`, `AgreementInEveryRunIff`).
- `find_process` accepts index 255, one past the table (`FindProcessInBoundsIff`). The handlers are
  modelled for the other indexes, as they dereference the result.
- A registration with an empty free list makes the coordinator exit, because `q_dequeue` reports the
  empty queue as an error; the reply with no mailbox id is never sent (`RegisterSlots`).
- `q_clear` and `q_exit` stop at the first NULL item (`ClearEmptiesIff`).
- `itc_create_mailbox` with a name that is too long loses the mailbox it has dequeued
  (`LostIffNameTooLong`).
- A second mailbox of a name is created but not listed (`NamesInEveryRunIff`, `TwoOfOneName`).
- `local_delete_mbox` ignores that `itc_free` refuses a message with a damaged ENDPOINT: the message
  leaks (`GoneStep`, `NoLeakInRunIff`, `DamagedMessageLeaks`).
- `find_mbox` maps several ids to one mailbox (`SameMailboxIff`, `OnlyFindMboxIff`).

## Modelling decisions

- The host is little-endian, and both hosts of a forwarded message have the same layout.
- `tsearch` trees are maps keyed by name. `tdestroy` on disconnect leaves the index of the process
  empty; the code does not reset the root pointer, so this is what the code intends.
- `itc_send` tests the mailbox state as part of its locked region.
- `itc_send` overwrites the sender of a message with the mailbox of the calling thread. The deliveries
  of the shared-memory receiver and of the gateway are the messages handed to `itc_send`.
- Sockets, readiness, dead pids, timeouts and the fragmentation of a TCP stream are parameters or
  freely chosen steps. `recv` on a closed connection returns 0.

## Model

| member | source | states |
|---|---|---|
| `ShmLayout.SlotsTile` | sw/itc/src/transporters/itc_posixshm.c:213-235 | every byte of the 25 pages behind the metadata block lies in exactly one slot |
| `ShmLayout.SlotsDisjoint` | sw/itc/src/transporters/itc_posixshm.c:213-235 | every slot lies inside the 25 pages behind the metadata, and two different (pool, slot) pairs never share a byte |
| `ShmLayout.SlotsCounted` | sw/itc/src/transporters/itc_posixshm.c:34-34 | the counting semaphore starts with exactly the number of static slots |
| `ShmLayout.FirstFit` | sw/itc/src/transporters/itc_posixshm.c:273-280 | no pool before the returned one accepts the message, and a static result accepts it |
| `ShmLayout.ChoosePool` | sw/itc/src/transporters/itc_posixshm.c:270-286 | the pool loop and its page count compute the first-fit class for every 32-bit size |
| `ShmLayout.SizeClasses` | sw/itc/src/transporters/itc_posixshm.c:270-336 | for every size the allocator admits: smallest class that holds slot header, message and ENDPOINT; POOL_UNLIMIT exactly when size + 49 > 16384; the page count then exceeds 4, is the least whose pages exceed the message, and fits 16 bits, and the slot search is taken exactly for static pools |
| `ShmLayout.StaticSlotFitsIff` | sw/itc/src/transporters/itc_posixshm.c:276-276 | over all 32-bit sizes a static slot really has room exactly when size + 49 does not wrap |
| `Messages.FlatRoundTrip` | sw/itc/src/itc.c:573-580 | the fields of an itc_message read back from its first size + 16 bytes are the ones written |
| `Messages.RebuildWire` | sw/itc/src/transporters/itc_posixshm.c:941-962 | from any memory that starts with a message and its ENDPOINT the receiver rebuilds that message, with the flags of the fresh allocation, and the ENDPOINT test passes |
| `Messages.WireBytes` | sw/itc/inc/itc_impl.h:337-349 | a message in memory byte by byte: flags, receiver, sender, size and msgno as little-endian words at 0, 4, 8, 12, 16, the user bytes from 20 on, then 0xAA |
| `Messages.AllocBytes` | sw/itc/src/itc.c:535-583 | the bytes of a fresh message, which is admitted exactly if it takes at most 10 MiB: flags 0, receiver and sender all ones, size raised to at least 4, zeros behind msgno, 0xAA at the end |
| `Messages.DeliversIff` | sw/itc/src/transporters/itc_posixshm.c:941-962 | on any memory with room for the message it announces, the receiver delivers exactly if 0xAA follows the user part, and then flags are 0 and every other field is the one in memory |
| `ShmMemory.RefRoundTrip` | sw/itc/src/transporters/itc_posixshm.c:362-380 | slot references, including (-1,-1), survive their two 32-bit fields |
| `ShmMemory.StoreInKeepsOtherBlock` | sw/itc/src/transporters/itc_posixshm.c:384-384 | a store inside one slot changes no byte of any other slot |
| `ShmMemory.StoreInOwnBlock` | sw/itc/src/transporters/itc_posixshm.c:384-384 | a store inside a slot changes that slot at the relative address only and leaves head and tail alone |
| `ShmMemory.AbsFill` | sw/itc/src/transporters/itc_posixshm.c:384-384 | copying a message behind the slot header changes the message area of that slot and nothing else in the region |
| `ShmMemory.AbsSetNext` | sw/itc/src/transporters/itc_posixshm.c:373-377 | writing next_slot changes that link and nothing else in the region |
| `ShmQueue.EnqueueAppends` | sw/itc/src/transporters/itc_posixshm.c:362-384 | on the bytes of the region: the chain from head to tail gets exactly the new slot at its end, every queued message stays as it was, every other slot stays unused with next (-1,-1) |
| `ShmQueue.EnqueueBytes` | sw/itc/src/transporters/itc_posixshm.c:362-384 | the bytes a send leaves: tail at 12, and head at 4 or the first two ints of the former tail slot, name the new slot; byte 9 of the slot is 1 and the message starts at its byte 32 |
| `ShmQueue.DequeueDropsFirst` | sw/itc/src/transporters/itc_posixshm.c:495-516 | on the bytes of the region: the chain loses exactly its first slot, which becomes unused with next (-1,-1); the others stay as they were |
| `ShmQueue.SearchFailsIffPoolFull` | sw/itc/src/transporters/itc_posixshm.c:343-359 | the slot search fails if and only if every slot of the pool is queued, and never yields a queued slot |
| `ShmQueue.IsFreeBytes` | sw/itc/src/transporters/itc_posixshm.c:346-346 | the search takes a slot exactly if its in-use byte is 0 and its first eight bytes are 0xFF |
| `ShmQueue.InitCellsReady` | sw/itc/src/transporters/itc_posixshm.c:728-799 | initialising the slots one by one ends in an empty queue over unused slots, whatever the pages held |
| `ShmQueue.InitBytes` | sw/itc/src/transporters/itc_posixshm.c:728-799 | initialising a slot sets its first eight bytes to 0xFF, byte 8 to its pool and byte 9 to 0, and no other byte of the region |
| `ShmQueue.DequeueMessage` | sw/itc/src/transporters/itc_posixshm.c:474-516 | byte-level delivery: the slot at head passes all checks of the receiver, which rebuilds the oldest message; the rest stays queued |
| `ShmQueue.SlotDeliversIff` | sw/itc/src/transporters/itc_posixshm.c:923-962 | a message is delivered exactly from a slot in use, of a known pool type, whose area holds a message |
| `ShmQueue.TrySendAppends` | sw/itc/src/transporters/itc_posixshm.c:316-384 | the critical section of a sender fails exactly when the pool is full and otherwise appends exactly its message |
| `ShmQueue.TryReceiveDrops` | sw/itc/src/transporters/itc_posixshm.c:474-539 | the critical section of the receiver finds nothing exactly on an empty queue and otherwise yields the oldest message with fresh flags |
| `SharedMemory.Shm.constructor` | sw/itc/src/transporters/itc_posixshm.c:728-799 | the nested initialisation loops leave an empty queue in the mapped bytes |
| `SharedMemory.Shm.FindSlot` | sw/itc/src/transporters/itc_posixshm.c:343-353 | the search loop returns the first free slot of the pool |
| `SharedMemory.Shm.Send` | sw/itc/src/transporters/itc_posixshm.c:316-384 | in place on the mapped bytes: the new region is the one of TrySend, unchanged on failure |
| `SharedMemory.Shm.Receive` | sw/itc/src/transporters/itc_posixshm.c:474-516 | in place on the mapped bytes: result and new region are those of TryReceive |
| `ShmProtocol.SendWritesEnqueue` | sw/itc/src/transporters/itc_posixshm.c:362-384 | the stores of the sender, made one int, flag or byte at a time in program order, add up to the append |
| `ShmProtocol.ReceiveWritesDequeue` | sw/itc/src/transporters/itc_posixshm.c:495-516 | the stores of the receiver, made one int or flag at a time in program order, add up to dropping the first message |
| `ShmProtocol.AdvanceCounts` | sw/itc/src/transporters/itc_posixshm.c:298-400 | every step keeps mutex + holders = 1, slot + unspent tickets + pending + unreturned ticket = 70, pending = notify + unnotified senders + consumed notify |
| `ShmProtocol.SearchContent` | sw/itc/src/transporters/itc_posixshm.c:341-384 | the search of a sender is decided by the pool being full, appends its message to the pending ones, and changes nothing on failure |
| `ShmProtocol.TakeContent` | sw/itc/src/transporters/itc_posixshm.c:474-516 | a notified receiver takes exactly the oldest pending message without any error branch |
| `ShmProtocol.StepInv` | sw/itc/src/transporters/itc_posixshm.c:258-556 | every step of any sender or of the receiver keeps the whole invariant, which includes that every pending message sits in a slot of the pool of its size |
| `ShmRuns.QueueSafety` | sw/itc/src/transporters/itc_posixshm.c:298-556 | in every interleaving of any number of senders with the receiver: semaphore equations, at most 70 pending messages, no error branch ever taken (so no "notified but no message found"), deliveries are a prefix of the sends in order, and with the mutex free the bytes hold exactly the rest |
| `ShmRuns.MutualExclusion` | sw/itc/src/transporters/itc_posixshm.c:308-387 | two parties never hold the mutex at once |
| `ShmRuns.StuckIffPoolFull` | sw/itc/src/transporters/itc_posixshm.c:355-359 | a sender takes the early return if and only if all slots of its pool are queued |
| `ShmRuns.StuckFreezesQueue` | sw/itc/src/transporters/itc_posixshm.c:355-359 | after an early return, in every continuation, no byte of the region changes and nothing is sent or delivered: mutex and ticket stay with the sender |
| `ShmRuns.NoDeadlock` | sw/itc/src/transporters/itc_posixshm.c:298-556 | without an early return every state with unfinished work has an enabled step |
| `ShmRuns.WorkDecreases` | sw/itc/src/transporters/itc_posixshm.c:298-556 | every step except a new call reduces a natural-number measure |
| `ShmRuns.RunsDrain` | sw/itc/src/transporters/itc_posixshm.c:298-556 | every run without new calls is bounded by the work at its start, and when it cannot go on and nobody took the early return, every message sent was delivered |
| `ShmCapacity.ClassFull` | sw/itc/src/transporters/itc_posixshm.c:343-359 | no pool holds more messages than it has slots, and all its slots are queued exactly when it holds as many messages of its size class |
| `ShmCapacity.PoolBoundInEveryRun` | sw/itc/src/transporters/itc_posixshm.c:343-384 | in every interleaving the pending messages of a size class never exceed the slots of its pool |
| `ShmCapacity.StuckIffNoRoom` | sw/itc/src/transporters/itc_posixshm.c:355-359 | a sender takes the early return if and only if as many messages of its size class are sent and not yet delivered as the pool has slots |
| `ShmCapacity.FoundSearch` | sw/itc/src/transporters/itc_posixshm.c:343-384 | a search with room appends the message to the pending ones and leaves the semaphores alone |
| `ShmCapacity.NoneStuckIff` | sw/itc/src/transporters/itc_posixshm.c:258-359 | along every run: nobody takes the early return if and only if every slot search has room |
| `ShmCapacity.DrainedIffRoom` | sw/itc/src/transporters/itc_posixshm.c:258-556 | from the start, for any number of senders and any interleaving that has come to rest: every message was delivered and every sender has returned if and only if every slot search had room |
| `ShmCapacity.MeteredRunsDrain` | sw/itc/src/transporters/itc_posixshm.c:258-556 | if posixshm_send is called only while fewer messages of the size class are in flight than the pool has slots, nobody takes the early return in any interleaving, and a run that has come to rest has delivered everything |
| `ShmCapacity.EarlyReturnReached` | sw/itc/src/transporters/itc_posixshm.c:355-359 | for every static pool and any number of senders, a run from the start by one sender alone, without a step of the receiver, ends in the early return |
| `LinkedList.WithoutNode` | sw/itc/src/helpers/itc_queue.c:202-252 | taking one node out of a chain takes out its datum and that node only |
| `Queue.ItcQueue.constructor` | sw/itc/src/helpers/itc_queue.c:34-72 | a new queue is empty |
| `Queue.ItcQueue.Enqueue` | sw/itc/src/helpers/itc_queue.c:112-144 | the contents get the item at their end; links, ends, size and the set of live nodes stay consistent |
| `Queue.ItcQueue.Dequeue` | sw/itc/src/helpers/itc_queue.c:146-200 | the first item is returned and removed and its node freed once; an empty queue is reported |
| `Queue.ItcQueue.Find` | sw/itc/src/helpers/itc_queue.c:205-216 | the search loop stops at the first node with the data, or at the end |
| `Queue.ItcQueue.Remove` | sw/itc/src/helpers/itc_queue.c:202-252 | exactly the first occurrence of the data is removed, at any position, and its node is freed |
| `Queue.ItcQueue.Clear` | sw/itc/src/helpers/itc_queue.c:254-278 | drains up to and including the first NULL item |
| `Queue.ClearEmptiesIff` | sw/itc/src/helpers/itc_queue.c:74-110 | draining until NULL empties the queue if and only if no NULL item sits before the last position |
| `Queue.AfterClearIs` | sw/itc/src/helpers/itc_queue.c:254-278 | clearing leaves exactly the items behind the first NULL item, in order, and none if there is no NULL item |
| `RxQueue.RxQueue.Enqueue` | sw/itc/src/transporters/itc_local.c:465-494 | the contents get the message at their end; the in-rx-queue flag is set and the other flags are kept; the items in the queue stay exactly the live ones |
| `RxQueue.RxQueue.Dequeue` | sw/itc/src/transporters/itc_local.c:496-529 | the oldest message is returned unflagged and removed, other flags are kept; exactly its item is freed, with several items through the new head's prev pointer, and it was live |
| `RxQueue.RxQueue.Drain` | sw/itc/src/transporters/itc_local.c:269-291 | terminates with an empty queue and no live item; every pending message is passed on once, in order, unflagged |
| `Coordinator.FindProcessInBoundsIff` | sw/coord/itccoord.c:862-875 | the pointer find_process returns lies inside the table if and only if the index is not 255, which its test lets through |
| `CoordinatorRuns.InitSlots` | sw/coord/itccoord.c:250-289 | after initialisation slots 2..254 are free and the coordinator has slot 1 |
| `CoordinatorRuns.RegisterSlots` | sw/coord/itccoord.c:612-778 | registration keeps the slots in order and makes main exit if and only if all 253 slots are used |
| `CoordinatorRuns.DisconnectSlots` | sw/coord/itccoord.c:780-804 | disconnecting moves exactly that slot from the used to the free list |
| `CoordinatorRuns.WalkSlots` | sw/coord/itccoord.c:368-412 | the pass over the used list never makes main exit; it reads a freed list node if and only if it comes to a listening, readable process that hangs up during accept before any entry that ends the pass; up to that moment, or to its end, the slots are in order |
| `CoordinatorEffects.RegisterEffect` | sw/coord/itccoord.c:612-778 | a registration takes the first free slot to the end of the used list, listening and open with the announced pid, and changes no other slot and no name; without a free slot main exits |
| `CoordinatorEffects.PassEffect` | sw/coord/itccoord.c:368-412 | from any state in order, unless an accept is aborted: the first entry that is open, ready and CONNECTED, or a LISTENING one with a dead pid when the check is due, becomes UNUSED and closed with pid -1 and no names, moves from the used to the end of the free list, and its names leave the common index; every ready LISTENING entry before it is CONNECTED; every other slot and name is unchanged; the counter goes down exactly for a dead one |
| `CoordinatorEffects.StrayEffect` | sw/coord/itccoord.c:368-412 | the pass comes to read a freed node exactly if an open, ready, LISTENING entry hangs up during accept before the first entry at which the pass stops |
| `CoordinatorEffects.PassHappens` | sw/coord/itccoord.c:368-412 | every pass that does not end in such a read is one of those PassEffect describes |
| `CoordinatorEffects.DisconnectedNames` | sw/coord/itccoord.c:1166-1197 | with the indexes in agreement, no name with the process index of a disconnected process is left in the common index, and every name of another process keeps its id |
| `CoordinatorEffects.IterationEffect` | sw/coord/itccoord.c:331-420 | every iteration from a loop head that neither exits nor reads a freed node is a registration, such a pass, a request and a step of the counter modulo 10 |
| `CoordinatorEffects.HangUpForgotten` | sw/coord/itccoord.c:385-391 | a process that closes its socket, or is found dead, as the first on the list: after the iteration, whatever request it brought, its slot is UNUSED, free and not used, it has no names, and a name it had registered is not in the common index unless that request registered it anew |
| `CoordinatorCases.ClosedSocketForgotten` | sw/coord/itccoord.c:385-391 | a concrete run from the start: a process arrives, connects, registers a name and closes its socket; its slot is free again and the name is gone when the next locate is handled |
| `CoordinatorRuns.IterateSteady` | sw/coord/itccoord.c:331-420 | an iteration with any events exits only on a registration without free slot and reads a freed node only in an aborted accept (both exactly); otherwise, and up to such a read, the slots are in order and the zombie counter is in 0..9 |
| `CoordinatorRuns.SlotsInEveryRun` | sw/coord/itccoord.c:167-424 | in every run that does not exit, at its end or at its first read of a freed node: slots 2..254 are partitioned between free and used list without duplicates, freelist_count = free = 253 - used, UNUSED are exactly the free ones, used ones are LISTENING or CONNECTED, ids stay index << 20, counter in 0..9 |
| `CoordinatorRuns.RequestKeepsAgreementIff` | sw/coord/itccoord.c:975-1040 | an add, remove or locate keeps the common index the disjoint union of the process indexes if and only if no mailbox of another process is removed |
| `CoordinatorEffects.AddEffect` | sw/coord/itccoord.c:975-1011 | an add of a new name by a connected process records exactly its id, so that a locate answers with that id and the pid of the process; an entry already in the own index of the process stays; every other name and process is unchanged; any other add changes nothing |
| `CoordinatorEffects.RemoveEffect` | sw/coord/itccoord.c:1013-1040 | a remove of a registered name by a connected process takes it out of the common index and of its own index, and a locate answers not-here; every other name and process is unchanged; any other remove changes nothing |
| `CoordinatorEffects.LocateEffect` | sw/coord/itccoord.c:1109-1124 | the answer to a locate on the fields of the state, in all four cases, and that it changes nothing |
| `CoordinatorCases.RegisteredReached` | sw/coord/itccoord.c:368-420 | the third iteration of a concrete run from the start: two connected processes, of which the first has registered a name |
| `CoordinatorCases.ForeignRemoveBreaksAgreement` | sw/coord/itccoord.c:1013-1040 | a concrete run from the start of the coordinator in which the indexes do not stay in agreement, as a process has the mailbox of another one removed |
| `CoordinatorRuns.DisconnectAgreement` | sw/coord/itccoord.c:1166-1197 | dropping the names of a process from the common index keeps the indexes in agreement |
| `CoordinatorRuns.NoNameOfDisconnected` | sw/coord/itccoord.c:780-804 | a process that is not connected has no name left in either index |
| `CoordinatorRuns.LocateFindsOwner` | sw/coord/itccoord.c:1109-1124 | a locate hit answers with the connected owner, so the branch for a just-terminated process is not taken |
| `CoordinatorRuns.AgreementInEveryRunIff` | sw/coord/itccoord.c:331-420 | over every run: the indexes agree at every loop head if and only if no process ever has the mailbox of another one removed |
| `CoordinatorRuns.LocatesInEveryRun` | sw/coord/itccoord.c:1109-1124 | from the start, in every run in which no process has the mailbox of another one removed: in each state in which a request is handled, a locate yields not-here or the connected owner, never a just-terminated process, and no unconnected process has a name in either index |
| `CoordinatorRuns.StrayInRunIff` | sw/coord/itccoord.c:878-902 | a run follows the next pointer of a freed list node if and only if some pass comes to a process that hangs up during accept |
| `CoordinatorCases.AbortedAcceptReadsFreed` | sw/coord/itccoord.c:886-894 | a concrete run from the start: a process locates the coordinator and hangs up during accept, and the pass reads a freed node |
| `Zombies.QuietIteration` | sw/coord/itccoord.c:398-419 | without socket events and registrations an iteration drops zombies (used, LISTENING, pid > 0 and dead) + (9 - counter) by one while zombies are left, frees the slot of each one it reclaims, and keeps slot and state of every other used process |
| `Zombies.ZombiesReclaimed` | sw/coord/itccoord.c:398-419 | Z used LISTENING processes with dead pids are all reclaimed within Z + 9 such iterations and their slots are free; in every such run each used process that is CONNECTED, or whose pid is unknown or exists, keeps slot and state |
| `Zombies.CheckDueIff` | sw/coord/itccoord.c:398-419 | a quiet iteration reclaims exactly one zombie, if there is one, exactly when the counter is 9 or fewer than 10 slots are free, so with few free slots every iteration does; otherwise no slot changes and the counter moves on |
| `CoordinatorInstance.ItcCoord.constructor` | sw/coord/itccoord.c:250-289 | the initialisation loop builds the initial state |
| `CoordinatorInstance.ItcCoord.Register` | sw/coord/itccoord.c:612-778 | in place: the new state is the one of Register, or failure |
| `ProcessLists.Lists.TakeFree` | sw/coord/itccoord.c:667-720 | the free list loses its first process, the used list is not touched; an empty list is reported |
| `ProcessLists.Lists.RemoveUsed` | sw/coord/itccoord.c:780-786 | the used list loses the first entry of the process, whose node is freed; the free list is not touched |
| `CoordinatorInstance.ItcCoord.DropNames` | sw/coord/itccoord.c:1166-1197 | the walk over the names of a process removes exactly these from the common index |
| `CoordinatorInstance.ItcCoord.DisconnectFrom` | sw/coord/itccoord.c:780-804 | in place: the new state is the one of Disconnect, and the list node of the process is no longer allocated |
| `CoordinatorInstance.ItcCoord.Add` | sw/coord/itccoord.c:975-1011 | in place: the new state is the one of AddMbox |
| `CoordinatorInstance.ItcCoord.Remove` | sw/coord/itccoord.c:1013-1040 | in place: the new state is the one of RemoveMbox |
| `CoordinatorInstance.ItcCoord.PassOver` | sw/coord/itccoord.c:368-412 | the loop over the used list from node to node with its breaks: every node it reads is live and the new state is the one of Walk; where Walk is Stray, the node it would read next was in the list and is freed |
| `CoordinatorInstance.ItcCoord.Iterate` | sw/coord/itccoord.c:331-420 | in place: one iteration of the main loop takes the model state to that of Iterate, to which all run theorems apply; it comes to read a freed list node if and only if a process hangs up during accept when the pass comes to it |
| `MailboxRuns.FreeInvariant` | sw/itc/src/itc.c:585-640 | itc_free refuses exactly the queued messages and those with a damaged ENDPOINT, and frees the others |
| `MailboxRuns.SendInv` | sw/itc/src/itc.c:969-1043 | an accepted message is appended to the mailbox once; all invariants are kept |
| `MailboxEffects.SendEffect` | sw/itc/src/itc.c:969-1043 | itc_send is accepted exactly by a mailbox in use: the message is last in its queue, flagged, its waiting owner is signalled, an existing eventfd reads 1, and nothing else changes; otherwise nothing changes at all |
| `MailboxRuns.PollTakeInv` | sw/itc/src/itc.c:1080-1150 | a receiver with a non-empty queue returns the oldest message, unflagged, and the eventfd read does not block |
| `MailboxEffects.EmptyRound` | sw/itc/src/itc.c:1102-1117 | a round of itc_receive on an empty queue returns to the caller exactly in no-wait mode and waits otherwise; nothing else changes |
| `MailboxEffects.FullRound` | sw/itc/src/itc.c:1080-1150 | a round on a non-empty queue, in either mode, hands the oldest message to the thread, unflagged; no other message, mailbox, thread or name changes |
| `MailboxEffects.LeavesReceiveIff` | sw/itc/src/itc.c:1080-1158 | over every step of any thread: a thread leaves itc_receive exactly by a round that finds a message, by an empty no-wait round, or by a timeout; with a message it is the oldest, without one nothing else changes; until then it stays inside |
| `MailboxEffects.InsideReceive` | sw/itc/src/itc.c:1080-1158 | inside the call a thread polls, waits when it finds nothing, and polls again when it wakes up |
| `MailboxEffects.SignalledIff` | sw/itc/src/itc.c:1034-1036 | a waiting thread is signalled by another one exactly through a send to its mailbox |
| `MailboxEffects.CallsProceed` | sw/itc/src/itc.c:535-1263 | in every reachable state each thread can go on: no call hangs but the wait of itc_receive, which a wake-up, spurious or not, or a timeout ends; creating a mailbox needs a free one |
| `MailboxEffects.MessageCalls` | sw/itc/src/itc.c:585-1043 | a thread can write to exactly the messages it holds and, owning a mailbox, send them to any other mailbox; itc_free may also get a stale pointer to a queued one |
| `MailboxCases.NoWaitReturns` | sw/itc/src/itc.c:1102-1107 | a concrete run from the start: a no-wait receive on a new mailbox returns without a message |
| `MailboxRuns.DrainDiscardsEach` | sw/itc/src/transporters/itc_local.c:269-291 | draining passes each pending message to itc_free exactly once, which frees it if its ENDPOINT is intact, and touches no other message |
| `MailboxRuns.DeleteDrainInv` | sw/itc/src/itc.c:838-899 | deleting a mailbox frees exactly the intact messages pending in it, leaks the damaged ones, touches no other and keeps all invariants |
| `MailboxRuns.StepInv` | sw/itc/src/itc.c:535-1263 | every step of any thread keeps the whole invariant |
| `MailboxRuns.CountersInEveryRun` | sw/itc/src/itc.c:1026-1150 | in every run: rxq_len is the queue length; once the fd exists the eventfd counter is 1 if the queue is non-empty and 0 if not; no eventfd read ever blocked; what was accepted is what was returned followed by what is queued; an unsignalled waiter has an empty queue |
| `MailboxEffects.GetFdEffect` | sw/itc/src/itc.c:1243-1263 | after itc_get_fd the fd exists, with counter 1 exactly if the queue is non-empty and 0 otherwise; an existing fd is unchanged; no other field and no other mailbox changes |
| `MailboxEffects.FdExistsIff` | sw/itc/src/itc.c:838-1263 | over every step: only itc_get_fd of the owner makes an fd exist, and only its deleting the mailbox makes it go |
| `MailboxCases.ReadableFdReached` | sw/itc/src/itc.c:1243-1256 | a concrete run from the start after which the fd of a mailbox with a pending message exists with counter 1 |
| `MailboxRuns.MessageInOnePlace` | sw/itc/src/transporters/itc_local.c:493-526 | a message is in at most one rx queue and there once, and the flag is set exactly for queued messages |
| `MailboxRuns.GoneStep` | sw/itc/src/itc.c:585-640 | a step frees a message if and only if its ENDPOINT is intact and it is itc_free of its holder or drains the queue it is in; it leaks the message if and only if it drains its queue and the ENDPOINT is damaged; what is freed or leaked stays so |
| `MailboxRuns.GoneForGood` | sw/itc/src/transporters/itc_local.c:246-295 | a freed or leaked message stays so and out of every queue in every continuation, so it is never freed twice |
| `MailboxRuns.NoLeakInRunIff` | sw/itc/src/transporters/itc_local.c:269-291 | over every run: no message leaks if and only if no mailbox is deleted while a message with a damaged ENDPOINT is pending in it |
| `MailboxCases.DamagedMessageLeaks` | sw/itc/src/transporters/itc_local.c:269-291 | a concrete run from the start after which a message is in no queue, with no thread and not freed |
| `MailboxRuns.OthersOnlyAppend` | sw/itc/src/itc.c:1026-1043 | what other threads do to the queue of a thread inside itc_receive is to append to it |
| `MailboxRuns.NoLostWakeup` | sw/itc/src/itc.c:1080-1158 | in every interleaving: if the queue of a thread inside itc_receive is non-empty the thread is runnable, and its next round returns the oldest message |
| `MailboxRuns.MailboxInOnePlace` | sw/itc/src/itc.c:657-731 | a mailbox in the free queue is UNUSED without rx queue and nobody owns it; otherwise exactly one thread has it, unless a too long name lost it; INUSE with rx queue while its owner neither creates nor deletes it |
| `MailboxEffects.AllocEffect` | sw/itc/src/itc.c:535-583 | itc_alloc gives one new, unflagged, intact message to the caller and changes nothing else |
| `MailboxEffects.GuardStep` | sw/itc/src/itc.c:573-580 | over every step: the ENDPOINT of a message is damaged or restored by the writes of its holder alone |
| `MailboxEffects.TakeFreeEffect` | sw/itc/src/itc.c:657-686 | itc_create_mailbox takes the first mailbox of the free queue, under the given name, or loses it if the name has more than 255 characters; nothing else changes |
| `MailboxEffects.CommitEffect` | sw/itc/src/itc.c:687-731 | the new mailbox is in use with an empty queue, length 0 and no fd, and is listed under its name unless that is listed already |
| `MailboxEffects.DeleteEffect` | sw/itc/src/itc.c:838-899 | deleting step by step: the name leaves the index, the mailbox is marked unused, its fd goes, and it joins the end of the free queue without rx queue and name; no other mailbox changes |
| `MailboxEffects.CreateDeleteRoundTrip` | sw/itc/src/itc.c:657-899 | creating a mailbox under a fresh name and deleting it restores threads, messages, names and all other mailboxes; the mailbox ends pristine at the end of the free queue |
| `MailboxRuns.LostIffNameTooLong` | sw/itc/src/itc.c:674-686 | a mailbox is lost if and only if a create call with a too long name took it, and for good |
| `MailboxRuns.PlacesInEveryRun` | sw/itc/src/itc.c:535-899 | the ownership statements for messages and mailboxes at the end of every run |
| `MailboxRuns.StepKeepsNamesIff` | sw/itc/src/itc.c:1546-1596 | a step keeps the local name index exact if and only if it does not set up a mailbox under the name of a listed one |
| `MailboxRuns.NamesInEveryRunIff` | sw/itc/src/itc.c:1519-1596 | over every run: the index maps exactly the names of the listed mailboxes to them if and only if no duplicate name is ever set up |
| `MailboxCases.TwoOfOneName` | sw/itc/src/itc.c:724-728 | a concrete run in which two threads take the same name and the second mailbox is not in the index |
| `MailboxIds.CountLeadingZeros` | sw/itc/src/itc.c:267-267 | the position of the highest bit of the number of mailboxes |
| `MailboxIds.MaskIsLeast` | sw/itc/src/itc.c:267-267 | the mask is the least 2^k - 1 that is not below the number of mailboxes |
| `MailboxIds.SlotIdIsProcess` | sw/coord/itccoord.c:282-282 | the ids the coordinator gives out have process bits only |
| `MailboxIds.RangeTest` | sw/itc/src/transporters/itc_local.c:437-437 | the test with 65534 against a power of two is as good as one of all low 16 bits |
| `MailboxIds.TablesAgree` | sw/itc/src/transporters/itc_local.c:413-444 | for every 32-bit id the local table accepts exactly the low 16-bit values inside it, at the entry of these bits, and find_mbox leads to the same index if that entry can have an rx queue |
| `MailboxIds.IssuedIdDecodes` | sw/itc/src/itc.c:275-275 | every issued id (process or-ed with i) leads to index i in both tables |
| `MailboxIds.SameMailboxIff` | sw/itc/src/itc.c:1474-1488 | both tables lead to mailbox i exactly for its issued id and the ids that differ from it in bits 16..19 only |
| `MailboxIds.OnlyFindMboxIff` | sw/itc/src/transporters/itc_local.c:429-442 | find_mbox finds a mailbox for an id that the local table refuses exactly when the 16 bits exceed the mask and wrap onto a mailbox |
| `MailboxIds.OnlyFindMboxExample` | sw/itc/src/transporters/itc_local.c:432-435 | the case of the comment: number 10 with 5 mailboxes wraps to number 2 in find_mbox and is refused by the local table |
| `GatewayFrames.HeaderRoundTrip` | sw/gateway/itc_gw.c:1065-1070 | all five header fields survive network byte order |
| `GatewayFrames.FrameBytes` | sw/gateway/itc_gw.c:1452-1471 | both frames on the wire byte by byte: pid, 222 or 111, revision 15, type 0x103 or 0x104, body length, error code 0, then length and payload or the name with its NUL, all words most significant byte first |
| `GatewayFrames.BodyRoundTrip` | sw/gateway/itc_gw.c:1597-1600 | the body of a data-forward or locate frame decodes to that frame |
| `GatewayFrames.TrailingIgnored` | sw/gateway/itc_gw.c:1583-1614 | whatever follows a frame inside the announced body is ignored |
| `GatewayFrames.UndefinedIff` | sw/gateway/itc_gw.c:1597-1605 | a body is read beyond its end exactly if it is too short for its fields or announced payload, or has no NUL |
| `GatewayFrames.ServeFrame` | sw/gateway/itc_gw.c:1040-1097 | a frame at the head of any stream is recovered, and exactly its bytes are consumed |
| `GatewayFrames.ServeOthers` | sw/gateway/itc_gw.c:1040-1097 | of an unknown type only the header is consumed; an empty body is reported, an incomplete one is reported and uses the stream up; less than a header closes the connection |
| `GatewayFrames.ServeFrames` | sw/gateway/itc_gw.c:1040-1097 | any sequence of frames is recovered in order from its concatenated bytes, whatever follows them |
| `GatewayFrames.FramesUnambiguous` | sw/gateway/itc_gw.c:1452-1471 | two different sequences of frames never have the same bytes |
| `GatewaySocket.Socket.Recv` | sw/gateway/itc_gw.c:1553-1553 | at most the wanted bytes of the next chunk; none only at the end of the stream or if none are wanted |
| `GatewaySocket.RecvData` | sw/gateway/itc_gw.c:1546-1564 | under every fragmentation the loop fills the whole buffer with the next bytes of the stream, or uses the stream up and returns 0; bytes remaining decrease |
| `GatewaySocket.BuildDataFwd` | sw/gateway/itc_gw.c:1452-1471 | the buffer filled in place is the encoded data-forward frame |
| `GatewaySocket.BuildLocateRequest` | sw/gateway/itc_gw.c:1624-1642 | the buffer filled in place is the encoded locate frame with its NUL |
| `GatewaySocket.HandlePacket` | sw/gateway/itc_gw.c:1040-1097 | on any stream and fragmentation: events, remaining bytes and connection state are those of ServeOne, including unknown packets, empty payloads and early close |
| `GatewaySocket.ServerLoop` | sw/gateway/itc_gw.c:936-948 | the events of a connection depend on its bytes only, not on their fragmentation, and all of them are consumed |
| `GatewaySocket.ServeFragments` | sw/gateway/itc_gw.c:1040-1097 | for every sequence of frames and every fragmentation into non-empty chunks the server recovers exactly these frames |
| `GatewayForward.RequestRoundTrip` | sw/itc/src/itc.c:1612-1624 | from an ITC_FWD_DATA_TO_ITCGWS request, whatever its header fields became on the way, the gateway reads the namespace and exactly the bytes of the message that were put in |
| `GatewayForward.RequestTail` | sw/gateway/itc_gw.c:1452-1475 | the same if anything follows the announced bytes: the gateway forwards exactly as many as payload_length says |
| `GatewayForward.RequestBytes` | sw/itc/src/itc.c:1612-1624 | the request byte by byte: msgno 0x90000507, the namespace and zeros up to byte 256 behind it, the length as a little-endian word, the bytes of the message with sender and receiver set |
| `GatewayForward.RebuildFlat` | sw/gateway/itc_gw.c:1605-1609 | alloc and copy of the carried bytes give the same message with an ENDPOINT that was not carried |
| `GatewayForward.ForwardDeliversIff` | sw/gateway/itc_gw.c:1605-1614 | any payload that fits the message it announces is delivered, missing bytes read as zero, exactly unless it brings another byte in the place of ENDPOINT |
| `GatewayForward.ForwardedArrives` | sw/itc/src/itc.c:1598-1624 | a message is refused exactly when size + 16 > 1500; otherwise the gateway looks up the namespace it was sent to and its frame is rebuilt into the message with its msgno, receiver, sender and user bytes |
| `GatewayForward.EndToEnd` | sw/gateway/itc_gw.c:1583-1614 | any sequence of messages forwarded over a connection, under every fragmentation of its bytes, is handed to itc_send on the other host in the same order, each one unchanged and with ENDPOINT intact |

## Left out

- POOL_UNLIMIT messages inside the shared-memory queue: remapping and truncation are the kernel's; only the size-class arithmetic is modelled.
- itc_sysvshm.c: the same static-pool algorithm over System V calls.
- itc_posixmq.c, itc_sysvmq.c and itc_lsocket.c: mostly kernel message queues and sockets.
- Gateway peer trees, UDP discovery, timers and thread start-up: input and output.
- Cross-host locate replies and timeouts: they depend on wall-clock time.
- local_remove: not called by itc.c and does not keep the prev links.
- Failures of system calls and semaphores, out of memory, signal and exit handlers, tracing, scheduling.
- The uint32_t size field of itc_queue is unbounded here; it would take 2^32 queued nodes to wrap.
- Flags other than the in-rx-queue bit are carried along but have no meaning in the model.
- Sends to the own mailbox under an alias id, and sends that fall back to another transport.
- WalkSlots: says nothing about what follows the read of a freed list node, as C gives that read no meaning; the state up to it is in order.
- The final part of itc_delete_mailbox, from the draining to the enqueueing in the free queue, is one step; notifications to the coordinator are not sent in the mailbox machine.
- ServePayload: a payload length of 2^31 or more, which overflows the C int of recv_data, ends the model's run with Undefined.
- RebuildForwarded: a payload that is shorter than a message header, or longer than the message it announces, has no defined result.
- The allocator: a freed node or message is never handed out again, so reuse of its address is not modelled.
- Mailboxes and the shared-memory protocol are step machines on values; the in-place form of their data is given by RxQueue and SharedMemory.
