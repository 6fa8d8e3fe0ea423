# Verified model of the itc-platform concurrency core

A Dafny model of the parts of itc-platform on which its messaging rests: the lock-free ticket
queue, the mailbox and the entry container built on it, the thread pool, and the byte format of
messages sent over a System V queue. `dafny verify dfyconfig.toml` checks everything.

## How the model is layered

- `Bits`, `IndexMap`: compile-time index arithmetic, on words of any width. `CacheLines`: what it
  means for the line sizes, capacities and counters of the program.
- `Residues`, `TicketQueue`, `TicketOrder`: the queue as tickets and slots. Each lane (slot)
  records who wrote and who took, so order and exactly-once delivery can be stated.
- `QueueThreads`, `QueueRuns`, `TicketWindows`: any number of threads inside `tryPush`, `push`,
  `tryPop`, `pop` and `size`, one atomic access per step, under every schedule; weak CAS may fail
  for no reason. `QueueCalls`, `QueueScripts`: what a thread does while the others rest.
- `QueueMachine`: the same program with 32-bit counters, signed comparisons and the shuffled array,
  shown to follow the ticket system exactly as long as its steps are safe. `StaleCounters`: runs of
  the program that are not.
- `Spsc`, `SpscCalls`: the single-producer single-consumer code, directly on 32-bit counters, and
  its calls.
- `LockFreeQueues`, `MailboxObjects`, `ContainerObjects`, `ThreadPoolObjects`,
  `AdminMessageBuffers`: the classes and buffers changed in place, each against its specification.
- `Places`, `Containers`, `ContainerHands`, `Mailboxes`, `MailboxDrains`, `MailboxScripts`,
  `MailboxReturns`, `MailboxStarvation`: what concurrent clients make of the queue.
  `ClientMachines` carries it over to the 32-bit program.
- `ThreadPools`: the mutex and condition variable protocol with termination.
- `AdminMessages`, `MessageCodec`: message layout, framing and parsing.

Atomic accesses interleave sequentially consistently. Runs are sequences of actions; an action that
does not apply changes nothing, so a statement about all schedules is about all interleavings.
`size()` loads head before tail, an order that C++ leaves open. Messages of a mailbox are numbered
when their push passes the activity check, so a buffer sent twice counts as two messages.

## What turned out not to hold

- Ticket order (pop t receives push t) fails when a stalled push is overtaken on its slot, even if
  only `tryPush` and `tryPop` are used. For every capacity such runs keep ticket order exactly with
  at most two threads: `TicketWindows.TicketOrderIffTwoThreads`. With more threads, or blocking
  calls, it holds as long as no two unfinished operations of one kind share a slot:
  `TicketWindows.TicketFifo`.
- A `tryPop` can be left waiting when blocking pops are used beside it: `QueueScripts.TryPopCanWait`.
  Without blocking pops it cannot, whatever the pushes: `QueueRuns.TryPopsProceed`.
- So a drain, which uses `tryPop`, can be left waiting. Not if all receivers are non-blocking
  (`MailboxDrains.TryReceiversProceed`). While the flag stays cleared and no other thread drains, a
  drain can be left waiting exactly if there are more threads than slots, 1024 in a mailbox
  (`MailboxStarvation.LoneDrainStarvesIff`). If the mailbox is switched on again during the drain,
  two threads suffice for any number of slots (`MailboxStarvation.ReactivationStarvesDrain`).
- Counters that stay loaded for too long make the program differ from the unbounded counters:
  `QueueMachine.ProgramFollowsIffSafe` has the exact condition, `StaleCounters` has runs.
- A queue of 2^31 slots refuses every `tryPush`: `QueueMachine.HugeQueueRefuses`. A container of more
  than 2^30 entries therefore never holds any.
- A message of 2^31 - 17 or more size bytes cannot be sent: `AdminMessages.FrameRoundTrip`.
- A pool without workers never runs what it accepted: `ThreadPools.DrainedAtJoin`.
- `tryPopFromQueue` of the container is the blocking pop, despite its name.

## Model

| member | source | states |
|---|---|---|
| IndexMap.RoundUpToPowerOf2IsLeast | sw/itc-common/inc/itcLockFreeQueue.h:145-160 | the OR-shift chain gives the least power of two that is at least a for every 1 <= a <= 2^31, and 0 for every other 32-bit word |
| IndexMap.RoundUpToPowerOf2LongIsLeast | sw/itc-common/inc/itcLockFreeQueue.h:145-165 | the same on 64-bit words, up to 2^63 |
| IndexMap.Smear | sw/itc-common/inc/itcLockFreeQueue.h:145-155 | k shifts by w, 2w, 4w, .. turn a run of w leading ones into a run of w * 2^k ones, or fill the word |
| IndexMap.ShuffleBitsFit | sw/itc-common/inc/itcLockFreeQueue.h:89-111 | for every power-of-two capacity the chosen shuffle uses at most all of its bits; which shuffle is chosen is stated by CacheLines.ShuffleChosen |
| IndexMap.RemapSwaps | sw/itc-common/inc/itcLockFreeQueue.h:113-119 | the xor expression exchanges the two lowest bit fields of the index, for any field width |
| IndexMap.RemapPermutes | sw/itc-common/inc/itcLockFreeQueue.h:113-131 | the shuffle stays inside [0, 2^e) and is its own inverse there |
| IndexMap.NeighboursOnDifferentLines | sw/itc-common/inc/itcLockFreeQueue.h:70-88 | for every field width b, any 2^b consecutive tickets, also across the end of the array, are sent to slots that differ above their b lowest bits |
| CacheLines.ShuffleChosen | sw/itc-common/inc/itcLockFreeQueue.h:89-111 | a shuffle is chosen exactly for 2, 4, .., 256 elements to a cache line and a capacity of at least the square of that number, and its fields then number the elements of one line |
| CacheLines.ConsecutiveTicketsSpread | sw/itc-common/inc/itcLockFreeQueue.h:70-131 | for each such number n and capacity, any n consecutive tickets work on slots of pairwise different cache lines of n elements, also where the array or the 32-bit counter wraps around |
| CacheLines.OtherwiseInOrder | sw/itc-common/inc/itcLockFreeQueue.h:105-131 | for any other line size, or a smaller capacity, the slot is the ticket modulo m_size |
| CacheLines.SlotsArePermuted | sw/itc-common/inc/itcLockFreeQueue.h:113-131 | in both cases tickets share a slot exactly if they are congruent modulo m_size |
| Residues.LaneIsModulo | sw/itc-common/inc/itcLockFreeQueue.h:405-415 | the lane a ticket is assigned round robin is ticket modulo m_size |
| TicketQueue.PutInv | sw/itc-common/inc/itcLockFreeQueue.h:248-273 | one slot attempt of a push keeps the books: every ticket pending or written exactly once, slots equal to writes not yet taken, counters equal to pending plus finished |
| TicketQueue.TakeInv | sw/itc-common/inc/itcLockFreeQueue.h:201-246 | the same for one exchange of a pop |
| TicketQueue.ClaimPutInv | sw/itc-common/inc/itcLockFreeQueue.h:288-297 | the same for handing out a push ticket |
| TicketQueue.ClaimTakeInv | sw/itc-common/inc/itcLockFreeQueue.h:313-323 | the same for handing out a pop ticket |
| TicketOrder.StuckShape | sw/itc-common/inc/itcLockFreeQueue.h:201-273 | a queue in which no slot step is possible is empty with tail - head waiting pops, or holds min(head - tail, m_size) elements with max(head - tail - m_size, 0) waiting pushes; never both kinds wait |
| TicketOrder.WaitingPushHasPop | sw/itc-common/inc/itcLockFreeQueue.h:248-273 | a push waits without a claimed pop on its slot only if head is more than m_size ahead of tail |
| TicketOrder.WaitingPopHasPush | sw/itc-common/inc/itcLockFreeQueue.h:222-244 | a pop waits without a claimed push on its slot only if tail is ahead of head, and, if its element was claimed, only if tail has gone more than m_size past its ticket |
| TicketOrder.PushSomewhere | sw/itc-common/inc/itcLockFreeQueue.h:327-341 | no claimed push is lost: waiting, stored or delivered |
| TicketOrder.PushOnce | sw/itc-common/inc/itcLockFreeQueue.h:248-273 | those three exclude each other, the element is intact, and at most one pop gets it |
| TicketOrder.PopSource | sw/itc-common/inc/itcLockFreeQueue.h:201-246 | a finished pop got the element of exactly one push, shared with no other pop |
| TicketOrder.InOrderDelivers | sw/itc-common/inc/itcLockFreeQueue.h:405-415 | when writes and takes of each lane follow ticket order, deliveries join equal tickets |
| TicketOrder.NarrowIsApart | sw/itc-common/inc/itcLockFreeQueue.h:405-415 | unfinished tickets that span fewer than m_size never share a slot |
| QueueThreads.NextInv | sw/itc-common/inc/itcLockFreeQueue.h:276-356 | every atomic step of every thread in any of the operations keeps the ticket books and each thread's claim on its own ticket |
| QueueThreads.ExecInv | sw/itc-common/inc/itcLockFreeQueue.h:276-356 | so does every schedule of any number of threads, with spurious CAS failures |
| QueueRuns.ExactlyOnce | sw/itc-common/inc/itcLockFreeQueue.h:201-273 | in every run of any mix of the operations each push is waiting, stored or delivered to exactly one pop, and each finished pop has exactly one source |
| QueueRuns.LanesAreFifo | sw/itc-common/inc/itcLockFreeQueue.h:405-415 | in every run each slot is FIFO: elements taken followed by the one held are the elements written, in order, and all tickets involved are congruent modulo m_size |
| QueueRuns.NoMutualDeadlock | sw/itc-common/inc/itcLockFreeQueue.h:327-356 | in every run, when no claimed operation can move, only surplus pops wait on an empty queue or only surplus pushes on a filled one, counted in threads |
| QueueRuns.TryOutcomeJustified | sw/itc-common/inc/itcLockFreeQueue.h:279-321 | a refused tryPush met head - tail >= m_size and a failed tryPop head - tail <= 0 at its deciding load; an accepted one met room, or an element, at its claim; a test that does not end the call leads to the CAS |
| QueueRuns.PopReturnsPushed | sw/itc-common/inc/itcLockFreeQueue.h:343-356 | a returning pop yields the element of a push on the same slot that was delivered to nobody before |
| QueueRuns.TryPopsProceed | sw/itc-common/inc/itcLockFreeQueue.h:301-325 | in runs without blocking pops, whatever the pushes, tail never passes head despite stale loads, and each claimed pop has its element or a push on the same slot that can move |
| QueueRuns.TryPushesProceed | sw/itc-common/inc/itcLockFreeQueue.h:276-299 | in runs without blocking pushes, whatever the pops, head never passes tail + m_size, and each claimed push has its slot free or a pop on the same slot that can move |
| QueueRuns.TryRunsStayBounded | sw/itc-common/inc/itcLockFreeQueue.h:276-325 | in runs of tryPush and tryPop only, both: head - tail stays in [0, m_size] |
| QueueRuns.ClaimedFinish | sw/itc-common/inc/itcLockFreeQueue.h:276-325 | in such runs all claimed operations can be finished by one step each, with nobody else's help |
| QueueCalls.TryPushDecides | sw/itc-common/inc/itcLockFreeQueue.h:276-299 | left alone from any point of its call, whatever head it has loaded, a tryPush is decided within four steps: refused if head - tail >= m_size, otherwise given the next ticket |
| QueueCalls.TryPopDecides | sw/itc-common/inc/itcLockFreeQueue.h:301-325 | left alone from any point of its call, a tryPop answers Nothing if head - tail <= 0 and is otherwise given the next ticket, within four steps |
| QueueCalls.OthersDecide | sw/itc-common/inc/itcLockFreeQueue.h:327-371 | push and pop take the next ticket at their first step; the size of an undisturbed queue is max(head - tail, 0) |
| QueueCalls.SlotStep | sw/itc-common/inc/itcLockFreeQueue.h:222-272 | a claimed operation finishes in one step exactly when its slot is ready, and otherwise changes nothing |
| QueueCalls.FailedCasWasBeaten | sw/itc-common/inc/itcLockFreeQueue.h:288-321 | a CAS that fails for a reason does so because another thread has been given a ticket since its load, and it tries again with the new counter |
| QueueScripts.TryPopCanWait | sw/itc-common/inc/itcLockFreeQueue.h:301-325 | beside blocking pops a tryPop that saw an element can be left waiting on a stuck queue, for every capacity and any two or more threads |
| TicketWindows.TicketFifo | sw/itc-common/inc/itcLockFreeQueue.h:222-271 | in runs in which no two unfinished pushes, and no two unfinished pops, share a slot, pop u returns exactly what push u brought |
| TicketWindows.TwoThreadsInOrder | sw/itc-common/inc/itcLockFreeQueue.h:276-325 | in a run of tries by at most two threads deliveries always join equal tickets, for every capacity |
| TicketWindows.TicketOrderCanFail | sw/itc-common/inc/itcLockFreeQueue.h:276-325 | with three threads or more, and every capacity, a run of tries hands the element of push m_size to pop 0 while push 0 is stalled |
| TicketWindows.TicketOrderIffTwoThreads | sw/itc-common/inc/itcLockFreeQueue.h:276-325 | all runs of tries keep ticket order if and only if there are at most two threads |
| QueueMachine.CounterGap | sw/itc-common/inc/itcLockFreeQueue.h:172-175 | head and tail never drift apart by more than the number of threads and the capacity account for |
| QueueMachine.LaneOfWord | sw/itc-common/inc/itcLockFreeQueue.h:405-415 | after any number of 32-bit wraparounds the counter selects the lane of the unbounded ticket |
| QueueMachine.EveryStepAgrees | sw/itc-common/inc/itcLockFreeQueue.h:279-325 | one step of the 32-bit program is the step of the ticket system if and only if it is safe: a push test not between 2^31 and 2^32 - m_size behind tail, a pop test on a non-empty queue less than 2^31 behind head, a CAS not a multiple of 2^32 behind |
| QueueMachine.ProgramFollowsIffSafe | sw/itc-common/inc/itcLockFreeQueue.h:276-420 | for every capacity up to 2^30 and every shuffle, the program with 32-bit counters, signed comparisons and shuffled slots follows a run of the ticket system step by step if and only if all steps of the run are safe |
| QueueMachine.FreshIsSafe | sw/itc-common/inc/itcLockFreeQueue.h:279-325 | all steps are safe if no thread sleeps on a loaded counter while it advances by 2^31 less capacity and threads |
| QueueMachine.ProgramRefinesTickets | sw/itc-common/inc/itcLockFreeQueue.h:276-420 | so the program follows every such run |
| StaleCounters.StaleTryPushRefused | sw/itc-common/inc/itcLockFreeQueue.h:279-287 | a run of the program, for every capacity up to 2^30: after a sleep of more than 2^31 tickets tryPush is refused by an empty queue |
| StaleCounters.StaleTryPopFails | sw/itc-common/inc/itcLockFreeQueue.h:304-312 | a run after which tryPop, having slept for 2^31 tickets, reports an occupied queue as empty |
| StaleCounters.StaleClaimOnFullQueue | sw/itc-common/inc/itcLockFreeQueue.h:288-294 | a run after which a CAS that slept for exactly 2^32 tickets succeeds on a full queue |
| QueueMachine.EmptyQueueAdmits | sw/itc-common/inc/itcLockFreeQueue.h:282-290 | an empty queue admits a tryPush exactly when m_size <= 2^30, because the capacity is compared as int32_t |
| QueueMachine.HugeQueueRefuses | sw/itc-common/inc/itcLockFreeQueue.h:282-290 | with 2^31 slots every tryPush is refused in every state |
| Spsc.ProducerStepInv | sw/itc-common/inc/itcLockFreeQueue.h:249-261 | every load and store of the single producer keeps the ring: slots hold exactly the pushed elements not yet popped |
| Spsc.ConsumerStepInv | sw/itc-common/inc/itcLockFreeQueue.h:201-219 | the same for the single consumer |
| Spsc.SpscFifo | sw/itc-common/inc/itcLockFreeQueue.h:201-261 | with separate load and store of a slot and 32-bit counters, in every interleaving the popped sequence is a prefix of the pushed one and at most m_size elements are stored |
| Spsc.SpscNoDeadlock | sw/itc-common/inc/itcLockFreeQueue.h:204-261 | a producer in front of its slot waits exactly while the ring is full, a consumer exactly while it is empty, and so never both |
| Spsc.SpscRefusals | sw/itc-common/inc/itcLockFreeQueue.h:280-312 | in every reachable state tryPush is refused if and only if m_size pushes are ahead of the pops, a pop that is waiting for or emptying its slot counted, and then the ring is full; tryPop fails if and only if no push is ahead, a push that is waiting for or filling its slot counted, and then the ring is empty; otherwise the call goes on to claim |
| SpscCalls.CallsAreFifo | sw/itc-common/inc/itcLockFreeQueue.h:276-356 | in every interleaving each push call is answered about its own element and only a tryPush is refused; the elements returned by the pop calls are those of the accepted push calls, in order and without a gap; only a tryPop fails |
| SpscCalls.CallsAdvance | sw/itc-common/inc/itcLockFreeQueue.h:201-356 | every call ends within five steps of its thread, except that a claimed push waits exactly while the ring is full and a claimed pop exactly while it is empty |
| LockFreeQueues.LockFreeQueue.constructor | sw/itc-common/inc/itcLockFreeQueue.h:397-425 | for every SIZE from 1 to 2^31 the capacity is the least power of two that is at least SIZE, and the queue starts empty |
| LockFreeQueues.LockFreeQueue.TryPush | sw/itc-common/inc/itcLockFreeQueue.h:276-299 | used by one caller at a time: appends to a bounded FIFO sequence exactly when it holds fewer than m_size elements and m_size is at most 2^30, through any number of wraparounds |
| LockFreeQueues.LockFreeQueue.TryPop | sw/itc-common/inc/itcLockFreeQueue.h:301-325 | removes the oldest element, or nothing exactly when the queue is empty or holds 2^31 elements |
| LockFreeQueues.LockFreeQueue.Push | sw/itc-common/inc/itcLockFreeQueue.h:327-341 | appends the element |
| LockFreeQueues.LockFreeQueue.Pop | sw/itc-common/inc/itcLockFreeQueue.h:343-356 | removes and returns the oldest element |
| LockFreeQueues.LockFreeQueue.Size | sw/itc-common/inc/itcLockFreeQueue.h:368-371 | the number of stored elements, except that 2^31 of them read as 0 |
| LockFreeQueues.LockFreeQueue.Empty | sw/itc-common/inc/itcLockFreeQueue.h:358-361 | true exactly when nothing is stored, or 2^31 elements |
| LockFreeQueues.LockFreeQueue.IsFull | sw/itc-common/inc/itcLockFreeQueue.h:363-366 | true exactly when m_size elements are stored, and always with 2^31 slots |
| Containers.RoomForReturn | sw/itc-common/inc/itcConcurrentContainer.h:96-104 | a returner that tests the counters, however stale its head, sees room, even while blocked pops hold tail ahead of head |
| Containers.EntriesAreExclusive | sw/itc-common/inc/itcConcurrentContainer.h:36-104 | in every interleaving each entry is in a slot, with a thread or in a client's hands, and in only one slot, with only one thread or in only one client's hands |
| ContainerHands.HoldersAreTheirOwn | sw/itc-common/inc/itcConcurrentContainer.h:96-104 | in every run a client holds exactly the entries that its own tryPopFromQueue returned, or that were passed to it, and that it has not given back or passed on since |
| ContainerHands.AcquireAlone | sw/itc-common/inc/itcConcurrentContainer.h:101-104 | tryPopFromQueue undisturbed gives its caller the entry that has waited longest, and touches no other hand |
| ContainerHands.AcquireWaits | sw/itc-common/inc/itcConcurrentContainer.h:101-104 | on a container without waiting entries tryPopFromQueue does not return |
| ContainerHands.ReturnAlone | sw/itc-common/inc/itcConcurrentContainer.h:96-99 | tryPushIntoQueue undisturbed puts the entry behind all waiting ones and takes it out of its caller's hands only |
| Containers.ReturnNeverFails | sw/itc-common/inc/itcConcurrentContainer.h:96-99 | in every interleaving no return of a held entry is refused |
| Containers.QuietSize | sw/itc-common/inc/itcConcurrentContainer.h:106-109 | between calls SIZE - max(head - tail, 0) is the number of entries in clients' hands |
| ContainerHands.SizeAlone | sw/itc-common/inc/itcConcurrentContainer.h:106-109 | between other calls size() answers with the number of entries in clients' hands and moves none |
| ClientMachines.ProgramReturnsNeverFail | sw/itc-common/inc/itcConcurrentContainer.h:31-99 | the same of the 32-bit program: after the constructor's loop, in every run of safe steps, no return of a held entry is refused |
| ContainerObjects.ConcurrentContainer.constructor | sw/itc-common/inc/itcConcurrentContainer.h:31-44 | all entries start inactive, in storage order, up to 2^30 of them; a larger container starts with none, since its queue refuses them |
| ContainerObjects.ConcurrentContainer.TryPopFromQueue | sw/itc-common/inc/itcConcurrentContainer.h:101-104 | takes the entry that has been inactive longest |
| ContainerObjects.ConcurrentContainer.TryPushIntoQueue | sw/itc-common/inc/itcConcurrentContainer.h:96-99 | accepts the entry whenever one is out and the container has at most 2^30 entries |
| ContainerObjects.ConcurrentContainer.Size | sw/itc-common/inc/itcConcurrentContainer.h:106-109 | the number of entries that are out |
| ContainerObjects.ConcurrentContainer.AddEntryToHashMap | sw/itc-common/inc/itcConcurrentContainer.h:61-71 | inserts exactly when the key is absent and never overwrites |
| ContainerObjects.ConcurrentContainer.RemoveEntryFromHashMap | sw/itc-common/inc/itcConcurrentContainer.h:73-83 | removes exactly that key and reports whether it was there |
| Mailboxes.TurnAgrees | sw/itc-common/src/itcMailbox.cc:12-74 | the mailbox code leaves a queue call only when it is over, starts the next from its beginning, and accounts for the message it carries |
| Mailboxes.MessagesAccountedFor | sw/itc-common/src/itcMailbox.cc:12-74 | in every run of concurrent push, pop and setState each accepted message is in a slot, with a thread, received, freed or refused by deallocate, in only one of these places; it was received if and only if exactly one pop call was answered with it, and freed, or refused if malformed, if and only if exactly one drain was |
| Mailboxes.HandedIsFinal | sw/itc-common/src/itcMailbox.cc:38-74 | what was received, freed or refused stays so for the rest of every run and is not handed over again |
| Mailboxes.StepAccepts | sw/itc-common/src/itcMailbox.cc:12-57 | a message is accepted exactly by a push that finds the mailbox active, and the flag is what the last setState that reached it asked for |
| MailboxReturns.TryReceiveAlone | sw/itc-common/src/itcMailbox.cc:38-51 | a non-blocking receive undisturbed takes the oldest message if there is one and otherwise returns without waiting |
| MailboxReturns.NothingToDo | sw/itc-common/src/itcMailbox.cc:14-57 | a push to or pop from an inactive mailbox, and a setState that asks for the state the mailbox is in, return after their first test and change nothing |
| Mailboxes.InactiveStep | sw/itc-common/src/itcMailbox.cc:14-20 | while inactive nothing is accepted and the backlog, unclaimed pushes plus max(head - tail, 0), never grows |
| Mailboxes.DrainTerminates | sw/itc-common/src/itcMailbox.cc:57-70 | along every run in which the flag stays cleared a drain starts at most as many tryPops, successful or not, and as many looks, as there were messages within reach when it last looked; that its calls can finish is stated by the following rows |
| MailboxReturns.DrainReturnsInTime | sw/itc-common/src/itcMailbox.cc:57-70 | a drain that has the inactive mailbox to itself, at any point of its code and with any counters loaded, returns within 6 + 8 max(head - tail, 1) steps, and leaves the queue empty unless a look that was out of date ends it; only a ticket whose element is gone could keep it |
| MailboxDrains.TryReceiversProceed | sw/itc-common/src/itcMailbox.cc:38-70 | if all receivers are non-blocking, whatever senders and drains do, each pop of a receiver or drain has its element or a sender that can deliver it now |
| MailboxDrains.LoneDrainProceeds | sw/itc-common/src/itcMailbox.cc:57-70 | while the flag stays cleared, a drain that is the only one never waits without its element or such a sender, if fewer than m_size receivers were inside without a ticket when it began |
| MailboxStarvation.LoneDrainStarvesIff | sw/itc-common/src/itcMailbox.cc:38-70 | for every capacity: the only drain, with the flag cleared throughout, can be left waiting if and only if there are more threads than slots |
| MailboxStarvation.ReactivationStarvesDrain | sw/itc-common/src/itcMailbox.cc:54-70 | if the mailbox is switched on again during a drain, two threads suffice for every capacity: the drain is left waiting in an inactive mailbox with everybody else outside |
| MailboxStarvation.DesertedForGood | sw/itc-common/src/itcMailbox.cc:57-70 | a drain left waiting with no message on its way waits until the mailbox is switched on again |
| MailboxDrains.DrainLeavesBehind | sw/itc-common/src/itcMailbox.cc:57-70 | from the last look at head until the drain leaves, whatever others do: the messages left are at most as many as the pops under way and the messages that had no ticket at that look, and nothing was accepted since the flag was cleared |
| Mailboxes.QuietDrainEnds | sw/itc-common/src/itcMailbox.cc:61-61 | in a mailbox without claimed operations the loop condition is false exactly when every slot is NIL |
| MailboxScripts.QuietDeactivation | sw/itc-common/src/itcMailbox.cc:54-74 | setState(false) with no other call under way, from its first step to its last: the queue ends up empty, every message that was in it is freed, or refused if malformed, and nothing handed over before changes |
| MailboxScripts.RepeatedDeactivation | sw/itc-common/src/itcMailbox.cc:54-57 | a repeated setState(false) changes nothing at all |
| ClientMachines.ProgramRunsMailbox | sw/itc-common/src/itcMailbox.cc:12-74 | every mailbox run of safe steps is a run of the 32-bit program with the same replies and, modulo 2^32 and through the shuffle, the same queue |
| MailboxObjects.ItcMailbox.Push | sw/itc-common/src/itcMailbox.cc:12-22 | accepted exactly while active, and then appended |
| MailboxObjects.ItcMailbox.Pop | sw/itc-common/src/itcMailbox.cc:38-52 | the oldest message, or null exactly when inactive or empty |
| MailboxObjects.ItcMailbox.SetState | sw/itc-common/src/itcMailbox.cc:54-74 | deactivation resets the identity and empties the queue, freeing each well-formed message once in order; a repeated call or an activation changes nothing else |
| ThreadPools.NextInv | sw/itc-common/inc/itcThreadPool.h:37-91 | every step keeps coverage of queued tasks by awake workers and notifications, the record of tasks, and the exit condition |
| ThreadPools.NoLostWakeup | sw/itc-common/inc/itcThreadPool.h:39-88 | in every run with a task queued and at least one worker somebody is awake, running or about to be notified and nobody has exited; while anyone sleeps, awake workers and pending notifications are as many as the queued tasks |
| ThreadPools.WakeupsArrive | sw/itc-common/inc/itcThreadPool.h:39-99 | notify_one wakes the sleeping worker it reaches and is used up, or is used up for nothing while nobody sleeps; notify_all leaves nobody asleep and changes no other worker |
| ThreadPools.QueuedTaskStarts | sw/itc-common/inc/itcThreadPool.h:39-88 | from every reachable state with a queued task and a worker, at most two worker steps and notify_one calls start the oldest task; no termination or spurious wakeup is needed |
| ThreadPools.AllTasksRun | sw/itc-common/inc/itcThreadPool.h:39-88 | from every reachable state of a pool with a worker such steps alone lead to the state in which every accepted task has been started in order and has run exactly once |
| ThreadPools.StepsRunOut | sw/itc-common/inc/itcThreadPool.h:44-99 | after termination enqueue changes nothing and every other effective step, spurious wakeups included, lowers a bound |
| ThreadPools.SomeStepLeft | sw/itc-common/inc/itcThreadPool.h:44-99 | until every worker has exited such a step exists |
| ThreadPools.PoolStops | sw/itc-common/inc/itcThreadPool.h:93-104 | a terminated pool reaches the state in which all workers have exited within that bound |
| ThreadPools.DrainedAtJoin | sw/itc-common/inc/itcThreadPool.h:93-104 | when all workers are joined every accepted task has run exactly once, started in acceptance order, if and only if the pool has a worker or accepted nothing; later tasks are rejected |
| ThreadPoolObjects.ThreadPool.EnqueueTask | sw/itc-common/inc/itcThreadPool.h:79-87 | the critical section of enqueue is the protocol's enqueue step: the task is appended to the queue and to the accepted tasks exactly if the pool is not terminated |
| ThreadPoolObjects.ThreadPool.SetFlag | sw/itc-common/inc/itcThreadPool.h:95-98 | setting the flag is the protocol's termination step and leaves the flag set |
| ThreadPoolObjects.ThreadPool.NotifySomebody | sw/itc-common/inc/itcThreadPool.h:88-88 | notify_one wakes the worker that is picked |
| ThreadPoolObjects.ThreadPool.NotifyEverybody | sw/itc-common/inc/itcThreadPool.h:99-99 | the loop wakes every sleeping worker and no other |
| ThreadPoolObjects.ThreadPool.Turn | sw/itc-common/inc/itcThreadPool.h:39-58 | one turn of the worker loop is the protocol's worker step |
| AdminMessages.FrameRoundTrip | sw/itc-common/src/itcTransportSysvMsgQueue.cc:133-138 | for every message of any payload: from 2^31 bytes on framing throws, or, for the last eight sizes before wrap-around, overruns its buffer; below, the parser forwards the same message with flags reset |
| AdminMessages.ParsedDeallocates | sw/itc-common/src/itcTransportSysvMsgQueue.cc:249-269 | whatever the parser accepts passes the checks of deallocate |
| AdminMessages.DamagedFrameRejected | sw/itc-common/src/itcTransportSysvMsgQueue.cc:249-263 | a frame that is cut short anywhere behind the message type, whatever the buffer holds behind it, or that has another endpoint byte, is rejected |
| AdminMessages.ShortFrameRejected | sw/itc-common/src/itcTransportSysvMsgQueue.cc:249-254 | a frame too short for header, message number and endpoint is rejected whatever size field the buffer holds, within what the parser can handle |
| MessageCodec.DecodeOfEncode | sw/itc-common/inc/itcAdminMessage.h:42-53 | every field of a message is read back at its offset |
| MessageCodec.EncodeOfDecode | sw/itc-common/inc/itcAdminMessage.h:42-53 | bytes that hold a whole message are the encoding of the message read from them |
| MessageCodec.ParserAcceptsExactly | sw/itc-common/src/itcTransportSysvMsgQueue.cc:240-263 | the parser accepts a buffer if and only if it begins with the complete frame of some message with a sound endpoint; any other message type is refused |
| MessageCodec.FramesAreAccepted | sw/itc-common/src/itcTransportSysvMsgQueue.cc:240-269 | and forwards that message with its flags reset |
| MessageCodec.DeallocatesIff | sw/itc-common/inc/itcAdminMessage.h:94-116 | deallocate accepts a message if and only if its receive-queue flag is clear and its endpoint sound |
| AdminMessageBuffers.Allocate | sw/itc-common/inc/itcAdminMessage.h:75-92 | null exactly for a size below 4, otherwise a fresh message with default header and endpoint |
| AdminMessageBuffers.Deallocate | sw/itc-common/inc/itcAdminMessage.h:94-116 | succeeds exactly for null or a message outside any receive queue with an intact endpoint |
| AdminMessageBuffers.BuildFrame | sw/itc-common/src/itcTransportSysvMsgQueue.cc:133-138 | the in-place frame is the framed message; none when the allocation throws or the buffer would be overrun, told apart |
| AdminMessageBuffers.ParseMessage | sw/itc-common/src/itcTransportSysvMsgQueue.cc:240-269 | the in-place parser forwards exactly what the parse function accepts, in a fresh buffer |

## Left out

- LockFreeQueues.LockFreeQueue.Push: a lone caller is required to find room, because the source's loop would otherwise never return; waiting callers are covered by the concurrent model.
- LockFreeQueues.LockFreeQueue.Pop: a lone caller is required to find an element, for the same reason.
- MailboxObjects.ItcMailbox.Push: a lone caller of an active mailbox is required to find room, for the same reason.
- MailboxObjects.ItcMailbox.Pop: a lone blocking caller of an active mailbox is required to find a message, for the same reason.
- ContainerObjects.ConcurrentContainer.TryPopFromQueue: a lone caller is required to find an inactive entry, for the same reason.
- ContainerObjects.ConcurrentContainer.TryPushIntoQueue: requires that an entry is out, the discipline of clients that return only what they hold.
- AdminMessageBuffers.Deallocate: the endpoint named by the size field is required to lie inside the buffer, since the source reads it unchecked.
- AdminMessageBuffers.ParseMessage: the received size field is required to be at least 4 and not to wrap around in 32 bits; outside that range the source reads or writes memory it does not own. Lengths below 8 are excluded too: the source subtracts 8 from them without sign, and no caller passes one.
- AdminMessages.FrameRoundTrip: messages whose byte count wraps around in 32 bits (size bytes of 2^32 - 17 and more) are not covered.
- LockFreeQueues.LockFreeQueue.constructor: SIZE is required to be in 1 .. 2^31; for any other 32-bit SIZE the capacity rounds to 0 and the program divides by it.
- ContainerObjects.ConcurrentContainer.constructor: the same range of SIZE.
- QueueMachine.ProgramFollowsIffSafe: capacities up to 2^30, and capacity and threads together below 2^31; blocking calls on a queue of 2^31 slots by several threads are not modelled in words.
- MailboxDrains.LoneDrainProceeds: a drain beside a second drain is covered only for non-blocking receivers; a second drain can go round the slots like an active receiver.
- Memory orders weaker than sequential consistency, cache effects, `yieldProcessor` and the speculative loads of waiting loops, which have no effect on the state.
- Queues with MINIMIZE_CONTENTION 0: their capacity need not divide 2^32.
- `push` and `pop` of the single-producer mode across a change of roles, and the copy and swap members of the queue, which are documented as not thread-safe.
- `lookUpFromHashMap`: its test is inverted, so it dereferences the end iterator for absent keys.
- The mailbox's copy and move members and its destructor.
- Moving a task's result through its future, tasks that throw, and a second `terminate`, which joins threads already joined.
- The condition variable's choice of the thread to wake is an argument of the step; fairness of the scheduler is not modelled, termination results bound the number of effective steps instead.
- The kernel's message queue, the retry loop of `send`, the contact list, the receive thread and its length filter, and the hand-over to the local transport.
- `ThreadManager`, `SyncObject`, the local socket transport, the file system helpers, `itcMemoryManager.h` and `itcPlatform.cc`.
