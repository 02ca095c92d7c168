# CG-RTOS: a verified model

CG-RTOS is a small real-time kernel for several cores.  This project models its data structures and
protocols in Dafny and proves what they are for: the allocator loses no byte and overlaps no block,
a mutex has one holder and waiting for it cannot deadlock, no wake-up is lost, a timer fires on its tick, a path in the RAM file system
leads to one node, k undos bring back the text of k edits ago.  `dafny verify dfyconfig.toml` checks
all of it.

## How it is built

Each component is modelled in the form the C code has.  A record whose fields the code updates is a
class; the loops of the code are loops here; arrays, rings, buffers and inode bytes are changed in place.
Where a component is a protocol, a `...Spec` module gives it as a transition system on values, a step
being one critical section, and a `...Kernel` module holds the class whose methods perform exactly those
steps.  What holds over whole runs is proved about the steps.

| files | component |
|---|---|
| `Bits`, `TlsfMapping`, `TlsfState`, `TlsfSteps`, `TlsfHeap` | the two-level segregated-fit heap: headers, back links, free lists, two bitmap levels, byte counters |
| `WaitQueue`, `TaskLinks`, `KernelList`, `RingIndex`, `Wrappers` | wait queues, the lists through the tasks' own links, the lists of list.c, ring positions |
| `MutexSpec`, `MutexHolding`, `MutexDeadlock`, `MutexPriority`, `MutexKernel` | mutexes: mutual exclusion, hand-off, recursion, deadlock detection, priority inheritance |
| `QueueSpec`, `QueueKernel` | message queues with blocking, wake-up and retry |
| `MessageSpec`, `MessageKernel` | message buffers: a byte ring with length-prefixed frames |
| `TimerSpec`, `TimerRefine`, `TimerRuns`, `TimerKernel` | software timers on a hashed wheel with rounds |
| `DelaySpec`, `DelayKernel` | time-limited blocking and the delay list |
| `ReadySpec`, `ReadySteps`, `ReadyEffects`, `ReadyKernel`, `McEdf` | ready lists with bitmap, the choice of the next task, the switch, the EDF seat assignment |
| `FsFormat`, `FsTree`, `FsPath`, `RamFs`, `RamFiles` | the RAM file system: packed directories, path resolution, create, remove, rename, open files; the path normaliser of the shell |
| `VimSpec`, `VimText`, `VimEditor` | the vi-like editor: text buffer, line table, undo ring, motions, lines to and from the clipboard |

## What the code does not do

Some promises turn out to hold only under a condition.  Each is stated with its exact condition, and with
an input, a state or a run that shows the failure.

- A request of 2^32 - 7 bytes or more is truncated and served with a block that is too small (`RequestCovers`, `WrappedRequest`).
- The deadlock search stops after 16 owners; a cycle through 17 mutexes goes unnoticed (`LockClosesCycleIff`, `RowRefusedUpTo16`).
- Raising a mutex owner that itself waits in a queue does not move it there (`InheritKeepsOrderIff`, `OrderLostByInheritance`).  With two mutexes held, unlocking one drops the inheritance of the other (`UnlockKeepsInheritedIff`, `InheritanceLostWithTwoMutexes`).
- A receive without a time limit can return empty-handed when another task takes the message first (`CoveredUnlessStolen`, `WaitedInVain`), and a message-buffer send without a time limit can return 0 (`WokenSenderIff`, `SentInVain`).  The comments promise neither.
- A periodic timer whose period is a multiple of 256 can vanish from the wheel, and so can one that expires first while the entry pool is full (`TickRightIff`, `LostFromStart`).
- A time limit that takes the tick sum past 64 bits ends at the next tick (`LimitWraps`).
- `list_insert_sorted_asc` puts a key before its equals; its comment says behind them.
- A task that yields can hand the core to a lower priority (`HighestRunsIff`, `YieldRunsLower`).
- A period set on a ready EDF task changes its deadline and not its place, so a later deadline can run before an earlier one (`EdfSortedIff`, `PeriodKeepsTurn`).
- EDF seating need not let as many tasks run as the affinities allow (`SeatingLargestIff`, `SeatLeftEmpty`).
- The path walk refuses `//` alone, a path that ends in a `.` component, and anything sixteen levels deep (`ResolveHitIff`).  Rename cannot see a name sixteen levels down and enters it a second time (`UnseenNameTwice`); below itself it detaches the directory (`RenameIntoItselfDetaches`).
- A cursor that is behind the new end after a deletion goes to the end, also where the character it was on is elsewhere (`CursorCarriedIff`).
- Once more than 64 edits have been recorded and not undone, the oldest stay lost even after the newer ones are undone (`UndoTheorem`, `LostIff`).

## Model

| member | source | states |
|---|---|---|
| `TlsfMapping.ClampsUnreached` | kernel/mem.c:196-224 | none of the index clamps ever changes the row or column, for any 32-bit size |
| `TlsfMapping.MappingMonotone` | kernel/mem.c:196-224 | a larger size never maps to an earlier bin |
| `TlsfMapping.LaterBinFits` | kernel/mem.c:301-347 | every block in a strictly later bin is larger than the request |
| `TlsfMapping.BinRange` | kernel/mem.c:196-224 | which sizes each bin holds: 8 bytes a bin below 256, then 32 bins of equal width between one power of two and the next |
| `TlsfHeap.Heap.ListRemove` | kernel/mem.c:240-259 | the block leaves its free list; links, bitmaps and all other lists stay right |
| `TlsfHeap.Heap.ListInsert` | kernel/mem.c:275-286 | the block is filed at the head of the list of its size, and both bitmap levels say so |
| `TlsfHeap.Heap.FindSuitable` | kernel/mem.c:301-347 | the bitmap search returns the first block that fits in bin order, or NULL when every bin from the request's on has been ruled out |
| `TlsfHeap.Heap.NothingMissed` | kernel/mem.c:301-347 | a failed search has missed no free block that is large enough, the bins it never read included |
| `TlsfHeap.Heap.Search` | kernel/mem.c:301-347 | NULL iff every free block is smaller than the request |
| `TlsfHeap.Heap.SplitBlock` | kernel/mem.c:362-387 | the remainder becomes a free block of its own iff it can hold a header and 32 bytes; the arena stays tiled |
| `TlsfHeap.Heap.MergeBlock` | kernel/mem.c:401-437 | the block is fused with the free neighbours it touches on either side and filed; no two free blocks touch afterwards |
| `TlsfHeap.Heap.UpdateMinFree` | kernel/mem.c:449-455 | the low-water mark is the running minimum of the free bytes |
| `TlsfHeap.Heap.InitPool` | kernel/mem.c:468-487 | one free block over the whole arena, all counters reset |
| `TlsfHeap.Heap.Malloc` | kernel/mem.c:501-561 | for sizes from 1 to 2^32 - 8, NULL iff every free block has fewer bytes than were asked for; otherwise exactly one free block became live, with at least the bytes asked for and less than a header and a smallest block more than those rounded up, and the counters follow; on failure nothing changed |
| `TlsfHeap.Heap.Free` | kernel/mem.c:599-642 | exactly the freed block leaves the live ones and joins the free ones, merged with what it touches; a second free or a foreign pointer changes nothing |
| `TlsfHeap.RequestCovers` | kernel/mem.c:94-97 | the payload covers the requested size iff the size is below 2^32 - 7 |
| `TlsfHeap.RequestExact` | kernel/mem.c:94-97 | the size is rounded up to a multiple of 8, at least 32, and no further |
| `TlsfHeap.AsAsked` | kernel/mem.c:501-561 | no free block has what the allocator looks for iff none has what was asked for, and what is granted stays within a header and a smallest block of that |
| `TlsfHeap.WrappedRequest` | kernel/mem.c:501-561 | a request of 2^32 - 1 bytes is served with a 32-byte block |
| `TlsfHeap.LiveDisjoint` | kernel/mem.c:501-561 | two live allocations never overlap; each lies inside the arena on an 8-byte boundary |
| `TlsfHeap.EveryByteOwned` | kernel/mem.c:362-437 | every byte of the arena belongs to exactly one block |
| `TlsfHeap.AllFreedIsInitial` | kernel/mem.c:599-642 | with nothing live the heap is the single initial free block again and the used count is 0 |
| `TlsfHeap.FreeUndoesCut` | kernel/mem.c:362-437 | freeing what was just allocated restores the free blocks exactly, cut or not |
| `TlsfSteps.SplitAll` | kernel/mem.c:362-387 | a split keeps tiling, back links, lists, bitmaps, byte sum and coalescing at once |
| `TlsfSteps.MergeState` | kernel/mem.c:401-437 | a merge keeps tiling, back links, lists, bitmaps and the byte sum |
| `KernelList.List.InsertEnd` | kernel/list.c:65-80 | the item is last, all pointers agree with the order |
| `KernelList.List.InsertSorted` | kernel/list.c:94-122 | the item goes behind everything that is at most its key |
| `KernelList.List.InsertSortedAsc` | kernel/list.c:136-164 | the item goes before everything that is at least its key; the comment in the source says behind its equals |
| `KernelList.List.Remove` | kernel/list.c:177-200 | the item is unlinked, head, tail and neighbours are repaired, the order of the rest is kept |
| `KernelList.InsertKeepsSorted` | kernel/list.c:94-164 | both insertions keep a sorted list sorted, and equal keys lie between the two places |
| `WaitQueue.WaitListAdd` | kernel/scheduler.c:1122-1145 | the loop finds the place behind every waiter of at least this priority |
| `WaitQueue.WaitListRemove` | kernel/scheduler.c:1158-1177 | the task is taken out, the others keep their order |
| `WaitQueue.JoinedInOrder` | kernel/scheduler.c:1122-1145 | a newcomer keeps the queue sorted by priority, then by arrival |
| `TaskLinks.Tcbs.WaitAdd` | kernel/scheduler.c:1122-1145 | next, prev and head spell out the queue with the task behind every waiter of at least its priority |
| `TaskLinks.Tcbs.WaitRemove` | kernel/scheduler.c:1158-1177 | the neighbours are joined, the head follows, the links of the task are empty |
| `TaskLinks.Tcbs.PopHighest` | kernel/scheduler.c:1190-1202 | the head comes out and its successor is the head |
| `TaskLinks.Tcbs.Append` | kernel/scheduler.c:619-638 | head, tail, next, prev and count of a ready list after a task has joined at the end |
| `TaskLinks.Tcbs.Remove` | kernel/scheduler.c:791-817 | head, tail, next, prev and count of a ready list after any of its tasks has left |
| `TaskLinks.ChainApart` | kernel/scheduler.c:619-638 | a list is untouched by what happens to the links of tasks in other lists |
| `MutexKernel.Kernel.WouldDeadlock` | kernel/ipc.c:104-124 | true iff the owner chain reaches the caller within 16 steps |
| `MutexKernel.Kernel.Lock` | kernel/ipc.c:718-786 | passes iff the mutex is free or held by the caller below the recursion limit, and then the caller owns it, once or once more, and nothing else has changed; every lock call performs exactly the lock step of the transition system |
| `MutexKernel.Kernel.Unlock` | kernel/ipc.c:799-856 | one unlock call performs exactly the unlock step |
| `MutexKernel.Kernel.HandOff` | kernel/ipc.c:823-855 | the head of the queue becomes owner with recursion 0 and inherits from the next waiter, or the mutex is free |
| `MutexKernel.Kernel.TimeOut` | kernel/scheduler.c:1637-1665 | a waiter that gives up leaves the queue and is told so |
| `MutexKernel.Kernel.ReleaseOwned` | kernel/ipc.c:945-975 | every pool mutex a deleted task holds goes to its next waiter |
| `MutexKernel.Kernel.Delete` | kernel/task.c:306-390 | a deleted task hands over every pool mutex it holds and leaves the queue it is in |
| `MutexSpec.NextKeepsInv` | kernel/ipc.c:718-975 | every step keeps: queued iff blocked on the mutex, a queue has an owner that is not in it, recursion is 0 when free, a woken task owns the mutex iff it was woken with success |
| `MutexHolding.LockAnswers` | kernel/ipc.c:718-786 | which of the five answers a lock call gets, in terms of owner, recursion, time limit and the deadlock search |
| `MutexHolding.LockTakes` | kernel/ipc.c:745-757 | a lock call that passes leaves the caller the owner, with recursion 0 or one more, and everything else as it was |
| `MutexHolding.LockLeaves` | kernel/ipc.c:718-786 | a refused lock call changes nothing; one that sleeps adds the caller to the queue and to no other |
| `MutexHolding.LockLends` | kernel/ipc.c:615-644 | a sleeping caller raises the owner to its own priority if that is higher, and changes nothing else of it |
| `MutexHolding.UnlockAnswers` | kernel/ipc.c:799-856 | unlock passes for the owner only; it takes one off the count, or gives the mutex away |
| `MutexHolding.UnlockWakes` | kernel/ipc.c:799-856 | the last unlock restores the priority of the caller, and wakes the first waiter, raised to the priority of the next one |
| `MutexHolding.TimeOutAnswers` | kernel/scheduler.c:1637-1665 | a waiter that times out is in no queue, told so, and nobody else is touched |
| `MutexHolding.ReturnAnswers` | kernel/ipc.c:760-786 | a call that slept reports success iff its task owns the mutex it asked for, and touches nobody else |
| `MutexHolding.StepCounts` | kernel/ipc.c:718-975 | every step but its own deletion changes how often a task holds a mutex by what that step reports to it |
| `MutexHolding.HeldIsBalance` | kernel/ipc.c:718-856 | over every run in which it is not deleted a task holds a mutex as often as its lock calls have passed, at once or on return, less its unlocks that have |
| `MutexHolding.MutualExclusion` | kernel/ipc.c:718-856 | over every run, deleted tasks aside, at most one task has more passed locks than unlocks of a mutex, so nested unlocks balance and no two tasks hold one mutex |
| `MutexHolding.UnlockIffBalance` | kernel/ipc.c:799-856 | over every run an unlock passes iff its task has more passed locks than unlocks of that mutex |
| `MutexDeadlock.LockClosesCycleIff` | kernel/ipc.c:104-124 | going to sleep closes a wait-for cycle iff the chain comes back to the caller beyond the 16 steps that are searched |
| `MutexDeadlock.LockRefusesExactly` | kernel/ipc.c:718-786 | with at most 16 mutexes, lock refuses exactly the request that would close a cycle |
| `MutexDeadlock.NextKeepsNoCycle` | kernel/ipc.c:718-975 | no step but such a sleep creates a cycle; hand-off, timeout and deletion never do |
| `MutexDeadlock.RunsNeverDeadlock` | kernel/ipc.c:104-124 | over every run with at most 16 mutexes no task waits for itself |
| `MutexDeadlock.ChainBound` | kernel/ipc.c:104-124 | a chain of waiting tasks is shorter than the number of mutexes |
| `MutexDeadlock.RowRefusedUpTo16` | kernel/ipc.c:104-124 | in a row of n waiting tasks the last request closes a cycle; it is refused iff n is at most 16 |
| `MutexPriority.UnlockPicksFirst` | kernel/ipc.c:799-856 | unlock gives the mutex to the earliest arrival among the waiters of highest priority |
| `MutexPriority.BlockKeepsOrder` | kernel/scheduler.c:1122-1145 | joining a mutex queue keeps it in serving order |
| `MutexPriority.InheritKeepsOrderIff` | kernel/ipc.c:615-644 | raising an owner keeps all queues in order iff it does not itself wait behind someone it now outranks |
| `MutexPriority.NextKeepsGood` | kernel/ipc.c:615-975 | while each task holds or waits for one mutex: queues in serving order, the owner's priority at least every waiter's, non-owners at base priority, over every step, deletion included |
| `MutexPriority.RunsKeepGood` | kernel/ipc.c:615-975 | the same in every state of every such run |
| `MutexPriority.DeleteGood` | kernel/ipc.c:945-975 | the forced release of a deleted task keeps all of this |
| `MutexPriority.UnlockKeepsInheritedIff` | kernel/ipc.c:684-699 | a final unlock restores base priority and leaves every owner at least at its waiters' priority iff nobody above that base priority waits for another mutex the task holds |
| `MutexPriority.ReturnTellsTheTruth` | kernel/ipc.c:82-88 | a lock call that slept reports success iff its task owns the mutex |
| `MutexPriority.OrderLostByInheritance` | kernel/ipc.c:615-644 | a state with the invariant, serving order and inheritance in which a lock request leaves a wait queue out of order |
| `MutexPriority.InheritanceLostWithTwoMutexes` | kernel/ipc.c:684-699 | with two mutexes held, unlocking one drops a priority still owed to a waiter of the other |
| `QueueKernel.SizeCheck` | kernel/ipc.c:989-1020 | the overflow test of create holds exactly when the buffer size does not fit 32 bits |
| `QueueKernel.Queue.Push` | kernel/ipc.c:1062-1068 | the bytes go into the slot behind the last message; the ring's content grows by that message |
| `QueueKernel.Queue.Pop` | kernel/ipc.c:1082-1088 | the first message comes out, the others stay in order |
| `QueueKernel.Queue.SendInternal` | kernel/ipc.c:1104-1122 | message in, first receiver woken; refused when full |
| `QueueKernel.Queue.Send` | kernel/ipc.c:1140-1187 | one turn of the send loop performs exactly the send step |
| `QueueKernel.Queue.Receive` | kernel/ipc.c:1238-1282 | one turn of the receive loop performs exactly the receive step |
| `QueueKernel.Queue.Resume` | kernel/ipc.c:1238-1282 | a woken task gives up, or takes one more turn that does not wait |
| `QueueKernel.Queue.SendFromIsr` | kernel/ipc.c:1203-1220 | the interrupt form of send |
| `QueueKernel.Queue.ReceiveFromIsr` | kernel/ipc.c:1297-1319 | the interrupt form of receive |
| `QueueKernel.Queue.TimeOut` | kernel/scheduler.c:1637-1665 | a waiter that gives up leaves its queue |
| `QueueSpec.NextSound` | kernel/ipc.c:1104-1319 | every step keeps: in a wait queue iff asleep in that call, queues in serving order, sent is received plus queued |
| `QueueSpec.OutcomesTrue` | kernel/ipc.c:1140-1282 | what send and receive report is what happened to the queue |
| `QueueSpec.SendAnswers` | kernel/ipc.c:1140-1187 | a send puts its message behind the others iff there is room; if not it sleeps with it, or fails if it may not wait |
| `QueueSpec.ReceiveAnswers` | kernel/ipc.c:1238-1282 | a receive takes the first message iff there is one; if not it sleeps, or fails if it may not wait |
| `QueueSpec.ResumeAnswers` | kernel/ipc.c:1140-1282 | a woken task that was given up on fails and leaves nothing; any other takes one more turn with what it came with |
| `QueueSpec.TimeOutAnswers` | kernel/scheduler.c:1637-1665 | a waiter that times out leaves its queue and keeps what it came with |
| `QueueSpec.IsrAnswers` | kernel/ipc.c:1203-1319 | the interrupt forms: in iff there is room, out iff there is a message |
| `QueueSpec.KeepsItsMessage` | kernel/ipc.c:1140-1187 | through every step a sender that waits keeps the message it came with |
| `QueueSpec.WakesFirstSender` | kernel/scheduler.c:1190-1202 | the sender that is woken is the longest waiting one of the highest priority |
| `QueueSpec.NextKeepsWakeups` | kernel/ipc.c:1104-1319 | every step keeps: a sleeping receiver means no more messages than woken receivers still to come, and dually for senders and slots |
| `QueueSpec.FirstInFirstOut` | kernel/ipc.c:1062-1088 | over every run the received messages are the first of the sent ones, in order, and the rest is in the queue |
| `QueueSpec.SleepersHaveReason` | kernel/ipc.c:1104-1319 | over every run, once all woken tasks are back, a sleeping receiver means an empty queue and a sleeping sender a full one |
| `QueueSpec.WakesFirst` | kernel/scheduler.c:1190-1202 | the receiver woken is the longest waiting one of the highest priority |
| `QueueSpec.CoveredUnlessStolen` | kernel/ipc.c:1238-1319 | there is a message for every woken receiver after a step iff that step did not take a promised one |
| `QueueSpec.CoveredReceiverServed` | kernel/ipc.c:1238-1282 | a woken receiver with a message for it gets one |
| `QueueSpec.WaitedInVain` | kernel/ipc.c:1238-1282 | a run in which a receive without time limit comes back empty, because another task took the message |
| `TimerKernel.Wheel.RemoveEntry` | kernel/timer.c:139-158 | the first entry of the timer is unlinked, wherever it is |
| `TimerKernel.Wheel.WheelInsert` | kernel/timer.c:172-195 | the timer gets one entry, with the rounds and slot of its delay, if the pool has one |
| `TimerKernel.Wheel.ProcessTick` | kernel/timer.c:538-591 | the loop over the slot performs exactly the tick, the null predecessor included, on every wheel in which no timer has two entries |
| `TimerKernel.InsertOneEach` | kernel/timer.c:172-195 | inserting leaves no timer with two entries |
| `TimerKernel.Wheel.Start` | kernel/timer.c:345-359 | start performs the start operation |
| `TimerKernel.Wheel.Stop` | kernel/timer.c:372-386 | stop performs the stop operation |
| `TimerKernel.Wheel.ChangePeriod` | kernel/timer.c:416-428 | change of period performs the change operation, refused for 0 |
| `TimerKernel.Wheel.Create` | kernel/timer.c:310-332 | a new timer is inactive; refused when all 32 places are taken |
| `TimerKernel.Wheel.Delete` | kernel/timer.c:514-527 | delete performs the delete operation |
| `TimerRefine.TickRightIff` | kernel/timer.c:538-591 | after a tick the wheel stands for every countdown one less iff the tick was not in trouble: no entry put back into the visited slot is followed by an expiring one with nothing kept before it, and the pool is not full when the first expiring timer is periodic |
| `TimerRefine.TickPosts` | kernel/timer.c:538-591 | a tick posts exactly the timers with one tick to go, each once, in trouble or not |
| `TimerRefine.ApplyTracks` | kernel/timer.c:112-195 | every operation keeps one entry per active timer, in the slot and with the rounds its countdown says |
| `TimerRefine.ExpiresOnTime` | kernel/timer.c:172-195 | a timer started with period n is posted on the n-th following tick and on none before, whatever is done to other timers |
| `TimerRefine.DueOnTime` | kernel/timer.c:538-591 | the same for any countdown, so a periodic timer comes back every period |
| `TimerRuns.CreatedRecord` | kernel/timer.c:310-332 | a new timer has the period and kind asked for and does not run |
| `TimerRuns.SwitchedRecord` | kernel/timer.c:345-386 | start and stop switch a timer on and off and leave its period and kind |
| `TimerRuns.ChangedRecord` | kernel/timer.c:416-428 | a change of period other than 0 is stored, and leaves kind and activity |
| `TimerRuns.DeletedRecord` | kernel/timer.c:514-527 | a deleted timer is gone and no entry of it is left |
| `TimerRuns.OtherRecords` | kernel/timer.c:310-527 | no operation touches the record of another timer |
| `TimerRuns.TickRecords` | kernel/timer.c:538-591 | a tick that is not in trouble switches off exactly the expiring one-shot timers, and changes no period and no kind |
| `TimerRuns.StartedBeats` | kernel/timer.c:345-591 | a started periodic timer of period 1 to 2^40 is posted on every multiple of its period, and on no other tick, whatever is done to other timers, until a tick is in trouble or it is touched itself |
| `TimerRuns.ChangedBeats` | kernel/timer.c:416-591 | a running periodic timer changed to period p is posted on every multiple of p from the change, and on no other tick, under the same conditions |
| `TimerRuns.ChangedOnTime` | kernel/timer.c:416-591 | a running timer of either kind changed to period p is posted on the p-th tick and on none before, under the same conditions |
| `TimerRuns.ChangedThenStarted` | kernel/timer.c:345-428 | a stopped timer changed to period p and then started is posted on the p-th tick and on none before, under the same conditions |
| `TimerRuns.StaysSilent` | kernel/timer.c:538-591 | a timer that does not run is posted on no tick until it is started |
| `TimerRuns.OneShotOnce` | kernel/timer.c:538-591 | a one-shot timer that has been posted does not run, and is not posted again until it is started |
| `TimerRefine.DelayExact` | kernel/timer.c:172-195 | the delay is the period iff the period is between 1 and 2^40 |
| `TimerRefine.TameAvoidsTrouble` | kernel/timer.c:538-591 | with fewer active timers than the pool has entries, and none of them periodic with a multiple of 256, no tick is in trouble |
| `TimerRefine.SameSlotLosesOne` | kernel/timer.c:580-587 | two periodic timers of whole turns due in the same tick: one of them is lost |
| `TimerRefine.TroubleLoses` | kernel/timer.c:538-591 | a tick in trouble leaves an active timer that has no entry anywhere |
| `TimerRefine.LostFromStart` | kernel/timer.c:580-587 | the run from an empty wheel that loses one of two timers of 256 ticks |
| `McEdf.PickEdf` | kernel/scheduler.c:909-1037 | every core computes the same seating and takes its own seat |
| `McEdf.FindSeat` | kernel/scheduler.c:1000-1031 | own core under hard affinity, else the last core, else the lowest free one |
| `McEdf.SeatsAreProper` | kernel/scheduler.c:909-1037 | a core is given a ready task that may run there, and no task gets two cores |
| `McEdf.NoBlockingPair` | kernel/scheduler.c:909-1037 | if a ready task has no seat and nobody ahead of it in the list is due later, each core it may use runs a task that is due no later |
| `McEdf.SeatedAhead` | kernel/scheduler.c:909-1037 | sorted or not, a task without a seat finds each core it may use taken by one ahead of it in the list |
| `McEdf.SeatingUnique` | kernel/scheduler.c:909-1037 | the seating is the one proper seating in which every task has a seat it likes no less than any core it may use, its last core first and then the lowest, unless a task ahead of it in the list has that core |
| `McEdf.SeatingLargestIff` | kernel/scheduler.c:909-1037 | no seating under the same affinities lets more tasks run, unless a core stays empty while a task that could use it sits on the only core of another one |
| `McEdf.HardFirstLargest` | kernel/scheduler.c:909-1037 | this cannot happen when the tasks under hard affinity come first in the list |
| `McEdf.GlobalEdf` | kernel/scheduler.c:909-1037 | without hard affinities exactly the earliest tasks run, as many as there are cores |
| `McEdf.SeatLeftEmpty` | kernel/scheduler.c:909-1037 | with a hard affinity a seat can stay empty although two tasks could both run |
| `DelayKernel.Kernel.DelayedInsert` | kernel/scheduler.c:1276-1283 | the task goes behind everyone who wakes no later |
| `DelayKernel.Kernel.Block` | kernel/scheduler.c:1298-1330 | the task is blocked, queued and put on the delay list iff its wait has a limit |
| `DelayKernel.Kernel.Signal` | kernel/scheduler.c:1377-1404 | the first waiter leaves every list and is told of success |
| `DelayKernel.Kernel.TickHandler` | kernel/scheduler.c:1637-1665 | the loop performs exactly the expiry of the tick |
| `DelaySpec.ApplySound` | kernel/scheduler.c:1215-1404 | every step keeps: the delay list holds exactly the tasks blocked with a limit, sorted by wake tick, and a wait queue exactly those blocked in it |
| `DelaySpec.ApplyInOrder` | kernel/scheduler.c:1122-1404 | every step, ticks included, leaves every wait queue in order of priority, and of arrival among equals |
| `DelaySpec.Blocks` | kernel/scheduler.c:1298-1330 | a task that blocks is blocked in the queue it names and no other, in the delay list iff its wait has a limit, and nothing changes for the others |
| `DelaySpec.SignalsFirst` | kernel/scheduler.c:1190-1202 | the signalled task is the longest waiting one of the highest priority; only its record and its queue change |
| `DelaySpec.ExpireExactly` | kernel/scheduler.c:1637-1665 | a tick gives up on exactly the waiters whose wake tick has come; all others are untouched |
| `DelaySpec.LimitExact` | kernel/scheduler.c:1298-1330 | blocked at T with limit n and not signalled, a task sleeps through every earlier tick and is given up on in the handler of T + n, out of every list, when T + n fits 64 bits |
| `DelaySpec.LimitWraps` | kernel/scheduler.c:1298-1330 | when T + n does not fit, the first tick gives up |
| `DelaySpec.SignalWakes` | kernel/scheduler.c:1190-1202 | a signalled task runs again with wake_ok set and is in no list |
| `DelaySpec.NoLimitNoTimeout` | kernel/scheduler.c:1298-1330 | a task blocked without a limit is never given up on |
| `ReadyKernel.Scheduler.AddReady` | kernel/scheduler.c:683-712 | the task is linked in the list for its policy, priority and core, whose links, tail and count follow, and the bit is set |
| `ReadyKernel.Scheduler.RemoveReady` | kernel/scheduler.c:725-743 | the task is unlinked; the list's links, head, tail and count follow |
| `ReadyKernel.Scheduler.RemovePriorityReady` | kernel/scheduler.c:791-817 | the bit is cleared when the count is 0, which is when the list is empty |
| `ReadyKernel.Scheduler.Apply` | kernel/task.c:190-833 | create, block, unblock, every setter, inheritance, migration, suspend, resume and delete, in place, as the operations of the model |
| `ReadyKernel.Scheduler.PickPriority` | kernel/scheduler.c:858-874 | the walk of the list behind the highest bit |
| `ReadyKernel.Scheduler.PickNext` | kernel/scheduler.c:1051-1069 | the choice between EDF, priority and fair share |
| `ReadyKernel.Scheduler.SwitchFromTrap` | kernel/scheduler.c:1496-1625 | the switch on the way out of a trap, in place |
| `ReadySpec.LinkSound` | kernel/scheduler.c:619-657 | linking a task in its home list restores the invariant, order and bitmap included |
| `ReadySpec.UnlinkSound` | kernel/scheduler.c:725-817 | unlinking keeps it for all other tasks |
| `ReadySpec.MoveSound` | kernel/scheduler.c:683-743 | taking a task out, changing any of its fields and putting it back keeps the invariant |
| `ReadySteps.ApplySound` | kernel/task.c:552-833 | each operation, the change of a period included, changes its task only and leaves every task in exactly the list it belongs in, or in none if it is not ready |
| `ReadyEffects.Creates` | kernel/task.c:190-293 | a created task is ready, as asked for, behind all others of its priority |
| `ReadyEffects.Wakes` | kernel/scheduler.c:1377-1404 | an unblocked or resumed task is ready, unchanged otherwise, in its list, behind all others of its priority |
| `ReadyEffects.Parks` | kernel/scheduler.c:1298-1330 | a blocked, suspended or deleted task has that status and is in no list |
| `ReadyEffects.Sets` | kernel/task.c:552-833 | each setter, inheritance and migration gives the field the value asked for and leaves the others; a ready task is then in the list for the new value |
| `ReadyEffects.SetsLast` | kernel/task.c:552-762 | a ready task given a new priority, affinity, core or deadline is behind all others in its priority list |
| `ReadyEffects.MoveKeepsOthers` | kernel/scheduler.c:683-743 | no operation changes another task or the order of the others in any list |
| `ReadyEffects.WhereReady` | kernel/scheduler.c:590-657 | which list a ready task is in, policy by policy |
| `ReadyEffects.WhichCore` | kernel/scheduler.c:583-611 | the core of a task: the one it is bound to, else the one it ran on last, core 0 if that is off line |
| `ReadySteps.EdfSortedIff` | kernel/task.c:776-833 | the EDF list stays sorted by deadline iff the operation is not a change of period that gives a ready EDF task a deadline outside those of its list neighbours |
| `ReadySteps.PeriodKeepsTurn` | kernel/task.c:776-800 | a period set on the first ready EDF task leaves it in front and running although the next one is due earlier |
| `ReadySteps.EdfServed` | kernel/scheduler.c:909-1037 | while the list is sorted, a ready EDF task without a seat finds every core it may use taken by one that is due no later |
| `ReadySpec.DeadlineInPlaceIff` | kernel/task.c:776-800 | a deadline written in place keeps the list sorted iff it lies between those of the neighbours, or the task is not in the list |
| `ReadySpec.MoveSorted` | kernel/scheduler.c:683-743 | taking a task out, changing it and putting it back keeps the EDF list sorted |
| `ReadySteps.ReadyIffLinked` | kernel/scheduler.c:683-743 | a task is ready iff it is linked in one list, the one computed from its present policy, priority and core |
| `ReadySteps.JoinsLast` | kernel/scheduler.c:619-638 | a task that becomes ready joins its priority list behind everyone in it |
| `ReadySteps.PickIsBest` | kernel/scheduler.c:858-874 | the task picked by bitmap is the one a scan over all ready tasks would pick: highest priority, first in line among equals |
| `ReadySteps.PickMissesIff` | kernel/scheduler.c:858-874 | nothing is picked although a task could run iff the highest list holds only tasks bound to other cores |
| `ReadySteps.AffineNeverMasked` | kernel/task.c:729-762 | with affinities to cores that are online this cannot happen |
| `ReadyEffects.ChoiceOrder` | kernel/scheduler.c:1051-1069 | an urgent EDF task comes first, then priority, then EDF, then fair share, then idle |
| `ReadyEffects.FairLeast` | kernel/scheduler.c:1051-1069 | the fair-share choice is a ready task of this core with the least virtual runtime |
| `ReadyEffects.OthersGiveWay` | kernel/scheduler.c:1515-1553 | a task that yields or is of no priority policy gives way to the choice |
| `ReadyEffects.TakesOver` | kernel/scheduler.c:1560-1577 | the task that takes over is running and notes the core, its other fields as before; the idle task gives way to any |
| `ReadyEffects.SwitchSpares` | kernel/scheduler.c:1496-1625 | a switch touches no third task |
| `ReadySteps.ApplyAffine` | kernel/task.c:729-762 | every operation keeps hard affinities to cores that are online |
| `ReadySteps.SwitchKeeps` | kernel/scheduler.c:1496-1625 | the switch keeps every list right; the task that runs then is running and in no list |
| `ReadySteps.SwitchRequeues` | kernel/scheduler.c:1555-1558 | the running task that loses the core is ready again in its list |
| `ReadySteps.SwitchKeepsEdfSorted` | kernel/scheduler.c:1496-1625 | the switch keeps the EDF list sorted |
| `ReadySteps.HighestRunsIff` | kernel/scheduler.c:1496-1558 | for a running task of any priority policy, threshold and EDF seat: a priority task that no ready task of this core outranks runs after the switch iff no EDF task is urgent and the task does not hand over below its own priority, nor hold on within its threshold |
| `ReadySteps.HighestRuns` | kernel/scheduler.c:1515-1553 | unless the running task yields or has a raised threshold, no ready task of this core outranks the one that runs after the switch |
| `ReadySteps.YieldRunsLower` | kernel/scheduler.c:1516-1557 | a yielding task can hand the core to a lower priority, because the choice precedes its requeueing |
| `FsFormat.EncodeInjective` | kernel/fs.c:173-465 | directory bytes determine the entries |
| `FsFormat.Scan` | kernel/fs.c:243-271 | the scan over packed entries finds the first entry of that name, at its offset, or none |
| `FsFormat.CutEntry` | kernel/fs.c:366-406 | moving the rest down over an entry leaves the encoding of the other entries |
| `FsTree.PathUnique` | kernel/fs.c:173-351 | a node is reached by one path only |
| `FsTree.CreateAddsOnePath` | kernel/fs.c:422-465 | a new entry adds exactly one path |
| `FsTree.CreateKeepsTree` | kernel/fs.c:422-465 | creation keeps a tree: valid encodings, distinct names, every node but the root referenced exactly once |
| `FsTree.RemoveDropsOnePath` | kernel/fs.c:769-824 | removing a childless node drops exactly its path |
| `FsTree.RemoveKeepsTree` | kernel/fs.c:769-824 | removal keeps a tree |
| `FsTree.RenameMovesSubtree` | kernel/fs.c:1057-1134 | every path under the old name is now under the new one; all other lookups are unchanged |
| `FsTree.RenameKeepsTree` | kernel/fs.c:1057-1134 | a rename that is not into itself keeps a tree |
| `FsTree.RenameIntoItselfDetaches` | kernel/fs.c:1057-1134 | a rename below itself cuts the moved node off from the root |
| `FsPath.ResolveMeans` | kernel/fs.c:173-351 | a path resolves to the node its lexical normal form leads to |
| `FsPath.ResolveHitIff` | kernel/fs.c:173-351 | a path is found iff it is "/", or it has components, the last is not a dot, none is longer than 31 bytes, and each that names an entry leads to a node that exists less than sixteen levels down |
| `FsPath.ResolveMissingIff` | kernel/fs.c:277-323 | a missing name is reported, so that it can be created, iff all components but the last can be followed to a directory that lacks it |
| `FsPath.PlainHitIff` | kernel/fs.c:173-351 | a path written out with plain components, fewer than sixteen, is found iff it leads to a node, and then that node is found |
| `FsPath.PlainMissingIff` | kernel/fs.c:277-323 | such a path is reported missing iff its directory is there without that name |
| `FsPath.DeepNodeUnseen` | kernel/fs.c:173-351 | a node sixteen levels down is never found |
| `FsPath.CliPathNormalize` | cli/cli_path.c:146-214 | the normaliser loop computes the canonical form, or fails exactly when it must |
| `FsPath.NormalizeIff` | cli/cli_path.c:146-214 | there is a normal form iff the path starts at the root, no component has a control byte or more than 31 bytes, none goes more than sixteen levels down on the way, and the result fits the output |
| `FsPath.NormalizeShape` | cli/cli_path.c:146-214 | the output has no dot, dot-dot or empty component, and normalising again changes nothing |
| `FsPath.NormalizeKeepsLookup` | cli/cli_path.c:146-214 | if a path resolves and normalises, its normal form resolves to the same node |
| `RamFs.Fs.constructor` | kernel/fs.c:476-489 | only the root directory, empty |
| `RamFs.Fs.PathResolve` | kernel/fs.c:173-351 | the stack machine over inode bytes computes the resolution over the tree |
| `RamFs.Fs.InoAlloc` | kernel/fs.c:112-128 | the first unused inode, or none when all are in use |
| `RamFs.Fs.DirRemoveChild` | kernel/fs.c:366-406 | the bytes of the named entry are cut out, or nothing changes |
| `RamFs.Fs.DirAddChild` | kernel/fs.c:422-465 | the entry's bytes are appended, the buffer doubled as needed |
| `RamFs.Fs.ResolveOrCreate` | kernel/fs.c:273-327 | exactly a missing last component is created, and one path is added |
| `RamFs.Fs.CreateIff` | kernel/fs.c:277-465 | a path written out can be created iff an inode is free, its directory is there without that name, and the buffer of that directory has room or can grow |
| `RamFs.Fs.Mkdir` | kernel/fs.c:740-756 | adds exactly one path to a new empty directory, or changes nothing |
| `RamFs.Fs.Unlink` | kernel/fs.c:769-790 | succeeds iff the path leads to a file, and drops exactly that path |
| `RamFs.Fs.Rmdir` | kernel/fs.c:803-824 | succeeds iff the path leads to an empty directory other than the root, and drops exactly that path |
| `RamFs.Fs.Rename` | kernel/fs.c:1057-1134 | with memory, succeeds whenever the old path leads to a node, file or directory, the new directory is there, the new name is free and nothing is moved into itself; then maps every path under the old name to the new one and keeps all others; on failure every lookup is as before |
| `RamFs.RenameAppliesIff` | kernel/fs.c:1066-1096 | on paths written out, rename goes ahead iff a node other than the root is to move, the new directory is there and the new path leads nowhere |
| `RamFs.MovableMeans` | kernel/fs.c:1057-1134 | such a move meets what rename asks of its caller, and goes from and to where its paths say |
| `RamFs.UnseenNameTwice` | kernel/fs.c:1057-1134 | if rename goes ahead although the new name is taken, the name is sixteen levels down and its directory has it twice afterwards |
| `RamFs.PutBackSame` | kernel/fs.c:1122-1129 | an entry taken out and put back at the end changes no lookup |
| `RamFiles.Files.Open` | kernel/fs.c:503-543 | succeeds iff a descriptor is free and the path leads to a file, or one can be created and is asked for; the lowest free descriptor is of that file, at its start or, to append, its end; creation and truncation happen even if there is none |
| `RamFiles.Files.FileAtIff` | kernel/fs.c:503-543 | a path written out leads to a file iff the tree has one there, and it is that one |
| `RamFiles.Files.Read` | kernel/fs.c:584-613 | the bytes from the position on, as many as asked for and there are; the position moves by as many |
| `RamFiles.Files.Write` | kernel/fs.c:628-684 | the data at the position, or at the end when appending; refused past the largest size |
| `RamFiles.Files.Lseek` | kernel/fs.c:699-727 | position from start, position or end, before the start counts as the start |
| `RamFiles.Files.Close` | kernel/fs.c:556-569 | the descriptor is free again, the file unchanged |
| `RamFiles.ReadBack` | kernel/fs.c:584-684 | what was written is read back, and all other bytes of the file are as they were |
| `RamFiles.ReadExact` | kernel/fs.c:584-613 | a read gives the bytes from the position on, as many as asked for, or all there are |
| `RamFiles.WriteLeavesGap` | kernel/fs.c:628-684 | bytes skipped by a write past the end are the stale ones |
| `RamFiles.ReadPieces` | kernel/fs.c:584-613 | reading in two pieces is reading at once |
| `RamFiles.ContentKeepsTree` | kernel/fs.c:628-684 | a new content changes no lookup |
| `VimSpec.CutUndoesPaste` | cli/cli_vim.c:425-496 | a deletion at the same place undoes an insertion |
| `VimSpec.PasteUndoesCut` | cli/cli_vim.c:425-496 | an insertion of the deleted piece undoes a deletion |
| `VimSpec.PasteBytes` | cli/cli_vim.c:468-496 | where each byte of the text and of the data is after an insertion |
| `VimSpec.EditAnswers` | cli/cli_vim.c:425-546 | when an edit is refused, what it makes of the text otherwise, and that an undo right after it restores text and records, up to one that a full ring gave up |
| `VimSpec.FollowAnswers` | cli/cli_vim.c:425-546 | the history keeps the text before every edit that is not refused, and an undo goes back to the last one |
| `VimSpec.CursorCarriedIff` | cli/cli_vim.c:439-449 | the cursor stays with its character over a deletion iff it was not behind the new end, or at the end of the text, or the deletion reached the end |
| `VimSpec.CarriedSameByte` | cli/cli_vim.c:439-449 | the carried cursor is on the byte it was on before |
| `VimSpec.ApplyKeeps` | cli/cli_vim.c:380-546 | every edit and undo keeps: record by record, the ring leads from each text of the history to the one before |
| `VimSpec.UndoTheorem` | cli/cli_vim.c:509-546 | after any edits and undos, k undos restore the text of k recorded edits ago, for every k up to the number of valid records; with none left an undo changes nothing |
| `VimSpec.LostOnlyPast64` | cli/cli_vim.c:380-409 | a recorded edit is lost only when more than 64 had not been undone |
| `VimSpec.LostIff` | cli/cli_vim.c:380-409 | more than n texts are lost iff at some moment more than n + 64 records had not been undone |
| `VimText.TableUnique` | cli/cli_vim.c:181-211 | a text has one line table |
| `VimText.OffsetRoundTrip` | cli/cli_vim.c:226-297 | row and column of an offset lead back to it, for every offset up to the length |
| `VimText.PositionRoundTrip` | cli/cli_vim.c:226-297 | the offset of a position within its line leads back to the position |
| `VimText.PositionClamped` | cli/cli_vim.c:272-297 | columns beyond the line count as its end and rows beyond the text as the last one, negative ones as the first |
| `VimText.LineAround` | cli/cli_vim.c:226-258 | the table entries around an offset are the start of its line and the place behind its newline, or the end of the text |
| `VimText.LinesMeans` | cli/cli_vim.c:1160-1180 | dd and yy reach from the start of the cursor's line to behind the n-th newline from there, or to the end of the text if there are fewer |
| `VimText.LinesEndUnique` | cli/cli_vim.c:1160-1180 | there is only one such end |
| `VimText.DeletePutRestores` | cli/cli_vim.c:1160-1253 | P after dd restores the text, last line or not |
| `VimEditor.Editor.RebuildLines` | cli/cli_vim.c:181-211 | the table holds exactly the true line starts, in order, and the length |
| `VimEditor.Editor.OffToRow` | cli/cli_vim.c:226-258 | the loop computes row and column |
| `VimEditor.Editor.RowToOff` | cli/cli_vim.c:272-297 | the clamped offset of a row and column |
| `VimEditor.Editor.EnsureCap` | cli/cli_vim.c:311-342 | room for the bytes asked for, content kept |
| `VimEditor.Editor.UndoPush` | cli/cli_vim.c:380-409 | the record is pushed on the ring, over the oldest one when full |
| `VimEditor.Editor.BufDelete` | cli/cli_vim.c:425-451 | the bytes go, the line table is right, the edit is recorded; where the cursor goes, after the new end first |
| `VimEditor.Editor.BufInsert` | cli/cli_vim.c:468-496 | the bytes come, cursor behind them, the edit is recorded; refused iff the text would be too long |
| `VimEditor.Editor.DoUndo` | cli/cli_vim.c:509-546 | succeeds iff some text of the history is still reachable, and goes back to it; the cursor is where text was taken out, or behind the text put back |
| `VimEditor.Editor.MoveLeft` | cli/cli_vim.c:877-882 | n bytes back, not past the start |
| `VimEditor.Editor.MoveRight` | cli/cli_vim.c:895-903 | n bytes on, not past the line |
| `VimEditor.Editor.MoveDown` | cli/cli_vim.c:916-925 | the same column n rows down, clamped |
| `VimEditor.Editor.MoveUp` | cli/cli_vim.c:938-947 | the same column n rows up, clamped |
| `VimEditor.Editor.LineBegin` | cli/cli_vim.c:1090-1096 | the start of the line the cursor is in |
| `VimEditor.Editor.LineFirstNonblank` | cli/cli_vim.c:1108-1123 | the first character of the line that is not blank |
| `VimEditor.Editor.LineEnd` | cli/cli_vim.c:1135-1146 | the end of the line the cursor is in |
| `VimEditor.Editor.MoveWords` | cli/cli_vim.c:978-1078 | the n-th next word start, previous word start or next word end |
| `VimEditor.Editor.DeleteLines` | cli/cli_vim.c:1160-1186 | the lines go to the clipboard and out of the text, iff they fit the clipboard |
| `VimEditor.Editor.PutClip` | cli/cli_vim.c:1229-1253 | the clipboard is inserted at its place and the cursor is behind it; refused iff the clipboard is empty or the text would be too long |
| `VimEditor.Editor.PutMeans` | cli/cli_vim.c:1229-1253 | lines go before the cursor's line for P and behind it for p; anything else at the cursor, for p behind its character unless the line ends there |
| `MessageKernel.FirstFrame` | kernel/stream_buffer.c:720-773 | the first four bytes are the length of the first payload, the payload follows, then the other frames |
| `MessageKernel.Buffer.WriteBytes` | kernel/stream_buffer.c:86-93 | the bytes are appended to the ring's content, around its end |
| `MessageKernel.Buffer.ReadBytes` | kernel/stream_buffer.c:108-115 | the first n bytes of the ring's content come out |
| `MessageKernel.Buffer.PeekLength` | kernel/stream_buffer.c:730-742 | the length prefix is read and nothing moves |
| `MessageKernel.Buffer.WakeReceivers` | kernel/stream_buffer.c:129-151 | every sleeping receiver is woken |
| `MessageKernel.Buffer.WakeSenders` | kernel/stream_buffer.c:165-178 | every sleeping sender is woken |
| `MessageKernel.Buffer.Send` | kernel/stream_buffer.c:570-615 | one turn of the send loop performs exactly the send step |
| `MessageKernel.Buffer.Receive` | kernel/stream_buffer.c:720-773 | one turn of the receive loop performs exactly the receive step; the ring stays a sequence of whole frames |
| `MessageKernel.Buffer.SendFromIsr` | kernel/stream_buffer.c:631-658 | whole message in, or nothing |
| `MessageKernel.Buffer.ReceiveFromIsr` | kernel/stream_buffer.c:674-704 | whole message out, or nothing |
| `MessageSpec.NextSound` | kernel/stream_buffer.c:570-773 | every step keeps: a sleeping receiver means an empty buffer, a sleeping sender's message does not fit |
| `MessageSpec.OutcomesTrue` | kernel/stream_buffer.c:570-773 | what send and receive report is what happened to the messages |
| `MessageSpec.SendAnswers` | kernel/stream_buffer.c:570-615 | a message goes in whole iff it fits; if not its sender sleeps with it, or gets 0 if it may not wait or it can never fit |
| `MessageSpec.ReceiveAnswers` | kernel/stream_buffer.c:720-773 | the first message comes out whole iff there is one and it fits the buffer given |
| `MessageSpec.ResumeAnswers` | kernel/stream_buffer.c:570-773 | a woken task that was given up on gets 0; any other takes one more turn with what it came with |
| `MessageSpec.TimeOutAnswers` | kernel/scheduler.c:1637-1665 | a waiter that times out leaves its queue and keeps what it came with |
| `MessageSpec.IsrAnswers` | kernel/stream_buffer.c:631-704 | the interrupt forms never wait, and take or leave whole messages |
| `MessageSpec.MessagesInOrder` | kernel/stream_buffer.c:570-773 | over every run the received payloads are the first of the sent ones, whole and in order |
| `MessageSpec.ShortBufferTakesNothing` | kernel/stream_buffer.c:744-748 | a receive buffer that is too short gets nothing and takes nothing |
| `MessageSpec.SentIsReceived` | kernel/stream_buffer.c:570-773 | what goes into an empty buffer is what the next receiver gets |
| `MessageSpec.WokenSenderIff` | kernel/stream_buffer.c:570-615 | a woken sender succeeds iff its message fits by then |
| `MessageSpec.WokenTooEarly` | kernel/stream_buffer.c:165-178 | a receive that frees too little wakes a sender in vain |
| `MessageSpec.SentInVain` | kernel/stream_buffer.c:570-615 | the run from a new buffer in which a send without time limit returns 0 |

## Left out

- Hardware abstraction, interrupt entry, trap assembly, board and console drivers, printing, tracing, MPU and safety hooks.
- Semaphores, event groups, task notifications, queue sets, plain stream buffers, memory pools and the VFS mount table: they use the same wait queues and would add only easier members.
- Interleavings inside a critical section or between leaving one and yielding: a step is one critical section, and the code does not close those windows between cores.
- Deletion of queues, message buffers and mutexes, and suspending or resuming a task that waits in one: `wake_ok` is not reset on that path.
- Changes of priority to a task that is queued on a message queue or message buffer; mutex queues are covered by `InheritKeepsOrderIff`.
- The ceiling protocol of mutexes (DPCP); mutexes beyond the pool of 32 are not force-released, as in the code.
- The two critical sections of task deletion are one step.
- The heap's red-zone and poison options, and calloc; offsets are relative to an arena whose base is a multiple of 8.
- TlsfHeap.Heap.Free: asks that the pointer is NULL or lies behind a header, as the code reads one there.
- The shift by 32 in the search, undefined in C, is modelled as an arbitrary word.
- Pool entries of the timer wheel are counted, not named; the command queue to the timer task may be full, then a posted expiry is lost.
- The release wheel for periodic EDF tasks, including the release of a task blocked in IPC; CFS fairness, virtual-runtime accounting, time slices, load balancing and idle stealing beyond the move of one task.
- WaitQueue.WaitListAdd: works on a sequence; the links and the head that spell it out are in TaskLinks.Tcbs.WaitAdd.  The mutex, queue, message-buffer and delay classes keep their wait queues as sequences, so that a task is in one wait queue or ready list at most is proved in each, not across them.
- WaitQueue.WaitListRemove: likewise, with TaskLinks.Tcbs.WaitRemove; the EDF and fair-share lists of the scheduler class are sequences too, their links are in KernelList.
- The heap variant of the EDF ready structure; cores that come online while tasks are queued.
- Success of the allocator is a parameter `memory` in the file system, and assumed in the editor.
- RamFs.Fs.Rename: asks of its caller that neither last component is a dot-dot or the new one a dot, that the new name has fewer than 32 bytes and the new path fewer than 256, that nothing is moved below itself, and that the new name is free in its directory where the path walk cannot see it.
- Descriptors of files that have been unlinked; directory iterators, stat, statfs and format; the file-system lock.
- RamFiles.Files.Write: asks that position and length add up within 32 bits; bytes between the old end and a position beyond it are arbitrary, as the code does not clear them.
- Loading and saving in the editor, its search, visual mode, repeat, command line and drawing.
- The path normaliser takes characters as unsigned.
- Tick and sequence counters that wrap around after 2^64 events, except where a time limit is added to the tick.
