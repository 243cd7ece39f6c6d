# A verified model of the kernel and its EEPROM logger

The repository is a small cooperative kernel for the ATmega328P (a message queue shared with
interrupts, a round-robin task ring, a wrapping millisecond timer, a polled I2C master) and an
application that keeps a ring log in a serial EEPROM. This project models these five parts in
Dafny and proves what they keep over every input and every run. `dafny verify dfyconfig.toml`
checks it.

| file | what it holds |
|---|---|
| `Chains.dfy` | null-terminated chains of nodes in an addressed memory |
| `Messages.dfy` | messages, owners of contexts, events of a dispatch |
| `MessageQueue.dfy` | `MQClass` as an object: subscriber lists and message queue, linked in place |
| `Subscribers.dfy` | the subscriber lists, and the walk of a dispatch through one of them while handlers subscribe and unsubscribe others |
| `Interleaving.dfy` | the queue as a transition system of single pointer writes, `cli`, `sei`, `new`, `delete`, with interrupt posts between any two steps while interrupts are enabled; its invariant |
| `QueueRuns.dfy` | what follows for every run: soundness, ownership of contexts, latency, backlog |
| `Dispatches.dfy` | who is called for a message, and who is not |
| `Progress.dfy` | that valid posts are accepted and that the dispatch loop comes to its end |
| `CallerRules.dfy` | what callers must respect: exactly when the queue fails |
| `Iterations.dfy` | a FIFO served in iterations: service order, waiting time, backlog bound |
| `TaskRing.dfy` | the ring of tasks, abstractly and as an object |
| `OsTimer.dfy`, `ToggleTask.dfy` | the 32-bit timer against real time; the periodic task |
| `Kernel.dfy` | `loop()`, and the pacing of a task under it |
| `Iic.dfy`, `IicProtocol.dfy` | the I2C transfers against any device; what they look like on the bus (UM10204, sections 3.1.4 to 3.1.6) |
| `Eeprom.dfy` | a byte-level 64 KB EEPROM: address pointer, 128-byte pages with rollover, sequential reads, arbitrary failures with any status but success |
| `LogData.dfy`, `LogRuns.dfy` | the logger over the I2C driver over the EEPROM; its runs |
| `LogResults.dfy` | what the logger's operations return, and cursors that are not page numbers |
| `LogFaults.dfy` | where the logger loses entries or shows others, and exactly when |

How the parts fit: the queue is modelled twice. `MessageQueue.MQ` has the source's form (heap
nodes, loops, handlers that post and subscribe while they are called). `Interleaving` breaks
the same code into single steps so that interrupts can come in between, with a ledger of
history beside the machine. `QueueRuns.RunRefines` maps each run of
that machine to iterations of a FIFO, where latency and backlog are proved.

## What callers must respect, and where the code does not do what one would expect

- Message ids are not below -1. The code tests only `msgid < 26` and `msgid != -1`;
  `CallerRules.NegativeIdFaults` shows that every id below -1 makes the loop index outside its
  table. Subscribe and Unsubscribe take ids from 0 up.
- `MaxMessages` is not negative, since the loop runs `while(MaxMessages)`.
- A handler does not unsubscribe the node through which it is being called, since the
  successor is read after the call. Everything else is allowed: it may post, subscribe, and
  unsubscribe any other node, which is then skipped if its turn had not come.
  `CallerRules.UnsubscribeFaultsIff` says that exactly the one case fails;
  `CallerRules.SelfUnsubscribeFaults` is a run in which it does.
- Interrupts do not nest, and tasks post with interrupts enabled.
- Freeze and Thaw are paired, with no Set or Restart in between. `Thaw` never clears `frozen`;
  `OsTimer.SecondThaw` says exactly when a second Thaw does no harm.
- A toggle task with a timeout of 2^32 - 1 never toggles (`ToggleTask.LargestTimeoutNeverToggles`).
- `Write` names an undeclared `_pg`; it is read as `_page`. Strings have fewer than 32
  characters and contain no NUL.
- `ok()` bars pages from 2044 up, but not negative ones: page -4 without the devlock overwrites
  the cursor. `LogRuns.CursorReachedIff` says exactly which pages do.
- `ReadPage` and `get_addr` ignore the result of the transfer that sets the address; `ReadPage`
  may return 0 and show another page (`LogFaults.StaleRead`, `LogFaults.ShowsAnotherPage`); and
  after a `get_addr` that could not read, `WriteAuto` may return 0 and write its entry over the
  cursor (`LogFaults.BlindEntry`).
- `upd_addr` ignores the result of its write, so a lost update goes unnoticed
  (`LogFaults.LostUpdate`, with the chip of `LogFaults.ForgetfulLoses`). The run theorem
  `LogRuns.LogSurvives` therefore assumes that the cursor can be read and updated; record writes
  may fail in any way. The assumption on updates is exact: `LogFaults.RunKeepsIff`. (There,
  failures that by chance leave a page starting with the digits of a page number are set aside.)

## Model

| member | source | states |
|---|---|---|
| `Interleaving.StepKeeps` | kernel/mq.cpp:316-392 | each single step of a Post (task or interrupt), of Loop, of a subscription or of an unsubscription keeps the invariant: control and interrupt flag, queue shape, no leak, list shapes, history |
| `Interleaving.RunKeeps` | kernel/mq.cpp:316-392 | the invariant holds after every legal interleaving |
| `QueueRuns.EveryInterleaving` | kernel/mq.cpp:316-392 | in every interleaving no dangling pointer is used; with interrupts enabled the queue is a proper list with First null iff Last null and Last at its end; the popped message is not in it; accepted posts are dispatched ++ in flight ++ queued; the log is each message's subscribers as they stood when its dispatch began, once each and in order, without those unsubscribed before their turn, then its frees; the 26 lists are disjoint proper chains |
| `Progress.PostAccepted` | kernel/mq.cpp:321-336 | a Post of an id from 0 to 25 that gets memory, in any state of the queue: four steps later its message is the last accepted and the last queued, it is about to return 0, and nothing else has changed |
| `Progress.PostRejected` | kernel/mq.cpp:320-339 | any other Post returns -1 and changes nothing |
| `Progress.OthersWait` | kernel/mq.cpp:320-339 | while a Post has interrupts masked no other step does anything |
| `Progress.EveryPostAccepted` | kernel/mq.cpp:316-341 | after every legal run, from a task, a handler or an interrupt: such a post is accepted and stands last in the queue; then interrupts are enabled and what it came upon goes on |
| `Progress.InterruptsEnabledIff` | kernel/mq.cpp:320-371 | interrupts are enabled exactly outside Post and the taking of a message off the queue |
| `Progress.SubscribeDoes` | kernel/mq.cpp:126-188 | a subscription of an id below 26 that gets memory prepends its node to that list and changes no other |
| `Progress.UnsubscribeRemoves` | kernel/mq.cpp:204-274 | any node of any list can be unsubscribed, and just it goes |
| `Progress.LegalIff` | kernel/mq.cpp:321-378 | what a legal run may go on with, in plain terms |
| `Progress.LoopAdvances` | kernel/mq.cpp:356-392 | every step of a running Loop call brings it nearer to its end, whatever handlers subscribe |
| `Progress.OthersKeepRank` | kernel/mq.cpp:356-392 | no other step sets it back |
| `QueueRuns.NoLeak` | kernel/mq.cpp:322-336 | every allocated message node is queued, popped or about to be linked |
| `QueueRuns.ContextsConserved` | kernel/mq.cpp:381-388 | for every context: accepted as queue-owned = freed + still held by a queued or in-flight message, with multiplicity; so caller-owned and rejected contexts are never freed |
| `QueueRuns.ContextsFreedOnce` | kernel/mq.cpp:381-388 | a context accepted once is either held by one message or freed once |
| `CallerRules.HistoryIsPassive` | kernel/mq.cpp:316-392 | running the machine with its ledger and running it alone, step by step from any point, come to the same machine |
| `QueueRuns.RunRefines` | kernel/mq.cpp:316-392 | every run of the pointer machine is a run of a FIFO in iterations: same accepted posts, same waiting messages, the same number of takes owed |
| `QueueRuns.IdleIsBoundary` | kernel/mq.cpp:356-392 | between Loop calls what the iterations served is what was dispatched, and their backlog is what waits |
| `QueueRuns.MessageLatency` | kernel/kernel.cpp:15-19 | a message with k ahead of it when a Loop call starts is dispatched in exactly iteration k / max after it, whatever is posted meanwhile |
| `QueueRuns.BacklogBounded` | kernel/kernel.cpp:15-19 | if any m iterations accept at most b + max * m posts, at most b + max messages wait between Loop calls |
| `CallerRules.NegativeIdFaults` | kernel/mq.cpp:321 | any post with an id below -1 leads to an access outside the subscriber table |
| `CallerRules.UnsubscribeFaultsIff` | kernel/mq.cpp:375-379 | in any legal run, an unsubscription inside a handler makes the loop read a freed node iff it is of the node through which the handler is called |
| `CallerRules.SelfUnsubscribeFaults` | kernel/mq.cpp:375-379 | a run in which a handler unsubscribes itself and a freed node is read |
| `Subscribers.Unsubscribed` | kernel/mq.cpp:204-274 | while a handler runs, unsubscribing any other node keeps the walk in order: it goes on without that node |
| `Subscribers.WhoIsSkipped` | kernel/mq.cpp:375-379 | an unsubscribed node is skipped iff its turn has not come |
| `Dispatches.AllListed` | kernel/mq.cpp:374 | a dispatch begins with exactly the nodes and handlers that the list of its message's id then has |
| `Dispatches.LifeIs` | kernel/mq.cpp:374-388 | id and context go to each handler, then the context is freed iff the queue owns it and it is not null, then the node |
| `Dispatches.GoneByUnsubscribing` | kernel/mq.cpp:375-379 | an unsubscription takes a node out of the dispatch that is going on iff that node is still to be called |
| `Dispatches.EverySubscriberCalled` | kernel/mq.cpp:374-379 | in runs whose handlers unsubscribe nobody, every message is passed to all its subscribers as they stood |
| `Iterations.IterationConserves` | kernel/mq.cpp:356-392 | an iteration loses, duplicates and reorders nothing |
| `Iterations.IterationServes` | kernel/mq.cpp:359-390 | an iteration serves as many messages as it tries, or all it found at its start |
| `Iterations.FifoService` | kernel/mq.cpp:324-335 | arrived = served ++ backlog over any number of iterations |
| `Iterations.Latency` | kernel/kernel.cpp:17 | the k-th waiting message is served in iteration k / max, neither earlier nor later |
| `Iterations.BusyPeriod` | kernel/mq.cpp:359-390 | the whole backlog is explained by the arrivals from some iteration on: the first, or one that left behind only what arrived in it |
| `Iterations.BacklogBound` | kernel/kernel.cpp:17 | paced arrivals leave at most b + max messages |
| `Iterations.BacklogBoundIsTight` | kernel/kernel.cpp:17 | the bound b + max is reached, for every b and max |
| `MessageQueue.WithoutFirst` | kernel/mq.cpp:204-274 | in a duplicate-free list, unlinking the first match removes every match and keeps the order |
| `MessageQueue.WithoutRemoves` | kernel/mq.cpp:291-296 | after filtering no match is left and all others are |
| `MessageQueue.MQ.constructor` | kernel/mq.cpp:81-90 | empty queue, 26 empty lists |
| `MessageQueue.MQ.Subscribe` | kernel/mq.cpp:126-188 | returns 0 iff id, handler, absence and memory allow it; then prepends to that list alone; otherwise changes nothing |
| `MessageQueue.MQ.Unsubscribe` | kernel/mq.cpp:204-274 | returns 0 iff subscribed; the list becomes the old one without the handler, all others stay |
| `MessageQueue.MQ.UnsubscribeAllIDs` | kernel/mq.cpp:291-296 | every list is its old sequence with the handler filtered out |
| `MessageQueue.MQ.Post` | kernel/mq.cpp:316-341 | returns 0 iff id and memory allow it; then appends to the queue; otherwise changes nothing |
| `MessageQueue.MQ.Pop` | kernel/mq.cpp:363-371 | takes the first message off and leaves the rest |
| `MessageQueue.MQ.CallAll` | kernel/mq.cpp:374-379 | calls the subscribers as they stood, once each and in order, although handlers subscribe and post meanwhile; terminates |
| `MessageQueue.MQ.Dispatch` | kernel/mq.cpp:374-388 | the calls, then the context freed iff it is the queue's and not null, then the node deleted |
| `MessageQueue.MQ.Loop` | kernel/mq.cpp:356-392 | dispatches exactly max messages, or fewer if at the end none is waiting, and then at least all that were queued; accepted = dispatched ++ queued, and the log is what the deliveries prescribe |
| `TaskRing.PassesTile` | kernel/taskring.cpp:114-126 | the calls of any run are its passes laid end to end, each the list as it stood when the pass began; the last one may be unfinished |
| `TaskRing.FullPass` | kernel/taskring.cpp:114-126 | a task is called in each full pass as often as it is registered when the pass begins |
| `TaskRing.NewcomerIsNotDue` | kernel/taskring.cpp:144-185 | a node registered in mid-pass, between or inside task calls, is not left in that pass |
| `TaskRing.NewcomerWaits` | kernel/taskring.cpp:114-185 | such a node is not called in this pass and is called in the next |
| `TaskRing.RestOfPass` | kernel/taskring.cpp:118-125 | the next Loop calls take the remaining nodes of the pass in order, whatever is registered |
| `TaskRing.AcrossPasses` | kernel/taskring.cpp:118-125 | the end of one pass is followed by the list as it then stands |
| `TaskRing.BoundedWait` | kernel/taskring.cpp:114-185 | a node not left in this pass is first called after exactly (nodes left) + (its index when the next pass begins) other calls |
| `TaskRing.Rotation` | kernel/taskring.cpp:118-125 | without registrations n Loop calls call the n nodes once each, rotated |
| `TaskRing.Scheduler.RegisterTaskHandler` | kernel/taskring.cpp:144-185 | prepends a node iff it is given a task and memory allows; the cursor stays |
| `TaskRing.Scheduler.Loop` | kernel/taskring.cpp:114-126 | one step of the abstract ring: which node is called, and where the cursor goes, whatever is registered meanwhile |
| `OsTimer.OSTimer.constructor` | kernel/ostimer.cpp:28-31 | started now, not frozen |
| `OsTimer.OSTimer.Set` | kernel/ostimer.cpp:59-63 | new timeout, started now |
| `OsTimer.OSTimer.Restart` | kernel/ostimer.cpp:78-81 | started now |
| `OsTimer.OSTimer.IsExpired` | kernel/ostimer.cpp:96-99 | wrapped elapsed time exceeds the timeout |
| `OsTimer.OSTimer.Freeze` | kernel/ostimer.cpp:113-117 | marks the time and `frozen` |
| `OsTimer.OSTimer.Thaw` | kernel/ostimer.cpp:131-134 | moves the start by the wrapped time since Freeze, if ever frozen |
| `OsTimer.RunAgrees` | kernel/ostimer.cpp:59-134 | every bracketed run keeps the timer in agreement with a stopwatch in real time |
| `OsTimer.ElapsedIsActiveTime` | kernel/ostimer.cpp:78-134 | outside brackets the wrapped elapsed time is the unfrozen real time modulo 2^32, over any number of brackets and wraps |
| `OsTimer.ExpiryIsExact` | kernel/ostimer.cpp:96-99 | below 2^32 ms, expired iff active time exceeds the timeout |
| `OsTimer.ThawWithoutFreeze` | kernel/ostimer.cpp:131-134 | a Thaw before any Freeze has no effect |
| `OsTimer.SecondThaw` | kernel/ostimer.cpp:131-134 | after a second Thaw the timer is right iff it comes a multiple of 2^32 ms after the Freeze |
| `ToggleTask.ToggleTask.TaskLoop` | ENDG3051_APP/ToggleTask.cpp:22-29 | on expiry toggles, flips the flag, restarts; otherwise nothing |
| `ToggleTask.TogglesArePaced` | ENDG3051_APP/ToggleTask.cpp:12-29 | the k-th toggle comes at least k * (timeout + 1) ms after construction; states alternate from false |
| `ToggleTask.LargestTimeoutNeverToggles` | kernel/ostimer.cpp:96-99 | with a timeout of 2^32 - 1 no run toggles |
| `ToggleTask.TogglesArePrompt` | ENDG3051_APP/ToggleTask.cpp:22-29 | with polls at most G apart and timeout + G < 2^32, a poll more than timeout ms after the restart calls Toggle, with states alternating from false, and restarts the timer; any other does nothing; none comes later than timeout + G |
| `Kernel.KernelLoop` | kernel/kernel.cpp:15-19 | first two messages, or fewer if then none is waiting; after them one task, which may register, post and subscribe; both invariants and the books are kept |
| `Kernel.PlainCalls` | kernel/taskring.cpp:114-126 | without registrations the i-th Loop call calls the node i places on, cyclically |
| `Kernel.CyclicIsMod` | kernel/taskring.cpp:118-125 | i places on from p in a ring of n is (p + i) mod n |
| `Kernel.CalledOften` | kernel/taskring.cpp:114-126 | without registrations the calls of a task of the ring come first within n and then at most n iterations apart, however often it is registered |
| `Kernel.CalledExactly` | kernel/taskring.cpp:114-126 | exactly n apart if it is registered once |
| `Kernel.TogglesUnderTheKernel` | kernel/kernel.cpp:15-19 | G derived from the ring's own calls: in a ring of n tasks with iterations of at most d ms the task toggles at the first poll more than timeout ms after its restart, at no other, and at most timeout + (n + 1) * d ms after it |
| `Iic.IICWrite` | kernel/iic.cpp:65-110 | result, device and bus events are those of the transfer, for every device |
| `Iic.IICRead` | kernel/iic.cpp:126-174 | likewise; the buffer is the received bytes followed by its old contents |
| `IicProtocol.StatusCodes` | kernel/iic.cpp:76-159 | the statuses taken for success are START with bit 3 set, 0x18, 0x28, 0x40, 0x50 and 0x58, whatever the three low bits of the others |
| `IicProtocol.WriteIsProper` | kernel/iic.cpp:65-110 | for every device, in terms of the status codes: a failed START ends the write (-1); otherwise START, address with bit 0 clear, a prefix of the data, one STOP; 0 iff address and all bytes are acknowledged; a failure (-2) stops at the first byte that was not |
| `IicProtocol.NackEndsWrite` | kernel/iic.cpp:90-102 | a byte answered with 0x20 or 0x30 is the last one sent, and the write returns -2 |
| `IicProtocol.ReadIsProper` | kernel/iic.cpp:126-174 | for every device, in terms of the status codes: the same frame with bit 0 set; the first n - 1 bytes acknowledged and the last not; the device's bytes in order; a failed read leaves the prefix that arrived |
| `IicProtocol.NackEndsRead` | kernel/iic.cpp:142-165 | an address answered with 0x48 ends the read with -2 and nothing received |
| `Eeprom.SendData` | kernel/iic.cpp:84-95 | data bytes within a record never roll over: all acknowledged iff no event fails, then stored in place; else only this record suffers |
| `Eeprom.WriteRecord` | kernel/iic.cpp:65-110 | a whole write transfer: 0 iff no event fails, then exactly those bytes change; else only the record may; an address-only transfer changes no byte and moves the pointer iff it succeeds |
| `Eeprom.ReadRun` | kernel/iic.cpp:126-174 | a read changes no byte, succeeds iff no event fails, and yields the bytes from the pointer on |
| `LogData.WriteRefines` | ENDG3051_APP/LogData.cpp:117-131 | Write updates one page of a map from pages to records: barred iff page >= 2044 without devlock; 0 iff no event fails, then the page is the record; other pages never change |
| `LogResults.WriteResult` | ENDG3051_APP/LogData.cpp:117-143 | 1 exactly for pages from 2044 up without the devlock 312, with nothing sent; otherwise -1 if START fails, 0 if no bus event fails, else -2 |
| `LogResults.ReadResult` | ENDG3051_APP/LogData.cpp:163-180 | the same for ReadPage, counted from after the transfer that sets the address |
| `LogResults.AutoResult` | ENDG3051_APP/LogData.cpp:94-109 | WriteAuto returns what the write of its record returned, and is never refused |
| `LogResults.DeafRead` | ENDG3051_APP/LogData.cpp:176-179 | after two failed STARTs ReadPage returns -1 and prints what its buffer held before |
| `LogResults.LastPageDecides` | ENDG3051_APP/LogData.cpp:149-154 | a range goes on to its last page whatever the earlier ones returned, and returns what the last one returned |
| `LogResults.HighCursor` | ENDG3051_APP/LogData.cpp:98-106 | a cursor that decodes to 2044 or more stands for page 0: the entry goes there, the cursor becomes 1, no other page changes |
| `LogResults.ErasedCursor` | ENDG3051_APP/LogData.cpp:32-35 | the cursor of an erased chip, four bytes 0xFF as signed chars in 16-bit arithmetic, decodes to 11097 |
| `LogData.ReadRefines` | ENDG3051_APP/LogData.cpp:163-180 | ReadPage changes nothing; with 0 it shows the page if its address was set, and otherwise what the pointer was at |
| `LogData.CursorFetchRefines` | ENDG3051_APP/LogData.cpp:21-39 | get_addr changes nothing, and decodes the cursor record if both transfers succeed |
| `LogData.CursorMoveRefines` | ENDG3051_APP/LogData.cpp:47-75 | upd_addr touches only the cursor page; if it succeeds its first four bytes are the next page's digits |
| `LogData.DigitsOf` | ENDG3051_APP/LogData.cpp:64-71 | the digit loop yields the four decimal digits, with truncating division |
| `LogData.Logger.Write` | ENDG3051_APP/LogData.cpp:117-131 | the method over the bus is the function the refinement is about |
| `LogData.Logger.Reset` | ENDG3051_APP/LogData.cpp:84-86 | writes "0000" to page 2044 under the given lock |
| `LogData.Logger.ReadPage` | ENDG3051_APP/LogData.cpp:163-180 | device, result and printed string of one page |
| `LogData.Logger.GetAddr` | ENDG3051_APP/LogData.cpp:21-39 | device and decoded cursor, whatever the buffer held |
| `LogData.Logger.UpdAddr` | ENDG3051_APP/LogData.cpp:47-75 | device after the cursor was moved |
| `LogData.Logger.WriteAuto` | ENDG3051_APP/LogData.cpp:94-109 | fetch, write, and the cursor moved iff the write succeeded |
| `LogData.Logger.ReadAll` | ENDG3051_APP/LogData.cpp:149-154 | pages 0 to 2043 in turn; the result is that of the last |
| `LogData.Logger.ReadFT` | ENDG3051_APP/LogData.cpp:187-202 | refuses or reads the range in turn |
| `LogRuns.PageKept` | ENDG3051_APP/LogData.cpp:117-180 | a page survives any run of calls without an accepted write to it, failed calls included |
| `LogRuns.WriteThenRead` | ENDG3051_APP/LogData.cpp:117-180 | write, any such run, read: the string comes back; exactly when, if the address transfer fails |
| `LogFaults.StaleRead` | ENDG3051_APP/LogData.cpp:176-179 | with only the START of the address transfer failing, ReadPage returns 0 and shows what the pointer was at |
| `LogFaults.ShowsAnotherPage` | ENDG3051_APP/LogData.cpp:176-179 | so a read of page 1 can return 0 and show page 0 |
| `LogFaults.SuchAChip` | ENDG3051_APP/LogData.cpp:176-179 | a chip on which that happens |
| `LogRuns.AllShown` | ENDG3051_APP/LogData.cpp:149-154 | on a chip that does not fail ReadAll prints the strings of all 2044 pages in order |
| `LogRuns.RangeRefusedIff` | ENDG3051_APP/LogData.cpp:188-195 | in 16-bit arithmetic the four guards of ReadFT refuse exactly reversed ranges and those that start at page 2047 modulo 2048 |
| `LogRuns.CursorReachedIff` | ENDG3051_APP/LogData.cpp:133-143 | without the devlock a write can change the cursor iff its page is negative and 2044 modulo 2048 |
| `LogRuns.OrdinaryPagesSpareCursor` | ENDG3051_APP/LogData.h:7-24 | no write to pages 0 to 2043 touches the cursor record at 0xFF80 |
| `LogRuns.CursorRoundTrip` | ENDG3051_APP/LogData.cpp:32-35 | decoding the digits of k gives k |
| `LogRuns.AutoKeeps` | ENDG3051_APP/LogData.cpp:94-109 | one WriteAuto keeps the log: on success one more record and the cursor one on, on failure the same records |
| `LogFaults.LostUpdate` | ENDG3051_APP/LogData.cpp:74-108 | a cursor update whose START fails is not reported, and the cursor still names the page just written |
| `LogFaults.ForgetfulLoses` | ENDG3051_APP/LogData.cpp:74-108 | a chip on which that happens to the first entry |
| `LogFaults.CursorMovesIff` | ENDG3051_APP/LogData.cpp:47-75 | the stored cursor becomes the next page's digits iff no bus event of the update fails: the last digit always changes and is stored last |
| `LogFaults.AutoKeepsIff` | ENDG3051_APP/LogData.cpp:94-109 | with a readable cursor, one WriteAuto keeps the log iff its record fails or its cursor update succeeds |
| `LogFaults.RunKeepsIff` | ENDG3051_APP/LogData.cpp:94-109 | while the cursor can be read, a run keeps the log sound at every point iff every cursor update it makes succeeds |
| `LogFaults.BlindFetch` | ENDG3051_APP/LogData.cpp:30-38 | when both transfers of get_addr fail at START it decodes what its buffer held before |
| `LogFaults.BlindEntry` | ENDG3051_APP/LogData.cpp:94-109 | if that decodes to -4, WriteAuto returns 0, has overwritten the cursor, leaves a cursor of -3, and no page of the log has changed |
| `LogFaults.BlindChip` | ENDG3051_APP/LogData.cpp:30-38 | a chip on which that happens |
| `LogRuns.LogSurvives` | ENDG3051_APP/LogData.cpp:21-131 | after a reset and any run of WriteAuto and ReadPage calls with record writes failing at will: the cursor decodes to successes modulo 2044, each of the latest 2043 entries is on its page, and reads show it |
| `LogRuns.FlawlessLog` | ENDG3051_APP/LogData.cpp:84-109 | on a chip that does not fail, the reset succeeds, what `LogRuns.LogSurvives` asks for holds along every run, and all entries are logged in order |

## Left out

- `DeregisterTaskHandler` and `~Task` have an empty body: there is no behaviour to state.
- The return value of `UnsubscribeAllIDs`: the source has no return statement.
- `EventReceiver`'s destructor, `KernelClass`, singletons, `tasktimers.h`, `ToggleLED`, port registers and serial output other than what `ReadPage` prints.
- `LogTask`: date setting and text formatting.
- Busy-waiting, bit rate and TWI registers: one bus event stands for a command and the status it ends with.
- The allocator: `new` may fail or return any unused address, `delete` is recorded as an event.
- A read of a page without a NUL prints 32 bytes in the model; the source prints on past its buffer.
- Overflow of a 16-bit `int` as a loop counter (`idx` in the I2C transfers, `i` in ReadFT when the range ends at 32767).
- `Interleaving.StepKeeps`: a subscription or an unsubscription is one step, since interrupts never touch the lists; the scan for duplicates is in `MessageQueue.MQ.Subscribe`.
- `MessageQueue.MQ.CallAll`: handlers post and subscribe here; what happens when they unsubscribe others is in `Interleaving`.
- `Kernel.TogglesUnderTheKernel`: the ring has no registrations meanwhile, since each one lengthens the period.
- `LogRuns.LogSurvives`: the cursor's own transfers succeed, because the source ignores their results (`LogFaults.RunKeepsIff` says what happens otherwise); a chip that is busy with a write counts as a failing event.
