# Kernel objects and heaps of the Multifunction_clock firmware

The firmware runs on the RT-Thread 4.0.3 kernel. This project models the parts of that kernel that own memory and
block threads, and proves what they promise over every sequence of calls and every interleaving of threads.

* **Heaps.** `SmallHeap` is the first-fit heap of `mem.c` that the build uses, `MemHeap` the heap of `memheap.c` with
  its separate free list. Both are classes whose methods write block headers the way the C code does. Beside them
  they keep the row of blocks (`Layouts`), a pure value; a method's contract says which row results, and the theory of
  rows says what that means for clients: blocks tile the memory, nothing overlaps, nothing leaks, free neighbours are
  always joined, and who knows the live blocks knows the whole row. `Chains` and `Rings` say how rows and free lists are linked in memory, `Clients` what a client sees
  of a reallocation, `AlignedAlloc`, `Bits` and `Bytes` cover aligned allocation, its masks and the copying routines
  of `kservice.c`.
* **Blocking objects.** `Semaphores`, `Mutexes`, `Events`, `Mailboxes`, `MessageQueues` and `MemPools`. One step of a
  system is one section of code that runs with interrupts disabled, a copy between two such sections, a timeout of a
  parked thread, or the return of a woken one. Each module has the object in memory as a class, a function or a
  system of steps that the class is proved against, an invariant, and a theorem that every run keeps it. `Parking` is
  what they share: threads parked on two wait lists, threads woken but not run since, threads woken with an error, and
  whose turn it is.
  `WaitLists` is the linked list under them, with suspension by arrival or by priority; the semaphore keeps its threads
  on such a list, the other objects on sequences. `Payloads` and `Slots` are the message pool and the chains through it.
* **Formatting.** `Format` and `Numbers` model `rt_vsnprintf` writing into a bounded buffer, against a function that
  gives the whole output. `WholeFormats` says what that output means.

Words have 32 bits and wrap where the C code computes with `rt_size_t`; 16-bit and 8-bit counters are cut explicitly.
Threads' priorities and the argument list of a format are parameters. Bit masks of events are sets of bit numbers.

## What turned out not to hold

Each with an input and with the exact condition.

* `RT_ALIGN` wraps: a request of more than 2^32 - 4 bytes aligns to 0. `rt_malloc` then serves it with 12 bytes and
  `rt_realloc` frees the block (`Words.AlignUpExact`, `SmallHeap.RequestHonoured`). The contracts are stated with the
  wrapped value.
* `rt_malloc` does not find a final block of exactly the size asked for (`SmallHeap.NoFitExact`), so a fresh heap cannot
  hand out all its bytes at once (`SmallHeap.FreshHeapServes`).
* A small heap with 0, 4 or 8 data bytes, which initialisation accepts, makes `rt_malloc` circle for ever on a request
  that passes its size check (`SmallHeap.TinyHeapNeverAnswers`); in all other cases it ends (`SmallHeap.Heap.Malloc`).
* `rt_realloc` to a slightly smaller size takes a new block and can fail (`SmallHeap.Heap.SmallerCanBeRefused`); the
  contract of `SmallHeap.Heap.Realloc` says when.
* `rt_malloc_align` hands out too little when its sum wraps and `rt_malloc` serves the rest
  (`AlignedAlloc.WrappedSumOverruns`); otherwise it keeps its promise (`AlignedAlloc.MallocAlign`).
* The test for growing a `memheap` block in place wraps for the three largest sizes (`MemHeap.GrowGuardFails`). It tells
  the truth on a heap under the condition of `MemHeap.Room`, and is wrong in every other case (`MemHeap.NoRoom`).
* `rt_memheap_init` needs a pool of two headers (`MemHeap.TailItemExact`), and `rt_mp_init` a pool with a block, or it
  writes elsewhere (`MemPools.EmptyPoolFails`, `MemPools.LastLinkExact`).
* A FIFO mutex can pass to a thread that is less urgent than another waiter (`Mutexes.FifoHandOverFails`,
  `Mutexes.HandOverUrgent`).
* `%o` writes hexadecimal digits; they are right below 8 only (`Format.PercentOExact`, `Numbers.OctalExact`).
* With a precision of 0 a number is not written at all and its width is missed (`Format.PointDShowsNothing`,
  `Format.NumberLength`), and a string is written whole (`Format.PointSShowsAll`, `Format.StringPrecisionExact`).
* A formatted output that reaches the top of the address space is written over low addresses (`Format.CursorWraps`).

## Model

| member | source | states |
|---|---|---|
| `Words.AlignUpExact` | rt-thread/include/rtdef.h:300 | RT_ALIGN gives the next multiple of 4 if and only if the word does not wrap |
| `Bits.AlignByMask` | rt-thread/include/rtdef.h:300-309 | the masks of RT_ALIGN and RT_ALIGN_DOWN, bit by bit, are the arithmetic used here |
| `Bits.MaskOff` | rt-thread/src/kservice.c:1257 | for a power of two `x & (a - 1)`, bit by bit, is the remainder |
| `Bits.MaskOut` | rt-thread/src/kservice.c:1263 | for a power of two `x & ~(a - 1)`, bit by bit, takes the remainder away |
| `Layouts.EveryRunIsCoherent` | rt-thread/src/mem.c:272-615 | in every run of takes, releases, shrinks and grows from a fresh heap the blocks tile the memory, spans add up to it, no two free blocks touch, and with nothing live there is one free block again |
| `Layouts.ApplyCoherent` | rt-thread/src/memheap.c:138-595 | one step of either allocator keeps the row tiled and coalesced |
| `Layouts.ReleaseRightThenLeft` | rt-thread/src/mem.c:156-194 | joining the right neighbour and then the left one gives the maximal free run around a released block |
| `Layouts.ReleaseLeftThenRight` | rt-thread/src/memheap.c:541-580 | the other order of joining gives the same run |
| `Layouts.PayloadsDisjoint` | rt-thread/src/mem.c:272-410 | payloads and headers of different blocks of a tiled row never overlap |
| `Layouts.FuseUndoesCut` | rt-thread/src/mem.c:329-348 | joining the two halves of a split block gives the block back |
| `Layouts.NothingLiveMeansFresh` | rt-thread/src/mem.c:156-194 | a tiled, coalesced row without live blocks is the initial one |
| `Layouts.LiveBlocksMakeTheRow` | rt-thread/src/mem.c:156-194 | a tiled, coalesced row is determined by its live blocks: two such rows with the same live blocks are equal, every free block included |
| `Layouts.SpansCoverMemory` | rt-thread/src/mem.c:349-369 | used and free spans together are the whole memory |
| `Layouts.CarveEffect` | rt-thread/src/mem.c:316-370 | serving a request adds one live block, keeps all others, and moves the totals by its span |
| `Layouts.ReleaseEffect` | rt-thread/src/mem.c:596-613 | releasing removes one live block, keeps all others, and moves the totals by its span |
| `Layouts.ShrinkEffect` | rt-thread/src/mem.c:471-503 | shrinking in place changes one live block, keeps all others, and joins the tail with a free successor |
| `Layouts.GrowEffect` | rt-thread/src/memheap.c:350-401 | growing in place changes one live block, keeps all others, and shifts the boundary of the free one behind |
| `Chains.ChainSplice` | rt-thread/src/mem.c:329-348 | a local rewrite of headers keeps every other block's links right in both directions |
| `Chains.FuseWritesChain` | rt-thread/src/mem.c:178-192 | the two writes that absorb a block leave the chain of the fused row |
| `Rings.RingPush` | rt-thread/src/memheap.c:222-225 | four link writes put an item at the front of a circular list, consistent both ways |
| `Rings.RingUnlink` | rt-thread/src/memheap.c:216-217 | two link writes take an item out of a circular list and leave the others in order |
| `Clients.ResizedByMove` | rt-thread/src/mem.c:508-515 | a moved block starts with its old contents, and every other live block keeps place and bytes |
| `Bytes.MemCpy` | rt-thread/src/kservice.c:210-280 | the word-wise fast path and the byte loop copy exactly the range and nothing else |
| `Bytes.MemMove` | rt-thread/src/kservice.c:293-312 | the copy is right for every overlap |
| `SmallHeap.Heap.constructor` | rt-thread/src/mem.c:223-256 | the heap starts as one free block between aligned bounds, however small |
| `SmallHeap.SystemHeapInit` | rt-thread/src/mem.c:204-257 | there is a heap if and only if two headers fit between the aligned bounds |
| `SmallHeap.Heap.Search` | rt-thread/src/mem.c:305-311 | starting at `lfree` finds the lowest block that fits in the whole heap, or there is none below the bound |
| `SmallHeap.NoFitExact` | rt-thread/src/mem.c:305-311 | a search fails if and only if no free block can hold the size except a final one of exactly that size |
| `SmallHeap.FreshHeapServes` | rt-thread/src/mem.c:305-311 | a fresh heap refuses exactly the request for all its bytes |
| `SmallHeap.TinyHeapNeverAnswers` | rt-thread/src/mem.c:291-311 | with 0, 4 or 8 data bytes a request that passes the size check makes the walk go on at the sentinel after any number of steps |
| `SmallHeap.RequestHonoured` | rt-thread/src/mem.c:288-300 | the size looked for is the request rounded up to words and to 12, unless the alignment wraps; then it is 12 |
| `SmallHeap.Heap.AdvanceLowestFree` | rt-thread/src/mem.c:380-387 | the loop that moves `lfree` stops at the lowest free block, or at the end if there is none |
| `SmallHeap.Heap.Malloc` | rt-thread/src/mem.c:272-410 | ends unless the heap is that small; fails exactly when the request is 0, too large or fits nowhere, changing nothing; otherwise hands out the front of the first fit, whole if the rest is too small, as one new live block, and all invariants and totals are kept |
| `SmallHeap.Heap.Obtain` | rt-thread/src/mem.c:272-410 | the client's view: a new live block of the first fit with room for the request and less than 24 bytes more |
| `SmallHeap.Heap.PlugHoles` | rt-thread/src/mem.c:156-194 | coalescing gives the maximal free run and keeps `lfree` the lowest free block |
| `SmallHeap.Heap.Free` | rt-thread/src/mem.c:552-615 | exactly the freed block stops being live, `used_mem` falls by its span, and all invariants are kept |
| `SmallHeap.Heap.ShrinkInPlace` | rt-thread/src/mem.c:471-503 | the block keeps its place with the new size and the tail becomes free and is joined with its successor |
| `SmallHeap.Heap.Move` | rt-thread/src/mem.c:508-515 | fails exactly when `rt_malloc` would, else the block is replaced by a new one with its contents |
| `SmallHeap.Heap.Realloc` | rt-thread/src/mem.c:421-516 | says exactly when it is refused (then nothing changed) and which block results: the same one at exactly the new size, or a first fit; what `used_mem` and the peak `max_mem` are in every case, what bytes survive, and that other live blocks are untouched |
| `SmallHeap.Heap.SmallerCanBeRefused` | rt-thread/src/mem.c:471-515 | a heap of 36 bytes, after serving 28, refuses to make that block 24 bytes |
| `SmallHeap.Heap.EmptyHeapIsFresh` | rt-thread/src/mem.c:156-194 | with nothing live the heap is one free block, `used_mem` is 0 and `lfree` is at the start |
| `SmallHeap.Heap.StatisticsInRange` | rt-thread/src/mem.c:349-369 | `used_mem` is within the heap and no smaller than any used block's span, so its subtractions never wrap |
| `AlignedAlloc.AlignedAddressIs` | rt-thread/src/kservice.c:1257-1264 | the address by the masks of the code is a multiple of the alignment, at most the alignment away, with room for a word before it |
| `AlignedAlloc.MallocAlign` | rt-thread/src/kservice.c:1236-1273 | for every power of two, if the sum of the sizes does not wrap or rt_malloc refuses it: the address is aligned, its bytes and the saved word lie in one new live block that is no larger than these need, only that word is written, and it fails exactly when `rt_malloc` does |
| `AlignedAlloc.WrappedSumOverruns` | rt-thread/src/kservice.c:1250-1269 | otherwise no block that rt_malloc hands out holds the bytes behind the saved word |
| `AlignedAlloc.FreeAlign` | rt-thread/src/kservice.c:1282-1288 | the saved word leads back to the block, which alone is released |
| `MemHeap.Heap.constructor` | rt-thread/src/memheap.c:50-121 | one free block and the used tail, linked in a ring, with one item on the free list |
| `MemHeap.TailItemExact` | rt-thread/src/memheap.c:62-107 | the tail item is in the pool and apart from the first one if and only if the pool has room for two headers |
| `MemHeap.RequestHonoured` | rt-thread/src/memheap.c:147-150 | the size looked for is the request rounded up to words and to 12, unless the alignment wraps; then it is 12 |
| `MemHeap.Heap.Search` | rt-thread/src/memheap.c:169-180 | stops at the first item of the free list that is large enough, or no free block is |
| `MemHeap.Heap.Alloc` | rt-thread/src/memheap.c:138-281 | succeeds exactly when the size is below `available_size` and some free block holds it; then takes the first such item of the free list as one new live block, puts what is left of it at the front of the list, and updates both counters |
| `MemHeap.Heap.TakeFront` | rt-thread/src/memheap.c:188-236 | splitting puts the rest on the free list in place of the block taken |
| `MemHeap.Heap.TakeAll` | rt-thread/src/memheap.c:237-258 | taking a block whole takes it off the free list |
| `MemHeap.Heap.MergeLeft` | rt-thread/src/memheap.c:541-557 | a free predecessor absorbs the block and stays on the free list |
| `MemHeap.Heap.MergeRight` | rt-thread/src/memheap.c:560-578 | a free successor is absorbed and leaves the free list |
| `MemHeap.Heap.Free` | rt-thread/src/memheap.c:495-595 | exactly the freed block stops being live, the block is at the front of the free list unless a free predecessor absorbs it, the other items stay in order, no free neighbours remain and `available_size` is their sum |
| `MemHeap.Heap.GrowInPlace` | rt-thread/src/memheap.c:350-401 | the block grows into the free one behind it and every invariant and counter is kept |
| `MemHeap.Heap.ShrinkInPlace` | rt-thread/src/memheap.c:433-485 | the tail is cut off, joined with a free successor and put on the free list |
| `MemHeap.Heap.Realloc` | rt-thread/src/memheap.c:284-492 | whenever the test of line 350 tells the truth: says exactly when it succeeds and which block results: the same one, cut down when the tail is worth an item or grown to exactly the new size, or one of the first item that holds it; what is available, the free list and the peak `max_used_size`; contents survive, other live blocks are untouched and a refusal changes nothing |
| `MemHeap.GrowGuardExact` | rt-thread/src/memheap.c:350 | the machine's test agrees with the true inequality if and only if the sum does not wrap or the room is no more than the wrapped sum |
| `MemHeap.Room` | rt-thread/src/memheap.c:350 | on a heap the test tells the truth if the sum does not wrap, the next block is used or the room is no more than the wrapped sum; then a block that passes stays in the pool |
| `MemHeap.NoRoom` | rt-thread/src/memheap.c:350 | in every other case the block passes the test and would reach beyond the pool |
| `MemHeap.GrowGuardFails` | rt-thread/src/memheap.c:350 | a heap that served 12 bytes lets the block pass for a size of 2^32 - 4 |
| `MemHeap.Heap.EmptyHeapIsFresh` | rt-thread/src/memheap.c:541-595 | with nothing live the pool is one free block, alone on the free list, and all of it is available |
| `WaitLists.EnqueueSorted` | rt-thread/src/ipc.c:95-121 | suspension by priority is a stable sorted insertion |
| `Kernel.EnqueueInLine` | rt-thread/src/ipc.c:83-129 | a newcomer keeps a list in line: by priority where that counts, and then by time of arrival |
| `WaitLists.InsertAfter` | rt-thread/include/rtservice.h:58-65 | inserts behind a node with both directions consistent |
| `WaitLists.InsertBefore` | rt-thread/include/rtservice.h:73-80 | inserts in front of a node, which before the head is the end |
| `WaitLists.Remove` | rt-thread/include/rtservice.h:86-92 | takes a node out and leaves it linked to itself |
| `WaitLists.IsEmpty` | rt-thread/include/rtservice.h:98-101 | true exactly when the head is alone |
| `WaitLists.Len` | rt-thread/include/rtservice.h:107-118 | counts the nodes behind the head |
| `WaitLists.Suspend` | rt-thread/src/ipc.c:83-129 | the pointer-level walk puts the thread where the sorted or the FIFO insertion says |
| `WaitLists.Resume` | rt-thread/src/ipc.c:140-153 | the first thread leaves the list and is linked to itself |
| `WaitLists.EnqueueIds` | rt-thread/src/ipc.c:83-129 | suspending a node in the linked list suspends its thread in the order of threads |
| `WaitLists.ThreadList.Park` | rt-thread/src/ipc.c:83-129 | a wait list in memory with its threads takes a thread in at its place |
| `WaitLists.ThreadList.Wake` | rt-thread/src/ipc.c:140-153 | its first thread leaves it |
| `WaitLists.ThreadList.WakeAll` | rt-thread/src/ipc.c:163-190 | all of its threads leave it, in order |
| `Parking.ParkRecvKeeps` | rt-thread/src/ipc.c:1684-1735 | parking a thread that finds nothing loses no wakeup |
| `Parking.ParkSendKeeps` | rt-thread/src/ipc.c:2097-2139 | parking a sender that finds no room loses no wakeup |
| `Parking.ParkLines` | rt-thread/src/ipc.c:83-129 | parking a thread keeps both lists in line |
| `Parking.WakeLines` | rt-thread/src/ipc.c:140-153 | a wake-up takes a thread that is ahead of everyone who still waits |
| `Parking.WakeRecvKeeps` | rt-thread/src/ipc.c:140-153 | one more item together with one wake-up loses no wakeup |
| `Parking.WakeSendKeeps` | rt-thread/src/ipc.c:2457-2472 | one more place together with one wake-up loses no wakeup |
| `Parking.RunsKeeps` | rt-thread/src/ipc.c:1740-1757 | a woken thread that runs again accounts for one item less |
| `Parking.ExpiredKeeps` | rt-thread/src/thread.c:858-882 | a timeout takes the thread off its list and loses no wakeup |
| `Parking.AllFailedKeeps` | rt-thread/src/ipc.c:163-190 | resuming all threads with an error leaves no thread in two places |
| `Semaphores.TakeAnswers` | rt-thread/src/ipc.c:330-415 | a take gets a unit exactly when there is one, and otherwise waits exactly when it may |
| `Semaphores.ReleaseAnswers` | rt-thread/src/ipc.c:439-487 | a release wakes the first thread that waits; without one it fails exactly when the count is full, and otherwise undoes a take |
| `Semaphores.StepIsSection` | rt-thread/src/ipc.c:330-487 | the calls of the system are the sections of the object; units are counted and threads placed as their outcomes say, and nothing else touches the value but a reset |
| `Semaphores.StepKeepsInv` | rt-thread/src/ipc.c:330-531 | no step creates or loses a unit, lets a thread wait while there are units, or disorders the list |
| `Semaphores.EveryRunKeepsInv` | rt-thread/src/ipc.c:205-531 | in every run value plus units granted equals base plus releases, every grant is a take that returned RT_EOK or is about to, threads wait only while the value is 0, in line, and every step serves the one whose turn it is |
| `Semaphores.Semaphore.TakeRound` | rt-thread/src/ipc.c:330-415 | on the linked wait list: takes a unit, refuses, or suspends the node at its place, as the section on the sequence of threads says |
| `Semaphores.Semaphore.ReleaseRound` | rt-thread/src/ipc.c:439-487 | on the linked wait list: the unit goes to the first waiting thread, whose node is unlinked, and the value stays; without waiters it is counted, and refused at 0xFFFF |
| `Semaphores.Semaphore.Reset` | rt-thread/src/ipc.c:499-531 | wakes every waiter with an error, in order, and sets the value cut to 16 bits |
| `Mutexes.TakeKeepsValid` | rt-thread/src/ipc.c:670-815 | a take keeps owner, value and hold in step, everyone but the owner at its own priority, and under PRIO the owner at least as urgent as every waiter |
| `Mutexes.ReleaseKeepsValid` | rt-thread/src/ipc.c:826-933 | so does a release, including right after a hand-over |
| `Mutexes.FullOnlyWhenNested` | rt-thread/src/ipc.c:699-917 | the only overflow a caller can see is its own 256th nested take; a release fails exactly for a thread that is not the owner |
| `Mutexes.TakeAnswers` | rt-thread/src/ipc.c:670-815 | a take succeeds at once exactly when nobody else owns the mutex and its count is not full, and otherwise waits exactly when it may |
| `Mutexes.ReleaseUndoesTake` | rt-thread/src/ipc.c:826-933 | a release after a take gives the mutex back as it was, nested or not |
| `Mutexes.WaitLends` | rt-thread/src/ipc.c:749-770 | under any flag a thread that waits leaves the owner at the more urgent of the two priorities |
| `Mutexes.EnqueueByOwn` | rt-thread/src/ipc.c:750-765 | nobody on the list has an inherited priority, so the place found by current priorities is the one by own priorities |
| `Mutexes.HandOverUrgent` | rt-thread/src/ipc.c:877-905 | under any flag the new owner is at least as urgent as the waiters if and only if the head of the list was |
| `Mutexes.FifoHandOverFails` | rt-thread/src/ipc.c:877-905 | a run of two waiting takes and a release after which it is not |
| `Mutexes.StepIsSection` | rt-thread/src/ipc.c:670-933 | the calls of the system are the sections of the object; balances and threads follow their outcomes, and a timeout only takes the thread off its list |
| `Mutexes.EveryRunKeepsInv` | rt-thread/src/ipc.c:546-933 | in every run the above holds, the hold count is the owner's takes that returned RT_EOK less its releases and nobody else has any, the owner runs at its own priority or at that of the most urgent thread that began to wait for it, a blocked take returns RT_EOK only to the owner, and every step serves the thread whose turn it is |
| `Mutexes.MutexObject.TakeRound` | rt-thread/src/ipc.c:670-815 | does what the section says and keeps the invariant; the overflow exit for a free mutex is dead |
| `Mutexes.MutexObject.ReleaseRound` | rt-thread/src/ipc.c:826-933 | does what the section says; both overflow exits are dead |
| `Events.RecvAnswers` | rt-thread/src/ipc.c:1207-1280 | a receive gets its bits exactly when all or any of them are there, exactly those, and otherwise times out exactly when it may not wait |
| `Events.SendHandsOut` | rt-thread/src/ipc.c:1081-1170 | a send hands all bits out along the list: each thread in turn is served exactly when all or any of its bits are left, with those it shares, and one that clears takes them from the threads behind |
| `Events.LeftWaiting` | rt-thread/src/ipc.c:1106-1159 | a thread that waits for all of its bits misses one, and one that waits for any misses every one |
| `Events.WalkSettles` | rt-thread/src/ipc.c:1106-1159 | whatever earlier waiters clear, no thread left on the list is satisfied by the bits that remain |
| `Events.RecvKeepsInv` | rt-thread/src/ipc.c:1214-1280 | a receive that clears bits or waits leaves no thread waiting for what is there |
| `Events.SendConserves` | rt-thread/src/ipc.c:1081-1170 | bits missing after a send went to receivers that clear, and nobody behind such a receiver got them |
| `Events.RecvConserves` | rt-thread/src/ipc.c:1214-1247 | a receive gets bits that were there and wanted, and removes only those it got |
| `Events.VisitLikeRecv` | rt-thread/src/ipc.c:1114-1154 | a parked thread visited by a send gets the same mask and leaves the same set as a receive that finds these bits |
| `Events.StepKeepsInv` | rt-thread/src/ipc.c:1081-1345 | every send, receive, timeout and reset keeps that no thread waits for what is there and that a woken thread finds what it was sent |
| `Events.EveryRunKeepsInv` | rt-thread/src/ipc.c:967-1345 | so does every run |
| `Events.StepIsSection` | rt-thread/src/ipc.c:1081-1345 | the calls of the system are the sections of the object, woken threads have what they were sent, and nothing else touches the bits but a reset |
| `Events.EveryRunLines` | rt-thread/src/ipc.c:1081-1345 | in every run the wait list is in line |
| `Events.EventObject.Send` | rt-thread/src/ipc.c:1081-1170 | the walk along the list is the one that hands out the bits, and its exit for an improper option is dead |
| `Events.EventObject.RecvRound` | rt-thread/src/ipc.c:1207-1280 | receives, refuses or parks as the section says |
| `Events.EventObject.Reset` | rt-thread/src/ipc.c:1317-1345 | wakes every waiter with an error and empties the set |
| `Mailboxes.SendAnswers` | rt-thread/src/ipc.c:1510-1638 | a send stores its mail behind the others exactly when there is room and wakes the first receiver, and otherwise waits exactly when it may |
| `Mailboxes.RecvAnswers` | rt-thread/src/ipc.c:1667-1795 | a receive takes the oldest mail exactly when there is one and wakes the first sender, and otherwise waits exactly when it may |
| `Mailboxes.SendIsSection` | rt-thread/src/ipc.c:1510-1638 | a send call of the system, and a woken sender with the mail it came with, is a section of the object; mails count as accepted and threads are placed as its outcome says |
| `Mailboxes.RecvIsSection` | rt-thread/src/ipc.c:1667-1795 | so is a receive call and a woken receiver |
| `Mailboxes.OtherStepsKeepMails` | rt-thread/src/ipc.c:1807-1839 | a timeout touches no mail, and a reset drops all of them and lets everyone who waits fail |
| `Mailboxes.StepKeepsInv` | rt-thread/src/ipc.c:1510-1839 | no step loses a wakeup, a mail or the order of mails |
| `Mailboxes.EveryRunKeepsInv` | rt-thread/src/ipc.c:1362-1839 | in every run mails accepted are mails received followed by mails stored, and receivers or senders stay parked only if as many were woken as there are mails or free slots |
| `Mailboxes.EveryRunIsQueue` | rt-thread/src/ipc.c:1362-1839 | in every run the mails stored and received are those of a bounded queue that is told the calls alone |
| `Mailboxes.EveryRunLines` | rt-thread/src/ipc.c:1362-1839 | in every run both wait lists are in line and every step serves the thread whose turn it is |
| `Mailboxes.Mailbox.SendRound` | rt-thread/src/ipc.c:1510-1638 | the ring with two offsets is the bounded queue, and the overflow exit is dead |
| `Mailboxes.Mailbox.RecvRound` | rt-thread/src/ipc.c:1667-1795 | gives the oldest mail, refuses or parks as the section says |
| `Mailboxes.Mailbox.Reset` | rt-thread/src/ipc.c:1807-1839 | wakes all waiters of both lists with an error, in order, and empties the ring |
| `Slots.ChainedAppend` | rt-thread/src/ipc.c:2166-2184 | linking behind the tail, or as the first node, extends the list |
| `MessageQueues.LinkKeeps` | rt-thread/src/ipc.c:2173-2184 | linking a held node at either end keeps every node free, queued or held, and only one of these |
| `MessageQueues.TakeFrontStored` | rt-thread/src/ipc.c:2436-2449 | the node a receiver takes holds the front message, and the queue behind it the rest |
| `MessageQueues.DrainedKeeps` | rt-thread/src/ipc.c:2516-2531 | a reset returns every queued node and leaves the held ones to their threads |
| `MessageQueues.WrittenKeeps` | rt-thread/src/ipc.c:2166-2169 | copying into a held node overruns nothing and disturbs no queued or held message |
| `MessageQueues.CopyOutKeeps` | rt-thread/src/ipc.c:2452-2455 | a receiver copies the message that was at the front when it took the node, as much as its buffer holds |
| `MessageQueues.SendIsSection` | rt-thread/src/ipc.c:2086-2164 | the first half of a send call, an urgent call or a woken sender is that section of the object: a message that is too large is refused, and otherwise the thread holds a node with its message, to be linked in front exactly if it is urgent, or waits, as the outcome says |
| `MessageQueues.LinkIsSection` | rt-thread/src/ipc.c:2171-2213 | so is the second half, which puts the message behind the others or, if urgent, in front |
| `MessageQueues.RecvIsSection` | rt-thread/src/ipc.c:2361-2452 | so is the first half of a receive, which gets the front message |
| `MessageQueues.FreeIsSection` | rt-thread/src/ipc.c:2457-2483 | so is its second half, and the sender it wakes |
| `MessageQueues.ResetIsSection` | rt-thread/src/ipc.c:2497-2545 | so is the reset, which lets everyone who waits fail |
| `MessageQueues.ExpireKeepsQueue` | rt-thread/src/thread.c:858-882 | a timeout takes the thread off its list and touches nothing else |
| `MessageQueues.TakeFreeAnswers` | rt-thread/src/ipc.c:2086-2164 | a send gets the first free node exactly when there is one, and otherwise waits exactly when it may |
| `MessageQueues.TakeFrontAnswers` | rt-thread/src/ipc.c:2361-2452 | a receive gets the front node exactly when there is one, and otherwise waits exactly when it may |
| `Payloads.WrittenByCopy` | rt-thread/src/ipc.c:2169 | bytes copied behind the link of a node are the message in that node and leave all others alone |
| `MessageQueues.StepKeepsInv` | rt-thread/src/ipc.c:2056-2545 | every section, copy, timeout and reset keeps nodes, contents and wakeups |
| `MessageQueues.EveryRunKeepsInv` | rt-thread/src/ipc.c:1862-2545 | in every run the nodes are partitioned, the queue holds the messages linked and not yet taken, deliveries are faithful and no wakeup is lost |
| `MessageQueues.EveryRunIsDeque` | rt-thread/src/ipc.c:1862-2545 | in every run the messages queued and delivered are those of a deque that is told the calls alone: sends go to the back, urgent ones to the front, receives take from the front |
| `MessageQueues.EveryRunLines` | rt-thread/src/ipc.c:1862-2545 | in every run both wait lists are in line and every step serves the thread whose turn it is |
| `MessageQueues.MessageQueue.constructor` | rt-thread/src/ipc.c:1862-1912 | all nodes on the free list, last one first, and all of them with their payload inside the pool |
| `MessageQueues.MessageQueue.TakeFreeRound` | rt-thread/src/ipc.c:2086-2164 | pops the free list, refuses or parks |
| `MessageQueues.MessageQueue.CopyIn` | rt-thread/src/ipc.c:2168-2169 | the pool gets the message in the node held, and every other payload stays |
| `MessageQueues.MessageQueue.LinkBackRound` | rt-thread/src/ipc.c:2171-2213 | links at the tail, counts and wakes a receiver; the overflow exit is dead |
| `MessageQueues.MessageQueue.LinkFrontRound` | rt-thread/src/ipc.c:2283-2321 | links at the head, counts and wakes a receiver; the overflow exit is dead |
| `MessageQueues.MessageQueue.TakeFrontRound` | rt-thread/src/ipc.c:2361-2452 | unlinks the head, never a null one, and clears the tail with the last node; refuses or parks on an empty queue |
| `MessageQueues.MessageQueue.CopyOut` | rt-thread/src/ipc.c:2454-2455 | the buffer gets the front of the payload, as much as it and the node hold |
| `MessageQueues.MessageQueue.GiveFreeRound` | rt-thread/src/ipc.c:2457-2483 | pushes the node on the free list and wakes a sender |
| `MessageQueues.MessageQueue.Reset` | rt-thread/src/ipc.c:2497-2545 | wakes all waiters of both lists with an error and moves every queued node to the free list |
| `MemPools.BlocksApart` | rt-thread/src/mempool.c:97-120 | blocks lie inside the pool and apart from each other and each other's headers |
| `MemPools.StepIsSection` | rt-thread/src/mempool.c:303-449 | the calls of the system are the sections of the object; the threads are where their outcomes say, and nothing else touches the blocks |
| `MemPools.AllocAnswers` | rt-thread/src/mempool.c:303-391 | an allocation gets the first free block exactly when there is one, and otherwise waits exactly when it may |
| `MemPools.FreeUndoesAlloc` | rt-thread/src/mempool.c:399-449 | freeing the block just allocated gives the pool back as it was |
| `MemPools.LastParkedFirstWoken` | rt-thread/src/mempool.c:330-449 | the thread that was parked last is the first that a free wakes |
| `MemPools.CountIsMost` | rt-thread/src/mempool.c:104 | the blocks counted fit the pool, and one more would not |
| `MemPools.LastLinkExact` | rt-thread/src/mempool.c:111-119 | the last write of the initialisation stays in the pool if and only if there is a block, or a block so large that the address comes round |
| `MemPools.EmptyPoolFails` | rt-thread/src/mempool.c:118-119 | a pool of 64 bytes for blocks of 100 makes it overwrite the word 104 bytes in front |
| `MemPools.StepKeepsInv` | rt-thread/src/mempool.c:303-449 | every allocation round, free and timeout keeps the partition of blocks and loses no wakeup |
| `MemPools.EveryRunKeepsInv` | rt-thread/src/mempool.c:77-449 | in every run each block is free or live and not both, and allocators stay parked only if as many were woken as blocks are free |
| `MemPools.EveryRunStacks` | rt-thread/src/mempool.c:77-449 | in every run the wait list is ordered by arrival, the last to come in front |
| `MemPools.MemPool.constructor` | rt-thread/src/mempool.c:77-124 | as many blocks as fit are chained in address order, for every pool in which the last write stays |
| `MemPools.MemPool.AllocRound` | rt-thread/src/mempool.c:303-391 | pops the chain and names the pool in the header, refuses, or parks at the front of the list |
| `MemPools.MemPool.Free` | rt-thread/src/mempool.c:399-449 | the header names the pool, the block is pushed on the chain, and a parked allocator is woken |
| `Numbers.DigitsMean` | rt-thread/src/kservice.c:571-588 | the digits written, in decimal or hexadecimal, have the value of the number |
| `Numbers.FewDigits` | rt-thread/src/kservice.c:634-686 | a 32-bit number has at most ten digits, which the scratch array holds |
| `Numbers.OctalIsHexadecimal` | rt-thread/src/kservice.c:571-588 | the digits for base 8 are those for base 16 |
| `Numbers.OctalExact` | rt-thread/src/kservice.c:571-588 | they are octal digits that mean the number if and only if it is below 8 |
| `Numbers.SkipAtoi` | rt-thread/src/kservice.c:591-598 | reads the value of the longest run of digits and stops behind it |
| `Numbers.AtoiFitsExact` | rt-thread/src/kservice.c:591-598 | an int holds every sum on the way if and only if it holds the value and 48 more |
| `Numbers.DecimalRoundTrip` | rt-thread/src/kservice.c:571-598 | a number written in decimal is read back whole |
| `Format.NumberLength` | rt-thread/src/kservice.c:609-778 | a number takes the larger of the width and of sign plus precision or digits if and only if the precision is not 0; with 0 it is short of that by its digits |
| `Format.LeadMakesText` | rt-thread/src/kservice.c:696-775 | the padding counted down in three places makes up one padding on the side the flags say |
| `Format.ToDigits` | rt-thread/src/kservice.c:679-686 | the scratch array gets the digits from the last one on, within its 16 characters |
| `Format.PrintNumber` | rt-thread/src/kservice.c:609-778 | appends the text of the number to the output, storing only what is below the end |
| `Format.PutConversion` | rt-thread/src/kservice.c:888-1028 | appends the text of the conversion and goes on where the format does, with the arguments it used |
| `Format.ParseSpec` | rt-thread/src/kservice.c:823-885 | reads flags, width, precision and qualifier, with arguments for `*` |
| `Format.VSNPrintf` | rt-thread/src/kservice.c:780-1043 | for every format, arguments and size, with the end cut off at the top of the address space and an output that does not reach it: the buffer gets the first characters of the whole output and a null character, no other byte changes, and the result is the length of the whole output as an int |
| `Format.CursorWraps` | rt-thread/src/kservice.c:806-1030 | an output that does reach the top comes round, and characters behind the end pass the test for being in front of it |
| `Format.PrintedIntReadsBack` | rt-thread/src/kservice.c:591-1043 | a non-negative int printed with `%d` is read back by skip_atoi |
| `Format.PercentOExact` | rt-thread/src/kservice.c:971-1028 | what `%o` writes is octal for the number if and only if it is below 8 |
| `Format.PointDShowsNothing` | rt-thread/src/kservice.c:762-768 | `%.d` writes no number but at most its sign |
| `Format.StringPrecisionExact` | rt-thread/src/kservice.c:916-922 | the precision of a string is a maximum if and only if it is not 0 or the string is empty |
| `Format.PointSShowsAll` | rt-thread/src/kservice.c:916-946 | `%.s` writes the whole string |
| `WholeFormats.SpecificationReadsBack` | rt-thread/src/kservice.c:823-885 | every combination of flags in any order, width, precision and qualifier is read as it is written, wherever it stands in a format |
| `WholeFormats.FormatMeansItsPieces` | rt-thread/src/kservice.c:814-1028 | a format of any number of literal texts and conversions writes its pieces one after the other, each conversion with the next argument |
| `WholeFormats.IntegerMeans` | rt-thread/src/kservice.c:970-1028 | every integer conversion with a precision other than 0 writes the value of its argument, as int, unsigned or short, with the sign the flags ask for, in digits of the right table, in a field padded where the flags say |
| `WholeFormats.StringMeans` | rt-thread/src/kservice.c:916-946 | a string conversion writes the string, cut to a positive precision, in a field padded where the flags say |
| `WholeFormats.CharacterMeans` | rt-thread/src/kservice.c:893-914 | a character conversion writes the low byte of its argument in such a field |
| `WholeFormats.PointerMeans` | rt-thread/src/kservice.c:948-963 | `%p` writes the eight hexadecimal digits of a word |
| `WholeFormats.PercentShows` | rt-thread/src/kservice.c:965-1000 | `%%` writes a percent sign, and one in front of a character that is no conversion is copied with it |
| `WholeFormats.StarWidth` | rt-thread/src/kservice.c:838-851 | a width from an argument, of which a negative one also moves the text to the left |
| `WholeFormats.StarPrecision` | rt-thread/src/kservice.c:854-867 | a precision from an argument, of which a negative one is 0 |

## Left out

- SmallHeap.Heap.Malloc: asks that the heap has 12 data bytes or that the request is turned away first, because otherwise the code does not end (`SmallHeap.TinyHeapNeverAnswers`).
- SmallHeap.Heap.Obtain: asks for the same.
- SmallHeap.Heap.Realloc: asks for the same when the pointer is null.
- MemHeap.Heap.Realloc: asks for a block and a size for which the test of line 350 tells the truth, because otherwise the code writes beyond the pool (`MemHeap.NoRoom`); when a block moves, the order of the free list follows from `Alloc` and `Free` and is not stated again.
- MemHeap.Heap.constructor: asks for a pool of two headers, because otherwise its two items overlap or lie outside (`MemHeap.TailItemExact`); leaves out the heap object, its lock and the pool pointers in the items.
- MemPools.MemPool.constructor: asks for a pool in which its last write stays, because otherwise it writes in front of the pool (`MemPools.LastLinkExact`), and for an aligned block size other than 2^32 - 4, for which the code divides by 0.
- AlignedAlloc.MallocAlign: asks that the sum does not wrap or that rt_malloc refuses it, because otherwise the block handed out is too small (`AlignedAlloc.WrappedSumOverruns`).
- Format.VSNPrintf: asks for an output that does not reach the top of the address space (`Format.CursorWraps`); field widths and precisions are unbounded integers, because an int that overflows is undefined in C. `Numbers.AtoiFitsExact` says when the ones written in a format do not.
- Numbers.SkipAtoi: gives the value as an unbounded integer, for the same reason.
- Mutexes.EveryRunKeepsInv: one mutex, with priorities changed by it alone; the saved priority of a thread that holds several mutexes is not modelled.
- Headers and payload bytes are kept apart in the heap models, which rests on `Layouts.PayloadsDisjoint`, and links and payload bytes in the message queue; writes by clients outside their blocks, double frees and wild pointers are excluded.
- Interleavings inside one heap operation: the heaps lock a semaphore around them, and the unlocked reads of `rt_realloc` are taken as part of one step.
- Wait lists of mutexes, events, mailboxes, message queues and pools are sequences; that of the semaphore is linked in memory.
- Scheduling, timers and interrupts: a woken thread runs at some later step, and a parked thread with a timeout may expire at any step.
- Detach and delete of objects, `rt_calloc`, `rt_memory_info`, the memory trace, hooks, debug output and error numbers: only easy members.
- rt_slist, the object registry, the scheduler, devices, the drivers and the clock application.
- `rt_snprintf` and `rt_sprintf`, which pass their arguments on to `rt_vsnprintf`, and `rt_kprintf`, which writes its output to the console.
- Signals and multi-core variants, which the configuration leaves out.
