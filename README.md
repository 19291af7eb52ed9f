# Real-time event system core, modelled in Dafny

This project models the core of a small real-time event system written in C++:

- **The thread-safe queue interface** (`ThreadSafeQueue<T>`). Module `ThreadSafeQueue` describes a queue by
  its observable state, `QueueState`: the pending items, oldest first, and a shutdown flag. It turns the
  documented promise of each pure-virtual method into a contract predicate. The predicate relates the state
  before the call, the call's result and the state after it.
- **The lock-based queue** (`LockBasedQueue<T>`). Module `LockBased` defines one pure step function per
  operation. The class `LockBased.LockBasedQueue` has the fields `buffer: seq<T>` (the `std::queue`) and
  `shutDown: bool`, and its methods update them in place. Each method is proved to follow its step function
  and to meet the interface contract. Lemmas then prove what the queue promises over whole runs of calls:
  - FIFO order;
  - no reordering under any interleaving of calls without `clear`;
  - shutdown is permanent, idempotent and closes the queue to new items;
  - `clear` does not touch the shutdown flag.
- **The fixed-block memory pool** (`MemoryPool`). Module `Blocks` holds the block bookkeeping:
  - a bitmap of blocks in use;
  - the size-to-block rounding;
  - first-fit search for a contiguous free run;
  - the map from the first block of each live allocation to its length in blocks.

  Module `Memory` holds the class `Memory.MemoryPool`. It keeps the bitmap in an `array<bool>` and has:
  - the constructor and its argument check;
  - `Allocate`, with a scanning loop `FindRun`;
  - `Deallocate`;
  - the size and count getters, `IsEmpty` and `IsFull`.

  Its invariant `Valid()` ties these together:
  - the bitmap, the live allocations and the counters agree;
  - live allocations never overlap;
  - used bytes are whole blocks in use, and never exceed the total.
- **The event value** (`Event`). Module `Events` has:
  - the priority and event-type enumerations;
  - the event record, with its deadline sentinel;
  - `isPastDeadline` against an explicit clock reading;
  - `setDeadline`;
  - the priority ordering behind `operator<` and `operator>`.

`Wrappers` supplies `Option` and `Result`.

Where the interface's doc-comments and the lock-based code say different things, the model follows the code:

- `dequeue` is documented as returning none "if queue is shut down". The code keeps handing out pending items
  after shutdown and returns none only once the buffer is empty. The interface contract is therefore stated
  as "none only if shut down, and then nothing changes". Both `DequeueContract` and `LockBased.DequeueAfterShutdown`
  say so.
- `tryDequeue` ignores the shutdown flag. It still takes items from a shut-down queue.

The memory pool header declares its operations but shows no implementation. Where the header's
doc-comments are silent, the model chooses:

- `allocate(0)` fails with `InvalidArgument`.
- `allocate` fails with `OutOfMemory` (`std::bad_alloc`) when no contiguous free run is large enough.
- `deallocate` fails with `InvalidArgument` for any of these:
  - a null handle;
  - a handle that does not start a live allocation, which covers a foreign pointer and a second free;
  - a size whose block rounding differs from the allocation's.

## Model

| member | source | states |
|---|---|---|
| ThreadSafeQueue.Fresh | src/queue/lockbased_queue.h:19 | the state of a new queue has no pending item and is not shut down |
| ThreadSafeQueue.EnqueueContract | include/assessment/queue/thread_safe_queue.h:40-50 | `enqueue` adds the item at the tail, or (only on a shut-down queue) drops it; the shutdown flag is untouched |
| ThreadSafeQueue.DequeueContract | include/assessment/queue/thread_safe_queue.h:52-56 | `dequeue` yields and removes the front item, or yields none only on a shut-down queue, changing nothing |
| ThreadSafeQueue.TryDequeueContract | include/assessment/queue/thread_safe_queue.h:58-63 | `tryDequeue` returns true exactly when the front item was removed and written out; on false the out value and the queue are unchanged (the last part is the lock-based queue's behaviour, which the interface does not document) |
| ThreadSafeQueue.WaitDequeueContract | include/assessment/queue/thread_safe_queue.h:65-70 | `waitDequeue` yields and removes the front item, or yields none only on timeout or shutdown, changing nothing |
| ThreadSafeQueue.EmptyContract | include/assessment/queue/thread_safe_queue.h:72-76 | `empty()` is true exactly when no item is pending |
| ThreadSafeQueue.SizeContract | include/assessment/queue/thread_safe_queue.h:78-82 | `size()` is the number of pending items |
| ThreadSafeQueue.ClearContract | include/assessment/queue/thread_safe_queue.h:84-87 | after `clear()` no item is pending, and the shutdown state is unchanged |
| ThreadSafeQueue.ShutdownContract | include/assessment/queue/thread_safe_queue.h:89-92 | after `shutdown()` the queue is shut down and the pending items are kept |
| ThreadSafeQueue.IsShutDownContract | include/assessment/queue/thread_safe_queue.h:94-98 | `isShutDown()` reports the shutdown flag |
| LockBased.WaitPredicate | src/queue/lockbased_queue.h:46 | the condition both blocking dequeues wait for: shut down, or an item pending |
| LockBased.EnqueueStep | src/queue/lockbased_queue.h:22-42 | a shut-down queue is returned unchanged; a live one gets the item appended |
| LockBased.DequeueStep | src/queue/lockbased_queue.h:44-55 | once the wait is over, an empty buffer gives none and no change; otherwise the front item is returned and removed |
| LockBased.TryDequeueStep | src/queue/lockbased_queue.h:57-66 | an empty buffer gives false, the previous out value and no change; otherwise true, the front item, and the buffer without it |
| LockBased.WaitDequeueStep | src/queue/lockbased_queue.h:68-81 | none and no change when the wait predicate is false (timeout) or the buffer is empty (shutdown); otherwise the front item, removed |
| LockBased.ClearStep | src/queue/lockbased_queue.h:93-97 | the buffer is replaced by an empty one; the flag is kept |
| LockBased.ShutdownStep | src/queue/lockbased_queue.h:99-105 | the flag is raised; the buffer is kept |
| LockBased.EnqueueAll | src/queue/lockbased_queue.h:22-42 | enqueues a sequence of items one call after another |
| LockBased.Drain | src/queue/lockbased_queue.h:44-55 | dequeues until the buffer is empty and collects the items in the order they came out |
| LockBased.Run | src/queue/lockbased_queue.h:22-110 | runs a sequence of calls, recording the items taken out, the items accepted and the final state; a `dequeue` that would block forever ends the run |
| LockBased.LockBasedQueue.constructor | src/queue/lockbased_queue.h:19 | a new queue object is empty and not shut down |
| LockBased.LockBasedQueue.Enqueue | src/queue/lockbased_queue.h:22-42 | appends the item at the tail of a live queue; leaves a shut-down queue unchanged; meets the interface's enqueue contract |
| LockBased.LockBasedQueue.Dequeue | src/queue/lockbased_queue.h:44-55 | once the wait predicate holds, returns and removes exactly the front item; returns none with the state unchanged only on an empty, shut-down queue |
| LockBased.LockBasedQueue.TryDequeue | src/queue/lockbased_queue.h:57-66 | returns false with the out value and the queue unchanged when empty; otherwise returns true, writes the front item and pops it, whatever the shutdown flag |
| LockBased.LockBasedQueue.WaitDequeue | src/queue/lockbased_queue.h:68-81 | times out with none and the buffer untouched when the wait predicate is false; otherwise behaves as `dequeue`; meets the interface's waitDequeue contract |
| LockBased.LockBasedQueue.Empty | src/queue/lockbased_queue.h:83-86 | true exactly when no item is pending |
| LockBased.LockBasedQueue.Size | src/queue/lockbased_queue.h:88-91 | the number of pending items |
| LockBased.LockBasedQueue.Clear | src/queue/lockbased_queue.h:93-97 | empties the buffer and keeps the shutdown flag |
| LockBased.LockBasedQueue.Shutdown | src/queue/lockbased_queue.h:99-105 | raises the flag and keeps the pending items |
| LockBased.LockBasedQueue.IsShutDown | src/queue/lockbased_queue.h:107-110 | reports the shutdown flag |
| LockBased.StepsMeetInterface | include/assessment/queue/thread_safe_queue.h:40-98 | every lock-based step (enqueue, dequeue, tryDequeue, waitDequeue, clear, shutdown) meets the interface's documented contract for that method |
| LockBased.DequeueAfterShutdown | src/queue/lockbased_queue.h:46-50 | `dequeue` yields none exactly on an empty shut-down queue and then changes nothing; on a non-empty queue it yields the front item, shut down or not |
| LockBased.WaitDequeueIsDequeueUnlessTimeout | src/queue/lockbased_queue.h:68-81 | `waitDequeue` is `dequeue` whenever the wait predicate holds; otherwise it times out and leaves the state unchanged |
| LockBased.ShutdownIdempotentClearKeepsFlag | src/queue/lockbased_queue.h:93-105 | shutting down twice is shutting down once; `clear` keeps the flag, including after shutdown |
| LockBased.EnqueueAllAppends | src/queue/lockbased_queue.h:22-31 | a run of enqueues appends all items in order to a live queue, and leaves a shut-down queue as it was |
| LockBased.DrainYieldsBuffer | src/queue/lockbased_queue.h:44-55 | dequeuing until empty yields the pending items, front first |
| LockBased.Fifo | src/queue/lockbased_queue.h:22-55 | items enqueued on a new queue are dequeued in the order they were enqueued |
| LockBased.RunPreservesOrder | src/queue/lockbased_queue.h:22-81 | for any sequence of calls without `clear`, the items taken out followed by those still pending equal the items pending at the start followed by every accepted item |
| LockBased.ShutdownIsPermanent | src/queue/lockbased_queue.h:99-110 | from a shut-down state, any sequence of calls keeps the queue shut down and accepts no item; the items left are a suffix of those pending at the start |
| LockBased.FifoThroughShutdown | src/queue/lockbased_queue.h:22-55 | after enqueuing a and b, shutting down and enqueuing c, three dequeues give a, b, then none |
| Memory.MemoryPool.constructor | include/assessment/memory/memory_pool.h:26-33 | a pool built from positive sizes keeps both sizes, has no live allocation, zero counters and zero used bytes, and is valid |
| Memory.MemoryPool.Create | include/assessment/memory/memory_pool.h:26-33 | fails with `InvalidArgument` exactly when the total size or the block size (default 64) is zero; otherwise yields a fresh, valid, empty pool |
| Memory.MemoryPool.FindRun | include/assessment/memory/memory_pool.h:47-53 | the scan returns the lowest start of a free run of n blocks, or none when there is no such run |
| Memory.MemoryPool.MarkRun | include/assessment/memory/memory_pool.h:47-61 | the bitmap becomes the old bitmap with exactly the given run set to the given flag |
| Memory.MemoryPool.Allocate | include/assessment/memory/memory_pool.h:47-53 | fails exactly for a zero size (`InvalidArgument`) or when no free run covers the request (`OutOfMemory`), changing nothing; otherwise claims the first fitting run, which was free and is now in use, records it, adds its bytes to the used size and counts one allocation |
| Memory.MemoryPool.Claim | include/assessment/memory/memory_pool.h:47-53 | marks a free run in use, records it as live, and updates the used size and the allocation count, keeping the pool valid |
| Memory.MemoryPool.Deallocate | include/assessment/memory/memory_pool.h:55-61 | succeeds exactly for a handle that starts a live allocation, with a size of the same block length; then frees exactly those blocks, forgets the allocation, takes its bytes off the used size and counts one deallocation; otherwise fails with `InvalidArgument` and changes nothing |
| Memory.MemoryPool.Release | include/assessment/memory/memory_pool.h:55-61 | returns the blocks of one live allocation, all of which were in use, to the free set, keeping the pool valid |
| Memory.MemoryPool.GetTotalSize | include/assessment/memory/memory_pool.h:63-67 | the total size is positive |
| Memory.MemoryPool.GetBlockSize | include/assessment/memory/memory_pool.h:69-73 | the block size is positive |
| Memory.MemoryPool.GetAllocationCount | include/assessment/memory/memory_pool.h:75-79 | the allocation count is at least the number of live allocations |
| Memory.MemoryPool.GetDeallocationCount | include/assessment/memory/memory_pool.h:81-85 | deallocations plus live allocations equal allocations |
| Memory.MemoryPool.GetUsedSize | include/assessment/memory/memory_pool.h:87-91 | used bytes are the blocks in use times the block size, and never exceed the total size |
| Memory.MemoryPool.GetAvailableSize | include/assessment/memory/memory_pool.h:93-97 | used bytes plus available bytes equal the total size |
| Memory.MemoryPool.OutstandingAllocations | include/assessment/memory/memory_pool.h:35-39 | the number of allocations never deallocated, which teardown reports as leaks, is the number of live allocations |
| Memory.MemoryPool.IsEmpty | include/assessment/memory/memory_pool.h:99-103 | true exactly when no allocation is live, and exactly when no block is in use |
| Memory.MemoryPool.IsFull | include/assessment/memory/memory_pool.h:105-109 | true exactly when an allocation of every positive size would fail |
| Memory.MemoryPool.UsedWithinTotal | include/assessment/memory/memory_pool.h:87-97 | the used bytes fit in the whole blocks of the pool, which fit in the total size |
| Memory.ClaimKeepsBooks | include/assessment/memory/memory_pool.h:47-53 | claiming a free run keeps the bitmap and the live allocations in agreement, adds one allocation and adds the run's length to the blocks in use |
| Memory.ReleaseKeepsBooks | include/assessment/memory/memory_pool.h:55-61 | releasing a live allocation keeps the bitmap and the live allocations in agreement, removes one allocation and takes its length off the blocks in use |
| Memory.AllocateFreeTwice | include/assessment/memory/memory_pool.h:47-61 | on a new 4096-byte pool, a 100-byte request gets block 0; freeing it succeeds; freeing it again fails with `InvalidArgument`; the pool is then valid and empty with all 4096 bytes available |
| Blocks.RunFree | include/assessment/memory/memory_pool.h:47-53 | a run of blocks lies inside the pool and none of its blocks is in use |
| Blocks.RunUsed | include/assessment/memory/memory_pool.h:55-61 | a run of blocks lies inside the pool and all of its blocks are in use |
| Blocks.Mark | include/assessment/memory/memory_pool.h:47-61 | the bitmap with exactly the blocks of one run set to in use (allocate) or free (deallocate), every other block unchanged |
| Blocks.Tracks | include/assessment/memory/memory_pool.h:13-23 | every live allocation is a non-empty run inside the pool, no two overlap, and a block is in use exactly when a live allocation covers it |
| Blocks.BlocksFor | include/assessment/memory/memory_pool.h:26-33 | the block count for a size is the least whole number of blocks that covers it |
| Blocks.FirstFitFrom | include/assessment/memory/memory_pool.h:47-53 | the lowest start at or after the given block of a free run of n blocks, or none when no such run exists |
| Blocks.FirstFit | include/assessment/memory/memory_pool.h:47-53 | the lowest start of a free run of n blocks; none exactly when no run of n blocks is free |
| Blocks.Count | include/assessment/memory/memory_pool.h:87-91 | the number of blocks in use is at most the number of blocks |
| Blocks.CountAppend | include/assessment/memory/memory_pool.h:87-91 | the blocks in use of two adjacent ranges add up |
| Blocks.CountZero | include/assessment/memory/memory_pool.h:99-103 | no block is counted exactly when no block is in use |
| Blocks.CountFull | include/assessment/memory/memory_pool.h:105-109 | every block is counted exactly when every block is in use |
| Blocks.CountAround | include/assessment/memory/memory_pool.h:87-91 | the count splits into the parts before, inside and after a run |
| Blocks.CountUniform | include/assessment/memory/memory_pool.h:87-91 | a run of equal flags counts all of its blocks, or none of them |
| Blocks.MarkSlices | include/assessment/memory/memory_pool.h:47-61 | marking a run changes only that run, and makes it uniform |
| Blocks.MarkCount | include/assessment/memory/memory_pool.h:87-91 | marking a free run in use adds its length to the count; freeing a run in use takes its length off |
| Blocks.CoveredElsewhere | include/assessment/memory/memory_pool.h:55-61 | outside one allocation's run, a block is covered the same way whether or not that allocation is live |
| Blocks.AllocateDisjoint | include/assessment/memory/memory_pool.h:47-53 | a free run starts no live allocation, and adding it keeps the live allocations disjoint |
| Blocks.AllocateCovered | include/assessment/memory/memory_pool.h:47-53 | after a free run is marked and recorded, a block is in use exactly when a live allocation covers it |
| Blocks.TracksAllocate | include/assessment/memory/memory_pool.h:47-53 | recording a free run as a new allocation keeps the bitmap and the live allocations in agreement, and adds exactly one allocation |
| Blocks.TracksFree | include/assessment/memory/memory_pool.h:55-61 | a live allocation's blocks are all in use; freeing them and forgetting it keeps the bitmap and the live allocations in agreement, and removes exactly one allocation |
| Blocks.TracksEmpty | include/assessment/memory/memory_pool.h:99-103 | there is no live allocation exactly when no block is in use |
| Blocks.NoFitIffFull | include/assessment/memory/memory_pool.h:105-109 | an allocation of every positive size fails exactly when every block is in use |
| Events.Rank | include/assessment/event/event.h:14-19 | each priority has one of four positions |
| Events.PriorityLess | include/assessment/event/event.h:14-19 | one priority is below another when it comes earlier in the declaration LOW, MEDIUM, HIGH, CRITICAL |
| Events.EventLess | include/assessment/event/event.h:118-119 | `lhs < rhs` holds when the priority of `lhs` is below that of `rhs` |
| Events.EventGreater | include/assessment/event/event.h:118-120 | `lhs > rhs` holds when the priority of `lhs` is above that of `rhs` |
| Events.PriorityOrderIsDeclarationOrder | include/assessment/event/event.h:14-19 | the priorities in declaration order LOW, MEDIUM, HIGH, CRITICAL are strictly increasing, and a priority's rank is its position |
| Events.PriorityLessIsStrictTotalOrder | include/assessment/event/event.h:14-19 | priority order is irreflexive, transitive, asymmetric and total |
| Events.Event.Deadline | include/assessment/event/event.h:88-92 | the deadline is none exactly when it is the maximum time point, and otherwise is the stored instant |
| Events.Event.IsPastDeadline | include/assessment/event/event.h:100-107 | past exactly when the event has a deadline and the clock reading is strictly later |
| Events.Event.SetDeadline | include/assessment/event/event.h:94-98 | sets the deadline and changes no other field |
| Events.NewEvent | include/assessment/event/event.h:36-43 | the event keeps the given id, type, priority and payload, is stamped with the clock reading, has no deadline and is never past it |
| Events.EventOrderByPriority | include/assessment/event/event.h:118-120 | `>` mirrors `<`; `<` follows priority rank; events of equal priority are unordered; `<` is transitive and irreflexive |
| Events.NoDeadlineNeverPast | include/assessment/event/event.h:104-105 | an event whose deadline is the maximum time point is never past it, whatever the clock reads |
| Events.SetDeadlineThenPast | include/assessment/event/event.h:98-107 | after setting a real deadline, the event is past it exactly when the clock is strictly later; a deadline equal to now is not past |
| Events.SetDeadlineLastWins | include/assessment/event/event.h:94-98 | setting the deadline twice keeps only the second |

## Left out

- Mutex, `lock_guard`, `condition_variable`, `notify_one` and `notify_all`. Each queue call is modelled as running alone on the current state, so no interleaving inside a call is modelled.
- LockBased.LockBasedQueue.Dequeue: the call that blocks forever (empty and not shut down) is excluded by a precondition. Being woken by another thread is not modelled.
- LockBased.LockBasedQueue.WaitDequeue: the timeout duration and the clock are not modelled. No other thread runs during the wait, so the predicate cannot change. The wait therefore times out exactly when the predicate is false on entry, and no separate timeout input is taken.
- The copy and move overloads of `enqueue` are one method, since the model has no ownership.
- The `size_t` and `uint64_t` widths of sizes, counters and ids are not enforced on results. The counters never wrap in the model.
- Memory.MemoryPool.GetAvailableSize: when the total size is not a multiple of the block size, the `totalSize % blockSize` tail bytes are counted as available although no allocation can ever use them. A 100-byte pool of 64-byte blocks is `IsFull` after one `Allocate(1)` while 36 bytes are still reported available. The header does not say how such a tail is treated.
- Memory.MemoryPool.IsFull: a pool smaller than one block (for example `Create(10)`) is accepted with zero blocks, and is then both `IsEmpty` and `IsFull` while all of its bytes are reported available. The header does not say whether such a pool is rejected.
- Memory.MemoryPool: the arena itself, the pointers into it, block alignment, and the `std::runtime_error` when reserving the arena fails are out. A handle is a block index, and a handle that starts no live allocation stands for a foreign or null pointer.
- Thread safety of the pool and its debug leak report at teardown are out. `OutstandingAllocations` gives the count such a report would print.
- `std::chrono::steady_clock::now()` is a `now` parameter. Time points are signed 64-bit tick counts, and `time_point::max()` is `TimeMax`.
- The bodies of `operator<` and `operator>` are not part of this model. They are modelled as comparing priorities only, with no tie-break between events of equal priority.
- Event getters are the fields of the `Event` datatype. Copy and move semantics need no modelling for a value.
- The GPIO simulator, the event processor, `main.cpp` and the queue factory are not part of this model.
