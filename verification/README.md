# Verified models of sdfirm

A Dafny model of the hardest algorithms of the sdfirm firmware, with machine-checked
proofs of what they keep. `dafny verify dfyconfig.toml` checks everything.

* **Queued spinlock** (`QueuedSpinlock`, `QueuedSpinlockProof`, `SpinlockCalls`, `SpinlockWord`,
  `SpinlockFallback`). Any number of
  CPUs, contexts and locks as a step system: fast path, pending path, MCS queue, trylock
  fallback for deep nesting, unlock. One atomic access is one step, memory is sequentially
  consistent. Contexts of one CPU nest, so only the innermost gives a node back. The 32-bit
  lock word and its byte-wide and word-wide update functions refine the abstract word.
  `arrived` and `granted` are logs that no step reads.
* **SMMUv3 command queue** (`QueuePointers`, `ValidMap`, `CommandQueue`, `CommandQueueInvariant`,
  `CommandQueueProof`, `CommandQueueCalls`, `SplitClear`).
  Pointers are unbounded counters; the wrap-bit arithmetic is proved to refine them. Steps
  of any number of CPUs and of the hardware interleave. Clearing the owned flag is one
  atomic step; `SplitClear` then models the load and the store that the code makes of it.
  Polls have no timeout. A batch has at least one command, as at every call site;
  `EmptyBatchMovesHardwareBack` shows why.
* **LPAE I/O page tables** (`LpaeFormat`, `LpaeWalk`, `LpaeTables`). A memory of table pages
  updated in place, and what the walk translates. One CPU at a time, a coherent walker,
  addresses aligned to the size. Table entries hold the page address without the packing
  that leaves use, so a table page must lie below 2^48 (`TableFieldRoundTrips`).
  On top of them **mapping of ranges** (`PageSizes`, `IommuRanges`): a range of whole pages is cut
  into aligned pieces of supported sizes, and a failed call is rolled back.
* **Boot memory map** (`MemoryRegions`, `RegionTable`, `FreeRanges`, `RangeWalk`,
  `BootMemory`) and **page allocator** (`PageAllocator`, `PageHandover`). Region tables and
  the page list are lists of intervals (`Intervals`) that the numbers they cover determine.
  Each operation is plain set algebra on those numbers. A region is kept as its first address
  and the one past its last; addresses do not wrap. Alignment is done with bit masks (`Bits`).
* **Boundary-tag heap** (`HeapFormat`, `HeapLayout`, `HeapTags`, `HeapBins`, `HeapState`, `Heap`).
  Header words, bins, bitmap, last remainder and top chunk, changed in place by alloc and free.
* **Supporting algorithms**: timer order queue (`TimerQueue`), getopt's block exchange
  (`GetoptExchange`), shift-and-subtract division (`Division`), number printing and parsing
  (`NumberText`, `NumberParse`).

Where the code does not do what is meant, the model keeps the code, and a lemma gives the
exact condition:

* `SplitClear.StoreIsSafeIff`: the owner loads the producer word and stores it back without the
  flag (drivers/iommu/arm_smmuv3.c:711-712). An allocation of another CPU in between is undone,
  and its positions are handed out again (`SplitClear.HandedOutTwice`).
* `Heap.Allocator.Alloc`: for a `CONFIG_HEAP_SIZE` of 64 KiB or more the types of
  include/target/heap.h make the comparisons of kernel/heap_dlmalloc.c:1222 and 1259 unsigned, so
  that chunks smaller than the request pass (`HeapFormat.RestFitsIsExactIff`). `Overruns` says for
  which heaps and requests such a chunk is split; exactly then the heap is destroyed.
  `Heap.LargeBuildOverruns` is a run. With the signed cast that the code makes elsewhere
  (`Build.signed`) every build keeps its heap (`Heap.Replay`).
* `Heap.Allocator.AllocTop`: `NoTop` is the read of a top chunk that was never set
  (kernel/heap_dlmalloc.c:1284); `Heap.UnsetTopIsRead` is a request that causes it.
* `PageHandover.AllFreePages`: `page_alloc_init` does not look whether a region holds a whole page;
  `PageHandover.TinyRangeHandedOver` is a memory map that trips over it.
* `Bits.MaskRoundsIff`: `mem_alloc` rounds with a mask, which is right for every address if and only
  if the alignment is a power of two. With another one it hands out memory that is not aligned
  (`BootMemory.MisalignedAllocation`) or finds none where there is some (`BootMemory.MissedPlace`);
  what it hands out is free memory of the window all the same (`BootMemory.Map.AllocRange`).
* `HeapFormat.PadsWrongIff`: kernel/Kconfig lets the heap have any size, and the size mask needs a
  power of two. The lemma says for every heap size which requests get a chunk too small
  (`HeapFormat.OddHeapPadsWrong` is one), and `HeapFormat.RefusesWrongIff` which are refused.
* `IommuRanges.UnmapRange`: `iommu_unmap` picks the largest supported size that fits, even one that the
  table has no blocks of, and then stops. So does the roll-back of a failed `iommu_map`. The contracts
  say exactly when; `IommuRanges.ThirtyBits` is a table for which it happens.
* `IommuRanges.FailureRestoresIff`: a failed `iommu_map` unmaps what it had mapped, and with it what was
  mapped there before in smaller pages. With an empty range it returns a variable that was never set.
* `TimerQueue.Timers.Schedule`: timeouts from half of `MAX_TIMEOUT` on lose their top bit to
  the armed flag, though `timer_schedule_shot` lets them through; `TimerQueue.LongTimeoutIsMissed`
  is a queue that loses its smallest timeout.
* `QueuedSpinlockProof.SuccessorIsComing`: a head that met a pending bit waits for the context that
  set it, but that one need not queue when its CPU is nested four deep
  (`SpinlockFallback.HeadWaitsForFallback`); below that depth it does (`CommittedExchanges`).
* The `BUG_ON` of kernel/timer.c:302 shifts the outcome of its comparison and so never fires;
  the comparison that was meant never fails either (`TimerQueue.Timers.Recalc`).

## Model

| member | source | states |
|---|---|---|
| `QueuedSpinlockProof.InitHolds` | kernel/spinlock.c:300-533 | The invariant holds when every lock is free and no context is active. |
| `QueuedSpinlockProof.StepPreserves` | kernel/spinlock.c:300-533 | Every step of every context keeps the invariant of all locks, queues and nodes. |
| `QueuedSpinlockProof.RunHasRoles` | kernel/spinlock.c:300-533 | Every state of every run has an owner, a pending context and a queue that explain its lock words. |
| `QueuedSpinlockProof.MutualExclusion` | kernel/spinlock.c:300-533 | At most one context owns a lock and the locked byte is set exactly when one does; the same for the pending bit and the context that answers for it. |
| `QueuedSpinlockProof.TakesOnlyFree` | kernel/spinlock.c:366-514 | A context about to take the lock finds it unlocked, one about to undo the pending bit finds it set, and one that owns the lock finds it locked. |
| `QueuedSpinlockProof.GrantsFollowArrivals` | kernel/spinlock.c:446-522 | Claims by queue heads are granted in the order of the tail exchanges. |
| `QueuedSpinlockProof.WritesReachLiveNodes` | kernel/spinlock.c:446-522 | A link or a hand-over writes only into a node of a live member of the same queue. |
| `QueuedSpinlockProof.SuccessorIsComing` | kernel/spinlock.c:505-519 | A head that waits for its successor has one that is linked, about to link behind it, or committed to the tail exchange of this lock; or a context on this lock, nested four deep or more, has fallen back to spinning. |
| `QueuedSpinlockProof.CommittedExchanges` | kernel/spinlock.c:366-450 | While the queue is not empty, a committed context whose CPU is nested less than four deep comes nearer to its tail exchange with each of its steps and then makes it; no step of another context turns it away. |
| `QueuedSpinlockProof.FallbackIsDeep` | kernel/spinlock.c:397-414 | On every run only contexts with a nesting index of four or more fall back. |
| `SpinlockFallback.HeadWaitsForFallback` | kernel/spinlock.c:354-519 | A run from the initial state after which the head owns the lock and waits for a link, and the one other busy context on the lock has fallen back and never links. |
| `QueuedSpinlockProof.ExchangePreserves` | kernel/spinlock.c:440-447 | The tail exchange puts the context last in the queue and keeps the invariant of the lock. |
| `QueuedSpinlockProof.LinkPreserves` | kernel/spinlock.c:449-456 | A link is written into the node of the direct predecessor in the queue, and keeps the invariant. |
| `QueuedSpinlockProof.ClaimAlonePreserves` | kernel/spinlock.c:505-508 | The compare-and-swap of a head succeeds only when it is alone in the queue; it becomes owner of a lock with an empty queue. |
| `QueuedSpinlockProof.SetLockedPreserves` | kernel/spinlock.c:510-518 | A head that did not win the compare-and-swap becomes owner and stays first in the queue. |
| `QueuedSpinlockProof.PassPreserves` | kernel/spinlock.c:516-519 | The hand-over goes to the second in the queue, which is waiting for it, and makes it the first. |
| `QueuedSpinlockProof.OutsidePreserves` | kernel/spinlock.c:300-432 | Fast path, trylock, pending path and unlock keep the invariant with owner and pending context updated and the queue as it was; what they return with is SpinlockCalls.CallEndsAsOwner. |
| `QueuedSpinlockProof.OtherLocksPreserved` | kernel/spinlock.c:300-533 | A step on one lock keeps the invariant of every other lock. |
| `QueuedSpinlockProof.NodesKept` | kernel/spinlock.c:397-432 | Every step keeps it so that contexts of one CPU use different nodes, below its nesting count, and that a node about to be published is clean. |
| `SpinlockCalls.CallEndsAsOwner` | kernel/spinlock.c:300-533 | On every run a call of qspin_lock comes to its end only as owner, with the locked byte set and no other owner, and the end is the unlock that clears that byte alone. A call of qspin_trylock ends so too, or without the lock when its last access finds the word not free, and then leaves the word alone. |
| `SpinlockCalls.TrylockDecides` | kernel/spinlock.c:300-308 | qspin_trylock does not wait: a word that is not free ends it, and a free one it reads and then takes, whatever other contexts do in between. |
| `SpinlockCalls.CallStays` | kernel/spinlock.c:300-533 | A call stays on its lock until it ends; qspin_lock never takes the accesses that may fail without the lock. |
| `SpinlockWord.TailRoundTrip` | kernel/spinlock.c:158-172 | CPU and nesting index come back from the encoded tail, and no encoded tail is zero. |
| `SpinlockWord.PackRoundTrip` | include/asm-generic/spinlock.h:30-75 | The abstract word comes back from the packed 32-bit word. |
| `SpinlockWord.PackInjective` | include/asm-generic/spinlock.h:30-75 | Different abstract words have different packed words. |
| `SpinlockWord.TestsReadFields` | kernel/spinlock.c:344-505 | The value and mask tests of the slow path hold of the packed word exactly when the meant test holds of the fields. |
| `SpinlockWord.StoreLockedUpdates` | kernel/spinlock.c:295-298 | The store of the locked byte changes only that field. |
| `SpinlockWord.OrPendingUpdates` | kernel/spinlock.c:284-288 | The fetch-or sets only the pending field. |
| `SpinlockWord.ClearPendingAlike` | kernel/spinlock.c:188-240 | The byte store of one build and the and-not of the other both clear the pending field only. |
| `SpinlockWord.StoreTailExchanges` | kernel/spinlock.c:214-223 | The half-word exchange replaces only the tail. |
| `SpinlockWord.CasLoopTurn` | kernel/spinlock.c:256-274 | A turn of the compare-and-swap loop makes the same exchange exactly when the word is the one that was seen, and else changes nothing. |
| `SpinlockWord.TakeAgreesIff` | kernel/spinlock.c:200-254 | The half-word store always turns pending into locked; the addition of the other build does so exactly when pending is set and locked is clear. |
| `SpinlockWord.ReachableFits` | kernel/spinlock.c:300-533 | On every run, with as many CPUs as the tail field can name, every lock word and node fits its packed form. |
| `SpinlockWord.TakeAgreesOnRuns` | kernel/spinlock.c:200-255 | On every run the two builds take a pending lock alike. |
| `QueuePointers.WordFields` | include/driver/arm_smmuv3.h:231-238 | Index and wrap bit of the pointer word are position and lap parity. |
| `QueuePointers.Advance` | drivers/iommu/arm_smmuv3.c:37-70 | Going on by at most a lap either adds to the index and keeps the wrap bit, or takes a lap off the index and flips the bit. |
| `QueuePointers.IncIsExact` | drivers/iommu/arm_smmuv3.c:100-104 | `queue_inc_prod_n` on a pointer word is addition on the unbounded counter, for any amount. |
| `QueuePointers.HasSpaceIsExact` | drivers/iommu/arm_smmuv3.c:37-50 | `queue_has_space` compares the unbounded counters while they are within a lap. |
| `QueuePointers.FullIsExact` | drivers/iommu/arm_smmuv3.c:52-62 | `queue_full` and `queue_empty` are exact within a lap. |
| `QueuePointers.ConsumedIsExact` | drivers/iommu/arm_smmuv3.c:64-70 | `queue_consumed` is exact while consumer and slot are within a lap. |
| `QueuePointers.ConsumedFailsAfterALap` | drivers/iommu/arm_smmuv3.c:64-70 | One more than a lap behind the slot the test says no, and a lap before it the test says yes: both wrong. |
| `QueuePointers.WordsEqualIffPositions` | drivers/iommu/arm_smmuv3.c:671-708 | Two pointer words within two laps are equal exactly when the positions are. |
| `ValidMap.FlipAt` | drivers/iommu/arm_smmuv3.c:443-474 | Flipping a range of positions changes exactly the bits of its slots, around the end of the ring too. |
| `ValidMap.FlipSplits` | drivers/iommu/arm_smmuv3.c:443-474 | Flipping a range is flipping its two parts one after the other. |
| `ValidMap.LimitIsTurnEnd` | drivers/iommu/arm_smmuv3.c:446-456 | The bit limit computed from wrapped pointers ends the turn at the end of the bitmap word or of the range, whichever is first, and a turn makes progress. |
| `ValidMap.TurnInsideRing` | drivers/iommu/arm_smmuv3.c:448-473 | A turn stays in one bitmap word and one lap. |
| `ValidMap.SetValidMap` | drivers/iommu/arm_smmuv3.c:478-482 | The word-at-a-time loop flips exactly the slots of the range, wrapped or not. |
| `ValidMap.PollValidMap` | drivers/iommu/arm_smmuv3.c:485-489 | The poll succeeds exactly when every slot of the range has the polarity of its lap. |
| `ValidMap.MarkedOncePerLap` | drivers/iommu/arm_smmuv3.c:458-463 | A slot that is valid for the last lap is not valid for this one, and one mark makes it so. |
| `CommandQueueProof.InitHolds` | drivers/iommu/arm_smmuv3.c:1054-1070 | The invariant holds of the empty queue. |
| `CommandQueueProof.StepPreserves` | drivers/iommu/arm_smmuv3.c:642-758 | Every step of every CPU that issues at least one command keeps the invariant. |
| `CommandQueueProof.NextPreserves` | drivers/iommu/arm_smmuv3.c:642-758 | Every step of a CPU or of the hardware keeps the invariant. |
| `CommandQueueProof.RunIsGood` | drivers/iommu/arm_smmuv3.c:642-758 | Every state of every run satisfies the invariant. |
| `CommandQueueProof.RangesAreDisjoint` | drivers/iommu/arm_smmuv3.c:654-680 | Batches being inserted have disjoint non-empty ranges below the producer, which is within a lap of the consumer. |
| `CommandQueueProof.NothingLiveIsOverwritten` | drivers/iommu/arm_smmuv3.c:607-624 | Writing an entry never hits the slot of another allocated position that the hardware has not consumed. |
| `CommandQueueProof.TurnsAreTaken` | drivers/iommu/arm_smmuv3.c:698-753 | There is at most one publisher, one gatherer, and one writer of the shared consumer position. |
| `CommandQueueProof.PublishedIsValid` | drivers/iommu/arm_smmuv3.c:705-732 | What the hardware may fetch has been written and marked, and its slot still holds it. |
| `CommandQueueProof.SyncTestIsExact` | drivers/iommu/arm_smmuv3.c:549-605 | While a CPU holds the lock shared for its CMD_SYNC, both completion tests are exact: the wrapped comparison and the message written back. That the call waits for them is CommandQueueCalls.CallReturnsDone. |
| `CommandQueueProof.PointersOnlyAdvance` | drivers/iommu/arm_smmuv3.c:642-758 | No software or hardware pointer moves backwards. |
| `CommandQueueProof.FetchIsIntended` | drivers/iommu/arm_smmuv3.c:705-732 | The next entry the hardware fetches is the one written for that position. |
| `CommandQueueProof.SlotWithinALap` | drivers/iommu/arm_smmuv3.c:692-698 | The shared lock keeps the consumer at or before the slot of a waiter and the producer within a lap of it. |
| `CommandQueueProof.LastReader` | drivers/iommu/arm_smmuv3.c:337-344 | A try-unlock that sees a count of one is by the only sharer, with no other writer, and its update of the consumer is safe to start. |
| `CommandQueueProof.SpaceIsReal` | drivers/iommu/arm_smmuv3.c:657-677 | When the compare-and-swap of an allocation succeeds, the batch fits within a lap of the consumer. |
| `CommandQueueCalls.CallReturnsDone` | drivers/iommu/arm_smmuv3.c:642-758 | On every run a call that returns has put its commands, and the CMD_SYNC behind them if it asked for one, at positions that were free when it began, these and no others, all written and marked. An owner has published them. A call with a CMD_SYNC returns only after the SMMU has consumed all of them. |
| `CommandQueueCalls.CallGoesOn` | drivers/iommu/arm_smmuv3.c:642-758 | At every moment of a call its batch and its CMD_SYNC are what it was called with, it has allocated at most its one range, an owner that hands over has published its own batch, and a CMD_SYNC lets go of the lock only when consumed. |
| `CommandQueueProof.EmptyBatchMovesHardwareBack` | drivers/iommu/arm_smmuv3.c:642-733 | With an empty batch there is a run that moves the hardware producer back. |
| `SplitClear.CalmRunIsAtomic` | drivers/iommu/arm_smmuv3.c:710-712 | A state of a run in which no allocation falls between load and store of a clear is a state of a run with the atomic clear, so all results above hold of it. |
| `SplitClear.StoreIsSafeIff` | drivers/iommu/arm_smmuv3.c:710-712 | After such a run the next store keeps the invariant, does what the atomic clear does, and leaves the producer where it is, each if and only if the producer word has not changed since the load. |
| `SplitClear.OneCpuIsCalm` | drivers/iommu/arm_smmuv3.c:642-758 | With one CPU no allocation ever falls in between. |
| `SplitClear.HandedOutTwice` | drivers/iommu/arm_smmuv3.c:654-712 | With three CPUs there is a run from the initial state after which two of them write to the same position. |
| `SplitClear.StepBusy` | drivers/iommu/arm_smmuv3.c:642-758 | Every allocated position that is not marked belongs to a CPU that is still inserting it. |
| `LpaeFormat.PackingRoundTrips` | drivers/iommu/iommu_armv8.c:151-170 | An address survives its leaf entry exactly when it is aligned and in range. |
| `LpaeFormat.TableFieldRoundTrips` | drivers/iommu/iommu_armv8.c:286-316 | A table page survives its entry exactly when it lies below 2^48. |
| `LpaeWalk.TreeFrame` | drivers/iommu/iommu_armv8.c:605-638 | A subtree depends only on its own pages: tree, pages, walk and leaf sizes. |
| `LpaeWalk.IndexIsBlock` | drivers/iommu/iommu_armv8.c:605-638 | Within a table two addresses share an entry exactly when they share a block. |
| `LpaeWalk.ChildChanged` | drivers/iommu/iommu_armv8.c:318-365 | A change of a range below a table is that change seen from the table. |
| `LpaeWalk.BlockChanged` | drivers/iommu/iommu_armv8.c:259-284 | Writing an entry changes the translation of exactly its block. |
| `LpaeTables.LeafHoldsAddress` | drivers/iommu/iommu_armv8.c:243-257 | A leaf of an aligned address in range gives that address back. |
| `LpaeTables.SplitWalk` | drivers/iommu/iommu_armv8.c:487-542 | The table that replaces a block translates as the block did, except in the hole. |
| `LpaeTables.BlockSplit` | drivers/iommu/iommu_armv8.c:487-542 | Splitting a block changes no translation outside the hole and uses one page of the pool. |
| `LpaeTables.WalkDown` | drivers/iommu/iommu_armv8.c:605-638 | The loop down the levels computes the walk. |
| `LpaeTables.PageTables.constructor` | drivers/iommu/iommu_armv8.c:682-713 | A new table translates nothing. |
| `LpaeTables.AllowedIsSupported` | drivers/iommu/iommu_armv8.c:434 | Of the sizes that are blocks of the table, the mask test lets through exactly the supported ones, for every set of page sizes that is left of those asked for. |
| `LpaeTables.PageTables.FreeTable` | drivers/iommu/iommu_armv8.c:449-478 | Freeing a subtree gives exactly its pages back, none of them twice. |
| `LpaeTables.PageTables.UnmapAt` | drivers/iommu/iommu_armv8.c:544-587 | Unmapping at any level clears exactly the range, or changes no translation. It succeeds if and only if, before the call, the walk reaches a page, a block or a table at the level of the size, or a larger block with enough free pages for the tables it is split into. Where no leaf is larger, the leaves outside keep their sizes. |
| `LpaeTables.PageTables.SplitUnmap` | drivers/iommu/iommu_armv8.c:487-542 | The split unmaps the range and keeps the rest of the block, if and only if there is a page for every level it goes down. |
| `LpaeTables.PageTables.InitPte` | drivers/iommu/iommu_armv8.c:259-284 | A leaf is refused exactly when a leaf at least as large is there; else exactly the block is mapped, and pages of a replaced table go back. |
| `LpaeTables.PageTables.MapAt` | drivers/iommu/iommu_armv8.c:318-365 | Mapping at any level maps exactly the range with one leaf and keeps the sizes of all others, or changes no translation. The result is settled by the state before the call: EEXIST exactly when a leaf at least as large is in the way, ENOMEM exactly when nothing is mapped there and more tables are missing on the walk down to the level of the size than there are free pages, EINVAL for sizes that are no block. No walk outside the range loses a table. |
| `LpaeTables.PageTables.Map` | drivers/iommu/iommu_armv8.c:421-447 | The translation is the old one with the range mapped to consecutive addresses by one leaf, or unchanged, and all other leaves keep their sizes; the result, with each error, is a function of the state before the call (`MapAnswer`); no page is lost. |
| `LpaeTables.PageTables.Unmap` | drivers/iommu/iommu_armv8.c:589-603 | The translation is the old one without the range, or unchanged; which of them, is settled by tables and free pages before the call; no page is lost. |
| `LpaeTables.PageTables.IovaToPhys` | drivers/iommu/iommu_armv8.c:605-638 | The address the walk translates to, or 0. |
| `LpaeTables.PageTables.FreeAll` | drivers/iommu/iommu_armv8.c:480-485 | Every table page is back in the pool, none twice. |
| `PageSizes.PageSizeIsLargest` | kernel/iommu/iommu.c:337-358 | For every bitmap of page sizes: the size chosen is the largest supported one that is no larger than the range and divides the addresses; none is chosen exactly when there is none. |
| `PageSizes.OrMultiple` | kernel/iommu/iommu.c:372 | A power of two divides the merged addresses exactly when it divides both. |
| `IommuRanges.PieceFits` | kernel/iommu/iommu.c:337-358 | For a range of whole pages there always is such a size, so the BUG_ON is never reached, and the page tables' mask test lets it through. |
| `IommuRanges.PieceAligned` | kernel/iommu/iommu.c:371-374 | Every piece is aligned to its size on both sides, as the page tables demand, and the largest that is. |
| `IommuRanges.UnmapRange` | kernel/iommu/iommu.c:437-467 | For every range of whole pages a first part is cleared and nothing else changes; it stops early only at a piece that is no block of the table, at an address that is not mapped, or when a split has no page. A range covered by blocks that lie within it is cleared whole, pages left or not, if and only if no supported size that is no block of the table fits into it. |
| `IommuRanges.MapRange` | kernel/iommu/iommu.c:361-386 | For every range of whole pages: on success exactly the range is mapped, to consecutive addresses; when a piece fails, it is with the error that the tables and free pages it finds settle, and the pieces before it are unmapped again and everything else is as before; all of them are, even with no page left, if and only if no supported size that is no block of the table fits into what they cover. An empty range returns what the result variable happens to hold. What it finds are the tables of before the call with the pieces before it mapped, and all pages not in tables; for a first piece, the state before the call. |
| `IommuRanges.OutOfPages` | kernel/iommu/iommu.c:361-386 | If a piece fails with ENOMEM, nothing was mapped at its address before the call, and its walk lacked more tables, already then, than pages were left. |
| `IommuRanges.NeverOversizedIff` | kernel/iommu/iommu.c:437-467 | That never happens if and only if all supported sizes are blocks of the table. |
| `IommuRanges.HighTables` | drivers/iommu/iommu_armv8.c:702-707 | They are when the table starts at level 1 or above. |
| `IommuRanges.ThirtyBits` | drivers/iommu/iommu_armv8.c:661-707 | They are not for addresses of 30 bits with pages of 4 KiB, 2 MiB and 1 GiB: the whole range cannot be unmapped in one call. |
| `IommuRanges.FailureRestoresIff` | kernel/iommu/iommu.c:383-385 | A failed call that is rolled back leaves the translation as it was if and only if nothing was mapped where its pieces went. |
| `Intervals.CanonicalList` | kernel/page.c:9-43 | Two lists in order and without touching runs that cover the same numbers are the same list. |
| `PageAllocator.InsertedAdds` | kernel/page.c:9-43 | Inserting pages that are not free keeps the list in order and coalesced on both sides, and frees exactly those pages. |
| `PageAllocator.FreeList.Insert` | kernel/page.c:9-43 | The loop with its merges computes the insertion into a list in order, or behind all runs of any list; if the list was in order and the pages not free, it stays in order and grows by exactly them. |
| `PageAllocator.FreeList.Alloc` | kernel/page.c:59-88 | The first run long enough gives its first pages and the list shrinks by exactly them; it fails, changing nothing, exactly when no run is long enough or none was asked for. |
| `PageAllocator.FreeList.Free` | kernel/page.c:90-97 | The list stays in order and grows by exactly the released pages. |
| `PageAllocator.FreeList.AddRegion` | kernel/page.c:108-115 | A list in order stays so and grows by the pages of the region exactly when the region holds a page, or its empty run starts where a run ends. |
| `PageAllocator.FreeUndoesAlloc` | kernel/page.c:59-97 | Releasing what was allocated gives back the very list. |
| `PageAllocator.RunsConserveFrames` | kernel/page.c:9-97 | Over every run of allocations and releases blocks handed out stay disjoint and off the list, and no page is lost or made up. |
| `PageAllocator.AllReturned` | kernel/page.c:9-97 | When every block is back the list is the one there was at the start. |
| `PageAllocator.RegionRunIsInside` | kernel/page.c:108-115 | The pages taken from a region are those that lie wholly inside it. |
| `PageAllocator.InitKeepsListIff` | kernel/page.c:108-115 | Adding a region keeps the list in order if and only if the region holds a page, or its empty run starts where a run ends. |
| `PageAllocator.InitOfTinyRegion` | kernel/page.c:108-115 | A region inside one page puts a run of length -1 on the list. |
| `MemoryRegions.CountIsExact` | kernel/mem.c:565-613 | The counting pass predicts exactly the insertions of the second pass. |
| `MemoryRegions.FillAndMergeIsUnion` | kernel/mem.c:544-617 | Filling the gaps and merging what touches is the union, in regular form. |
| `MemoryRegions.MergedCoalesced` | kernel/mem.c:250-270 | Merging leaves no two regions that touch. |
| `MemoryRegions.TakeOut` | kernel/mem.c:519-529 | Taking the isolated regions out is the difference. |
| `MemoryRegions.RemainsApart` | kernel/mem.c:519-529 | What remains does not touch. |
| `MemoryRegions.RegularUnique` | kernel/mem.c:544-617 | Two tables of the same addresses are the same table. |
| `MemoryRegions.RemoveUndoesAdd` | kernel/mem.c:519-617 | Removing a range that was added to a table without it gives back the very table. |
| `RegionTable.Table.InsertRegion` | kernel/mem.c:272-282 | The region is inserted at its index, count and total follow. |
| `RegionTable.Table.MergeRegions` | kernel/mem.c:250-270 | The loop computes the merge; its BUG_ON is never reached. |
| `RegionTable.Table.CountNew` | kernel/mem.c:565-600 | The first pass counts the pieces. |
| `RegionTable.Table.InsertNew` | kernel/mem.c:565-600 | The second pass inserts them, never past the array. |
| `RegionTable.Table.AddRange` | kernel/mem.c:544-617 | The table covers the union, stays regular, and its total is the sum; it fails exactly when there is no room. |
| `RegionTable.Table.Isolate` | kernel/mem.c:448-501 | At most two cuts leave the covered addresses alone and put the range between two indices. |
| `RegionTable.Table.RemoveRegion` | kernel/mem.c:503-517 | The region is gone; an empty table holds the dummy and a total of zero. |
| `RegionTable.Table.RemoveRange` | kernel/mem.c:519-529 | The table covers the difference and stays regular; it fails exactly when there is no room for two cuts. |
| `FreeRanges.RisingCovers` | kernel/mem.c:97-162 | From any region and gap on, the upward walk yields exactly the free addresses that lie ahead. |
| `FreeRanges.FallingCovers` | kernel/mem.c:164-226 | From any region and gap on, the downward walk yields exactly the free addresses that lie below. |
| `FreeRanges.UpwardWalk` | kernel/mem.c:97-162 | The upward walk yields, in order and without touching, exactly memory minus reserved. |
| `FreeRanges.DownwardWalk` | kernel/mem.c:164-226 | The downward walk yields the same ranges as the upward walk, the last first. |
| `RangeWalk.PackedIndexRoundTrips` | kernel/mem.c:97-226 | The packed indices come back, and only (-1, -1) packs to the end mark. |
| `RangeWalk.NextRange` | kernel/mem.c:97-162 | One call yields the next range and the index after it, or the end mark. |
| `RangeWalk.NextRangeRev` | kernel/mem.c:164-226 | The same downwards; the end mark is returned exactly when nothing is left. |
| `Bits.MaskRoundsIff` | include/target/bitops.h:74-76 | round_down and round_up give the neighbouring multiples of the alignment for every address if and only if the alignment is a power of two. |
| `Bits.MaskMisses` | include/target/bitops.h:74-76 | For every other alignment the next power of two is rounded to something else. |
| `BootMemory.HighestInRange` | kernel/mem.c:302-320 | For a power of two the candidate in one range is its highest aligned place, or there is none. |
| `BootMemory.LowestInRange` | kernel/mem.c:284-300 | For a power of two the candidate in one range is its lowest aligned place, or there is none. |
| `BootMemory.PlacesAreInRanges` | kernel/mem.c:284-320 | The places in free memory are the places in the ranges of the walk. |
| `BootMemory.SpotsAreInRanges` | kernel/mem.c:284-320 | The same without alignment. |
| `BootMemory.SearchDownFinds` | kernel/mem.c:302-320 | For every alignment the search down the ranges ends with a spot in free memory or with 0; for a power of two with the highest aligned place, or with 0 exactly when there is none. |
| `BootMemory.SearchUpFinds` | kernel/mem.c:284-300 | The same upwards, with the lowest. |
| `BootMemory.MisalignedAllocation` | kernel/mem.c:302-364 | With an alignment of 48 an allocation ends at an address that is no multiple of 48. |
| `BootMemory.MissedPlace` | kernel/mem.c:302-364 | With an alignment of 48 an allocation fails though there is an aligned place in free memory. |
| `BootMemory.FindTopDown` | kernel/mem.c:302-320 | What the search down the ranges computes: for every alignment a spot of the window in free memory or 0; for a power of two the highest aligned place of all, 0 exactly when there is none. |
| `BootMemory.FindBottomUp` | kernel/mem.c:284-300 | What the search up the ranges computes: for every alignment a spot of the window in free memory or 0; for a power of two the lowest aligned place of all, 0 exactly when there is none. |
| `BootMemory.FindInRange` | kernel/mem.c:322-364 | With an end of 0 replaced by the limit and the first page kept out: for every alignment a spot of the window in free memory or 0; for a power of two bottom-up the lowest place above the kernel, else the highest in the window, top-down the highest, 0 exactly when the window has no place. |
| `BootMemory.Map.AllocRange` | kernel/mem.c:639-654 | For every alignment: what the search finds, and exactly its addresses become reserved; fails exactly when the table of reserved regions has no room for it. For a power of two the place the search promises, 0 exactly when the window has none in free memory. |
| `BootMemory.Map.Alloc` | kernel/mem.c:656-659 | From the first page to the limit, for every alignment: what the search finds, and exactly its addresses become reserved. For a power of two top-down the highest aligned place in free memory, 0 exactly when there is none. |
| `BootMemory.ResultsNeverOverlap` | kernel/mem.c:639-654 | In a sequence of allocations each of which meets that contract no two results overlap, whatever the alignments. |
| `PageHandover.AllFreePages` | kernel/mem.c:678-691 | For every memory map the pages on the list are exactly those all of whose bytes are memory and not reserved, and the list is in order if and only if every free range holds a whole page. |
| `PageHandover.HandedOverIsPages` | kernel/mem.c:687-690 | Every insertion of the walk comes behind all runs before it, so the list is one run per free range. |
| `PageHandover.PagesInOrderIff` | kernel/page.c:108-115 | The runs of ranges that rise and do not touch are in order if and only if each range holds a page. |
| `PageHandover.FreeAll` | kernel/mem.c:678-691 | The walk hands every free range over; the same of the resulting list, for every memory map. |
| `PageHandover.TinyRangeHandedOver` | kernel/mem.c:678-691 | A gap inside a page between two reservations puts a run of length -1 on the page list. |
| `HeapFormat.PadIsLeast` | kernel/heap_dlmalloc.c:242-246 | A request that is let through gets the least chunk size that holds it. |
| `HeapFormat.RefusedIff` | kernel/heap_dlmalloc.c:1172-1173 | A request is refused if and only if no aligned chunk that holds it and its header fits into the heap. |
| `HeapFormat.RefusesWrongIff` | kernel/heap_dlmalloc.c:231-246 | For every heap size, power of two or not: where the masked size falls below a header all requests above the smallest chunk are refused, room or not; elsewhere exactly those that no chunk in the heap could hold. |
| `HeapFormat.BinsFollowSizes` | kernel/heap_dlmalloc.c:370-383 | Larger chunks never go to lower bins. |
| `HeapFormat.EverySizeHasABin` | kernel/heap_dlmalloc.c:370-400 | Every size up to the heap size has a bin, for every heap size. |
| `HeapFormat.NextExactBin` | kernel/heap_dlmalloc.c:1175-1184 | The bin after that of an exact request exists. |
| `HeapFormat.RestFitsIsExactIff` | kernel/heap_dlmalloc.c:1219-1231 | The test before splitting holds of chunks with a chunk to spare and, in builds of 64 KiB or more as written, of all chunks smaller than the request; it is exact in no other case than below 64 KiB, with the signed cast, or for a chunk that holds the request. |
| `HeapFormat.PadsWrongIff` | kernel/heap_dlmalloc.c:231-246 | For every heap size, power of two or not: a request that is let through gets a chunk too small to hold it if and only if it is within a word of the smallest chunk and the masked size falls below a header. |
| `HeapFormat.OddHeapPadsWrong` | kernel/heap_dlmalloc.c:231-246 | On a heap of 288 bytes the chunk for 23 bytes has room for 22. |
| `HeapFormat.PadByRest` | kernel/heap_dlmalloc.c:231-246 | For a power of two the size mask is the remainder. |
| `HeapTags.TakeWhole` | kernel/heap_dlmalloc.c:1237-1239 | Setting the in-use bit makes one free chunk a block and leaves the layout valid. |
| `HeapTags.SplitFree` | kernel/heap_dlmalloc.c:1260-1267 | The tags of a split make a block at the front and a free chunk of the rest. |
| `HeapTags.SplitTop` | kernel/heap_dlmalloc.c:1288-1293 | A block cut off the top leaves the free chunks as they were. |
| `HeapTags.JoinTop` | kernel/heap_dlmalloc.c:1337-1356 | Chunks below the top join it. |
| `HeapState.ReleasePlan` | kernel/heap_dlmalloc.c:1358-1390 | The tags of a release make one free chunk of the block and its free neighbours, and no two free chunks touch. |
| `HeapState.BlocksAreSeparate` | kernel/heap_dlmalloc.c:220-229 | Blocks handed out are aligned, inside the heap, and the bytes of one are not bytes of another. |
| `HeapState.AllReleased` | kernel/heap_dlmalloc.c:1312-1390 | With no block in use the whole space is the top chunk again. |
| `HeapState.CarvedOverruns` | kernel/heap_dlmalloc.c:1222-1231 | After a chunk smaller than the request is split as the code does it, with what is left taken modulo 2^32, no layout of chunks fits the headers and the last remainder. |
| `HeapBins.Bins.Link` | kernel/heap_dlmalloc.c:1010-1038 | The chunk is in the bin of its size; bins stay sorted, and a bit is set exactly when its bin is not empty. |
| `HeapBins.Bins.Unlink` | kernel/heap_dlmalloc.c:1040-1045 | The chunk is in no bin; bins and bits stay in step. |
| `HeapBins.Bins.FirstIsSmallest` | kernel/heap_dlmalloc.c:1249-1276 | The first that fits in the lowest bin with one that fits is a smallest that fits. |
| `HeapBins.Bins.ExactFirst` | kernel/heap_dlmalloc.c:1175-1191 | The first of an exact bin, or of the next when that is empty, is a smallest that fits. |
| `HeapBins.Bins.ExactIsDirect` | kernel/heap_dlmalloc.c:1175-1191 | An exact request is granted from its bin or the next exactly when there is a binned chunk of its size or 8 bytes more. |
| `HeapBins.Bins.FitIsDirect` | kernel/heap_dlmalloc.c:1192-1214 | Any other request is granted from its bin exactly when the bin has a chunk that holds it with less than a chunk to spare. |
| `HeapBins.Bins.SmallComesFirst` | kernel/heap_dlmalloc.c:1249-1259 | If a bin from idx on holds a chunk that is too small, the first chunk found there is. |
| `HeapBins.Bins.NextBlock` | lib/bitops.c:180-218 | The next bin that is not empty, or the number of bins. |
| `HeapBins.Scan` | kernel/heap_dlmalloc.c:1196-1213 | The first chunk of a bin that passes the test: the first that holds the request, or in a wide build with the unsigned cast the first chunk, whatever its size. |
| `Heap.Allocator.Sbrk` | kernel/heap.c:51-61 | The break moves by the increment or, past the end, not at all. |
| `Heap.Allocator.ExtendTop` | kernel/heap_dlmalloc.c:1050-1112 | A top grows by the request and a header exactly when the break may; the first top is placed, aligned and of that size, exactly when there is room for it with its correction; blocks and free chunks stay. |
| `Heap.Allocator.AllocExact` | kernel/heap_dlmalloc.c:1175-1191 | Grants a smallest binned chunk, exactly when there is one of the size or 8 bytes more; else no chunk that fits is below the bin it returns. |
| `Heap.Allocator.AllocFit` | kernel/heap_dlmalloc.c:1192-1215 | Grants a smallest binned chunk, exactly when the bin has one that is not too big; else the bin it returns is that of the request exactly when it has one that is. |
| `Heap.Allocator.AllocLast` | kernel/heap_dlmalloc.c:1217-1244 | A last remainder that is large enough is granted, whole or split; a smaller one is binned, or in a wide build split past its end, which no layout survives. |
| `Heap.Allocator.AllocBinned` | kernel/heap_dlmalloc.c:1248-1276 | Grants a smallest binned chunk that fits, whole or split, or no free chunk fits; in a wide build with a chunk that is too small from idx on it splits that one past its end. |
| `Heap.Allocator.SlowOverrunsIff` | kernel/heap_dlmalloc.c:1215-1259 | Past the first stage, a chunk that is too small comes to be split exactly under `Overruns`. |
| `Heap.Allocator.AllocTop` | kernel/heap_dlmalloc.c:1278-1293 | NoTop exactly when there is no top and no room for one with its correction; NoMemory exactly when the top does not hold the request with a header and the break cannot move; else a block cut off the top. |
| `Heap.Allocator.Alloc` | kernel/heap_dlmalloc.c:1161-1294 | BUG exactly when no aligned chunk that holds the request and its header fits into the heap; else the chunk asked for holds it. The invariant, or any layout at all, is kept if and only if not `Overruns`; then one free chunk is granted whole or split, a best fit if it was binned, or the top is cut when no free chunk fits; NoMemory and NoTop have their exact conditions. With `Overruns` the block handed out is a free chunk smaller than the request. |
| `Heap.Allocator.Free` | kernel/heap_dlmalloc.c:1312-1390 | The invariant, with no two free chunks touching and none below the top, is kept and exactly that block is gone. |
| `Heap.Replay` | kernel/heap_dlmalloc.c:1161-1390 | Any sequence of requests and releases keeps the invariant, and the blocks in use are those handed out and not given back, if the comparison is signed or the build below 64 KiB; with all of them back the whole space is the top again. |
| `Heap.LargeBuildOverruns` | kernel/heap_dlmalloc.c:1217-1231 | On a new heap of 1 MiB: two blocks of 200 bytes, the first released, 100 bytes, 150 bytes; the last block reaches into the second one, which is in use, and no layout explains the heap. |
| `Heap.UnsetTopIsRead` | kernel/heap_dlmalloc.c:1278-1286 | A request of 240 bytes on a new heap of 256 bytes is let through and reads a top that was never set. |
| `TimerQueue.MakeRoundTripsIff` | kernel/timer.c:10-16 | A time comes back from its timeout exactly when it fits beside the flag bit; else it comes back below zero. |
| `TimerQueue.WithoutKeeps` | kernel/timer.c:72-91 | Deleting a timer keeps all others, in order. |
| `TimerQueue.NoMoreThanNumbers` | kernel/timer.c:93-116 | The queue never holds more timers than there are numbers. |
| `TimerQueue.PassedOrderedIff` | kernel/timer.c:286-305 | From idle timers followed by armed ones in order, whose times may have run below zero, the pass makes a queue in order with times from 1 on, if and only if no difference of time and span leaves its type. |
| `TimerQueue.PassedTime` | kernel/timer.c:291-298 | The time left, at least 1; if the difference leaves its type, exactly the time that wraps around below zero. |
| `TimerQueue.PassedLoose` | kernel/timer.c:286-305 | The pass keeps idle timers first, the same timers armed, and the armed ones in order, whether or not a difference leaves its type. |
| `TimerQueue.OrderedFits` | kernel/timer.c:280-292 | While no armed time is below zero no difference leaves its type. |
| `TimerQueue.FirstArmedIsNext` | kernel/timer.c:286-305 | In every queue the interrupt or a pass may leave the first armed timer has the smallest time. |
| `TimerQueue.Timers.Del` | kernel/timer.c:72-91 | The swaps in place remove the timer and fill up with invalid slots. |
| `TimerQueue.Timers.Add` | kernel/timer.c:93-116 | The timer goes behind the last one that is not later; no BUG_ON is reached. |
| `TimerQueue.Timers.Recalc` | kernel/timer.c:268-306 | Every armed time is what is left after the span; timer_timeout is the smallest in every case; the queue is in order if and only if no difference leaves its type. |
| `TimerQueue.Timers.Schedule` | kernel/timer.c:375-388 | For every timeout that is let through and every queue the interrupt may leave: the timers passed over, and the new one behind one that is not later and before later ones only; the queue is in order if and only if no difference leaves its type and the timeout fits beside the flag; timer_timeout is the smallest if and only if the timeout fits, no other timer is armed, or one of them comes before it after the pass; the next call finds a queue it can work on if and only if the timeout fits, no other timer is idle, or an armed one comes before it. |
| `TimerQueue.LongTimeoutIsMissed` | kernel/timer.c:375-388 | Two timers of 10 and of MAX_TIMEOUT: the second goes first with a time of -1, and timer_timeout misses it. |
| `GetoptExchange.ExchangedIsRotation` | lib/getopt.c:18-65 | The two segments are in the other order, each as it was, everything else in place. |
| `GetoptExchange.ExchangeBack` | lib/getopt.c:18-65 | Exchanging back restores the arguments. |
| `GetoptExchange.SwapLower` | lib/getopt.c:26-41 | Swapping the shorter lower segment leaves the exchange of the rest. |
| `GetoptExchange.SwapUpper` | lib/getopt.c:42-59 | Swapping the upper segment leaves the exchange of the rest. |
| `GetoptExchange.ExchangeSegments` | lib/getopt.c:25-60 | The loop ends and computes the exchange for all segment lengths. |
| `GetoptExchange.Options.Exchange` | lib/getopt.c:18-65 | The arguments are exchanged and the records of the non-options follow. |
| `Division.TurnedOnce` | lib/muldiv.c:77-90 | One turn keeps quotient, remainder and the bits to come; the shifted remainder loses no bit. |
| `Division.DivU` | lib/muldiv.c:71-92 | The quotient for every width; all ones for a divisor of zero. |
| `Division.ModU` | lib/muldiv.c:199-218 | The remainder for every width; 32 ones for a divisor of zero. |
| `Division.Mul16` | lib/muldiv.c:97-123 | The byte products add up to the product. |
| `Division.Mul32` | lib/muldiv.c:128-145 | The half-word products add up to the product. |
| `NumberText.DigitCount` | lib/vsnprintf.c:51-75 | A number below 2^k has at most k digits, so 64 always suffice. |
| `NumberText.DigitsHaveValue` | lib/vsnprintf.c:51-75 | The digits have the value of the number. |
| `NumberText.PutNumber` | lib/vsnprintf.c:51-75 | The digits of the number from the last to the first, at most 64 of them. |
| `NumberText.FormatNumber` | lib/vsnprintf.c:90-168 | What fits of padding, sign, prefix, zeros and digits, and the position after all of it. |
| `NumberText.WidthPads` | lib/vsnprintf.c:142-166 | The text is as long as the larger of the width and what it would be without one; the rest is spaces on the right for LEFT, else zeros behind sign and prefix for ZEROPAD, else spaces on the left. |
| `NumberText.SignShows` | lib/vsnprintf.c:115-130 | A signed number begins with a minus exactly when it is negative, else with a plus or a space exactly when SIGN_PLUS or only SIGN_PLUS_SPACE is set. |
| `NumberText.ContentLength` | lib/vsnprintf.c:115-142 | Without a width there are sign, prefix and the larger of digits and precision, and the prefix is 0, 0x or 0X by base and case. |
| `NumberParse.ScanReads` | lib/string.c:296-316 | The scan reads all digits and comes to their value, or out of range if and only if that is 2^64 or more. |
| `NumberParse.OverflowsIff` | lib/string.c:296-315 | The overflow test of one digit is exact. |
| `NumberParse.ParsedReads` | lib/string.c:258-328 | For every text and base: no digits is EINVAL, digits of 2^64 or more ERANGE with ULLONG_MAX, others their value, negated after a minus; parsing stops behind the digits. Which base that is, NumberParse.NumeralParses says by the text. |
| `NumberParse.NumeralParses` | lib/string.c:258-328 | For every base asked for: white space, sign, hexadecimal mark and digits parse to their value in the base the text means, or to ERANGE if and only if that is out of range; parsing stops behind the digits, whatever follows. |
| `NumberParse.DecimalParses` | lib/string.c:290-291 | With base 0, digits that do not begin with 0 parse to their decimal value or to ERANGE. |
| `NumberParse.OctalParses` | lib/string.c:290-291 | With base 0, digits that begin with 0, without a hexadecimal mark, parse to their octal value or to ERANGE. |
| `NumberParse.HexParses` | lib/string.c:281-289 | With base 0 or 16, digits after 0x or 0X parse to their hexadecimal value or to ERANGE. |
| `NumberParse.FindsNumeralIff` | lib/string.c:258-328 | For every text and base: EINVAL, with value 0 and the end at the start, if and only if the text does not begin with such a numeral. |
| `NumberParse.Strtoull` | lib/string.c:258-328 | The loops compute value, end and errno as the text says, for every text and base: those of NumeralParses for a text that begins with a numeral, EINVAL for all others. |
| `NumberParse.PrintedIsParsed` | lib/vsnprintf.c:90-168 | Printing with any flags, width and precision and parsing in the same base gives every 64-bit number back, and stops where only spaces follow. |

## Left out

- Weak memory ordering, barriers and the architecture's own atomics: every access is one sequentially consistent step.
- Liveness: progress of the spinlock, of the command queue's polls and of their timeouts.
- SMMU probe, reset, stream tables, context descriptors, event queues and invalidation commands.
- LPAE: concurrent map and unmap, the software-sync bit, cache maintenance, TLB invalidation and its gathering, the encoding of permissions (a permission is a plain number), and addresses not aligned to the size, which no call of iommu_map or iommu_unmap produces (IommuRanges.PieceAligned).
- IommuRanges.MapRange: addresses and sizes of whole pages, as its BUG_ON demands; addresses do not wrap at 2^64.
- PageSizes.PageSizeIsLargest: for sizes of 2^63 bytes or more the code shifts a word by its own width; the model does not.
- The array of a region table is changed by `memmove` in one step; `CONFIG_MEM_RESIZE` doubling is not modelled, a table without room is an error result.
- Address arithmetic of memory regions does not wrap at 2^64; a region ends at or below the largest address.
- Page list: the list is a sequence, its head is never taken for a page, and the lock is not modelled.
- Heap.Allocator.Alloc: of the heap sizes that kernel/Kconfig allows (0x100 to 0x20000000) the powers of two; for the others HeapFormat.PadsWrongIff says which requests are padded to a chunk too small, and what becomes of the heap after one is not modelled.
- `heap_realloc`, `heap_trim`, and the bookkeeping that only the heap's own checks read.
- HeapBins.Bins.NextBlock: scans the bitmap bit by bit, not word by word.
- Timer callbacks, interrupts and the hardware timer; what the interrupt leaves in the queue is what Schedule starts from.
- The bitmap of valid commands has words of 64 bits.
- getopt's option parsing around the exchange, and the rest of the format directives, floating point included.
- NumberParse.Strtoull: characters are compared as in ASCII; bytes above 127 are no digits.
