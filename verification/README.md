# Verification of the stateful cores of the operating system

The repository is a small distributed operating system: a Kernel, CPUs, a Memory process and a
FileSystem process that exchange messages.  This project models the code behind those messages
and proves what it keeps, for every input, every request and every run.  Code that updates state
is a class whose methods follow the source's loops and branches and are proved against values
that say what the state means; protocols between threads are transition systems.

| module | what it models | what is proved |
|---|---|---|
| `Wrappers`, `Bytes`, `Folds`, `Lists` | copies, 32-bit numbers in bytes, weighted sums, list searches | shared vocabulary |
| `Ram` | inverted page table, linear probing without tombstones, separate free counter | lookup finds a page if and only if it is mapped; all-or-nothing grants; counter is exact |
| `Cache` | quota cache, per-process lists, LRU | the lists partition the used slots, counts are exact, the victim is the right one, nothing else leaves |
| `FlatMemory`, `Memory`, `StaleReads` | page-spanning reads and writes, write-through | the process refines a plain map from (PID, page) to bytes; isolation over runs |
| `FrameReservation`, `FrameProgress`, `CacheLock` | the two locking protocols, any number of threads | reserved frames exist; a request gets all its pages if and only if it was granted; exclusion; no deadlock |
| `HeapLayout`, `Heap`, `HeapRuns`, `PageNumbers` | in-band headers, first fit, split, coalesce, page release | exact tiling, separation of allocations, one canonical coalesced form, address decoding |
| `FileSystem` | block lists over a bitmap | a file is one array of bytes, gaps keep what their blocks held; block ownership |
| `Scheduler`, `SchedulerRuns`, `Semaphores`, `WorkConservation`, `QueueOrder`, `QuantumRuns`, `Interruption`, `KernelRuns`, `LifeCycle`, `WaiterOrder`, `KernelLosses`, `KernelProcess` | queues, CPUs, semaphores, planners, handlers | conservation of programs, the life of each program, semaphores count waiters and wake them in order, no idle CPU beside a ready program, first come first served |
| `Descriptors` | global open-file list and per-process descriptors | reference counts are exact; only the single holder deletes; files are used as they were opened |
| `Pcb`, `PcbCompare`, `Serialization` | the control block's bytes | round trip for every iteration order, its exact condition, the verdict of the comparison |

## Main results

- Memory: `Memory.MemoryProcess.Read` and `Write` refine a plain map from (PID, page) to bytes, and
  `FlatMemory.RunKeepsReads` isolates the programs over every run; lookups, grants and the cache's
  bookkeeping are exact (`Ram.PageTable.FrameIndexLookup`, `Cache.PageCache.CacheContents`).
- Locks: `FrameReservation.ReservationHolds` and `CacheLock.LockProtocol`, for any number of threads;
  `FrameProgress.ReserveAlone`, `EndAlone` and `FreeAlone` say what comes of each request.
- Heap: `Heap.ProgramHeap.Alloc` and `Free` with `HeapRuns.RunKeepsPayload`; one pass of the
  coalescing gives the one row without free neighbours (`HeapLayout.CoalescedIsCanonical`).
- FileSystem: `FileSystem.BlockStore.SaveData` and `ReadData` on one array of bytes, and
  `FileSystem.ListsDisjoint`.
- Kernel: `LifeCycle.StepFollows` is the life of every program, and by `LifeCycle.OnlyAdmittedRun` none
  that was turned down is ever ready; `WaiterOrder.SignalsInOrder`, `KernelRuns.KernelHolds`, `KernelRuns.SignalledNeverBlocked`, `QueueOrder.RunInOrder` and
  `QuantumRuns.QuantumIsServed` over every run; `KernelProcess` refines the steps.
- Open files: `Descriptors.DescriptorTable.Open`, `Close`, `Delete`, `WriteFile`, `ReadFile` and
  `CloseOpenedFiles`.
- Control block: `Pcb.SameBlockBack` and `PcbCompare.RoundTripVerdict`, both exact.

Six properties do not hold of the code as it stands; each is stated with its exact condition and
with a run or an input for which it fails:

- `ram_free_page` does not drop the page's cache entry.  The memory stays coherent exactly when the
  page was not cached (`Memory.MemoryProcess.FreePage`); `StaleReads.ReadAfterFree` reads the old
  bytes of a page that is not mapped any more.
- A heap page that was handed back stays in the Kernel's list, as the TODO at
  Kernel/src/functions/heap.c:134 says, with a `freeSpace` that looks sufficient.  The next search
  that comes to it makes the Kernel exit: exactly when it stands before the first page with room,
  unless the size leaves no room for a second header in an empty page
  (`Heap.ProgramHeap.Alloc`, `HeapRuns.AllocAfterRelease`).
- A request that leaves less than a header free in a fresh page makes the Kernel exit too, because
  only the search tests that there is room for the second header (`Heap.ProgramHeap.Alloc`,
  `HeapRuns.AllocWithoutSecondHeader`).
- Freeing a block a second time counts its size twice, and hands the page back with live allocations
  in it exactly when the sum then looks like an empty page (`Heap.ProgramHeap.HeapFree`,
  `HeapRuns.FreeTwice`).
- A return position equal to (-1, -1, -1) reads back as a missing one, and comparing the two blocks
  then follows a null pointer; fields of 64 bits are cut to 32 (`Pcb.SameBlockBack`,
  `PcbCompare.RoundTripVerdict`).
- Initialising a program a second time repeats its pages in the table; no index describes it then
  (`Ram.RepeatedPairHasNoIndex`), so the requests keep the refinement exactly as long as a granted
  init does not overlap.

Two more lose something under stated requests only: a negative semaphore value stops being the
number of waiters exactly when a waiter ends or waits again without a signal
(`Semaphores.StepKeepsExactness`, `KernelLosses.WaiterIsLost`), and New can starve exactly when a
running or ready program is taken away without planning again (`WorkConservation.StepServes`,
`KernelLosses.NewIsStarved`).

## Model

| member | source | states |
|---|---|---|
| Ram.IndexInsert | Memory/src/functions/ram.c:49-74 | storing a new pair in a free entry keeps every pair at one position and the free count right |
| Ram.IndexRemove | Memory/src/functions/ram.c:151-164 | clearing an entry removes that pair only, without a tombstone, and frees one frame |
| Ram.RepeatedPairHasNoIndex | Memory/src/functions/ram.c:49-74 | a pair that is in the table must not be inserted again: nothing indexes the table then |
| Ram.PageTable.constructor | Memory/src/functions/ram.c:20-42 | an empty table whose own pages are not handed out; all other frames are free |
| Ram.PageTable.InsertPage | Memory/src/functions/ram.c:49-74 | the first free slot in probe order takes the page, every other entry stays |
| Ram.PageTable.ProbeFree | Memory/src/functions/ram.c:49-74 | sequential probing ends within one lap at the first free entry, for any hash |
| Ram.PageTable.GetPagesForProcess | Memory/src/functions/ram.c:77-106 | all pages are granted or none, decided by the counter alone, which stays exact |
| Ram.PageTable.ProgramInit | Memory/src/functions/ram.c:110-113 | pages 0..count are mapped if and only if the capacity allows; a repeated init is rejected for want of frames or must not overlap |
| Ram.PageTable.ProcessPageMax | Memory/src/functions/ram.c:115-130 | the largest page number of the process, or 0 |
| Ram.PageTable.GetPages | Memory/src/functions/ram.c:132-137 | new pages start past the maximum, so no (PID, page) pair is ever inserted twice |
| Ram.PageTable.ProgramEnd | Memory/src/functions/ram.c:139-169 | exactly the pages of that PID are unmapped and their frames credited |
| Ram.PageTable.FrameIndexLookup | Memory/src/functions/ram.c:171-202 | after any inserts and deletes, the slot is found if and only if the page is mapped |
| Ram.PageTable.FreePage | Memory/src/functions/ram.c:216-234 | one page is unmapped, or -1 if it was not mapped |
| Ram.PageTable.CapacityUsed | Memory/src/functions/ram.c:77-106 | mapped pages plus the counter are the table size |
| Cache.InstallKeeps | Memory/src/functions/cache.c:180-243 | the whole bookkeeping survives handing a slot to a process |
| Cache.SlotInOneList | Memory/src/functions/cache.c:105-124 | every used slot is in exactly one list, once, and it is its owner's |
| Cache.PageCache.constructor | Memory/src/functions/cache.c:35-55 | an empty cache |
| Cache.PageCache.Search | Memory/src/functions/cache.c:87-101 | the first slot with that PID and page; only its access time changes |
| Cache.PageCache.SearchPage | Memory/src/functions/cache.c:87-101 | finds the page if and only if it is cached; then its access time is the present one, and nothing else changes |
| Cache.PageCache.LruProcess | Memory/src/functions/cache.c:105-124 | a slot of the list with the least access time |
| Cache.PageCache.UnusedEntry | Memory/src/functions/cache.c:126-129 | the first unused slot |
| Cache.PageCache.LruAnyProcess | Memory/src/functions/cache.c:131-155 | a used slot with the least access time of all, found through the lists |
| Cache.PageCache.Lru | Memory/src/functions/cache.c:157-177 | own oldest slot when the quota is full, else an unused one, else the oldest of all |
| Cache.PageCache.CacheContents | Memory/src/functions/cache.c:180-243 | the page replaces that victim, with the present time, and nothing else changes; fails only with a quota of 0 |
| Cache.PageCache.ProgramEnd | Memory/src/functions/cache.c:245-273 | exactly that PID's pages leave the cache; the slots of others stay as they are |
| Cache.PageCache.Flush | Memory/src/functions/cache.c:275-294 | nothing is cached afterwards and the bookkeeping is consistent |
| Cache.WhoLeaves | Memory/src/functions/cache.c:157-243 | when a page leaves the cache it gave its slot to the page that was looked for; no other leaves, and one of another process only when every slot is in use and the quota is not full |
| Cache.JustUsed | Memory/src/functions/cache.c:87-243 | the page that was looked for is the most recent one afterwards |
| FlatMemory.WriteIsolated | Memory/src/functions/memory.c:95-155 | a write changes no other process's reads and no read elsewhere, in both directions |
| FlatMemory.ReadAfterWrite | Memory/src/functions/memory.c:31-155 | what was written is what is read back |
| FlatMemory.ReadsIsFunction | Memory/src/functions/memory.c:31-93 | a read has one possible answer |
| FlatMemory.StepKeepsReads | Memory/src/functions/memory.c:25-155 | a request that does not touch a range keeps what is read there |
| FlatMemory.RunKeepsReads | Memory/src/functions/memory.c:25-155 | over any run a process keeps reading its bytes until it overwrites them or ends |
| Memory.MemoryProcess.ReadChunk | Memory/src/functions/memory.c:41-77 | in any state the page answers its cache entry, else its frame, else nothing; a hit and an unmapped page leave the cached pages as they are, a miss puts the page into one victim's slot, and no other cached page changes |
| Memory.MemoryProcess.Read | Memory/src/functions/memory.c:31-93 | coherent memory: the flat bytes across pages, or NULL if and only if a page of the range is unmapped; in any state a read inside a cached page answers what is cached; the cache sees one such look for each page of the range |
| Memory.MemoryProcess.WriteChunk | Memory/src/functions/memory.c:102-139 | the chunk is laid over the page in cache and frame alike after one look for the page, or nothing changes; other cached pages change only by that look |
| Memory.MemoryProcess.Write | Memory/src/functions/memory.c:95-155 | the flat update, or on an error exactly the prefix before the first unmapped page; the cache sees one look and one store for each page written |
| Memory.MemoryProcess.Init | Memory/src/functions/ram.c:110-113 | the plain map's step, coherence kept; a granted init must not repeat pages of the program |
| Memory.MemoryProcess.GetPages | Memory/src/functions/ram.c:132-137 | the plain map's step, coherence kept |
| Memory.MemoryProcess.ProgramEnd | Memory/src/functions/memory.c:25-29 | the process disappears from cache and frames, coherence kept; the cached pages of the others stay |
| Memory.MemoryProcess.Flush | Memory/src/functions/cache.c:275-294 | nothing is cached afterwards, and the plain map does not change |
| Memory.MemoryProcess.FreePage | Memory/src/functions/ram.c:216-234 | coherent afterwards if and only if the page was not cached |
| StaleReads.ReadAfterFree | Memory/src/functions/ram.c:216-234 | from the start: after init, write and free_page of one page the memory is not coherent, and a read answers the old bytes where the plain map has nothing to read |
| FrameReservation.StepKeepsInv | Memory/src/functions/ram.c:49-234 | every lock-level step of every thread keeps the balance |
| FrameReservation.FreeFrameForEveryOwedPage | Memory/src/functions/ram.c:49-106 | past the reservation there is a free frame for each page still owed |
| FrameReservation.ReservationHolds | Memory/src/functions/ram.c:49-234 | both, in every state reachable by any number of threads |
| FrameProgress.ReserveAlone | Memory/src/functions/ram.c:49-106 | from any state the others have left, a request is granted if and only if the counter allows it; a granted one has all its pages in entries that were free within a lap for each, no other entry changes, and a refused one changes nothing |
| FrameProgress.InTableIffGranted | Memory/src/functions/ram.c:77-106 | the pages asked for are in the table afterwards if and only if there were frames for all of them |
| FrameProgress.InsertsAlone | Memory/src/functions/ram.c:49-74 | a thread that still owes pages inserts them all, from any state, within a lap for each |
| FrameProgress.EndAlone | Memory/src/functions/ram.c:139-169 | the end of a program frees exactly its entries and credits each of them, from any state |
| FrameProgress.FreeAlone | Memory/src/functions/ram.c:216-234 | a page given back is freed and credited if it is in the table, and nothing changes otherwise, from any state |
| CacheLock.StepKeepsInv | Memory/src/functions/cache.c:64-85 | every step keeps the account of who holds which lock |
| CacheLock.ReplacerAlone | Memory/src/functions/memory.c:44-77 | no replacer is inside with a searcher or another replacer |
| CacheLock.HeldExactlyWhileCounted | Memory/src/functions/cache.c:64-85 | replaceLock is held for searchers exactly while the count is positive, up to the transition in progress |
| CacheLock.NoDeadlock | Memory/src/functions/cache.c:64-85 | as long as someone is inside, someone inside can move |
| CacheLock.LockProtocol | Memory/src/functions/cache.c:64-85 | exclusion and no deadlock in every reachable state, for any number of threads |
| CacheLock.SearcherEnters | Memory/src/functions/cache.c:64-73 | a searcher gets in by itself, whoever else is searching, unless a replacement is in progress |
| CacheLock.ReplacerEnters | Memory/src/functions/memory.c:60-66 | a replacer gets in by itself when nobody is inside |
| CacheLock.AllSearchTogether | Memory/src/functions/cache.c:64-73 | any number of threads can be searching at the same time |
| HeapLayout.LayoutUnique | Kernel/src/functions/heap.c:63-87 | the bytes of a page determine one row of blocks |
| HeapLayout.LiveDisjoint | Kernel/src/functions/heap.c:138-185 | two allocations share no byte, headers included |
| HeapLayout.PayloadWriteKeepsLayout | Kernel/src/functions/heap.c:63-87 | whatever a program stores in its payload, the headers stand |
| HeapLayout.SplitFacts | Kernel/src/functions/heap.c:138-185 | a split adds exactly one allocation, covers the same bytes and pays one header |
| HeapLayout.ReleaseFacts | Kernel/src/functions/heap.c:187-215 | marking a block free removes exactly that allocation and adds its size to the free space |
| HeapLayout.FreeSpaceRightIffAllocated | Kernel/src/functions/heap.c:198-211 | adding the size to freeSpace is right if and only if the block was allocated, or empty |
| HeapLayout.CoalesceFacts | Kernel/src/functions/heap.c:94-117 | one pass moves no allocation, leaves no two free neighbours and recovers each dropped header |
| HeapLayout.CoalescedIsCanonical | Kernel/src/functions/heap.c:94-117 | a row without free neighbours is determined by its allocations |
| HeapLayout.CoalesceIsConfluent | Kernel/src/functions/heap.c:94-117 | merging any pair by hand first leads to the same row |
| HeapLayout.CoalesceOfCoalesced | Kernel/src/functions/heap.c:94-117 | the pass changes nothing when there is nothing to merge |
| HeapLayout.FullyFree | Kernel/src/functions/heap.c:127-135 | freeSpace says the page is empty if and only if nothing is allocated in it |
| Heap.AddressDecodes | Kernel/src/threads/cpu/handler.c:332-345 | dividing the address gives back the page and the offset of the allocation |
| Heap.ProgramHeap.constructor | Kernel/src/functions/program.c:26-36 | a heap without pages |
| Heap.ProgramHeap.ScanPage | Kernel/src/functions/heap.c:67-83 | finds the first block of the page that fits, if there is one |
| Heap.ProgramHeap.FindSpace | Kernel/src/functions/heap.c:63-87 | the first fitting block of the first page that has one, in list order; stuck if and only if a page that was handed back comes first and is unreadable or still seems to fit |
| Heap.ProgramHeap.DefragPage | Kernel/src/functions/heap.c:94-125 | the page's bytes become the coalesced row, freeSpace its sum, payloads stay |
| Heap.ProgramHeap.HeapDefrag | Kernel/src/functions/heap.c:89-136 | the page is handed back if and only if freeSpace says that it is empty, which is when nothing is allocated in it, as long as freeSpace is right |
| Heap.ProgramHeap.MemoryFreePage | Kernel/src/interface/memory.c:134-172 | a mapped page goes, and its last bytes may stay in Memory's cache; -1 for any other |
| Heap.ProgramHeap.HeapAlloc | Kernel/src/functions/heap.c:138-185 | split then coalesce, payloads kept, page retained; exits if and only if the block does not fit |
| Heap.ProgramHeap.HeapFree | Kernel/src/functions/heap.c:187-215 | an allocated block: that allocation ends, the others keep place and bytes, an empty page is handed back; a free block: freeSpace overcounts |
| Heap.ProgramHeap.MaxPageNum | Kernel/src/functions/heap.c:22-35 | the largest page number the Kernel knows |
| Heap.ProgramHeap.MemoryGetPage | Memory/src/functions/ram.c:132-137 | Memory maps the page after the program's last one |
| Heap.ProgramHeap.HeapNewPage | Kernel/src/functions/heap.c:37-60 | Kernel and Memory agree on the page if and only if every listed page lies below the one Memory assigned |
| Heap.ProgramHeap.Alloc | Kernel/src/interface/memory.c:322-349 | which sizes fail with which code, exactly when the Kernel exits, first fit, separation, and an address that decodes |
| Heap.ProgramHeap.Liberar | Kernel/src/threads/cpu/handler.c:332-345 | the address that an allocation returned is split into its page and offset, and that block is freed |
| Heap.ProgramHeap.Free | Kernel/src/interface/memory.c:351-369 | an allocated block is freed; a block that is free already is counted once more; no block sets the memory error and changes nothing; a page that was handed back makes the Kernel exit |
| Heap.ProgramHeap.StuckMeans | Kernel/src/functions/heap.c:66-83 | unless the size leaves no room for a second header, the search is stuck if and only if a page that was handed back stands before the first page with room |
| HeapRuns.AllocAfterRelease | Kernel/src/functions/heap.c:127-135 | allocating, freeing and allocating again makes the Kernel exit, for every page size and whatever Memory still caches |
| HeapRuns.AllocWithoutSecondHeader | Kernel/src/functions/heap.c:154-171 | such a size makes the Kernel exit at the first request |
| HeapRuns.FreeTwice | Kernel/src/functions/heap.c:187-215 | a run in which a second free hands a page back while an allocation is live in it |
| PageNumbers.SameMaximum | Memory/src/functions/ram.c:115-130 | for a program that has page 0, Memory's maximum is its largest page |
| PageNumbers.GrantedPageIsNext | Memory/src/functions/ram.c:132-137 | a granted page of `get_pages` is the one after the program's last and its only new one, as the heap takes it to be |
| HeapRuns.StepKeepsPayload | Kernel/src/interface/memory.c:322-369 | a request about another allocation keeps this one's place and bytes |
| HeapRuns.RunKeepsPayload | Kernel/src/interface/memory.c:322-369 | so does any run of such requests and stores |
| HeapRuns.StoreKeepsLayout | Kernel/src/functions/heap.c:63-87 | a store into a payload is a step that keeps the layout |
| HeapRuns.AllocationsApart | Kernel/src/functions/heap.c:138-185 | allocations of any state share no byte and lie inside the page |
| FileSystem.ListsDisjoint | FileSystem/src/functions/operaciones.c:244-248 | no block is in two lists or twice in one, and every listed block is marked |
| FileSystem.FileGrows | FileSystem/src/functions/operaciones.c:244-248 | taking free blocks for one file keeps ownership |
| FileSystem.FileGoes | FileSystem/src/functions/operaciones.c:62-80 | clearing the bits of one file keeps the ownership of the others |
| FileSystem.ContentOverlaid | FileSystem/src/functions/operaciones.c:175-341 | the blocks written, the file is its old content with the buffer over it, and a gap has what its blocks held |
| FileSystem.CountStaysRight | FileSystem/src/functions/operaciones.c:204-212 | the block count stays max(1, ceil(size / B)) |
| FileSystem.BlockStore.constructor | FileSystem/src/functions/bitmap.c:15-25 | an empty store with a clear bitmap |
| FileSystem.BlockStore.FindFreeBlock | FileSystem/src/functions/bitmap.c:15-25 | the first clear bit, or -1 if there is none |
| FileSystem.BlockStore.HasFreeBlocks | FileSystem/src/functions/bitmap.c:27-47 | yes if and only if that many bits are clear and some were asked for |
| FileSystem.BlockStore.TakeBlocks | FileSystem/src/functions/operaciones.c:214-248 | after the check, the allocations get that many distinct free blocks, the lowest first |
| FileSystem.BlockStore.ClearBlocks | FileSystem/src/functions/bitmap.c:53-56 | exactly the listed bits are cleared |
| FileSystem.BlockStore.Delete | FileSystem/src/functions/operaciones.c:62-80 | exactly that file's bits are cleared; other files keep their bytes |
| FileSystem.BlockStore.Create | FileSystem/src/functions/operaciones.c:30-59 | an empty file with the lowest free block, or an error; a failed attempt may leave its block marked |
| FileSystem.BlockStore.WriteBlocks | FileSystem/src/functions/operaciones.c:251-323 | the loop lays the whole buffer over the row of blocks |
| FileSystem.BlockStore.SaveData | FileSystem/src/functions/operaciones.c:175-341 | overlays the buffer, keeps every other byte, leaves in a gap what the blocks held, grows the size to max with the lowest free blocks, writes no other block, or changes nothing, with the exact errors |
| FileSystem.BlockStore.ReadData | FileSystem/src/functions/operaciones.c:83-172 | exactly the slice of the file, clipped at its size, with the exact errors |
| FileSystem.BlockStore.ReadBlocks | FileSystem/src/functions/operaciones.c:126-162 | the loop collects the bytes of the row of blocks |
| Lists.Find | Kernel/src/functions/program.c:316-331 | the first element that satisfies the test |
| SchedulerRuns.AdmitConserves | Kernel/src/planner/ltp.c:19-51 | admission moves each program to Ready or Finished, losing none |
| SchedulerRuns.PlanIdleConserves | Kernel/src/functions/cpu.c:81-94 | filling the idle CPUs loses and duplicates nobody |
| SchedulerRuns.StepConserves | Kernel/src/threads/cpu/select.c:28-123 | after every request every accepted program is in exactly one of New, Ready, Blocked, Finished or one CPU |
| SchedulerRuns.AdmitPlans | Kernel/src/planner/ltp.c:19-51 | admission changes nobody's waiting flag and keeps Blocked |
| SchedulerRuns.PlanIdlePlans | Kernel/src/functions/cpu.c:81-94 | neither does filling CPUs; a CPU keeps its program or gets one that waits for nothing |
| Semaphores.ReleasedWaits | Kernel/src/functions/program.c:388-436 | somebody is released if and only if somebody waits, and it is a waiter of that semaphore |
| Semaphores.UnblockWaiting | Kernel/src/functions/program.c:388-436 | exactly the released program stops waiting |
| Semaphores.InterruptedWaiting | Kernel/src/functions/program.c:292-386 | an interruption removes at most the blocked program it finds |
| Semaphores.StepWaiting | Kernel/src/threads/cpu/handler.c:35-308 | for every request, the exact new set of waiters and the exact new values; Blocked holds only waiting programs, New and Ready the others |
| Semaphores.WaitersCounted | Kernel/src/threads/cpu/handler.c:208-308 | the number of waiters changes by the loss, the signal and the wait |
| Semaphores.StepKeepsSemaphores | Kernel/src/threads/cpu/handler.c:208-308 | waiters never exceed max(0, -value) |
| Semaphores.StepKeepsExactness | Kernel/src/threads/cpu/handler.c:208-308 | waiters go on being exactly max(0, -value) if and only if the request loses no waiter |
| WorkConservation.AdmitFills | Kernel/src/planner/ltp.c:19-51 | admission stops only when New is empty or the degree is reached, and never exceeds the degree |
| WorkConservation.LongTermServes | Kernel/src/planner/ltp.c:19-51 | afterwards New is served; when it already was, nothing changes |
| WorkConservation.PlanIdleServes | Kernel/src/functions/cpu.c:81-94 | afterwards a CPU is idle only if Ready is empty |
| WorkConservation.NewProgramServes | Kernel/src/functions/program.c:117-127 | an arrival restores work conservation from any state |
| WorkConservation.EndBurstServes | Kernel/src/threads/cpu/handler.c:78-112 | the end of a burst plans enough, although it plans for its own CPU only |
| WorkConservation.StepServes | Kernel/src/threads/cpu/select.c:28-123 | work conservation is kept if and only if the request does not starve New |
| Interruption.InterruptOutcome | Kernel/src/functions/program.c:292-386 | a running program gets the code unless it has one to keep, a queued one is finished with it and taken from its queue only, a finished one is left alone |
| QueueOrder.AdmitInOrder | Kernel/src/planner/ltp.c:31-45 | admission takes New from the front and appends to Ready |
| QueueOrder.PlanIdleInOrder | Kernel/src/functions/cpu.c:81-94 | filling CPUs takes Ready from the front |
| QueueOrder.StepInOrder | Kernel/src/threads/cpu/select.c:28-123 | in no request does anybody overtake in New or Ready; only an interruption takes a program out in between, to finish it |
| QueueOrder.RunInOrder | Kernel/src/threads/cpu/select.c:28-123 | nor over any run |
| QuantumRuns.StopsOnce | Kernel/src/threads/cpu/handler.c:59-67 | counting a quantum down reaches 0 at the quantum-th request and at no other; never for 0 or less |
| QuantumRuns.StepRuns | Kernel/src/threads/cpu/select.c:28-123 | no request of others moves a running program or its quantum |
| QuantumRuns.QuantumIsServed | Kernel/src/planner/dispatcher.c:21-39 | over any run a dispatched program is told to stop exactly when its CPU asked once for each instruction of its quantum; never under FIFO |
| KernelRuns.RunKeeps | Kernel/src/threads/cpu/select.c:28-123 | conservation, flags, semaphore bound and absorbing Finished over every run |
| KernelRuns.RunKeepsExactness | Kernel/src/threads/cpu/handler.c:208-308 | exact semaphores over every run that loses no waiter |
| KernelRuns.RunKeepsWorking | Kernel/src/planner/ltp.c:19-51 | work conservation over every run that starves nobody |
| KernelRuns.KernelHolds | Kernel/src/threads/cpu/select.c:28-123 | all of it from the initial state |
| KernelRuns.FinishedStays | Kernel/src/functions/program.c:200-225 | a request appends to Finished at most |
| KernelRuns.BlockedIffWaiting | Kernel/src/threads/cpu/handler.c:95-107 | at the end of its burst a program is blocked if and only if it still waits |
| KernelRuns.SignalledNeverBlocked | Kernel/src/functions/program.c:388-436 | a waiter that is signalled, blocked or still on its CPU, is in Blocked in no state of any run after it in which it does not wait again |
| KernelRuns.NeverBlocked | Kernel/src/threads/cpu/handler.c:95-107 | a program that waits for nothing is never blocked, over any run in which nothing makes it wait |
| LifeCycle.AdmitByAnswer | Kernel/src/planner/ltp.c:31-45 | every program that leaves New with the answer 0 is in Ready as it was; every other one is in Finished, not in Ready, with the answer as exit code |
| LifeCycle.StepFollows | Kernel/src/threads/cpu/select.c:28-123 | where every request leaves every program and with what record: the request sends it to one place, and from there the planners move it from New to Ready or a CPU if and only if it was admitted, to Finished with the answer if not, and from Ready to a CPU with its quantum |
| LifeCycle.StaysTurnedDown | Kernel/src/planner/ltp.c:31-45 | after any request a program that was turned down is in New or in Finished |
| LifeCycle.OnlyAdmittedRun | Kernel/src/planner/ltp.c:31-45 | from the initial state, over any run, no program that is turned down is ever in Ready, in Blocked or on a CPU; without interruptions it ends with the answer as exit code |
| WaiterOrder.BlockedAfter | Kernel/src/functions/program.c:388-436 | Blocked after any request: only the released or interrupted program is gone, the others keep their order, and a new waiter comes last |
| WaiterOrder.SocketsAfter | Kernel/src/functions/cpu.c:81-94 | no request or planning swaps the connections of the CPUs |
| WaiterOrder.SignalsInOrder | Kernel/src/functions/program.c:388-436 | while a waiter is blocked, over any run, no signal of its semaphore goes to a program that was not blocked before it |
| KernelLosses.WaiterIsLost | Kernel/src/threads/cpu/select.c:28-49 | a run of four requests after which a semaphore's value counts a waiter that is gone |
| KernelLosses.NewIsStarved | Kernel/src/threads/cpu/select.c:28-49 | a run of four requests after which a program stays in New although nothing is ready and nothing runs |
| KernelProcess.Queues.constructor | Kernel/src/Kernel.c:46-69 | the queues when the Kernel starts |
| KernelProcess.Queues.FinishProgram | Kernel/src/functions/program.c:200-225 | appended to Finished once |
| KernelProcess.Queues.LongTermPlanner | Kernel/src/planner/ltp.c:19-51 | the loop takes the specified admission step: who leaves New is in Ready unchanged if its admission answered 0, and otherwise in Finished, not in Ready, with that exit code |
| KernelProcess.Queues.Planner | Kernel/src/planner/dispatcher.c:21-39 | the head of Ready with its quantum, after admission |
| KernelProcess.Queues.InactivePlanner | Kernel/src/functions/cpu.c:81-94 | the loop over the CPUs takes the specified step |
| KernelProcess.Queues.ProcessNew | Kernel/src/functions/program.c:117-127 | refines the arrival step |
| KernelProcess.Queues.HandleNewCpu | Kernel/src/threads/cpu/handler.c:35-44 | refines the step of a new CPU |
| KernelProcess.Queues.HandleStillBurst | Kernel/src/threads/cpu/handler.c:54-76 | refines its step; the burst goes on unless the program waits or this was its last quantum |
| KernelProcess.Queues.HandleEndBurst | Kernel/src/threads/cpu/handler.c:78-112 | refines its step |
| KernelProcess.Queues.HandleWait | Kernel/src/threads/cpu/handler.c:208-265 | refines its step; granted if and only if the value was positive |
| KernelProcess.Queues.HandleSignal | Kernel/src/threads/cpu/handler.c:267-308 | refines its step |
| KernelProcess.Queues.ProgramUnblock | Kernel/src/functions/program.c:388-436 | the first blocked waiter is readied, or the first waiter on a CPU stops waiting |
| KernelProcess.Queues.ProgramInterrupt | Kernel/src/functions/program.c:292-386 | refines its step: CPUs, New, Blocked, Ready in this order |
| KernelProcess.Queues.CpuConnectionLost | Kernel/src/threads/cpu/select.c:28-49 | refines its step |
| Descriptors.HoldersOfPath | Kernel/src/functions/file_descriptor.c:48-56 | paths being unique, an entry's descriptors are those open on its path |
| Descriptors.SoleHolder | Kernel/src/threads/cpu/handler.c:451-456 | a count of at most one means a single holder of the path, in both directions |
| Descriptors.DescriptorTable.constructor | Kernel/src/Kernel.c:71-73 | no file is open |
| Descriptors.DescriptorTable.NewProcess | Kernel/src/functions/program.c:26-36 | a new program has no descriptors and numbers start at 3 |
| Descriptors.DescriptorTable.GetByNumber | Kernel/src/functions/file_descriptor.c:20-25 | finds the descriptor if and only if it is open |
| Descriptors.DescriptorTable.GetByPath | Kernel/src/functions/file_descriptor.c:48-56 | finds an entry if and only if some descriptor is open on the path |
| Descriptors.DescriptorTable.CreateFd | Kernel/src/functions/file_descriptor.c:31-44 | one descriptor with these permissions and the cursor at 0, and one reference more |
| Descriptors.DescriptorTable.CreateGlobal | Kernel/src/functions/file_descriptor.c:58-65 | a new entry with no references |
| Descriptors.DescriptorTable.Open | Kernel/src/threads/cpu/handler.c:347-414 | one new descriptor at the end of the list, with the flags it was opened with and the entry of the path, under a number never used before by the process, or the exact error |
| Descriptors.DescriptorTable.Close | Kernel/src/threads/cpu/handler.c:489-546 | exactly that descriptor goes, the others keep number, permissions, cursor and entry; the entry goes with its last reference, or the exact error |
| Descriptors.DescriptorTable.Delete | Kernel/src/threads/cpu/handler.c:416-487 | succeeds if and only if the caller is the single holder and the FileSystem agrees, and then exactly that descriptor goes; else the exact error |
| Descriptors.OpenedPermits | Kernel/src/functions/file_descriptor.c:31-44 | a descriptor permits exactly what it was opened for |
| Descriptors.OthersPermit | Kernel/src/threads/cpu/handler.c:489-546 | a descriptor that goes takes no permission from any other |
| Descriptors.DescriptorTable.MoveCursor | Kernel/src/threads/cpu/handler.c:548-574 | that descriptor's cursor is set and nothing else changes, or the exact error |
| Descriptors.DescriptorTable.WriteFile | Kernel/src/threads/cpu/handler.c:576-648 | the FileSystem is asked if and only if the descriptor is open for writing, with its path and cursor; else the exact error |
| Descriptors.DescriptorTable.ReadFile | Kernel/src/threads/cpu/handler.c:650-735 | the FileSystem is asked if and only if the descriptor is open for reading, with its path and cursor; else the exact error |
| Descriptors.DescriptorTable.CloseOpenedFiles | Kernel/src/functions/program.c:188-198 | exactly the descriptors of that program go, counts stay exact |
| Descriptors.DescriptorTable.DropFinished | Kernel/src/functions/program.c:176-187 | removing the first entry with no references removes the right one |
| Pcb.EntriesRoundTrip | Kernel/src/functions/serialization.c:15-87 | the entries read back the dictionary, in whatever order they were written, and use up their bytes |
| Pcb.DictRoundTrip | Kernel/src/functions/serialization.c:15-87 | so does the dictionary with its count |
| Pcb.ArrayRoundTrip | Kernel/src/functions/serialization.c:89-144 | so does the array with its count |
| Pcb.ContextRoundTrip | Kernel/src/functions/serialization.c:227-296 | a context reads back and its decoder consumes just the bytes its encoder produced |
| Pcb.StackRoundTrip | Kernel/src/functions/serialization.c:298-350 | so does the stack |
| Pcb.PcbRoundTrip | Kernel/src/functions/serialization.c:352-489 | decoding gives the block back up to 32-bit fields and missing return positions, with no byte left over |
| Pcb.SameBlockBack | Kernel/src/functions/serialization.c:352-489 | the block comes back unchanged if and only if its fields fit and no return position is the sentinel |
| Pcb.SameBytesSameBlock | Kernel/src/functions/serialization.c:352-489 | blocks with the same bytes come back the same |
| PcbCompare.ComparePosition | Kernel/src/functions/serialization.c:520-531 | accepts, rejects or follows a null pointer |
| PcbCompare.CompareDict | Kernel/src/functions/serialization.c:495-515 | accepts if and only if the dictionaries are equal, although it looks from one side only |
| PcbCompare.CompareContext | Kernel/src/functions/serialization.c:517-553 | the verdict on two contexts |
| PcbCompare.CompareStack | Kernel/src/functions/serialization.c:555-569 | the verdict on the first contexts that differ |
| PcbCompare.ComparePcb | Kernel/src/functions/serialization.c:571-598 | the verdict on two blocks |
| PcbCompare.AcceptsEqual | Kernel/src/functions/serialization.c:571-598 | a block is accepted if and only if it is equal |
| PcbCompare.RoundTripVerdict | Kernel/src/functions/serialization.c:571-598 | a block against what came back of it: accepted, rejected or a null pointer, by exact conditions |
| Serialization.SerializeDict | Kernel/src/functions/serialization.c:15-54 | writes the specified bytes for some iteration order and fills its buffer exactly |
| Serialization.DeserializeDict | Kernel/src/functions/serialization.c:56-87 | computes the specified decoding and its length |
| Serialization.SerializeArray | Kernel/src/functions/serialization.c:89-118 | writes the specified bytes and the assertion on its offset holds |
| Serialization.DeserializeArray | Kernel/src/functions/serialization.c:120-144 | computes the specified decoding and its length |
| Serialization.SerializeContext | Kernel/src/functions/serialization.c:227-254 | writes the specified bytes |
| Serialization.DeserializeContext | Kernel/src/functions/serialization.c:256-296 | computes the specified decoding and its length |
| Serialization.SerializeStack | Kernel/src/functions/serialization.c:298-326 | writes the specified bytes into a growing buffer |
| Serialization.DeserializeStack | Kernel/src/functions/serialization.c:328-350 | computes the specified decoding and its length |
| Serialization.SerializePcb | Kernel/src/functions/serialization.c:352-416 | writes the specified bytes |
| Serialization.DeserializePcb | Kernel/src/functions/serialization.c:418-489 | computes the specified decoding; the final assertion holds |
| Serialization.Exchange | Kernel/src/functions/cpu.c:24-67 | what the other side receives is the block, if and only if its fields fit and no return position is the sentinel |

## Left out

- Sockets, select loops, consoles, logging, configuration files, inotify and delays; a message exchange is one reliable call, and a disconnection in the middle of a message is not modelled.
- The AnSISOP parser and the commons library are not part of this model; lists are sequences and dictionaries are maps.
- CPU primitives and CPU/src/functions/stack.c, which depend on the parser.
- The alternative hash functions: the hash is an arbitrary function.
- Directory handling, path building, mmap and opening files in the FileSystem: whether a file could be opened is an argument of `Create`.
- Console commands that hold queue mutexes while they wait for input, and the unused helpers in Kernel/src/functions/file_descriptor.c:75-115.
- Raw pointers, allocation failures and leaks: frames, cache contents and blocks are byte sequences replaced in place inside arrays.
- Program statistics and shared variables, which no other state depends on.
- Memory.MemoryProcess.Read and Memory.MemoryProcess.Write are atomic steps; the locks around the cache are modelled on their own in `CacheLock`.
- Ram.PageTable.ProgramInit: like `Memory.MemoryProcess.Init`, a granted init must not repeat pages.
- Memory.MemoryProcess.Init: an init that is granted pages the program already has, which the Kernel never asks for, is outside the contract; the table it would leave has no index.
- Cache.PageCache.Clock: readings do not go back, and lie below the `time(NULL)` seed of Memory/src/functions/cache.c:133.
- FrameProgress.ReserveAlone: the bound on the steps is for a thread that moves alone; that threads are scheduled fairly is not modelled.
- FrameReservation.StepKeepsInv: one allocating or freeing operation in flight per PID, as the Kernel has one connection that serialises a program's requests.
- HeapLayout.EncodeHeader: the three padding bytes of a header are written as zero; the source leaves them as they are in memory, and no code reads them.
- Heap.ProgramHeap.Alloc: which handed-back pages Memory's cache still answers for is an argument, and stays the same during one request.
- Heap.ProgramHeap.Free: in a mapped heap page the address must be that of a block, allocated or free; the source takes whatever bytes precede any other address for a header.
- FileSystem.BlockStore.SaveData: offsets are not negative, the ceiling is an integer one, and a copy that would run past the end of its block is clipped there, as the advance of the loop assumes.
- Scheduler.Admit: whether Memory grants a program its pages is a function of the program, given with the configuration; the exit code a CPU sends back with a block is not modelled.
- Scheduler.Step: programs are told apart by PID; a program whose admission fails is finished at once.
- Descriptors.DescriptorTable.Open: the answers of the FileSystem are arguments.
- Descriptors.DescriptorTable.ReadFile: what happens to the bytes that the FileSystem answers, which are stored in Memory, is not part of it.
- Descriptors.DescriptorTable.WriteFile: writing to descriptor 1, the program's console, is not modelled.
- Serialization.SerializePcb: the total size is not cut to 32 bits, and the counts of dictionaries, arrays and the stack are below 2^32; the untransmitted file table is not part of the block.
- Pcb.DecodePcb: bytes that make the source read past the data, overflow the ten arguments or fail its last assertion are outside the decoder's domain.
