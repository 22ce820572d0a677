# Verified models of the allocators, collectors, queues and sorts

This project models six parts of the repository in Dafny and proves what they promise.  Each part has its own modules.

- **Lock-free stack** (`lockfree_stack.h`): an interleaving step system in which each load, store and compare-exchange is
  a step.  `LockFreeStack` has the steps, `LockFreeInvariant` and `LockFreeSteps` the invariant and its preservation,
  `LockFreeTheorems` the results over all schedules, `LockFreeProgress` what gets done, alone and in competition,
  `LockFreeHazard` why the allocator assumption is needed.
- **Buddy heap with mark-sweep collector** (`benchmarks/gc_prototype.cpp`): `BuddyHeap` is the allocator as a function on a
  block map and its free lists, with the invariant, the round trip and the drain.  `BuddyNodes`, `BuddyLists` and `BuddyPage`
  are the in-place form, with headers in a buffer, doubly linked chains and a node pool, proved to compute those functions.
  `BuddySizes` and `BuddyBound` cover block sizes and the pool bound.  `ObjectTable` has the object table and the mark loop,
  `BuddyCollector` the collector.
- **Compaction** (`paging` in the same file): `CompactionLayout` says from lengths, places and marks where compress writes,
  and when it takes the page that it reads or passes the end of a buffer; `Compaction` is the code on pages and buffers.
- **Tracing collector** (`benchmarks/tracing_ptr.cpp`): `TracingLists` has objects, references and list_collect,
  `TracingMark` the mark phase, `TracingCollector` both trackers.
- **Task executors** (`benchmarks/streaming_tasks.cpp`): `SharedQueue`, `SharedQueueProofs` and `SharedQueueRuns` for
  proto_g; `LaneRing`, `WorkLanes`, `WorkLanesProofs`, `WorkLanesRuns` and `LanesOnRings` for proto_e; `Chunks` for the pieces
  of a span.  The modules `...Runs` tell the results from the calls that a schedule makes.
- **Radix sorts** (`benchmarks/radix_benchmark.cpp`): `Radix` on sequences, `RadixSorts` in place on arrays.
- **Compile-time quicksort and search tree** (`binary_search.cpp`): `SearchTree`.

`Bits`, `Options`, `Sequences` and `Reachability` are shared.  `dafny verify dfyconfig.toml` checks everything.

## Reading the models

- Ghost fields and fields called history (`log`, `commits`, `calls`, `status`, `orig`) record what happened; no step reads them.
- Offsets of the buddy heap are in units of 32 bytes, its smallest block.  The capacity is 32 * 2^t with 1 <= t <= 27, as
  `32U << level` must not overflow and the pool gets capacity / 64 nodes.  `level_of` is the exact integer logarithm.
- The buddy page reads `_free_levels[level]` before it tests the level, so a request must be smaller than the page; that is
  the one precondition of `BuddyPage.Page.Allocate`.
- `ObjectTable.TableNode.ptr` is the offset of the header, from which begin and from_ptr differ by a constant.
- In `WorkLanes` a lane is a deque; `LanesOnRings` has the same executor on rings of 8192 slots under wrapping counters, and
  proves that its runs are those on the deques.
- In `Compaction` a buffer does not end at its capacity.  Every contract says when the pages stay `Inside` it; a state that
  is not inside is one in which the original has written behind its buffer, and nothing is claimed of the original from
  there on.  `Paging.Compress` stops where the original would take the page that it is reading.  `Limit.counted` selects
  between has_capacity as it is, and a test that counts header and alignment.

## Where the code falls short of its promise

- Stack: reclamation depends on the allocator.  A node address must not be issued again while some thread holds it between
  the load of `_collection_head` and its compare-exchange.  Under that assumption (`LockFreeTheorems.Withheld`) the results
  on memory and on linearizability hold over every run; wherever it is first broken beside a thread that is alone in its
  guard, with two threads idle, the run can go on to a read of a deleted node (`LockFreeHazard.ReissueCanBreak`).
- collector_buddy::allocate: memory is out exactly when no free block is as large as the request
  (`BuddyCollector.Collector.Allocate`).  That leaves an object without memory in the table, and the next collect comes to its
  null pointer (`BuddyCollector.NullIsFreed`).
- paging: has_capacity tests the length before alignment.  A block can so be given a place where its aligned length has no
  capacity, and then compress exchanges the page that it is reading, if enough is alive (`Compaction.UnalignedLengthSlips`).
  For given marks the exact condition is `CompactionLayout.Overtaken`; some marks meet it if and only if all blocks marked do
  (`CompactionLayout.AllIsWorst`), and on pages as allocate leaves them if and only if a block lacks capacity that does not
  open its page (`CompactionLayout.OvertakenIff`).  A block without capacity that opens its page does no harm
  (`Compaction.OpenerIsSafe`).
- paging: has_capacity does not count the header either.  allocate passes the end of a buffer exactly when header and aligned
  length do not fit (`Compaction.Paging.Allocate`), compress when a copied block ends there (`Compaction.Paging.Compress`),
  also from pages that were all inside (`Compaction.CompactionPassesTheEnd`).  A test that counts both
  keeps every page inside, for blocks that fit a page at all.
- Lanes: a push on a full ring overwrites the oldest task (`LaneRing.Lane.Push`, `LaneRing.FillPastTheEnd`).
- Search: the comparison is an unsigned difference taken as a signed one.  An id is found if and only if its difference from
  each id on its way from the root fits int32_t (`SearchTree.FindIsMembership`, `SearchTree.WrappedKeyIsMissed`).

## Model

| member | source | states |
|---|---|---|
| LockFreeTheorems.ReclamationSafety | lockfree_stack.h:307-346 | While the allocator withholds carried addresses: over every interleaving of push, pop and clear by any number of threads, no freed node is ever dereferenced, and no node is freed twice |
| LockFreeTheorems.DeletedNodeIsUnread | lockfree_stack.h:331-346 | While the allocator withholds carried addresses: a node that waits to be deleted is no thread's `old_head`, and is not the head of the stack |
| LockFreeTheorems.TakenChainIsUnread | lockfree_stack.h:331-346 | While the allocator withholds carried addresses: when the collector's compare-exchange is about to succeed, no thread can still read any node of the whole chain that it takes |
| LockFreeTheorems.AtMostOneCollector | lockfree_stack.h:331-346 | Whatever the allocator does: over every run the guard counter is the number of threads in a guard, and at most one thread at a time is between a passed count-equals-1 check and the end of its collection |
| LockFreeTheorems.CheckFailsBesideAnother | lockfree_stack.h:307-346 | Whatever the allocator does: the count check fails if and only if another thread is inside its guard |
| LockFreeTheorems.LogIsSequential | lockfree_stack.h:30-94 | While the allocator withholds carried addresses: linearizability: the commits so far, in order, are a run of the sequential stack that ends with the values linked from `_head` |
| LockFreeTheorems.CommitsFillTheLog | lockfree_stack.h:30-94 | An action starts the operation that it names; a step commits at most one event, of the operation that takes it and under the name of its thread, and never rewrites the log or another thread |
| LockFreeTheorems.ReturnsWhatItCommitted | lockfree_stack.h:164-249 | While the allocator withholds carried addresses: a thread that was asked for an operation and is idle has committed once: the value given for a push, the value returned for a pop, the clearing for a clear; what was asked for is read off the schedule |
| LockFreeTheorems.OneCommitBetween | lockfree_stack.h:164-249 | While the allocator withholds carried addresses: between the moment a thread is asked for an operation and the moment it is idle again, the log gains exactly one event of that thread, the one asked for with the result returned |
| LockFreeProgress.AloneIsSequential | lockfree_stack.h:164-249 | While the allocator withholds carried addresses: an operation that runs alone from any reached state returns, and what it adds to the log is one event, the one asked for with the result returned; with nobody else in a guard, a pop or clear also leaves an empty collection list |
| LockFreeProgress.ReturnsWhenAlone | lockfree_stack.h:30-94 | While the allocator withholds carried addresses: from any reached state a thread that goes on alone returns, within 3 steps for each allocated node and 14 |
| LockFreeProgress.CollectsWhenAlone | lockfree_stack.h:164-175 | Whatever the allocator does: a pop or clear, also of an empty stack, that runs from start to return with no other thread in its guard and without a spurious failure leaves an empty collection list, pushes going on beside it |
| LockFreeProgress.OnlyTheStackIsLeft | lockfree_stack.h:331-346 | While the allocator withholds carried addresses: with an empty collection list and nobody in a guard, the allocated nodes are those on the stack and those being pushed |
| LockFreeProgress.PushRetryIsPaid | lockfree_stack.h:30-42 | While the allocator withholds carried addresses: between a failed compare-exchange of a push and the next one that fails for another reason than a spurious one, another thread has committed |
| LockFreeProgress.PopRetryIsPaid | lockfree_stack.h:69-85 | If the compare-exchange of a pop fails other than spuriously, something was committed since the load of `_head` |
| LockFreeProgress.OwnStepIsCloser | lockfree_stack.h:30-94 | Each step of a thread that is not disturbed lowers the number of steps it has left |
| LockFreeTheorems.PopInstallsSecondNode | lockfree_stack.h:69-85 | While the allocator withholds carried addresses: a pop whose compare-exchange succeeds installs exactly the second node, although `next` was read earlier and retired nodes have their link overwritten |
| LockFreeTheorems.QuiescentAccounting | lockfree_stack.h:224-249 | While the allocator withholds carried addresses: with all threads idle, every allocated node is on the stack or in the collection list, never on both, and the guard counter is zero |
| LockFreeHazard.ReissueBreaksReclamation | lockfree_stack.h:331-346 | The assumption is needed: there is a run from the start that keeps it up to one push, and ends with a freed node about to be read |
| LockFreeHazard.ReissueCanBreak | lockfree_stack.h:331-346 | From any state in which a thread alone in its guard is about to check the count with an address that was freed meanwhile, and two others are idle, a push at that address lets the run go on to a freed node about to be read |
| LockFreeSteps.InvStep | lockfree_stack.h:164-249 | Every step of every thread keeps the invariant behind these results, if it does not issue a carried address |
| LockFreeSteps.AloneInGuard | lockfree_stack.h:307-346 | A guard count of 1 means that the thread that reads it is alone inside a guard |
| LockFreeSteps.CarriedIsRetired | lockfree_stack.h:331-337 | When the count check passes, the address carried from `_collection_head`, if it is allocated, is that of a retired node, although nodes may have been freed since the load |
| BuddyHeap.AllocateValid | benchmarks/gc_prototype.cpp:343-373 | allocate keeps tiling, lists and coalescing, and adds exactly one used block, of the requested level; it fails only when every free block is smaller |
| BuddyHeap.AllocateHasRoom | benchmarks/gc_prototype.cpp:350-354 | allocate finds memory if and only if some free block is as large as the request |
| BuddyHeap.FreeFromValid | benchmarks/gc_prototype.cpp:375-403 | free keeps the invariant and removes exactly the freed block from those in use |
| BuddyHeap.BuddyIsHeader | benchmarks/gc_prototype.cpp:428-439 | The address that find_buddy yields for a block below the top level is the start of an existing block, of the same level or a smaller one |
| BuddyHeap.FreeUndoesAllocate | benchmarks/gc_prototype.cpp:350-403 | Exact round trip: freeing what was just allocated restores all blocks and every free list as a sequence |
| BuddyHeap.MergeUndoesSplit | benchmarks/gc_prototype.cpp:362-398 | One merge undoes one split, lists included |
| BuddyHeap.FullDrain | benchmarks/gc_prototype.cpp:375-403 | Freeing all live blocks in any order ends with one free block of the top level and every other list empty |
| BuddyHeap.AllFreeIsFresh | benchmarks/gc_prototype.cpp:319-403 | A valid page with nothing in use is the freshly constructed one |
| BuddyHeap.FreshIsValid | benchmarks/gc_prototype.cpp:319-337 | The constructed page satisfies the invariant |
| BuddyHeap.FindLevel | benchmarks/gc_prototype.cpp:350-354 | The level found is the smallest at or above the requested one whose list is not empty |
| BuddyBound.FreeBlocksBound | benchmarks/gc_prototype.cpp:319-326 | A valid page has at most capacity / 64 free blocks |
| BuddySizes.NextPow2 | benchmarks/gc_prototype.cpp:303-314 | next_pow_2 is the power of two strictly above its argument, modulo 2^64 |
| BuddySizes.LevelForFits | benchmarks/gc_prototype.cpp:345-347 | Payload and the 16 bytes of the header fit in a block of the computed level, and would not fit in one half the size |
| BuddySizes.LevelIsUnique | benchmarks/gc_prototype.cpp:345-347 | Only one level has that property |
| BuddySizes.LevelForWithin | benchmarks/gc_prototype.cpp:343-354 | The computed level is within the page exactly when payload and the 16 bytes of the header are smaller than its capacity |
| BuddyPage.FindBuddyIsBuddy | benchmarks/gc_prototype.cpp:428-439 | Flipping a bit of the byte offset of an aligned block gives its buddy |
| BuddyNodes.Nodes.AddPage | benchmarks/gc_prototype.cpp:170-190 | A new page of nodes becomes the free chain of the pool, in order |
| BuddyNodes.Nodes.Prepend | benchmarks/gc_prototype.cpp:56-71 | The node becomes the head of a doubly linked chain |
| BuddyNodes.Nodes.Remove | benchmarks/gc_prototype.cpp:73-97 | Unlinking the node at any position leaves the chain of the others, linked both ways, and touches no node outside it |
| BuddyNodes.Nodes.Pop | benchmarks/gc_prototype.cpp:108-118 | The head of the free chain leaves it |
| BuddyNodes.Nodes.Reserve | benchmarks/gc_prototype.cpp:153-162 | reserve takes the head of the free chain, and adds a page only when there is none |
| BuddyNodes.Nodes.Release | benchmarks/gc_prototype.cpp:164-166 | release puts the node back at the head of the free chain |
| BuddyPage.Page.constructor | benchmarks/gc_prototype.cpp:319-337 | The constructor builds the fresh page with one page of header nodes |
| BuddyPage.Page.RegisterAsFree | benchmarks/gc_prototype.cpp:418-426 | The linked structure does what releasing does to the block map, keeps all links consistent, and the pool does not grow |
| BuddyPage.Page.RegisterAsUsed | benchmarks/gc_prototype.cpp:407-416 | The linked structure does what taking does to the block map, keeps all links consistent, and the pool does not grow |
| BuddyPage.Page.HeaderAt | benchmarks/gc_prototype.cpp:377-397 | What find_buddy yields in free is a live header, and its flags tell whether that block is free at this level |
| BuddyPage.Page.FindFree | benchmarks/gc_prototype.cpp:350-354 | The search over the list heads finds the level that the specification names, or reports that memory is out |
| BuddyPage.Page.SplitDown | benchmarks/gc_prototype.cpp:361-370 | The split loop computes the specified splits, without growing the pool and without touching any other live block |
| BuddyPage.Page.Allocate | benchmarks/gc_prototype.cpp:343-373 | allocate refines the specification: same block, same lists in the same order, same failure, with the level that just fits payload and 16 bytes of header; the pool never grows and no live payload changes |
| BuddyPage.TwoSmallBlocks | benchmarks/gc_prototype.cpp:343-373 | A page of 64 bytes gives two blocks for 10 bytes each, the lower half first, and no third |
| BuddyPage.Page.Coalesce | benchmarks/gc_prototype.cpp:377-399 | The coalescing loop reads live headers only, and stops where the specification stops |
| BuddyPage.Page.Free | benchmarks/gc_prototype.cpp:375-403 | free refines the specification; the pool never grows and no other live payload changes |
| BuddyPage.Page.SetUserData | benchmarks/gc_prototype.cpp:757-763 | The client may write the user word of its block without harm to the structure |
| BuddyPage.Page.WritePayload | benchmarks/gc_prototype.cpp:261-275 | The client may write anything behind its header: payload is never taken for a header |
| BuddyPage.PayloadsApart | benchmarks/gc_prototype.cpp:343-373 | Live payloads of their requested lengths, with their headers, lie in pairwise disjoint byte ranges inside the buffer |
| ObjectTable.Mark | benchmarks/gc_prototype.cpp:690-715 | The mark loop ends on every graph, cyclic or with repeated gray entries, and marks exactly what the root reaches, whether or not the root was marked before |
| ObjectTable.MarkPass | benchmarks/gc_prototype.cpp:696-715 | One pass scans the whole black list; if nothing in it was new, everything in the next list is |
| ObjectTable.MarkNode | benchmarks/gc_prototype.cpp:697-712 | Scanning one node keeps the frontier: references of scanned nodes lead to scanned or waiting nodes |
| ObjectTable.ScanRefs | benchmarks/gc_prototype.cpp:703-710 | Afterwards every target of the node is marked or waits in the gray list, and only unmarked targets were added |
| ObjectTable.Table.AddObjNode | benchmarks/gc_prototype.cpp:462-474 | A new object heads the table |
| ObjectTable.Table.AddRefNode | benchmarks/gc_prototype.cpp:476-483 | A new reference heads the chain of its object, and the table stays closed |
| ObjectTable.Table.RemRefNode | benchmarks/gc_prototype.cpp:494-497 | Just that reference leaves the chain |
| ObjectTable.Table.RemObjNode | benchmarks/gc_prototype.cpp:485-492 | The object and its references leave the table |
| ObjectTable.Table.ResetMarks | benchmarks/gc_prototype.cpp:824-830 | The unmarked objects are collected in order, and all marks are reset |
| BuddyCollector.Collector.Allocate | benchmarks/gc_prototype.cpp:751-780 | A new object gets a block that was not in use, of the level for its size, if and only if some free block is that large, with no other live payload touched; otherwise a dead node without memory is left in the table, and the collector is not well-formed |
| BuddyCollector.NullIsFreed | benchmarks/gc_prototype.cpp:751-835 | A page of 64 bytes is exhausted by one object of 20 bytes; after a second, the first dead node that the next collect finds has the null pointer |
| BuddyCollector.Collector.FindDead | benchmarks/gc_prototype.cpp:794-830 | Mark loop and reset together yield the objects that the root does not reach, in table order |
| BuddyCollector.Collector.Release | benchmarks/gc_prototype.cpp:835-846 | One dead object leaves the table and its block goes back, with no other live payload touched |
| BuddyCollector.Collector.Sweep | benchmarks/gc_prototype.cpp:832-846 | After the sweep the table and the used blocks still correspond one to one |
| BuddyCollector.Collector.Collect | benchmarks/gc_prototype.cpp:794-893 | collect leaves exactly the objects reachable from the root, in order, with references, block, level and payload unchanged; all else is free and coalesced, and no reference of a survivor leads to a released node |
| Compaction.Paging.Compress | benchmarks/gc_prototype.cpp:604-648 | compress keeps the live blocks in order and with their contents on at most as many pages, every live node points at its own copy, and every other block is disposed of once; it does so if and only if it is not led to take the page it is reading, never when the pages were inside their buffers, and never on pages that it left itself; afterwards the pages are inside if and only if every block copied ends there, and always with a test that counts header and alignment |
| Compaction.Paging.CompressPage | benchmarks/gc_prototype.cpp:619-643 | Reading one page to its end moves its live blocks and disposes of the others, or stops because the page itself would be taken |
| Compaction.Paging.CompressBlock | benchmarks/gc_prototype.cpp:622-642 | One block is moved or disposed of, with the write cursor at or before the read cursor, unless the work page is full and the page to exchange is the one being read |
| CompactionLayout.StaysBehind | benchmarks/gc_prototype.cpp:612-628 | The write cursor stays at or before the read cursor, dead blocks included, until the page being read would be taken |
| CompactionLayout.OvertakenIsBlocked | benchmarks/gc_prototype.cpp:612-628 | On any pages and for any marks, compress takes the page it is reading only at a block that lacks capacity where it is and does not open its page |
| CompactionLayout.OvertakenIff | benchmarks/gc_prototype.cpp:594-628 | On pages as allocate leaves them: for some marks compress takes the page it is reading, if and only if such a block exists |
| CompactionLayout.FirstPageIff | benchmarks/gc_prototype.cpp:612-628 | On any pages: the first page is taken while it is read for some marks, if and only if some block on it lacks capacity |
| CompactionLayout.AllIsWorst | benchmarks/gc_prototype.cpp:612-638 | If any marks make compress take the page it is reading, marking every block does |
| CompactionLayout.InsideIsRoomy | benchmarks/gc_prototype.cpp:540-559 | No block that ends inside its buffer lacks capacity, although the test counts no header |
| CompactionLayout.CountedStaysInside | benchmarks/gc_prototype.cpp:540-559 | With a test that counts header and alignment, blocks inside their buffers are copied to inside them, whatever is marked |
| CompactionLayout.AlignLengthIs | benchmarks/gc_prototype.cpp:208-211 | align_length gives the next multiple of 8 that is not smaller |
| CompactionLayout.HasCapacityIs | benchmarks/gc_prototype.cpp:540-542 | has_capacity asks that offset and length as asked for be less than the capacity |
| Compaction.SwapKeepsUnread | benchmarks/gc_prototype.cpp:624-628 | The exchange leaves every page not read yet where and what it was |
| Compaction.MoveKeepsMoved | benchmarks/gc_prototype.cpp:561-571 | A move appends one block to those moved, no earlier copy or address is disturbed, and no block without capacity comes to lie behind another on its page |
| Compaction.MoveKeepsInside | benchmarks/gc_prototype.cpp:548-571 | The pages written so far stay inside their buffers exactly if the moved block ends inside its own |
| Compaction.InsideIsBlocks | benchmarks/gc_prototype.cpp:540-559 | Pages end inside their buffers if and only if all their blocks do |
| Compaction.Paging.Allocate | benchmarks/gc_prototype.cpp:594-602 | allocate appends a block of the next multiple of 8 bytes behind a header of 32, at the end of the last page if offset and length as asked for are less than the capacity, or on a new one; the pages stay inside their buffers if and only if they were and header and aligned length fit, which a test that counts both ensures for every block that fits a page; a block at which compress can be caught is added only when the length as asked for passes the test and the aligned one does not |
| Compaction.AllocatePacks | benchmarks/gc_prototype.cpp:594-602 | A block without capacity that does not open its page arises exactly when has_capacity passes for the length as asked for and not for the aligned one, on pages as allocate leaves them; on any pages it arises only then |
| Compaction.TwoOnOnePage | benchmarks/gc_prototype.cpp:540-602 | A run from the constructor: two blocks for 20 bytes on a page of 80 end at 56 and 112, on the same page |
| Compaction.UnalignedLengthSlips | benchmarks/gc_prototype.cpp:540-628 | A run from the constructor: 57 bytes pass the test on a page of 64, and compress then takes the page it is reading |
| Compaction.CompactionPassesTheEnd | benchmarks/gc_prototype.cpp:540-648 | A run from the constructor: three blocks inside buffers of 200 bytes, one of them dead, are compacted to pages that are not inside |
| Compaction.OpenerIsSafe | benchmarks/gc_prototype.cpp:594-628 | A run from the constructor: a block as large as the page is outside its buffer, and still no marks make compress take the page it is reading |
| TracingLists.CollectRefs | benchmarks/tracing_ptr.cpp:99-122 | list_collect on references: the disposed ones (or all) are deleted once each, the others stay in turned order, and the throw is not taken |
| TracingLists.PushRef | benchmarks/tracing_ptr.cpp:66-70 | The reference becomes the head of the list |
| TracingMark.ScanRef | benchmarks/tracing_ptr.cpp:234-248 | A target not reached before is marked and heads the next list; null and disposed references are skipped |
| TracingMark.VisitMarks | benchmarks/tracing_ptr.cpp:226-253 | A visit keeps the lists apart: an object is on one mark list exactly while its state is marked, and everything reached is reachable |
| TracingMark.MarkList | benchmarks/tracing_ptr.cpp:226-253 | The inner loop empties the current list, and makes at least one more object done |
| TracingMark.Mark | benchmarks/tracing_ptr.cpp:215-255 | The mark phase of both trackers ends with exactly the reachable objects active and all others unreachable |
| TracingCollector.SweepObjects | benchmarks/tracing_ptr.cpp:257-275 | The sweep keeps the active objects in turned order and deletes all references of the others, once each |
| TracingCollector.Tracker.Collect | benchmarks/tracing_ptr.cpp:203-276 | gc: what stays are exactly the objects reachable through non-null, non-disposed references, all active, each with its non-disposed references; the "still reachable" throw is never taken |
| TracingCollector.Tracker.CollectGc2 | benchmarks/tracing_ptr.cpp:532-606 | gc2 keeps the same objects in the same order as gc from any heap, although it purges in the first pass, never purges the root and leaves stale links |
| TracingCollector.Tracker.RegisterObject | benchmarks/tracing_ptr.cpp:296-316 | A new object heads the list of registered objects, and the heap stays well-formed |
| TracingCollector.Tracker.Reference | benchmarks/tracing_ptr.cpp:169-189 | A new reference heads the list of its object, its target is active, and the heap stays well-formed |
| TracingCollector.Tracker.Retarget | benchmarks/tracing_ptr.cpp:191-197 | A reference may be led to any registered object, which becomes active, or to none |
| TracingCollector.Tracker.Dereference | benchmarks/tracing_ptr.cpp:199-201 | A reference may be disposed of at any time; it stays on its list |
| SharedQueue.Cut | benchmarks/streaming_tasks.cpp:842-862 | The loop cuts the span into the pieces of the specification, the last one with the remainder |
| Chunks.PiecesTile | benchmarks/streaming_tasks.cpp:842-862 | The pieces tile the span: each element is in exactly one |
| Chunks.SpansApart | benchmarks/streaming_tasks.cpp:842-862 | Different pieces do not overlap |
| SharedQueueProofs.InvStep | benchmarks/streaming_tasks.cpp:751-894 | Every step of producers, workers and waiters keeps the invariant, emptied entries included |
| SharedQueueRuns.DoneMeansMapped | benchmarks/streaming_tasks.cpp:834-894 | When the n-th token is done, the span given to the n-th call of push_parallel is the image of what it was under the function of that call, each of the pieces asked for was called, and none is queued or in flight; calls and arguments are read off the schedule |
| SharedQueueRuns.BatchesServe | benchmarks/streaming_tasks.cpp:834-869 | The batches are the calls of push_parallel made, in their order and with their arguments |
| SharedQueueRuns.NothingElseWritten | benchmarks/streaming_tasks.cpp:834-869 | At every moment each element is what was given, or its image |
| SharedQueueRuns.FirstInFirstOut | benchmarks/streaming_tasks.cpp:778-894 | Pieces are called in the order in which they were pushed: those called, followed by those queued, are all that were asked for |
| SharedQueueRuns.StepIsCloser | benchmarks/streaming_tasks.cpp:751-894 | Every step but a call lowers the work that is left |
| SharedQueueRuns.CanBeDone | benchmarks/streaming_tasks.cpp:751-894 | No deadlock: with one worker, every reached state leads on to one in which all tokens are done, within a bound on the number of steps |
| SharedQueueRuns.AllGetsDone | benchmarks/streaming_tasks.cpp:751-894 | Whatever order the threads take, without further calls there are only so many steps, and when a worker and the running threads have none left, all tokens are done |
| SharedQueueProofs.DoneStays | benchmarks/streaming_tasks.cpp:871-894 | After that nobody touches the span again |
| SharedQueueProofs.CounterCounts | benchmarks/streaming_tasks.cpp:721-798 | In every reached state a token counts the queue entries that hold a piece of it plus the threads that run one |
| SharedQueueProofs.OnePlace | benchmarks/streaming_tasks.cpp:778-894 | A piece is once in the queue and not called, or with exactly one thread, or over; it was called exactly if it left the queue, and never twice |
| SharedQueueProofs.InFlightDisjoint | benchmarks/streaming_tasks.cpp:834-869 | Two threads with pieces of one token have disjoint spans, from the start of each piece to its end |
| SharedQueueProofs.NeverBelowZero | benchmarks/streaming_tasks.cpp:742-758 | The counter of a token is never decremented below zero |
| SharedQueueProofs.TakeKeeps | benchmarks/streaming_tasks.cpp:876-889 | A waiter that moves the front task out and leaves the entry keeps the invariant |
| SharedQueueProofs.WorkerKeeps | benchmarks/streaming_tasks.cpp:778-797 | A worker that pops a task, or an emptied entry, keeps the invariant |
| LaneRing.SlotIs | benchmarks/streaming_tasks.cpp:235-289 | The mask selects the remainder by 8192 |
| LaneRing.PushTasks | benchmarks/streaming_tasks.cpp:235-240 | On slots and wrapping counters a push appends if and only if the ring is not full; on a full one the oldest slot is overwritten |
| LaneRing.PopTasks | benchmarks/streaming_tasks.cpp:242-253 | On slots and wrapping counters pop takes the last task, and the counters meet exactly when there is none |
| LaneRing.StealTasks | benchmarks/streaming_tasks.cpp:255-266 | On slots and wrapping counters steal takes the first task, and the counters meet exactly when there is none |
| LaneRing.Lane.Push | benchmarks/streaming_tasks.cpp:235-240 | push appends to the deque, also when the counters wrap, if and only if fewer than 8192 tasks are held; on a full ring the slot of the oldest task is overwritten |
| LaneRing.Lane.Pop | benchmarks/streaming_tasks.cpp:242-253 | pop takes the last task of the deque, also when the counters wrap |
| LaneRing.Lane.Steal | benchmarks/streaming_tasks.cpp:255-266 | steal takes the first task of the deque, also when the counters wrap |
| LaneRing.FillPastTheEnd | benchmarks/streaming_tasks.cpp:235-240 | A new lane takes 8192 tasks in order; one more replaces the first of them |
| LanesOnRings.StepRefines | benchmarks/streaming_tasks.cpp:233-397 | A step of the executor on rings is the same step on deques |
| LanesOnRings.RingsAreDeques | benchmarks/streaming_tasks.cpp:233-397 | Every run of the executor on rings is a run on deques with the same choices, so that what is shown of runs on deques holds of it |
| LanesOnRings.RingsDeliver | benchmarks/streaming_tasks.cpp:233-397 | On the rings as well: outside of run_parallel the last call has left the span mapped under the function given, with exactly its pieces called, once each |
| LanesOnRings.RingsReturn | benchmarks/streaming_tasks.cpp:233-397 | On the rings as well: there are only so many steps, and they end with the call returned |
| WorkLanesProofs.InvStep | benchmarks/streaming_tasks.cpp:313-397 | Every step of the main thread and of the lanes keeps the invariant |
| WorkLanesRuns.ReturnMeansMapped | benchmarks/streaming_tasks.cpp:355-397 | Outside of run_parallel, and when it may return, the span given to the last call is the image of what it was under the function given, exactly the pieces asked for were called, once each, and neither a lane nor a thread holds a pointer into the buffer; the call is read off the schedule |
| WorkLanesRuns.CallsFit | benchmarks/streaming_tasks.cpp:268-289 | A call of up to 8190 pieces may be made whenever none is under way, and no slot behind the 8192 of the task buffer is handed out or held |
| WorkLanesRuns.StepIsCloser | benchmarks/streaming_tasks.cpp:313-397 | Every step but a call lowers the work that is left |
| WorkLanesRuns.CanReturn | benchmarks/streaming_tasks.cpp:313-397 | No deadlock: from every reached state the call under way can return, within a bound on the number of steps |
| WorkLanesRuns.EveryCallReturns | benchmarks/streaming_tasks.cpp:313-397 | Whatever order the threads take and whoever steals, there are only so many steps, and when the main thread and the running threads have none left, the call has returned |
| WorkLanesProofs.NoTaskLost | benchmarks/streaming_tasks.cpp:313-329 | Across all lanes and threads a piece is not pushed yet, or in exactly one place of one lane, or with exactly one thread, or over; it was called exactly if it left the lanes |
| WorkLanesProofs.OnlyThisCall | benchmarks/streaming_tasks.cpp:355-397 | Every slot in a lane or with a thread is that of a piece of the call under way; between calls there are none |
| WorkLanesProofs.WithinRing | benchmarks/streaming_tasks.cpp:233-289 | No lane ever holds as many tasks as would overrun its ring |
| WorkLanesProofs.AllOver | benchmarks/streaming_tasks.cpp:355-361 | A parent counter of zero means that every piece is over and no thread refers to the buffer |
| Radix.PassPermutes | benchmarks/radix_benchmark.cpp:46-59 | A pass is a permutation |
| Radix.PassesSort | benchmarks/radix_benchmark.cpp:27-63 | After n passes the items are sorted modulo 256^n |
| Radix.AllPassesSort | benchmarks/radix_benchmark.cpp:24-65 | All eight passes give the ascending permutation of the input |
| Radix.SortedUnique | benchmarks/radix_benchmark.cpp:24-65 | There is only one ascending order of given items |
| RadixSorts.CountHits | benchmarks/radix_benchmark.cpp:28-35 | The histogram counts the items by byte |
| RadixSorts.ToOffsets | benchmarks/radix_benchmark.cpp:37-44 | The prefix sums are where each byte's items start |
| RadixSorts.Scatter | benchmarks/radix_benchmark.cpp:46-59 | Every slot of swap is written once and in bounds, and the result is the stable order by that byte |
| RadixSorts.SlotsApart | benchmarks/radix_benchmark.cpp:46-59 | No two items share a slot |
| RadixSorts.ReferenceRadix.Sort | benchmarks/radix_benchmark.cpp:24-65 | The reference sort returns the ascending permutation of its input |
| RadixSorts.SortInsert | benchmarks/radix_benchmark.cpp:123-136 | The insertion sort in place computes the specified insertions |
| RadixSorts.InsertAllIsRadix | benchmarks/radix_benchmark.cpp:123-143 | The path for short inputs gives the same sequence as the passes |
| RadixSorts.ShortcutRadix.Sort | benchmarks/radix_benchmark.cpp:138-143 | The shortcut sort equals the reference on every input |
| RadixSorts.OffsetsStay | benchmarks/radix_benchmark.cpp:158-200 | Histograms taken from the original order stay valid for every later pass |
| RadixSorts.PrecalcShortcutRadix.SortRadix | benchmarks/radix_benchmark.cpp:158-202 | The sort with precalculated histograms equals the reference |
| RadixSorts.PrecalcShortcutRadix.Sort | benchmarks/radix_benchmark.cpp:219-224 | So does the sort that takes the insertion path below 64 items |
| SearchTree.SortSorts | binary_search.cpp:203-225 | seq_sort gives the sorted permutation |
| SearchTree.HalvesJoin | binary_search.cpp:102-119 | The halves give back the list for two or more items; those of a single item are both empty |
| SearchTree.FindIsMembership | binary_search.cpp:124-183 | On a sorted list a key is found if and only if it is an id of the list and its difference from each id on its way from the root fits int32_t; then just the ids on the way are visited, with one callback |
| SearchTree.FindDepth | binary_search.cpp:124-183 | At most floor (log2 n) + 1 nodes are visited, whatever the comparisons say |
| SearchTree.SearchIsRight | binary_search.cpp:203-234 | map and search together: for any sequence and key, the same condition on the sorted sequence, one callback for a key found and none otherwise, and at most floor (log2 n) + 1 nodes |
| SearchTree.SmallIdsAreFound | binary_search.cpp:203-234 | For ids below 2^31, a key that is not negative is found if and only if it is in the sequence |
| SearchTree.CompareTells | binary_search.cpp:264-269 | The comparison has the sign of the difference exactly when that fits int32_t, and is zero exactly for the same word |
| SearchTree.WrappedKeyIsMissed | binary_search.cpp:124-183 | A concrete id that is not found as the difference wraps |

## Left out

- Memory orders, fences and fairness: all steps are sequentially consistent.  What is said about progress is that the steps
  of the executors come to an end, that threads alone finish, and that failed attempts are paid by other threads' commits; a
  waiter that polls, and a scheduler that never runs some thread, are not part of the models.
- The `_size` counter of the stack: an empty pop decrements it and clear does not touch it, so it is no size.
- The stack's destructor, which clears without other clients, and the construction and destruction of values.
- Payload destructors of all collectors are opaque.  In the tracing collector they run after the references that they
  would still dispose of were deleted.
- Handles (`gc_ptr`, `gc`, `gc_buddy`), the stack of objects under construction and the collector's thread check.
- Mutators that run during a collection of the tracing collector.
- The first collector, which marks, compacts and then sweeps its table, as a whole: its mark loop is `ObjectTable.Mark` and its
  compaction `Compaction.Paging.Compress`.
- Reuse of the nodes of the object table, which come from a pool of their own: nodes are objects that are never issued again.
- Compaction.Paging.Compress: pages are values of two fields and buffers are cells of one memory; moving and freeing of the
  buffers themselves is not modelled, nor what compress does after it has taken the page that it is reading.
- Block lengths near 2^32 bytes, for which align_length would wrap.
- proto_e::executor::run_parallel from inside a task, since it resets the buffers of all lanes, and more than 8190 pieces,
  for which the task buffer is too small.
- Exceptions thrown by a task, the shutdown of both executors, proto_g's single `push`, and `proto_f`.
- Histogram counters are unbounded: with fewer than 2^31 items none of them wraps.
- Benchmarks, random data, terminal output, SIMD, `benchmarks/binalloc`, spin locks, bitsets and `static_ring_buffer.hpp`.
