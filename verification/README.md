# SimpleOS core: verified model

SimpleOS is a small x86_64 kernel. This project models the parts of it whose linked structures,
bitmaps and rings must agree with simple abstract objects over every run, and proves that they do:

- the **kernel heap** (`Layout`, `HeapRuns`, `HeapMemory`, `Heap`): a first-fit allocator over a
  doubly linked, address-ordered block list whose headers are bytes of memory. The abstraction is a
  sequence of blocks that tiles the heap;
- the **page bitmap** and the **virtual memory manager** over it (`Pmm`, `Vmm`): a four-level radix
  tree filled on demand (4-level paging, section 4.5 of Intel SDM Volume 3A) that behaves as a finite
  map from 36-bit virtual page numbers to frames;
- the **priority scheduler** (`SchedulerModel`, `SchedulerTiming`, `SchedulerPriority`,
  `SchedulerEffects`, `SleepOrder`, `SleepTime`, `Links`, `Scheduler`, `SharedLinks`,
  `SchedulerFailures`) and the **process table** (`ProcessTable`,
  `Threads`): 32 intrusive lists behind a bitmap, a sorted sleep list, one running process;
- the **virtqueue driver** (`Virtqueue`, `Rings`): driver and device as two parties over a descriptor
  free list and two rings with 16-bit counters (section 2.7 of VIRTIO 1.2, Split Virtqueues);
- the **Internet checksum** (`Checksum`, RFC 1071) and the **keyboard ring** (`Keyboard`).

Each component has specification functions on values, a class or methods in the source's own
imperative form proved equal to those functions, and theorems about the functions over all runs.
`Bits` defines word operations on naturals, `Kernel` the shared constants.
`dafny verify dfyconfig.toml` checks everything.

## Where the code does not keep its promise

Each of these is stated as an equivalence, so the condition is exact, and has a lemma at an input or
a reached state where the promise fails.

- `krealloc` growing in place enlarges a block without unlinking its neighbour: `Layout.ReallocTiles`
  says the list still tiles the heap if and only if that branch is not taken. Shrinking keeps the
  tiling, but neither the counter (`Layout.ReallocBytesExact`, `HeapRuns.RunCountsExact`) nor
  coalescing (`Layout.ReallocCoalescedExact`, `HeapRuns.RunCoalescedExact`). Failing runs:
  `HeapRuns.GrowthFails`, `HeapRuns.ShrinkFails`, `HeapRuns.RestoringFails`.
- `align_size` wraps to 0 for the seven largest sizes (`Layout.AlignSizeServes`).
- `scheduler_remove` on a process that is in no list empties the queue of its level. Sleeping or
  blocking oneself loses nobody if and only if nobody else waits at that level
  (`SchedulerModel.SleepExact`, `BlockSelfExact`, `BlockOtherExact`); dispatching the off-queue idle
  process at level 31 has the same effect (`DispatchExact`, `ScheduleExact`, `YieldExact`, `TickExact`).
  Failing runs: `SchedulerFailures.LeavingLoses`, `BlockingTwiceLoses`, `LowestLoses`,
  `LowestLosesByTicks`.
- `scheduler_sleep(n)` lasts max(1, n) ticks as long as the 64-bit tick counter does not wrap
  (`SleepTime.SleepLasts`); a wake time that wraps ends at the next tick (`SleepTime.SleepCutShort`).
- Ready lists and the sleep list share their link fields. Unblocking a process leaves lists that make
  sense if and only if it does not sleep (`SharedLinks.UnblockExact`; failing run:
  `SharedLinks.UnblockFails`). Blocking a sleeper loses nobody if and only if others sleep before it,
  or it is the only sleeper and nobody waits at its level (`SharedLinks.BlockSleeperExact` on the
  lists, `SchedulerModel.BlockOtherExact` on the queues; failing runs:
  `SchedulerFailures.BlockingFirstSleeperLoses`, `BlockingOnlySleeperLoses`).
  `process_destroy` takes a process off no list (`Threads.DestroyExact`;
  failing run: `SchedulerFailures.DestroyingLoses`).
- The design document (`.cursor/plans/kernel_core_features_aa003429.plan.md`, line 386) says that the
  highest-priority ready process always runs. `SchedulerPriority.StepHighestExact` gives for every
  operation the exact condition under which it keeps this rule, `RunHighestExact` the same over runs,
  and `MendedAtSliceEnd` how long a broken rule lasts. It is broken by waking, unblocking or creating
  a process above the running level, and by yielding or ending a slice alone at a level, because
  `schedule` chooses before it puts the current process back. Failing runs:
  `SchedulerFailures.SpawnInverts`, `YieldInverts`, `WakingInverts`.
- `vmm_get_physical` masks only the low 12 bits of an entry, so a mapping translates to its frame if
  and only if the flag bits from 12 up lie inside the frame number (`Vmm.MapEntryTranslates`); the
  no-execute flag does not (`Vmm.NoExecuteBreaksTranslation`).
- The ring mask `size - 1` is a remainder if and only if the size is a power of two
  (`Virtqueue.MaskNeedsPowerOfTwo`; failing size: `Virtqueue.ThreeSlotsFail`).
- The 32-bit sum of `ip_checksum` wraps on long inputs: the result is that of RFC 1071 if and only if
  the word sum is below 2^32 (`Checksum.MatchesRfc`, `Checksum.LongInputDiffers`). A stored checksum
  still verifies then.

## Model

| member | source | states |
|---|---|---|
| `Layout.AlignSizeServes` | kernel/mm/heap.c:28-30 | the aligned size is a multiple of 8, at least the request exactly for requests up to 2^64 - 8, less than 8 above it, and 0 for the rest |
| `Layout.MallocTiles` | kernel/mm/heap.c:110-127 | after any kmalloc the blocks still tile the heap in address order with sizes that are multiples of 8 |
| `Layout.FreeTiles` | kernel/mm/heap.c:149-163 | likewise after any kfree, with both coalescing directions |
| `Layout.ReallocTiles` | kernel/mm/heap.c:166-210 | krealloc keeps the tiling if and only if it does not grow in place |
| `Layout.GrowthBreaksTiles` | kernel/mm/heap.c:187-197 | enlarging a block that has a successor always breaks the tiling |
| `Layout.MallocCoalesced` | kernel/mm/heap.c:110-127 | kmalloc never leaves two neighbouring free blocks where there were none |
| `Layout.FreeCoalesced` | kernel/mm/heap.c:89-107 | nor does kfree: one pass to the right and one to the left is enough |
| `Layout.MallocFailsWhenNoGap` | kernel/mm/heap.c:54-127 | on a coalesced heap kmalloc returns NULL if and only if every stretch of address space outside live blocks is shorter than 32 bytes plus the aligned request |
| `Layout.MallocBytes` | kernel/mm/heap.c:110-127 | the bytes of live blocks rise by exactly header plus final block size |
| `Layout.FreeBytes` | kernel/mm/heap.c:149-163 | the bytes of live blocks fall by exactly the cost of the freed block, and by nothing for a block that is already free |
| `Layout.BytesAddUp` | kernel/mm/heap.c:33-127 | live bytes and free bytes, headers included, add up to the tiled heap |
| `Layout.AllFreed` | kernel/mm/heap.c:33-51 | a tiled, coalesced heap with no live byte is the single initial free block |
| `Layout.ReallocBytesExact` | kernel/mm/heap.c:166-210 | by how much krealloc's change of live bytes differs from its change of heap_used_size: not at all, except by the cut-off bytes when shrinking splits and by the swallowed bytes when growing in place |
| `Layout.ShrinkCoalescedExact` | kernel/mm/heap.c:181-185 | the shrink path keeps the heap coalesced if and only if it does not split in front of a free block |
| `Layout.ReallocCoalescedExact` | kernel/mm/heap.c:166-210 | krealloc off the growth branch keeps the heap coalesced if and only if it does not cut off a free block in front of a free one |
| `Layout.MallocLive` | kernel/mm/heap.c:110-127 | kmalloc adds exactly one live payload, which was not live before and is large enough, and leaves every other as it was |
| `Layout.MallocSize` | kernel/mm/heap.c:68-127 | the block handed out is the first free one that is large enough, cut to the aligned request when 48 more bytes are there, with the rest behind it as a free block of its own, and handed out whole otherwise; so it exceeds the aligned request by less than 48 bytes |
| `Layout.ReallocSize` | kernel/mm/heap.c:166-210 | krealloc in numbers: cut in place, grown over a free successor, moved to a block of less than 48 bytes more, or failed without a change, and exactly when each of these happens |
| `Layout.EdgeCases` | kernel/mm/heap.c:110-175 | kmalloc(0) is NULL, kfree of NULL or of a freed block does nothing, krealloc of NULL allocates and krealloc to zero frees |
| `Layout.FreeLive` | kernel/mm/heap.c:149-163 | kfree removes exactly the given payload |
| `HeapRuns.StepKeepsInv` | kernel/mm/heap.c:110-210 | kmalloc, kfree of a live pointer, and krealloc's shrink and move paths keep the tiling and keep every outstanding request backed by a live block of sufficient size |
| `HeapRuns.RunKeepsInv` | kernel/mm/heap.c:33-210 | the same over every run |
| `HeapRuns.PayloadsDisjoint` | kernel/mm/heap.c:110-127 | in every such state two outstanding payloads are 8-aligned, inside the heap and separated by at least a header |
| `HeapRuns.RunCoalescedExact` | kernel/mm/heap.c:89-210 | in a legal run all states are coalesced if and only if no krealloc cuts off a free block in front of a free one |
| `HeapRuns.RunCountsExact` | kernel/mm/heap.c:221-231 | after a legal run heap_used_size is the sum of size + 32 over live blocks, and heap_total_size minus it the sum over free blocks, if and only if no krealloc shrank a block by splitting; otherwise it is too large |
| `HeapRuns.GrowthFails` | kernel/mm/heap.c:187-197 | on a one-page heap, kmalloc(8) and krealloc to 16 bytes break the tiling and the counter |
| `HeapRuns.ShrinkFails` | kernel/mm/heap.c:181-185 | kmalloc(128) and krealloc to 8 bytes leave two free neighbours and a counter 120 bytes too high |
| `HeapRuns.RestoringFails` | kernel/mm/heap.c:149-185 | freeing that block then gives everything back, yet two blocks remain and the counter is 120 |
| `HeapRuns.FreshInv` | kernel/mm/heap.c:33-51 | every heap that heap_init leaves is a state from which the run theorems start |
| `HeapRuns.RunRestoresHeap` | kernel/mm/heap.c:33-210 | when every allocation has been freed, in any order, and no krealloc left free neighbours, the heap is the initial block again, with the counter at 0 if and only if no krealloc split a block |
| `Heap.SplitLinked` | kernel/mm/heap.c:68-86 | the pointer writes of split_block turn the doubly linked list of the old blocks into that of the new ones |
| `Heap.MergeLinked` | kernel/mm/heap.c:89-107 | likewise for the writes that merge a block with its successor |
| `HeapMemory.HeaderReadsBack` | kernel/mm/heap.c:10-16 | a header stored field by field, little-endian with a 32-bit flag and padding, is read back from its bytes |
| `HeapMemory.ListStored` | kernel/mm/heap.c:68-107 | rewriting headers of a list whose headers lie 32 bytes apart leaves all its headers stored |
| `Heap.Allocator.Init` | kernel/mm/heap.c:33-51 | one free block inside the given range, losing fewer than 8 bytes at each end, in place of any earlier heap; NULL or fewer than 48 bytes change nothing |
| `Heap.Allocator.FindFreeBlock` | kernel/mm/heap.c:54-65 | the walk over next pointers read from memory returns the first free block that is large enough, or NULL when there is none |
| `Heap.Allocator.SplitBlock` | kernel/mm/heap.c:68-86 | the list in memory stays valid and becomes the split sequence; only header bytes are written |
| `Heap.Allocator.CoalesceBlocks` | kernel/mm/heap.c:89-107 | the list in memory stays valid and becomes the coalesced sequence; only header bytes are written and the live byte count is unchanged |
| `Heap.Allocator.Kmalloc` | kernel/mm/heap.c:110-127 | the list in memory stays valid, the new blocks and pointer are those of first fit, heap_used_size rises by the charge for the block, and no byte of a live payload changes |
| `Heap.Allocator.Kfree` | kernel/mm/heap.c:149-163 | likewise; every other payload keeps its bytes |
| `Heap.Allocator.CopyBytes` | kernel/mm/heap.c:198-209 | the copy loop moves every byte and writes nothing else |
| `Heap.Allocator.FillPayload` | kernel/mm/heap.c:198-209 | copying into a payload reaches no header, so every header is still read back as before |
| `Heap.Allocator.ReallocMove` | kernel/mm/heap.c:198-209 | the moved payload begins with all the old bytes, other payloads are untouched, and on failure the heap is unchanged |
| `Heap.Allocator.Krealloc` | kernel/mm/heap.c:166-210 | the result keeps the first min(old, new) bytes and every other payload; the heap stays valid if and only if the in-place growth branch is not taken; heap_used_size keeps its distance from the live bytes if and only if nothing grew in place or was split |
| `Pmm.FirstWindowIsLowest` | kernel/mm/pmm.c:119-144 | the window searched for is free, at or above the start, and the lowest such; it is missing only when there is none |
| `Pmm.SkipAhead` | kernel/mm/pmm.c:119-144 | jumping past the first used page found skips no window |
| `Pmm.WindowExactly` | kernel/mm/pmm.c:119-144 | the window found lies between pages 512 and 65536, is free, and no lower one is; none is found exactly when there is none |
| `Pmm.FreedExactly` | kernel/mm/pmm.c:60-94 | a page is free after initialisation if and only if it is page 512 or above and an entry of type 3, 4 or 7 covers it |
| `Pmm.OnePageIsAWindow` | kernel/mm/pmm.c:97-107 | the single-page search agrees with the window search for count 1 |
| `Pmm.Manager.BitmapSet` | kernel/mm/pmm.c:22-26 | sets the bit of exactly that page and does nothing beyond the bitmap |
| `Pmm.Manager.BitmapClear` | kernel/mm/pmm.c:29-33 | clears the bit of exactly that page |
| `Pmm.Manager.BitmapTest` | kernel/mm/pmm.c:36-41 | pages beyond the bitmap count as used |
| `Pmm.Manager.Init` | kernel/mm/pmm.c:44-94 | the free pages are exactly those from 512 up that some entry of type 3, 4 or 7 covers, whatever the order or overlap of entries, and used_pages counts the set bits; a rejected map leaves totals of 0 |
| `Pmm.Manager.AllocPage` | kernel/mm/pmm.c:97-107 | takes the lowest free page from 512 up; NULL and no change when there is none |
| `Pmm.Manager.FreePage` | kernel/mm/pmm.c:110-116 | frees that page and keeps the count equal to the number of set bits, also for pages already free |
| `Pmm.Manager.AllocPages` | kernel/mm/pmm.c:119-144 | takes the lowest free window for counts 1 to 256; NULL and no change otherwise |
| `Pmm.Manager.FindWindow` | kernel/mm/pmm.c:123-142 | the skip-ahead search returns what the page-by-page search returns |
| `Pmm.Manager.FreePages` | kernel/mm/pmm.c:147-156 | frees exactly the pages of the run, counting only those that were set |
| `Pmm.RunKeeps` | kernel/mm/pmm.c:97-156 | over every run of allocations and releases, outstanding allocations never overlap each other or the pages used at first, nothing else is used, and releasing all restores the initial set |
| `Vmm.VpnDigits` | kernel/mm/vmm.c:26-40 | the four indices are the base-512 digits of bits 12 to 47 |
| `Vmm.SamePath` | kernel/mm/vmm.c:26-40 | two addresses share all four indices if and only if they share the 36-bit page number |
| `Vmm.DescendKeepsInv` | kernel/mm/vmm.c:64-77 | following or creating one table keeps the tables a tree of distinct used pages |
| `Vmm.DescendKeepsLeaves` | kernel/mm/vmm.c:64-77 | creating a table changes no translation of any address space |
| `Vmm.GetOrCreateCorrect` | kernel/mm/vmm.c:57-115 | the walk keeps the tree and every translation, also when pages run out half-way, and returns the leaf table of the path |
| `Vmm.GetOrCreateCost` | kernel/mm/vmm.c:57-115 | used pages rise by the number of missing tables (0 to 3) or by all pages left, whichever is less; the walk succeeds if and only if the free pages suffice |
| `Vmm.SetEntryCorrect` | kernel/mm/vmm.c:146-161 | a map or unmap changes the leaf of its own path and of no other, and rewrites no present upper-level slot |
| `Vmm.MapEntryTranslates` | kernel/mm/vmm.c:146-188 | a stored entry translates to frame plus offset if and only if the flags from bit 12 up lie inside the frame number |
| `Vmm.MapEntrySpells` | kernel/mm/vmm.c:146-152 | the stored entry has bit 0, every flag bit and the frame bits from 12 up set, and no other |
| `Vmm.RunHolds` | kernel/mm/vmm.c:146-161 | after any run, whatever the flags, every mapped page has exactly the frame and flag bits of its last mapping and the entry of any other page is 0 |
| `Vmm.NoExecuteBreaksTranslation` | kernel/mm/vmm.h:13-22 | the no-execute flag makes frame 0 translate to another address |
| `Vmm.SucceedsWhenPagesSuffice` | kernel/mm/vmm.c:146-161 | the exact success condition and page cost of map and unmap |
| `Vmm.StepCorrect` | kernel/mm/vmm.c:146-215 | every operation keeps the tree, moves no table, and changes exactly the leaf it targets |
| `Vmm.RunRefinesMap` | kernel/mm/vmm.c:146-188 | after any run, translation answers like the finite map from page numbers to frames: last mapped frame plus offset, 0 if never mapped or unmapped since |
| `Vmm.CreateSpaceCorrect` | kernel/mm/vmm.c:196-215 | a new address space keeps the tree and every kernel translation, has the kernel's upper 256 slots and an empty lower half |
| `Vmm.SpacesAgree` | kernel/mm/vmm.c:196-215 | an address space translates a page as the kernel does if and only if its top slot is present or the kernel maps nothing there |
| `Vmm.SpacesAgreeAfterRun` | kernel/mm/vmm.c:57-215 | for slots present at creation the two still agree after any later run of maps and unmaps |
| `Vmm.EmptyTree` | kernel/mm/vmm.c:118-143 | a zeroed PML4 is a valid tree that refines the empty map |
| `Vmm.Manager.Init` | kernel/mm/vmm.c:118-143 | a tree that CR3 already holds is taken as it is; without one, a fresh PML4 maps nothing, and this fails if and only if no page is free |
| `Vmm.Manager.AllocPageTable` | kernel/mm/vmm.c:43-54 | the lowest free page, zeroed; 0 and no change when there is none |
| `Vmm.Manager.GetOrCreateEntry` | kernel/mm/vmm.c:57-115 | the in-place walk computes the specified tree and leaf table |
| `Vmm.Manager.MapPage` | kernel/mm/vmm.c:146-152 | one Map step of the run theorems; nothing happens without a PML4 |
| `Vmm.Manager.UnmapPage` | kernel/mm/vmm.c:155-161 | one Unmap step of the run theorem |
| `Vmm.Manager.GetPhysical` | kernel/mm/vmm.c:164-188 | reads the translation of the page number; 0 when any level is missing |
| `Vmm.Manager.CreateAddressSpace` | kernel/mm/vmm.c:196-215 | every upper-half page translates as in the kernel; an empty PML4 while there is no kernel one; 0 and no change when pages run out |
| `Links.AppendLinked` | kernel/proc/scheduler.c:49-57 | the pointer writes at the tail extend a doubly linked list by one member |
| `Links.UnlinkLinked` | kernel/proc/scheduler.c:74-85 | the pointer writes of a removal give the doubly linked list without that member |
| `Links.InsertLinked` | kernel/proc/scheduler.c:235-253 | the pointer writes of an insertion give the doubly linked list with the member in place |
| `SchedulerModel.AddKeeps` | kernel/proc/scheduler.c:35-63 | adding a process that is in no list puts it, ready and with a full slice, into the one queue of its level and displaces nobody |
| `SchedulerModel.RemoveKeeps` | kernel/proc/scheduler.c:66-91 | exactly who stays queued: everybody else, except that a process in no list empties its level |
| `SchedulerModel.DispatchExact` | kernel/proc/scheduler.c:177-180 | dispatching loses nobody if and only if the chosen process is queued or its level is empty |
| `SchedulerModel.ScheduleExact` | kernel/proc/scheduler.c:159-194 | schedule keeps lists and sleepers in order and leaves somebody running; it loses nobody if and only if it does not dispatch the idle process over a process of level 31 |
| `SchedulerModel.DuePrefix` | kernel/proc/scheduler.c:130-141 | in a sorted sleep list the due sleepers are exactly a prefix |
| `SchedulerModel.WakeExact` | kernel/proc/scheduler.c:130-141 | a tick appends to each ready list exactly its due sleepers, in order, and leaves the later ones asleep |
| `SchedulerModel.InsertSorted` | kernel/proc/scheduler.c:235-253 | inserting before the first later sleeper keeps the list sorted by wake time |
| `SleepOrder.InsertInOrder` | kernel/proc/scheduler.c:235-253 | a process that falls asleep goes after all sleepers of the same wake time, who arrived before it |
| `SleepOrder.RunOrdered` | kernel/proc/scheduler.c:127-256 | over every run the sleep list is sorted by wake time, equal times in order of arrival |
| `SleepOrder.WakesInOrder` | kernel/proc/scheduler.c:130-141 | a tick appends to each ready list exactly its due sleepers in order of wake time and arrival, and exactly the others stay asleep |
| `SleepTime.AsleepExact` | kernel/proc/scheduler.c:127-141 | after j ticks exactly those sleepers are still asleep whose wake time has not come at any of them |
| `SleepTime.SleepLasts` | kernel/proc/scheduler.c:226-256 | a process that sleeps n ticks is asleep after j further ticks if and only if j < max(1, n), when the tick counter does not wrap |
| `SleepTime.SleepEnds` | kernel/proc/scheduler.c:127-141 | at its last tick it is put, ready, behind those that wait at its level |
| `SleepTime.SleepCutShort` | kernel/proc/scheduler.c:230-230 | a sleep whose wake time wraps ends at the next tick |
| `SchedulerModel.SleepExact` | kernel/proc/scheduler.c:226-256 | scheduler_sleep loses nobody if and only if no other process waits at the sleeper's level |
| `SchedulerModel.BlockSelfExact` | kernel/proc/scheduler.c:197-207 | the same for blocking oneself |
| `SchedulerModel.BlockOtherExact` | kernel/proc/scheduler.c:197-207 | blocking another process, asleep or not, loses nobody if and only if it is queued, sleeps behind others, or is alone at its level and not the first of several sleepers |
| `SchedulerModel.YieldExact` | kernel/proc/scheduler.c:217-223 | yielding loses somebody only through schedule's own case |
| `SchedulerModel.TickExact` | kernel/proc/scheduler.c:127-156 | a tick loses somebody if and only if a slice ends, all queues are empty, no sleeper is due and the current process is a non-idle one of level 31 |
| `SchedulerModel.StepKeeps` | kernel/proc/scheduler.c:127-256 | every operation within the stated preconditions keeps every process in its place |
| `SchedulerModel.RunKeeps` | kernel/proc/scheduler.c:35-256 | the same over every run |
| `SchedulerModel.ExactlyOnePlace` | kernel/proc/scheduler.c:35-256 | in such a state a process is running, in the one ready list of its clamped level, asleep or blocked, and only one of these |
| `SchedulerEffects.UnblockEffect` | kernel/proc/scheduler.c:210-214 | a blocked process becomes ready, last in the queue of its priority clamped to 0..31, with a slice of 37 minus that; nothing else changes, and nothing at all for any other process |
| `SchedulerEffects.SpawnEffect` | kernel/proc/process.c:50-58 | a new thread is queued in the same way at its priority, with nothing charged to it |
| `SchedulerEffects.BlockEffect` | kernel/proc/scheduler.c:197-207 | a process blocked by another is blocked and in no ready queue, and nobody else's place or fields change |
| `SchedulerEffects.BlockSelfEffect` | kernel/proc/scheduler.c:197-207 | a process that blocks itself is blocked, no longer runs and is in no list |
| `SchedulerEffects.YieldEffect` | kernel/proc/scheduler.c:217-223 | a process that yields either stays with slice 0, or waits ready with a full slice at the end of its queue |
| `SchedulerEffects.TickEffect` | kernel/proc/scheduler.c:127-156 | a tick advances the clock by one and charges it to the running process and to no other |
| `SchedulerEffects.AddEffect` | kernel/proc/scheduler.c:35-63 | any process of the table is queued in the same way, and an unused slot is ignored |
| `SchedulerEffects.InitialEffect` | kernel/proc/scheduler.c:105-124 | the initial state, in numbers: the idle process ready at priority 31 off the queues and every other slot unused |
| `SchedulerTiming.ScheduleRotates` | kernel/proc/scheduler.c:159-194 | with nobody above level L, schedule gives the processor and a full slice to the head of queue L and moves the current process to its end |
| `SchedulerTiming.TickAt` | kernel/proc/scheduler.c:127-156 | a tick at which nobody above level L is due takes one from the slice, or at its end rotates the queue |
| `SchedulerTiming.WaitExact` | kernel/proc/scheduler.c:127-194 | as long as nobody above level L wakes, the process at position m of queue L is dispatched after exactly r + m * (37 - L) ticks and not before, where a slice r already used up counts as 1 |
| `SchedulerTiming.TickQuiet` | kernel/proc/scheduler.c:127-141 | a tick brings the sleepers one tick nearer to their wake time and adds none |
| `SchedulerTiming.YieldsRotate` | kernel/proc/scheduler.c:217-223 | j yields rotate the level by j, so k yields of k processes restore the running process and every queue |
| `SchedulerPriority.ScheduleHighestExact` | kernel/proc/scheduler.c:159-194 | after schedule nobody above the running process is ready if and only if the process put back, if any, is not of higher priority than the one chosen |
| `SchedulerPriority.StepHighestExact` | kernel/proc/scheduler.c:35-256 | from a state where the highest-priority ready process runs, the exact condition on the state before each operation (tick, yield, sleep, block, unblock, creation) under which it still does afterwards |
| `SchedulerPriority.RunHighestExact` | kernel/proc/scheduler.c:35-256 | it does in every state of a run if and only if every operation meets its condition |
| `SchedulerPriority.MendedAtSliceEnd` | kernel/proc/scheduler.c:127-194 | once a higher-priority process waits, ticks alone mend this exactly when the running slice ends, and not before; at the next tick if the slice is used up already |
| `SchedulerFailures.LeavingLoses` | kernel/proc/scheduler.c:197-256 | two processes of level 16: the one that sleeps or blocks itself loses the other |
| `SchedulerFailures.BlockingTwiceLoses` | kernel/proc/scheduler.c:197-207 | blocking a blocked process again loses one that came to its level since |
| `SchedulerFailures.LowestLosesByTicks` | kernel/proc/scheduler.c:127-194 | a process of level 31 alone is lost by its sixth tick, not by its fifth |
| `SchedulerFailures.LowestLoses` | kernel/proc/scheduler.c:217-223 | and by yielding |
| `SchedulerFailures.SpawnInverts` | kernel/proc/scheduler.c:35-63 | a process of level 8 added while one of level 16 runs waits |
| `SchedulerFailures.YieldInverts` | kernel/proc/scheduler.c:217-223 | a process of level 8 that yields gives way to one of level 16 |
| `SchedulerFailures.WakingInverts` | kernel/proc/scheduler.c:127-141 | so does one of level 8 that wakes or is unblocked while one of level 16 runs |
| `SchedulerFailures.DestroyingLoses` | kernel/proc/process.c:113-129 | destroying a waiting process leaves its slot in the queue |
| `SharedLinks.UnblockExact` | kernel/proc/scheduler.c:210-214 | the list writes of unblocking a blocked process leave well-formed lists if and only if it does not sleep |
| `SharedLinks.BlockSleeperExact` | kernel/proc/scheduler.c:66-91 | the list writes of blocking a sleeper leave well-formed lists that have lost nobody if and only if others sleep before it, or it is the only sleeper and nobody waits at its level |
| `SharedLinks.UnblockFails` | kernel/proc/scheduler.c:210-214 | a reached state with one sleeper in which unblocking it leaves lists that make no sense |
| `SchedulerFailures.BlockingFirstSleeperLoses` | kernel/proc/scheduler.c:197-207 | a reached state with two sleepers in which blocking the first puts the second, still blocked, into a ready list |
| `SchedulerFailures.BlockingOnlySleeperLoses` | kernel/proc/scheduler.c:74-78 | a reached state in which blocking the only sleeper loses the process that waits at its level |
| `Scheduler.CtzIsFirstLevel` | kernel/proc/scheduler.c:94-102 | the lowest set bit of the bitmap is the queue that a linear scan finds; a zero bitmap means all are empty |
| `Scheduler.Scheduler.constructor` | kernel/proc/scheduler.c:105-124 | empty lists and bitmap, idle process ready at level 31 and off the queues, nobody running |
| `Scheduler.Scheduler.Add` | kernel/proc/scheduler.c:35-63 | links, heads and bitmap still represent the queues, and the process is appended to the queue of its level |
| `Scheduler.Scheduler.Remove` | kernel/proc/scheduler.c:66-91 | links and heads spell the queues after the removal, for a queued process, one in no list and any sleeper; bitmap and states fit them unless the process was the first of several sleepers |
| `Scheduler.Scheduler.FindNext` | kernel/proc/scheduler.c:94-102 | the head of the first non-empty queue, or idle |
| `Scheduler.Scheduler.Schedule` | kernel/proc/scheduler.c:159-194 | the in-place code computes the specified schedule; lists stay well linked |
| `Scheduler.Scheduler.Tick` | kernel/proc/scheduler.c:127-156 | the in-place code computes the specified tick |
| `Scheduler.Scheduler.WakeSleepers` | kernel/proc/scheduler.c:127-141 | the wake loop, which ends because the sleep list shrinks, computes the specified waking |
| `Scheduler.Scheduler.Yield` | kernel/proc/scheduler.c:217-223 | the in-place code computes the specified yield |
| `Scheduler.Scheduler.Sleep` | kernel/proc/scheduler.c:226-256 | the in-place code computes the specified sleep, lists linked and sorted, also when the caller takes its level with it; links of processes in no list stay NULL if nobody but the idle process waited at that level |
| `Scheduler.Scheduler.FindSlot` | kernel/proc/scheduler.c:235-249 | the walk stops between the last sleeper that wakes no later and the first that wakes later |
| `Scheduler.Scheduler.Block` | kernel/proc/scheduler.c:197-207 | the in-place code computes the specified block for every target, NULL meaning the current process, also when a level is lost or a sleeper is blocked |
| `Scheduler.Scheduler.Unblock` | kernel/proc/scheduler.c:210-214 | queues a blocked process and does nothing to any other |
| `ProcessTable.CreateKeeps` | kernel/proc/process.c:41-88 | creation keeps pids distinct and stacks disjoint and used |
| `ProcessTable.DestroyKeeps` | kernel/proc/process.c:113-129 | destruction gives back the stack of that process and of no other |
| `ProcessTable.CreateFailsExact` | kernel/proc/process.c:41-88 | creation fails if and only if all 64 slots are live or of any two adjacent pages from 512 up one is used |
| `ProcessTable.CreateEffect` | kernel/proc/process.c:41-88 | a new process takes the first unused slot, the next pid and two adjacent free pages, and nothing else changes |
| `ProcessTable.DestroyEffect` | kernel/proc/process.c:113-129 | destruction frees the slot and the two stack pages, and nothing else |
| `ProcessTable.RunKeeps` | kernel/proc/process.c:41-129 | over every run of creations and destructions, with other code taking and giving pages between, all of this holds, and with no process left only the others' pages are used |
| `Threads.DestroyExact` | kernel/proc/process.c:113-129 | destruction leaves the scheduler in order if and only if the process neither runs, waits nor sleeps and is not the idle process |
| `Threads.StartIsLegal` | kernel/proc/process.c:31-88 | the slot that creation finds is in no list of the scheduler, so that scheduler_add may be called on it |
| `Threads.RunKeepsSystem` | kernel/proc/scheduler.c:35-256 | over every run of creations, destructions and scheduling, table and scheduler agree on the slots in use, pids and stacks stay distinct and every process stays in exactly one place |
| `Threads.Boot` | kernel/proc/scheduler.c:105-124 | scheduler_init establishes this, with the idle process in the first slot |
| `ProcessTable.Table.AllocSlot` | kernel/proc/process.c:31-38 | the first unused slot, or none |
| `ProcessTable.Table.CreateThread` | kernel/proc/process.c:41-88 | the in-place code computes the specified creation on table and bitmap |
| `ProcessTable.Table.DestroyThread` | kernel/proc/process.c:113-129 | the in-place code computes the specified destruction |
| `ProcessTable.Table.Get` | kernel/proc/process.c:137-144 | the one live process with that pid, or none when no live process has it |
| `Rings.MaskedSlot` | kernel/virtio_net.h:153-154 | masking a wrapped 16-bit counter gives the slot of the unbounded counter, for power-of-two sizes |
| `Rings.WrappedEqual` | kernel/virtio_net.h:165-165 | two 16-bit counters less than 2^16 apart are equal if and only if the unbounded ones are |
| `Virtqueue.InitialInv` | kernel/virtio_net.h:109-135 | after virtq_init every descriptor is on the free list and both rings are empty |
| `Virtqueue.TestIsExact` | kernel/virtio_net.h:164-166 | the wrapped test finds something if and only if a returned buffer is pending, and so does the device's test |
| `Virtqueue.TakeIsOldest` | kernel/virtio_net.h:138-161 | the device always reads the oldest published descriptor, never an unwritten or overwritten slot |
| `Virtqueue.StepKeeps` | kernel/virtio_net.h:138-183 | each driver or device step keeps every descriptor in exactly one place, num_free the length of the free list, and both rings intact |
| `Virtqueue.RunKeeps` | kernel/virtio_net.h:109-183 | the same for every interleaving |
| `Virtqueue.InFlightUntouched` | kernel/virtio_net.h:138-183 | a descriptor that is not on the free list keeps its address, length and flags through every step of either side |
| `Virtqueue.CallsAreSafe` | kernel/virtio_net.h:138-183 | in such a state both driver calls index the table and the rings within bounds |
| `Virtqueue.MaskNeedsPowerOfTwo` | kernel/virtio_net.h:153-154 | the mask is the remainder for every index if and only if the size is a power of two |
| `Virtqueue.ThreeSlotsFail` | kernel/virtio_net.h:153-154 | a size for which it is not |
| `Virtqueue.RepostKeeps` | kernel/virtio_net.h:340-341 | reposting a buffer takes the descriptor just reclaimed and fills in its address, length 2048 and the write flag |
| `Virtqueue.RecvRunKeeps` | kernel/virtio_net.h:311-348 | over every run of virtio_net_recv and the device, descriptor i in flight holds receive buffer i with length 2048 and bit 1 of its flags |
| `Virtqueue.DeviceSeesBuffer` | kernel/virtio_net.h:340-341 | so the device always takes a 2048-byte receive buffer that it may write |
| `Virtqueue.PostedRecvInv` | kernel/virtio_net.h:109-161 | posting the receive buffers in order on a fresh queue reaches a state where that association holds |
| `Virtqueue.Virtq.constructor` | kernel/virtio_net.h:109-135 | the loop chains all descriptors into the free list; for a power-of-two size the queue invariant holds |
| `Virtqueue.Virtq.AddBuffer` | kernel/virtio_net.h:138-161 | moves the head of the free list to the end of the published descriptors and keeps the queue invariant; -1 and no change when nothing is free |
| `Virtqueue.Virtq.GetUsed` | kernel/virtio_net.h:164-183 | returns the oldest returned descriptor with its length, puts it at the head of the free list and keeps the queue invariant; -1 and no change when nothing is pending |
| `Checksum.IpChecksum` | kernel/net.h:154-172 | the loop computes the complement of the folded word sum modulo 2^32, for even and odd lengths |
| `Checksum.FoldCarries` | kernel/net.h:167-169 | the fold loop ends with the representative of the sum modulo 0xFFFF, 0 only for 0 |
| `Checksum.FoldIsNorm` | kernel/net.h:167-169 | repeated folding equals that representative for every sum |
| `Checksum.StoredVerifies` | kernel/virtio_net.h:442-445 | storing the checksum in a zeroed, 16-bit-aligned field makes the recomputed checksum 0, for every length |
| `Checksum.MatchesRfc` | kernel/net.h:154-172 | the stored bytes are those of the big-endian one's-complement sum of RFC 1071 if and only if the word sum fits in 32 bits |
| `Checksum.LongInputDiffers` | kernel/net.h:154-172 | 131076 bytes of 255 are an input for which they differ |
| `Checksum.SwapTwice` | kernel/net.h:107-109 | swapping the bytes of a 16-bit word twice restores it |
| `Keyboard.TestsAreExact` | kernel/drivers/keyboard.c:51-67 | the full and empty tests on wrapped indices are exact, also on a head loaded before later interrupts |
| `Keyboard.StepKeeps` | kernel/drivers/keyboard.c:51-67 | an interrupt between any two accesses of the reader keeps what was read a prefix of what was accepted and the rest in the ring |
| `Keyboard.RunKeeps` | kernel/drivers/keyboard.c:51-207 | the same over every interleaving: nothing lost, repeated or reordered |
| `Keyboard.DropsOnlyWhenFull` | kernel/drivers/keyboard.c:51-57 | a character is dropped if and only if 255 characters are not yet released |
| `Keyboard.KeyBuffer.BufferPut` | kernel/drivers/keyboard.c:51-57 | appends to the accepted characters unless 255 wait |
| `Keyboard.KeyBuffer.BufferGet` | kernel/drivers/keyboard.c:60-67 | returns the oldest waiting character, or 0 when none waits |
| `Keyboard.KeyBuffer.KeyboardRead` | kernel/drivers/keyboard.c:199-207 | reads the oldest min(n, waiting) characters in order |

## Left out

Modelling choices and weaker contracts:

- Heap.Allocator.Init: requires that the range ends within the address space and leaves 24 bytes of it, so that block arithmetic does not wrap.
- Heap.Allocator.Krealloc: heap_used_size is a natural number; that it wraps after 2^64 bytes of accumulated excess is not modelled.
- HeapRuns.RunKeepsInv: runs do not take krealloc's in-place growth, which breaks the tiling; `Layout.ReallocTiles` gives the exact condition.
- Scheduler.Scheduler.Sleep: requires that the caller is not the idle process, and that the idle process does not wait at the caller's level among others, where losing it would leave it stale links.
- Scheduler.Scheduler.Block: asks the same when a process blocks itself. For a process that is not running the removal is written before the state change; they touch different fields.
- Scheduler.Scheduler.Unblock: asks that the process does not sleep; `SharedLinks.UnblockExact` shows that this is necessary.
- SchedulerModel.RunKeeps: operations are atomic. The context switch and interrupts inside scheduler code are not modelled.
- Vmm.Manager.Init: tables that firmware left in CR3 must form a tree like the kernel's own; huge pages are not modelled.
- Vmm.RunRefinesMap: requires flags that fit, as all below 2^12 do (`Vmm.LowFlagsFit`), and as `Vmm.MapEntryTranslates` shows to be necessary.
- Vmm.Manager.GetOrCreateEntry: the three like blocks for the three upper levels are one method, DescendInto.
- ProcessTable.RunKeeps: pids are unbounded; the wrap of the 64-bit counter is not modelled.
- Virtqueue.RunKeeps: the device conforms to the protocol; a device that returns ids it does not hold is not modelled.
- Virtqueue.Virtq.AddBuffer: between its statements the device does not step; every interleaving of the single steps is covered by `Virtqueue.RunKeeps`.

Not modelled, because it is hardware access, user interface, or would only add easy members:

- kmalloc_aligned, whose bookkeeping word overwrites a header field that kfree needs, and kmalloc_size.
- vmm_destroy_address_space, which does not free lower tables; CR3 and TLB operations.
- The stride between UEFI descriptors and memory map entries; the map is a plain sequence.
- The packet copy and the length that virtio_net_recv returns; virtio_net_init, virtio_net_send, PCI scanning, packet building, ip_to_string, byte order of 32-bit words.
- GDT, IDT, PIC, PIT, context.S and other assembly; syscall handlers; boot loader; console, fonts, shell and history; scancode tables.
