# Nova-OS: memory managers, scheduler, device rings and loaders

A Dafny 4.11 model of the parts of Nova-OS that keep a global invariant over a structure which is
linked by pointers or packed into words, with proofs of what those parts promise. Each module stands
for one component:

| file | component |
|---|---|
| `Machine.dfy` | 64-bit wrap-around and power-of-two rounding, shared by the others |
| `DList.dfy` | doubly linked lists threaded through the records themselves, and sequences without repetition, shared by the others |
| `Pmm.dfy` | the bitmap of physical frames |
| `PageTables.dfy` | the four-level page tables, all address spaces at once, on top of the frame allocator |
| `SpaceLife.dfy` | the life of an address space: any run of operations on it from creation to destruction |
| `Vma.dfy` | the list of memory areas of a process and the check of user ranges |
| `Malloc.dfy` | the boundary-tag allocator of the C library |
| `Sched.dfy`, `Kernel.dfy` | the scheduler and the mutex: a transition system, and the linked memory that implements it |
| `Virtqueue.dfy` | the split virtqueue driver with the device's steps |
| `Completion.dfy`, `Prp.dfy` | the NVMe completion queue and the data pointers of a read |
| `Fat32.dfy` | cluster chains and file reads |
| `InitOrder.dfy`, `GnuHash.dfy` | initialisation order and symbol lookup of the dynamic linker |
| `StartStack.dfy` | the start stack, as the kernel writes it and the linker parses it |
| `GpuVa.dfy` | the free list of GPU virtual addresses |

`dafny verify dfyconfig.toml` checks all of it.

The style is the same throughout. A structure is an immutable value with predicates and lemmas about
it. A class holds that value in its fields, together with a ghost view of what the links mean. Its
methods do what the C functions do, and their contracts tie the new view to the old one. Address 0 is
NULL. C's unsigned arithmetic is written out where it can wrap.

## What turned out to be false of the code

The model keeps the code as it is. Where a property fails, a lemma shows it, and another gives the
exact condition under which it holds.

- A new arena of `malloc` is tiled by its chunks exactly if the request leaves nothing or room for a
  whole chunk behind the first one (`Malloc.Allocator.NewArena`, `Malloc.Untiled`). In an arena of the
  default size the requests 65408, 65424 and 65440 do not (`Malloc.TailSizes`). Splitting the first
  chunk of a new arena stores beyond the arena exactly if 16 or 32 bytes are left
  (`Malloc.StoreInTail`); while arenas are tiled it never does (`Malloc.StoreInside`).
- `malloc` hands out a chunk as large as the request exactly up to 2^64 - 4144 bytes
  (`Malloc.Allocator.Malloc`, `Malloc.RoundFits`, `Malloc.AskedFor`); above 2^64 - 16 the request is
  rounded to nothing (`Malloc.RoundWraps`).
- `realloc` returns a chunk as large as the request exactly up to the same size. Between 2^64 - 48 and
  2^64 - 16 it asks for one page (`Malloc.OnePage`), and it copies beyond that exactly if the old chunk
  has more than 4048 bytes, has to move and the page is to be had (`Malloc.Allocator.Realloc`;
  `Malloc.SpilledRealloc` is such a call). Above that it cuts a chunk of an arena down to nothing
  (`Malloc.CutToNothing`).
- `vmaDestroy` keeps the areas sorted and disjoint exactly if no area meets a range that wrapped around
  and ends before it starts, or there is no memory for the second half of an area
  (`Vma.Process.Destroy`). Otherwise the areas overlap under every reading of the list
  (`Vma.BentOverlaps`). `munmap` lets such requests through (`Vma.Process.Munmap`, `Vma.MunmapRange`);
  `Vma.BentMunmap` is one.
- A sleep of n ticks ends at the n-th tick exactly if the 64-bit tick counter does not get in the way
  (`Sched.FirstDue`); otherwise it ends at the next tick (`Sched.SleepCutShort`).
- The list frames of an NVMe read fit into the driver's array exactly if the transfer has at most
  (512 + 511 * 129) pages behind the first one (`Prp.FramesFit`). A request is split into commands of two
  sizes, the largest and that of the last one. Wherever the buffer is, no command overruns the array
  exactly if the 32-bit byte counts of these two are at most one more than that many pages hold
  (`Prp.SafeExactly`, `Prp.Read`); every other request has a call that overruns it (`Prp.StrayCall`).
  Block sizes up to a page are always safe (`Prp.SmallBlocks`), two pages are not (`Prp.FramesOverrun`). The data pointers describe all blocks of
  each command exactly if the byte count of the largest fits into 32 bits (`Prp.WholeRequest`,
  `Prp.ShortRequest`).
- The commands of an NVMe read respect the transfer limit of the device exactly if it is at least one block
  (`Prp.Read`, `Prp.MostAllowed`).
- `get_next_cluster` reads the table entry of a cluster exactly below cluster 2^30 (`Fat32.OwnWord`), where
  all clusters of chains are; above that four times the number wraps.
- `fat32_read` stops at the file size exactly if offset plus size does not wrap (`Fat32.ClipExact`).
- The fit test of the GPU address allocator is right exactly if the end of the block does not wrap to an
  address not behind the range (`GpuVa.FitTest`). The allocator hands out free addresses exactly if
  before any range with room there is none that fools the test, and the rounding of the size does not
  wrap (`GpuVa.VaSpace.Alloc`). `GpuVa.FooledOnce` and `GpuVa.MisledAlloc` are inputs that fail.
- Without memory for a list node the GPU address allocator loses addresses: a new space has none at all,
  a freed block does not come back (`GpuVa.VaSpace.FreeVa`, `GpuVa.LostBlock`), and a range that has to be
  split is cut off and the call fails, which is harmless exactly if the block starts where the range ends
  (`GpuVa.VaSpace.Alloc`, `GpuVa.CutOff`). `GpuVa.TornAlloc` is such a call.
- The kernel fills the start stack inside its top page exactly if the data fits there; it does not check
  (`StartStack.Build`).

Three more things a reader may not expect: a cluster chain of FAT32 also ends, successfully, at the table
values 0 and 1; on a volume with enough clusters the marker for bad clusters is the number of one, at
which `read_cluster_chain` gives up and `fat32_read` does not; and `nv_vmm_free_va` ignores address 0, so
a block allocated there stays allocated.

## Model

| member | source | states |
|---|---|---|
| `Pmm.Pmm.constructor` | src/kernel/mem/pmm.c:46-124 | exactly the frames of conventional memory that nothing reserves are free, padding bits are set, and the used counter is the number of set bits |
| `Pmm.Pmm.AllocFrame` | src/kernel/mem/pmm.c:126-160 | the lowest free frame, NULL exactly if none is free; every word below the scan hint stays full |
| `Pmm.Pmm.AllocFrames` | src/kernel/mem/pmm.c:162-191 | the lowest run of free frames of the length asked for, NULL exactly if there is none |
| `Pmm.Pmm.AllocAlignedFrames` | src/kernel/mem/pmm.c:254-289 | the lowest aligned run, NULL exactly if there is none, although the search skips ahead |
| `Pmm.Pmm.FreeFrame` | src/kernel/mem/pmm.c:193-213 | one frame becomes free, bad addresses and free frames are ignored, the counter and the scan hint stay right |
| `Pmm.Pmm.FreeFrames` | src/kernel/mem/pmm.c:215-239 | exactly the frames of the range that exist become free, with a range end that may wrap |
| `Pmm.Pmm.TakeRun` | src/kernel/mem/pmm.c:181-187 | a run is marked and counted, and the words below the scan hint stay full |
| `Pmm.AllocThenFree` | src/kernel/mem/pmm.c:162-239 | allocating any run and freeing it restores the bitmap |
| `Pmm.PaintBack` | src/kernel/mem/pmm.c:22-32 | marking a free run and clearing it again is the identity |
| `Pmm.PaintedCard` | src/kernel/mem/pmm.c:182-185 | marking a free run of n frames adds n to the number of used frames |
| `PageTables.WalkReadsMap` | src/kernel/mem/vmm.c:199-234 | vmmVirtToPhys and the processor's own walk both read exactly the page map, and the rights of the leaf are the effective rights |
| `PageTables.Vmm.GetOrAllocTable` | src/kernel/mem/vmm.c:28-56 | an existing table is found and its entry gains exactly the rights asked for, or a free frame becomes a table without entries, writable and for users if that was asked for; no other entry of any space changes |
| `PageTables.Vmm.MapPage` | src/kernel/mem/vmm.c:81-108 | the processor finds every byte of the page in the frame with exactly the rights asked for, the leaf has the other flag bits, and every other user address of every space translates as before; or the allocator is exhausted and nothing translates differently; the new tables were free frames and are those missing on the walk of the page, all of them on success |
| `PageTables.Vmm.IsTableEmpty` | src/kernel/mem/vmm.c:110-117 | true exactly if no entry of the table is present |
| `PageTables.Vmm.UnmapPage` | src/kernel/mem/vmm.c:119-175 | the page map loses one page; the tables on its walk that hold nothing any more, and only those, are freed, and no other translation changes |
| `PageTables.DropTable` | src/kernel/mem/vmm.c:156-172 | unhooking an empty table keeps every translation of the space |
| `PageTables.Vmm.CreateAddressSpace` | src/kernel/mem/vmm.c:245-260 | one free frame becomes a root whose user entries are zero and whose kernel entries are those of the kernel, or the allocator is exhausted |
| `PageTables.Vmm.DestroyTable` | src/kernel/mem/vmm.c:577-613 | all tables and leaf frames below a table and the table itself are freed, each once |
| `PageTables.Vmm.DestroyAddressSpace` | src/kernel/mem/vmm.c:572-616 | exactly the tables and the frames still mapped become free, and the other spaces are untouched |
| `SpaceLife.FillPage` | src/kernel/mem/vmm.c:537-567 | allocate a frame and map it, as the page-fault handler and the program loader do: the processor finds the page in a frame that was free, with exactly the rights asked for, and everything else where it was; or the page map is unchanged, the frame is free again, and every other frame is in use |
| `SpaceLife.DropPage` | src/kernel/mem/vmm.c:336-342 | a mapped page is unmapped and its frame freed, a page that is not found is left alone |
| `SpaceLife.DropRange` | src/kernel/mem/vmm.c:336-342 | no page of the range stays mapped, all other pages do, and exactly the frames of the range and the tables that became empty are freed |
| `SpaceLife.Lifecycle` | src/kernel/mem/vmm.c:81-616 | create, any run of maps, fills, unmaps and drops including maps that fail halfway, then destroy: the frames in use are those the run left in use without the frames still mapped, every table frame is back, and no other space changed; a map fails only if the frames held, one table for each place on the walks so far and its own frame are all there are, and with four frames to spare for each operation none fails |
| `SpaceLife.EnoughFrames` | src/kernel/mem/vmm.c:28-108 | no map of a run can fail if four free frames for each operation and two for the space are there at its start |
| `SpaceLife.TidyOwns` | src/kernel/mem/vmm.c:577-613 | each leaf frame is owned by one mapping at the end, and no drop frees a table, if every frame that is mapped is one the caller may free and that no other page has at that time |
| `SpaceLife.FillsOwn` | src/kernel/sched/sched.c:52-82 | runs that fill, unmap and drop always meet the hypothesis of the lifecycle |
| `SpaceLife.SameFrameAgain` | src/kernel/mem/vmm.c:81-175 | so do runs that map a frame again after a failure, with other rights, or elsewhere after an unmap |
| `Vma.RangeCovers` | src/kernel/mem/vmm.c:267-268 | the range is the pages that the request touches exactly if the sum does not wrap, and otherwise its end is 2^64 too low |
| `Vma.WholeIs` | src/kernel/syscall/sysmunmap.c:18 | the length in whole pages is the least that suffices, or nothing if the sum wraps |
| `Vma.MunmapRange` | src/kernel/syscall/sysmunmap.c:18-25 | the range of a request that sysMunmap passes on: its pages, or, if the sum wrapped, one that ends before it starts |
| `Vma.HoldsOne` | src/kernel/mem/vmm.c:382-390 | the list is a partial map from addresses to permissions |
| `Vma.Process.Create` | src/kernel/mem/vmm.c:262-316 | fails exactly for an empty, inverted, too high or overlapping range or without memory; otherwise the map gains the range with the permissions, and the list stays sorted, disjoint and page aligned |
| `Vma.Process.Trim` | src/kernel/mem/vmm.c:330-375 | one area loses exactly the range in the cases whole, split, left and right, or also its second half if there is no memory for it; the list stays sorted and disjoint exactly if the area does not meet an inverted range |
| `Vma.Process.Destroy` | src/kernel/mem/vmm.c:318-380 | the list stays sorted and disjoint exactly if no area meets an inverted range or memory fails; then the map loses exactly the range and keeps everything else, otherwise two areas overlap |
| `Vma.BentOverlaps` | src/kernel/mem/vmm.c:354-368 | what is left of an area that meets an inverted range is two areas that both hold the addresses between, and no reading of the list is sorted |
| `Vma.Process.Munmap` | src/kernel/syscall/sysmunmap.c:5-28 | accepts exactly an aligned address with a length whose wrapping sum lies in user space; takes exactly its pages away, or, if the sum wrapped, keeps the list sorted exactly if no area meets the range |
| `Vma.BentMunmap` | src/kernel/syscall/sysmunmap.c:18-25 | an accepted request that leaves an address in two areas |
| `Vma.Process.Find` | src/kernel/mem/vmm.c:382-390 | the area that holds the address, NULL exactly if there is none |
| `Vma.Process.Validate` | src/kernel/mem/vmm.c:392-445 | accepts exactly if the size is 0, or the range lies in user space and each of its pages is in a user area that may be written, or read if that is all that is asked for |
| `DList.PushFrontLists` | src/lib/libc/stdlib.c:54-61 | pushing keeps a well-formed list and puts the record in front |
| `DList.RemoveLists` | src/lib/libc/stdlib.c:63-74 | removing keeps a well-formed list without the record |
| `DList.InsertAfterLists` | src/kernel/mem/vmm.c:307-312 | inserting behind a record keeps a well-formed list |
| `DList.PushBackLists` | src/kernel/sched/sched.c:125-136 | appending at the tail keeps a well-formed list |
| `DList.Frame` | src/kernel/sched/sched.c:779-784 | a list does not notice link changes of records outside it, which lets two lists share the fields |
| `Malloc.SplitTiled` | src/lib/libc/stdlib.c:120-136 | splitting a chunk keeps the arena tiled with right prevPhys fields |
| `Malloc.MergeTiled` | src/lib/libc/stdlib.c:222-231 | merging with the physical successor keeps the arena tiled with right prevPhys fields |
| `Malloc.SplitInv` | src/lib/libc/stdlib.c:120-136 | splitting keeps the whole invariant: tiling, no two free neighbours, each free chunk listed once, counts, disjoint mappings |
| `Malloc.MergeInv` | src/lib/libc/stdlib.c:222-243 | merging keeps the whole invariant |
| `Malloc.Disjoint` | src/lib/libc/stdlib.c:14-22 | no two chunks overlap, headers included, in any arena or mapping |
| `Malloc.Apart` | src/lib/libc/stdlib.c:14-22 | live payloads never overlap |
| `Malloc.WholeArena` | src/lib/libc/stdlib.c:245-246 | when no chunk of an arena is allocated, the coalesced chunk is the whole arena, so the release test passes |
| `Malloc.Allocator.RemoveFromFreeList` | src/lib/libc/stdlib.c:63-74 | exactly this chunk leaves the free list |
| `Malloc.Allocator.AddToFreeList` | src/lib/libc/stdlib.c:54-61 | exactly this chunk goes to the front of the free list |
| `Malloc.Allocator.AbsorbNext` | src/lib/libc/stdlib.c:222-231 | a chunk takes over its free successor, size and links included, and no other chunk or payload changes |
| `Malloc.Allocator.FirstFit` | src/lib/libc/stdlib.c:115-146 | the first chunk of the free list that is large enough, none exactly if none is |
| `Malloc.Allocator.TakeFrom` | src/lib/libc/stdlib.c:117-144 | the chunk is handed out, cut down to the request exactly if the rest can be a chunk, and every other live chunk is as it was |
| `Malloc.Allocator.NewArena` | src/lib/libc/stdlib.c:148-193 | a new arena with the request as its first chunk; the heap invariant holds exactly if no tail is left |
| `Malloc.ArenaExact` | src/lib/libc/stdlib.c:149-152 | an arena has 64 KiB, or the least number of pages for the headers and the request |
| `Malloc.Untiled` | src/lib/libc/stdlib.c:180-189 | with a tail no assignment of chunks tiles the arena |
| `Malloc.TailSizes` | src/lib/libc/stdlib.c:149-152 | the three request sizes that leave a tail in a default arena |
| `Malloc.StoreInside` | src/lib/libc/stdlib.c:309-312 | the store to the prevPhys field behind a split chunk stays inside a tiled arena |
| `Malloc.StoreInTail` | src/lib/libc/stdlib.c:309-312 | in a new arena it leaves the arena exactly if 16 or 32 bytes are left behind the first chunk |
| `Malloc.RoundFits` | src/lib/libc/stdlib.c:92-96 | rounding and page counting give the least multiples that suffice, exactly up to the largest request |
| `Malloc.RoundWraps` | src/lib/libc/stdlib.c:92 | above 2^64 - 16 a request is rounded to nothing, and only there to less than it is |
| `Malloc.AskedFor` | src/lib/libc/stdlib.c:92-132 | the chunk that is cut, mapped or made for a request holds it exactly up to the largest request |
| `Malloc.Allocator.MapLarge` | src/lib/libc/stdlib.c:94-111 | one mapping with one chunk, nothing else changes |
| `Malloc.Allocator.Malloc` | src/lib/libc/stdlib.c:88-193 | for every 64-bit size: NULL exactly for size 0 or a failed mmap that was needed; otherwise a new, aligned chunk, the first fit if there is one, large enough exactly up to the largest request, with every live payload kept; the heap invariant holds exactly if no tail is left |
| `Malloc.Allocator.FreeSmall` | src/lib/libc/stdlib.c:212-256 | the chunk is free and coalesced on both sides, every other payload is kept, and the arena is released exactly if it is empty and not the only one |
| `Malloc.Allocator.Free` | src/lib/libc/stdlib.c:195-256 | NULL and free chunks are ignored; otherwise exactly this chunk stops being live |
| `Malloc.Allocator.Shrink` | src/lib/libc/stdlib.c:301-327 | the chunk keeps its place and the prefix of its contents, the rest is free and coalesced |
| `Malloc.Allocator.ResizeInPlace` | src/lib/libc/stdlib.c:300-363 | succeeds exactly if the chunk, or the chunk with the free one behind it, is large enough; what is left over is less than a chunk |
| `Malloc.Allocator.CopyPayload` | src/lib/libc/stdlib.c:372-373 | the bytes of one payload arrive in another, no other payload changes |
| `Malloc.Allocator.Realloc` | src/lib/libc/stdlib.c:270-376 | for every 64-bit size and on every path the contents are kept up to the smaller size and every other payload is untouched; the address stays exactly if there is room, otherwise the chunk moves, unless an arena that had to be mapped for it would keep a tail; the result is as large as the request exactly up to the largest request; the copy leaves the new chunk exactly if the request wrapped to one page and the old chunk has more; failure changes nothing |
| `Malloc.OnePage` | src/lib/libc/stdlib.c:92-96 | above the largest request mmap is asked for nothing, and for one page from 2^64 - 47 to 2^64 - 16 |
| `Malloc.CutToNothing` | src/lib/libc/stdlib.c:300-301 | above 2^64 - 16 a chunk of an arena stays and is asked to shrink to nothing |
| `Malloc.SpilledRealloc` | src/lib/libc/stdlib.c:286-295 | a call after which more than 128 KiB would be copied into 4048 bytes |
| `Malloc.Allocator.Store` | src/lib/libc/stdlib.c:143-144 | a client's store into its chunk changes that byte only and keeps the heap |
| `Sched.StepInv` | src/kernel/sched/sched.c:125-207 | every step keeps each thread in exactly the queue, list or variable that its place says |
| `Sched.RunInv` | src/kernel/sched/sched.c:706-833 | so does every run |
| `Sched.OnePlace` | src/kernel/sched/sched.c:125-154 | in every reachable state a thread is in exactly one of seven places, and idle is never queued |
| `Sched.Runner` | src/kernel/sched/sched.c:706-762 | the running thread keeps the CPU, or it yields to the first of the ready queue, or to idle when nobody is ready; it yields exactly by sleeping, exiting, locking an owned mutex, or scheduling while another is ready |
| `Sched.Zombies` | src/kernel/sched/sched.c:848-860 | a thread becomes a zombie exactly by its own exit |
| `Sched.ZombieRun` | src/kernel/sched/sched.c:848-860 | over any run, the zombies are those of the start and the threads that exited |
| `Sched.Readied` | src/kernel/sched/sched.c:125-136 | a thread becomes ready exactly by its creation, the end of its sleep, its re-queueing with a mutex, or its preemption, and stays so until it runs |
| `Sched.Sleepers` | src/kernel/sched/sched.c:771-817 | a thread sleeps exactly from its own sleep to the first tick that reaches its target |
| `Sched.Blocks` | src/kernel/sync/sync.h:25-62 | a thread waits for a mutex exactly from its own lock of an owned one to the unlock that finds it first |
| `Sched.Hands` | src/kernel/sync/sync.h:51-67 | a thread is on its way with a mutex exactly from that unlock to its re-queueing |
| `Sched.StepReady` | src/kernel/sched/sched.c:125-154 | the ready queue and those that a step makes ready, the preempted thread at the end, are the thread it dispatches and the new queue |
| `Sched.ReadyFifo` | src/kernel/sched/sched.c:125-154 | so over any run the threads ready at the start and then those made ready run in that order |
| `Sched.ReadyTurn` | src/kernel/sched/sched.c:138-154 | the thread at position k of the ready queue moves up with each dispatch and nothing else, and runs with dispatch k + 1 |
| `Sched.SleepList` | src/kernel/sched/sched.c:780-787 | the last thread to fall asleep is first in the sleep list, and only ticks advance the clock |
| `Sched.WakeOrder` | src/kernel/sched/sched.c:795-817 | the due sleepers wake in the order of the list, and the others keep theirs |
| `Sched.Fifo` | src/kernel/sync/sync.h:25-68 | over any run, the threads that a mutex serves are those waiting at the start and then those arriving, in order |
| `Sched.Turn` | src/kernel/sync/sync.h:48-68 | the waiter at position k moves up with each unlock and nothing else, and owns the mutex with unlock k + 1 |
| `Sched.OwnerChanges` | src/kernel/sync/sync.h:28-33 | the owner changes only by locking a free mutex or by the owner's own unlock |
| `Sched.OwnerAfter` | src/kernel/sync/sync.h:25-68 | unlocking hands the mutex to the first waiter or, without one, frees it; locking a free one takes it; nothing else changes the owner |
| `Sched.NeverBlocks` | src/kernel/sync/sync.h:25-68 | the next thread to lock a mutex that was unlocked without waiters gets it and goes on running, whatever happens in between |
| `Sched.WaitersLeave` | src/kernel/sync/sync.h:51-62 | a waiter leaves the list only as owner, and a new owner becomes ready only by the re-queueing at the end of unlock |
| `Sched.StaysAsleep` | src/kernel/sched/sched.c:795-817 | no step wakes a sleeper before its tick |
| `Sched.SleepExact` | src/kernel/sched/sched.c:771-817 | a thread that sleeps n ticks is asleep before the n-th following tick and ready after it, whatever else runs |
| `Sched.FirstDue` | src/kernel/sched/sched.c:777 | when the wrapping tick counter makes that true |
| `Sched.SleepCutShort` | src/kernel/sched/sched.c:777 | otherwise the sleeper wakes at the next tick |
| `Kernel.Scheduler.constructor` | src/kernel/sched/sched.c:862-899 | the boot state: the kernel thread runs, idle is put aside, all queues are empty, all slices are full |
| `Kernel.Scheduler.EnqueueReady` | src/kernel/sched/sched.c:125-136 | the linked queue gains the thread at its end, the sleep list keeps its links |
| `Kernel.Scheduler.DequeueReady` | src/kernel/sched/sched.c:138-154 | the linked queue loses its head, NULL exactly if it is empty |
| `Kernel.Scheduler.Schedule` | src/kernel/sched/sched.c:706-762 | the scheduling step, nothing while preemption is off; the head of the queue runs with a full slice and no pending request, the preempted thread goes to the end, and no other thread changes its slice or settings |
| `Kernel.Scheduler.SleepFor` | src/kernel/sched/sched.c:771-789 | the sleep step |
| `Kernel.Scheduler.ThreadExit` | src/kernel/sched/sched.c:848-860 | the exit step |
| `Kernel.Scheduler.Create` | src/kernel/sched/sched.c:670-702 | the creation step |
| `Kernel.Scheduler.Tick` | src/kernel/sched/sched.c:791-833 | the tick step: exactly the due sleepers move to the ready queue in list order; a switch is requested exactly if one woke, idle has work, or the slice ran out; the slice of the running thread alone runs down |
| `Kernel.Scheduler.WakeDue` | src/kernel/sched/sched.c:795-817 | the walk that unlinks while it goes along wakes all due sleepers and keeps the others |
| `Kernel.Scheduler.BlockCurrent` | src/kernel/sched/sched.c:164-201 | the running thread blocks and the head of the queue, or idle, runs |
| `Kernel.Scheduler.MutexLock` | src/kernel/sync/sync.h:25-46 | the lock step: take a free mutex and go on, or join the end of the wait list and block |
| `Kernel.Scheduler.MutexUnlock` | src/kernel/sync/sync.h:48-68 | the unlock step: the first waiter owns the mutex, or nobody does, and the caller goes on |
| `Kernel.Scheduler.EnqueueWoken` | src/kernel/sched/sched.c:203-207 | the re-queueing step |
| `Kernel.StateField` | src/kernel/sched/sched.c:125-207 | the state field of a thread tells exactly where it is |
| `Virtqueue.RunInv` | src/drivers/virtiogpu/virtqueue.c:94-186 | in every run of submissions, device steps and reclaims of single chains, in any order, the descriptors split into the free list and disjoint chains in flight |
| `Virtqueue.ChainsStable` | src/drivers/virtiogpu/virtqueue.c:153-186 | a chain is not altered between its submission and the step in which the driver takes it back, however long after its report |
| `Virtqueue.PollSteps` | src/drivers/virtiogpu/virtqueue.c:162-183 | a poll with any device steps between its rounds is a run of such steps, and ends with no report left |
| `Virtqueue.PollSettles` | src/drivers/virtiogpu/virtqueue.c:162-183 | of the chains that a poll finds, exactly those reported by its last reading of the index are gone, and the others are unchanged |
| `Virtqueue.Bounds` | src/drivers/virtiogpu/virtqueue.c:101-126 | heads unread, held and reported add up to the chains in flight, at most as many as the ring has slots and fewer while a descriptor is free |
| `Virtqueue.SlotsDiffer` | src/drivers/virtiogpu/virtqueue.c:128-134 | counts less than a ring apart use different slots, across the wrap of the 16-bit index |
| `Virtqueue.Virtqueue.constructor` | src/drivers/virtiogpu/virtqueue.c:43-58 | the initial free list holds all descriptors in order |
| `Virtqueue.Virtqueue.Submit` | src/drivers/virtiogpu/virtqueue.c:94-137 | fails exactly for an empty list or one longer than the free list; otherwise the first free descriptors become a new chain with exactly these buffers, its head is the next the device reads, and no unread slot is overwritten |
| `Virtqueue.Virtqueue.DeviceTake` | src/drivers/virtiogpu/virtqueue.c:128-134 | the device reads the heads in the order of submission |
| `Virtqueue.Virtqueue.DeviceReadChain` | src/drivers/virtiogpu/virtqueue.c:108-123 | the device's walk of a chain yields exactly the buffers submitted |
| `Virtqueue.Virtqueue.Poll` | src/drivers/virtiogpu/virtqueue.c:153-186 | whatever the device reads and reports while the driver polls, exactly the chains reported by the last reading return to the free list; says whether there was one at the first reading |
| `Completion.CompletionQueue.PhaseTest` | src/kernel/krdrivers/nvme/nvme.c:285 | the phase test is true exactly if a completion has not been taken, and the entry is then the oldest such |
| `Completion.CompletionQueue.Post` | src/kernel/krdrivers/nvme/nvme.c:417-420 | the device's posting rule keeps the invariant over any number of laps |
| `Completion.CompletionQueue.Interrupt` | src/kernel/krdrivers/nvme/nvme.c:284-304 | every posted completion is taken once, in order, and recorded in its command's context |
| `Completion.CompletionQueue.Poll` | src/kernel/krdrivers/nvme/nvme.c:355-377 | the polling form takes the oldest completion |
| `Completion.ApplyDone` | src/kernel/krdrivers/nvme/nvme.c:289-293 | a command ends with the status of its last completion |
| `Completion.ApplyOther` | src/kernel/krdrivers/nvme/nvme.c:289-293 | a command without a completion keeps its context |
| `Prp.WalkFilled` | src/kernel/krdrivers/nvme/nvme.c:550-572 | the device's walk through the chained lists yields the pages in order |
| `Prp.FramesExact` | src/kernel/krdrivers/nvme/nvme.c:529-533 | the number of list frames is the least that suffices |
| `Prp.FramesFit` | src/kernel/krdrivers/nvme/nvme.c:513-545 | the lists fit into the array exactly up to a length |
| `Prp.FramesOverrun` | src/kernel/krdrivers/nvme/nvme.c:513-533 | blocks of two pages without a limit of the device exceed it |
| `Prp.TakeFrames` | src/kernel/krdrivers/nvme/nvme.c:535-543 | the array gets the frames in order, or the allocator runs out, or the store would leave the array, exactly if more than 130 are needed and to be had |
| `Prp.FillLists` | src/kernel/krdrivers/nvme/nvme.c:545-572 | succeeds exactly if all pages are mapped, and then the device reads exactly these pages |
| `Prp.Prepare` | src/kernel/krdrivers/nvme/nvme.c:496-575 | for any buffer and length: refused, or the device transfers exactly the physical pages of the buffer in order, or the array is overrun, each with its exact condition |
| `Prp.Read` | src/kernel/krdrivers/nvme/nvme.c:461-595 | for any block size, limit and count the commands ask for the blocks without gap or overlap, each with pointers to the pages from where the one before ended; a device limit is respected exactly if it is at least a block, and each command but the last is as large as it or the size field allows; success exactly if all were issued and accepted, and none is issued after a failure; the array is overrun exactly if the next command needs more than it holds, never if the request is safe |
| `Prp.MostAllowed` | src/kernel/krdrivers/nvme/nvme.c:477-493 | the size of the next command against the limit of the device |
| `Prp.EveryByte` | src/kernel/krdrivers/nvme/nvme.c:496-575 | the device puts every byte of a command at the physical address of its byte of the buffer, and its lists have no page it does not need |
| `Prp.SafeExactly` | src/kernel/krdrivers/nvme/nvme.c:477-495 | a condition on the byte counts of the first and the last command, equivalent to every command that the request is split into fitting at every address |
| `Prp.StrayCall` | src/kernel/krdrivers/nvme/nvme.c:477-545 | for every request that does not meet it there is a call that overruns the array |
| `Prp.SmallBlocks` | src/kernel/krdrivers/nvme/nvme.c:477-495 | it holds for every block size up to a page |
| `Prp.WholeRequest` | src/kernel/krdrivers/nvme/nvme.c:489-592 | if the 32-bit byte counts are right, every command describes all its blocks, and the data of the request lies in the buffer without a gap |
| `Prp.ShortRequest` | src/kernel/krdrivers/nvme/nvme.c:495 | the first command describes all its blocks exactly if they are |
| `Fat32.Reader.GetNext` | src/kernel/krdrivers/fs/fat32/fat32.c:184-210 | through the cache, sector by sector, the entry is the word of the cluster in the table taken as one sequence of words; fails exactly if the cluster is out of range, its word is behind the table, or its sector cannot be read |
| `Fat32.Looked` | src/kernel/krdrivers/fs/fat32/fat32.c:189-207 | the sector and byte offset that the driver computes lead to that word |
| `Fat32.OwnWord` | src/kernel/krdrivers/fs/fat32/fat32.c:189 | the word is the cluster's own exactly below 2^30, where all clusters of chains are |
| `Fat32.ChainDistinct` | src/kernel/krdrivers/fs/fat32/fat32.c:229-245 | a chain that ends visits no cluster twice |
| `Fat32.ChainFits` | src/kernel/krdrivers/fs/fat32/fat32.c:234-237 | so the bound on the count turns away no chain that ends |
| `Fat32.Reader.CountClusters` | src/kernel/krdrivers/fs/fat32/fat32.c:226-245 | succeeds exactly if the chain ends, without bad or out-of-range cluster and without cycle, on a volume of any size |
| `Fat32.Reader.ReadChain` | src/kernel/krdrivers/fs/fat32/fat32.c:221-279 | succeeds exactly if moreover there is memory and the clusters can be read; the result is their concatenation |
| `Fat32.Reader.ReadFile` | src/kernel/krdrivers/fs/fat32/fat32.c:598-685 | on any volume succeeds exactly if the clusters before the offset can be walked and those needed read, with memory for one that is read in part; the result is the requested slice of what they hold, and of the whole content if the chain ends, cut off at the file size and the end of the chain |
| `Fat32.GoodFile` | src/kernel/krdrivers/fs/fat32/fat32.c:626-680 | for a chain that ends, the slice of the clusters read is the slice of the whole content at the offset |
| `Fat32.CopyStuck` | src/kernel/krdrivers/fs/fat32/fat32.c:648-676 | when the copying loop gives up, no clusters satisfy the request |
| `Fat32.ClipExact` | src/kernel/krdrivers/fs/fat32/fat32.c:618-620 | when the cut at the file size is right |
| `InitOrder.Linker.Append` | src/lib/ldso/rtld.c:47-61 | the growing array holds the order so far and the new object |
| `InitOrder.Linker.Visit` | src/lib/ldso/rtld.c:729-754 | terminates on any graph; initialises only what the object needs, each once; every dependency first unless it needs the object itself; dependencies in the order of the list, except where an earlier one needs a later one |
| `InitOrder.Linker.CallInit` | src/lib/ldso/rtld.c:756-763 | every loaded object is initialised exactly once, the objects in the order of the list and the main program last, except where an earlier one needs a later one |
| `InitOrder.DependenciesFirst` | src/lib/ldso/rtld.c:735-751 | without cycles every object runs after all its dependencies |
| `InitOrder.Linker.CallFini` | src/lib/ldso/rtld.c:239-246 | finalisers run backwards through the order, skipping those that have run, and all have run then |
| `InitOrder.BackwardsAll` | src/lib/ldso/rtld.c:239-246 | if none has run, in exactly the reverse order |
| `InitOrder.BackwardsElems` | src/lib/ldso/rtld.c:239-246 | exactly those that have not run |
| `InitOrder.BackwardsOrder` | src/lib/ldso/rtld.c:239-246 | of any two of them the one initialised later runs first |
| `GnuHash.GnuHash` | src/lib/ldso/rtld.c:333-339 | the loop computes the hash of the format: the characters as digits of base 33 behind 5381, modulo 2^32 |
| `GnuHash.Lookup` | src/lib/ldso/rtld.c:397-431 | the symbol that a linear scan of the hashed symbols finds first, none exactly if there is none |
| `GnuHash.WalkChain` | src/lib/ldso/rtld.c:417-429 | the chain of a bucket is searched completely and in order |
| `GnuHash.NoneMatch` | src/lib/ldso/rtld.c:411-414 | the Bloom filter has no false negatives |
| `StartStack.Build` | src/kernel/sched/sched.c:527-634 | all stores are into the top page exactly if the data fits; the final pointer is 16-byte aligned and less than 24 bytes lie unused above the words; the words are laid out as the ABI says, with all eight auxiliary values; every pointer leads to its string; the strings are packed below the top, arguments above environment, with the random bytes below |
| `StartStack.Parse` | src/lib/ldso/rtld.c:788-820 | the parse of any such layout yields its count, pointers and auxiliary values |
| `StartStack.RoundTrip` | src/kernel/sched/sched.c:527-634 | whatever fits into the top page is recovered exactly: arguments, environment and auxiliary values |
| `GpuVa.InsertFree` | src/drivers/nvidia/core/vmm.c:73-108 | the free addresses gain exactly the range, and the list stays sorted, disjoint and fully merged; without a node the list is unchanged |
| `GpuVa.BlockInRange` | src/drivers/nvidia/core/vmm.c:97-107 | in a fully merged list a contiguous free block lies in one range |
| `GpuVa.FitTest` | src/drivers/nvidia/core/vmm.c:184-187 | the 64-bit test says whether an aligned block fits exactly if the end of the block does not wrap to an address not behind the range; an aligned start that wraps never passes |
| `GpuVa.FooledOnce` | src/drivers/nvidia/core/vmm.c:187 | a range and a size that pass the test although nothing fits |
| `GpuVa.FirstFit` | src/drivers/nvidia/core/vmm.c:180-219 | for any size and power of two: if a range that fools the test comes before any with room, a block that is not free; otherwise the lowest aligned free block, none exactly if there is none anywhere |
| `GpuVa.RoundedIs` | src/drivers/nvidia/core/vmm.c:178 | when the rounding is right, and that it is 0 otherwise |
| `GpuVa.VaSpace.Alloc` | src/drivers/nvidia/core/vmm.c:169-221 | free and allocated ranges divide up the address space afterwards exactly if the search was not misled and the rounding did not wrap, or, when a node is needed and not to be had, exactly if nothing was cut off; otherwise it fails exactly if no aligned block of the rounded size is free, and else the lowest one moves from free to allocated |
| `GpuVa.NeverMisled` | src/drivers/nvidia/core/vmm.c:184-187 | a bound on size and alignment that a caller can check |
| `GpuVa.MisledAlloc` | src/drivers/nvidia/core/vmm.c:169-221 | a call on a new space that succeeds and leaves it divided wrongly |
| `GpuVa.CutOff` | src/drivers/nvidia/core/vmm.c:194-199 | a range cut off at the block, without a node for the rest, still leaves the space divided up exactly if the block starts at its end |
| `GpuVa.TornAlloc` | src/drivers/nvidia/core/vmm.c:194-199 | a call on a new space that fails and loses addresses |
| `GpuVa.VaSpace.FreeVa` | src/drivers/nvidia/core/vmm.c:223-230 | the block moves back; the space stays divided up exactly if there was a node or nothing to do |
| `GpuVa.LostBlock` | src/drivers/nvidia/core/vmm.c:78-81 | a block given up without being freed leaves addresses that are neither free nor allocated |
| `GpuVa.VaSpace.constructor` | src/drivers/nvidia/core/vmm.c:129-137 | a new space is one free range, and divided up exactly if there was a node for it |

## Left out

- Hardware access, boot code, firmware protocols, console and string formatting, directory and long
  file name parsing, system calls and handle tables: no global invariant, or no visible specification.
- Locks are atomic steps; concurrent interleaving is modelled in the scheduler, the mutex and the device
  queues only. The allocator and the other components are modelled one call at a time.
- Memory fences, cache and TLB maintenance, floating-point state, timeouts and polling clocks.
- The kernel heap (`kmalloc`, `kfree`): an allocation is a parameter that says whether it succeeds, except
  for the records of new threads.
- Bitmap words are sequences of 64 booleans, and flag words are records of booleans.
- Pmm.Pmm.AllocAlignedFrames: alignments are powers of two, as the mask in the source expects.
- `Malloc`: `calloc`, the exit handlers and the spin lock.
- Malloc.Allocator.Realloc: a move that maps an arena with a tail, because the heap invariant does not hold
  behind one; `Malloc.Allocator.Malloc` states what happens then. Mappings lie below 2^47.
- `PageTables`: huge pages on the walk of a user address, the kernel half beyond its being copied, and
  the range functions; each leaf frame is owned by one mapping when a space is destroyed.
- Vma.Process.Destroy: the pages that `vmaDestroy` unmaps on the way, which `SpaceLife.DropRange` models.
- `Sched`: the list of threads of a process, wait queues with timeouts, and `schedPreemptEnable`. Sleep
  and exit happen with preemption enabled, the idle thread neither sleeps, exits nor locks, and only the
  owner unlocks.
- `Virtqueue`: the device reports each chain it holds once; the queue size is a power of two up to 32768.
  The driver reads the used index in one step.
- `Prp`: giving the list frames back after the command; each command finds the same free frames.
- `Completion`: submission queue entries and their doorbell.
- `Fat32`: mounting, directories, and the sectors of a cluster below the read of a whole cluster.
- `InitOrder`: initialisers that load further objects, `dlclose`, and a failing allocation of the order.
- GnuHash.Lookup: the System V hash table that is searched when the object has one as well.
- `StartStack`: the default argument list, ELF loading, and what a store outside the top page overwrites.
- `GpuVa`: alignments that are not powers of two.
