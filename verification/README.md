# Helix kernel: a verified model

Helix is a small i586 kernel. This project models the parts of it that carry state and arithmetic, each in the form its
source has (objects with fields as classes, loops as loops), and proves what those parts are there for. Every operation
keeps its branches, constants and error returns, also where the outcome is evidently not the intended one; for each such
place there is a lemma that says exactly when the code does what it should.

| files | what they model |
|---|---|
| `Paging.dfy`, `Bits.dfy` | the physical frame bitmap with its search hint, the two-level page table |
| `Region.dfy` | the bitmap allocator of virtual pages over the pager |
| `SlabMemory.dfy`, `SlabGeometry.dfy`, `Slab.dfy` | slab headers and their doubly-linked lists, the division of a page, the slab cache |
| `Sheap.dfy` | the size-class heap over slab caches and page runs |
| `Tasking.dfy`, `TaskList.dfy` | scheduler, exit and wait, counting semaphores, as a step system; the scheduler's linked list |
| `ArgStack.dfy` | the argument stack of a new process |
| `Pipe.dfy`, `DList.dfy`, `PipeEnds.dfy` | the ring buffer, growing tables, the reference-counted pipe ends in the descriptor tables |
| `PathLookup.dfy`, `Ramfs.dfy` | path resolution with two node buffers, the in-memory file system as its driver |
| `FatFs.dfy` | FAT cluster chains and file reads |
| `Arithmetic.dfy`, `Wrappers.dfy` | facts about division; an option type |

The layers rest on each other: a heap operation changes the slab headers, the region bitmap, the page table and the frame
bitmap, and its contract speaks of all of them. An access outside a bitmap, a buffer or a stack page, and a write through
NULL, is an outcome of its own (`Fault`, or `ok == false`); nothing is said about the state after it.

Where the code departs from its evident intent, the model follows the code:

- The region's free-page hint takes `index % 8` where `index / 8` is meant: `FreeKeepsHint` says when that is harmless,
  `FreedPageLost` shows a page that is not found again, `DividedHintExact` that the division would be right.
- The region search leaves a byte as soon as its first clear bit starts no run, so it can miss one: `RunFound` gives the
  exact condition, `RunOverlooked` a bitmap on which a run is missed. The search is bounded by a number of pages, not of
  bytes, so it runs off the bitmap when nothing is found (`Fault`), and NULL comes only from an empty region.
- Taking from a slab's free list never makes the slab full: right unless the slab has two blocks (`UseFree`,
  `TwoBlockOverrun`). The heap's classes all have at least four (`FourBlocks`).
- A large block whose size is a multiple of the page size gets too few pages (`LargeFits`), and freeing a large block
  gives back its first page only (`FreeBig`, `LargeLeak`); the others are counted as `Lost`.
- A refused large request is written through NULL (`Sheaps.Sheap.AllocBig`).
- `mkdir` does not look whether the name exists (`MkdirFound`).
- A path component of 256 characters or more overruns the name buffer (`Fault` in `Walk`).
- `fatfs_vfs_read` bounds its count by the size whatever the offset, and leaves the loop before it counts the chain's last
  byte (`ReadIsRight`); the table window is found right only with one sector per cluster or in the first window
  (`WindowStart`); cluster 2 of FAT12 and FAT16 is taken for the root directory (`SectorIsRight`); FAT32 entries are cut to
  16 bits, so exactly those below 0x10000 are read back (`Fat32Decodes`, `Fat32EntryLost`) and a FAT32 chain never ends
  (`Fat32NeverEnds`, `Fat32ReadIsRight`).
- The 32-bit write counter of a pipe keeps its place over an overflow exactly if the buffer size divides 2^32 (`BumpSlot`).
- The comment in `init_task_stack` names the pushed pointers the other way round than the code pushes them.

## Model

| member | source | states |
|---|---|---|
| Paging.Pager.constructor | kernel/base/arch/i586/paging.c:17-41 | the first 3 MiB are mapped to themselves, exactly their frames are taken, and the free count plus the set bits is the number of pages |
| Paging.Pager.MapRealPage | kernel/base/arch/i586/paging.c:67-84 | the flattened two-level table changes at the one page and nowhere else |
| Paging.Pager.GetFreePage | kernel/base/arch/i586/paging.c:152-173 | the hinted search agrees with a full scan: it returns the lowest free frame, fails exactly when none is free, and leaves no free frame below the hint |
| Paging.Pager.MapPage | kernel/base/arch/i586/paging.c:43-65 | the page gets the lowest free frame, which becomes taken; distinct mapped pages keep distinct taken frames; fails exactly when no frame is free |
| Paging.Pager.MapPages | kernel/base/arch/i586/paging.c:86-94 | all pages of the range become mapped and no other entry changes; fails exactly when there are fewer free frames than pages |
| Paging.Pager.FreePage | kernel/base/arch/i586/paging.c:106-135 | the entry is cleared and exactly its frame becomes free; an unmapped page frees nothing; the hint stays exact |
| Paging.WalkUpdate | kernel/base/arch/i586/paging.c:67-84 | storing into one second-level table is one update of the flattened table |
| Paging.WalkAt | kernel/base/arch/i586/paging.c:67-84 | an address finds its table by its upper ten bits and its entry there by the next ten |
| Paging.EntryParts | kernel/base/arch/i586/paging.c:80-81 | an entry gives back the frame of the address and the permissions |
| Paging.MapKeepsOwnFrames | kernel/base/arch/i586/paging.c:43-65 | mapping a page to a free frame keeps every mapped page on a taken frame of its own |
| Regions.Region.FirstClearBit | kernel/base/mem/region.c:82 | the least clear bit of a byte that is not full |
| Regions.Region.TestRun | kernel/base/mem/region.c:82-93 | whether the run at the byte's first clear bit is free, or the access leaves the bitmap |
| Regions.Region.TakeRun | kernel/base/mem/region.c:95-114 | exactly the run's bits become set and exactly its pages become mapped; bit j stays set iff page j is mapped |
| Regions.Region.Search | kernel/base/mem/region.c:68-94 | the loop stops where the specification's first fitting byte is, and moves the hint to the first byte that is not full |
| Regions.Region.AllocPage | kernel/base/mem/region.c:61-140 | a run of free pages of the requested length is handed out and mapped, exactly when the search finds one and the frames suffice; the hint moves past full bytes only and to the first that is not; bitmap and frames change by that run and nothing else does |
| Regions.Region.FreePage | kernel/base/mem/region.c:142-158 | the page's bit is cleared and the page unmapped, its frame goes back, bitmap and page table still agree; the hint becomes the page's number modulo eight unless it was lower |
| Regions.Region.LayersAgree | kernel/base/mem/region.c:95-155 | in every state that the operations keep, bit j is set iff page j is mapped, mapped pages have distinct taken frames, and the free count plus the taken frames is the number of pages |
| Regions.RunFound | kernel/base/mem/region.c:68-94 | a request is met if and only if some byte from the hint on starts a free run at its first clear bit |
| Regions.FirstFit | kernel/base/mem/region.c:68-113 | and the run handed out is the first such byte's |
| Regions.RunOverlooked | kernel/base/mem/region.c:82-93 | a bitmap with a free run of six where a request for four is not met |
| Regions.SinglePageFound | kernel/base/mem/region.c:68-113 | with an exact hint a single page is found if and only if one is free, and it is the lowest |
| Regions.AllocKeepsHint | kernel/base/mem/region.c:77-80 | allocation keeps the hint exact |
| Regions.FreeKeepsHint | kernel/base/mem/region.c:146-152 | freeing keeps the hint exact if and only if the page's number modulo eight, or the old hint, is no later than the page's byte |
| Regions.FreedPageFound | kernel/base/mem/region.c:61-158 | exactly then the next request for one page gets the lowest free page |
| Regions.DividedHintExact | kernel/base/mem/region.c:146-152 | with a division by eight the hint would always stay exact |
| Regions.FreedPageLost | kernel/base/mem/region.c:142-152 | a full region in which a freed page is not found again |
| Regions.NextFour | kernel/base/mem/region.c:68-94 | when the first pages are taken in fours, the search gives the next four, wherever the hint is among the full bytes, or nothing when they do not fit |
| Regions.FoursGiven | kernel/base/mem/region.c:61-140 | a region without holes meets so many further requests for four pages if and only if its bitmap and the frames have as many |
| SlabMemory.Push | kernel/base/mem/slabnew.c:57-67 | pushing a header on a well-linked list gives the well-linked list with it in front |
| SlabMemory.Unlink | kernel/base/mem/slabnew.c:69-77 | unlinking any header of a well-linked list gives the well-linked list without it, head pointer included |
| SlabMemory.PushBlock | kernel/base/mem/slabnew.c:57-67 | the list grows in front, links are the only fields that change |
| SlabMemory.MoveBlock | kernel/base/mem/slabnew.c:69-84 | a header leaves one list and becomes the first of the other; both stay well-linked, no other header changes but in its links |
| SlabGeometry.BlocksFit | kernel/base/mem/slabnew.c:305-308 | for every page size, map width and object size: an object fits its block and the blocks fit the page |
| SlabGeometry.MostBlocks | kernel/base/mem/slabnew.c:305-307 | the number of blocks is the greatest even one for the units that the object needs |
| SlabGeometry.SlotRecovered | kernel/base/mem/slabnew.c:219-229 | masking and dividing recover the page and the block from any address inside a block |
| SlabGeometry.FourBlocks | kernel/base/mem/slabnew.c:305-307 | with the kernel's constants a slab has four blocks or more iff the object size is 1 to 1024, two iff up to 2048, none above |
| Slabs.FindClear | kernel/base/mem/slabnew.c:181-189 | the loop ends inside the slab at the lowest clear bit, with the pointer at that block |
| Slabs.UsePartial | kernel/base/mem/slabnew.c:180-196 | taking a block from a partial slab keeps map, free count and status in agreement |
| Slabs.UseFree | kernel/base/mem/slabnew.c:198-208 | taking the first block of a free slab leaves a right header if and only if the slab does not have two blocks |
| Slabs.TwoBlockOverrun | kernel/base/mem/slabnew.c:180-208 | in a slab of two blocks the next search runs past the page |
| Slabs.ReleaseBlock | kernel/base/mem/slabnew.c:226-242 | giving back a block in use keeps map, free count and status in agreement, and the slab was not free |
| Slabs.StatusNamesList | kernel/base/mem/slabnew.c:226-242 | the status in a slab's header names the list that the slab is on |
| Slabs.SlabCache.PageState | kernel/base/mem/slabnew.c:87-252 | in every state that the operations keep, a listed page is held, linked to its neighbours and on no other list, its status names its list, bit 0 is set and none from map_bits on, the free count is the clear bits, FREE iff only bit 0 is set, FULL iff none is free; the counters are the list lengths |
| Slabs.SlabCache.AddPage | kernel/base/mem/slabnew.c:87-112 | a new page is the first free slab; lists stay linked and disjoint, counters agree |
| Slabs.SlabCache.AddPages | kernel/base/mem/slabnew.c:114-125 | a run of pages becomes free slabs, the last page first |
| Slabs.SlabCache.AddPageBlock | kernel/base/mem/slabnew.c:127-133 | the cache grows by a run exactly when the region had one free and the frames for it; NULL exactly from an empty region |
| Slabs.SlabCache.Attempt | kernel/base/mem/slabnew.c:179-214 | one round takes a block where a slab has one and otherwise grows the cache |
| Slabs.SlabCache.ReadySource | kernel/base/mem/slabnew.c:175-217 | there is a slab to take a block from if and only if a partial or a free one is listed or the region gives a run |
| Slabs.SlabCache.SourcePage | kernel/base/mem/slabnew.c:175-217 | that is the first partial slab, else the first free one, else the last page of the new run |
| Slabs.SlabCache.Alloc | kernel/base/mem/slabnew.c:175-217 | the lowest block not in use of the first partial slab, or else of the first free one, or else of the last page of a new run, which is asked for in that case alone; exactly that block becomes used, every list invariant is kept, NULL only when the region has no pages |
| Slabs.SlabCache.Free | kernel/base/mem/slabnew.c:219-252 | exactly the pointer's block becomes unused and the slab moves to the list its use calls for; its page goes back to the region exactly if it has become idle beside eight other idle ones; a page without the magic number changes nothing |
| Slabs.GivenUp | kernel/base/mem/slabnew.c:244-251 | the trimming gives up the page that has just become idle, exactly if there is one too many |
| Slabs.SlabCache.FreeOnePage | kernel/base/mem/slabnew.c:147-161 | the newest idle slab leaves its list and its page is unmapped |
| Slabs.SlabCache.FreeSlabList | kernel/base/mem/slabnew.c:163-173 | every page of the list goes back to the region, each once |
| Slabs.SlabCache.Delete | kernel/base/mem/slabnew.c:337-341 | the region gets back exactly the cache's pages and the pager exactly as many frames |
| Slabs.SlabCache.Create | kernel/base/mem/slabnew.c:287-321 | the cache gets its first run exactly when the region has one and the frames suffice: free slabs, on pages that nobody held; NULL exactly from an empty region, and then the cache is empty |
| Sheaps.Classes | kernel/base/mem/salloc.c:10-17 | the valid size classes up to 16 are 1, 2, 4, 5, 6, 8, 10 and 16 |
| Sheaps.FindClass | kernel/base/mem/salloc.c:52-58 | the search ends at the least valid class whose blocks hold the size |
| Sheaps.LargeFits | kernel/base/mem/salloc.c:69-77 | the pages hold the length word and the block, and one fewer would hold no more, if and only if the size is no multiple of the page size and does not wrap; for a multiple they hold the block alone |
| Sheaps.LargeLeak | kernel/base/mem/salloc.c:93-102 | a large block has only the one page that freeing gives back exactly for these sizes |
| Sheaps.PagesAddUp | kernel/base/mem/slabnew.c:87-173 | the pages held are those that the caches count, those of the runs and the lost ones |
| Sheaps.CacheStep | kernel/base/mem/slabnew.c:175-252 | a cache that writes to its own pages only leaves every other cache and every run as it was |
| Sheaps.RunStep | kernel/base/mem/salloc.c:69-77 | a new run on pages that nobody held leaves everything else as it was |
| Sheaps.EndStep | kernel/base/mem/salloc.c:91-103 | a run that ends leaves everything else as it was; its pages not given back are lost |
| Sheaps.Sheap.Init | kernel/base/mem/salloc.c:19-37 | succeeds exactly when the region is empty or meets eight runs one after the other; every class that the search can end at gets its cache, nothing is in use, and then every small size can be allocated |
| Sheaps.EightClasses | kernel/base/mem/salloc.c:25-33 | eight classes get a cache |
| Sheaps.Sheap.AllClassesGive | kernel/base/mem/salloc.c:43-66 | with an idle slab in every cache no small request can fail |
| Sheaps.Sheap.Alloc | kernel/base/mem/salloc.c:43-81 | succeeds exactly when the class has a slab with room or the region gives a run for it (small), or gives a run for block and length word (large); NULL exactly for a small size from an empty region; exactly one block becomes live, it was not before, it is as long as asked for and of the least valid class |
| Sheaps.Sheap.CanAllocWhen | kernel/base/mem/salloc.c:43-81 | success spelled out: the class's cache has a partial or free slab or the region a run of four, or, for a large size, a run for block and length word |
| Sheaps.Sheap.AllocBig | kernel/base/mem/salloc.c:68-78 | a large block exactly when the region finds the run and the frames suffice, with its length stored in front |
| Sheaps.Sheap.Free | kernel/base/mem/salloc.c:83-105 | exactly the pointer's block stops being live; the offset test sends it to the right allocator |
| Sheaps.Sheap.FreeBig | kernel/base/mem/salloc.c:91-103 | only the run's first page goes back, the others are lost |
| Sheaps.Sheap.AllocPages | kernel/base/mem/alloc.c:84-100 | a page-aligned run of the rounded-up number of pages, outside everything held, exactly when the region finds one and the frames suffice; NULL exactly from an empty region |
| Sheaps.Sheap.FreePages | kernel/base/mem/alloc.c:122-128 | only the first page of the run goes back |
| Sheaps.Sheap.SmallPlace | kernel/base/mem/slabnew.c:180-208 | a live small block lies inside its page past the header block and is found again from its pointer |
| Sheaps.Sheap.BlockPlace | kernel/base/mem/salloc.c:43-81 | a live block lies in pages that are all its owner's, and a large one that fits ends before their end |
| Sheaps.Sheap.NoOverlap | kernel/base/mem/salloc.c:43-105 | in every state that the heap's operations keep, no two live blocks that fit share a byte |
| Sheaps.Sheap.PageConservation | kernel/base/mem/region.c:95-155 | the region's pages out are the sum of the caches' page counts, the live runs and the lost pages |
| Sheaps.InitKernelHeap | kernel/base/mem/alloc.c:36-52 | over fresh paging: succeeds exactly for less than a page, or for 32 pages or more with 32 free frames; the heap is empty and every small size can be allocated |
| Sheaps.BootHeap | kernel/base/arch/i586/arch_init.c:47-51 | paging followed by the heap of 128 pages at 0xd0000000: the kernel has a heap that serves every small size exactly from 3200 KiB of memory on |
| Tasking.PicksOnce | kernel/base/tasking/rrsched.c:44-54 | there is one first runnable task, so the list loop and the step system pick the same |
| Tasking.NextInOrder | kernel/base/tasking/rrsched.c:44-50 | between the current task and the one picked, going forwards and round the end of the list, no task can be picked |
| Tasking.ReadyWhen | kernel/base/tasking/rrsched.c:48-50 | a sleeper can be picked exactly from its tick on, a task at a semaphore exactly while there are units, an ended one exactly once nobody is inside waitpid for it, any other always |
| Tasking.SwitchesWhere | kernel/base/tasking/task.c:260-305 | which operations call the scheduler: entering only without units, waitpid's test only while the target has not ended, leaving never |
| Tasking.SwitchPicks | kernel/base/tasking/rrsched.c:44-54 | and the switch goes to the first task that can be picked |
| Tasking.NeverStuck | kernel/base/tasking/task.c:260-305 | wherever a running task is, its next operation is possible; in particular a waitpid's target is still listed |
| Tasking.SchedulerEnds | kernel/base/tasking/task.c:471-474 | whenever the scheduler is called the idle task can be picked, so its loop ends |
| Tasking.PrepKeeps | kernel/base/tasking/task.c:260-305 | every operation keeps the invariant up to its call of the scheduler: `waiting` counts the tasks inside waitpid on that target, targets stay listed, semaphores balance, statuses handed back are true |
| Tasking.ScheduleKeeps | kernel/base/tasking/rrsched.c:44-54 | the scheduler picks the first runnable task after the current one, and what that task waited for has come |
| Tasking.BootInv | kernel/base/tasking/task.c:20-55 | the invariant holds once tasking is initialised |
| Tasking.EnterTakes | kernel/include/base/tasking/semaphore.h:21-33 | with units left one is taken and the task holds it; with none the task is left waiting at the semaphore |
| Tasking.LeaveGives | kernel/include/base/tasking/semaphore.h:35-37 | one unit comes back, from the task that leaves |
| Tasking.ResumeTakes | kernel/include/base/tasking/semaphore.h:21-33 | a task that waited takes its unit when it goes on |
| Tasking.InitIs | kernel/base/tasking/semaphore.c:7-12 | an initialised semaphore has its units and no holder |
| Tasking.WaitpidGoesIn | kernel/base/tasking/task.c:282-293 | on a listed process the task is inside and counted once more; on any other nothing happens |
| Tasking.CheckReturns | kernel/base/tasking/task.c:296-304 | waitpid returns the status that its target left as soon as there is one, and goes on waiting until then |
| Tasking.SpawnAdds | kernel/base/tasking/task.c:61-142 | a new task at the end of the list, ready, with a pid that no task has and none has ended with |
| Tasking.ExitEnds | kernel/base/tasking/task.c:260-280 | the task leaves the status of its exit_process, or zero by exit_thread, and the list if nobody waits for it; the root task goes on |
| Tasking.RemoveTakesOut | kernel/base/tasking/task.c:406-439 | the rest of an ended task's removal takes it out of the list |
| Tasking.OthersUntouched | kernel/base/tasking/task.c:260-459 | an operation changes no other task but in its count of waiters, and in its state if it is picked |
| Tasking.ExitsOnly | kernel/base/tasking/task.c:260-280 | a status is left by the task's own exit, once, and by nothing else |
| Tasking.ExitsTold | kernel/base/tasking/task.c:260-280 | over every run, a task has left a status if and only if one of its operations was the exit with that status |
| Tasking.UnitsAddUp | kernel/include/base/tasking/semaphore.h:21-37 | over every run, a semaphore's value is what it was, less the enters, plus the leaves |
| Tasking.HoldersTold | kernel/include/base/tasking/semaphore.h:21-37 | over every run, each task holds as many units as it has entered and not left |
| Tasking.AtMostAllowed | kernel/include/base/tasking/semaphore.h:21-37 | from its initialisation on, over every run, the enters exceed the leaves by none at least and by its initial value at most |
| Tasking.MutualExclusion | kernel/include/base/tasking/semaphore.h:21-37 | in every reachable state a semaphore is not negative, it and its holders add up to its initial value, and one for one has at most one holder |
| Tasking.LeaveKeeps | kernel/include/base/tasking/semaphore.h:35-37 | leaving keeps the semaphore's value and its holders adding up to the initial value |
| Tasking.ResumeKeeps | kernel/base/tasking/semaphore.c:14-22 | a task picked out of semaphore_wait finds the semaphore positive, so taking its unit keeps it from going negative |
| Tasking.CheckKeeps | kernel/base/tasking/task.c:296-304 | a test of waitpid's loop keeps the count of waiters exact and every status handed back true to what the target left |
| Tasking.RemovedKeeps | kernel/base/tasking/task.c:387-442 | removing an ended task that nobody waits for leaves no waiter without its target |
| Tasking.WaitersGetTheStatus | kernel/base/tasking/task.c:282-305 | whatever waitpid returned along a run from boot is the status with which its target's own exit was called, and no other |
| Tasking.HistoryGrows | kernel/base/tasking/task.c:260-305 | no step changes a status once left |
| Tasking.NotFreedWhileAwaited | kernel/base/tasking/task.c:387-442 | a task disappears only when it is the current one, has ended and nobody is inside waitpid for it |
| Tasking.BoundedWaiting | kernel/base/tasking/rrsched.c:44-54 | a ready task is passed over fewer times than there are tasks ahead of it, plus one for each task created meanwhile |
| Tasking.SleepsATenth | kernel/base/tasking/task.c:454 | usleep sleeps for a tenth of its argument in ticks if and only if the 32-bit product does not overflow |
| Tasking.SleepBegins | kernel/base/tasking/task.c:450-459 | a task that goes to sleep for a tick or more is asleep until then when the scheduler has switched |
| Tasking.SleepsItsTime | kernel/base/tasking/rrsched.c:48 | over every run, a sleeping task is not run before its tick has come |
| Tasking.AheadBound | kernel/base/tasking/rrsched.c:44-54 | and no more are ahead than the list has |
| TaskLists.TaskList.Add | kernel/base/datastructs/list.c:84-108 | the task is appended, the links stay right |
| TaskLists.TaskList.Remove | kernel/base/datastructs/list.c:118-136 | a node that is not the head is taken out, and still names its successor |
| TaskLists.TaskList.FindByPid | kernel/base/tasking/task.c:348-362 | the node with the pid, or null when no task has it |
| TaskLists.TaskList.Seek | kernel/base/tasking/rrsched.c:44-50 | the loop over the nodes ends at the first runnable task after the current position, going round |
| TaskLists.TaskList.RrSelect | kernel/base/tasking/rrsched.c:44-54 | that task is marked as running and nothing else changes |
| ArgStack.Stack.Strncpy | kernel/base/string.c:62-72 | the string with its NUL is at the destination, no other byte changes |
| ArgStack.Stack.PushStrings | kernel/base/tasking/task.c:216-233 | the strings lie one below the other and the array points to them in order; fails exactly when they do not fit |
| ArgStack.Stack.InitTaskStack | kernel/base/tasking/task.c:197-258 | reading the final stack (count, two pointers, two arrays, the strings) gives back exactly argv and envp, the arrays where the source puts them; the pointer drops by exactly the total; fails exactly when that does not fit; nothing above is touched |
| ArgStack.StringsAre | kernel/base/tasking/task.c:215-233 | an array laid out so is read back as the strings |
| ArgStack.HoldsStill | kernel/base/tasking/task.c:215-245 | later writes below and elsewhere lose nothing that is held |
| Pipes.StoreAppends | kernel/base/datastructs/pipe.c:45-59 | storing at the slot past the window appends a byte; a full ring gives up its oldest |
| Pipes.LoadRemoves | kernel/base/datastructs/pipe.c:72-77 | reading at readp takes the first byte of the window |
| Pipes.BumpSlot | kernel/base/datastructs/pipe.c:56-59 | the write counter keeps its slot over a step if and only if it does not overflow or the size divides 2^32 |
| Pipes.ByteWritten | kernel/base/datastructs/pipe.c:45-60 | one round of the loop, in step or not, overflow included |
| Pipes.Pipeline.Write | kernel/base/datastructs/pipe.c:44-63 | the answer is the number of bytes taken and the counter moves by it, overflow included; in step, blocking: the fitting prefix is appended; overwriting: the last size - 1 bytes of old and new remain; in step afterwards iff no overflow or the size divides 2^32 |
| Pipes.WholeWrite | kernel/base/datastructs/pipe.c:44-63 | what is taken, as numbers: nothing when closed, what fits when blocking, else all; what is waiting then, as a suffix |
| Pipes.Pipeline.Read | kernel/base/datastructs/pipe.c:69-80 | a prefix of what is waiting is handed out and removed, the rest of the caller's buffer is not touched |
| Pipes.Pipe.Create | kernel/base/datastructs/pipe.c:5-33 | no pipe without outputs; otherwise as many empty open lines as outputs, each with a buffer of its own |
| Pipes.Pipe.Write | kernel/base/datastructs/pipe.c:35-67 | every line takes what it can, and the answer is the sum |
| Pipes.TotalParts | kernel/base/datastructs/pipe.c:35-67 | the sum is over all lines, each once |
| Pipes.InStepThroughout | kernel/base/datastructs/pipe.c:44-59 | over every run of calls the line stays in step if and only if it keeps its place: the size divides 2^32, or counter and accepted bytes stay below it |
| Pipes.BlockingLosesNothing | kernel/base/datastructs/pipe.c:35-80 | over every run of a blocking line that keeps its place, all reads followed by what is waiting are what was waiting first and all accepted bytes |
| Pipes.NewestAreKept | kernel/base/datastructs/pipe.c:44-59 | over every run of either line that keeps its place, what is waiting is the end of the accepted stream |
| Pipes.ReadsInOrder | kernel/base/datastructs/pipe.c:35-80 | over every run of either line that keeps its place, reads and what is waiting are found in the accepted stream in order, no byte twice |
| DLists.AddTakesLowest | kernel/base/datastructs/dlist.c:26-45 | a new entry takes the lowest empty index, no other index answers differently, the last slot stays empty |
| DLists.RemoveThenAdd | kernel/base/datastructs/dlist.c:26-56 | an index given back is handed out next when no lower one is empty |
| DLists.DList.constructor | kernel/base/datastructs/dlist.c:5-19 | an empty table of whole blocks, with the defaults for zero |
| DLists.DList.Add | kernel/base/datastructs/dlist.c:26-45 | the loop and the growth do what the specification says; `used` counts the entries |
| DLists.DList.Remove | kernel/base/datastructs/dlist.c:47-56 | the entry goes, a negative or large index changes nothing |
| DLists.DList.Get | kernel/base/datastructs/dlist.c:58-65 | the entry, or nothing for an empty, negative or large index |
| PipeEnds.CopiedCounts | kernel/base/tasking/pobj.c:8-24 | acquiring and copying an end keeps every counter at the number of ends and every reference count at their sum |
| PipeEnds.FreedCounts | kernel/base/tasking/pobj.c:26-35 | freeing an end does too, and frees the pipe when it was the last |
| PipeEnds.PipedKeeps | kernel/base/ipc/pipes.c:177-195 | a new pipe with one end of each kind keeps counters, references and the placement of all objects right |
| PipeEnds.PipedEnds | kernel/base/ipc/pipes.c:177-195 | make_pipes seen from the descriptors: the two ends where they belong, everything else as before |
| PipeEnds.OpenedFile | kernel/base/vfs/vfs_syscalls.c:48-136 | open takes the lowest empty descriptor and no other changes its answer |
| PipeEnds.ClosedKeeps | kernel/base/vfs/vfs_syscalls.c:138-152 | closing a descriptor, or one that is not there, keeps them right |
| PipeEnds.ClosedOne | kernel/base/vfs/vfs_syscalls.c:138-152 | after close the descriptor is empty, and no other of any task changes its answer |
| PipeEnds.ExitedAlone | kernel/base/tasking/task.c:421-433 | an ending task's table is gone, and no other task's descriptor changes its answer |
| PipeEnds.PipeLivesWhileReferred | kernel/base/datastructs/shared.c:36-57 | after every sequence of make_pipes, open, spawn, close and exit a pipe is allocated if and only if some descriptor of some task is an end of it |
| PipeEnds.CountersCountDescriptors | kernel/base/ipc/pipes.c:48-113 | in every such state writers and readers are the numbers of descriptors that are write and read ends, and the references their sum |
| PipeEnds.SpawnCopiesDescriptors | kernel/base/tasking/task.c:90-117 | a child's descriptors 0, 1, ... are copies of the named ones of its parent up to the first that is not there, and it has no other |
| PipeEnds.SpawnedAlone | kernel/base/tasking/task.c:90-117 | and no other task's descriptor changes its answer |
| PipeEnds.BootInv | kernel/base/tasking/task.c:29 | the first task's empty table satisfies the invariant |
| PipeEnds.Kernel.SharedRelease | kernel/base/datastructs/shared.c:36-57 | one reference fewer, and the data freed at none |
| PipeEnds.Kernel.PobjCopy | kernel/base/tasking/pobj.c:8-24 | the copy through the pipe's constructor is the specified step |
| PipeEnds.Kernel.PobjFree | kernel/base/tasking/pobj.c:26-35 | the free through the pipe's destructor is the specified step |
| PipeEnds.Kernel.MakePipes | kernel/base/ipc/pipes.c:177-195 | fds[0] is the read end and fds[1] the write end of a new pipe with an empty buffer; they are the two lowest descriptors that were empty, in that order, and every other descriptor of every task answers as before; both counters end up right |
| PipeEnds.Kernel.InitTask | kernel/base/tasking/task.c:90-117 | the inheritance loop is the specified spawn |
| PipeEnds.Kernel.VfsGetPobj | kernel/base/vfs/vfs_syscalls.c:21-46 | the object at a descriptor, or which error says that there is none |
| PipeEnds.Kernel.VfsClose | kernel/base/vfs/vfs_syscalls.c:138-152 | close is the specified step; it answers 0 for an end of a pipe, the driver's answer for a file, and which error for a descriptor that is not there |
| PipeEnds.Kernel.RemoveObjects | kernel/base/tasking/task.c:421-433 | freeing the objects in place of an ending task equals closing its descriptors one after the other |
| PipeEnds.Kernel.PipeVfsRead | kernel/base/ipc/pipes.c:115-143 | a prefix of what is waiting; an empty read answers end of file if and only if no descriptor of any task is a write end of the pipe, and try again otherwise |
| PipeEnds.Kernel.PipeVfsWrite | kernel/base/ipc/pipes.c:145-171 | all data is taken, the last 255 bytes remain, the writer is never told to try again |
| Paths.ComponentsJoin | kernel/base/vfs/vfs.c:211-225 | joining paths with a slash joins their components; a slash behind nothing or another slash adds an empty one |
| Paths.ComponentsOfJoined | kernel/base/vfs/vfs.c:211-225 | names come back from their joined path if and only if the last is not empty |
| Paths.LookupJoin | kernel/base/vfs/vfs.c:191-264 | looking up p/q is looking up q from where p leads, and the first failure is the answer |
| Paths.FoundName | kernel/base/vfs/vfs.c:227-242 | a name leads to the root node of what is mounted where its driver answers a mount, else to the node answered; an error is handed on; "." stays; 256 characters overrun |
| Paths.FoundFurther | kernel/base/vfs/vfs.c:206-257 | and what follows the name and a slash is looked up from there |
| Paths.CopyName | kernel/base/vfs/vfs.c:213-218 | the component is copied, and there is no room for its end exactly from 256 characters on |
| Paths.CallLookup | kernel/base/vfs/vfs.c:230-240 | the buffer that is written is never the node that is read |
| Paths.LookupFrom | kernel/base/vfs/vfs.c:206-257 | the loop over two alternating buffers is the fold of the driver's lookup over the components, skipping "." and crossing mounts; the output changes only on success |
| Paths.FileLookupRelative | kernel/base/vfs/vfs.c:191-264 | and a null path or buffer is an invalid path |
| Paths.FileLookup | kernel/base/vfs/vfs.c:147-173 | from the root for a leading slash, else from the current directory, else from the root |
| Paths.FileLookupAbsolute | kernel/base/vfs/vfs.c:175-189 | the same for a path from the root, not found for any other |
| Ramfs.AddedEntry | kernel/base/vfs/ramfs/ramfs.c:154-182 | a new entry is found if and only if its name was not there, and no other name is found differently |
| Ramfs.AddedKeeps | kernel/base/vfs/ramfs/ramfs.c:391-410 | adding a node keeps the tree |
| Ramfs.DoneKeeps | kernel/base/vfs/ramfs/ramfs.c:221-250 | open, mkdir and mount keep the tree: entry i has inode i, every entry names a node of a larger inode, every node but the root has exactly one entry |
| Ramfs.AlwaysTree | kernel/base/vfs/ramfs/ramfs.c:343-410 | so it is a tree after every run |
| Ramfs.EveryNodeHangsFromTheRoot | kernel/base/vfs/ramfs/ramfs.c:46-89 | after every run from creation each node is reached from the root through entries |
| Ramfs.NameStays | kernel/base/vfs/ramfs/ramfs.c:154-250 | a name that is found stays found at the same inode over every run |
| Ramfs.OpenIsIdempotent | kernel/base/vfs/ramfs/ramfs.c:221-250 | opening with creation gives an inode that every later lookup and open of the name gives again, creating nothing |
| Ramfs.OpenMakesAFile | kernel/base/vfs/ramfs/ramfs.c:221-250 | open makes an empty file of the name exactly if it may and there is none, and changes nothing otherwise |
| Ramfs.MkdirFound | kernel/base/vfs/ramfs/ramfs.c:343-367 | a new directory is empty and is found by its name if and only if the name was free |
| Ramfs.CreatedFileIsFound | kernel/base/vfs/ramfs/ramfs.c:190-250 | through path lookup: a file created in the directory that a path leads to is found by path/name at the inode that open gave |
| Ramfs.MountAnswers | kernel/base/vfs/ramfs/ramfs.c:190-219 | a mount changes no answer but that its inode carries it |
| Ramfs.MountedIsEntered | kernel/base/vfs/ramfs/ramfs.c:369-381 | through path lookup: after a mount every path that led to its inode leads to the root of what is mounted, whatever else is mounted, as long as other file systems do not lead back |
| Ramfs.RamFs.constructor | kernel/base/vfs/ramfs/ramfs.c:46-89 | a root with the directory "test" and nothing else |
| Ramfs.RamFs.DirFindNode | kernel/base/vfs/ramfs/ramfs.c:154-182 | the loop finds the first entry of the name, or -1 |
| Ramfs.RamFs.NodeLookup | kernel/base/vfs/ramfs/ramfs.c:190-219 | the node that path lookup is given for a name, or the error |
| Ramfs.RamFs.AddNode | kernel/base/vfs/ramfs/ramfs.c:391-410 | the new node has the lowest free inode |
| Ramfs.RamFs.OpenNode | kernel/base/vfs/ramfs/ramfs.c:221-250 | open is the specified step and answers the inode or the error |
| Ramfs.RamFs.MkdirNode | kernel/base/vfs/ramfs/ramfs.c:343-367 | mkdir is the specified step, an error in what is no directory |
| Ramfs.RamFs.MountNode | kernel/base/vfs/ramfs/ramfs.c:369-381 | the mount is recorded at the node, which a lookup then answers, and nothing else changes |
| FatFs.WindowStart | kernel/modules/fatfs/clusters.c:100-107 | the sector step meets the entry's place if and only if a cluster is one sector or the entry is in the first window |
| FatFs.Fat12Decodes | kernel/modules/fatfs/clusters.c:90-120 | in the right window, unpacking gives back every packed 12-bit entry, whatever lies behind the buffer, if and only if the entry does not straddle the window |
| FatFs.Fat16Decodes | kernel/modules/fatfs/clusters.c:123-148 | in the right window an entry of 16 bits is always read back |
| FatFs.Fat32Decodes | kernel/modules/fatfs/clusters.c:151-175 | in the right window the 28 bits of a FAT32 entry are read back if and only if they are below 0x10000 |
| FatFs.Fat32EntryLost | kernel/modules/fatfs/clusters.c:151-175 | a table in which cluster 2 is followed by cluster 0x10000 and the code goes on at cluster 0 |
| FatFs.Fat32NeverEnds | kernel/modules/fatfs/clusters.c:151-201 | no FAT32 entry is seen as the end of a chain |
| FatFs.SectorIsRight | kernel/modules/fatfs/clusters.c:27-46 | on FAT12 and FAT16 the sector is the cluster's, as the Microsoft FAT32 File System Specification 1.03 places clusters, if and only if the root directory fills whole sectors and, for cluster 2, has no entries |
| FatFs.Fat32SectorIsRight | kernel/modules/fatfs/clusters.c:5-25 | on FAT32 if and only if the root directory begins at cluster 2 |
| FatFs.GetNextCluster | kernel/modules/fatfs/clusters.c:64-182 | reading a window and decoding is the specified next cluster, which the decoding lemmas tie to the table's entry |
| FatFs.NextIsEntry | kernel/modules/fatfs/clusters.c:64-182 | for all three types, the next cluster is the table's entry under the conditions of the decoding lemmas |
| FatFs.FollowsTheTable | kernel/modules/fatfs/vfscalls.c:131-135 | following next clusters from a file's first one goes along its chain in the table |
| FatFs.ChainHasLength | kernel/modules/fatfs/clusters.c:184-201 | and ends at the table's mark, not before |
| FatFs.SectorIsKnown | kernel/modules/fatfs/clusters.c:5-46 | under the conditions of the sector lemmas the device offset of a cluster is the specification's |
| FatFs.ByteIsTheFiles | kernel/modules/fatfs/vfscalls.c:137-165 | so the byte read for a position is the disk's byte at the specification's place in the chain's cluster |
| FatFs.ReadStaysInside | kernel/modules/fatfs/vfscalls.c:104-187 | nothing behind a marked chain that holds the file is handed out |
| FatFs.ReadFrom | kernel/modules/fatfs/vfscalls.c:137-165 | the byte loop hands out the chain's bytes from the offset on, up to the bound or one byte before the chain's end |
| FatFs.VfsRead | kernel/modules/fatfs/vfscalls.c:104-187 | the count is the specified one or the error; for the chain in the table that starts at the entry's two words, each byte j counted is the disk's byte at position offset+j of the file, where the specification puts it, and the read stays inside the chain; the rest of the request is zero but for at most one byte |
| FatFs.ReadsAre | kernel/modules/fatfs/vfscalls.c:143-163 | on a chain of n clusters the loop stops at the bound, or one byte before the end |
| FatFs.ReadIsRight | kernel/modules/fatfs/vfscalls.c:104-187 | from the cluster whose halves are the entry's two words, the count is what was asked for up to the file's end if and only if the read neither goes past that end from a later offset nor takes the chain's last byte; or the file is one byte short of its chain |
| FatFs.FileReadIsRight | kernel/modules/fatfs/vfscalls.c:104-187 | the same of the file's chain in the table |
| FatFs.Fat32ReadIsRight | kernel/modules/fatfs/vfscalls.c:104-187 | on FAT32 the count is right if and only if the read stays inside the file or starts at its beginning |

## Left out

- Tasking is on values, one step per operation up to its call of the scheduler, as a call that is switched away from in its middle is no one method; TaskLists has the nodes and loops.
- Timer preemption: a switch happens only where the scheduler is called; inside enter_semaphore, waitpid and the heap nothing is interrupted. For the same reason the pipe's own semaphore is always free when it is entered.
- Semaphores initialised with a negative count (ramfs sets two to -1 and never uses them) and leaving a semaphore without having entered it.
- The tick counter does not overflow.
- The STOPPED state, task groups, saved registers, page directories of tasks and the blocked-tasks flag.
- The list node of a removed current task is freed before the scheduler reads its successor; the model lets the cursor remember the successor.
- TaskLists.TaskList.Remove: not for the head, which another pointer keeps; pid 0 is at the head and is never removed.
- Page tables fresh from the early allocator are taken to be zero.
- Sheaps.InitKernelHeap: the heap's region bitmap, which kernel/base/mem/alloc.c:41 takes from the early allocator and does not clear, is taken to be zero too.
- Only the kernel's directory is modelled; frames mapped by number (video memory) are not.
- get_page, remap_pages and the null page directory.
- Slab constructors and destructors, the magic number of pages that are no slab's (a page has a slab header or not), and bitmap_region_init, which the kernel heap does not use.
- Slabs.SlabCache.Alloc: for objects of 1 to 1024 bytes, the only ones the heap makes caches for; `UseFree` and `TwoBlockOverrun` say what happens above.
- Sheaps.Sheap.NoOverlap: for blocks that fit their pages; `LargeFits` says exactly which large blocks do not.
- Sheaps.Sheap.Alloc: nothing is said of the state after a Fault, that is after a search off the bitmap, a lack of frames or a write through NULL.
- sheap_realloc, whose bookkeeping of lengths does not match the blocks; krealloc copies the old entries as its name says.
- What is stored in blocks: pages are known by their slab header or length word alone.
- Addresses in PipeEnds are never used twice; a heap that hands an address out again is the heap's matter.
- PipeEnds.Kernel.VfsClose: the answer of an open file's driver is a parameter; objects that are no files do not occur.
- vfs_read and vfs_write repeat pipe_vfs_read and pipe_vfs_write while the answer is try again; one attempt is modelled.
- Buffers of freed pipes: freeing a pipe frees its pipe_t but not its lines.
- Pipes.Pipeline.constructor: a buffer of size zero, whose first write divides by zero.
- dlist_set and null entries: create_ramfs sets inode 0 without counting it in `used`.
- ArgStack.Stack.InitTaskStack: a stack that runs below its page is only reported, not what the writes there would meet.
- Paths.LookupFrom: a driver writes the whole node; the field `data`, which ramfs leaves alone, is kept at zero.
- Node flags, references, `found` and the mount list; registering and unmounting.
- File contents of ramfs, its readdir and its get_info.
- FatFs.VfsRead: bytes per sector and sectors per cluster are positive, lengths below 2^32; the device answers every read.
- FAT directories, names, long names, and open and close on FAT.
- ELF loading, command line, initrd, procfs, devfs, the HAL and the drivers.
- Output of kprintf.
