# A verified model of the ownOS kernel

This project models the memory, process and messaging half of ownOS, a small 32-bit x86 kernel, in
Dafny 4.11, and proves properties of it that hold over every call, every run and every interleaving.
`dafny verify dfyconfig.toml` checks the whole project.

## How the model is laid out

| part | by value: functions and their laws | as methods that change state |
|---|---|---|
| page frames | `FrameLists` | `PageFrames` (128 descriptors, two lists threaded through them) |
| kernel heap | `HeapBlocks` | `KernelHeap` (headers in memory words, tagged links) |
| page tables | `PageTables`, `FrameDemand` (how many frames they take) | `VirtualMemory` (on top of `PageFrames.PFAllocator`) |
| address spaces, fork | `AddressSpaces`, `CloneDemand`, `Forks` (whole runs) | `VirtualMemory`, `Regions` (the list of regions, linked nodes) |
| scheduler | `Levels` | `RunQueues` (four lists threaded through the process table) |
| timers | `Timers` | `Timers.Timer` (linked entries) |
| message queue | `Ques` | `Ques.Que` (doubly linked, pooled) |
| rendezvous messaging | `IpcSteps` | `Ipc.Messenger` (on top of `Ques.Que` and `RunQueues.PManager`) |
| disk ranges, integer printer | `Ata`, `Itoa` | `Ata.Drive` (on top of `KernelHeap.KHeap`), `Itoa` |

A pointer into a pool is the index of a cell and the null pointer is `NIL`; `Chains` has the theory of
lists threaded through a pool.  A loop over a pointer to a pointer carries the cell whose link it stands
on.  Every method that changes state is proved against a function of the old state or, for page tables and
address spaces, against a relation between the old and the new state; what the kernel promises is proved
about those functions and relations, over single calls and over runs.  A panic is divergence: it shows as
`None` or `false`, and nothing is promised about the state after it.

## What the code does not keep, and exactly when

Some promises are false of the code as written.  The code is modelled as it is, and for each there is an
exact condition.  Concrete inputs are given in `Counterexamples` and, for messages, in
`IpcSteps.WaitedMessageLost`, `IpcSteps.ThirdPartyMixup` and `IpcSteps.RecvAnyPanics`.

- `freeChunk` leaves the freed descriptor's own link in place.  The two lists stay apart if and only if
  the descriptor is last on the used list or is not appended to the free list (`PageFrames.PFAllocator.FreeChunk`);
  otherwise every page behind it is booked twice (`FrameLists.FreeCount`).
- `addChunk` never inserts before the head: the free list stays sorted and coalesced if and only if the
  new chunk starts above the head (`FrameLists.InsertTidy`).  The comment at kernel/PFAllocator.cpp:22-31
  says that free areas are in address order.
- `removeChunk` takes out exactly the pages of the range if and only if no free chunk ends below the
  range and no non-empty one lies inside it (`FrameLists.RemoveExact`).  Then a sorted and coalesced free
  list stays so if and only if the range is not an empty one inside a chunk (`FrameLists.RemoveTidy`).
- `kmalloc` keeps the chain if and only if the block it picks keeps 8 bytes for its own header;
  otherwise no chain of blocks describes the memory (`KernelHeap.KHeap.KMalloc`).
- `kfree` keeps `next_free` on a free block if and only if it does not swallow that block
  (`KernelHeap.KHeap.KFree`).
- `Que::enque` on a full queue passes its guard and writes through a null pointer (`Ques.Que.Enque`).
- `fork` with a full process table writes through a null pointer (kernel/task.cpp:175-176), and so does
  `makeSysProc`: exactly when no slot is free (`RunQueues.PManager.ForkSlot`, `RunQueues.PManager.MakeSysProc`).
- `recv_later` takes the message out of the queue and drops it.  When a recv returns, its buffer holds a
  message of the process it named if and only if one was pending at the call (`IpcSteps.RecvDelivers`, any
  number of processes).  Between two processes, exactly the messages whose senders went to sleep in send
  arrive (`IpcSteps.TwoPartyDelivery`).
- `recv_later` takes the oldest message, whoever sent it.  It is one of the process named if and only if
  nothing was pending at the call and that process is the first to send afterwards
  (`IpcSteps.AwaitedComesFirst`).
- Receiving from anyone with a message pending panics (`Ipc.Messenger.RecvAny`).
- `Ata::write` overruns its bounce buffer if and only if it gets one, starts inside a sector and has a
  positive multiple of 512 bytes (`Ata.WriteFits`, `Ata.Drive.Write`); it then goes on into the header of the
  next block of the heap (`Ata.OverrunHits`).  Both calls end in kmalloc's panic if
  and only if kmalloc finds no block for the bounce buffer; more than 255 sectors are never found
  (`Ata.LargeBufferRefused`), fewer need not be (`Counterexamples.FragmentedArena`).  `Ata::read` transfers
  nothing if it needs more than 255 sectors or reaches the end of the disk (`Ata.Drive.Read`).  A write that
  fits its buffer reaches the disk if and only if it ends before the end of the disk, or there with a multiple
  of 512 bytes (`Ata.Drive.ReachesExact`).

## Model

| member | source | states |
|---|---|---|
| `Chains.ChainUnique` | kernel/PFAllocator.cpp:134-152 | following links from a head visits one and only one list of cells, so the ghost lists of the pools are facts and not choices |
| `FrameLists.InsertCount` | kernel/PFAllocator.cpp:32-84 | wherever addChunk puts a chunk and whatever it merges it with, every page is counted as before plus once for the new chunk |
| `FrameLists.InsertTidy` | kernel/PFAllocator.cpp:32-84 | a sorted, fully coalesced free list stays so exactly when the new disjoint chunk starts above the head |
| `FrameLists.InsertUsedAscending` | kernel/PFAllocator.cpp:99-124 | the used list stays sorted exactly when the new chunk starts above its head |
| `FrameLists.CarveCount` | kernel/PFAllocator.cpp:130-155 | the pages that leave the free list are exactly those of the chunk handed out |
| `FrameLists.CarveTidy` | kernel/PFAllocator.cpp:130-155 | allocation keeps the free list sorted and coalesced |
| `FrameLists.FreeCount` | kernel/PFAllocator.cpp:209-222 | freeing conserves the count of every page, except that a descriptor appended with a live link books all pages behind it a second time |
| `FrameLists.RoundedCovers` | kernel/PFAllocator.cpp:85-95 | addChunk rounds both ends down: it adds the pages from the one holding the first byte up to, but not including, the one holding the end |
| `FrameLists.RangePages` | kernel/PFAllocator.cpp:167-169 | removeChunk rounds outwards: its range holds each page of which it was given a byte |
| `FrameLists.StepSafe` | kernel/PFAllocator.cpp:32-222 | one allowed call keeps every page on the books at most once, as free or as used |
| `FrameLists.RunConserves` | kernel/PFAllocator.cpp:32-222 | over every run of addChunk, allocChunk, freeChunk and removeChunk, what is on the books is what was there and was added (begin / 0x1000 <= p < end / 0x1000) less the free pages removed (begin / 0x1000 <= p < (end + 0xfff) / 0x1000), each page once: no frame is lost, invented or handed out twice |
| `FrameLists.RemoveExact` | kernel/PFAllocator.cpp:164-205 | the free pages become the set difference if and only if no chunk ends below the range or lies inside it |
| `FrameLists.RemoveGoesWrong` | kernel/PFAllocator.cpp:173-200 | any chunk handled wrongly shows as a page added outside the range or left inside it |
| `FrameLists.RemoveNonEmpty` | kernel/PFAllocator.cpp:173-200 | removeChunk leaves no empty chunk where there was none |
| `FrameLists.RemoveTidy` | kernel/PFAllocator.cpp:164-205 | with no chunk handled wrongly a sorted, coalesced, non-empty free list stays so, splits included, exactly when the range is not an empty one inside a chunk |
| `PageFrames.PoolRoom` | kernel/PFAllocator.cpp:230-239 | an unused descriptor exists unless the two lists take up the whole pool |
| `PageFrames.PFAllocator.GetSeg` | kernel/PFAllocator.cpp:230-239 | panics exactly when both lists together use all 128 descriptors |
| `PageFrames.PFAllocator.AddSeg` | kernel/PFAllocator.cpp:32-84 | the pointer surgery of all six outcomes refines Insert, frees absorbed descriptors and touches nothing else |
| `PageFrames.PFAllocator.AddChunk` | kernel/PFAllocator.cpp:85-95 | refines the Add step on page-rounded bounds and keeps a descriptor in use exactly when it is on one list |
| `PageFrames.PFAllocator.UsedSeg` | kernel/PFAllocator.cpp:99-124 | refines the sorted insertion into the used list |
| `PageFrames.PFAllocator.AllocChunk` | kernel/PFAllocator.cpp:130-155 | refines the Alloc step: the front of the first chunk large enough, with pool integrity kept and panics exactly as specified |
| `PageFrames.PFAllocator.RemoveChunk` | kernel/PFAllocator.cpp:164-205 | refines the Remove step with splits, terminates, and panics exactly when the result would not fit the pool |
| `PageFrames.PFAllocator.FreeChunk` | kernel/PFAllocator.cpp:209-222 | the lists read as specified in every case, and the allocator stays valid if and only if the freed descriptor drags nothing along |
| `HeapBlocks.PayloadsDisjoint` | kernel/kmalloc.cpp:19-53 | a byte of a live payload lies in the arena and in no other block, header or payload |
| `HeapBlocks.PayloadWritesHarmless` | kernel/kmalloc.cpp:19-104 | owners may write their payloads at will without damaging the chain |
| `HeapBlocks.SizesAddUp` | kernel/kmalloc.cpp:9-17 | the sizes of the blocks of a tiling add up to 0x20000 bytes |
| `HeapBlocks.SplitTiles` | kernel/kmalloc.cpp:28-42 | carving from the end of a free block keeps the tiling, with the payload at least as large as asked for |
| `HeapBlocks.PickExact` | kernel/kmalloc.cpp:24-48 | kmalloc takes the first free block at or behind next_free that has the bytes asked for besides its header, and fails if and only if there is none |
| `HeapBlocks.ReleaseTiles` | kernel/kmalloc.cpp:80-101 | freeing with coalescing on both sides keeps the tiling and leaves no two free neighbours |
| `HeapBlocks.NextSurvives` | kernel/kmalloc.cpp:87-97 | next_free still leads to a free block if and only if kfree does not swallow it |
| `HeapBlocks.MallocThenFree` | kernel/kmalloc.cpp:19-104 | kfree of what kmalloc just returned is allowed and restores exactly the same blocks, sizes and used bits |
| `HeapBlocks.RunGood` | kernel/kmalloc.cpp:9-104 | over every run of allowed calls the chain tiles the arena in address order, base stays free, neighbours are never both free, sizes sum to the arena |
| `KernelHeap.RequestFits` | kernel/kmalloc.cpp:24-27 | the 32-bit rounded size is the least multiple of 4 that holds header and request, exactly when the sum does not wrap |
| `KernelHeap.TightFitBreaks` | kernel/kmalloc.cpp:29-38 | a fit that leaves less than a header leaves memory that no chain of blocks describes |
| `KernelHeap.KHeap.constructor` | kernel/kmalloc.cpp:9-17 | a fresh arena is one free block leading to itself |
| `KernelHeap.KHeap.Search` | kernel/kmalloc.cpp:28-48 | terminates and finds the first free block that fits from next_free to the end of the chain, failing if and only if there is none |
| `KernelHeap.CarveKeepsPayloads` | kernel/kmalloc.cpp:29-38 | the header writes of kmalloc touch no word of a live payload |
| `KernelHeap.FreeKeepsPayloads` | kernel/kmalloc.cpp:87-101 | the header writes of kfree touch no word of a payload, freed or live |
| `KernelHeap.KHeap.KMalloc` | kernel/kmalloc.cpp:19-53 | the four header writes refine Split, fail exactly when nothing fits, break the chain exactly on a tight fit, and leave the words of live payloads alone |
| `KernelHeap.KHeap.KFree` | kernel/kmalloc.cpp:56-104 | the walk and the three merge cases refine Release for every live payload, next_free stays valid exactly when not swallowed, and the words of payloads are left alone |
| `PageTables.AllocPage` | kernel/VarMem.cpp:146-156 | a frame obtained for paging was free, is in use, and nothing else about the frames changes |
| `PageTables.TranslateBits` | kernel/VarMem.cpp:165-190 | the walk in the bits of the address: 10 for the directory, 10 for the table, the low 12 kept, the lowest bit of an entry telling whether it is there |
| `PageTables.NewTable` | kernel/VarMem.cpp:145-148 | a zeroed table in an empty directory slot changes no translation, and its directory entry carries the page type |
| `PageTables.NewEntry` | kernel/VarMem.cpp:153-157 | filling an empty table slot adds that translation with its page type and changes no other entry |
| `PageTables.ExtendsMore` | kernel/VarMem.cpp:141-158 | enabling page after page composes: old translations stay, new ones lead to pairwise different pages that were free |
| `PageTables.MarkedMore` | kernel/VarMem.cpp:26-29 | page after page, entries that appear carry the page type in their low 12 bits and entries that were there are unchanged |
| `PageTables.ExtendsMeaning` | kernel/VarMem.cpp:126-190 | after enableSpace every address of the range translates with its low 12 bits kept, and addresses that translated before still translate the same |
| `FrameDemand.TakeExact` | kernel/PFAllocator.cpp:130-155 | k single frames can be had if and only if k pages are free and the pool keeps a descriptor for the last of them, those given back as chunks are used up counted in |
| `FrameDemand.TakeLists` | kernel/PFAllocator.cpp:130-155 | k single frames leave the free list without its first k pages, with used-up chunks gone |
| `FrameDemand.NeededMore` | kernel/VarMem.cpp:141-158 | the frames a range needs, counted as its missing pages and missing tables before the call, are what its pages take one by one |
| `VirtualMemory.VarMem.DisableAll` | kernel/VarMem.cpp:18-22 | the table becomes all zero and no other page changes |
| `VirtualMemory.VarMem.EnableSpace` | kernel/VarMem.cpp:126-161 | refines that meaning on the real frame allocator, writing nothing in use but the directory and tables of the range; every new entry carries the page type and no entry that was there changes; it succeeds exactly when the lists supply a frame for each missing table and page, and takes exactly those |
| `VirtualMemory.VarMem.Vir2Phy` | kernel/VarMem.cpp:165-190 | walks the two levels to the translation, NULL when either entry is absent |
| `VirtualMemory.VarMem.MappingPmem` | kernel/VarMem.cpp:194-226 | exactly the unmapped pages of the range come to lead to their physical pages with the page type given, every other entry is as before, nothing in use is written but the directory and tables of the range; it succeeds exactly when the lists supply a frame for each missing table |
| `VirtualMemory.MapsMeaning` | kernel/VarMem.cpp:194-226 | for aligned addresses over unmapped pages, virAddr + k translates to phyAddr + k |
| `VirtualMemory.VarMem.CopyKernelDir` | kernel/VarMem.cpp:64-80 | the directory page holds the kernel's entries below memSize / 0x400000 and at 0xe0000000 / 0x400000 and zero elsewhere; other pages are untouched |
| `AddressSpaces.KernelShared` | kernel/VarMem.cpp:64-80 | such a directory translates like the kernel's on the shared slots and nowhere else |
| `AddressSpaces.KernelBytes` | kernel/VarMem.cpp:64-80 | in byte addresses: the whole 4 MB pieces of straight-mapped memory and the 4 MB at 0xe0000000 translate as in the kernel's directory, and no other address translates |
| `AddressSpaces.RegionBytes` | kernel/task.cpp:142-148 | the pages of an aligned region are those of its bytes |
| `AddressSpaces.CloneEnables` | kernel/task.cpp:136-141 | enabling a region in the clone leaves everything that was in use, and every page the clone already owns, unchanged |
| `AddressSpaces.CloneCopies` | kernel/task.cpp:142-148 | filling one page of the clone changes no translation and no other page |
| `VirtualMemory.VarMem.CloneMm` | kernel/task.cpp:127-150 | walks the parent's regions: all registered, enabled and copied on frames of the real allocator; each page has the type 0x013 if the first region that covers it has the SYSTEM flag and 0x017 if not; it succeeds exactly when the lists supply a frame for the directory, each table and each page |
| `VirtualMemory.CloneMeaning` | kernel/task.cpp:127-150 | each region page of the child leads to a page that was free, is its own alone and holds the parent's contents; memory in use and the parent's translations are unchanged |
| `CloneDemand.RegionNeeds` | kernel/task.cpp:132-141 | each region takes the frames by which it enlarges the set of pages and the set of directory slots, so overlapping regions are not counted twice |
| `CloneDemand.TypedMore` | kernel/task.cpp:136-140 | enabling a region gives the pages it is the first to cover the type its flag asks for, and keeps the types of the others |
| `VirtualMemory.VarMem.RegisterStack` | kernel/Process.cpp:134-146 | a stack is registered and enabled as user pages on frames of its own |
| `VirtualMemory.VarMem.MakeSysSpace` | kernel/Process.cpp:147-166 | a system process starts with the kernel's slots and two stacks of user pages below 0x40000000 and 0x80000000 on frames of its own, exactly when the frames can be had |
| `Forks.BootIsolated` | kernel/VarMem.cpp:64-80 | before the first process, a sound kernel directory is all that isolation asks for |
| `Forks.MakeIsolated` | kernel/Process.cpp:147-166 | making an address space keeps all spaces sound and isolated, so a fork can follow a fork |
| `Forks.ForkViews` | kernel/task.cpp:127-150 | after a fork the child sees on every region page what the parent saw |
| `Forks.StoreViews` | kernel/task.cpp:142-148 | a store is seen by its own process on that page and by nobody else |
| `Forks.RunIsolated` | kernel/task.cpp:127-186 | over every run of new system processes, forks and stores, no page is reached twice, in one address space or in two, and none holds a table of anyone |
| `Forks.RunPrivate` | kernel/task.cpp:127-186 | in every such run a process sees its pages change only by its own stores |
| `Forks.MakeProcess` | kernel/Process.cpp:147-166 | the call itself is such a step: from isolated address spaces, exactly when the frames can be had, to isolated address spaces |
| `Forks.ForkProcess` | kernel/task.cpp:127-150 | the clone itself is such a step, for any of the address spaces there are, so forks can follow forks on the real allocator |
| `Regions.MmStruct.AddRegion` | kernel/Process.cpp:28-37 | the walk from the sentinel ends at the last node, the copy is linked behind it, the list reads as before with the region at its end, and no registered region changes |
| `Levels.RotateKeeps` | kernel/task.cpp:80-96 | scheduling keeps exactly the queued processes, and the sum of 3 minus level falls by one until all are on the last level |
| `Levels.RotateMoves` | kernel/task.cpp:80-96 | the head of the lowest level in use is chosen and goes to the end of the next level, or of the last one, and nothing else moves |
| `Levels.RoundRobin` | kernel/task.cpp:83-96 | on the last level the process at position k is chosen after exactly k steps |
| `Levels.NoStarvation` | kernel/task.cpp:80-96 | every one of n queued processes is chosen within 4n effective schedules |
| `RunQueues.DropAllAt` | kernel/Process.cpp:109-120 | taking a process off touches only the one queue it is on |
| `RunQueues.PManager.constructor` | kernel/Process.cpp:51-59 | all queues empty, all slots free |
| `RunQueues.PManager.AllocProc` | include/os/KType.hpp:92-100 | lends the first free slot and touches no other, NIL exactly when there is none |
| `RunQueues.PManager.MakeSysProc` | kernel/Process.cpp:147-157 | the slot becomes a stopped process of system priority |
| `RunQueues.PManager.InitTasks` | kernel/task.cpp:11-27 | from the constructor's state: the init process is queued alone, is current and has the only task switch, and the kernel process is stopped |
| `RunQueues.PManager.FindProc` | include/os/Process.h:103-111 | finds a taken slot with the id, NIL exactly when there is none |
| `RunQueues.PManager.Enque` | kernel/Process.cpp:61-92 | a stopped process goes last on its level and runs; a running one is left alone; others panic; a process runs exactly when it is on exactly one queue |
| `RunQueues.PManager.Deque` | kernel/Process.cpp:94-122 | a running process leaves its queue and stops; the exit for a process that cannot be found is never taken |
| `RunQueues.PManager.Schedule` | kernel/task.cpp:73-120 | when due, the head of the lowest level in use becomes current and goes to the end of the next level (of the last one if it is there), all other levels stay, and the one task switch in the timer list is for it, with the clocks of its new level; otherwise nothing changes |
| `RunQueues.PManager.Sleep` | kernel/task.cpp:191-207 | the process stops, leaves its queue, gets a wakeup timer if asked for, and a reschedule is requested |
| `RunQueues.PManager.Wakeup` | kernel/task.cpp:216-226 | the process runs and is queued once, by its priority; waking a running one changes no queue |
| `RunQueues.PManager.ForkSlot` | kernel/task.cpp:172-186 | the clone gets an unused slot, a process id no other process has, the parent's priority, and is queued; no other slot changes |
| `Timers.InsertedMeaning` | kernel/Timer.cpp:12-37 | set adds exactly its entry, behind entries with as many clocks or fewer and in front of one with more, and the others keep their order |
| `Timers.InsertSorted` | kernel/Timer.cpp:12-37 | insertion behind equal entries keeps the list sorted |
| `Timers.PutBehind` | kernel/Timer.cpp:12-37 | in a sorted list the new entry comes behind all entries with the same clocks |
| `Timers.PassedMeaning` | kernel/Timer.cpp:39-46 | each entry keeps its place, kind and process and has that many clocks less |
| `Timers.ResetMeaning` | kernel/Timer.cpp:49-63 | exactly one task switch is left, it names the chosen process, the list stays sorted, and all other entries keep order and clocks |
| `Timers.ResetOnly` | kernel/Timer.cpp:49-63 | after reset_quantum there is one task switch, with these clocks and this process |
| `Timers.ResetCounts` | kernel/Timer.cpp:49-63 | every other entry is there as often as before |
| `Timers.RunSorted` | kernel/Timer.cpp:12-63 | any mix of set, passClocks and reset_quantum keeps the list sorted |
| `Timers.LinkedIn` | kernel/Timer.cpp:12-37 | storing the link in front of the k-th entry inserts the new one there |
| `Timers.LinkedOut` | kernel/Timer.cpp:56-57 | overwriting the link to the k-th entry takes it off the list |
| `KernelHeap.FreedLinkReadable` | kernel/Timer.cpp:56-57 | the link of an entry that was just freed still reads as before, since kfree writes headers only |
| `Timers.Timer.Set` | kernel/Timer.cpp:12-37 | the walk over the links inserts in front of the first entry with more clocks left |
| `Timers.Timer.PassClocks` | kernel/Timer.cpp:39-46 | every entry loses the clocks, none moves |
| `Timers.Timer.ResetQuantum` | kernel/Timer.cpp:49-63 | the unlinking loop over pointers to pointers and set refine Reset |
| `Ques.WiredInsert` | include/os/KType.hpp:146-159 | next and prev stay inverse along the list when an entry is linked in |
| `Ques.WiredRemove` | include/os/KType.hpp:160-189 | next and prev stay inverse along the list when an entry is taken out |
| `Ques.Que.constructor` | include/os/KType.hpp:135-145 | an empty queue between two sentinels |
| `Ques.Que.Get` | include/os/KType.hpp:92-100 | lends an unused slot, none exactly when the queue is full |
| `Ques.Que.Enque` | include/os/KType.hpp:146-159 | the element becomes the newest; with a full queue the code writes through a null pointer |
| `Ques.Que.Deque` | include/os/KType.hpp:160-172 | the oldest element leaves, or the invalid element is returned and nothing changes |
| `Ques.Que.DequeMatch` | include/os/KType.hpp:173-189 | the newest match leaves, or the invalid element is returned and nothing changes; slots in use are exactly the entries and the sentinels |
| `IpcSteps.StepBuffers` | kernel/Ipc.cpp:38-73 | a step writes the buffer of its own process only, with the message it delivers or the request it files |
| `IpcSteps.StepConserves` | kernel/Ipc.cpp:12-73 | in every step among any number of processes, what is pending for a receiver changes by what is sent to it, delivered to it and dropped by it |
| `IpcSteps.RunConserves` | kernel/Ipc.cpp:12-73 | over every run each message sent is pending, was delivered, or was dropped by recv_later, exactly once |
| `IpcSteps.RecvDelivers` | kernel/Ipc.cpp:38-73 | when a recv returns, its buffer holds the newest pending message of the process named if there was one at the call, and otherwise the caller's own request: so a message of that process if and only if one was pending |
| `IpcSteps.NextIsLater` | kernel/Ipc.cpp:71 | the next step of a process that waits in recv is recv_later |
| `IpcSteps.AwaitedComesFirst` | kernel/Ipc.cpp:38-46 | the message recv_later takes is one of the process named if and only if nothing was pending at the call and that process is the first to send afterwards; its panic comes exactly when nothing was pending and nobody sent |
| `IpcSteps.StepKeepsInv` | kernel/Ipc.cpp:12-73 | between two processes by name no call ever fails, and one message is pending for each woken receiver and each blocked sender, none otherwise |
| `IpcSteps.LaterKeepsInv` | kernel/Ipc.cpp:38-46 | a woken receiver always finds a message, so the panic is out of reach |
| `IpcSteps.TwoPartyFifo` | kernel/Ipc.cpp:12-73 | in every interleaving of two processes each message leaves its queue exactly once and in the order sent |
| `IpcSteps.TwoPartyDelivery` | kernel/Ipc.cpp:12-73 | in every interleaving of two processes the messages copied into the receiver's buffer are, in order, exactly those whose senders went to sleep in send |
| `IpcSteps.FromIdle` | kernel/Ipc.cpp:12-73 | both of these from a state with nothing pending |
| `IpcSteps.StartInv` | kernel/Process.cpp:39-50 | two processes that have exchanged nothing satisfy the protocol invariant |
| `IpcSteps.WaitedMessageLost` | kernel/Ipc.cpp:38-46 | a receiver that waits, a send and recv_later: nothing is pending and the buffer holds the caller's request |
| `IpcSteps.ThirdPartyMixup` | kernel/Ipc.cpp:38-46 | with a third process recv_later takes a message that was not asked for, and its sender stays blocked |
| `IpcSteps.RecvAnyPanics` | kernel/Ipc.cpp:52-62 | receiving from anyone after a send ends in a panic |
| `IpcSteps.RecvAnyCases` | kernel/Ipc.cpp:52-71 | the request of a receive from anyone goes into the caller's own queue for that, and the caller sleeps |
| `IpcSteps.AnyIsServed` | kernel/Ipc.cpp:12-36 | whoever sends first to a process that receives from anyone wakes it and does not go to sleep |
| `Ipc.Messenger.constructor` | kernel/Process.cpp:39-50 | real pooled queues, sharing no memory, for the first processes of a real process table, read as the state in which nothing has been exchanged |
| `Ipc.Messenger.RunMeansQueued` | kernel/Process.cpp:61-92 | a process runs in the sense of the protocol exactly when it is on a run queue of the scheduler |
| `Ipc.Messenger.WakeProc` | kernel/task.cpp:216-226 | wakeup by process id reaches the one slot with that id and does not fail |
| `Ipc.Messenger.SleepProc` | kernel/task.cpp:187-207 | sleep by process id takes that process off its run queue and does not fail |
| `Ipc.Messenger.Send` | kernel/Ipc.cpp:12-36 | refines the send step on the pooled queues: request by name, request for anyone, or sleep |
| `Ipc.Messenger.Recv` | kernel/Ipc.cpp:48-73 | refines the receive step by name: copy into the caller's buffer and wake the sender, or file the buffer as a request, marked with the caller's id by the dispatcher (kernel/irq.cpp:125), and sleep |
| `Ipc.Messenger.RecvAny` | kernel/Ipc.cpp:52-71 | refines receiving from anyone, which panics exactly when a message is pending or the queue is full |
| `Ipc.Messenger.RecvLater` | kernel/Ipc.cpp:38-46 | refines the completion step: the oldest message is taken and dropped, panicking exactly when there is none |
| `Ata.WriteFits` | kernel/ata.cpp:136-150 | the bounce buffer holds the range unless the write starts inside a sector with a positive multiple of 512 bytes |
| `Ata.LargeBufferRefused` | kernel/ata.cpp:147 | whatever is in use, the arena of kmalloc holds no bounce buffer of more than 255 sectors |
| `Ata.OverrunLength` | kernel/ata.cpp:136-150 | an overrun goes beyond the buffer by the offset of the write in its sector |
| `Ata.OverrunHits` | kernel/ata.cpp:147-150 | behind the last byte of the buffer comes the header of the next block, or the end of the arena |
| `Ata.LinkLost` | kernel/ata.cpp:150 | a memory in which the link of a header has changed no longer holds the chain |
| `Ata.WriteThenRead` | kernel/ata.cpp:101-155 | the bytes written are read back and no byte outside the range changes |
| `Ata.Drive.WriteReadBack` | kernel/ata.cpp:101-155 | a write followed by a read of its range returns the data, exactly when the write ends well, the read needs at most 255 sectors and gets its buffer, and the range ends before the end of the disk |
| `Ata.Drive.GetBuffer` | kernel/ata.cpp:118-147 | the bounce buffer comes from the kernel heap: refused exactly when kmalloc finds no block |
| `Ata.Drive.PutBuffer` | kernel/ata.cpp:121-152 | kfree of the buffer gives back the very blocks there were |
| `Ata.Drive.Read` | kernel/ata.cpp:101-124 | the bytes of the range, exactly when at most 255 sectors are needed, kmalloc has a buffer for them and the range ends before the end of the disk; the blocks of the heap are as before |
| `Ata.Drive.Write` | kernel/ata.cpp:129-155 | changes exactly the requested bytes, or none when the sectors are not all on the disk; panics exactly when kmalloc finds no block; overruns exactly when WriteFits says so, with the heap as kmalloc has left it; otherwise the blocks of the heap are as before |
| `Ata.Drive.ReachesExact` | kernel/ata.cpp:136-151 | a write that fits its buffer has its sectors on the disk if and only if it ends before the end of the disk, or there with a multiple of 512 bytes |
| `Itoa.DigitsValue` | kernel/tk_printf.cpp:48-70 | the printed digits denote the number |
| `Itoa.NoLeadingZero` | kernel/tk_printf.cpp:48-70 | the first digit of a number other than 0 is not 0 |
| `Itoa.WordLength` | kernel/tk_printf.cpp:48-58 | at most ten decimal or eight hexadecimal digits, so the 20-byte buffer suffices |
| `Itoa.PrintedReadsBack` | kernel/tk_printf.cpp:31-71 | the text reads back in base 10 as d for d and as d modulo 2^32 for u, and in base 16 as d modulo 2^32 for x |
| `Itoa.DecimalText` | kernel/tk_printf.cpp:31-71 | -255 in base d is the text -255 |
| `Itoa.HexText` | kernel/tk_printf.cpp:31-71 | 0x5af in base x is the text 5af |
| `Itoa.TkItoa` | kernel/tk_printf.cpp:31-71 | remainder loop and in-place reversal leave sign, digits and a NUL within the buffer |
| `Counterexamples.FreedPageInUse` | kernel/PFAllocator.cpp:213-217 | two pages added and handed out one by one, the first freed: a page in use is free as well |
| `Counterexamples.RemovedRangeStaysFree` | kernel/PFAllocator.cpp:173-200 | a covered chunk stays free, and a chunk below the range grows |
| `Counterexamples.NextFreeSwallowed` | kernel/kmalloc.cpp:87-97 | after four allowed calls on a fresh heap, freeing the block in front of the one next_free leads to leaves next_free dangling |
| `Counterexamples.AddedBelowHead` | kernel/PFAllocator.cpp:44-81 | a chunk added below the head ends up behind it |
| `Counterexamples.WholeArenaRequested` | kernel/kmalloc.cpp:29-38 | kmalloc of all but the header of a fresh heap leaves memory that no chain of blocks describes |
| `Counterexamples.FragmentedArena` | kernel/kmalloc.cpp:28-48 | with one small block in use a bounce buffer of 255 sectors is refused |
| `Counterexamples.UnalignedSectorWrite` | kernel/ata.cpp:136-150 | 512 bytes written from the middle of a sector overrun the bounce buffer |
| `Counterexamples.SecondElement` | include/os/KType.hpp:146-152 | a queue for one element does not survive a second one |
| `Counterexamples.LastSectorUnread` | kernel/ata.cpp:109-119 | reading the last sector of any disk asks for the one behind it |
| `Counterexamples.LastBytesUnwritten` | kernel/ata.cpp:136-151 | a write inside the last sector that ends with the disk asks for the sector behind it, so nothing is written |

## Left out

- Inline assembly, control registers, cache flushes, stack swapping and interrupt masking: a context switch is the change of the current process, and kernel code is atomic.
- VarMem::initPaging: its fill repeats the first 4 MB in every table, so it decides no identity map; frames are taken as directly addressable instead.
- Device registers and polling of the disk: a sector transfer either happens or, past the end of the disk, does not.
- Screen output, fonts, ELF loading, boot information, interrupt dispatch, descriptor tables and the user library: dispatch or straight-line packing.
- Timer entries and region nodes live in growing pools: their allocation by kmalloc is not modelled.
- num2str, strcat, strcmp, memset and the other string helpers: easy members.
- PageFrames.PFAllocator.AddChunk: a begin above the end, for which the block count wraps, is excluded.
- PageFrames.PFAllocator.RemoveChunk: a begin above the end and an end within 0xfff of 2^32, whose rounding wraps, are excluded.
- KernelHeap.KHeap.KMalloc: requests within 11 bytes of 2^32, for which the rounded size wraps (RequestFits), are excluded.
- KernelHeap.KHeap.KFree: only addresses of live payloads; for any other address the walk of the source does not end.
- VirtualMemory.VarMem.EnableSpace: ranges whose rounded end passes 2^32 and page types without the present bit are excluded.
- VirtualMemory.VarMem.MappingPmem: virtual or physical ranges whose rounded end passes 2^32 and page types without the present bit are excluded.
- VirtualMemory.VarMem.CloneMm: regions are page-aligned, mapped in the parent and outside the kernel's slots; the region of size 0 at address 0, on which the copy loop wraps, is excluded.
- VirtualMemory.VarMem.Vir2Phy: like the source it cannot tell physical address 0 from NULL.
- RunQueues.PManager.Enque: level 4, which passes the check of the source and indexes past the queues, is excluded.
- RunQueues.PManager.ForkSlot: the process-table part of fork only; the address space is CloneMm, and registers and kernel stack are not modelled.
- Forks.RunIsolated: stores are whole pages written by processes through their regions; the kernel's own writes other than those of fork and process creation are not part of the runs.
- Ipc.Messenger.Send: process ids are table slots and messages and requests arrive marked valid.
- VirtualMemory.VarMem.MakeSysSpace: with 1 GB of memory or more the stacks fall into the kernel's slots; that case, the kernel stack and the descriptors are not modelled.
- RunQueues.PManager.MakeSysProc: the process-table part only; the address space is MakeSysSpace.
- Ata.Drive.Write: a kmalloc that leaves the picked block no header is reported as HeapBroken and the model stops there; the bytes of the bounce buffer are kept apart from the words of the arena.
- Ata.Drive.Read: the same holds for its bounce buffer.
- Timers.Timer.PassClocks: clocks are unbounded integers; underflow of a 32-bit counter is not modelled.
- Itoa.TkItoa: negating the smallest 32-bit integer gives its magnitude, as two's complement machines do.
