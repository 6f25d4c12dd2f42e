# A Dafny model of the Bunix kernel

Bunix is a microkernel in C. This project models the parts of it that carry
state from one call to the next, and proves what the rest of the system relies
on. `dafny verify dfyconfig.toml` checks all of it.

| file | what it models |
|---|---|
| `Common.dfy` | numbers, pages and sequences that all parts use |
| `Ipc.dfy` | ports, wait records and the two halves of a send, one lock section per step (`kernel/ipc.c`) |
| `RunQueue.dfy`, `Scheduler.dfy`, `Fairness.dfy` | run queues as linked lists, thread states on several CPUs, and how long a queued thread can be passed over (`kernel/sched.c`) |
| `Regions.dfy` | the region table of a task as an address map (`kernel/sched.c`) |
| `AddressSpaces.dfy`, `Isolation.dfy`, `Fork.dfy` | shared, copy-on-write and copied pages over reference-counted frames, fork and teardown (`kernel/vm.c`, `kernel/server.c`) |
| `PageTables.dfy` | Sv39 tables as a finite map (`arch/riscv64/vm.c`) |
| `LargePages.dfy` | four-level tables with 2 MiB entries that mappings split (`arch/x86_64/vm.c`) |
| `KeyTree.dfy` | the search tree with parent pointers (`kernel/tree.h`) |
| `FrameAllocator.dfy`, `Slab.dfy` | the page allocator and the heap on top of it (`kernel/pmm.c`, `kernel/slab.c`) |
| `ExecVector.dfy` | the argument vectors that kernel and Linux server exchange, and the whole exchange for a script (`arch/x86_64/user.c`, `user/linux/exec_abi.c`, `user/linux/main.c`) |
| `Delegation.dfy` | policy capabilities and handles (`kernel/sched.c`) |

Conventions. Requests for memory may fail: `grants` is the number of requests
that are satisfied during a call before one is refused, so ranging over it
covers every way the allocator can answer. Locked sections are atomic steps.
Runs are sequences of states in which each follows from the one before by an
enabled step, and theorems about runs hold at every position of every run.

Where the code does not do what one would expect of it, the model follows the
code. Each item names the member that shows such a case, and the member that
says exactly when the expectation holds:

- A protection change that runs out of memory loses addresses of the region it
  was splitting: exactly when the cut-off pieces neither fit into the table nor
  find memory (`Regions.RegionTable.Protect`), and the middle page of the first of
  32 regions in a full table is such an address (`Regions.LosingProtect`).
- A second receiver on a port displaces the first, which then misses its
  wake-up; registering is safe exactly when the displaced thread is already
  being woken (`Ipc.SecondReceiverLosesWakeup`, `Ipc.RegisterSafeIff`).
- A thread that is dispatched while the tick counter is 0 is not charged when
  it stops, so another thread can be passed over without bound
  (`Fairness.TickZeroStarves`). In every run the number of bypasses is bounded up
  to the number of such stops (`Fairness.BoundedBypass`, `Fairness.UnchargedIff`).
- A fork that cannot record a region after giving it to the child leaves frames
  whose count no mapping accounts for (`Fork.ForkSpace`, `Fork.LeakingFork`).
- A fork shares the pages of a read-only file region as they are. An `mprotect` that
  failed halfway can have left one of them writable, and then it is shared and
  writable (`Fork.SharingFork`); writable frames stay unshared exactly if there is
  no such page (`Fork.ForkSpace`).
- Giving write permission to a page whose frame is shared, as `mprotect` does after
  a fork, lets a store be seen in both spaces (`AddressSpaces.SharedStoreShows`, a
  run from the empty state); writable frames stay unshared exactly if that is not
  done (`AddressSpaces.RightsExclusive`).
- A thread is not moved when its CPU is taken out of its affinity mask, and runs
  there next (`Scheduler.RunsOutsideMask`). Threads stay inside their masks exactly
  as long as no policy change does that (`Scheduler.StaysHomedIff`).
- An allocation of more than 2^64 - 64 bytes gets a block of one page
  (`Slabs.LargeRoomIff`, `Slabs.LargestRequest`).
- A reserved range that ends in the last page of the address space reserves
  nothing (`FrameAllocators.WrappedReservation`), exactly if its end wraps
  (`FrameAllocators.RoundedOverlap`). An available range that starts in the last
  page is taken for nearly all of memory (`FrameAllocators.WrappedRange`), exactly
  if its start wraps (`FrameAllocators.PagesExactIff`).
- Start-up stops if the first room for descriptors is at address 0
  (`FrameAllocators.RoomAtZero`, `FrameAllocators.Start`).
- A contiguous allocation can overlook free memory
  (`FrameAllocators.ReversedMisses`). It can exactly when pages that follow each
  other in memory have descriptors that do not (`FrameAllocators.InOrderFindsMemory`,
  `FrameAllocators.OutOfOrderMisses`), which is exactly when the memory map lists a
  range elsewhere than behind the one it follows (`FrameAllocators.InOrderIff`).
- A space on x86 for which the second or third table page is missing loses the
  pages it took (`LargePages.Space.Init`).
- The server measures strings only up to 4096 bytes, so a script cannot be run
  with a longer argument although everything fits (`ExecVectors.PrepareShebang`,
  `ExecVectors.LongStringRefused`).
- A script whose rewritten vector is within the limits but does not fit into the
  buffer has two strings freed twice (`ExecVectors.FullRequest`), and given memory no
  other does (`ExecVectors.PrepareShebang`).

Splitting a 2 MiB entry would change translations if the entry had a bit above bit
51 (`LargePages.SplitIff`); no entry that the kernel makes has one, in any space
and after any calls, so splits are invisible (`LargePages.SplitKeeps`).

## Model

| member | source | states |
|---|---|---|
| Ipc.SendFirstKeeps | kernel/ipc.c:339-353 | the first section of a send, which delivers into a wait record or finds none, keeps the invariant of all ports and threads |
| Ipc.StepKeepsInv | kernel/ipc.c:325-601 | every lock section of send, receive, receive-any and try-receive, every wake and every context switch keeps: registrations and blocked threads agree, no wake-up is lost, accepted messages are received ones, then the one in the wait slot, then the queue |
| Ipc.RunInv | kernel/ipc.c:325-601 | the invariant holds at every position of every run with one receiving thread per port |
| Ipc.RunNeverLosesWakeup | kernel/ipc.c:339-452 | in every run a blocked receiver has all its ports empty and registered, or some sender still owes it a wake |
| Ipc.QuietMeansDelivered | kernel/ipc.c:431-475 | with no wake outstanding, a blocked receiver's ports are empty and everything they accepted was received |
| Ipc.RunIsFifo | kernel/ipc.c:342-466 | in every run, for every port, accepted = received + wait slot + queue, in order, so nothing is lost, doubled or reordered |
| Ipc.SlotFilledOnce | kernel/ipc.c:507-562 | a wait record that was filled is not written again, by any step on any of its ports, until its owner reads it |
| Ipc.RegisterSafeIff | kernel/ipc.c:434-452 | registering on ports, by a fresh receive or by a receiver that was woken, keeps every wake-up safe if and only if each displaced thread is woken already or is owed a wake |
| Ipc.SecondReceiverLosesWakeup | kernel/ipc.c:442-444 | two receives on one port from a fresh start leave the first thread blocked, no longer registered, and owed a wake by nobody |
| Ipc.TakeInOrderIff | kernel/ipc.c:454-466 | taking the head of the queue keeps arrival order if and only if no other message of that port still sits unread in a wait slot |
| Ipc.LinkLastKeeps | kernel/ipc.c:393-400 | linking a new node behind the tail keeps every port's list whole and apart from the others, and appends one message to one queue |
| Ipc.WithoutFirstKeeps | kernel/ipc.c:454-470 | unlinking and freeing the head node keeps every list whole, and takes the oldest message of one queue |
| Ipc.IpcKernel.SendFirstSection | kernel/ipc.c:339-353 | with port records and linked nodes in memory, the first section delivers into the wait record exactly when the list is empty and a receiver is registered, and has the effect of the model's step |
| Ipc.IpcKernel.SendSecondSection | kernel/ipc.c:392-419 | the writes to head, tail, next and count append the message at the end of the right port's list and of no other, and name the receiver to wake |
| Ipc.IpcKernel.RegisterSection | kernel/ipc.c:543-548 | the thread blocks and the loop over up to four ports names it, with one wait record, on all of them and on no other port |
| Ipc.IpcKernel.ScanSection | kernel/ipc.c:507-548 | the scan unlinks and frees the head node of the first port that has one, or registers on all ports if none has |
| Ipc.IpcKernel.UnregisterSection | kernel/ipc.c:551-557 | unregistering clears exactly the ports that still name this thread |
| Ipc.IpcKernel.ResumeSection | kernel/ipc.c:551-562 | a resumed receiver withdraws its registrations, then takes the message of its wait record or scans again |
| Ipc.IpcKernel.TryReceiveSection | kernel/ipc.c:568-600 | takes the oldest message if there is one, without blocking |
| Ipc.IpcKernel.constructor | kernel/ipc.c:178-215 | ports start empty and without receivers, in an initial state of the runs |
| RunQueues.InsertKeepsSorted | kernel/sched.c:239-273 | inserting at the place the scan stops keeps the queue strictly sorted by deadline, then eligible time, sequence number and thread |
| RunQueues.RunQueue.Push | kernel/sched.c:239-273 | linked-list insertion equals insertion into the sorted sequence, with exact head, tail and count |
| RunQueues.RunQueue.Pop | kernel/sched.c:427-446 | pop takes the head and advances the queue's minimum virtual runtime |
| RunQueues.RunQueue.Remove | kernel/sched.c:448-475 | removal takes out that thread only, or changes nothing if it is not queued |
| RunQueues.RunQueue.RemoveFirstEligible | kernel/sched.c:477-515 | takes the first thread whose mask admits the CPU, leaves the rest in order, and finds one if there is one |
| Scheduler.StepKeepsInv | kernel/sched.c:517-665 | create, dispatch, idle pull, yield, timer tick with and without preemption, block, wake, hand-off, exit, cancel and policy change keep: READY means queued once on its CPU, RUNNING means current there, queues sorted |
| Scheduler.RunInv | kernel/sched.c:2572-2895 | the same at every position of every run on any number of CPUs |
| Scheduler.RunOnePlace | kernel/sched.c:2572-2895 | in every run a thread is READY iff it is in a queue, then in exactly one position of one queue; RUNNING iff it is current on exactly its CPU |
| Scheduler.DispatchKeeps | kernel/sched.c:2572-2610 | dispatching the head of a queue keeps every thread in one place |
| Scheduler.IdlePullKeeps | kernel/sched.c:517-592 | moving a thread between queues keeps every thread in one place |
| Scheduler.HandOffKeeps | kernel/sched.c:2849-2895 | switching directly to a woken thread keeps every thread in one place |
| Scheduler.LandsInMask | kernel/sched.c:617-665 | every enqueue and every pull puts a thread into the queue of a CPU of its affinity mask |
| Scheduler.StaysHomedIff | kernel/sched.c:978-1060 | a step keeps every thread assigned to a CPU of its mask if and only if it does not change a policy so that the thread's CPU is no longer in the mask |
| Scheduler.RunInMask | kernel/sched.c:2572-2895 | in every run without such a change, every queued and every running thread is on a CPU of its mask |
| Scheduler.RunsOutsideMask | kernel/sched.c:2572-2610 | a run from start-up on two CPUs: a queued thread whose mask changes to the other CPU is dispatched where it is |
| Scheduler.PullNeverEmpties | kernel/sched.c:517-592 | idle pull takes one thread and leaves its source queue non-empty |
| Scheduler.SelectAuto | kernel/sched.c:1138-1163 | the placement scan returns the lowest CPU of the mask if that has the least load, and otherwise the first of the least loaded ones in scan order; the next scan starts behind it |
| Scheduler.PickSource | kernel/sched.c:517-560 | the source scan of idle pull returns the first CPU with the longest queue among those that can supply a thread, or that there is none |
| Scheduler.FirstCpu | kernel/sched.c:720-728 | the lowest online CPU of a mask, or 0 if it has none |
| Fairness.EntersAtMin | kernel/sched.c:388-425 | on one CPU a thread enters the queue at exactly the minimum virtual runtime: the wake credit has no effect |
| Fairness.StepTimes | kernel/sched.c:318-446 | whatever step is taken on one CPU, the turns that another thread can still take ahead of a waiter fall by one when it is dispatched, and grow only by one when it stops without a charge |
| Fairness.UnchargedIff | kernel/sched.c:318-350 | a stop goes uncharged exactly after a dispatch at tick 0, or at a preemption within the tick of the last charge |
| Fairness.BoundedBypass | kernel/sched.c:239-446 | in every run from start-up on one CPU, while a thread waits, others are dispatched at most (number of others) * (1 + deadline - minimum virtual runtime) times plus once for every uncharged stop |
| Fairness.TurnsBounded | kernel/sched.c:2849-2895 | direct hand-offs included, others get the CPU at most twice that often plus the number of others plus one |
| Fairness.RunTimed | kernel/sched.c:318-350 | in every run from start-up on one CPU no thread is ahead of the queue's minimum virtual runtime |
| Fairness.TickZeroStarves | kernel/sched.c:318-350 | for every k there is a run from start-up, all at tick 0, in which a queued thread is passed over k times |
| Regions.BadRangeMeaning | kernel/sched.c:3281-3290 | the 64-bit wrap test rejects exactly empty ranges and ranges that reach past the end of the address space |
| Regions.RegionTable.Grow | kernel/sched.c:197-229 | table growth doubles, keeps all entries and fails only without memory |
| Regions.RegionTable.Add | kernel/sched.c:3281-3343 | succeeds exactly when the range is free and it joins an entry, the table has room or memory is granted; sets the address map on exactly that range; says which entry grows or that one is appended, and what memory it took; a failed add changes nothing |
| Regions.RegionTable.AddOrExtend | kernel/sched.c:3354-3401 | succeeds exactly when one matching entry touches the range and no other is in the way, or when the range can be added; sets exactly the range; a failure changes nothing |
| Regions.RegionTable.IsFree | kernel/sched.c:3403-3422 | true exactly when no address of the range is recorded |
| Regions.RegionTable.IsCovered | kernel/sched.c:3430-3454 | true exactly when every address of the range is recorded |
| Regions.RegionTable.Append | kernel/sched.c:3456-3467 | appends one entry, and fails exactly when the table is full and cannot grow |
| Regions.RegionTable.ProtectPart | kernel/sched.c:3501-3534 | an entry that a boundary cuts gives its part inside the range to a new entry; without room for the pieces some address is lost |
| Regions.RegionTable.Protect | kernel/sched.c:3469-3540 | terminates; succeeds exactly when the range is covered and the cut-off pieces fit or memory is granted; replaces the protection on exactly the range; a covered range that fails has lost an address, and inside one entry of a full table that is its first one |
| Regions.LosingProtect | kernel/sched.c:3501-3534 | protecting the middle page of the first of 32 regions in a full table without memory fails, and the page is no longer recorded |
| Regions.FullTable | kernel/sched.c:3281-3343 | such a table results from 32 additions |
| Regions.RegionTable.RemoveEntry | kernel/sched.c:3551-3594 | deletes, trims or splits one overlapping entry, and the loop measure falls in each case |
| Regions.RegionTable.Remove | kernel/sched.c:3542-3598 | terminates although splits lengthen the table; clears exactly the range; fails only when one entry must be split without memory, and then changes nothing |
| Regions.RegionTable.ClearAll | kernel/server.c:975-991 | each pass removes exactly the first region, so the loop ends with an empty table |
| Regions.RegionTable.CloneFrom | kernel/server.c:1092-1112 | replaying a parent's regions into an empty table gives the same address map in as many entries as there are regions that do not continue an earlier one, and fails exactly when the table cannot grow to that many |
| Regions.ReplayStep | kernel/sched.c:3281-3343 | the coalesced table offers the same joins as the plain list of regions, so the number of entries is known in advance |
| AddressSpaces.MapFreshKeeps | kernel/vm.c:264-279 | mapping a new frame keeps the accounting, and exclusiveness if there was any, and changes no other page that any program sees |
| AddressSpaces.MapSharedKeeps | kernel/vm.c:398-427 | mapping a read-only frame once more keeps accounting and exclusiveness |
| AddressSpaces.UnmapKeeps | kernel/vm.c:341-363 | unmapping frees a frame exactly with its last mapping and is seen at that page only |
| AddressSpaces.StoreKeeps | kernel/vm.c:231-257 | a store through a writable mapping is seen at that page of that space only |
| AddressSpaces.CowKeeps | kernel/vm.c:462-483 | replacing a mapping by a private copy changes nothing that anyone sees |
| AddressSpaces.Determined | kernel/pmm.c:239-339 | counts and contents of all frames are determined by the mappings and what is seen through them |
| AddressSpaces.RollbackRestores | kernel/vm.c:281-312 | undoing a range that was unmapped before restores mappings, counts and contents exactly |
| AddressSpaces.GoodRangeMeaning | kernel/vm.c:281-295 | the range checks accept exactly non-empty ranges whose rounded end does not wrap |
| AddressSpaces.Machine.constructor | kernel/pmm.c:202-236 | a machine starts with nothing mapped and every frame available, in a state that satisfies the invariant |
| AddressSpaces.Machine.UnmapRange | kernel/vm.c:341-363 | the range is empty afterwards, all other mappings are as before |
| AddressSpaces.Machine.AllocPages | kernel/vm.c:281-312 | succeeds exactly when frames and tables suffice, showing zero pages; a failure restores the state exactly |
| AddressSpaces.Machine.ClonePages | kernel/vm.c:365-396 | succeeds exactly when all source pages are mapped and memory suffices, showing copies in frames of their own; a failure restores the state exactly |
| AddressSpaces.Machine.SharePages | kernel/vm.c:398-427 | maps the source's frames with the given rights, exactly if all pages are mapped and there is room; a failure restores the state exactly |
| AddressSpaces.SharingExclusive | kernel/vm.c:398-427 | sharing pages keeps writable frames unshared if and only if neither the new entries nor the shared ones are writable |
| AddressSpaces.Machine.ShareCowPages | kernel/vm.c:429-460 | both spaces show the same pages read-only; a failure empties the destination and restores counts and contents, while source pages may stay read-only |
| AddressSpaces.CowExclusive | kernel/vm.c:429-460 | sharing copy-on-write keeps writable frames unshared |
| AddressSpaces.CopiesExclusive | kernel/vm.c:365-396 | so do copies |
| AddressSpaces.Machine.ProtectPages | kernel/vm.c:314-339 | sets the rights of the pages up to the first one that is not mapped |
| AddressSpaces.RightsExclusive | kernel/vm.c:314-339 | a change of rights is invisible, and keeps writable frames unshared if and only if it makes no shared page writable |
| AddressSpaces.SharedStoreShows | kernel/vm.c:314-339 | from the empty state: a page is mapped, shared copy-on-write and made writable again; then a store through it shows in the other space |
| AddressSpaces.Machine.CowPage | kernel/vm.c:462-483 | map-copy-first, release-last has the effect of a copy-on-write, or nothing without memory |
| AddressSpaces.Machine.ReadUser | kernel/vm.c:202-229 | the chunked read returns exactly the bytes seen, and fails exactly if one is not mapped |
| AddressSpaces.Machine.WriteUser | kernel/vm.c:231-257 | the chunked write succeeds exactly if every byte is writable; otherwise exactly the bytes before the first unwritable page are written; no other byte of any space changes |
| Isolation.StepRefines | kernel/vm.c:231-483 | stores, zero, copied, shared and copy-on-write mappings, faults, changes of rights and unmaps over shared frames act like private memories, one cell per page and space |
| Isolation.RunRefines | kernel/vm.c:231-483 | in every run of those steps what all programs see is what private memories would show |
| Isolation.RunIsolated | kernel/vm.c:231-483 | in every run in which nothing is copied or shared into a space, that space sees exactly what its own steps make of its memory |
| Isolation.RunCountsFrames | kernel/pmm.c:239-339 | in every run of allocations, copies, shares, copy-on-write shares and faults, changes of rights and unmaps a frame's reference count is the number of its mappings over all spaces, and frames without mappings are free |
| Fork.GiveRegion | kernel/server.c:1030-1060 | whichever of share, copy-on-write and copy a region calls for, the child shows the parent's pages with the region's rights, and exactly when it succeeds; writable frames stay unshared if and only if it fails or shares no writable page |
| Fork.GiveAll | kernel/server.c:1030-1080 | the region loop stops exactly at the first region whose pages are not mapped, for which frames or tables run out, or which the child's table cannot grow to record; until then it gives the child every recorded page and replays the table |
| Fork.ForkSpace | kernel/server.c:1000-1090 | success exactly if every region can be given and recorded: child and parent as specified and equal address maps, and writable frames still unshared if and only if no page of a read-only file region was writable; failure to give a region: counts and contents exactly as before; failure to record one: every shared page of it counts once too often, or every copied page stays in use unmapped |
| Fork.LeakingFork | kernel/server.c:1046-1078 | from start-up, a task with one page forks without memory for the child's table: the fork fails and the page's count is 2 with one mapping |
| Fork.SharingFork | kernel/server.c:1034-1060 | from start-up: a change of rights over a file page and an unmapped one fails but leaves the first writable; a fork then shares it, and the frame is mapped writable and twice |
| Fork.Teardown | kernel/sched.c:2469-2482 | unmaps exactly the recorded pages, although ranges are rounded out to pages, and empties the table |
| Fork.Discard | kernel/sched.c:2992-3009 | after a discard the count of every frame is the number of its mappings plus the number of the child's mappings that were not recorded; with none, everything is as before |
| Fork.DestroyCounted | arch/riscv64/vm.c:214-223 | destroying a space keeps the frame accounting if and only if nothing is mapped in it |
| Fork.ForkedReads | kernel/server.c:1030-1080 | after a fork, at every recorded address child and parent read the parent's byte, nobody else's bytes changed, and the child sees nothing else |
| Fork.ForkIsolation | kernel/server.c:1030-1080 | in every run after a fork, however steps interleave, the child sees what its own steps make of the parent's pages at the fork, and the parent what its own steps make of its pages |
| Fork.FindCowRegion | kernel/sched.c:3630-3650 | finds the private anonymous writable region of a page if and only if the address map records one |
| Fork.HandleCowFault | kernel/sched.c:3622-3653 | a fault is served exactly for writes to such regions with memory at hand; then the page is writable and no program sees a change |
| PageTables.LeafEntryIs | arch/riscv64/vm.c:93-97 | a leaf entry decodes to the frame and the W, U, X rights it was made of |
| PageTables.ReprotectedIs | arch/riscv64/vm.c:301-330 | changing the W and X bits of a leaf keeps its frame and U bit |
| PageTables.WalkFinds | arch/riscv64/vm.c:142-169 | following physical pointers through two levels finds the table that belongs to the page, or that there is none |
| PageTables.HungKeepsMap | arch/riscv64/vm.c:120-140 | adding an empty table keeps the tree and the map it stands for |
| PageTables.SlotSetMaps | arch/riscv64/vm.c:244-246 | writing a leaf slot changes the map at its own page only |
| PageTables.Space.EnsureTable | arch/riscv64/vm.c:120-140 | returns the table below an entry, adds one if the entry is not valid, refuses leaves, fails without a page |
| PageTables.Space.MapPage | arch/riscv64/vm.c:225-247 | succeeds exactly for aligned arguments and enough free pages for the missing tables; sets one page of the map; a failure keeps the map |
| PageTables.Space.Protect | arch/riscv64/vm.c:301-361 | succeeds exactly for mapped (user) pages; replaces the W and X rights of that page only |
| PageTables.Space.Unmap | arch/riscv64/vm.c:363-405 | returns the frame of a mapped (user) page and removes that page only, otherwise 0 and no change |
| PageTables.Space.Translate | arch/riscv64/vm.c:407-444 | answers from the finite map: frame and offset if the page is mapped with the rights asked for |
| PageTables.Space.PerformAll | arch/riscv64/vm.c:225-444 | after any sequence of map, protect and unmap calls the tables stand for the finite map that the calls describe; a map call succeeds exactly if it is aligned and the pages left then suffice for its tables; no page of tables or pool is lost |
| PageTables.Space.Init | arch/riscv64/vm.c:183-274 | a new space maps exactly its identity windows; it fails exactly if there are fewer pages than the windows need tables, and then every page is back in the pool |
| PageTables.Space.FreeTable | arch/riscv64/vm.c:48-65 | recursive freeing returns each table page of the subtree once, never a page that is already free |
| PageTables.Space.Destroy | arch/riscv64/vm.c:214-223 | all table pages and nothing else are back in the pool |
| PageTables.SameSlotIff | arch/riscv64/vm.c:99-102 | two addresses share a slot exactly when they agree on bits 12 to 38 |
| PageTables.OwnSlot | arch/riscv64/vm.c:99-102 | page-aligned addresses below 2^39 have slots of their own |
| LargePages.WalkIsFinal | arch/x86_64/vm.c:467-551 | in the tables the kernel makes, the rights of the three upper levels never decide: a walk ends as its last entry says |
| LargePages.FillTable | arch/x86_64/vm.c:125-128 | the loop fills a table with the 512 small pages of the large entry |
| LargePages.SplitIff | arch/x86_64/vm.c:109-133 | for any large entry, a split keeps the translation of a page if and only if the entry lets nobody through or has no bit above bit 51, and for user programs if and only if it lets none of them through |
| LargePages.SplitKeeps | arch/x86_64/vm.c:109-133 | splitting an entry that the kernel made changes no translation of any address, for the kernel and for user programs |
| LargePages.WidenKeeps | arch/x86_64/vm.c:86-107 | adding write and user rights to a pointer on the way opens no page to anybody |
| LargePages.HangKeeps | arch/x86_64/vm.c:86-107 | adding an empty table changes no translation |
| LargePages.LeafSets | arch/x86_64/vm.c:260-265 | writing the entry of a page changes the translation of that page only |
| LargePages.LeafIs | arch/x86_64/vm.c:69-77 | the entry of a small page leads to its frame, with the rights it was made of |
| LargePages.Space.Init | arch/x86_64/vm.c:155-181 | exactly with three pages at hand a new space maps the first GiB to itself for the kernel only, with entries that have neither the user bit nor a bit above bit 51; otherwise the pages it took are lost |
| LargePages.Space.FreeEntries | arch/x86_64/vm.c:191-221 | recursive freeing takes out each table below an entry once and returns exactly those pages |
| LargePages.Space.Destroy | arch/x86_64/vm.c:183-225 | all table pages and nothing else are back in the pool |
| LargePages.Space.EnsureTable | arch/x86_64/vm.c:86-107 | finds or adds the table below an entry and widens the entry, invisibly; fails exactly at a large entry or without a page |
| LargePages.Space.SplitLarge | arch/x86_64/vm.c:109-133 | splits a large entry if there is one, invisibly; fails exactly without a page |
| LargePages.Space.MapPage | arch/x86_64/vm.c:227-265 | succeeds exactly for aligned arguments and enough pages for the missing tables; every address but those of the mapped page is translated as before, for reads and writes, for the kernel and for user programs; a failure changes no translation |
| LargePages.Space.Protect | arch/x86_64/vm.c:267-377 | succeeds exactly for small (user) pages; replaces the write and execute rights of that page only |
| LargePages.Space.Unmap | arch/x86_64/vm.c:379-465 | returns the frame of a small (user) page and removes that page only |
| KeyTrees.KeyTree.Find | kernel/tree.h:171-187 | finds the node of a key if and only if there is one |
| KeyTrees.KeyTree.Get | kernel/tree.h:189-194 | lookup equals the finite map, 0 for a key that is absent |
| KeyTrees.KeyTree.First | kernel/tree.h:196-212 | the node with the smallest key |
| KeyTrees.KeyTree.Next | kernel/tree.h:214-234 | the node that follows in key order, found down the right or up the parents, or none |
| KeyTrees.KeyTree.Visit | kernel/tree.h:196-234 | first and next enumerate every node once in ascending key order |
| KeyTrees.KeyTree.constructor | kernel/tree.h:38-42 | a new tree is valid and holds no pair |
| KeyTrees.KeyTree.FindSlot | kernel/tree.h:245-256 | the descent ends at the one empty slot where the key belongs, or at the node that has it |
| KeyTrees.KeyTree.Insert | kernel/tree.h:236-262 | succeeds exactly for non-zero key and value and an unused key; adds one pair; keeps order, parent links and count |
| KeyTrees.KeyTree.Transplant | kernel/tree.h:264-278 | the pointer writes put one subtree in the place of another |
| KeyTrees.RewiredIs | kernel/tree.h:293-305 | the pointer writes of the two-children case equal taking the successor out of its place and putting it in the node's, in both sub-cases |
| KeyTrees.RemovedTree | kernel/tree.h:280-314 | in all three cases what is left is a tree of the other nodes in the same order, and the map loses one key |
| KeyTrees.KeyTree.Remove | kernel/tree.h:280-314 | removal takes out exactly that node, clears it, keeps order, links and count, and touches no key or value of another node |
| FrameAllocators.FrameAllocator.constructor | kernel/pmm.c:71-80 | all imported pages start on the free list, once each |
| FrameAllocators.FrameAllocator.Push | kernel/pmm.c:37-44 | list, flags and counter agree after a push |
| FrameAllocators.FrameAllocator.Alloc | kernel/pmm.c:239-256 | fails exactly when nothing is free; otherwise a free page becomes live with one reference and no other page changes |
| FrameAllocators.FrameAllocator.Unlink | kernel/pmm.c:57-69 | the walk unlinks exactly that page wherever it is on the list |
| FrameAllocators.FrameAllocator.Sift | kernel/pmm.c:181-194 | one page moves from the old list to the new one or off both, and both stay lists |
| FrameAllocators.FrameAllocator.AllocContiguous | kernel/pmm.c:258-294 | takes the first run of consecutive descriptors that are free and adjacent in memory, all of it and nothing else, and fails exactly when there is none |
| FrameAllocators.FrameAllocator.Retain | kernel/pmm.c:296-309 | succeeds exactly for live pages, and adds one reference to that page |
| FrameAllocators.FrameAllocator.FreeAddr | kernel/pmm.c:311-332 | drops one reference, and frees the page with the last one; a reserved page becomes free too |
| FrameAllocators.FrameAllocator.ReserveRange | kernel/pmm.c:173-200 | takes exactly the overlapping pages off the list and keeps the counter exact |
| FrameAllocators.InOrderFindsMemory | kernel/pmm.c:258-294 | if pages adjacent in memory have adjacent descriptors, free memory of the wanted length is always found |
| FrameAllocators.OutOfOrderMisses | kernel/pmm.c:258-294 | otherwise there is a choice of free pages in which two adjacent ones are overlooked: the condition is exact |
| FrameAllocators.InOrderIff | kernel/pmm.c:82-123 | adjacent pages have adjacent descriptors if and only if the memory map lists every range with pages directly behind the one it follows in memory, if any |
| FrameAllocators.ReversedMisses | kernel/pmm.c:258-294 | from a memory map that lists two adjacent pages in reverse, the kernel comes up, and a request for two pages is refused although these are free |
| FrameAllocators.RoundedOverlap | kernel/pmm.c:173-179 | rounding a reserved range out to pages does not change which pages it overlaps, unless its end wraps around: then it overlaps none |
| FrameAllocators.WrappedReservation | kernel/pmm.c:173-179 | reserving everything but the last byte of the address space reserves nothing |
| FrameAllocators.ListPages | kernel/pmm.c:82-123 | the descriptors are, in this order, the pages of each available range from its rounded start on, and as many as were counted |
| FrameAllocators.PagesExactIff | kernel/pmm.c:82-123 | these are exactly the whole pages inside the range if and only if its start does not wrap when rounded up, or the range is skipped |
| FrameAllocators.WrappedRange | kernel/pmm.c:82-123 | a range whose start wraps counts for all pages of the address space but one, from address 0 on |
| FrameAllocators.WholePages | kernel/pmm.c:82-123 | if no start wraps, the descriptors are exactly the whole pages inside the available ranges |
| FrameAllocators.DistinctIff | kernel/pmm.c:82-123 | no page is listed twice if and only if no two ranges share one |
| FrameAllocators.FindMetadata | kernel/pmm.c:138-171 | finds the first room for the descriptors inside a range and clear of reserved ranges, and none exactly if there is none |
| FrameAllocators.Start | kernel/pmm.c:202-236 | the kernel comes up exactly if there is room for the descriptors and the first such room is not at address 0; the descriptors are there, in the order of the memory map, and describe no page twice if and only if no two ranges share one; a page is free exactly if it overlaps neither the descriptors nor a reserved range whose end does not wrap |
| FrameAllocators.RoomAtZero | kernel/pmm.c:202-236 | with two pages from address 0 on there is room for the descriptors, and the kernel stops |
| Slabs.CacheFor | kernel/slab.c:72-81 | the smallest class that fits, or none |
| Slabs.HeaderTest | kernel/slab.c:200-216 | only the first block of a slab starts 64 bytes behind a page boundary, so the look-back finds a slab header there |
| Slabs.LiveDisjoint | kernel/slab.c:158-188 | live blocks never overlap |
| Slabs.HeadersClear | kernel/slab.c:83-142 | no live block overlaps any slab or large-block header |
| Slabs.TestIsExact | kernel/slab.c:206-216 | reading the word 64 bytes before a live block finds the mark of a large block exactly when it is one, whatever programs wrote into their blocks |
| Slabs.MatchesHome | kernel/slab.c:218-240 | a live block passes the range and stride test for its own slab and for no other |
| Slabs.SlabHeap.Grow | kernel/slab.c:83-123 | a new slab has all its blocks on its free list, linked through their first words, and disturbs nothing |
| Slabs.SlabHeap.FindFree | kernel/slab.c:170-172 | finds the first slab of the cache with a free block, and none exactly if there is none |
| Slabs.SlabHeap.Alloc | kernel/slab.c:158-188 | fails exactly for size 0 or when no slab of the class has a free block and no pages come; otherwise a block that was not live becomes live and nothing else does; it is large enough if and only if the size is at most 2^64 - 64 |
| Slabs.SlabHeap.AllocLarge | kernel/slab.c:125-142 | a page run of its own, with the block behind the header; large enough if and only if adding the header does not wrap |
| Slabs.LargeRoomIff | kernel/slab.c:125-131 | of the sizes that get pages, exactly those up to 2^64 - 64 get enough |
| Slabs.NoPagesIff | kernel/slab.c:125-131 | exactly the sizes from 2^64 - 4159 to 2^64 - 64 wrap to a request for no pages, which is refused |
| Slabs.LargestRequest | kernel/slab.c:125-131 | a request for 2^64 - 1 bytes asks for one page, of which 4032 bytes are usable |
| Slabs.StoredKeeps | kernel/slab.c:97-107 | a store into a live block touches no header and no link of a free list |
| Slabs.RunInv | kernel/slab.c:83-248 | in every run of growing, allocating, freeing and storing from slab_init on, slabs, large blocks, the links in free blocks and live blocks agree, and every block of a slab is free or live |
| Slabs.RunBlocksApart | kernel/slab.c:83-248 | in every run live blocks overlap neither each other nor any header nor the link in any free block, all headers and links are intact, and no block is lost |
| Slabs.SlabHeap.constructor | kernel/slab.c:144-156 | slab_init gives the empty heap in which runs start |
| Slabs.SlabHeap.FindHome | kernel/slab.c:218-247 | the search over all caches finds a slab whose range and stride a pointer fits, and none exactly if there is none |
| Slabs.SlabHeap.Free | kernel/slab.c:200-248 | a live block goes back to the head of its own slab's free list, or its pages go back; null and pointers that fit no block change nothing |
| Slabs.GivenIff | kernel/slab.c:218-247 | putting back a pointer that fits a block of a slab keeps the heap sound if and only if the block is live |
| ExecVectors.ValueOfBytes | user/linux/exec_abi.c:70-78 | numbers survive the trip through memory |
| ExecVectors.RoundTripIff | arch/x86_64/user.c:3049-3213 | what one side serializes the other decodes to the same vector if and only if no string was cut, and refuses otherwise |
| ExecVectors.WholeIff | user/linux/main.c:1155-1164 | strings are written whole by the kernel always, by the server exactly up to 4096 bytes |
| ExecVectors.ReencodeIff | user/linux/exec_abi.c:80-240 | encoding a decoded vector gives its bytes back if and only if no string has a zero byte inside |
| ExecVectors.SerializeOne | user/linux/exec_abi.c:176-197 | writes one encoded string within the limits, or nothing |
| ExecVectors.Serialize | user/linux/exec_abi.c:199-240 | succeeds exactly for vectors within all limits; the buffer then holds the encoding at the offset and the reported length is its length |
| ExecVectors.Push | user/linux/exec_abi.c:33-68 | appends; fails exactly at the limit or when a full vector cannot grow |
| ExecVectors.DeserializeOne | user/linux/exec_abi.c:80-107 | reads one string or refuses as the format says |
| ExecVectors.Deserialize | user/linux/exec_abi.c:109-174 | decodes exactly the given bytes; refuses exactly the malformed ones, given memory |
| ExecVectors.ParseShebang | user/linux/exec_abi.c:260-333 | the index loops compute the first word of the line and the trimmed rest, and refuse exactly what is not a script |
| ExecVectors.Rewrite | user/linux/exec_abi.c:335-394 | the new vector is interpreter, argument if any, script, and the old arguments but the first; made exactly within the limits and with memory |
| ExecVectors.Prepare | user/linux/main.c:2089-2149 | given memory, answers exactly the well-formed requests for a script whose rewritten vector fits; the buffer then holds the interpreter's path and the server's encoding of that vector; every string is freed once unless something fails after the rewrite, which given memory is reached exactly by the requests whose rewritten vector is within the limits |
| ExecVectors.KernelReadsAnswer | arch/x86_64/user.c:3280-3290 | the kernel reads exactly that vector back if and only if no argument but the first and no environment string of the request is longer than 4096 bytes, and nothing otherwise |
| ExecVectors.RequestAnswered | arch/x86_64/user.c:3243-3261 | the server decodes the kernel's request to the kernel's own path, image and vector |
| ExecVectors.PrepareShebang | arch/x86_64/user.c:3215-3290 | through serializing, rewriting, serializing and reading back, the kernel gets the interpreter's path and the vector that runs the script, or an error; given memory it gets them if and only if everything fits and no string is longer than 4096 bytes; given memory the server frees a string twice if and only if the rewritten vector is within the limits and does not fit |
| ExecVectors.CleanUp | user/linux/main.c:2143-2148 | the clean-up frees every string once if and only if nothing failed after the rewrite; otherwise interpreter and argument are freed twice |
| ExecVectors.FullRequest | user/linux/main.c:2122-2148 | a request that fills the buffer is rewritten within the limits but does not fit, so that strings are freed twice |
| ExecVectors.LongStringRefused | arch/x86_64/user.c:3215-3290 | a script run with one argument of 4097 bytes: everything fits on both sides, and the kernel refuses the answer |
| Delegation.GrantNarrows | kernel/sched.c:792-835 | a state that an attenuated capability allows is allowed by its giver |
| Delegation.GrantKeepsHistory | kernel/sched.c:850-890 | whatever is requested, a grant adds nothing that is not attenuated from its authority |
| Delegation.OnlyNarrows | kernel/sched.c:730-890 | no capability that grants can make allows a state or has a right that one of its ancestors does not |
| Delegation.ChainBounded | kernel/sched.c:730-814 | no chain of grants is longer than 8 |
| Delegation.Place | kernel/sched.c:1659-1702 | a granted handle goes to a slot that already holds it, else to the first empty one, else into a doubled table |
| Delegation.RunOnlyNarrows | kernel/sched.c:1993-2122 | in every run of inheriting, sending, replying, creating and closing, every handle's rights are within those of some handle to the same object at the start or those its creator got |

## Left out

- Context switches, interrupts, TLB flushes, timers and devices: hardware effects.
- The window in which a thread is queued but still executes on its old CPU; scheduler operations are atomic here.
- `task_kill` inside IPC sections, message and port reference counts, and port lifetime.
- The sleep list and its order; sleeping is blocking followed by a wake.
- The running thread's quantum: a tick may charge or preempt, so the runs here include those that the quantum allows.
- Region offsets of file mappings, which trims and splits leave unchanged.
- Agreement between regions and page tables in `brk` and `mmap`.
- Wrap-around of the scheduler's 64-bit tick and runtime counters and of the 32-bit table capacities and page counts.
- Mappings of device memory.
- Table pages and data frames come from one pool in the kernel; in `AddressSpaces.dfy` a refused table page is a refused grant.
- The string-keyed twin of the tree, which differs in the key comparison only.
- The repetition of the exchange for scripts whose interpreter is a script.
- Linux system calls, boot parsing, the console, statistics and user programs.
- Ipc.RunInv: one receiving thread per port, as every server keeps it; `RegisterSafeIff` covers the rest.
- Fairness.BoundedBypass: one CPU; idle pull between CPUs is covered by `Scheduler.PullNeverEmpties` only.
- AddressSpaces.Machine.ShareCowPages: after a failure source pages may have lost their write bit, as in the code.
- AddressSpaces.Machine.SharePages: the destination range is not mapped before, as all callers see to; the same holds for copies and allocations.
- Isolation.RunRefines: a change of rights that would make a shared frame writable is not a step of these runs; `AddressSpaces.RightsExclusive` says what it does.
- Fork.ForkSpace: the parent's regions are page-aligned, as all callers keep them.
- FrameAllocators.Start: when the kernel stops, the result is null; page descriptors of a map that describes a page twice have no further contracts, since lookups by address then answer for the first one only.
- FrameAllocators.FrameAllocator.AllocContiguous: a run that starts at address 0 is returned as 0, like a refusal; the ghost result tells them apart.
- PageTables.Space.Translate: a frame and an offset are returned instead of their sum, and None instead of 0.
- PageTables.Space.Init: the identity windows are given as their pages; that the two addresses of a page are the same number is up to the caller.
- LargePages.Space.MapPage: tables are functions from slots to entries in a map from pages to tables; updates in place are modelled on these values.
- Ipc.IpcKernel.SendSecondSection: nodes are records in a map from addresses, not objects; `id` is the address that the allocator returned.
- Slabs.SlabHeap.Free: pointers that are not live but look like a block are excluded, as callers see to; `GivenIff` says what becomes of the slabs otherwise, and nothing does for a pointer behind a forged mark of a large block.
- ExecVectors.Serialize: the shared buffer has the size with which the kernel creates it, so buffer accesses within the limits cannot fail.
- Delegation.RunOnlyNarrows: handles that the kernel grants to a new task by itself are part of the start state; a message is sent and received in one step.
