# Verification of the kernel's core algorithms

A Dafny model of the parts of the operating system where state and loops decide correctness, with proofs over all inputs
and all runs. `dafny verify dfyconfig.toml` checks everything.

- **Memory**: the frame bitmap, the two-level page tables, `copy_page` and the cross-page copy. `Memory32` gives each C
  function as a function of physical memory, in which directories and tables live too; `PageMap` shows that a directory
  behaves as a finite map; `FrameRuns`, `Isolation`, `Fork`, `CopyData` and `MemoryRuns` prove that no frame ever has
  two roles, that fork duplicates, and that writes stay in their space, from boot over every run. `FrameBudget` says how
  many frames the calls take and which stay in use, `FailedFork` what a fork that runs out of memory does, `Rights` what
  a program may do with a page. `Bitmap` and `MemoryMachine` are the same operations in place, on a byte array and an
  array of frames, each proved to compute its function.
- **Scheduling**: `Scheduler` is the transition system of `tss.c`, `mutex.c` and `sem.c`, one step a call.
  `SchedulerInvariant`, `SleepLaw`, `CpuWait`, `Locks` and `Dispatching` prove its properties over every run of whole
  calls. The tick, the mutexes and the semaphores mask interrupts, but sleep, yield, exit and part of creation do not:
  `Preemption` and `Creation` take these apart, tell for each interrupt inside them exactly when it does harm, and keep
  the invariant over runs without such harm; `WholeCalls` shows such runs to be runs of whole calls. `Linked` is the
  tick and exit on the pointers of the lists, store by store, and tells exactly when the lists stay sound; `Races`
  reaches the failing cases from the start. `IntrusiveList` is the linked list, and `Kernel` runs the scheduler on
  linked lists and fields updated in place, each method proved to compute its step, and so every run of whole calls.
- **Terminal output**: `TtyFifo` is the ring buffer, `Tty` the permit protocol with any number of processes interleaved
  between their calls.
- **Network**: `Checksum` for IP, UDP and TCP; `TcpSequence` for the sequence numbers of two endpoints.
- **Text**: `Stdio` for printing and reading integers, `Printed` for what the text says.

Where the code does not do what it seems meant to, the model follows the code, and a lemma says exactly when it is
right: `Bitmap.AllocManyRight` (runs of several bits), `FailedFork.DestroyExactly` and `DuplicateExactly` (clean-up
after a failed fork; `FrameBudget.FailedForkUses` tells when a page is lost; `MemoryRuns.FailedForkBreaksIsolation`
reaches a bad one from boot), `CopyData.MissingPage` (unmapped destination pages), `Preemption.TickInsideExactly`,
`NotifyInsideExactly` and `TickAfterExactly` (interrupts inside sleep, yield and exit), `Linked.ExitExactly` (an exit
that finds a mutex taken), `Creation.CreateExactly` (interrupts inside creation; `Races` and `Creation.CreateRace` reach
bad ones from the start), `SchedulerInvariant.SleepExactly` (sleeping 0 ticks), `Checksum.ExactlyUnwrapped` (long
buffers) and `OddHeaderExactly` (odd TCP headers), `Stdio.ReadBackExactly` (padded numbers),
`TcpSequence.ExchangeExactly` and `ServerDataExactly` (over-long segments, data from a server). Self-verification of the
checksum needs no bound on the length: 2^32 - 1 is a multiple of 65535.

What the steps ask of their callers is what the code relies on: blocking calls and exit come from a running task other
than idle, a sleep lasts at least one tick, a new task gets a free slot of the table, an exiting task owns no mutex and
nobody else owns one that `tss_task_destroy` takes (`Scheduler.Enabled`); address ranges lie in the user half of a live
space, stores and copies go to mapped pages, and a fork or a clean-up that fails releases no frame with a role
(`MemoryRuns.Legal`).

## Model

| member | source | states |
|---|---|---|
| FrameBits.CountAfterSet | src/lib/bitmap.c:42-53 | setting a clear bit leaves exactly one clear bit fewer |
| Bitmap.PutBitGets | src/lib/bitmap.c:46-50 | the masked or and and-not of one byte change the bit they name and no other bit of it |
| Bitmap.BitMap.constructor | src/lib/bitmap.c:4-10 | bitmap_init with FALSE gives a map of clear bits |
| Bitmap.BitMap.SetOne | src/lib/bitmap.c:46-50 | one store into the byte array changes exactly the bit at that index of the whole map |
| Bitmap.BitMap.SetBits | src/lib/bitmap.c:42-53 | the loop changes exactly the bits index to index+size-1, clipped to the size of the map |
| Bitmap.BitMap.AllocBits | src/lib/bitmap.c:13-40 | the scanning loops return and set what the scan function AllocScan says, for every size, the answers for two bits and more included |
| Bitmap.BitMap.CountRun | src/lib/bitmap.c:25-32 | the inner loop, which compares the first bit a second time and stops one bit short |
| Bitmap.AllocOneIsLowest | src/lib/bitmap.c:13-40 | for one bit the scan gives the lowest clear index, or -1 with nothing set exactly when there is none |
| Bitmap.AllocManyExactly | src/lib/bitmap.c:13-40 | for two bits and more, bits are set exactly when size-1 consecutive bits are clear, from the lowest such run on; with none set, the answer is -1 exactly when the last bit is in use or the map is empty, and otherwise an index |
| Bitmap.AllocManyRight | src/lib/bitmap.c:13-40 | the answer is a free run of that length, or -1 when there is none, exactly when one more bit behind the lowest run of size-1 is inside the map and clear, or, without such a run, the last bit is in use or the map is empty |
| Bitmap.AllocManyDiverges | src/lib/bitmap.c:25-39 | two inputs: a bit in use is handed out again, and an index is returned with nothing set |
| Bitmap.ScanFlipped | src/lib/bitmap.c:13-40 | looking for set bits is looking for clear bits in the flipped map |
| FrameRuns.NeverTwice | src/kernel32/memory32.c:19-38 | over any run of allocations and releases from an empty map, a frame handed out is not live, is the lowest such frame, and none is refused unless every frame is live |
| FrameRuns.RunExact | src/kernel32/memory32.c:19-38 | the bits that are set are exactly the frames handed out and not released since |
| Memory32.AllocPage | src/kernel32/memory32.c:19-30 | the frame handed out was free and becomes the only new one in use; none exactly when no frame is free |
| Memory32.FreePage | src/kernel32/memory32.c:32-38 | exactly that frame is no longer in use; an address outside the managed range changes nothing |
| PageLayout.MakeEntry | src/kernel32/memory32.c:54-68 | an entry built with or carries frame and flags back out |
| PageMap.FindPteKeeps | src/kernel32/memory32.c:40-60 | find_pte gives the table of the page, and allocating and zeroing a missing table changes no translation of the directory, although both live in the memory translated by |
| PageMap.MapPageRefines | src/kernel32/memory32.c:66-70 | mapping one page sets that page of the finite map and no other, and fails exactly when a table is missing and no frame is free |
| PageMap.CreateMapRefines | src/kernel32/memory32.c:62-72 | on success the whole range is mapped in order with the permission and present bits and every other page reads as before; on failure a proper prefix is, and memory has run out |
| PageMap.GetPaddrMeans | src/kernel32/memory32.c:179-185 | get_paddr is the lookup in the finite map; for an unmapped page it is 0 unless a table is there |
| PageMap.CreateMapPaddr | src/kernel32/memory32.c:62-72 | after a successful memory32_create_map of page-aligned v and p, get_paddr of v+k is p+k with those permissions, and every other translation is unchanged |
| Rights.MapRights | src/kernel32/memory32.c:40-70 | a page mapped in a directory whose tables are open to users and writable, with a table of find_pte's or an older one, may be read and written by a program exactly as the permission argument asks, and the tables stay open |
| Rights.RangeRights | src/kernel32/memory32.c:62-72 | so does every page of a range, and pages before it keep their rights |
| Isolation.SpaceIsTidy | src/kernel32/memory32.c:165-177 | in a good world the directory and tables of each space are distinct frames in use |
| Isolation.FindPteInv | src/kernel32/memory32.c:40-60 | allocating a table on the way keeps every role of every frame apart |
| Isolation.MapUserPage | src/kernel32/memory32.c:62-72 | mapping a frame that plays no role at a user page keeps all roles distinct and all other translations |
| Isolation.AllocInv | src/kernel32/memory32.c:19-30 | a frame taken from the bitmap plays no role, and no role changes |
| Isolation.OthersKeepLookups | src/kernel32/memory32.c:40-72 | what is written for one space changes no translation of any other space, the shared kernel half included |
| Isolation.ContentWrite | src/kernel32/memory32.c:200-200 | overwriting a user page changes no role and no translation |
| Isolation.CreatePdeInv | src/kernel32/memory32.c:165-177 | a new directory is a frame that was free, has the kernel half of all others and an empty user half, and keeps all roles apart |
| Fork.CopyOneStep | src/kernel32/memory32.c:123-141 | one present page: one frame, or two when a table is begun, are taken; it fails exactly when they are missing; the child's page then holds the parent's bytes |
| Fork.CopyLoop | src/kernel32/memory32.c:117-142 | the nested loops of copy_page succeed exactly when as many frames are free as the parent's pages need |
| Fork.ForkDuplicates | src/kernel32/memory32.c:108-144 | copy_page succeeds exactly when enough frames are free; the child then maps exactly the parent's user pages with the same permission bits, in frames that were free, reads the same bytes, shares the kernel half, and nothing that was in use has changed |
| Fork.SharedHalf | src/kernel32/memory32.c:172-175 | all spaces translate the addresses below VM_TASK_BASE alike |
| Fork.ForkReadsAlike | src/kernel32/memory32.c:108-144 | every user byte reads the same in the child, in the parent afterwards, and in the parent before |
| CopyData.UserWriteIsolated | src/kernel32/memory32.c:179-185 | a write through a mapped user address changes what that address of that space reads, and no other user byte of any space |
| CopyData.CopyBytesMoves | src/kernel32/memory32.c:200-200 | the byte loop of one kernel_memcpy into a page puts the source bytes there and changes nothing else |
| CopyData.ChunkCopied | src/kernel32/memory32.c:191-203 | one turn of the loop copies the bytes up to the end of the page |
| CopyData.CopyPageDataCopies | src/kernel32/memory32.c:187-206 | with the destination mapped and the source elsewhere, the call returns 0, byte to+j of the target space then reads as source byte j, and every other physical byte is unchanged, over unrelated frames |
| CopyData.DifferentSpacesApart | src/kernel32/memory32.c:187-206 | between user ranges of different spaces the source never lies in a destination frame, so the copy needs no further condition |
| CopyData.MissingPage | src/kernel32/memory32.c:187-206 | at the first unmapped destination page, for ranges of every size: all bytes before it have been copied; -1 is returned there exactly when the table is missing, or the entry names frame 0 and the address is aligned (which it is but in the first page); otherwise the bytes for that page go to the address get_paddr gave and the loop goes on |
| CopyData.MissingLastPage | src/kernel32/memory32.c:187-206 | when the range ends in that page, the call returns -1 exactly then, and 0 otherwise |
| CopyData.NullSource | src/lib/string.c:87-95 | a copy into one page from address 0 changes nothing and still returns 0 when get_paddr gives an address |
| MemoryRuns.AllocTaskPagesInv | src/kernel32/memory32.c:208-231 | alloc_task_pages maps new frames over the range and leaves every other translation and role, whether it succeeds or runs out |
| FrameBudget.AllocExactly | src/kernel32/memory32.c:208-231 | alloc_task_pages on a user range returns 0 if and only if the pages and the page tables missing in the range are no more than the free frames, and takes exactly that many; when it fails no frame is left, and exactly a proper prefix of the range has new frames |
| FailedFork.FreeLeavesFrees | src/kernel32/memory32.c:150-161 | the loops of destroy_pde release exactly the frames mapped in the user half |
| FrameBudget.DestroyFrees | src/kernel32/memory32.c:146-163 | after destroy_pde a frame is in use if and only if it was, is mapped nowhere in the user half of the directory, and is not the stray one |
| FailedFork.DestroyExactly | src/kernel32/memory32.c:146-163 | destroy_pde keeps the isolation invariant exactly when the frame named by the word after the directory, which it also frees, plays no role |
| FailedFork.CopyFromFirst | src/kernel32/memory32.c:117-142 | whether or not the loops of copy_page run out of frames, the first free frame ends up with the parent's first user page, or, with fewer than two free frames, nothing has been written |
| FailedFork.StrayForetold | src/kernel32/memory32.c:108-163 | with c the lowest free frame, the frame a failing fork releases is named by word 0 of frame c+1 as it was before the call if c+1 is in use or fewer than three frames are free, and otherwise by the first word of the parent's first mapped user page |
| FailedFork.DuplicateExactly | src/kernel32/memory32.c:108-144 | copy_page keeps the invariant exactly when frames suffice, or none is free, or that frame plays no role before the call |
| FrameBudget.ForkUses | src/kernel32/memory32.c:108-144 | a copy_page that succeeds puts in use exactly the child's directory, tables and pages |
| FrameBudget.FailedForkUses | src/kernel32/memory32.c:108-163 | after a copy_page that ran out of frames, in use are exactly the frames that were, the child's directory and tables, and one page more if and only if the last free frame was taken for a page that needed a table too; the stray frame is not; all other pages of the child are free again |
| MemoryRuns.FailedForkBreaksIsolation | src/kernel32/memory32.c:108-163 | from boot: with one kernel page mapped, one space created, two pages allocated and one byte stored by the program, a fork with three of eight frames left releases the kernel table that every space uses |
| MemoryRuns.StepIsolates | src/kernel32/memory32.c:108-231 | each call, and each store by a program, keeps the roles of frames apart; user pages it is not meant to remap keep their translation, and those it is not meant to write their contents too |
| MemoryRuns.RunIsolates | src/kernel32/memory32.c:108-231 | over every run of create, allocate, fork, destroy, program stores and memory32_copy_page_data: no frame has two roles, and a user page that no call is meant to change keeps mapping and contents |
| MemoryRuns.KernelMapReady | src/kernel32/memory32.c:97-104 | mapping a kernel region keeps the kernel directory ready, whether or not memory suffices |
| MemoryRuns.BootIsolates | src/kernel32/memory32.c:84-106 | after kernel_pagging, for any regions below VM_TASK_BASE and whether or not memory suffices, the invariant holds |
| MemoryRuns.BootMaps | src/kernel32/memory32.c:84-106 | if boot leaves a frame free, kernel_pagging has mapped every page of every region to its frame with its permissions, and no other page, for regions that do not overlap |
| MemoryRuns.ZeroedIsReady | src/kernel32/memory32.c:7-7 | a zeroed kernel directory is ready to be mapped |
| MemoryRuns.BootRunIsolates | src/kernel32/memory32.c:84-231 | from boot on, whatever regions are mapped and whatever was called before, any further run keeps the invariant and every page it is not meant to change |
| MemoryMachine.Machine.AllocPage | src/kernel32/memory32.c:19-30 | the in-place method does what AllocPage does to the memory it views, and returns the byte address |
| MemoryMachine.Machine.FreePage | src/kernel32/memory32.c:32-38 | the same for a release, unsigned index and clipping included |
| MemoryMachine.Machine.FindPte | src/kernel32/memory32.c:40-60 | the directory walk with in-place stores is FindPte of the old memory |
| MemoryMachine.Machine.CreateMap | src/kernel32/memory32.c:62-72 | the loop over 32-bit addresses is CreateMap of the old memory |
| MemoryMachine.Machine.CeilPageRounds | src/kernel32/memory32.c:79-82 | ceil_page is the next multiple of the page size, or 0 when the addition wraps |
| MemoryMachine.Machine.AllocTaskPages | src/kernel32/memory32.c:208-231 | the loop over the range is AllocTaskPages of the old memory |
| MemoryMachine.Machine.CreatePde | src/kernel32/memory32.c:165-177 | clearing and filling the new directory in place is CreatePde of the old memory |
| MemoryMachine.Machine.CopyPage | src/kernel32/memory32.c:108-144 | the nested loops, reading tables from the memory they write, are CopyPage of the old memory |
| MemoryMachine.Machine.DestroyPde | src/kernel32/memory32.c:146-163 | the loops of destroy_pde are DestroyPde of the old memory, the stray release included |
| MemoryMachine.Machine.GetPaddr | src/kernel32/memory32.c:179-185 | get_paddr, with 0 standing for the kernel directory |
| MemoryMachine.Machine.CopyPageData | src/kernel32/memory32.c:187-206 | the copy loop, one kernel_memcpy a page, is CopyPageData of the old memory, for all 32-bit addresses, wrap-around at 2^32 included |
| IntrusiveList.WithoutAt | src/lib/list.c:69-90 | removing a node of a list without repetition drops exactly its position |
| IntrusiveList.List.constructor | src/lib/list.c:3-7 | list_init gives a sound empty list |
| IntrusiveList.List.InsertNode | src/lib/list.c:10-41 | the new node comes right after or right before the old one, and the list stays sound; null arguments and other types change nothing |
| IntrusiveList.List.InsertFront | src/lib/list.c:43-54 | the sequence gains the node at the front |
| IntrusiveList.InsertedBehind | src/lib/list.c:56-67 | the stores of list_insert_back, behind a sound list, make up the longer sequence and touch no other node |
| IntrusiveList.List.InsertBack | src/lib/list.c:56-67 | on the heap they are those stores, whether or not the list is sound |
| IntrusiveList.List.Attach | src/lib/list.c:56-67 | on a sound list the sequence gains the node at the back |
| IntrusiveList.RemovedInside | src/lib/list.c:69-90 | the stores of list_remove, for a node of a sound list, make up the sequence without it, clear its links and touch no node of another list |
| IntrusiveList.RemovedOutside | src/lib/list.c:69-90 | for a node that is in no list, or in another one, the pointers of this list stand and its unsigned count drops by one |
| IntrusiveList.WrongCount | src/lib/list.c:69-90 | a list whose count is not that of its nodes is no sound list of any sequence |
| IntrusiveList.RequeuedOutside | src/lib/list.c:56-90 | removing such a node and inserting it behind: with nothing in the list only the tail names it and the count is 0, a single node is dropped, behind two and more the count is one short; no sequence makes the list sound |
| IntrusiveList.List.Remove | src/lib/list.c:69-90 | on the heap list_remove is those stores, whatever list the node is in and whether or not the list is sound |
| IntrusiveList.List.Detach | src/lib/list.c:69-90 | on a sound list the sequence loses exactly that node, whose links are cleared |
| IntrusiveList.List.Requeue | src/lib/list.c:56-90 | on the heap the two calls, for a node in no list or in another one, leave head, tail and count as told and the list unsound |
| IntrusiveList.List.RemoveFront | src/lib/list.c:92-107 | the first node leaves and is returned; null for an empty list |
| SchedulerInvariant.PlacedMeans | src/kernel32/task/tss.c:139-154 | under the invariant a queued task is live, not idle, queued once, and in no other queue |
| SchedulerInvariant.WalkWakesFirst | src/kernel32/task/tss.c:425-434 | the loop over sleep_list lowers the counters down to the first task that reaches 0, moves that one to the back of ready_list, and stops there, leaving the counters behind it |
| SchedulerInvariant.TickInv | src/kernel32/task/tss.c:422-445 | the timer tick keeps the invariant |
| SchedulerInvariant.ExitTakesNone | src/kernel32/task/tss.c:221-232 | when the mutexes that tss_task_destroy takes are free, taking and giving back each of them leaves no trace |
| SchedulerInvariant.StepInv | src/kernel32/task/tss.c:139-510 | every whole call keeps single location, the running task at the head of ready_list or idle, counters and ticks of at least 1, and sound mutexes and semaphores; exit takes the mutexes of the descriptor table and of the frames, which have to be free |
| SchedulerInvariant.RunInv | src/kernel32/task/tss.c:139-510 | so does every run of whole calls |
| SchedulerInvariant.InitialInv | src/kernel32/task/tss.c:83-127 | the state after default_tss_task_init has the invariant |
| SchedulerInvariant.OneListEach | src/kernel32/task/tss.c:139-510 | after any run of whole calls from the start each live task other than idle is in exactly one of ready_list, sleep_list and the wait lists, there once; idle is in none; the running task is idle or heads ready_list |
| SchedulerInvariant.SleepExactly | src/kernel32/task/tss.c:447-461 | without interrupts, tss_task_sleep keeps every live task in one place exactly when a task other than idle sleeps at least one tick, or idle sleeps 0 |
| Linked.TakeShows | src/lib/list.c:69-90 | on the pointers of all lists, taking a queued task off its list is the same edit of the queues, and the other lists stand |
| Linked.PutShows | src/lib/list.c:56-67 | likewise for inserting a task that is in no list |
| Linked.WalkShows | src/kernel32/task/tss.c:425-434 | the pointer loop over sleep_list, of at most as many turns as the list counts, is the walk of the queue |
| Linked.TickExactly | src/kernel32/task/tss.c:422-445 | on the pointers of sound lists a tick leaves the lists sound if and only if idle runs, or the running task keeps some of its slice, or it is on ready_list after the walk; then it is the tick of the queues, and otherwise head, tail, count and the task that runs are as for Requeued |
| Linked.WaitBreaks | src/kernel32/mutex.c:12-29 | mutex_lock of a mutex that is another task's, by a task in no list, takes one from the count of ready_list; the list is unsound, and with one task ready idle runs |
| Linked.LockShows | src/kernel32/mutex.c:12-29 | mutex_lock on the pointers of sound lists, waiting included, is that of the queues |
| Linked.UnlockShows | src/kernel32/mutex.c:31-52 | so is mutex_unlock, hand-off included |
| Linked.ExitExactly | src/kernel32/task/tss.c:221-232 | tss_task_exit, with tss_task_destroy (406-420) taking each of its mutexes, leaves the lists sound if and only if each is free or the caller's; then it is the exit of the queues and every live task is in one list |
| Linked.ExitKeepsExactly | src/kernel32/task/tss.c:221-232 | the lists show a state with the whole invariant afterwards if and only if the caller owns no mutex and each is free |
| Linked.Picture | src/lib/list.c:56-67 | there are such pointers for every state whose queues have no task in common |
| Preemption.PartsAreStep | src/kernel32/task/tss.c:156-161 | without interrupts, and with the mutexes of tss_task_destroy free, the two list operations and the dispatch of sleep, yield and exit make up the whole call |
| Preemption.TickInsideExactly | src/kernel32/task/tss.c:456-461 | sleep, yield (156-165) and exit (221-232) leave interrupts on: a tick between their two list operations leaves the lists sound if and only if the caller's slice is not at its last tick, and then the call might as well begin after it |
| Preemption.TicksInsideExactly | src/kernel32/task/tss.c:456-461 | any number of ticks there leaves them sound exactly when the slice outlasts them |
| Preemption.TicksBefore | src/kernel32/task/tss.c:456-461 | then the call has the effect of starting after those ticks |
| Preemption.NotifyInsideExactly | src/kernel32/sem.c:27-40 | a handler that notifies a semaphore there is harmless exactly when nobody waits on it; otherwise it dispatches, and the caller is live but in no list |
| Preemption.TickAfterExactly | src/kernel32/task/tss.c:456-461 | a tick between the second list operation and the dispatch leaves the lists sound if and only if it leaves the caller some of its slice, or finds it on ready_list, or wakes it |
| Preemption.NotifyAfter | src/kernel32/sem.c:27-40 | a notify there is harmless |
| Preemption.TickFurnish | src/kernel32/task/tss.c:505-511 | while another task runs, a tick and the stores of tss_task_init behind its masked part commute |
| Preemption.OneListThroughout | src/kernel32/task/tss.c:139-520 | over every run with interrupts between any parts of sleep, yield, exit and its mutexes, and creation, subject to the conditions above, each live task is in exactly one list, but for a running task in the middle of its call, which is in none |
| Races.RaceReachable | src/kernel32/task/tss.c:456-461 | from every start with three slots a run leads to a state with two ready tasks in which sleep, yield or exit, interrupted by one tick after its first list operation, leaves ready_list with the caller alone, which goes on running, and the other task in no list |
| Races.ExitWaits | src/kernel32/task/tss.c:406-420 | from every start with a mutex a run of whole calls leads to a state in which exit, without interrupts, has to wait for another task's mutex: the count of ready_list is 0 with the owner at its head, idle runs, and the next task made ready takes the owner's place |
| Creation.StoresInTime | src/kernel32/task/tss.c:505-511 | ticks between the masked part of tss_task_init and its stores that leave the creator some of its slice come to the same as ticks after the creation |
| Creation.CreateExactly | src/kernel32/task/tss.c:505-511 | on a slot without ticks, from then on whoever runs has 1 to 10 ticks left, and whoever waits runs within the bound, if and only if the creator's slice outlasts the ticks in between |
| Creation.RunsOn | src/kernel32/task/tss.c:436-443 | a task that runs without ticks runs for 2^32 - 1 ticks more |
| Creation.CreateRace | src/kernel32/task/tss.c:505-511 | from every start with three slots, 10 ticks in the first creation lose both |
| WholeCalls.AdvanceSeen | src/kernel32/task/tss.c:139-520 | each part of a call, tick or notify changes the state, seen with calls in progress as not begun until their second list operation and creation as complete, as the whole call it completes does |
| WholeCalls.RunSeen | src/kernel32/task/tss.c:139-510 | a run with interrupts inside calls, none of them in the last part, is the run of its whole calls in the order of their second list operations |
| WholeCalls.InterruptedIsWhole | src/kernel32/task/tss.c:139-520 | from the start, those whole calls are a legal run, and outside calls the state is the one they lead to |
| WholeCalls.ExitIsParts | src/kernel32/task/tss.c:221-232 | a whole exit is locking and unlocking each of its mutexes and then an exit that takes none |
| SleepLaw.TickLevel | src/kernel32/task/tss.c:422-434 | on a tick a sleeper wakes with its counter at 1, or its counter plus index falls by exactly 1 |
| SleepLaw.OneWakes | src/kernel32/task/tss.c:425-434 | at most one task wakes on a tick |
| SleepLaw.OtherLevel | src/kernel32/task/tss.c:139-165 | no other step moves a sleeper's counter plus index |
| SleepLaw.LevelFalls | src/kernel32/task/tss.c:422-434 | over a run through which a task sleeps, counter plus index has fallen by exactly the number of ticks |
| SleepLaw.SleepLasts | src/kernel32/task/tss.c:447-461 | a task sleeping n ticks behind k sleepers wakes on tick n+k-j exactly, j of the k being still asleep ahead of it |
| SleepLaw.SleepEnds | src/kernel32/task/tss.c:447-461 | it cannot sleep through n+k ticks |
| SleepLaw.NoneOvertake | src/kernel32/task/tss.c:447-461 | whoever is ahead of a sleeper after a run was ahead of it before |
| CpuWait.TickDebt | src/kernel32/task/tss.c:436-443 | a tick lowers the ticks ahead of a waiting task by exactly 1, and brings it to run exactly when they were 1 |
| CpuWait.StepDebt | src/kernel32/task/tss.c:139-165 | no other step raises them |
| CpuWait.DebtPaid | src/kernel32/task/tss.c:422-445 | over a run through which a task waits, each tick has paid off one |
| CpuWait.BoundedWait | src/kernel32/task/tss.c:436-443 | over runs of whole calls a task at index i of ready_list runs within 10*i ticks, or 10*(i+1) while idle runs |
| Dispatching.WhoRuns | src/kernel32/task/tss.c:139-510 | ready_list and the running task after every call but the tick, told from ready_list before: a caller that sleeps, exits or has to wait leaves the head and the next one runs, or idle; yield puts the caller at the back; a woken waiter and a new task join at the back; after waking somebody the head runs, which is the caller unless idle called; otherwise nothing changes |
| Dispatching.NotifyRuns | src/kernel32/sem.c:27-40 | after a sem_notify that wakes a waiter the head of ready_list as it was runs, or the waiter when that was empty, and a running task other than idle goes on |
| Dispatching.SwitchExactly | src/kernel32/task/tss.c:473-491 | after every sleep, blocking lock or wait, exit, hand-off and waking notify, and yield with more than one ready, the head of ready_list runs, and idle exactly when nobody is ready |
| Dispatching.TickRuns | src/kernel32/task/tss.c:422-445 | a tick appends the sleeper that wakes; a task with ticks to spare goes on with one less; at its last tick it goes to the back with ten and the next one runs; idle then gives way to whoever is ready |
| Dispatching.StepSlices | src/kernel32/task/tss.c:493-511 | no other call touches a slice, but that a new task starts with ten ticks and the slot of one that exits is cleared |
| Dispatching.StepCounters | src/kernel32/task/tss.c:447-454 | nor a sleep counter, but that of a caller that goes to sleep and of a slot taken or cleared |
| Dispatching.RunsAtOnce | src/kernel32/sem.c:27-40 | over every run, a waiter that a notify releases while idle runs and nobody is ready runs at once, with no further tick |
| Dispatching.TurnLasts | src/kernel32/task/tss.c:436-443 | while nothing but ticks happens a task runs for exactly the ticks it has left, and is then behind all that were ready, with a full slice |
| Locks.StepMutex | src/kernel32/mutex.c:12-52 | what each step does to owner, count and waiters of a mutex |
| Locks.OwnershipExact | src/kernel32/mutex.c:12-52 | over every run, what a task holds of a mutex plus its waiting call is its lock calls minus its unlock calls as owner, on top of where it began |
| Locks.StepWaiter | src/kernel32/mutex.c:31-52 | a waiter moves up at each full release and at no other step; the first becomes the owner, once, and ready |
| Locks.WaitersInOrder | src/kernel32/mutex.c:41-46 | no overtaking: after r full releases the waiter at position k is at k-r |
| Locks.LockHandedOver | src/kernel32/mutex.c:41-46 | the waiter at position k gets the mutex, with count 1, at exactly the (k+1)-th full release |
| Locks.ResumesAsOwner | src/kernel32/mutex.c:12-52 | a blocked mutex_lock resumes only as owner: over every run, when a task that waits for a mutex first runs again, it owns it, with count 1, and waits no more |
| Locks.StepSem | src/kernel32/sem.c:12-40 | what each step does to counter and waiters of a semaphore |
| Locks.PermitsConserved | src/kernel32/sem.c:12-40 | over every run, counter minus waiters is where it began plus notifies minus wait calls |
| Locks.SemWaitersInOrder | src/kernel32/sem.c:27-40 | after n notifies the waiter at position k is at k-n |
| Locks.SemReleased | src/kernel32/sem.c:30-36 | the (k+1)-th notify puts the waiter that was at position k on ready_list |
| Locks.FromStart | src/kernel32/sem.c:5-40 | over every run from the start the counter less the waiters is the initial count plus notifies minus waits, and holdings are locks less unlocks as owner |
| Kernel.Kernel.constructor | src/kernel32/task/tss.c:99-102 | the lists are empty and the layout sound |
| Kernel.Kernel.Start | src/kernel32/task/tss.c:104-127 | on the linked lists the start is the initial state: idle in no list, the default task running |
| Kernel.Kernel.Append | src/lib/list.c:56-67 | appending a node to one of the kernel's lists keeps all of them sound and the others untouched |
| Kernel.Kernel.Unlink | src/lib/list.c:69-90 | the same for removing a node |
| Kernel.Kernel.Pop | src/lib/list.c:92-107 | the same for taking the first node |
| Kernel.Kernel.WithoutIds | src/lib/list.c:69-90 | removing a node from a chain removes its task from the queue the chain stands for |
| Kernel.Kernel.SetReady | src/kernel32/task/tss.c:139-146 | on running_node and the linked ready_list it is the abstract SetReady |
| Kernel.Kernel.SetBlock | src/kernel32/task/tss.c:148-154 | likewise SetBlock |
| Kernel.Kernel.RequeueReady | src/kernel32/task/tss.c:436-443 | for a task that is not on ready_list, as when its slice runs out inside sleep, yield or exit, what tss_task_ts does leaves head, tail and count as for Requeue, and ready_list unsound |
| Kernel.Kernel.Yield | src/kernel32/task/tss.c:156-165 | likewise Yield |
| Kernel.Kernel.Dispatch | src/kernel32/task/tss.c:473-491 | the head of the linked list, or idle, runs |
| Kernel.Kernel.WalkSleepers | src/kernel32/task/tss.c:425-434 | the while loop through the next pointers, which stops at the first waker because its node has moved to the tail of ready_list, is the abstract walk |
| Kernel.Kernel.Ts | src/kernel32/task/tss.c:422-445 | tss_task_ts on the lists is Tick |
| Kernel.Kernel.TaskSleep | src/kernel32/task/tss.c:447-461 | tss_task_sleep, the same node going from ready_list to sleep_list, is Sleep |
| Kernel.Kernel.EnlistTask | src/kernel32/task/tss.c:505-507 | the masked part of tss_task_init is Enlist |
| Kernel.Kernel.FurnishTask | src/kernel32/task/tss.c:509-511 | the stores behind it are Furnish |
| Kernel.Kernel.CreateTask | src/kernel32/task/tss.c:493-516 | without interrupts between them they are Create |
| Kernel.Kernel.PassMutexes | src/kernel32/gdt32.c:37-42 | locking and unlocking free mutexes one after the other changes nothing |
| Kernel.Kernel.ExitTask | src/kernel32/task/tss.c:221-231 | tss_task_exit, with the mutexes of tss_task_destroy free, is Exit |
| Kernel.Kernel.MutexLock | src/kernel32/mutex.c:12-29 | mutex_lock on fields and wait_list is Lock |
| Kernel.Kernel.MutexUnlock | src/kernel32/mutex.c:31-52 | mutex_unlock is Unlock, hand-off included |
| Kernel.Kernel.SemWait | src/kernel32/sem.c:12-25 | sem_wait is Wait |
| Kernel.Kernel.SemNotify | src/kernel32/sem.c:27-40 | sem_notify is Notify |
| Kernel.Kernel.Perform | src/kernel32/task/tss.c:139-510 | each call on the linked structures is the abstract step and keeps lists and invariant sound |
| Kernel.Kernel.RunAll | src/kernel32/task/tss.c:139-510 | so is every run of calls |
| TtyFifo.Fifo.constructor | src/kernel32/device/tty.c:47-52 | tty_fifo_init gives an empty queue |
| TtyFifo.Fifo.PutByte | src/kernel32/device/tty.c:54-63 | the ring buffer appends to the queue, or returns -1 and changes nothing when it is full |
| TtyFifo.Fifo.GetByte | src/kernel32/device/tty.c:65-74 | it takes the oldest byte, or returns -1 and leaves the caller's byte when it is empty |
| Tty.SemaphoreOfScheduler | src/kernel32/sem.c:12-40 | the counter and waiters used for osem are those of the scheduler's sem_wait and sem_notify |
| Tty.RoomForHolder | src/kernel32/device/tty.c:412-420 | a process past sem_wait finds room in the buffer |
| Tty.StepCore | src/kernel32/device/tty.c:321-342 | every step of every process keeps: counter + bytes buffered + permits held before the put + bytes taken before the notify = 512; waiters are the blocked processes; bytes leave in put order; each writer's bytes are put in its order |
| Tty.RunInv | src/kernel32/device/tty.c:407-423 | so does every run of any number of processes |
| Tty.NeverFull | src/kernel32/device/tty.c:57-57 | from dev_tty_open on, dev_tty_write never meets a full buffer |
| Tty.NothingLost | src/kernel32/device/tty.c:407-423 | shown bytes and buffer are the puts in order, each writer's puts and rest are what it issued, and a process that has left the put loop has put everything |
| Tty.NoLostWakeup | src/kernel32/device/tty.c:321-342 | while a process waits no permit is free, all are buffered or owed by running processes, and the next notify releases the first waiter |
| Tty.LeavesExactly | src/kernel32/device/tty.c:321-342 | a process comes out of its call exactly when tty_write, outside an escape sequence, finds the buffer empty, and by no step of another one |
| Tty.AllShown | src/kernel32/device/tty.c:321-342 | when all have returned, everything put has been shown and all 512 permits are free |
| Tty.Output.Write | src/kernel32/device/tty.c:407-423 | run alone: if the permits run out, it blocks with as many bytes buffered as there were permits and nothing shown; otherwise the put loop and the drain show what was waiting and then the new bytes, and give all permits back |
| Tty.Output.Drain | src/kernel32/device/tty.c:321-342 | the drain loop shows the whole buffer in order and gives a permit back for each byte |
| Checksum.RoundKeeps | src/kernel32/netx.c:105-107 | one fold round keeps the value modulo 65535, and makes a larger sum smaller |
| Checksum.FoldValue | src/kernel32/netx.c:105-107 | the fold ends at the representative in 1 to 65535, or 0 for 0 |
| Checksum.TwoRounds | src/kernel32/netx.c:105-107 | two rounds are enough for any 32-bit sum |
| Checksum.NoWrap | src/kernel32/netx.c:94-102 | up to 131074 bytes the 32-bit sum does not wrap |
| Checksum.Wraps | src/kernel32/netx.c:94-102 | for every greater length there is a buffer that wraps it |
| Checksum.ExactlyUnwrapped | src/kernel32/netx.c:92-110 | for every buffer, the result is the one RFC 1071 defines if and only if the sum does not wrap |
| Checksum.SelfVerifies | src/kernel32/netx.c:92-110 | for buffers of every length: once the result is stored into a zeroed field at an even offset, the function over the whole buffer returns 0 |
| Checksum.ChangeDetected | src/kernel32/netx.c:92-110 | in a buffer that verifies, replacing a word goes unnoticed exactly when old and new are congruent modulo 65535 and the buffer is not all zeros |
| Checksum.CalcChecksum | src/kernel32/netx.c:92-110 | the two loops, with 32-bit sum and index, compute that checksum |
| Checksum.CalcUdpChecksum | src/kernel32/netx/udp.c:8-40 | zeroes the field and returns the plain checksum of pseudo header and datagram (RFC 768), 16-bit length and index included; for a datagram of 8 + data_len bytes that is the checksum of all of it |
| Checksum.DatagramVerifies | src/kernel32/netx/udp.c:8-40 | a receiver that sums pseudo header and datagram with that checksum stored gets 0 |
| Checksum.CalcTcpChecksum | src/kernel32/netx/tcp.c:7-47 | zeroes the field and sums pseudo header, header and data apart, with the header length from total_len, ihl and data_len; when the data end the segment and total_len is the IP header and the segment, the result is the checksum of pseudo header and whole segment if and only if the data start at an even offset or their words add up to a multiple of 257 |
| Checksum.SegmentVerifies | src/kernel32/netx/tcp.c:22-40 | with a header of even length the two loops give the checksum of the segment as a whole (section 3.1 of RFC 9293), and it verifies |
| Checksum.OddHeaderExactly | src/kernel32/netx/tcp.c:22-40 | for a header of odd length the two loops give the checksum of the segment as a whole if and only if the words of the data add up to a multiple of 257, while the sum does not wrap and the pseudo header is not all zero |
| Checksum.OddHeaderDiffers | src/kernel32/netx/tcp.c:22-40 | an input of real length for which they do not: 21 bytes of header and two of data |
| Stdio.DigitsValue | src/lib/stdio.c:57-60 | the digits evaluate to the number in every base from 2 to 36 and have no leading zero |
| Stdio.DigitsLength | src/lib/stdio.c:38-38 | at most k digits for a number below 2^k, so tmp is large enough in every base |
| Stdio.BodyMeans | src/lib/stdio.c:57-82 | with zeros up to any precision, what is written after sign and prefix evaluates to the magnitude in every base, the least integer included |
| Printed.ReadsAsMeant | src/lib/stdio.c:35-85 | for every base, width, precision and flag the text, followed by anything but a letter or digit, is read by strtol as the number, or without SIGN as its 32 bits, the least integer included |
| Printed.SignShown | src/lib/stdio.c:47-51 | behind blanks the text starts with '-' exactly for a negative number with SIGN, and with '+' exactly for another one with PLUS |
| Printed.SpaceShown | src/lib/stdio.c:51-51 | without blanks for the width it starts with a blank exactly with SPACE, without PLUS, for a number without '-' |
| Printed.SpecialShown | src/lib/stdio.c:71-77 | behind the sign hexadecimal text starts with 0x or 0X exactly with SPECIAL, and octal text with SPECIAL starts with 0 |
| Printed.CaseShown | src/lib/stdio.c:39-42 | SMALL decides the case of all letters |
| Printed.LengthShown | src/lib/stdio.c:52-84 | in every padding mode the text has as many characters as the width, or, if more, one for a sign, two for 0x or one for the octal 0, and the digits or the precision |
| Printed.WidthPads | src/lib/stdio.c:66-84 | a width adds blanks behind the text with LEFT and in front of it without LEFT and ZEROPAD |
| Printed.ZerosPad | src/lib/stdio.c:78-80 | ZEROPAD without LEFT puts zeros between sign and prefix and the digits |
| Printed.ReadsBehindSign | src/lib/stdio.c:13-20 | a negative number printed in base 10 without a width is read back by skip_atoi from behind the sign as its magnitude modulo 2^32 |
| Stdio.Divide | src/lib/stdio.c:59-60 | the unsigned division loop leaves the digits in tmp, least significant first |
| Stdio.Number | src/lib/stdio.c:35-85 | the loops write exactly the image at str and nothing else, the least integer included; a base out of range writes nothing and returns null |
| Stdio.SkipAtoi | src/lib/stdio.c:13-20 | the leading digits as a 32-bit number, and the position after them |
| Stdio.ReadBackExactly | src/lib/stdio.c:13-85 | a number printed in base 10 without a sign is read back as itself if and only if it is 0 or no blanks for the width come first |
| Stdio.PrefixValue | src/lib/stdio.c:17-18 | no intermediate value of the reading loop is larger than the number read |
| TcpSequence.Socket.SendSyn | src/kernel32/netx/tcp.c:157-181 | the socket and segment of tcp_syn |
| TcpSequence.Socket.SendSynAck | src/kernel32/netx/tcp.c:183-218 | the socket and segment of tcp_synack: the number goes out before it is incremented |
| TcpSequence.Socket.SendAck | src/kernel32/netx/tcp.c:254-297 | the socket and segment of tcp_ack |
| TcpSequence.Socket.Input | src/kernel32/netx/tcp.c:49-125 | the branches of tcp_input for SYN, SYN ACK, PSH ACK and ACK |
| TcpSequence.StepInv | src/kernel32/netx/tcp.c:49-125 | every step of handshake and stop-and-wait data keeps the numbers of both ends and of the segment in flight consistent |
| TcpSequence.RunInv | src/kernel32/netx/tcp.c:49-125 | so does every run |
| TcpSequence.AgreeWhenQuiet | src/kernel32/netx/tcp.c:73-119 | whenever nothing is in flight after the handshake, client.seq = server.ack and client.ack = server.seq, and the first pair has advanced by exactly the bytes sent, modulo 2^32 (sections 3.4 and 3.5 of RFC 9293) |
| TcpSequence.ExchangeExactly | src/kernel32/netx/tcp.c:134-155 | an acknowledged segment of n bytes leaves the ends agreeing, and advances the first pair by n exactly when n fits the 16-bit total_len |
| TcpSequence.ServerDataExactly | src/kernel32/netx/tcp.c:286-294 | data sent by the server leave the ends agreeing exactly when it is still in ESTABLISHED, which receiving data has ended, or the segment is empty |
| TcpSequence.CloseWaitExactly | src/kernel32/netx/tcp.c:289-295 | over every run, when nothing is in flight after the handshake, the server is in CLOSE_WAIT exactly when it has received a data segment, and otherwise in ESTABLISHED |
| TcpSequence.ClosingStates | src/kernel32/netx/tcp.c:281-295 | an acknowledging client goes over FIN_WAIT_2 to TIME_WAIT, a server from LAST_ACK to CLOSED |
| TcpSequence.SegmentLengths | src/kernel32/netx/tcp.c:157-218 | SYN, SYN ACK with its option and ACK carry no data by their lengths, a data segment the bytes given if they fit total_len |

## Left out

- Physical addresses: frames and pages are numbers, 4096 times which are the addresses; kernel addresses are identity
  mapped, so tables are read and written by frame. Reading an unmapped virtual byte gives 0 instead of a page fault.
- `copy_page` reads the parent through the running directory; the model takes the running directory to be the parent's, as
  at its one caller. Directory and table frames keep being used after `destroy_pde`, as in the code, so frames are not
  conserved through it.
- Memory management with several frames at a time (only the bitmap's answers for them are modelled), `bitmap_init` with
  TRUE, the branch of `free_page` for high addresses, and `map_area` after boot.
- Whether a program may write a page: a store goes to any mapped page of its space.
- The mutex in the allocation and release of frames: calls of the memory manager are atomic, one after another.
- Heap (`tss_task_sbrk`, `tss_task_free`), ELF loading, `execve`, files and the disk.
- The contents of the TSS, descriptors and the switch itself: a switch is the change of the running task.
- `task_list`, the `state` field and process numbers: bookkeeping that decides no queue. Idle and the default task are
  slots 0 and 1 of one table.
- Interrupts inside one list operation of sleep, yield and exit (the links half changed), and those of handlers that do more
  than notify one semaphore.
- What the kernel does after its lists have become unsound, beyond the state they are then in.
- Which mutexes `tss_task_destroy` takes, and how often, is a parameter of exit.
- Lists of 2^32 - 1 nodes and more: the task table is smaller than that.
- `SleepLaw`, `CpuWait` and `Locks` speak of whole calls. They hold of calls interrupted between their list operations by
  `WholeCalls.InterruptedIsWhole`, but a tick between the second list operation and the dispatch is charged to the caller,
  which no order of whole calls does.
- Linked.Dispatch: a null head in a list that is not empty makes no task; the code computes an address from it. A store
  through a null tail reaches no list.
- Unsigned wrap-around of a mutex count, a semaphore counter and of sleep times above 2^32 - 1; pre-decrement of 0 does
  wrap in the model.
- `src/kernel32/task/simple.c`, the same scheduler for another build.
- `tty_fifo_put` and `tty_fifo_get` return early without restoring the interrupt state when full or empty; the model has
  only their effect on the buffer. Reopening a terminal while it is in use, the input buffer, drawing and the parsing of
  escape sequences (their gets and notifies are the ones modelled) are not modelled.
- Progress of terminal writes: one write of more than 512 bytes blocks when nobody drains.
- Tty.Output.Write: the loops run without interruption; interleaving is in the protocol.
- The second arm of the return of the UDP and TCP checksums is dead, because the 32-bit complement is never 0; a UDP
  checksum of 0 is returned as 0. Nothing is claimed about it.
- Stdio.Number: width and precision are unbounded integers, so their own 32-bit wrap-around is not modelled.
- TCP teardown, resets, ports, options and the order of packets in buffers; `tcp_ack` moving a server to CLOSE_WAIT on
  data is modelled, what the peer makes of it later is not.
- FAT, packet buffers, devices, the shell and the system call table.
