# A verified model of a small ARMv7 kernel and its file server

The kernel is a port of JOS to an Allwinner A20 board. The model covers four of its cores, from the
words in memory up to whole runs:

- Physical pages and two-level page tables. `Vm` is the meaning: every directory is a map from page
  number to frame and permission, and `pp_ref` must equal the entries, tables and explicit counts
  that hold a frame. `Pmap` is the same on descriptor words, 16-bit counters and the intrusive free
  list of `Queue`; `Mmu` has the address and descriptor arithmetic.
- Environments, scheduler and IPC. `EnvState` is the state machine of the system calls, the page fault
  and the clock tick, starting after `trap_init`; `Kernel` performs the same steps on arrays, linked
  lists and page tables. `Outcome`, `Destroy`, `Ipc`, `Sched` and `Turns` are theorems about it.
- The file server and the image builder. `FsDisk`, `FsFile` and `FsDir` are the routines of fs/fs.c on
  values with what they keep; `FsServer` performs them on arrays. `FsRun`, `FsFlush` and `FsSaved` are
  about runs and about the disk. `FsFormat` and `FsFormatter` are the image builder on values and in place.
- Number formatting: `Print`.

Each class (`Queue.List`, `Pmap.Pmap`, `Kernel.Kernel`, `FsServer.Server`, `FsFormatter.Formatter`) follows
the C code statement by statement, and each of its methods is proved to leave exactly the state, and to
return exactly the result, of a function on values. The theorems are about those functions.

`dafny verify dfyconfig.toml` checks everything (Dafny 4.11).

## Main results

- In every reachable state each count equals the holders of its frame, so that nothing on the free list
  is mapped, a page table or a directory (`EnvState.ReachableIsSafe`). Page tables of the upper half of the
  boot directory are shared by all directories through copied entries and counted once
  (`Pmap.UpperEntriesAgree`, `EnvState.VectorsEverywhere`).
- `env_free` gives back exactly what it should (`Vm.FreeDirConserves`), and all page tables exactly when none
  lies at or above UTOP (`Vm.FreeDirLosesIff`); a page fault there makes the loss real
  (`EnvState.FaultAboveUtopLeaks`).
- `sched_yield` terminates although its iterator may stand on an entry that left the list long ago
  (`Queue.RankDrops`, `EnvState.YieldRuns`). It selects the first listed entry on the chain of links from there
  (`Turns.YieldPicks`), so that an environment that blocks costs nobody a turn (`Turns.BlockPassesTurn`), and over
  any steps that block and wake others a runnable environment waits for a bounded time (`Turns.WaitIsBounded`).
  On a list that does not change it is weighted-fair (`Sched.WeightedFair`, `Sched.Settles`).
- Every system call has exactly the effect, and each of its errors exactly the condition, that its arguments and
  the maps give (`Outcome`); a parent can start the child it forked (`Outcome.ForkThenRun`).
- IPC delivers exactly once and in order (`Ipc.ReceivedIsSent`, `Ipc.SendOutcome`).
- `env_free` unlinks unconditionally. When that is sound is known exactly (`Destroy.DestroyIff`).
- No disk block ever has two owners (`FsRun.NoBlockShared`), with `free_block` as written or repaired; setting
  the bit alone would be no repair (`FsFile.BitAloneBreaksOwn`).
- Every tree that fits is read back from its image byte for byte (`FsFormat.ImageReadBack`); what fits is a sum
  over the tree (`FsFormat.ImageFitsIff`).
- `fs_sync` saves the data of files (`FsRun.SyncedAfterRun`) but a created name only if its block happens to be
  dirty (`FsSaved.CreatedOnDiskIff`).
- A printed number parses back (`Print.FieldRoundTrip`), and value and format leave only one text (`Print.ShowsUnique`).

## Where the code differs from its comments

The model follows the code.

- `free_block` clears the bit that means free (fs/fs.c:219), so blocks are lost. The state has a flag `fix` for
  a repaired variant.
- `alloc_block_num` writes back block `blockno / BIT2BLK`, which is block 0, not the bitmap
  (`FsDisk.AllocationNotOnDisk`).
- `dir_alloc_file` grows the directory before it asks for the block (`FsDir.GrowLeavesHole`), after which a missing
  name may be reported as a full disk (`FsDir.RemoveThenOpenFull`).
- `sys_set_env_status` with ENV_FREE frees nothing (`EnvState.SetStatusIff`).
- `sys_env_alloc` takes the permission it tests from the address instead of the entry (lib/svc.c:294), so the branch
  that copies a page is dead and every frame is shared.
- A send whose source address has no page returns 0 and delivers nothing (`Ipc.FailedSendIsNoop`).
- An id of zero, which `mkenvid` makes for slot 0 every 256th time, is read as the caller (`EnvState.IdFindsSlot`).
- `pageout` and `load_icode_mapper` count a page twice, as a pin and as a mapping.
- `lp_Print` tests the length of a field after writing it (`Print.FieldFitsIff`).
- `make_link_block` stores the number of the next block before an index block may take it (`FsFormat.MakeLinkIff`).

## Model

| member | source | states |
|---|---|---|
| Queue.InsertHeadRepresents | include/queue.h:135-140 | inserting an absent element at the head of a well-formed list gives a well-formed list with that element in front |
| Queue.RemoveRepresents | include/queue.h:148-153 | removing an element through its back link gives the same list without it; the element keeps its own forward link and no entry off the list changes |
| Queue.RemoveNeighbours | include/queue.h:148-153 | the exact words a removal writes: at most the predecessor's forward link or the head, and the successor's back link |
| Queue.StaleRemoveIff | include/queue.h:148-153 | removing an element that is not on the list leaves the list intact exactly when its stale links agree with it |
| Queue.StaleRemoveLosesElement | include/queue.h:135-153 | an input on which a second removal of the same element loses another one |
| Queue.RankDrops | include/queue.h:135-153 | every forward link, live or stale, leads to an entry of lower rank: into the live list, or to one removed later |
| Queue.ReachesNull | include/queue.h:135-153 | following forward links from any entry, on the list or not, reaches NULL |
| Queue.ChainAlwaysEnds | include/queue.h:135-153 | the same after any sequence of insertions and removals from empty |
| Queue.List.constructor | include/queue.h:102-104 | LIST_INIT: the empty list over entries that were never linked |
| Queue.List.First | include/queue.h:87 | LIST_FIRST: the first element, or NULL exactly on the empty list |
| Queue.List.InsertHead | include/queue.h:135-140 | in place: the new contents, and every forward and back link of the pool afterwards |
| Queue.List.Remove | include/queue.h:148-153 | in place: the contents without the element, and every forward and back link of the pool afterwards |
| Mmu.PageNumberSplit | include/mmu.h:14-19 | PDX and PTX together are the page number |
| Mmu.PageNumberJoin | include/mmu.h:14-19 | every pair of table indices is a page number; with PageNumberSplit a bijection |
| Mmu.DescriptorRoundTrip | include/mmu.h:43-51 | a descriptor gives back the frame and the flags it was made of |
| Mmu.TableIsNoSection | mm/pmap.c:320 | what pgdir_walk stores is read as a page table and never as a section of either size |
| Mmu.InitBootPgdir | mm/pmap.c:14-21 | the three loops over the boot directory leave the entry the table of windows gives, everywhere |
| Mmu.BootMapIsPaddr | include/pmap.h:64-86 | on the entries of init_boot_pgdir (mm/pmap.c:14-21), va2pa is PADDR (include/mmu.h:64-70) for every kernel and device address, and every other entry is empty |
| Vm.StructureCounts | mm/pmap.c:33-40 | a directory, a page table and a lost table are counted once, a free frame not at all |
| Vm.Partition | mm/pmap.c:233-275 | free, handed-out and referenced frames partition the frames; a free frame is not mapped, no page table and no directory |
| Vm.AllocKeeps | mm/pmap.c:233-252 | page_alloc keeps the accounting; the frame was counted by nobody and is now the one more handed out |
| Vm.RemoveKeeps | mm/pmap.c:424-453 | page_remove deletes exactly one key; one count drops by one, and the frame is free exactly if that was its last holder |
| Vm.InsertOutcome | mm/pmap.c:346-382 | page_insert fails with -E_INVAL exactly on sections, with -E_NO_MEM exactly when the table is missing and no frame is free, and a failure changes nothing |
| Vm.InsertKeeps | mm/pmap.c:346-382 | a successful page_insert sets exactly one key, adds at most the table that key needs, and moves the counts of the new and of the replaced frame by one, or none when the frame was already there |
| Vm.PinKeeps | lib/env.c:244 | an explicit ++pp_ref keeps the accounting and raises one count |
| Vm.NewDirKeeps | lib/env.c:112-152 | env_setup_vm gives one more directory, mapping nothing of its own, and no count changes but its own |
| Vm.FreeDirConserves | lib/env.c:370-405 | after env_free no mapping or table of the directory is left and no other directory changed; each frame's count dropped by exactly its pages below UTOP; the freed frames are exactly the directory, its tables below UTOP and the frames held only by its pages there |
| Vm.FreeDirLosesIff | lib/env.c:377-394 | all tables of a directory come back from env_free exactly when none lies at or above UTOP; one that does is lost with its count |
| Vm.CopyPagesKeeps | lib/svc.c:286-312 | whatever its outcome, the copy loop has given the child the parent's entries below some page, with the same frames and permissions; on success below all |
| Vm.CopyExact | lib/svc.c:286-312 | after a successful copy the child's pages of each frame are as many as the parent's |
| Pmap.BootVmInv | mm/pmap.c:191-217 | the state page_init leaves satisfies the invariant: everything allocatable is free, and only the frame of the vectors counts one |
| Pmap.UpperEntriesAgree | lib/env.c:135 | above UTOP the words of every directory equal the boot directory's, but for tables that page faults put between UTOP and the sections; an entry with a boot page table is shared by all |
| Pmap.Pmap.constructor | mm/pmap.c:8-21 | boot directory, reference counts and free list in memory, holding page_init's state |
| Pmap.Pmap.PageInit | mm/pmap.c:191-217 | the two loops: counts, and the free list with every fourth frame pushed in ascending order |
| Pmap.Pmap.PageAlloc | mm/pmap.c:233-252 | in memory: -E_NO_MEM and no change on an empty list, else the head, zeroed |
| Pmap.Pmap.PageFree | mm/pmap.c:258-275 | pushes the frame exactly when its count is zero |
| Pmap.Pmap.PageDecref | mm/pmap.c:33-40 | lowers the 16-bit count and frees the frame when it reaches zero |
| Pmap.Pmap.PgdirWalk | mm/pmap.c:293-333 | finds or creates the page table of an address; every outcome with its state |
| Pmap.Pmap.PageLookup | mm/pmap.c:390-420 | the descriptor words give the frame the map says, or NULL |
| Pmap.Pmap.PageRemove | mm/pmap.c:424-453 | words, counts and free list afterwards are those of the map with one key deleted |
| Pmap.Pmap.PageInsert | mm/pmap.c:346-382 | words, counts, free list and result are those of the map with one key set |
| Pmap.Pmap.Va2Pa | include/pmap.h:64-86 | the walk over descriptor words agrees with the map: PADDR on the windows, frame and offset where mapped, all ones elsewhere |
| Pmap.Pmap.SetupVm | lib/env.c:112-152 | zeroes the lower entries, copies the upper ones of the boot directory as words and pins the new directory once |
| Pmap.Pmap.FreeDirectory | lib/env.c:377-400 | env_free's nested loops and the release of the directory, on the words |
| Pmap.Pmap.CopyTables | lib/svc.c:286-312 | the nested copy loops over the tables below ULIM, on the words |
| EnvState.AdvanceProgress | lib/sched.c:13-37 | a turn of the loop that selects nobody lowers the time left or the rank of the static iterator in the chain of forward links |
| EnvState.YieldRuns | lib/sched.c:13-37 | sched_yield terminates on every run list; it runs a member of the list whenever there is one and changes nothing but its own statics and what runs. Which member it is, is Turns.YieldPicks |
| EnvState.SetStatusIff | lib/svc.c:321-364 | of the three accepted statuses only ENV_FREE breaks the tables: the status is stored before the lookup that rejects it |
| EnvState.IdFindsSlot | lib/env.c:51-77 | an id finds its own live environment unless it is zero, which slot 0 gets every 256th time and which means the caller |
| EnvState.IdsUnique | lib/env.c:29-38 | live environments never share an id |
| EnvState.FindLive | lib/env.c:51-77 | what envid2env accepts is live and has a directory of its own |
| EnvState.EnvAllocKeeps | lib/env.c:175-210 | env_alloc moves one slot off the free list with a fresh directory and keeps every invariant |
| EnvState.MemAllocKeeps | lib/svc.c:142-171 | sys_mem_alloc keeps every invariant, for every argument |
| EnvState.MemMapKeeps | lib/svc.c:186-228 | sys_mem_map keeps every invariant, for every argument; what it maps, and each error, is Outcome.MemMapOutcome |
| EnvState.MemUnmapKeeps | lib/svc.c:239-257 | sys_mem_unmap keeps every invariant, for every argument |
| EnvState.ForkKeeps | lib/svc.c:271-319 | sys_env_alloc keeps every invariant, also when the copy fails half way |
| EnvState.RecvKeeps | lib/svc.c:416-428 | sys_ipc_recv keeps every invariant |
| EnvState.SendKeeps | lib/svc.c:447-507 | sys_ipc_can_send keeps every invariant, for every argument |
| EnvState.DestroyKeeps | lib/env.c:370-423 | destroying a runnable environment, the caller included, keeps every invariant |
| EnvState.FaultKeeps | mm/pmap.c:653-680 | a page fault at any address keeps every invariant |
| EnvState.FaultAboveUtopLeaks | mm/pmap.c:653-680 | after a fault at UTOP, env_free loses the page table and leaves the faulted page with two counts |
| EnvState.CreateKeeps | lib/env.c:285-349 | env_create_priority with the loading of the program keeps every invariant |
| EnvState.TrapInitMaps | lib/trap.c:6-11 | trap_init puts exactly one page table and one page, the vectors, into the boot directory |
| EnvState.VectorsEverywhere | lib/trap.c:10 | in every state the vectors are mapped at 0xFFFF0000 of every directory |
| EnvState.InitialKInv | init/init.c:11-26 | the state after page_init, env_init and trap_init satisfies every invariant |
| EnvState.StepKeeps | lib/svc.c:111-507 | every step of the kernel keeps page accounting, both lists, the scheduler's chain and the separation of the address spaces |
| EnvState.ReachableIsSafe | lib/env.c:88-423 | after any run from boot: a free frame is not held, mapped, a table or a directory; frames are partitioned; a slot is on exactly the list of its status, once; and only list members are run |
| EnvState.ForkCopies | lib/svc.c:271-319 | after a successful fork one slot is filled: the caller's id as parent, the result as id, made of slot and counter, NOT_RUNNABLE, the new directory, and every other field as it was; no other slot changed. The child maps exactly the parent's pages, to the same frames with the same permissions; each count rose by the parent's pages of that frame; every other directory is unchanged |
| Turns.NextListedIs | lib/sched.c:18-27 | the first listed entry behind x is the first one met when the forward links are followed step by step, or the head when the chain ends before |
| Turns.YieldPicks | lib/sched.c:13-37 | which environment is selected: the iterator's while it is runnable and has time left, else the first listed entry on the chain of forward links from it, stale or not, or the head if the chain ends first; a new turn starts with env_pri ticks, less the one taken |
| Turns.LeavePassesTurn | lib/sched.c:18-27 | when the iterator's environment leaves the list, the turn passes to the entry that was behind it, whatever time was left |
| Turns.BlockPassesTurn | lib/svc.c:416-428 | so an environment that blocks costs no later member its turn |
| Turns.AnyTurn | lib/svc.c:111-507 | every step, while c waits, brings the turn closer to c or leaves it where it is; a tick shortens it or moves it on |
| Turns.WaitIsBounded | lib/sched.c:13-37 | over any run in which environments block, wake, fork, are created and destroyed, a runnable environment that stays on the list is selected within Wait ticks |
| Turns.WaitAtMost | lib/sched.c:13-37 | Wait is at most 2 * NENV * (greatest priority) plus the time left |
| Turns.RequeueGoesBack | lib/svc.c:321-364 | why a caller may not set its own status to NOT_RUNNABLE and go on: woken before the next selection it takes the turn back to the head |
| Outcome.FindIff | lib/env.c:51-77 | envid2env finds an environment exactly if the id names it, zero naming the caller, and, with checkperm, it is the caller or a child of its own |
| Outcome.MemAllocOutcome | lib/svc.c:142-171 | each error exactly under its condition; a success maps a zeroed page with one holder at va of the target, and nothing else |
| Outcome.MemMapOutcome | lib/svc.c:186-228 | each error exactly under its condition, with no change; a success sets exactly the page of dstva in the target's directory to the frame at srcva of the source with perm and PTE_V |
| Outcome.MemUnmapOutcome | lib/svc.c:239-257 | each error exactly under its condition, with no change; a success removes exactly the page of va in the target's directory |
| Outcome.ForkOutcome | lib/svc.c:271-319 | every result of sys_env_alloc with the slot it fills, also when the copy runs out of frames |
| Outcome.ForkThenRun | lib/svc.c:271-364 | after a successful fork the caller's sys_set_env_status of the child's id returns 0, and the child is runnable, at the head of the run list, exactly when the id is not zero |
| Outcome.SetStatusOutcome | lib/svc.c:321-364 | each error exactly under its condition, with no change; else the named environment alone has the status, and joins or leaves the run list with it |
| Outcome.SendCodes | lib/svc.c:447-507 | -E_IPC_NOT_RECV exactly while the target exists and does not wait, and -E_INVAL exactly under the other conditions |
| Outcome.RecvOutcome | lib/svc.c:416-428 | refused without change at or above UTOP; else the caller waits with just these addresses, off the run list, and a listed environment runs |
| Outcome.DestroyOutcome | lib/env.c:370-423 | of a runnable environment: the slot is free, at the head of the free list, off the run list, its mappings gone, the other slots as before |
| Outcome.FaultOutcome | mm/pmap.c:653-680 | at every address: nothing, or a zeroed page with two counts at exactly the faulting page; without a frame for its table a page that is lost |
| Outcome.LoadOutcome | lib/env.c:230-271 | the pages of the segments in order, until the frames run out, each private, readable and writable; every other page as before |
| Outcome.StackAndSegments | lib/env.c:285-323 | the same with the stack page in front |
| Outcome.CreateOutcome | lib/env.c:335-349 | every field of the new slot, with its priority, at the head of the run list, and exactly these pages in its directory |
| Destroy.DestroyIff | lib/env.c:370-405 | env_free of a live environment leaves a sound kernel exactly when the environment is runnable, or was listed before and its stale links change no live pointer and close no loop |
| Destroy.RelinkForward | lib/env.c:404 | when a stale entry is redirected to something that does not lead back to it, the chain still ends from everywhere |
| Destroy.ListIsForced | lib/env.c:404 | no other order of the runnable environments fits the links left behind |
| Destroy.FreedIsEnvFree | lib/env.c:370-405 | for a runnable environment this env_free is the one of the runs |
| Destroy.ForkThenDestroy | lib/env.c:404 | a child that never was runnable cannot be destroyed: its back link is null |
| Destroy.BlockThenDestroy | lib/env.c:404 | an environment that has just blocked can |
| Ipc.FailedSendIsNoop | lib/svc.c:447-507 | a send that does not take effect changes nothing; it returns 0 exactly when the source address has no page |
| Ipc.SendOutcome | lib/svc.c:447-507 | one effective send: value, sender, permission and status of the receiver, the one mapping, and the two words written through its page table, all of this send; everything else unchanged |
| Ipc.AnyEffect | lib/svc.c:416-507 | what each kind of step does to one environment's side of the rendezvous |
| Ipc.ReceivedIsSent | lib/svc.c:416-507 | over any run in which nobody else wakes or destroys it, what an environment receives is what was effectively sent to it, in order, one message for each receive |
| Sched.PickIsOwner | lib/sched.c:13-37 | the n-th selection is the owner of the n-th slot of the weighted cycle |
| Sched.WeightedFair | lib/sched.c:13-37 | on a stable run list every window of m full rounds, wherever it starts, selects each member exactly m * max(1, env_pri) times |
| Sched.Settles | lib/sched.c:13-37 | from any stale iterator and left-over time the scheduler is in its cycle after at most max(0, ts) + 1 ticks |
| Kernel.BootIsPristine | mm/pmap.c:191-217 | page_init's state is the one the runs start from |
| Kernel.Kernel.constructor | init/init.c:11-26 | env_init and trap_init in memory give the initial state of the runs |
| Kernel.Kernel.EnvInit | lib/env.c:88-101 | the slots pushed last to first: the free list holds all of them in ascending order |
| Kernel.Kernel.EnvId2Env | lib/env.c:51-77 | the slot, or NULL for every kind of bad id, as Outcome.FindIff says |
| Kernel.Kernel.EnvAlloc | lib/env.c:175-210 | in memory, with both error results |
| Kernel.Kernel.MySetEnvStatus | lib/svc.c:321-333 | the two live statuses, on table and list |
| Kernel.Kernel.SysMemAlloc | lib/svc.c:142-171 | table, words and result are those of the transition of Outcome.MemAllocOutcome |
| Kernel.Kernel.SysMemMap | lib/svc.c:186-228 | in memory, the transition of Outcome.MemMapOutcome: the one page of dstva, or the error and no change |
| Kernel.Kernel.SysMemUnmap | lib/svc.c:239-257 | in memory, the transition of Outcome.MemUnmapOutcome with every error result |
| Kernel.Kernel.SysEnvAlloc | lib/svc.c:271-319 | in memory, the fork of EnvState.ForkCopies and Outcome.ForkOutcome: the child's slot with its parent and its pages, and the error results |
| Kernel.Kernel.SysSetEnvStatus | lib/svc.c:348-364 | in memory, Outcome.SetStatusOutcome for the two live statuses, and -E_INVAL for every other number but ENV_FREE |
| Kernel.Kernel.SysIpcRecv | lib/svc.c:416-428 | in memory, the wait of Outcome.RecvOutcome followed by the scheduler of Turns.YieldPicks |
| Kernel.Kernel.SysIpcCanSend | lib/svc.c:447-507 | in memory, the send of Ipc.SendOutcome and Ipc.FailedSendIsNoop with the results of Outcome.SendCodes, the two stores included |
| Kernel.Kernel.SchedYield | lib/sched.c:13-37 | the loop over the linked list with its two statics terminates, in the state of the transition that selects as Turns.YieldPicks says, also from an iterator that has left the list |
| Kernel.Kernel.EnvFree | lib/env.c:370-405 | of an environment on the run list |
| Kernel.Kernel.SysEnvDestroy | lib/svc.c:111-123 | of a runnable environment, itself included, as Outcome.DestroyOutcome says |
| Kernel.Kernel.PageOut | mm/pmap.c:653-680 | in memory, the page fault of Outcome.FaultOutcome |
| Kernel.Kernel.LoadIcode | lib/env.c:285-323 | stack page and program pages of Outcome.StackAndSegments, with the loop that stops at the first failure |
| Kernel.Kernel.EnvCreatePriority | lib/env.c:335-349 | in memory, the environment of Outcome.CreateOutcome |
| Print.FieldRoundTrip | lib/print.c:261-333 | the field of any value, base 2 to 16, sign, width, adjustment and padding parses back to the signed value and has length max(width, digits and sign) |
| Print.FieldInjective | lib/print.c:261-333 | different values never print alike under the same format |
| Print.StringFieldRoundTrip | lib/print.c:237-259 | a string without blanks is read back from its field, whichever side the blanks are on |
| Print.FieldFitsIff | lib/print.c:32-43 | the 80-byte buffer of lp_Print is respected exactly when the width is at most 80; the length is tested only after the field is written |
| Print.PrintNum | lib/print.c:261-333 | in the buffer: digits backwards, padding, reversal in place; just the field is written |
| Print.PrintString | lib/print.c:237-259 | in the buffer: just the padded string is written |
| Print.NumeralUnique | lib/print.c:279-289 | digits of the base in the asked case without a leading zero: each value has just one such numeral |
| Print.FieldShows | lib/print.c:261-333 | position by position: that numeral at the left or the right of its field, the minus sign just before it or in front of the zeros, all else blanks or zeros |
| Print.ShowsUnique | lib/print.c:261-333 | value and format leave no choice of the text |
| Print.PrintConversion | lib/print.c:121-190 | d and D show the signed argument in base 10, the least long included, u and U the unsigned one; o and O show it in base 8, x and X in base 16 with small and with capital letters, b in base 2 |
| FsDisk.GetPut | fs/fs.c:393-430 | a word stored in a block is the word read, and no other word changes |
| FsDisk.MarkEffect | fs/fs.c:194-220 | marking a block changes its bit and no other |
| FsDisk.AllocEffect | fs/fs.c:228-265 | alloc_block returns the least free block from 3 on, zeroed, cached and in use, with no other change from block 3 on; a failure gains nothing and is a full disk or a missing page |
| FsDisk.AllocationNotOnDisk | fs/fs.c:237 | an allocation does not reach the bitmap on the disk, not even with fs_sync |
| FsDisk.LoadKeepsView | fs/fs.c:124-167 | read_block keeps the view of every block and caches the block |
| FsDisk.WriteKeepsView | fs/fs.c:171-187 | write_block keeps the view of every block and puts the block on the disk |
| FsDisk.SyncWritesAll | fs/fs.c:827-836 | after fs_sync nothing cached is dirty, no view changed, every coherent block is on the disk, and the disk has the records of exactly the blocks that were dirty |
| FsFile.WalkEffect | fs/fs.c:393-430 | file_block_walk never panics, allocates at most the indirect block, and fails just out of range or without that block |
| FsFile.MapEffect | fs/fs.c:443-469 | file_map_block adds at most one key to the map of one file, returns what the map then says, and fails exactly where the map has no key |
| FsFile.ClearEffect | fs/fs.c:473-489 | file_clear_block removes one key and nothing else |
| FsFile.ClearedBlockIsFreeIff | fs/fs.c:210-220 | a cleared block can be allocated again exactly when free_block is repaired |
| FsFile.MapThenClearGivesBack | fs/fs.c:443-489 | with the repair, mapping and clearing a block restores the bitmap |
| FsFile.BitAloneBreaksOwn | fs/fs.c:210-265 | setting the bit alone is no repair: the stale page is reused as an indirect block, and its words become block numbers |
| FsFile.TruncateEffect | fs/fs.c:753-777 | file_truncate drops exactly the keys from the new end to the old, and all behind a dropped indirect block; lower keys, other files, other record fields and the contents of all blocks that stay mapped are as before |
| FsFile.StoreEffect | fs/fs.c:498-532 | what is stored in a block of a file is what it then shows, marked dirty; all other blocks show what they showed |
| FsFile.FlushEffect | fs/fs.c:804-823 | file_flush changes no view, pointer or record; every block of a file within its size is then on the disk |
| FsFlush.FlushWrites | fs/fs.c:804-823 | file_flush writes exactly the dirty blocks of the file within its size, with the records in them, and caches at most its indirect block |
| FsFlush.CloseWrites | fs/fs.c:840-848 | file_close writes exactly the dirty blocks of the file and of its parent directory; with free_block as written all data of the file within its size is then on the disk |
| FsFlush.SetSizeEffect | fs/fs.c:781-795 | afterwards the file has the new size; when it shrinks its map is cut as by file_truncate; when it does not, no pointer, view, bit or other record changes, and the dirty blocks of its parent directory are on the disk |
| FsDir.LookupFinds | fs/fs.c:540-571 | dir_lookup answers as the name map of the directory; it fails otherwise only at a missing block |
| FsDir.WalkFinds | fs/fs.c:634-698 | walk_path is a left fold of lookup over the components; *pdir is set on failure exactly when only the last one is missing |
| FsDir.DirAllocEffect | fs/fs.c:577-613 | dir_alloc_file gives the first empty record and loses no name |
| FsDir.CreateEffect | fs/fs.c:718-740 | file_create keeps names unique; on success the path leads to the new record; it says -E_FILE_EXISTS exactly when the path could be opened |
| FsDir.CreateThenOpen | fs/fs.c:706-740 | opening a created path gives the same record |
| FsDir.RemoveEffect | fs/fs.c:852-876 | file_remove empties the record the path leads to and changes no other |
| FsDir.RemoveKeepsComplete | fs/fs.c:852-876 | file_remove leaves no directory with a missing block if there was none |
| FsDir.RemoveThenOpen | fs/fs.c:706-876 | a removed path cannot be opened; if no directory has a missing block the error is -E_NOT_FOUND |
| FsDir.RemoveThenOpenFull | fs/fs.c:540-876 | on a full disk the error is -E_NOT_FOUND exactly when the directory has all its blocks, and else -E_NO_DISK |
| FsDir.RemovedIsNoDisk | fs/fs.c:540-876 | such a disk, with one file that can be removed |
| FsDir.GrowLeavesHole | fs/fs.c:577-613 | how a block comes to be missing: the size grows before the block is asked for |
| FsSaved.CreateUnwritten | fs/fs.c:718-740 | file_create writes no block from 3 on back and marks none dirty |
| FsSaved.CreatedOnDiskIff | fs/fs.c:718-836 | a created record is on the disk after fs_sync exactly when its block was dirty before, or the disk had that very record |
| FsSaved.CreatedThenSyncedIsLost | fs/fs.c:718-836 | after boot or fs_sync, a creation and another fs_sync leave every record on the disk as it was |
| FsRun.StepOwns | fs/fs.c:393-876 | every operation on any live record keeps ownership, with free_block as written and repaired |
| FsRun.NoBlockShared | fs/fs.c:228-489 | after any run no block is referenced from two places, every referenced block is in use, and the next block handed out is the least free one |
| FsRun.StepKeeps | fs/fs.c:393-876 | every operation keeps ownership, unique names and the cache, and frees no block |
| FsRun.RunKeeps | fs/fs.c:393-876 | the same for whole runs |
| FsRun.SyncedAfterRun | fs/fs.c:827-836 | after any run and fs_sync the data of every file is on the disk as the server sees it; of the records, those of the dirty blocks |
| FsRun.ImageRunSafe | fs/fs.c:370-377 | a server booted on the image of any tree that fits is safe through any run |
| FsServer.Server.constructor | fs/fs.c:370-377 | a mounted disk with nothing cached |
| FsServer.Server.BlockIsFree | fs/fs.c:194-206 | the bit of the block |
| FsServer.Server.LoadBlock | fs/fs.c:124-167 | read_block's page, read in once |
| FsServer.Server.WriteBlock | fs/fs.c:171-187 | page and records go to the disk; the block is clean |
| FsServer.Server.MarkBlock | fs/fs.c:210-220 | the one word of the bitmap |
| FsServer.Server.AllocBlockNum | fs/fs.c:228-243 | the scan of the bitmap |
| FsServer.Server.MapBlock | fs/fs.c:70-80 | a zeroed page, or -E_NO_MEM |
| FsServer.Server.AllocBlock | fs/fs.c:247-265 | number and page |
| FsServer.Server.FsSync | fs/fs.c:827-836 | the loop over all blocks |
| FsServer.Server.CheckWriteBlock | fs/fs.c:335-362 | the disk is as before and block 0 caches the super block |
| FsServer.Server.FsInit | fs/fs.c:370-377 | the three cached blocks |
| FsServer.Server.FileBlockWalk | fs/fs.c:393-430 | arrays and result are those FsFile.WalkEffect describes |
| FsServer.Server.FileMapBlock | fs/fs.c:443-469 | arrays and result are those FsFile.MapEffect describes |
| FsServer.Server.FileClearBlock | fs/fs.c:473-489 | arrays and result are those FsFile.ClearEffect describes |
| FsServer.Server.FileGetBlock | fs/fs.c:498-515 | the block of FileMapBlock, its page cached |
| FsServer.Server.FileDirty | fs/fs.c:519-532 | only the flag of the block of that offset is set, after it was got |
| FsServer.Server.FileTruncate | fs/fs.c:753-777 | the loop over the dropped blocks leaves the arrays FsFile.TruncateEffect describes |
| FsServer.Server.FileSetSize | fs/fs.c:781-795 | the arrays FsFlush.SetSizeEffect describes: the new size, a cut map only when it shrinks, the parent directory flushed |
| FsServer.Server.FileFlush | fs/fs.c:804-823 | the loop over the blocks leaves the arrays FsFile.FlushEffect describes |
| FsServer.Server.FileClose | fs/fs.c:840-848 | the arrays FsFlush.CloseWrites describes |
| FsServer.Server.ScanBlocks | fs/fs.c:540-571 | the nested scan shared with dir_alloc_file |
| FsServer.Server.DirLookup | fs/fs.c:540-571 | the nested scan gives the answer FsDir.LookupFinds describes |
| FsServer.Server.DirAllocFile | fs/fs.c:577-613 | the arrays and the slot FsDir.DirAllocEffect describes |
| FsServer.Server.SkipSlashes | fs/fs.c:617-624 | no component is skipped |
| FsServer.Server.WalkPath | fs/fs.c:634-698 | the scan of the path in place is the fold over its components |
| FsServer.Server.FileOpen | fs/fs.c:706-710 | the result of the walk, as FsDir.WalkFinds describes it |
| FsServer.Server.FileCreate | fs/fs.c:718-740 | the arrays and the slot FsDir.CreateEffect describes |
| FsServer.Server.FileRemove | fs/fs.c:852-876 | the arrays FsDir.RemoveEffect describes |
| FsFormat.LinkDataEffect | tools/fsformat.c:180-186 | the read loop puts all of the content, in order, behind the block map of the file |
| FsFormat.CreateFileEffect | tools/fsformat.c:143-160 | create_file opens the next record of a directory without a gap |
| FsFormat.WriteFileEffect | tools/fsformat.c:163-189 | the file is in its directory with name, size and content |
| FsFormat.WriteTree | tools/fsformat.c:198-221 | write_directory stores the whole tree and loses nothing written before |
| FsFormat.BitmapRight | tools/fsformat.c:84-90 | in the mounted image a block is free exactly from nextbno to NBLOCK |
| FsFormat.MountSafe | tools/fsformat.c:93-108 | every built image mounts to a server in order: ownership, names, cache, no missing block |
| FsFormat.ImageFitsIff | tools/fsformat.c:78-221 | the image ends within the disk exactly when the sum of the tree's blocks does, and then takes just these |
| FsFormat.ImageBuilt | tools/fsformat.c:47-221 | the image of every tree that fits mounts in order and stores the tree |
| FsFormat.ImageReadBack | tools/fsformat.c:47-221 | every path of the tree opens on the mounted image, the file has its size, and file_map_block leads to exactly the bytes of its content |
| FsFormat.MakeLinkIff | tools/fsformat.c:128-132 | a link made by make_link_block is right exactly when no index block is made for it |
| FsFormatter.Formatter.constructor | tools/fsformat.c:47-75 | the empty disk with its bitmap and root record |
| FsFormatter.Formatter.NextBlock | tools/fsformat.c:78-81 | the next block is taken |
| FsFormatter.Formatter.FlushBitmap | tools/fsformat.c:84-90 | the loop over the blocks taken |
| FsFormatter.Formatter.SaveBlockLink | tools/fsformat.c:111-125 | direct slot, or entry of an index block that may be taken now |
| FsFormatter.Formatter.MakeLinkBlock | tools/fsformat.c:128-132 | the link, the grown size and the taken block, in the order of the code |
| FsFormatter.Formatter.CreateFile | tools/fsformat.c:143-160 | the slot FsFormat.CreateFileEffect describes |
| FsFormatter.Formatter.WriteFile | tools/fsformat.c:163-189 | record and read loop leave the file FsFormat.WriteFileEffect describes |
| FsFormatter.Formatter.WriteDirectory | tools/fsformat.c:198-221 | the loop over the entries, recursively, leaves the tree FsFormat.WriteTree describes |

## Left out

- Registers, trap frames, context switches, exception entry, TLB and cache maintenance, interrupt controller, timer and
  serial port; `env_run` is the environment it selects. An idle kernel stays in its last state.
- `sys_dev_read`, `sys_dev_write`, `sys_va_perm`, `sys_va_ref`, `sys_putc`, `sys_getc`, `sys_set_trapframe` and `sys_panic`.
- Everything under user/, the request loop of fs/serv.c and the IDE driver; the disk is an array of blocks.
- The self tests `page_check`, `physical_memory_manage_check`, `env_check` and `fs_test`.
- The early allocator of mm/pmap.c and the detection of memory: the number of frames, the first free frame and the boot
  directory's frame are parameters of the boot state.
- What the frames taken at boot hold (the kernel, the page array, the exception vectors): the model knows only their
  counts and, of the boot directory, its entries.
- Program bytes: loading is the sequence of page addresses, below UTOP, that the ELF loader asks for. Its unsigned results are
  not looked at by the code, and neither here.
- Panics of the kernel: a failed page_alloc in env_setup_vm is -E_NO_MEM, and the panics of pageout are steps that do nothing.
- Panics of the file server: `FsServer` methods require what excludes them, and ownership proves it of the others.
- The kernel's answers to the file server's page requests are a parameter. read_block always gets its page.
- Permissions are the twelve low bits of an entry; a caller's larger value is not modelled.
- EnvState.Legal: steps in which a 16-bit counter would overflow are not taken; neither are a status of ENV_FREE (see
  `EnvState.SetStatusIff`), the destruction of an environment that is not runnable (see `Destroy.DestroyIff`), and a send to a
  receiver with a mapped unaligned result address, where the alignment check set in boot/start.S:78-81 makes the kernel panic.
- EnvState.CreateKeeps: at boot a free slot and two free frames are required, since the code does not look at the errors.
- Sched.WeightedFair: for a run list that does not change meanwhile; priorities are read as signed words.
- Turns.WaitIsBounded: the running environment does not set its own status to NOT_RUNNABLE, which only sys_ipc_recv does together
  with giving up its turn; `Turns.RequeueGoesBack` is what happens otherwise.
- Outcome.DestroyOutcome: for a runnable environment; the others are `Destroy.DestroyIff`.
- File records are kept as records, not as the bytes of their blocks: a `File` is never read from or written to arbitrary data.
  So data is never stored into a directory's block in a run, and a directory's bytes are not compared, its records are.
- FsRun.StepKeeps: the results about names and about the cache are for `free_block` as written, and for runs that read a
  directory only within its size and do not resize it; `FsRun.StepOwns` needs neither.
- FsFile.FlushEffect: for a directory only that views and records stay; its records on the disk are those of its dirty blocks, see
  `FsFlush.FlushWrites`.
- FsDir.RemoveThenOpen: with a missing block and room on the disk the error depends on the pages still granted.
- FsFormat.ImageReadBack: trees with non-empty, distinct names under 128 characters, at most 160 entries in a directory and
  files of at most 1024 blocks; create_file reads only direct slots of a directory, and the block types are not modelled.
- Print.PrintConversion: the value is the 32-bit argument; format scanning, `%c` and the fatal loop are not modelled.
- Paths and names are character sequences up to their terminating NUL.
