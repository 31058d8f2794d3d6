# A verified model of the JOS kernel and its user-level services

JOS (`tps/`) is a small exokernel-style operating system: the kernel keeps physical pages, page
tables, environments and a one-shot IPC; copy-on-write fork, file descriptors, pipes and the file
system are user programs. This project states what the parts of that system promise each other and
proves it with Dafny 4.11. `dafny verify dfyconfig.toml` checks everything.

Code that updates things in place is a class whose methods follow the C functions statement by
statement; each method's contract ties the new state to a function of the old one, and lemmas about
that function carry the properties. What several environments or CPUs do at once is a state machine
whose steps are single system calls, memory accesses or lock operations, with theorems over every
interleaving.

| file | what it models |
|---|---|
| `mmu`, `freelist`, `pagetables`, `kernel` | page allocator, two-level page tables, reference counts, the memory system calls (`kern/pmap.c`, `kern/env.c`, `kern/syscall.c`) |
| `cowfork`, `forkcode` | copy-on-write fork as an interleaving of system calls, and `lib/fork.c` itself |
| `envids`, `envs`, `envruns`, `envtable` | environments, the big lock, scheduling and IPC on several CPUs |
| `words`, `upcall` | the user page-fault upcall: the kernel's push and the pop in `lib/pfentry.S` |
| `stabs` | `stab_binsearch` of `kern/kdebug.c` |
| `usermem` | `user_mem_check` |
| `blockcache`, `filesystem`, `fileserver` | the file server: block cache, allocation, files |
| `directory`, `filecreation` | directory entries, lookup, creation |
| `homes`, `inplace`, `lodging`, `rewriting` | `struct File` where it is, inside the blocks of directories: the operations on it, what keeps such a file system sound, and what a write to a directory does to it |
| `fileruns`, `listing` | whole runs against one byte array per file, directories included; what a directory's bytes show |
| `paths`, `opening`, `pathsondisk` | path names; opening a path after it was created, with the tree given and with the tree read off the disk |
| `formatter`, `mounting` | the offline image builder `fs/fsformat.c`; its image as the file server starts with it |
| `pipering`, `pipecalls` | the pipe's ring buffer, access by access, and the calls that use it |
| `piperefs` | end-of-file detection by reference counts |

## Where the code departs from its comments

The model does what the code does. Where that is not what the comments promise, a lemma gives the
exact condition or an input that shows it.

- `page_lookup` does not test PTE_P. An absent entry of an existing page table reads as physical page
  0; unmapping it lowers page 0's count (`Kernel.PageRemove`, `Kernel.SysPageUnmap`), mapping it
  elsewhere makes the kernel state bad, always (`Kernel.SysPageMap`).
- `pp_ref` has 16 bits: one more reference keeps the counts exact iff the count is below 0xFFFF
  (`RaiseExact`). No caller checks it: with a count of 0xFFFF, mapping the page leaves a good state iff
  the destination maps that very page already (`FullCountExact`, `Kernel.PageInsert`,
  `Kernel.SysPageMap`).
- `sys_env_set_status` and `sys_env_destroy` do not look at what the target is doing. `KeepsInv` of
  `Environments` is an if-and-only-if: exactly the calls `Allowed` excludes break the invariant, and
  `TwoCpusOneEnv` follows such a call from a good state to one environment on two CPUs.
- `sys_ipc_try_send` does not test the receiver's address against UTOP. A page sent to a receiver that
  asked for none is mapped at its address at or above UTOP, in its page directory or in the tables all
  environments share (`SuccessfulSend`; `ReachesOutsideExactly` says when that changes anything).
- The upcall's scratch word is reserved only when the trap-time esp lies inside the exception stack.
  With esp exactly at UXSTACKTOP the return address overwrites the saved esp (`TopOfStackBreaks`).
- `user_mem_check` computes its bounds in 32 bits: it looks at the whole range iff the range, rounded
  up, does not wrap (`LooksAtWholeRange`).
- `file_get_block` tests an unsigned block number for `< 0`. On a full disk it panics in `diskaddr`
  instead of returning -E_NO_DISK (`GetBlockPanics` says exactly when).
- Newly allocated data and directory blocks are not cleared. A grown directory shows whatever names the
  block held (`PhantomsExactly`), and a created file is empty iff its entry's fields were zero
  (`NewFileEmptyExactly`). With the created file counted in, the file system stays sound iff its entry
  was no other file's, had no block pointers and had a size that is not negative
  (`Lodging.CreateExactly`).
- A `struct File` is 256 bytes of a directory's block, and nothing keeps a program from writing to a
  directory or cutting it short. A write leaves the other files' structures as they are iff it puts at
  their size and pointers the bytes that are there already (`WriteLeavesExactly`); it leaves every block
  with one owner iff the structures it spells hold, each once, the pointers of those it spells over, and
  none past a size (`WriteKeepsExactly`). `file_set_size` keeps the file system sound iff it gives up no
  block with a file's structure in it (`SetSizeExactly`). Four bytes written to the root of any formatted
  image with a file break ownership (`RootWriteBreaks`).
- For the same reason a directory's bytes change when one of its files does: after a write to a file,
  its directory reads with the new size in the entry (`EntryShowsSize`).
- When `dir_alloc_file` cannot get a block it has already added one to the directory's size
  (`FileCreation.AllocFrom` keeps the state of the failing call).
- `stab_binsearch` increments the address on a hit and goes on. With an entry of the type in the region,
  the answer is right iff there is no hit, or no entry at the next address in the region left at the
  hit and the address is not 2^32 - 1, but for one coincidence at 2^32 - 2 (`Found`, `RightExactly`,
  `AloneIsRight`, `ConsecutiveGoesWrong`, `TopGoesWrong`). It never reports that none matches
  (`NeverReportsNone`).
- A pipe's reader can be told end of file with bytes unread: a byte written and the end closed between
  the reader's look at the ring and its question (`LostBytes`). A 0 is the true end iff no byte was
  completed since that look, and a read that starts after the close is always right (`EndExactly`,
  `SecondEnd`).
- Pipe positions are ints: after 2^31 + 1 bytes the writer's buffer index is negative
  (`WrapsToBadIndex`).
- `fork`'s loop goes up through the addresses, so it maps a pipe's descriptor page before its data
  page. The ends have more references than the pipe exactly in between (`ForkBreaksBoundExactly`), and a
  reader that compares the counts then finds the pipe closed (`ForkMapsEndFirst`).
- `dup` does not check the new descriptor number. The counts stay in order for a number in the table,
  and for any other, negative ones included, iff its page is not the data page of one of the pipe's
  descriptors (`RefsBound`, `DupPastTheTable`). With one of -32 to -1 the data page takes a descriptor's
  place (`DupBelowTheTable`). `devpipe_write` answers 0 when the readers are gone even if it has
  written bytes (`BrokenExactly`).
- The formatter allocates an indirect block for a file of exactly ten blocks, which needs none, and its
  allocator needs one block left over (`AddAllFits`, `FormatFits`).
- With no files to put on it, the formatter's image has a root of one block that it leaves free: the
  image is well formed iff there is a file (`FormatWellFormed`, `RootUnowned`, `ImageWellFormed`).

## Model

| member | source | states |
|---|---|---|
| `FreeList.PopChain` | tps/kern/pmap.c:377-392 | taking the head of the linked free list leaves the chain of the rest; the head occurs once and nothing else leaves |
| `FreeList.Push` | tps/kern/pmap.c:398-412 | putting an unreferenced page in front keeps the list acyclic, duplicate-free and apart from every referenced or reserved page |
| `FreeList.Conservation` | tps/kern/pmap.c:320-424 | free, in-flight, reserved and counted pages add up to all of physical memory |
| `PageTables.RaiseExact` | tps/kern/pmap.c:564-578 | one more reference keeps every count exact if and only if the 16-bit count is below 0xFFFF |
| `PageTables.FullCountExact` | tps/kern/pmap.c:564-578 | mapping a page whose count is 0xFFFF keeps the invariant if and only if that entry maps that page already |
| `PageTables.LowerExact` | tps/kern/pmap.c:419-424 | giving up a held reference keeps the counts exact, and the count falls to zero exactly if it was one |
| `PageTables.StepLeaf` | tps/kern/pmap.c:564-631 | writing one page-table entry hands the reference over and changes no other mapping of any address space |
| `PageTables.StepNewTable` | tps/kern/pmap.c:448-475 | installing a zeroed page table in an empty slot changes no mapping and keeps every count exact |
| `PageTables.RemovedGood` | tps/kern/pmap.c:618-631 | removing a mapping keeps the counting invariant and clears exactly that entry |
| `PageTables.UnreferencedIff` | tps/kern/pmap.c:419-424 | a page has count zero if and only if no directory, directory entry or user mapping names it |
| `PageTables.CountsDetermined` | tps/kern/pmap.c:378-424 | two good states with the same references count every page alike: history leaves no trace in the counts |
| `PageTables.PageZeroMappedBreaks` | tps/kern/pmap.c:591-601 | no state with page 0 mapped by a user satisfies the invariant |
| `PageTables.InsertIsUpdate` | tps/kern/pmap.c:564-578 | seen as a finite map, an insert is an update at that page and leaves every other environment's map alone |
| `PageTables.RemoveIsDelete` | tps/kern/pmap.c:618-631 | seen as a finite map, a remove is a deletion and leaves every other environment's map alone |
| `KernelMemory.PageInit` | tps/kern/pmap.c:320-361 | the list holds exactly the pages other than page 0, the AP boot page and the I/O hole with the kernel image; those left out have count one, but for page 0 |
| `KernelMemory.FreeSetDetermined` | tps/kern/env.c:436-483 | two good states with the same references have the same set of free pages: what an environment took comes back when its references go |
| `KernelMemory.Kernel.FreeExactly` | tps/kern/pmap.c:378-424 | a page is on the free list if and only if nothing refers to it |
| `KernelMemory.Kernel.PageAlloc` | tps/kern/pmap.c:377-392 | hands out the head of the list, zeroed on request and with count zero; NULL only when the list is empty |
| `KernelMemory.Kernel.PageFree` | tps/kern/pmap.c:398-412 | puts an unreferenced page in front of the list and keeps the state good |
| `KernelMemory.Kernel.PageDecref` | tps/kern/pmap.c:419-424 | lowers the 16-bit count of one page and lists the page exactly when it was one |
| `KernelMemory.Kernel.PgdirWalk` | tps/kern/pmap.c:448-475 | finds or makes the page table; fails exactly without one when it may not or cannot make one, and then changes nothing |
| `KernelMemory.Kernel.PageLookup` | tps/kern/pmap.c:591-601 | finds an entry whenever the page table exists, also an absent one, which reads as page 0 |
| `KernelMemory.Kernel.PageRemove` | tps/kern/pmap.c:618-631 | clears the entry and lowers the count of the page it names; the state stays good unless that frees page 0 |
| `KernelMemory.Kernel.PutEntry` | tps/kern/pmap.c:564-578 | counts the new page before it releases the old one, so that mapping a page over itself frees nothing |
| `KernelMemory.Kernel.PageInsert` | tps/kern/pmap.c:564-578 | fails exactly when it needs a page table and no page is free, changing nothing; otherwise maps the page; the state stays good if the count is below 0xFFFF, and if it is 0xFFFF exactly when the page is mapped there already |
| `KernelMemory.Kernel.EnvSetupVm` | tps/kern/env.c:164-201 | takes one page for a directory with an empty user part and the self-mapping at UVPT, or changes nothing |
| `KernelMemory.Kernel.EnvFree` | tps/kern/env.c:436-483 | every reference of that environment is gone, all others are as they were, and the counts and the free list stay exact |
| `KernelMemory.Kernel.FreeTable` | tps/kern/env.c:450-473 | one turn of env_free's outer loop empties and drops one page table |
| `KernelMemory.Kernel.AllocInto` | tps/kern/syscall.c:205-219 | a zeroed page is mapped, or it is handed back: then references, counts and free list are as before (a new page table would have stayed) |
| `KernelMemory.Kernel.SysPageAlloc` | tps/kern/syscall.c:186-220 | the error for every input, and the one mapping a success adds |
| `KernelMemory.Kernel.SysPageMap` | tps/kern/syscall.c:238-285 | the error for every input, nothing changed on error, the mapping added on success; the state after is bad if an absent entry was mapped, good if the page's count was below 0xFFFF, and with a count of 0xFFFF good if and only if the destination mapped that page already |
| `KernelMemory.Kernel.SysPageUnmap` | tps/kern/syscall.c:293-309 | the error for every input, the one mapping removed, and when page 0 lands on the free list |
| `KernelMemory.Kernel.UserStore` | tps/kern/pmap.c:448-475 | a user's store through a writable mapping changes no mapping: page tables are never writable by users |
| `CowFork.KeepsInv` | tps/lib/fork.c:14-209 | every step of every environment keeps isolation, sharing and the stages of handler and fork |
| `CowFork.Refines` | tps/lib/fork.c:75-155 | each step changes what environments see exactly as the machine that copies pages at fork does |
| `CowFork.ForkRefinesEagerCopy` | tps/lib/fork.c:14-209 | over every interleaving of reads, writes, faults, mappings, nested forks and exits, copy-on-write is indistinguishable from eager private copies |
| `CowFork.WritableMeansPrivate` | tps/lib/fork.c:88-95 | in every reachable state a page writable in one environment is mapped in no other, but for PTE_SHARE pages and the two calls of one duppage |
| `CowFork.NeverStuck` | tps/lib/fork.c:14-102 | given a free page for data and memory for page tables, no system call of the handler or of fork fails in a reachable state |
| `CowFork.RemarkingNeeded` | tps/lib/fork.c:88-95 | a run from the start to a state in which leaving out the second mapping call, for an entry that was already COW when duppage read it, shares a writable page |
| `ForkCode.World.PgFault` | tps/lib/fork.c:14-62 | the handler leaves a private writable copy at the faulting page and nothing else; it gives up, changing nothing, unless a mapped COW page was written |
| `ForkCode.World.DupPage` | tps/lib/fork.c:75-102 | the child's and the parent's entry for shared, writable or COW, and read-only pages |
| `ForkCode.World.Fork` | tps/lib/fork.c:172-209 | the child has every page of the parent below UTOP, a fresh exception stack, and becomes runnable; no page's contents change |
| `EnvIds.IdClosedForm` | tps/kern/env.c:226-229 | the k-th id of a slot in closed form, through 32-bit wrap-around |
| `EnvIds.IdShape` | tps/kern/env.c:226-229 | ids are positive 32-bit numbers that encode their slot |
| `EnvIds.IdsRepeatExactly` | tps/kern/env.c:226-229 | two ids of a slot coincide if and only if a multiple of 2^19 - 1 allocations lies between |
| `Environments.KeepsInv` | tps/kern/trap.c:276-335 | a step keeps the invariant of lock, current environments, receivers and free list if and only if it is allowed by the conditions the code does not check |
| `Environments.FirstRunnableSpec` | tps/kern/sched.c:33-47 | the search finds the first RUNNABLE slot going round, or there is none |
| `EnvRuns.OneCpuPerEnv` | tps/kern/sched.c:11-85 | in every reachable state with the lock free, the RUNNING and DYING environments are exactly the current ones, each on one CPU; with the lock taken, exactly its holder is in the kernel |
| `EnvRuns.TwoCpusOneEnv` | tps/kern/syscall.c:107-129 | from a good state, sys_env_set_status of an environment that another CPU runs, when it is next in order, leads in one timer turn to that environment on both CPUs |
| `EnvRuns.StaleIdRejected` | tps/kern/env.c:73-107 | an old id of a slot finds its present occupant if and only if the slot is live and a multiple of 2^19 - 1 allocations lies between |
| `EnvRuns.ExactlyOnce` | tps/kern/syscall.c:350-419 | in every reachable state each environment has had exactly one message for each receive it began, but for the one it is blocked in, and its fields hold the last one |
| `EnvRuns.NeverOverwritten` | tps/kern/syscall.c:350-419 | a delivered message stays until the receiver calls again |
| `EnvRuns.FailedSend` | tps/kern/syscall.c:350-391 | a failing send changes no environment and no mapping |
| `EnvRuns.SuccessfulSend` | tps/kern/syscall.c:350-391 | a send touches only the receiver, and the receiver's tables, its directory and the shared tables are as before but for the sent page at the receiver's address, wherever that is |
| `EnvRuns.ReachesOutsideExactly` | tps/kern/syscall.c:362-383 | a send changes tables outside the receiver's user part if and only if it sends a page, the receiver's address is at or above UTOP and the entry is not there yet |
| `EnvRuns.Nearer` | tps/kern/sched.c:33-47 | a choice that passes a waiting environment over brings it strictly nearer |
| `EnvRuns.BoundedWait` | tps/kern/sched.c:33-47 | in any run, a CPU passes a RUNNABLE environment over fewer than NENV - 1 times while its curenv is not RUNNABLE |
| `EnvRuns.StartsOver` | tps/kern/sched.c:28-47 | without that condition it need not: with no curenv the search starts at slot 0, and a RUNNABLE curenv is chosen again |
| `EnvTable.Machine.constructor` | tps/kern/env.c:115-131 | all slots free, id 0, slot 0 first on the list |
| `EnvTable.Machine.EnvidToEnv` | tps/kern/env.c:73-107 | the answer for every id, and that with checkperm it is the caller or a child |
| `EnvTable.Machine.EnvAlloc` | tps/kern/env.c:211-274 | takes the head of the free list with the next id, or changes nothing |
| `EnvTable.Machine.EnvDestroy` | tps/kern/env.c:490-507 | an environment running elsewhere becomes DYING, any other is freed |
| `EnvTable.Machine.SysExofork` | tps/kern/syscall.c:78-98 | the new id, and a NOT_RUNNABLE child |
| `EnvTable.Machine.SysEnvSetStatus` | tps/kern/syscall.c:107-129 | the error for every input and the new status |
| `EnvTable.Machine.SendPage` | tps/kern/syscall.c:362-383 | which page is mapped, or the error with nothing changed |
| `EnvTable.Machine.SysIpcTrySend` | tps/kern/syscall.c:350-391 | the result for every input, nothing changed on error, all fields delivered on success |
| `EnvTable.Machine.SysIpcRecv` | tps/kern/syscall.c:404-419 | refused exactly for an unaligned address below UTOP; otherwise the caller blocks |
| `EnvTable.Machine.Run` | tps/kern/env.c:540-573 | the environment becomes RUNNING on this CPU, the one before RUNNABLE if it was RUNNING, and the lock is released |
| `EnvTable.Machine.Search` | tps/kern/sched.c:33-42 | the scanning loop finds the first RUNNABLE slot after the current one |
| `EnvTable.Machine.Yield` | tps/kern/sched.c:11-51 | what the CPU does next in each case, halting included |
| `EnvTable.Machine.SchedHalt` | tps/kern/sched.c:56-98 | releases the lock and halts without a curenv, or enters the monitor when no environment is left |
| `EnvTable.Machine.TrapReturn` | tps/kern/trap.c:330-334 | goes back to a RUNNING curenv, else schedules |
| `EnvTable.Machine.TryAcquire` | tps/kern/spinlock.c:60-79 | the exchange succeeds exactly when the lock was free |
| `Words.JoinBytes` | tps/inc/trap.h:77-87 | a word taken apart into bytes and put together again is the same word |
| `Upcall.StoresLoad` | tps/kern/trap.c:405-410 | each word of the pushed frame can be read back |
| `Upcall.InstrStage` | tps/lib/pfentry.S:68-93 | each of the eleven instructions takes the pop to its next stage |
| `Upcall.EpisodeTransparent` | tps/kern/trap.c:386-418 | fault, handler and pop, with faults nested in any of them to any depth, restore registers, eip, eflags and esp of the fault and keep all guarded memory |
| `Upcall.ScriptKeeps` | tps/lib/pfentry.S:34-93 | whatever an environment runs within the rules keeps the memory in use, and its faults alone change no register |
| `Upcall.PopTransparent` | tps/lib/pfentry.S:68-93 | the pop restores everything even if every one of its instructions faults |
| `Upcall.PopFlagsKeeps` | tps/lib/pfentry.S:84-85 | popfl in user mode leaves the privileged flags alone |
| `Upcall.TopOfStackBreaks` | tps/kern/trap.c:389-403 | with esp at the very top of the exception stack the upcall returns with a wrong esp |
| `Upcall.PlainEpisodes` | tps/kern/trap.c:386-418 | any fault that fits, with a handler that does nothing, meets the conditions and is undone |
| `Upcall.Processor.FillFrame` | tps/kern/trap.c:405-410 | the assignments, in the kernel's order, write exactly the thirteen words |
| `Upcall.Processor.Handle` | tps/kern/trap.c:338-426 | when the upcall starts and with which machine, when the environment is destroyed, and when the kernel itself faults |
| `Upcall.Processor.Return` | tps/lib/pfentry.S:68-93 | the instruction sequence does the eleven steps |
| `Stabs.Halve` | tps/kern/kdebug.c:66-93 | on any entries, sorted or not, the halving loop ends, as the function that describes it does |
| `Stabs.TurnShrinks` | tps/kern/kdebug.c:66-93 | a turn shrinks the region or hits at its left end, where the next turn does not hit: the measure for termination |
| `Stabs.BinarySearch` | tps/kern/kdebug.c:59-106 | on any entries the loops give the answer of the specification; in a sorted region without an entry of the type it is empty, with one it is right if and only if `Found` holds |
| `Stabs.AnswerBrackets` | tps/kern/kdebug.c:59-106 | the answer brackets an address reached from the given one through entries at consecutive addresses, or stops just before an entry at 2^32 - 1 |
| `Stabs.HitIffThere` | tps/kern/kdebug.c:66-93 | the search hits if and only if the region has an entry at the address it looks for |
| `Stabs.RightIsUnique` | tps/kern/kdebug.c:23-58 | only one answer is right |
| `Stabs.RightExactly` | tps/kern/kdebug.c:23-106 | the answer is right if and only if there is no hit, or the region left at the hit has no entry at the next address and the address is not 2^32 - 1; or the next address is 2^32 - 1 and the entry just before the one hit is at the address asked for |
| `Stabs.AloneIsRight` | tps/kern/kdebug.c:23-58 | in particular it is right if no entry is at the address or none at the next one |
| `Stabs.NeverReportsNone` | tps/kern/kdebug.c:36-42 | once the region has an entry of the type the search never answers left > right, not even for an address below them all, where the answer holds no entry of the type |
| `Stabs.ConsecutiveGoesWrong` | tps/kern/kdebug.c:86-91 | two entries at consecutive addresses give a wrong answer |
| `Stabs.TopGoesWrong` | tps/kern/kdebug.c:86-91 | an entry at the last address gives a wrong answer |
| `UserMem.UserMemCheck` | tps/kern/pmap.c:710-734 | succeeds if and only if every page it looks at may be used; otherwise reports the first bad address |
| `UserMem.LooksAtWholeRange` | tps/kern/pmap.c:710-734 | it looks at exactly the pages of the range if and only if the rounded range does not wrap |
| `BlockCache.FaultKeeps` | tps/fs/bc.c:29-75 | faulting a block in changes no block's contents and leaves the page clean |
| `BlockCache.FlushKeeps` | tps/fs/bc.c:84-106 | flushing, at any address within the block, writes that block and no other, and leaves it clean with its contents |
| `BlockCache.SyncKeeps` | tps/fs/fs.c:513-519 | syncing changes no contents and brings every block in its range to the disk |
| `BlockCache.DropKeeps` | tps/fs/bc.c:84-106 | a cached page may be lost without loss if and only if it is clean or equal to the disk |
| `BlockCache.DoRefines` | tps/fs/bc.c:29-106 | each operation acts on the contents as on a plain disk |
| `BlockCache.RunRefines` | tps/fs/bc.c:29-106 | over every run the cache is indistinguishable from the plain disk |
| `BlockCache.SyncIsDurable` | tps/fs/fs.c:513-519 | after a sync, a cold start sees every block but block 0 as it was |
| `BlockCache.SelfMapClears` | tps/fs/bc.c:98-105 | mapping the page onto itself is what clears the dirty bit |
| `BlockCache.Server.BcPgfault` | tps/fs/bc.c:29-75 | succeeds exactly for an address of an existing block in use |
| `BlockCache.Server.Flush` | tps/fs/bc.c:84-106 | does the flush, and panics exactly outside the disk's region |
| `BlockCache.Server.FsSync` | tps/fs/fs.c:513-519 | afterwards disk and contents agree from block 1 on |
| `FileSystem.SetPtrIsUpdate` | tps/fs/fs.c:142-188 | writing a slot changes that slot of that file only, direct or indirect |
| `FileSystem.GetBlockKeeps` | tps/fs/fs.c:198-218 | gives the slot's block, or a block that was free and is now owned by that slot; ownership stays exact and nothing else changes |
| `FileSystem.GetBlockPanics` | tps/fs/fs.c:198-218 | exactly when it panics on a full disk and when it returns an error |
| `FileSystem.ReadCorrect` | tps/fs/fs.c:382-404 | gives the bytes the file has, as far as the file goes, and changes no byte of any file |
| `FileSystem.WriteCorrect` | tps/fs/fs.c:411-433 | extends the file if needed, puts the bytes in place across block boundaries, and leaves every other byte of every file alone |
| `FileSystem.TruncateKeeps` | tps/fs/fs.c:461-477 | frees exactly the slots past the new size, and the indirect block if and only if at most ten blocks remain |
| `FileSystem.SetSizeKeeps` | tps/fs/fs.c:480-488 | keeps ownership, marks free exactly the blocks given up, and keeps every byte below the new size |
| `FileSystem.AddedExactly` | tps/fs/fs.c:351-369 | one more file keeps ownership exact if and only if it has no block pointers |
| `FileSystem.OwnershipMeans` | tps/fs/fs.c:60-77 | no two pointers of any files lead to the same block, pointers are in range and marked in use, and every block in use has a pointer or is reserved |
| `FileServer.Server.AllocBlock` | tps/fs/fs.c:60-77 | takes the first free block |
| `FileServer.Server.FileBlockWalk` | tps/fs/fs.c:142-188 | finds the slot, allocating a cleared indirect block if asked, with the error for every input |
| `FileServer.Server.FileGetBlock` | tps/fs/fs.c:198-218 | the block, error or panic, and the state after it |
| `FileServer.Server.FileRead` | tps/fs/fs.c:382-404 | the loop reads what the block-by-block specification says |
| `FileServer.Server.FileWrite` | tps/fs/fs.c:411-433 | the loop writes what the block-by-block specification says |
| `FileServer.Server.FileFreeBlock` | tps/fs/fs.c:437-450 | frees a slot's block, or does nothing for an empty slot |
| `FileServer.Server.FileTruncateBlocks` | tps/fs/fs.c:461-477 | the loop and the indirect block |
| `FileServer.Server.FileSetSize` | tps/fs/fs.c:480-488 | truncates when the file shrinks and sets the size |
| `Directory.FileReadsBack` | tps/inc/fs.h:22-44 | an entry's size and block pointers survive being laid out as bytes |
| `Directory.NameReadsBack` | tps/inc/fs.h:22-44 | the bytes of an entry match its own name and no other |
| `Directory.LookupFinds` | tps/fs/fs.c:224-248 | the answer is the first entry with the name, or not-found when there is none; the file system is as it was |
| `Directory.LookupIsFirst` | tps/fs/fs.c:224-248 | if some entry is the first with the name, it is the answer |
| `Directory.FormatFits` | tps/fs/fsformat.c:81-243 | formatting succeeds if and only if there are at most 128 files and a block is left over |
| `Directory.ImageWellFormed` | tps/fs/fsformat.c:218-243 | the image of the named files is well formed if and only if there is a file |
| `Directory.OpenAndRead` | tps/fs/fsformat.c:158-209 | looking a file up by name in the formatted image finds its entry, the entry holds the file's blocks, and reading gives back its bytes at every offset |
| `Directory.NoOtherNames` | tps/fs/fsformat.c:158-178 | no other name is found in the image, also when it has no files |
| `FileCreation.AllocFinds` | tps/fs/fs.c:252-278 | the answer is an unused entry, or the directory grows exactly when all are in use |
| `FileCreation.NewBlockUnzeroed` | tps/fs/fs.c:198-218 | a newly allocated block keeps what it held |
| `FileCreation.CreateEffect` | tps/fs/fs.c:351-369 | one entry that was not in use gets the name; every other entry and every file's ownership stays as it was |
| `FileCreation.CreateKeeps` | tps/fs/fs.c:351-369 | whatever the directory, creation keeps ownership exact, puts the name's bytes where it says, and changes no other byte of any file, also when it fails |
| `FileCreation.CreateThenLookup` | tps/fs/fs.c:351-377 | a name that was absent is then found where it was put |
| `FileCreation.OthersKept` | tps/fs/fs.c:351-377 | every other name is still found, with the same file |
| `FileCreation.PhantomsExactly` | tps/fs/fs.c:269-277 | a name never created appears if and only if the directory grew by a block that happened to hold it |
| `FileCreation.NewFileEmptyExactly` | tps/fs/fs.c:351-369 | the created file is empty if and only if its entry's fields were zero |
| `FileCreation.DirLookup` | tps/fs/fs.c:224-248 | the two loops give the answer of the specification |
| `FileCreation.DirAllocFile` | tps/fs/fs.c:252-278 | the two loops and the growth give the entry of the specification |
| `FileCreation.FileCreate` | tps/fs/fs.c:351-369 | allocates the entry and copies the name into it |
| `Homes.FieldsReadBack` | tps/inc/fs.h:22-44 | a size, negative ones included, and pointers put into an entry's bytes read back as they were |
| `Homes.SameFieldsExactly` | tps/inc/fs.h:22-44 | two blocks hold the same structure in an entry if and only if they have the same bytes at its size and pointers |
| `InPlace.ReadEnds` | tps/fs/fs.c:382-404 | reading through a pointer into a directory's block, which file_get_block writes to, does what reading does with the structures kept apart |
| `InPlace.WriteEnds` | tps/fs/fs.c:411-433 | so does writing, which changes the entry's size and pointers on the way |
| `InPlace.SetSizeTouches` | tps/fs/fs.c:461-488 | so does setting the size |
| `InPlace.CreateEnds` | tps/fs/fs.c:252-278 | so does creation, with the pointer to the entry that dir_alloc_file answers |
| `Lodging.ReadSound` | tps/fs/fs.c:382-404 | a read, which may allocate, keeps the file system sound and every other structure as it is, also when it fails |
| `Lodging.SetSizeExactly` | tps/fs/fs.c:461-488 | setting a size keeps the file system sound if and only if it gives up no block with a file's structure in it |
| `Lodging.WriteSound` | tps/fs/fs.c:411-433 | a write that puts at other structures' sizes and pointers only the bytes that are there keeps the file system sound and every other structure as it is, also when it fails |
| `Lodging.WriteLeavesExactly` | tps/fs/fs.c:411-433 | after a write that succeeds every other structure is as it was if and only if the write was such a one |
| `Lodging.CreateSound` | tps/fs/fs.c:252-369 | creation keeps the file system sound and every other structure as it is, also when it fails |
| `Lodging.CreateExactly` | tps/fs/fs.c:351-369 | with the created file counted in, the file system is sound if and only if its entry is no other file's, has no block pointers and a size that is not negative |
| `Rewriting.RewrittenExactly` | tps/fs/fs.c:411-433 | other structures in place of some leave every block with one owner if and only if they hold the same pointers, each once, and none past a size |
| `Rewriting.WriteKeepsExactly` | tps/fs/fs.c:411-433 | after a write that succeeds, to any file or directory, the file system is sound if and only if the structures the data spell hold, each once, the pointers of those they take the place of, and none past a size |
| `FileRuns.CreateAgreement` | tps/fs/fs.c:351-369 | creation acts on the byte array of the directory as writing the name does, and on no other |
| `FileRuns.DoAgrees` | tps/fs/fs.c:351-488 | one operation that is allowed and does not stop the server, whether or not it succeeds, keeps the file system sound and acts on a byte array per file; the directory's array follows the size and pointers of the file |
| `FileRuns.KeepsExactly` | tps/fs/fs.c:351-488 | reads, new sizes and creations keep the file system sound if and only if they are allowed |
| `FileRuns.FilesAreByteArrays` | tps/fs/fs.c:351-488 | over every run of allowed operations on files and directories, with files created on the way, the file system stays sound and reads, of directories too, return the last bytes written and not truncated since |
| `Listing.EntryShowsSize` | tps/fs/fs.c:411-433 | after a write to a file its directory's bytes have the new size in the file's entry |
| `Listing.DirectoryWriteBreaks` | tps/fs/fs.c:411-433 | four bytes written over the first pointer of any entry in use make it lead to the super block: the write succeeds, and ownership is broken |
| `Mounting.ImageSound` | tps/fs/fsformat.c:158-243 | the formatter's image, if it has a file, is a sound file system with the structures in the root's blocks and the super block |
| `Mounting.ImageAgrees` | tps/fs/fsformat.c:158-209 | and agrees with the byte arrays of the files and of the root, so runs may begin with it |
| `Mounting.RootWriteBreaks` | tps/fs/fs.c:411-433 | a write of four bytes at byte 136 of the root of any such image breaks ownership |
| `Paths.WalkPath` | tps/fs/fs.c:295-343 | the loop over the path's characters follows the list of its names |
| `Paths.NamesAreProper` | tps/fs/fs.c:295-343 | the names taken from any path are nonempty and have no slash |
| `Paths.NamesOfSpelling` | tps/fs/fs.c:281-343 | a path spelled with any number of slashes gives its names back |
| `Paths.Skipped` | tps/fs/fs.c:281-287 | what skip_slash skips is slashes |
| `Paths.CreateThenOpen` | tps/fs/fs.c:351-377 | in a directory tree with one more file, the path that was creatable leads to it, and every path that led to a file leads to the same one |
| `Paths.MissingIsAbsent` | tps/fs/fs.c:295-343 | a path is reported creatable only where its last name is absent from an existing directory |
| `Opening.TreeAfter` | tps/fs/fs.c:351-369 | the directory tree of the file system after file_create is the one before with the one name added, in every directory |
| `Opening.CreateThenOpen` | tps/fs/fs.c:351-377 | a path file_create makes then opens to the new file, and every path that led to a file leads to the same one |
| `PathsOnDisk.LookupAfter` | tps/fs/fs.c:224-369 | after file_create, with names, types and structures read off the disk, every name in every directory leads where it led, and the new one to the new file |
| `PathsOnDisk.CreateThenOpen` | tps/fs/fs.c:295-377 | a path that was creatable on the disk then opens to the new file, and every path that led to a file leads to the same one |
| `Formatter.AddFileInv` | tps/fs/fsformat.c:134-209 | putting a file on the image keeps ownership exact, with the blocks below diskpos in use |
| `Formatter.AddAllFits` | tps/fs/fsformat.c:81-89 | the files fit if and only if a block is left over |
| `Formatter.FormatWellFormed` | tps/fs/fsformat.c:218-243 | the image is a well-formed file system if and only if its root has an entry; either way its bitmap marks exactly the blocks below diskpos, so it passes check_bitmap |
| `Formatter.RootUnowned` | tps/fs/fsformat.c:134-178 | a root without entries is one block long and its block is left free |
| `Formatter.RoundTrip` | tps/fs/fsformat.c:180-209 | every file on the image reads back as it was, at every offset and length |
| `Formatter.Disk.constructor` | tps/fs/fsformat.c:91-120 | boot, super and bitmap blocks are handed out, the rest is zero |
| `Formatter.Disk.Alloc` | tps/fs/fsformat.c:81-89 | consecutive blocks, refused unless one is left over |
| `Formatter.Disk.FinishFile` | tps/fs/fsformat.c:134-148 | the direct pointers, and the block table from ten blocks on |
| `Formatter.Disk.WriteFile` | tps/fs/fsformat.c:180-209 | lays a file out or panics, as specified |
| `Formatter.Disk.FinishDir` | tps/fs/fsformat.c:169-178 | lays out the root with its length rounded up as the code computes it, or panics |
| `Formatter.Disk.FinishDisk` | tps/fs/fsformat.c:122-132 | the bitmap marks exactly the blocks below diskpos |
| `PipeRing.StepKeeps` | tps/lib/pipe.c:104-172 | each access of reader or writer keeps the ring's invariant, below 2^31 bytes |
| `PipeRing.RunKeeps` | tps/lib/pipe.c:104-172 | no run stops for want of a valid index before 2^31 bytes, and the invariant holds until then |
| `PipeRing.Fifo` | tps/lib/pipe.c:104-172 | under every interleaving, bytes read are a prefix of bytes written, at most 32 behind |
| `PipeRing.ChecksAreExact` | tps/lib/pipe.c:116-156 | the reader passes its check iff a byte is unread, the writer iff there is room |
| `PipeRing.WrapsToBadIndex` | tps/lib/pipe.c:131-136 | 2^31 + 1 bytes, written and read one at a time, bring the writer to a negative buffer index |
| `PipeCalls.EventKeeps` | tps/lib/pipe.c:104-172 | every access of either call, every look at the ring, every question whether the other end is closed and every close keeps the invariant of ring and calls |
| `PipeCalls.EndExactly` | tps/lib/pipe.c:116-126 | over every run, when devpipe_read answers 0 the writer's end is closed, and all bytes were read if and only if none was completed since its last look at the ring; so they were if the end was closed by then |
| `PipeCalls.LostBytes` | tps/lib/pipe.c:118-125 | a run in which a 0 is answered with a byte unread |
| `PipeCalls.SecondEnd` | tps/lib/pipe.c:116-126 | a read that begins with the writer's end closed does not answer 0 before every byte is read |
| `PipeCalls.BrokenExactly` | tps/lib/pipe.c:151-161 | over every run, when devpipe_write answers less than it was given the reader's end is closed, a prefix was written, and the ring is still full if and only if no byte was taken since its last look |
| `PipeCalls.Ring.Read` | tps/lib/pipe.c:116-136 | one access of devpipe_read is one event of the machine |
| `PipeCalls.Ring.Write` | tps/lib/pipe.c:151-168 | one access of devpipe_write is one event of the machine |
| `PipeCalls.Ring.DevpipeRead` | tps/lib/pipe.c:104-137 | with the writer writing and closing between any two accesses, the call is a run of the machine that returns the next bytes in order, fewer only if the ring was empty, none only if the writer's end is closed |
| `PipeCalls.Ring.DevpipeWrite` | tps/lib/pipe.c:139-172 | with the reader reading and closing between any two accesses, the call is a run of the machine that writes its bytes in order, and answers 0 only on a full ring with the reader's end closed |
| `PipeRefs.StepOk` | tps/lib/fd.c:100-201 | every step of close and dup keeps the pipe mapped wherever one of its ends is |
| `PipeRefs.RefsBound` | tps/lib/pipe.c:75-89 | at every step of any number of closes and dups to numbers in the table, the ends have no more references than the pipe |
| `PipeRefs.RefsEqual` | tps/lib/pipe.c:75-89 | between operations, exactly as many |
| `PipeRefs.ComparisonIsSound` | tps/lib/pipe.c:75-89 | equal counts mean the other end is closed; between operations also conversely |
| `PipeRefs.StaysClosed` | tps/lib/fd.c:173-201 | no close or dup brings back an end without references |
| `PipeRefs.HappenSound` | tps/lib/pipe.c:75-89 | on one CPU every event keeps the readings behind a pending answer current or sure to be repeated |
| `PipeRefs.ClosedIsClosed` | tps/lib/pipe.c:75-89 | over every run on one CPU, when _pipeisclosed answers yes the other end has no references |
| `PipeRefs.ReadsApart` | tps/lib/pipe.c:75-89 | without comparing env_runs the two readings can agree although a writer is left |
| `PipeRefs.DupInTable` | tps/lib/fd.c:173-201 | page by page, dup to a number in the table is the two mapping steps of the machine |
| `PipeRefs.ForkBreaksBoundExactly` | tps/lib/fork.c:193-200 | during fork the bound fails if and only if the loop is past the descriptor page of some end and not yet past its data page |
| `PipeRefs.ForkMapsEndFirst` | tps/lib/fork.c:193-200 | just after the loop of fork has passed the first reader's descriptor page, a reader that compares the counts finds the pipe closed although a writer is left |
| `PipeRefs.DupPastTheTable` | tps/lib/fd.c:173-201 | dup of an end to any number outside the table, negative or not, keeps the bound if and only if that page is not the data page of one of the pipe's descriptors; if it is, the last open end on the other side looks closed |
| `PipeRefs.DupBelowTheTable` | tps/lib/fd.c:173-201 | with a number from -32 to -1 the pipe's data page ends up where a descriptor was |
| `PipeRefs.FdTable.Close` | tps/lib/pipe.c:185-190 | descriptor, then data, then descriptor again: every state in between keeps the bound; the descriptor ends unmapped, and the data page of any pipe with it |
| `PipeRefs.FdTable.Dup` | tps/lib/fd.c:173-201 | closes the target, maps data then descriptor, or undoes both; every state in between keeps the bound |

## Left out

- Boot loader, console, keyboard, IDE, LAPIC, PIC, NVRAM, ELF loading (`load_icode`, `region_alloc`), and all assembly but the pop in `lib/pfentry.S`. The disk is an array of blocks; the lock's exchange is one step.
- TLB and cr3: translation always reads the current tables.
- The kernel half of the address space, beyond what `env_setup_vm` copies and maps; the kernel's own references are a multiset that no operation here changes.
- `lib/spawn.c`, `sfork`, `sys_env_set_trapframe`, `file_remove`, redirection: unfinished in the repository. `fs/serv.c` and `lib/file.c` only pass requests on.
- `printf`, strings, argument parsing, the shell and pipe labs, `user/` programs and the `check_*` self tests.
- `dup_or_share` and `fork_v0` are not modelled as code; the reference for fork is a machine that copies pages when they are mapped into the child.
- In `cowfork`, permissions are the W, COW and SHARE bits; a `sys_page_map` between environments outside fork and IPC of pages are not steps of that machine, and an environment makes no mapping calls of its own while it is inside `fork`.
- `fork` is modelled without the child's side (`thisenv`) and without setting the upcall entry, which are no mappings.
- There is no snapshot of the whole parent at one time: the reference machine, like the code, copies each page at one instant of that page's own duppage.
- IPC's library side: `ipc_recv`'s out-parameters and the retry loop of `ipc_send`, which repeats the modelled call until it stops returning -E_IPC_NOT_RECV. A memory shortage while sending a page is a parameter.
- `env_runs` and other counters do not wrap around.
- The upcall: instruction addresses are counted by one per instruction, the resume flag is not modelled, the page below the exception stack is taken to be unmapped, and the handler is any behaviour that keeps its own frame.
- The bitmap is a sequence of booleans rather than of bits in words; `alloc_block` flushes only the bitmap's first block, and flushes within file operations are not modelled (the block cache has its own proof).
- A block is bytes or a table of block numbers, according to what it was last used for; a table reused as data reads as its little-endian bytes.
- File offsets and sizes are not negative and do not overflow 32 bits; bytes never written are unspecified, as in the code.
- FileSystem.ReadCorrect: with the structures kept in a list apart from the blocks; in place it is `InPlace.ReadEnds` and `Lodging.ReadSound`.
- FileSystem.WriteCorrect: with the structures kept apart; in place it is `InPlace.WriteEnds`, `Lodging.WriteSound` and `WriteLeavesExactly`, and what a write to a directory can do is `Rewriting.WriteKeepsExactly`.
- FileSystem.SetSizeKeeps: with the structures kept apart; in place it is `InPlace.SetSizeTouches` and `Lodging.SetSizeExactly`.
- FileCreation.CreateKeeps: with the structures kept apart; in place it is `InPlace.CreateEnds` and `Lodging.CreateSound`.
- The methods of `FileServer.Server`, `FileCreation.DirLookup`, `DirAllocFile` and `FileCreate` work on the structures in a list; the in-place operations are functions on values, tied to them by `InPlace`.
- FileRuns.FilesAreByteArrays: over runs that do not stop the server, keep sizes below 2^31, and in which writes leave other structures' bytes as they are, no new size gives up a block with a structure in it, and no created entry has block pointers; `WriteLeavesExactly`, `KeepsExactly`, `Lodging.CreateExactly` and `RootWriteBreaks` show that this is needed. Which pointers a directory's bytes show is what allocation chose.
- `Paths.WalkPath` takes the directory tree as a function from names to answers, so a lookup that has side effects on the cache is not seen there.
- Paths.CreateThenOpen: the tree after creation is given; `PathsOnDisk.CreateThenOpen` reads both trees off the disk.
- Opening.CreateThenOpen: which files are directories, and which file an entry stands for, are given; in `PathsOnDisk.CreateThenOpen` they are read off the disk.
- PathsOnDisk.CreateThenOpen: directories have all their blocks, no path has a zero byte, and the directory did not grow by a block with names in it (`PhantomsExactly` says when it does). The type of a created file is whatever its entry held, as in the code.
- Formatting writes one root directory, as the program does; host file names, `readn` errors and `nblocks` above 1024, which the program refuses, are the caller's concern.
- PipeRing.RunKeeps: up to 2^31 bytes; `WrapsToBadIndex` shows where the indices fail.
- PipeCalls.EndExactly: the answer of _pipeisclosed is taken to be true when it is yes, which is `PipeRefs.ClosedIsClosed`; `pipe` itself and the descriptors' flags are not part of it.
- PipeRefs.RefsBound: `pipe`, which maps its own two descriptor pages before the data page, and `fork` are not among the steps; `ForkBreaksBoundExactly` is about fork.
- PipeRefs.FdTable.Dup: takes a target within the table; `DupPastTheTable` is about the others.
- PipeRefs.DupPastTheTable: of the pages below and above the descriptors and their data, none is the pipe's beforehand.
- EnvRuns.SuccessfulSend: says where the sent page is mapped; above UTOP the kernel page that was there loses a reference, and reference counts are not part of that model.
- KernelMemory.Kernel.PgdirWalk: for va below UTOP; the kernel's half of the address space is not in that model. The unchecked IPC address that reaches it is in `Environments` and `EnvRuns.SuccessfulSend`.
- KernelMemory.Kernel.PageLookup: for va below UTOP, for the same reason.
- KernelMemory.Kernel.PageRemove: for va below UTOP, for the same reason.
- KernelMemory.Kernel.PutEntry: for va below UTOP, for the same reason.
- KernelMemory.Kernel.PageInsert: for va below UTOP, for the same reason.
- CowFork.NeverStuck: pages for page tables are not counted in the fork machine; `KernelMemory.Kernel.SysPageMap` says when that memory is missing.
- ForkCode.World.Fork: runs in which no system call fails; a failing call makes the code panic. `NeverStuck` says when none does.
- Upcall.Processor.Handle: the page below the exception stack is taken to be unmapped, so an overflow is always noticed.
- Upcall.TopOfStackBreaks: for esp exactly at UXSTACKTOP; one to three bytes above it the pop's own store touches the page at UTOP, which no user may write.
