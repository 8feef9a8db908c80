# A verified model of the JOS kernel's memory, process and trap code

JOS is a small multiprocessor kernel with user-level libraries for fork and IPC. This project
models its page allocator and page tables, environments and system calls, the big kernel lock
and scheduler, user-level page faults, copy-on-write fork and IPC, and three self-contained
algorithms of its libraries, and proves what they are for. `dafny verify dfyconfig.toml` checks
everything.

## How the model is laid out

**Memory.** `PageState` is physical memory as a value: `free` is page_free_list in list order,
`refs` the 16-bit pp_ref fields, `words` the contents of every page, and `role` a bookkeeping tag
(free, reserved, just allocated, directory, table of one slot, data) that the kernel does not
store. `PageInv` states the invariant `Inv` that ties the free list, every count and every
page-table word together, and reads the two-level tables as a flat map `At` from (directory,
page) to (frame, permissions). `AddressSpace` adds env_setup_vm and env_free. `PhysMem` holds the
same operations on arrays changed in place, with an intrusive list of pp_link fields (`FreeList`),
each method tied to its function on values. `Boot` covers page_init and boot_map_region, and
`InsertLimits` says exactly where page_insert stops counting correctly. `Mmu` is the processor's own
walk of the tables, with the rights of both levels, and what a program reads through uvpt and uvpd.

**Environments.** `Envs` is envs[], env_free_list and environment ids, with the kernel invariant
`KInv`; `Syscalls` the system calls; `Sched` the scheduler. `KernelObject` is the in-place form of
all three, over `PhysMem`. `Replies` says of each call what it returns, test by test, and what it
stores, field by field.

**Processors.** `KernelEntry` is one stay in the kernel, from the lock taken in trap() to the lock
given back in env_run or sched_halt, and `StayOutcomes` how each kind of stay ends: who runs next, and
what has become of the environment that trapped. `Smp` interleaves any number of CPUs one instruction of
spin_lock and spin_unlock at a time; the work between the two is one step, which the lock theorem
justifies. `Ipc` follows messages, `Resume` saved registers and `Ids` environment ids through whole
runs of that machine; `Fairness` bounds how long an environment that wants to run can be passed over.
`PowerOn` builds a machine that such a run can start from. `Runs` puts runs together stay by stay, and
`OutsideDomain` builds runs that come to a call outside the domain below.

**User memory.** `UserMemory` says what environments read and defines private memories, one copy
of every page per environment. `CowFork` and `Fork` show that duppage, pgfault and fork over shared
frames cannot be told from private memories; `CowState` and `CowRun` show it for whole runs in which
the system calls of different environments, those inside duppage and pgfault included, come in any
order. `DumbFork` does the same for the eager fork and compares the two, run from one parent.

**Page faults.** `Fault` is a byte-addressed machine with the kernel's frame push and the fifteen
instructions of _pgfault_upcall. A fault is a tree: the run of the C handler and, before each
instruction of the upcall, the faults that instruction takes, each a tree of its own.

**Algorithms.** `Stab` (stab_binsearch, against a recursive search and plain binary search),
`Memmove`, `Numbers` (printnum, vprintfmt's integers, strtol).

## Where the code keeps its promises

The properties hold on the domain below; each condition is a `requires`, and where the code
leaves the domain the project says so exactly.

- *Counts have 16 bits and permission bits share a word with the frame.* page_insert keeps counts
  exact if and only if no permission bit from 12 up changes the frame number and the count is below
  65535 or the page is already at that address (`InsertLimits.InsertKeepsIff`). sys_ipc_try_send
  is the caller that does not check the bits: `InsertLimits.SendKeepsIff` is its condition, and
  `OutsideDomain.StraySendExists` a run that comes to a send without it. The system calls ask this
  of the one page they map (`Syscalls.CountsGuard`), and of nothing when no page is mapped.
- *sys_ipc_try_send reads `*pte` before it knows that page_lookup has set `pte`.* The read is wild if and
  only if the target is receiving and the page to send is an aligned user page that is not mapped
  (`Syscalls.WildReadIff`). C gives such a call no meaning, and neither does the model:
  `Syscalls.SendDefined` is a condition of the call and of every run. `OutsideDomain.WildReadExists`
  is a run that comes to one.
- *sys_env_set_status does not look at its target's status, and env_destroy frees a target that is
  already DYING on another CPU.* `KernelEntry.CallGuard` is the missing test;
  `KernelEntry.CallGuardIsExact` proves that the scheduler's bookkeeping survives a call if and
  only if it passes, and `OutsideDomain.UnguardedCallsExist` builds runs that come to a call that
  does not.
- *The kernel takes esp at the very bottom of the exception stack for an ordinary stack pointer.*
  `Fault.PushKeepsStackIffNotAtBottom` is the if and only if.
- *stab_binsearch bumps the address after an exact match.* `Stab.SearchSucceedsIff` says exactly
  when it still brackets the address: when plain binary search finds no match, or no entry for
  addr + 1 is left in the range it had at the first match, or, with addr + 1 the last address of all,
  the entry before that second match is one for addr. `Stab.ClashMisleads` and
  `Stab.ClashMayBeHarmless` are inputs of both kinds.
- *vprintfmt prints the sign, or 0x, before the padding.* `Numbers.SignedReadsBack` and
  `Numbers.PointerReadsBack` say exactly when strtol still reads the number back.
- *duppage asks for write access to a PTE_SHARE page and ignores a refusal.* `CowFork.DupPageShares`: the
  child gets the page if and only if the parent can write it and a table, if one is needed, can be had.
- *user_mem_check rounds its end up in 32 bits.* `PhysMem.RangeIsTested` says exactly when every
  byte of the range is looked at, `PhysMem.CheckIsExact` when a result of 0 means that every byte
  may be used.
- *Copy-on-write* assumes no PTE_SHARE pages, no sharing by explicit sys_page_map or IPC of pages,
  no write by the parent between the two maps of one duppage, and no system call on the pages of
  another environment while that is inside duppage or pgfault. Before every step of a run each page's
  count is two below its limit; at a fork, its count and the parent's own mappings of it stay below
  65534 together (`Fork.ForkRoom`). A call that fails for want of memory leaves the run where it was;
  `CowFork.DupPageFails` and `CowFork.PgFaultFails` say when the library panics over it.

Where code and comments disagree the model follows the code: sys_page_alloc returns -E_INVAL, not
-E_NO_MEM, when no page is free; sys_page_map returns -E_INVAL when a table cannot be allocated;
sys_ipc_try_send does not simply return -E_INVAL for an unmapped page; user_mem_check tests `perm`
and not `perm | PTE_P`; '-' as a padding flag of a number prints minus signs on the left;
stab_binsearch does not leave left > right when entries exist but all lie above the address.

## Model

| member | source | states |
|---|---|---|
| PhysMem.PhysicalMemory.constructor | kern/pmap.c:297-345 | page_init links exactly the pages not in use, highest first, and the result is the boot state that `Boot.BootMemOk` shows to satisfy the page invariant |
| Boot.BootMemOk | kern/pmap.c:324-343 | after page_init the whole invariant holds and a page is on the free list if and only if it is neither page 0, in the IO hole or kernel, nor the AP boot page |
| PhysMem.PhysicalMemory.PageAlloc | kern/pmap.c:359-370 | the in-place pop keeps pp_link a chain of the free list and returns its head, zeroed if asked, or null |
| PhysMem.PhysicalMemory.PageFree | kern/pmap.c:376-387 | the in-place push; the two assertions hold for an unreferenced page off the list |
| PhysMem.PhysicalMemory.PageDecref | kern/pmap.c:393-398 | one reference less, modulo 65536, and the page freed when none is left |
| PhysMem.PhysicalMemory.PgdirWalk | kern/pmap.c:422-444 | finds or installs a table exactly as the value-level walk does |
| PhysMem.PhysicalMemory.PageInsert | kern/pmap.c:496-511 | the in-place insertion and its result code, tied to the value-level one |
| PhysMem.PhysicalMemory.PageLookup | kern/pmap.c:524-537 | returns the mapped frame and its table and changes nothing |
| PhysMem.PhysicalMemory.PageRemove | kern/pmap.c:553-563 | the in-place removal, tied to the value-level one |
| PhysMem.InvRemoveOk | kern/pmap.c:376-387 | under the invariant no panic of pa2page, KADDR or page_free can happen in page_remove |
| PhysMem.InvInsertOk | kern/pmap.c:496-511 | nor in page_insert, even halfway, with the new reference taken and the old entry still there |
| PageInv.PageAllocKeeps | kern/pmap.c:359-370 | page_alloc keeps the invariant, fails exactly when the list is empty, and changes no translation |
| PageInv.PageFreeKeeps | kern/pmap.c:376-387 | page_free keeps the invariant and changes no translation |
| PageInv.PgdirWalkKeeps | kern/pmap.c:422-444 | the walk keeps the invariant and every translation of every directory, even when it takes a table page; it fails exactly when it may not create or no page is free |
| PageInv.PageRemoveKeeps | kern/pmap.c:553-563 | page_remove deletes one key of the flat map, drops one reference, frees the page exactly when that was the last, and keeps the invariant |
| PageInv.PageInsertKeeps | kern/pmap.c:496-511 | page_insert sets exactly one key of one directory, preserves every other translation in every directory, keeps all counts exact, and on failure changes nothing |
| PageInv.ReinsertKeepsCount | kern/pmap.c:484-487 | re-inserting a page at its own address leaves its count and the free list alone and never frees it |
| InsertLimits.InsertKeepsIff | kern/pmap.c:496-511 | page_insert keeps the invariant if and only if no permission bit changes the frame number and the count has room or is not needed |
| InsertLimits.StrayPermissionBits | kern/syscall.c:346-360 | a permission word with bit 13 set makes an entry name page 3 when page 1 was sent |
| InsertLimits.StoredWord | kern/pmap.c:508 | the word stored, bit by bit: the flags asked for and PTE_P, and a frame number in which the page number and the permission bits from 12 up run together |
| InsertLimits.SendKeepsIff | kern/syscall.c:325-380 | a sys_ipc_try_send of a page that succeeds keeps the kernel invariant if and only if no bit of the permission word changes the frame number and the count has room or is not needed |
| OutsideDomain.StraySendExists | kern/syscall.c:346-360 | from any power-up with two CPUs, five pages and two slots to spare, a run comes to a send that succeeds and breaks that invariant |
| PhysMem.PhysicalMemory.BootMapRegion | kern/pmap.c:457-469 | maps exactly its region of kern_pgdir: every other static page keeps its entry, in a table installed on the way it gets a zero one; no page in use changes its count or its use, and the invariant holds |
| PhysMem.PhysicalMemory.UserMemCheck | kern/pmap.c:640-660 | 0 exactly when every tested page is below ULIM and its entry has every bit of perm; otherwise -E_FAULT and user_mem_check_addr is the first bad address |
| PhysMem.RangeIsTested | kern/pmap.c:646-649 | every byte of a non-empty range lies in a tested page if and only if the range ends at or below the last page boundary |
| PhysMem.CheckIsExact | kern/pmap.c:640-660 | every byte of a non-empty range may be used if and only if the result is 0 and the range ends at or below the last page boundary |
| PhysMem.LastPagePasses | kern/pmap.c:646-649 | sixteen bytes of the last page pass the check in every address space, though none may be used |
| PhysMem.FaultIsFirstByte | kern/pmap.c:650-656 | after a refusal user_mem_check_addr lies in the range and may not be used, and every byte of the range before it may |
| PhysMem.PhysicalMemory.PartitionFreeList | kern/pmap.c:698-711 | the loop over two tail pointers leaves a well-formed chain: the low pages and then the high ones |
| FreeList.PartitionIsStable | kern/pmap.c:698-711 | that order is a permutation with every low page before every high page and each group in its old order, either group possibly empty |
| PhysMem.PhysicalMemory.EnvSetupVm | kern/env.c:166-210 | the in-place construction of a directory, tied to the value-level one |
| AddressSpace.EnvSetupVmKeeps | kern/env.c:166-210 | a new space maps nothing, every other translation is unchanged, the invariant holds, and it fails exactly when no page is free |
| PhysMem.PhysicalMemory.FreeSpace | kern/env.c:435-461 | the nested teardown loops, tied to the value-level teardown; none of their assertions fails |
| AddressSpace.FreeSpaceKeeps | kern/env.c:435-461 | after teardown the directory is gone, its keys are unmapped, every other translation is unchanged and the invariant holds |
| AddressSpace.TeardownIsExact | kern/env.c:435-461 | a page ends on the free list if and only if it was free or belonged to this space alone, each once; every other data page loses exactly the number of mappings the space had of it |
| AddressSpace.FreeSpaceBytes | kern/env.c:435-461 | surviving data pages keep their bytes |
| Mmu.AtIsTranslation | kern/pmap.c:422-444 | a user access below UTOP reaches a frame, through the rights of both levels, exactly when the flat map of the theorems has a user entry for its page, writable for a store; the directory entries the kernel makes stand in nobody's way |
| Mmu.UvptShowsTables | kern/env.c:205-207 | through the slot at UVPT a program reads uvpd[i] as its directory entry and uvpt[n] as the entry of page n, faults where the table is missing, and can store to neither |
| Mmu.UvptIsUvpt | lib/fork.c:121-127 | PTE_P in uvpd and uvpt together say exactly that the page is mapped, and uvpt is then its entry |
| Envs.NextIdIsFresh | kern/env.c:234-238 | the id given out is positive, names its slot, and counts the slot's generation modulo 2^19-1 |
| Envs.IdsRepeatOnlyAfterAllGenerations | kern/env.c:234-238 | two ids of one slot fewer than 2^19-1 allocations apart differ, across the signed wrap; after exactly that many the id is back |
| Envs.StaleIdIsRejected | kern/env.c:75-109 | envid2env rejects an id that its slot has left by fewer than 2^19-1 generations, whoever asks |
| Ids.IdsOverRun | kern/env.c:234-238 | over any run a slot's id moves one generation at each allocation of the slot and at no other step, and a free slot is not live again without one |
| Ids.DeadIdIsRejected | kern/env.c:75-109 | over any run, from the moment an environment is gone until its slot has been allocated 2^19-1 times, envid2env rejects its id |
| Envs.Envid2EnvFinds | kern/env.c:75-109 | whom an id names, in fields and both ways: 0 the caller, any other number the live environment with that id, and where permission is asked for only the caller itself and its children |
| Envs.EnvAllocKeeps | kern/env.c:220-282 | env_alloc keeps the kernel invariant; each error has its exact cause and changes nothing; success makes one free slot live with an empty space |
| Envs.EnvAllocStores | kern/env.c:224-275 | the first free slot, its next generation of id, the parent, RUNNABLE, registers zero but for esp and the interrupt flag, no upcall and not receiving |
| Envs.EnvFreeKeeps | kern/env.c:419-467 | env_free keeps the kernel invariant, frees one slot and unmaps exactly its space |
| KernelObject.Tables.constructor | kern/env.c:117-133 | env_init's loop leaves every slot free and the free list in slot order |
| KernelObject.BootKernelOk | kern/env.c:117-133 | after page_init and env_init the kernel invariant holds and every environment is FREE |
| PowerOn.Start | kern/init.c:31-34 | page_init, any static mappings and env_init, run in place, end in a machine that satisfies `Smp.Init`, from which the theorems about runs start |
| PowerOn.BootedHasRoom | kern/pmap.c:324-343 | a booted kernel has the pages and slots those runs need |
| KernelObject.Tables.Envid2Env | kern/env.c:75-109 | the in-place lookup, tied to the function that `Envs.Envid2EnvFinds` and the id theorems are about |
| KernelObject.Tables.EnvAlloc | kern/env.c:220-282 | the in-place allocation from the intrusive list and its error codes, tied to the value-level one |
| KernelObject.Tables.EnvFree | kern/env.c:419-467 | the in-place teardown of one environment, tied to the value-level one |
| KernelObject.Tables.EnvDestroy | kern/env.c:474-491 | an environment running elsewhere becomes DYING, any other is freed |
| KernelObject.Tables.SysExofork | kern/syscall.c:78-98 | the in-place call and its result, tied to the value-level one |
| KernelObject.Tables.SysEnvSetStatus | kern/syscall.c:107-125 | likewise for sys_env_set_status |
| KernelObject.Tables.SysEnvSetPgfaultUpcall | kern/syscall.c:137-147 | likewise for sys_env_set_pgfault_upcall |
| KernelObject.Tables.SysPageAlloc | kern/syscall.c:168-198 | likewise for sys_page_alloc, including the page given back when the insertion fails |
| KernelObject.Tables.SysPageMap | kern/syscall.c:216-259 | likewise for sys_page_map; only the page to be mapped needs room in its count |
| KernelObject.Tables.SysPageUnmap | kern/syscall.c:267-285 | likewise for sys_page_unmap |
| KernelObject.Tables.SysIpcTrySend | kern/syscall.c:325-380 | likewise for sys_ipc_try_send, its tests in their order, with the replies and stores of `Replies.SendReply`; a send that carries no page needs no room in any count |
| KernelObject.Tables.SysIpcRecv | kern/syscall.c:393-417 | likewise for sys_ipc_recv up to its call of sched_yield |
| Syscalls.ExoforkKeeps | kern/syscall.c:78-98 | the child has the caller's registers with 0 in eax, an empty space and an id that names it; errors change nothing |
| Syscalls.PageAllocCall | kern/syscall.c:168-198 | on success one key maps a zeroed page nobody else maps; on error nothing but bytes of free pages differs |
| Syscalls.PageMapCall | kern/syscall.c:216-259 | on success one key becomes an alias of another without gaining write access; errors change nothing |
| Syscalls.PageUnmapCall | kern/syscall.c:267-285 | on success one key is unmapped and nothing else moves |
| Syscalls.IpcSendCall | kern/syscall.c:325-380 | a send that reads no unset pointer touches exactly one receiver's slot and at most one mapping, and keeps the kernel invariant; errors change nothing |
| Syscalls.WildReadIff | kern/syscall.c:339-349 | the call reads `*pte` unset if and only if its target is receiving, srcva is aligned and below UTOP, and nothing is mapped there |
| OutsideDomain.WildReadExists | kern/syscall.c:339-349 | from any power-up with two CPUs and two pages and slots to spare, a run comes to such a call |
| Syscalls.EnvDestroyKeeps | kern/env.c:474-491 | env_destroy keeps the kernel invariant |
| Syscalls.DispatchKeeps | kern/syscall.c:420-475 | every system call that C gives a meaning and whose page has room in its count keeps the whole kernel invariant, and every failing one leaves translations, counts, environments and the order of the free list unchanged |
| Replies.SetStatusReply | kern/syscall.c:107-125 | -E_INVAL for any other status, then -E_BAD_ENV, else 0 and one status stored |
| Replies.SetUpcallReply | kern/syscall.c:137-147 | -E_BAD_ENV, or 0 and one upcall stored |
| Replies.PageAllocReply | kern/syscall.c:168-198 | -E_BAD_ENV; -E_INVAL for a bad address or permission and when no page is free; -E_NO_MEM exactly when the last page would be needed for a table too; else the first free page, zeroed, at that one address |
| Replies.PageMapReply | kern/syscall.c:216-259 | -E_BAD_ENV for either side; -E_INVAL for bad arguments, for no page at the source, for write access to a read-only page, and when a table is needed and no page is free; else that frame with those permissions at that one address |
| Replies.PageUnmapReply | kern/syscall.c:267-285 | -E_BAD_ENV, then -E_INVAL for a bad address, else 0 and that one page unmapped |
| Replies.SendReply | kern/syscall.c:325-380 | every reply and its cause in order, -E_IPC_NOT_RECV if and only if the id names an environment that is not receiving; a success leaves the receiver RUNNABLE, no longer receiving, with sender, value and permission as sent, 0 in eax and all its other fields as they were, and maps the page exactly when both sides want that |
| Replies.RecvReply | kern/syscall.c:393-417 | -E_INVAL for an unaligned address below UTOP, else blocked and receiving, with from, value and perm cleared and registers untouched |
| Replies.ExoforkReply | kern/syscall.c:78-98 | -E_NO_FREE_ENV, then -E_NO_MEM, else the new record field by field and its id |
| Replies.DestroyReply | kern/syscall.c:50-66 | -E_BAD_ENV; DYING for an environment that runs elsewhere; else a FREE slot at the head of the list, and no key of its directory mapped |
| Replies.OtherReplies | kern/syscall.c:430-473 | sys_getenvid replies with the caller's id, the console calls with their value and an unknown number with -E_INVAL, and none changes anything |
| Replies.StrangersAreSafe | kern/env.c:98-105 | every call that would act on a live environment that is neither the caller nor its child is refused and changes nothing |
| KernelObject.Tables.SchedYield | kern/sched.c:11-76 | the two scanning loops choose as the value-level scheduler does |
| KernelObject.Tables.EnvRun | kern/env.c:523-552 | the status changes of a context switch, tied to the value-level one |
| Sched.ScanFindsFirst | kern/sched.c:38-46 | the circular search returns the nearest RUNNABLE slot, and nothing exactly when there is none |
| Sched.BypassBringsCloser | kern/sched.c:32-46 | at a decision that passes over a RUNNABLE environment its cyclic distance from the running one strictly falls |
| Sched.BoundedBypass | kern/sched.c:32-46 | an environment that stays RUNNABLE is passed over fewer than NENV times |
| Sched.YieldKeepsHeld | kern/sched.c:11-58 | sched_yield never takes an environment that another CPU holds, and keeps the RUNNING and DYING ones exactly the held ones |
| KernelEntry.CallTouchesOneEnv | kern/syscall.c:420-475 | each call changes at most one slot of envs[], for sys_exofork the new environment's and for sys_env_destroy the freed or DYING one |
| KernelEntry.CallGuardIsExact | kern/syscall.c:107-125 | the bookkeeping of scheduler and receivers survives a call if and only if its target passes the test the code leaves out |
| OutsideDomain.UnguardedCallsExist | kern/syscall.c:107-125 | from any power-up with two CPUs and two pages and slots to spare, a run comes to a parent's call that breaks the scheduler's bookkeeping: the status of a child running on another CPU set, or a child DYING there destroyed |
| KernelEntry.BodySettles | kern/trap.c:279-337 | one whole stay in the kernel, whatever trapped, keeps the kernel invariant, blocked receivers and the RUNNING or DYING bookkeeping |
| StayOutcomes.TimesliceEnds | kern/trap.c:261-264 | a timer interrupt or sys_yield runs the first RUNNABLE slot after the trapped one, going round, and leaves that RUNNABLE with its registers; with no other RUNNABLE it goes on itself |
| StayOutcomes.TrapReturns | kern/trap.c:330-337 | a breakpoint and a pushed fault frame come back to the same environment with exactly those registers |
| StayOutcomes.CallEnds | kern/trap.c:248-258 | a call returns to its caller with its result in eax and every other register as it was; a receive that has begun leaves its caller blocked with its registers, and the search goes on after it |
| StayOutcomes.EnvironmentEnds | kern/trap.c:308-313 | a zombie, an environment with an unhandled fault and one that destroys itself end FREE with their space gone; the CPU runs the lowest RUNNABLE slot, or idles while any slot is RUNNING or DYING, or drops into the monitor |
| StayOutcomes.IdleCpuGoesOn | kern/sched.c:31-76 | a CPU without an environment chooses likewise |
| Fairness.WaitIsBounded | kern/sched.c:31-45 | over any run, while an environment stays RUNNABLE, the timer stays and yields of a CPU pass over it at most as often as there are slots between, fewer than NENV, and as often again for each environment that ends on that CPU |
| Fairness.EndedIsFree | kern/env.c:474-491 | the step of a run that serves such an ending leaves the slot FREE and its address space unmapped |
| Fairness.DeliveryWakes | kern/syscall.c:366-377 | the step of a run at which a send succeeds makes its blocked receiver RUNNABLE, with the message, the sender's id and 0 in eax |
| Runs.Stays | kern/spinlock.c:60-116 | from user mode, the halt loop or boot, a CPU that finds the lock free comes through the trap, the lock, the work and the unlock, one instruction at a time, to the state the work asks for |
| Smp.StepKeeps | kern/spinlock.c:60-116 | every single step of every CPU keeps the machine invariant |
| Smp.BigKernelLockIsSafe | kern/spinlock.c:60-116 | over all interleavings at most one CPU works in the kernel, both lock panics and assert(curenv) are unreachable, and every stay acquires once and releases once |
| Smp.NoEnvironmentOnTwoCpus | kern/sched.c:11-103 | over all interleavings no environment is on two CPUs, RUNNING or DYING means held by one, and FREE means on the free list |
| Smp.CountsAreExact | kern/pmap.c:496-563 | in every reachable state of the machine a page not reserved at boot has count zero if and only if it is on the free list, so none leaks; a data page's count is its number of mappings over all directories; a table or directory has count one and no user mapping; the free list is duplicate-free |
| Ipc.Rendezvous | kern/syscall.c:325-417 | over whole runs: between two receives of a slot at most one send succeeds; before it the receiver is blocked with from, value and perm zero, after it they are that send's and are never overwritten |
| Resume.IpcRecvReturnsTheSend | lib/ipc.c:22-44 | when the receiver first runs again exactly one send has completed its receive, its eax is 0, and what ipc_recv makes of that eax is that send's value, sender and permission |
| Ipc.IpcRecv | lib/ipc.c:22-44 | the stores through the two out-pointers, null or not, and the returned value |
| Ipc.IpcSend | lib/ipc.c:56-78 | the loop yields on -E_IPC_NOT_RECV and stops at the first other reply, successfully exactly when that is 0 |
| Ipc.IpcSendDeliversOnce | lib/ipc.c:56-78 | over any run of the machine, whatever the others do between its calls, the steps of an environment in ipc_send deliver at its last call, to the environment it named, exactly when that call returns 0, and at no step before |
| UserMemory.AllocRefines | kern/syscall.c:168-198 | sys_page_alloc shows as one zeroed private page, and an error as nothing |
| UserMemory.UnmapRefines | kern/syscall.c:267-285 | sys_page_unmap shows as one private page gone |
| UserMemory.ExitRefines | kern/env.c:419-467 | an exit shows as all private pages of one environment gone |
| CowFork.DupPageRefines | lib/fork.c:65-86 | duppage shows as copying one private page, with the same right to write; every frame mapped writable anywhere is again mapped once |
| CowFork.PgFaultRefines | lib/fork.c:14-53 | a completed pgfault changes nobody's contents, gives the faulting environment a private writable frame and leaves PFTEMP unmapped |
| CowFork.DupPageFails | lib/fork.c:65-86 | duppage of a mapped page fails only when no page is free |
| CowFork.DupPageShares | lib/fork.c:71-74 | a PTE_SHARE page goes to the child as the same frame with all PTE_SYSCALL bits if and only if the parent can write it and no table page is lacking; otherwise nothing changes |
| CowFork.PgFaultFails | lib/fork.c:14-53 | pgfault on a copy-on-write page fails only when at most one page is free |
| CowFork.PgFaultRefuses | lib/fork.c:28-33 | any fault that is not a write to a copy-on-write page panics and changes nothing |
| CowRun.StepRefines | lib/fork.c:14-147 | every system call, store and copied word of any environment, wherever the others are in duppage or pgfault, is that step on private memories, or nothing there |
| CowRun.CowRefinesPrivate | lib/fork.c:14-147 | over any run in which the system calls of duppage and pgfault interleave with those of other environments, shared frames cannot be told from private memories in which duppage copies its page at once and pgfault does nothing |
| CowRun.ReadsAgree | lib/fork.c:14-147 | after any such run every load, exception stacks and an environment inside its own pgfault aside, and every right to write, is what private memories would give |
| CowRun.WritersAreAlone | lib/fork.c:65-86 | at every point of such a run a frame mapped writable anywhere is mapped once, or once more by the duppage of that very page that is between its two maps |
| CowRun.ViewIsShown | lib/fork.c:104-147 | every state with ordinary user pages, each writable frame mapped once and PFTEMP unused can start such a run |
| CowState.ViewIsRelated | lib/fork.c:104-147 | every such state is also one for which the theorems about a single fork hold |
| Fork.CopyPages | lib/fork.c:121-127 | the loop leaves the child with the parent's pages below USTACKTOP and everyone else as before, and stops early only when no page is free |
| Fork.SetHandler | lib/pgfault.c:24-42 | the first time, the caller gets a zeroed exception stack and the upcall; after that nothing changes; it fails only when at most one page is free |
| Fork.ForkCow | lib/fork.c:104-146 | the child is RUNNABLE with 0 in eax, the upcall set and its own exception stack, and nothing else; it reads, page by page, what the parent read when fork was called, with the same right to write; nothing changed for anyone else but the handler a parent without one now has; and it fails only when at most one page or no environment is free |
| DumbFork.EagerDupPageCopies | user/dumbfork.c:25-38 | dumbfork's duppage gives the child a writable copy of one page, changes nothing for anyone else and unmaps UTEMP again |
| DumbFork.CowAgreesWithEager | user/dumbfork.c:25-38 | the two duppages leave the same private memories if and only if the parent may write the page; contents always agree |
| DumbFork.EagerPages | user/dumbfork.c:68-72 | dumbfork's loop and its stack copy leave the child with writable copies of exactly those pages of the parent and everyone else as before, and fail only when at most one page is free |
| DumbFork.DumbForkCall | user/dumbfork.c:40-79 | dumbfork as a whole: the child is RUNNABLE with 0 in eax and has writable copies of exactly the copied pages and nothing else; nothing changed for anyone else; it fails only when at most one page or no environment is free |
| DumbFork.ForkBothWays | user/dumbfork.c:40-79 | run from one and the same parent and state, fork and dumbfork leave children that read the same words, the parent's, on every page dumbfork copies; the one may write where the parent may, the other everywhere |
| Fault.FaultFrame | kern/trap.c:388-406 | where the frame goes and when there is one; every word of it by its offset; the upcall starts with esp on it and all other registers as they were, and no other byte changes |
| Fault.PushKeepsStackIffNotAtBottom | kern/trap.c:388-406 | the frame push leaves the exception stack at and above esp alone if and only if esp is not exactly its bottom |
| Fault.HandlerIsEntered | lib/pfentry.S:34-39 | however the upcall faults on the way, the C handler is entered at its address, with the address of the complete frame as its argument and the instruction after the call as its return address |
| Fault.FaultReturns | lib/pfentry.S:34-93 | at any nesting depth, also in the upcall itself, a fault that is over has restored all general registers, eflags, eip and esp, kept the exception stack from esp up, and changed elsewhere only handlers' memory and the word below an ordinary esp |
| Fault.PlainFaultReturns | lib/pfentry.S:34-93 | a fault whose handler just returns comes back exactly when frame and call fit and the word below esp can be written |
| Stab.StabBinsearch | kern/kdebug.c:59-103 | it ends on every table, and on every sorted one exactly as `Stab.Outcome` says: no entry, none below the address, no match, a match alone, a match with the next address still in its range, a match on the last address, and a second match there |
| Stab.SearchSucceedsIff | kern/kdebug.c:38-57 | on sorted entries of which one is at or below the address, the result is the last such entry and the index just before the next one if and only if the bump is harmless, which plain binary search decides |
| Stab.FirstMatchIff | kern/kdebug.c:65-91 | on sorted entries plain binary search comes to an exact match if and only if the address occurs |
| Stab.NoClashIsHarmless | kern/kdebug.c:84-90 | the bump is harmless when addr does not occur, or when addr + 1 exists and does not |
| Stab.LastAddressMisleads | kern/kdebug.c:84-90 | a search for the last address of all, when it occurs, never brackets it |
| Stab.TurnShrinks | kern/kdebug.c:65-91 | each turn shrinks the range, or keeps it and ends the exact match at its left end |
| Stab.ClashMisleads | kern/kdebug.c:84-90 | with entries at addr and addr + 1 the search for addr ends at the entry for addr + 1 |
| Stab.ClashMayBeHarmless | kern/kdebug.c:84-90 | with entries at 5, 6 and 9 the search for 5 ends at the entry for 5 all the same |
| Memmove.MemmoveFast | lib/string.c:141-169 | under every overlap and on all four string-instruction paths the destination gets the source's original bytes and nothing else changes |
| Memmove.MemmovePlain | lib/string.c:187-205 | the byte loops do the same |
| Memmove.MovedBytes | lib/string.c:141-205 | what that result is, byte by byte |
| Numbers.Printnum | lib/printfmt.c:37-52 | prints the digits padded on the left to the width |
| Numbers.FormatInteger | lib/printfmt.c:192-234 | the cases of the switch print the text that `Numbers.FormattedIs` describes |
| Numbers.Strtol | lib/string.c:239-284 | the loops read what the value-level reader reads: blanks, sign, prefix, digits, with 32-bit wrap |
| Numbers.DigitTable | lib/string.c:267-274 | the ten decimal digits and the letters in either case are digits of the values they should be, and no other character is one |
| Numbers.StrtolReads | lib/string.c:239-284 | for every string: after blanks, a sign and a prefix that says or confirms the base, the longest run of digits of that base, its value wrapped to 32 bits and negated for a minus sign, and the index where it ends |
| Numbers.FormattedIs | lib/printfmt.c:192-234 | what is printed: a minus sign for a negative %d or %o, 0x for %p; padding up to the width; the number in base 10, 8, 10, 16 or 16 in lower case without leading zeros |
| Numbers.PrintedReadsBack | lib/printfmt.c:37-52 | strtol undoes printnum for bases 8, 10 and 16, any width, blanks or zeros, stops at the terminator, and returns the number itself if and only if it is below 2^31 |
| Numbers.SignedReadsBack | lib/printfmt.c:192-217 | %d under base 10 and %o under base 8 read back as the signed argument exactly when no blanks stand between sign and digits |
| Numbers.UnsignedReadsBack | lib/printfmt.c:203-231 | %u under base 10 and %x under base 16 read back as the argument's 32 bits for every width and either padding |
| Numbers.PointerReadsBack | lib/printfmt.c:219-234 | %p reads back under base 16 and under base 0 exactly when no blanks stand between 0x and the digits |

## Left out

- Kernel work between taking and giving back the lock is one step: `Smp.BigKernelLockIsSafe` proves that no two CPUs are inside, and user-mode instructions touch no kernel state.
- TLB contents, lcr3 and invlpg, segment registers, env_runs, env_type and env_cpunum, the saved call stack of the lock, and console output.
- Device and boot code, the monitor, panic paths, ELF loading and region_alloc, mmio_map_region's own arithmetic, sfork and the programs in user/ other than dumbfork.
- user_mem_assert: its check is `PhysMem.PhysicalMemory.UserMemCheck`, its failure the fatal fault of `KernelEntry`.
- sys_cputs and sys_cgetc: the console is not modelled; the call `Console` carries the value they return, and a bad string for sys_cputs is the event `FaultFatal`.
- KernelEntry.Serve: whether a page fault is pushed or fatal, and with which frame, is an input of the stay; `Fault.FaultFrame` says which frame the kernel pushes.
- CowFork.DupPageRefines: a map that fails for want of memory ends this theorem's domain, also for a read-only page, where duppage ignores the error and the child goes without the page; in `CowRun` such a step copies nothing.
- CowRun.CowRefinesPrivate: calls on an environment that is itself inside duppage or pgfault, and faults taken inside the handler, are not among the steps.
- Smp.StepKeeps: user stores and the kernel's frame push do not change page contents in a run of this machine, and environments created at boot start without pages, since region_alloc is left out; contents are the subject of `CowRun`.
- PageInv.PageInsertKeeps: the accessed and dirty bits that the MMU sets in page-table and page-directory words are not modelled; a directory entry for a table is exactly its frame and PTE_P, PTE_W and PTE_U.
- Fault.FaultReturns: the handler is any sequence of computation and faults that keeps its stack pointer between the bottom of the exception stack and its frame, stays off the frame, and returns; instruction fetch is from fixed code.
- Numbers.Strtol: signed overflow wraps modulo 2^32 as compiled code does; C leaves it undefined.
- Memmove.MemmoveFast: the two ranges do not wrap around the end of the address space.
- String and error conversions of vprintfmt, the l flags and precision.
