# LineOS kernel model

Dafny models of the stateful cores of the LineOS kernel and of the account database library, with proofs of what those
cores promise. Each core comes as a specification on values, lemmas about it, and a class whose methods do what the C
code does in place, loops and links included, each proved against the specification.

- **Address spaces** (`PageTables`, `PagePath`, `AddressSpaces`, `PageRemoval`, `PageSupply`, `Vmm`): 4-level page tables in one
  physical memory, walks with effective rights, cloning, restricting, splitting, mapping and unmapping one page, and the
  life of an address space. The invariant behind mapping is that the last entries of private subtrees carry the effective
  rights, so that opening a path changes nothing.
- **TLB shootdown** (`Shootdown`): initiator, interrupt handlers and page-table stores as one step system.
- **Scheduler** (`ChunkSpec`, `ChunkArray`, `Scheduler*`): weighted slots in a chunk rewritten under a live cursor, and
  the multi-processor system of adding, removing, moving, ticking, switching, sleeping, waking and finishing.
- **Wait queues and key ring** (`WaitSpec`, `WaitQueues`).
- **Page allocator and heap** (`Buddy*`, `PageAllocator`, `HeapSpec`, `KernelHeap`).
- **TCP client** (`Tcp*`): receive and send sides over a lossy link, the ring buffer, and the port and TIME_WAIT tables
  (`PortSpec`, `PortRuns`, `PortTables`). Sequence numbers are modulo 2^32 (RFC 9293, sections 3.4 and 3.10.7.4).
- **Virtio split ring and block driver** (`VirtDesc`, `VirtRing`, `VirtQueues`, `BlockSpec`, `BlockRuns`,
  `BlockTransfer`, `BlockDevices`; section 2.7 of VirtIO 1.2).
- **Account database** (`UserDBSpec`, `UserDatabase`), **ELF loading** (`Elf`), **DNS names** (`DnsSpec`, `Dns`;
  RFC 1035, sections 3.1 and 4.1.4), **calendar** (`Calendar`) and **128-bit division** (`Division`).

A section under a lock is one atomic step. Clocks, device answers, files, the network and other processors are parameters
or events. Machine words are unbounded integers with the wrap written out where the code relies on it. `Prelude` holds
shared arithmetic and counting.

Four properties one might expect are false of the code, and each is stated with its exact condition:

- After initialisation two free buddies can stay apart, because neighbouring firmware ranges are not merged
  (`BuddyRuns.NeighbouringRanges`). It does not happen exactly for the maps in which no two usable pieces touch at a page
  e while both are at least 2^o pages long, 2^o below 2^20 being the largest power of two that divides e
  (`BuddyBoot.BootNoBuddies`). Conservation does not depend on it (`BuddyRuns.BootConserves`).
- `PToO` ends exactly for counts up to 2^63 (`PageAllocator.DoublingEnds`).
- `KAlloc` yields a block as large as asked exactly for requests up to 2^64 - 4128 (`HeapSpec.AllocMeaning`); beyond,
  the rounding wraps (`HeapSpec.WrappedRequest`).
- A stale connection handle finds a later connection exactly when its slot was reserved a multiple of 2^24 - 1 times in
  between (`PortRuns.HandleMeaning`), and such runs exist (`PortRuns.StaleHandle`).

## Model

| member | source | states |
|---|---|---|
| PageTables.WalkFrame | Kernel/Source/Memory/VMM.c:226-288 | A walk depends only on the tables it can reach: two memories that agree on them give every page the same frame and rights. |
| PageTables.RestrictEntryWalk | Kernel/Source/Memory/VMM.c:1096-1122 | One rewritten entry yields what the old entry yielded under its parent's rights, with those rights now in the last entry and user access gone. |
| Vmm.Tables.TranslateRoot | Kernel/Source/Memory/VMM.c:226-288 | The level-by-level reading finds exactly the frame of the walk, large pages included. |
| Vmm.Tables.TableWritable | Kernel/Source/Memory/VMM.c:320-363 | True exactly for a page the root maps to itself through entries all of which are writable. |
| Vmm.Tables.IdentityWritable | Kernel/Source/Memory/VMM.c:697-729 | The same for a space, and closed to user mode. |
| Vmm.Tables.AllocTable | Kernel/Source/Memory/VMM.c:783-808 | Hands out an empty page below 4 GiB that is writable at its own address under the current root and, for the kernel only, through every space; refuses, and changes nothing, exactly when none is left or the one found is not such a page. |
| PageSupply.CalmGrown | Kernel/Source/Memory/VMM.c:783-808 | Taking pages for tables changes no root, so every free page that could be written as a table still can be. |
| Vmm.ManagedRoot | Kernel/Source/Memory/VMM.c:754-808 | On the root of the kernel or of a space, n tables can be had exactly when n low pages are free and every low free page is writable through every root. |
| Vmm.Tables.FreeClone | Kernel/Source/Memory/VMM.c:365-381 | Exactly the pages of the tree go back to the free pages. |
| Vmm.Tables.Clone | Kernel/Source/Memory/VMM.c:383-423 | The copy is a tree of fresh pages that gives every page the frame and the rights of the original, which stays as it was, and takes one page a table visited; it fails only when a table cannot be read or too few pages can be had, and then every page taken is given back. |
| Vmm.Tables.Restrict | Kernel/Source/Memory/VMM.c:1096-1122 | In place, and over all three levels: every page keeps its frame and effective rights except that user access is lost, and its last entry then carries those rights alone. |
| AddressSpaces.InheritedCopy | Kernel/Source/Memory/VMM.c:1096-1122 | A restricted copy of an inherited subtree is in normal form: effective rights are those of the last entry, and they are what the path through the root granted. |
| PagePath.SplitWalk | Kernel/Source/Memory/VMM.c:1124-1156 | The table that replaces a 1 GiB or 2 MiB page gives each page in it the frame, the rights, the cache bits and the attribute bit the large page gave. |
| Vmm.Tables.SplitPage | Kernel/Source/Memory/VMM.c:1124-1156 | Fills a fresh table with the 512 smaller pages that stand for the large one, or fails, for want of a page only, and changes nothing. |
| PagePath.OpenStep | Kernel/Source/Memory/VMM.c:1231-1250 | Granting one more link of a path, or putting a new table under it, leaves every walk and its effective rights as they were, because the last entries carry the rights. |
| Vmm.Tables.OpenLevels | Kernel/Source/Memory/VMM.c:1231-1250 | The path to the page's last table becomes open at the cost of at most two pages; no walk of the detached subtree changes. |
| PagePath.LeafWrite | Kernel/Source/Memory/VMM.c:1252-1275 | Writing one slot of the last table changes the walk of that page of the region and of no other. |
| PageTables.UsesIs | Kernel/Source/Memory/VMM.c:1021-1042 | Below the root the search finds a page exactly when it is one of the tree's tables. |
| Vmm.Tables.UsesAddress | Kernel/Source/Memory/VMM.c:1021-1042 | Answers whether a page is one of the tables reached by links. |
| Vmm.Tables.CanReplace | Kernel/Source/Memory/VMM.c:1044-1094 | Grants a page exactly when it lies above 4 MiB, away from the current and every other stack, holds no space record and is no table of the kernel or of any space. |
| Vmm.Tables.MayPlace | Kernel/Source/Memory/VMM.c:1252-1275 | The decision on the old last entry: an old mapping must be the kernel's own non-global identity mapping, and the page must be no table in use. |
| AddressSpaces.Commit | Kernel/Source/Memory/VMM.c:1277-1284 | Putting the detached subtree into the root and giving the old one back loses no page and keeps the subtree's walks. |
| AddressSpaces.AllReplaced | Kernel/Source/Memory/VMM.c:1277-1284 | Every space stays in order, and every space but the changed one sees exactly what it saw. |
| Vmm.Tables.CommitRoot | Kernel/Source/Memory/VMM.c:1277-1284 | The slot now leads to the built subtree with the old slot's cache bits, is no longer shared, and the replaced private tables are free again. |
| Vmm.Tables.BuildPage | Kernel/Source/Memory/VMM.c:1214-1275 | A detached subtree in which the page has the new entry and every other page its old frame and effective rights. It fails only for an old mapping other than the kernel's own non-global identity mapping, for a page that must stay, or for too few usable pages; the first two always fail, and then memory is as it was. |
| AddressSpaces.MapResult | Kernel/Source/Memory/VMM.c:1158-1297 | After the commit every other virtual page of the space keeps its frame, effective rights and cache bits, and the page itself has exactly the requested ones. |
| AddressSpaces.TablesKept | Kernel/Source/Memory/VMM.c:1252-1284 | If the mapped address was no table of the kernel or of any space and none of the new ones, it is none afterwards. |
| Vmm.Tables.MapAddressSpacePage | Kernel/Source/Memory/VMM.c:1158-1297 | On success exactly one page of one space changed, to the requested frame and rights, no table lies at its address, and no page is lost. A legal request, over the kernel's own identity mapping too, is refused only for too few usable pages or for a page that must stay; then nothing changes. |
| Vmm.Tables.CreateAddressSpace | Kernel/Source/Memory/VMM.c:810-886 | The new space sees exactly what the kernel sees with every present slot shared; it is refused only if a guard fails, the kernel root cannot be written or grants user access, or no page is suitable. |
| PageRemoval.ClearLeaf | Kernel/Source/Memory/VMM.c:1299-1329 | Clearing the last slot of a page in a tree unmaps the pages that take all its slots and changes no other walk. |
| PageRemoval.AllReworked | Kernel/Source/Memory/VMM.c:1299-1329 | Rewriting a private subtree in place keeps every space in order and every other space's walks. |
| Vmm.Tables.AddressSpaceLeaf | Kernel/Source/Memory/VMM.c:932-961 | Finds the page's last table if there is one behind small-page links, and otherwise says so truthfully. |
| Vmm.Tables.UnmapAddressSpacePage | Kernel/Source/Memory/VMM.c:1299-1329 | Success takes away exactly that page and reports its frame, every other page of every space keeps its mapping; a user page of a private slot of an inactive space is never refused. |
| PageRemoval.UnmapUndoesMap | Kernel/Source/Memory/VMM.c:1158-1329 | Unmapping a page that mapping installed on an unmapped address gives every page the access it had before. |
| Vmm.Tables.DestroyAddressSpace | Kernel/Source/Memory/VMM.c:888-930 | Exactly the pages the space owns go back to the free pages, the space leaves the list, and every other space sees what it saw. |
| Shootdown.ApplySteps | Kernel/Source/Memory/VMM.c:118-215 | Every step of initiator, handlers and stores keeps the protocol's invariant, timeouts and failed interrupts included. |
| Shootdown.SuccessMeansFlushed | Kernel/Source/Memory/VMM.c:154-215 | When the shootdown returns TRUE no online processor still holds the old translation of the page. |
| Shootdown.AckUsesOwnPage | Kernel/Source/Memory/VMM.c:132-152 | A generation is acknowledged only after the page it was started for was invalidated. |
| Shootdown.ShootdownSafe | Kernel/Source/Memory/VMM.c:118-215 | Over every interleaving from boot: success means flushed everywhere, an idle unfailed protocol leaves no online processor behind, and no acknowledgment uses another generation's page. |
| Shootdown.FailureIsFinal | Kernel/Source/Memory/VMM.c:118-125 | Once a shootdown has failed no later one starts. |
| Shootdown.SentMeaning | Kernel/Source/Memory/VMM.c:170-184 | Over every run, the initiator knows of a failed interrupt exactly when one to an online processor could not be sent. |
| Shootdown.FailureCause | Kernel/Source/Memory/VMM.c:154-215 | Over every run from boot, a shootdown fails exactly when it cannot start, the generation wraps to 0, an interrupt could not be sent, or a processor did not answer in time; it returns TRUE exactly when it ends with all interrupts sent. |
| Shootdown.CanSucceed | Kernel/Source/Memory/VMM.c:118-215 | From every idle state without a failure there is a run in which the next shootdown succeeds. |
| ChunkSpec.InsertedMeaning | Kernel/Source/Scheduler/LBPWRRChunk.c:11-71 | A fresh insert adds exactly W copies and keeps every other entry in order. |
| ChunkSpec.CopyPlace | Kernel/Source/Scheduler/LBPWRRChunk.c:11-71 | Copy j of W in N slots lands on slot ceil(j*N/W)-1. |
| ChunkSpec.CopyInWindow | Kernel/Source/Scheduler/LBPWRRChunk.c:11-71 | Every cyclic window of ceil(N/W) slots holds one of the copies. |
| ChunkSpec.StaysOnMeaning | Kernel/Source/Scheduler/LBPWRRChunk.c:11-71 | The cursor stays on the very entry it was on when a task is inserted. |
| ChunkSpec.KeptCursorMeaning | Kernel/Source/Scheduler/LBPWRRChunk.c:73-247 | When entries go, a surviving entry keeps the cursor; otherwise the slot after the cursor is the first survivor after it, going round. |
| ChunkSpec.ShrunkMeaning | Kernel/Source/Scheduler/LBPWRRChunk.c:145-247 | Shrinking to W leaves exactly W copies, evenly chosen, and every other entry in order. |
| ChunkSpec.RemoveMeaning | Kernel/Source/Scheduler/LBPWRRChunk.c:73-143 | Removing leaves no copy, the other entries in order and a valid cursor. |
| ChunkSpec.ModifyMeaning | Kernel/Source/Scheduler/LBPWRRChunk.c:249-286 | Success, which is characterised exactly, leaves Priority copies of the task, all other entries in order, and the cursor on its own occurrence if that survives, or else right before the first survivor after it. |
| ChunkSpec.ModifyEven | Kernel/Source/Scheduler/LBPWRRChunk.c:11-286 | Copies added are spread so that every cyclic window of ceil(N/more) slots holds the task; copies dropped go evenly: of the first m old ones floor(m*Priority/all) stay. An emptied chunk has its cursor at 0. |
| ChunkArray.RunQueue.ChunkInsert | Kernel/Source/Scheduler/LBPWRRChunk.c:11-71 | The backward loop over the array computes that chunk in place; a refusal changes nothing. |
| ChunkArray.RunQueue.ChunkRemove | Kernel/Source/Scheduler/LBPWRRChunk.c:73-143 | The compacting loop leaves exactly the other entries and the cursor described above. |
| ChunkArray.RunQueue.ChunkUpdate | Kernel/Source/Scheduler/LBPWRRChunk.c:145-247 | Growing inserts the missing copies, shrinking drops copies evenly; a refusal changes nothing. |
| ChunkArray.RunQueue.ShrinkCopies | Kernel/Source/Scheduler/LBPWRRChunk.c:196-247 | The compacting loop keeps exactly the copies at which the even share rises. |
| ChunkArray.RunQueue.LBPWRRModifyChunk | Kernel/Source/Scheduler/LBPWRRChunk.c:249-286 | Dispatches on the weight the task has now; the new array is the specified chunk or the old one. |
| SchedulerProofs.AddKeeps | Kernel/Source/Scheduler/LBPWRRRunQueue.c:84-152 | Adding a task keeps every scheduler invariant. |
| SchedulerProofs.RemoveKeeps | Kernel/Source/Scheduler/LBPWRRRunQueue.c:154-215 | A task can be removed only while it is on no processor, and removing it keeps the invariants. |
| SchedulerProofs.MoveKeeps | Kernel/Source/Scheduler/LBPWRRRunQueue.c:217-329 | Moving a task takes it out of one queue and chunk and into the other, or leaves both as they were. |
| SchedulerProofs.NotifyKeeps | Kernel/Source/Scheduler/LBPWRRRunQueue.c:331-402 | The chunk follows the task's state: its weight while it may run, nothing otherwise. |
| SchedulerProofs.SetPriorityKeeps | Kernel/Source/Scheduler/Task.c:288-343 | A weight change re-spaces the task's slots and keeps the invariants. |
| SchedulerProofs.FinishKeeps | Kernel/Source/Scheduler/WaitQueue.c:156-191 | A finished task holds no slot in any chunk. |
| SchedulerProofs.DestroyKeeps | Kernel/Source/Scheduler/Task.c:462-513 | A task whose stacks are freed is on no processor. |
| SchedulerProofs.CompleteSwitchKeeps | Kernel/Source/Scheduler/LBPWRR.c:344-369 | Completing a switch frees the task that was being left and keeps the invariants. |
| SchedulerProofs.WakeSomeKeeps | Kernel/Source/Scheduler/LBPWRRHelper.c:19-60 | Waking due sleepers gives each its weight in slots, and only where there is room. |
| SchedulerProofs.TickKeeps | Kernel/Source/Scheduler/LBPWRR.c:169-342 | A tick that finds a task keeps the invariants through pausing, waking, searching and dispatching. |
| SchedulerProofs.StartKeeps | Kernel/Source/Scheduler/LBPWRR.c:61-145 | The first dispatch of a processor keeps the invariants. |
| SchedulerRuns.NextKeeps | Kernel/Source/Scheduler/LBPWRR.c:169-369 | Every step of the multi-processor system keeps the invariants. |
| SchedulerRuns.InvMeaning | Kernel/Source/Scheduler/LBPWRRRunQueue.c:84-402 | What they say: each scheduled task is in exactly its processor's queue, none is current on two processors, one that is on a processor is current or switching there, and one that may run fills exactly Weight slots of its own chunk and none elsewhere. |
| SchedulerRuns.NoPanic | Kernel/Source/Scheduler/LBPWRR.c:228-312 | While the idle tasks live, a tick always finds a task: the panic is unreachable. |
| SchedulerRuns.RunSafe | Kernel/Source/Scheduler/LBPWRR.c:169-369 | The invariants and the absence of the panic, over every interleaving of steps that spares the idle tasks. |
| SchedulerRuns.BootSafe | Kernel/Source/Scheduler/LBPWRR.c:23-59 | Initialisation on any number of processors succeeds and starts all of this off. |
| SchedulerFairness.TickMoves | Kernel/Source/Scheduler/LBPWRR.c:228-312 | A tick moves the cursor forward and never past a slot whose task is ready. |
| SchedulerFairness.TickOrder | Kernel/Source/Scheduler/LBPWRR.c:222-284 | A tick takes the first ready slot after the cursor, or from the cursor on when nothing was current; an idle slot only if no other is ready. |
| SchedulerFairness.DispatchedInTime | Kernel/Source/Scheduler/LBPWRR.c:228-312 | With the chunk unchanged a task that stays ready runs within as many ticks as the chunk has slots. |
| SchedulerFairness.WeightedShare | Kernel/Source/Scheduler/LBPWRR.c:228-312 | While all non-idle slots stay ready, as many ticks as there are such slots run each task exactly as often as it has slots, which is its weight. |
| SchedulerTables.Scheduler.constructor | Kernel/Source/Scheduler/LBPWRR.c:23-59 | Creates and adds one idle task per processor and reaches the initial state of the runs. |
| SchedulerTables.Scheduler.LBPWRRAddTask | Kernel/Source/Scheduler/LBPWRRRunQueue.c:84-152 | The task joins the least loaded processor's queue and chunk, or nothing changes. |
| SchedulerTables.Scheduler.LBPWRRRemoveTask | Kernel/Source/Scheduler/LBPWRRRunQueue.c:154-215 | The last entry takes the place of the one removed and the chunk forgets the task, or nothing changes. |
| SchedulerTables.Scheduler.LBPWRRMoveTask | Kernel/Source/Scheduler/LBPWRRRunQueue.c:217-329 | Both queues and chunks change together or not at all. |
| SchedulerTables.Scheduler.LBPWRRNotifyTaskChanged | Kernel/Source/Scheduler/LBPWRRRunQueue.c:331-402 | In place: the task's slots become its weight while it may run and none otherwise; its record is untouched and a refusal changes nothing. |
| SchedulerTables.Scheduler.TaskSetPriority | Kernel/Source/Scheduler/Task.c:288-343 | Weight and slots change together; a full chunk refuses and changes neither. |
| SchedulerTables.Scheduler.LBPWRRCompleteSwitch | Kernel/Source/Scheduler/LBPWRR.c:344-369 | The task that was being left is off the processor and the processor has no switch pending. |
| SchedulerTables.Scheduler.LBPWRRWakeSleepingTasks | Kernel/Source/Scheduler/LBPWRRHelper.c:19-60 | The loop over the run queue wakes exactly the sleepers whose deadline has passed, as far as there is room. |
| SchedulerTables.Scheduler.FindSlot | Kernel/Source/Scheduler/LBPWRR.c:228-284 | The circular search stops at the first eligible slot after the cursor, or reports that there is none. |
| SchedulerTables.Scheduler.LBPWRRTick | Kernel/Source/Scheduler/LBPWRR.c:169-342 | Pause, wake, search, dispatch as the step relation says; false exactly where the kernel would panic. |
| SchedulerEffects.AddMeaning | Kernel/Source/Scheduler/LBPWRRRunQueue.c:84-152 | A task is added exactly when it exists, is in no queue, and queue and chunk have room; it then has Weight slots there and none elsewhere, and no other task changes. |
| SchedulerEffects.RemoveMeaning | Kernel/Source/Scheduler/LBPWRRRunQueue.c:154-215 | A task is removed exactly when it is scheduled, finished and off its processor; it is then in no queue and no chunk, and no other task changes. |
| SchedulerEffects.MoveMeaning | Kernel/Source/Scheduler/LBPWRRRunQueue.c:217-329 | A task is moved exactly when it is ready, not idle, on no processor and the other side has room; it then lives on the target only. |
| SchedulerEffects.SetPriorityMeaning | Kernel/Source/Scheduler/Task.c:288-343 | A weight is accepted exactly when it is one of the six and the chunk has room for a task that may run, which then fills exactly that many slots. |
| SchedulerEffects.LeastLoadedMeaning | Kernel/Source/Scheduler/LBPWRRRunQueue.c:84-152 | A new task goes to the first processor with the fewest tasks. |
| SchedulerEffects.WakeMeaning | Kernel/Source/Scheduler/LBPWRRHelper.c:19-60 | Of the first entries of a queue exactly the sleepers that are due wake up, unless the chunk had no room at their turn. |
| SchedulerEffects.DueMeaning | Kernel/Source/Scheduler/LBPWRRHelper.c:43-46 | The signed comparison of wrapping clock readings says that a deadline has passed exactly when it is not later, for times less than 2^63 apart. |
| SchedulerEffects.TickWakes | Kernel/Source/Scheduler/LBPWRRHelper.c:19-60 | On an unbounded clock: a tick at time x makes exactly those sleepers of its processor ready whose time is at most x and for whom there is room; of all other tasks it touches only the one it stops and the one it starts. |
| SchedulerEffects.TickMeaning | Kernel/Source/Scheduler/LBPWRR.c:169-342 | After a tick what is current runs; it is a newly chosen idle task only if no other task of the chunk was ready; the task it replaced is still on the processor as the one being switched out. |
| SchedulerEffects.StartMeaning | Kernel/Source/Scheduler/LBPWRR.c:61-125 | The first dispatch takes the first ready slot, an idle task only if no other is ready, and nothing exactly if none is. |
| SchedulerEffects.CreateMeaning | Kernel/Source/Scheduler/Task.c:224-286 | A new task is ready, has weight 3 and is in no queue or chunk. |
| SchedulerEffects.NotifyMeaning | Kernel/Source/Scheduler/LBPWRRRunQueue.c:331-402 | Telling the scheduler of a change succeeds for every scheduled task, takes the slots of one that sleeps or has finished and leaves any other its weight. |
| SchedulerEffects.SleepMarkMeaning | Kernel/Source/Scheduler/Task.c:345-382 | Only a current task that is neither idle nor blocked marks itself as sleeping, with its deadline. |
| SchedulerEffects.WaitSleepMeaning | Kernel/Source/Scheduler/WaitQueue.c:61-106 | Only a running task that is not idle blocks on a queue; it keeps its slots. |
| SchedulerEffects.WakeTaskMeaning | Kernel/Source/Scheduler/WaitQueue.c:108-144 | A woken task runs on if it is still current on its processor and is ready otherwise; waking one that has just gone to sleep restores the whole state. |
| SchedulerEffects.FinishMeaning | Kernel/Source/Scheduler/WaitQueue.c:156-191 | A finished task has no slot anywhere, waits for nothing, and no other task changes. |
| SchedulerEffects.DestroyMeaning | Kernel/Source/Scheduler/Task.c:462-513 | A task is destroyed exactly when it has finished and left its processor; no queue, chunk or record of it remains. |
| SchedulerEffects.CompleteSwitchMeaning | Kernel/Source/Scheduler/LBPWRR.c:344-369 | Completing a switch frees the task that was left and changes nothing else. |
| WaitSpec.DetachOk | Kernel/Source/Scheduler/WaitQueue.c:12-53 | Detaching takes one task off whatever queue it is on, keeps the order of the others and disturbs no other task or queue. |
| WaitSpec.SleepOk | Kernel/Source/Scheduler/WaitQueue.c:61-106 | A task goes to sleep exactly when it runs, is scheduled and is not idle; it is then blocked and last on its queue. |
| WaitSpec.WakeFirstOk | Kernel/Source/Scheduler/WaitQueue.c:108-144 | Waking takes the longest sleeper and makes it ready, or running if it never left its processor. |
| WaitSpec.WakeAllOk | Kernel/Source/Scheduler/WaitQueue.c:151-154 | Waking all empties the queue, makes each of its tasks runnable and leaves the rest alone. |
| WaitSpec.FinishOk | Kernel/Source/Scheduler/WaitQueue.c:156-191 | A finished task is on no queue, and no other task or queue changes. |
| WaitSpec.PushMeaning | Kernel/Source/Input/VirtIOInput.c:241-262 | A key that is taken wakes every reader; a full ring drops it. |
| WaitSpec.StepKeeps | Kernel/Source/Input/VirtIOInput.c:241-262 | Every step of producers, readers, schedulers and other queues keeps the invariant. |
| WaitSpec.NoLostWakeup | Kernel/Source/Input/VirtIOInput.c:241-678 | Over every run no task sleeps for keys while a key is there, and a queued task is blocked and on exactly the queue it names. |
| WaitSpec.WaitMeaning | Kernel/Source/Input/VirtIOInput.c:663-678 | A reader sleeps exactly when no key is there. |
| WaitSpec.KeysInOrder | Kernel/Source/Input/VirtIOInput.c:241-678 | Over every run keys come out in the order they went in; only a full ring drops one. |
| WaitQueues.WaitLists.Detach | Kernel/Source/Scheduler/WaitQueue.c:12-53 | The walk over the Head, WaitNext and Tail links unlinks exactly that task and keeps all chains whole. |
| WaitQueues.WaitLists.SleepOn | Kernel/Source/Scheduler/WaitQueue.c:61-106 | Appending behind the tail keeps all chains whole. |
| WaitQueues.WaitLists.Wake | Kernel/Source/Scheduler/WaitQueue.c:108-144 | Wakes the head, or all of them from head to tail. |
| WaitQueues.WaitLists.FinishTask | Kernel/Source/Scheduler/WaitQueue.c:156-191 | Detaches, then sets the final state. |
| WaitQueues.KeyRing.PushKeyEvent | Kernel/Source/Input/VirtIOInput.c:241-262 | The ring with read and write indices behaves as a bounded queue and readers are woken. |
| WaitQueues.KeyRing.GetKeyEvent | Kernel/Source/Input/VirtIOInput.c:591-615 | Hands out the oldest key, and nothing exactly when there is none. |
| WaitQueues.KeyRing.WaitKeyEvent | Kernel/Source/Input/VirtIOInput.c:663-678 | Test and sleep happen under one lock, so a reader sleeps only on an empty ring. |
| TcpSpec.HandshakeTracks | Kernel/Source/Network/TCP.c:257-326 | After the peer's SYN is accepted the connection stands at the start of the peer's stream. |
| TcpSpec.HandshakeMeaning | Kernel/Source/Network/TCP.c:257-326 | A connection opens exactly on a SYN that acknowledges its own, without data, FIN or broken options, and starts with the peer's window and segment size. |
| TcpSpec.InputTracks | Kernel/Source/Network/TCP.c:208-410 | Any segment of the peer, overlapping, repeated or early, leaves delivered plus buffered bytes a prefix of its stream with ReceiveNext at its end modulo 2^32; one that is processed advances it exactly as far as it reaches and the buffer has room; FIN counts only once every byte is in. |
| TcpSpec.InOrder | Kernel/Source/Network/TCP.c:342-380 | The wrapped tests for "outside the window", the overlap and the FIN's place say what they mean on stream positions less than 2^31 apart. |
| TcpSpec.AcknowledgedMeaning | Kernel/Source/Network/TCP.c:355-371 | In stream positions: the acknowledged position only grows, and the send window is that of the newest segment that does not acknowledge less. |
| TcpSpec.ReceiveTracks | Kernel/Source/Network/TCP.c:639-695 | Exactly when bytes are buffered a read hands out as many as fit, from the front; closed, end of stream and nothing yet are told apart, and the end is reported only when the whole stream was read. |
| TcpSpec.RetryAdvances | Kernel/Source/Network/TCP.c:639-695 | After a read has made room, a repeated segment that covers the next byte makes the stream advance. |
| TcpSpec.ResetMeaning | Kernel/Source/Network/TCP.c:257-340 | A connection is reset exactly by a reset that acknowledges the SYN or, once connected, names the very next byte. |
| TcpSpec.AnswerMeaning | Kernel/Source/Network/TCP.c:328-410 | Whatever takes sequence space and every empty segment away from the next byte is answered; a bare acknowledgment in place is not. |
| TcpSpec.RunTracks | Kernel/Source/Network/TCP.c:208-695 | Over every order of lost, repeated, overlapping and reordered segments what was read is a prefix of the peer's stream, and the end is reported only after all of it. |
| TcpSend.StartOk | Kernel/Source/Network/TCP.c:412-495 | A block put on the link carries the sent bytes at their place in the stream. |
| TcpSend.StartMeaning | Kernel/Source/Network/TCP.c:412-447 | The whole block goes on the link behind everything sent before it, flags as Connect, Send or Close ask, or the connection is given up. |
| TcpSend.PassOk | Kernel/Source/Network/TCP.c:412-495 | Whatever a pass does, every packet on the link stays part of the stream at its place. |
| TcpSend.PassMeaning | Kernel/Source/Network/TCP.c:449-495 | A pass fails exactly on a closed or reset connection, succeeds exactly when all is acknowledged, and once the timer has run out repeats everything from the first unacknowledged byte, or one byte into a closed window. |
| TcpSend.RetryDelivers | Kernel/Source/Network/TCP.c:208-495 | One retransmission that gets through is enough: a receiver that has what was acknowledged, and room, then has everything sent, and its answer acknowledges the end of the block. |
| TcpSend.ProbeMeaning | Kernel/Source/Network/TCP.c:588-612 | The probe of a closed window is the last byte once more; a receiver that has it stores nothing and answers. |
| TcpSend.ArriveOk | Kernel/Source/Network/TCP.c:208-410 | An acknowledgment moves the acknowledged position forward and never past what was sent. |
| TcpSend.SuccessMeansAcknowledged | Kernel/Source/Network/TCP.c:412-495 | SendReliable reports success exactly when everything ever sent is acknowledged. |
| TcpSend.SendOk | Kernel/Source/Network/TCP.c:412-637 | Over every run of sends, retries, probes and arrivals every packet on the link is part of the sender's stream. |
| TcpSend.WindowHonoured | Kernel/Source/Network/TCP.c:165-410 | A peer that stays inside the announced window loses nothing: its segment is stored whole and the next announcement accounts for it. |
| TcpSend.EndToEnd | Kernel/Source/Network/TCP.c:208-695 | Whatever the link loses, repeats or reorders, a receiver reads a prefix of the bytes sent, and all of them once it sees the end. |
| TcpConnection.RingAppend | Kernel/Source/Network/TCP.c:393-398 | Writing behind the last byte of the ring appends to the bytes it holds. |
| TcpConnection.RingDrop | Kernel/Source/Network/TCP.c:668-674 | Moving the head drops bytes from the front. |
| TcpConnection.Connection.SendSegment | Kernel/Source/Network/TCP.c:165-193 | Acknowledgment number and window announce what is stored and the room left. |
| TcpConnection.Connection.Accept | Kernel/Source/Network/TCP.c:373-410 | The copy loop into the ring accepts what is new of the segment, then its FIN. |
| TcpConnection.Connection.InputLocked | Kernel/Source/Network/TCP.c:208-410 | The checks in the code's order lead to the connection and the answer the lemmas speak of; the answer acknowledges what is then stored. |
| TcpConnection.Connection.ReceivePass | Kernel/Source/Network/TCP.c:639-695 | The caller's buffer receives the oldest bytes from its start and keeps the rest of its contents. |
| TcpConnection.Connection.BeginBlock | Kernel/Source/Network/TCP.c:426-447 | SendNext moves on exactly when the link takes the packet. |
| TcpConnection.Connection.PollBlock | Kernel/Source/Network/TCP.c:449-492 | Fails on a closed or reset connection, succeeds when the block's end is acknowledged, and retransmits only what is not, one byte into a closed window. |
| TcpConnection.Connection.ResetConnection | Kernel/Source/Network/TCP.c:71-77 | The connection is closed and its buffered bytes are gone. |
| PortSpec.ScanMeaning | Kernel/Source/Network/UDP.c:59-72 | The scan yields the first free port after the last one given out, in cyclic order, and nothing only when every port it looked at is taken. |
| PortSpec.StepsReach | Kernel/Source/Network/UDP.c:59-72 | The 16384 steps visit each ephemeral port. |
| PortSpec.ScanSucceeds | Kernel/Source/Network/UDP.c:59-72 | With at most 88 ports named by the tables the scan always finds one. |
| PortRuns.ConnectMeaning | Kernel/Source/Network/TCP.c:790-872 | The first unused socket gets the first free port after the last one given out, exactly when a TIME_WAIT slot is left for it and a socket is unused; ports never run out and nothing else changes. |
| PortRuns.FinishMeaning | Kernel/Source/Network/TCP.c:110-131 | An open connection always finds an expired TIME_WAIT slot, and the port stays held for the hold time. |
| PortRuns.PortStaysTaken | Kernel/Source/Network/TCP.c:89-158 | For two minutes after a close its local port stays taken over every run without a reset of the network, and no connection is given it. |
| PortRuns.RefreshKeeps | Kernel/Source/Network/TCP.c:133-158 | A wait that has not run out starts again for two minutes, one that has stays over, and the accounting holds. |
| PortRuns.UdpOpenMeaning | Kernel/Source/Network/UDP.c:74-120 | The first closed datagram socket gets the port asked for, or the first free one, exactly unless the port is bound or the table full; nothing else changes. |
| PortRuns.ApplyKeeps | Kernel/Source/Network/TCP.c:71-158 | Every operation keeps ports distinct and a slot in reserve for each open connection. |
| PortRuns.NeverExhausted | Kernel/Source/Network/TCP.c:110-872 | After any operations since boot: connections and running waits number at most 64, no two share a local port, every close finds its slot and no attempt runs out of ports. |
| PortRuns.HandleMeaning | Kernel/Source/Network/TCP.c:59-69 | Over every run, a handle finds a connection exactly when its slot holds one and was reserved a multiple of 2^24 - 1 times since. |
| PortRuns.RunGeneration | Kernel/Source/Network/TCP.c:790-872 | Over every run the generation of a slot counts, modulo its 24 bits and without 0, how often the slot was reserved. |
| PortRuns.StaleHandle | Kernel/Source/Network/TCP.c:59-872 | From boot there is a run with 2^24 - 1 further connections on a slot after which the handle of the first finds the last. |
| PortRuns.BootGenerations | Kernel/Source/Network/TCP.c:59-872 | Every state reached from boot is one the statement on handles covers. |
| PortTables.Network.AllocatePort | Kernel/Source/Network/UDP.c:59-72 | The loop stops at the first free port in cyclic order and remembers it. |
| PortTables.Network.TCPPortInUse | Kernel/Source/Network/TCP.c:89-108 | Both tables are searched for a holder of the port. |
| PortTables.Network.CountReserved | Kernel/Source/Network/TCP.c:818-826 | Counts open sockets plus unexpired waits. |
| PortTables.Network.ConnectLocked | Kernel/Source/Network/TCP.c:790-872 | Reserves socket and port, or answers capacity or table full and changes nothing. |
| PortTables.Network.FinishCloseLocked | Kernel/Source/Network/TCP.c:110-131 | Moves the connection to the first expired slot. |
| PortTables.Network.HandleTimeWait | Kernel/Source/Network/TCP.c:133-158 | Answers exactly a repeated FIN of a waiting connection and restarts only its wait. |
| PortTables.Network.UDPOpen | Kernel/Source/Network/UDP.c:74-120 | Opens the first closed slot on the port, or leaves all sockets as they were. |
| BuddySpec.Nested | Kernel/Source/Memory/PMM.c:99-213 | Aligned blocks are disjoint or nested. |
| BuddySpec.JoinAligned | Kernel/Source/Memory/PMM.c:376-402 | An aligned block and its buddy make an aligned block of the next order. |
| BuddyProofs.TakeMeaning | Kernel/Source/Memory/PMM.c:288-331 | Splitting files one upper half per order; the pages handed out were free and no longer are, all others are as they were. |
| BuddyProofs.TakeNoBuddies | Kernel/Source/Memory/PMM.c:288-331 | Allocating never leaves two free buddies below the top order. |
| BuddyProofs.ReleaseMeaning | Kernel/Source/Memory/PMM.c:376-402 | Freeing makes exactly the block's pages free; blocks stay aligned and disjoint and FreePages is their total. |
| BuddyProofs.ReleaseNoBuddies | Kernel/Source/Memory/PMM.c:376-402 | Freeing never leaves two free buddies below the top order. |
| BuddyProofs.FreeRestores | Kernel/Source/Memory/PMM.c:288-402 | Freeing what was just allocated, either way, restores the page count, and every free list as a set exactly when the block it was cut from had no free buddy; without free buddies always. |
| BuddyProofs.RunInBlock | Kernel/Source/Memory/PMM.c:288-374 | Without free buddies an aligned free run lies inside one free block. |
| BuddyProofs.AllocateMeaning | Kernel/Source/Memory/PMM.c:288-331 | Takes the newest of the smallest blocks that will do; fails exactly when no free block is large enough and, without free buddies, exactly when no aligned run of the size is free. |
| BuddyProofs.AllocateBelowMeaning | Kernel/Source/Memory/PMM.c:333-374 | Takes the first fitting block of the smallest order that has one; fails exactly when no free block starts with a run that ends at or below Limit and, without free buddies, exactly when there is no such run. |
| BuddyRuns.AddRangeMeaning | Kernel/Source/Memory/PMM.c:201-213 | The greedy cut makes exactly the pages of the range free. |
| BuddyRuns.RangeNoBuddies | Kernel/Source/Memory/PMM.c:175-213 | One greedy range never files both halves of a larger block. |
| BuddyRuns.InitMeaning | Kernel/Source/Memory/PMM.c:404-455 | After initialisation exactly the conventional pages above 1 MiB outside the kernel image are free. |
| BuddyRuns.NeighbouringRanges | Kernel/Source/Memory/PMM.c:404-455 | Two neighbouring pages from two firmware ranges stay apart: a free aligned pair that a request for two pages does not get. |
| BuddyRuns.RunsInBlocks | Kernel/Source/Memory/PMM.c:288-374 | Free runs lie in single free blocks exactly when no free buddies were left apart. |
| BuddyRuns.RunConserves | Kernel/Source/Memory/PMM.c:288-402 | Over every run of allocations and frees, from any well-formed state, no page is lost or handed out twice, and once everything is back every page is free; a state without free buddies stays one. |
| BuddyRuns.BootConserves | Kernel/Source/Memory/PMM.c:288-455 | From initialisation on, for every memory map and every run, the usable pages are exactly those free or in one block handed out, never both. |
| BuddyBoot.BootNoBuddies | Kernel/Source/Memory/PMM.c:201-455 | Initialisation leaves no two free buddies below the top order exactly when no two usable pieces of the map touch at a page e with both at least 2^o pages long, 2^o being the largest power of two that divides e and below 2^20. |
| BuddyBoot.ApartBoots | Kernel/Source/Memory/PMM.c:201-455 | A map whose usable pieces do not touch boots without free buddies. |
| PageAllocator.DoublingEnds | Kernel/Source/Memory/PMM.c:39-51 | The doubling loop of PToO ends exactly for counts up to 2^63. |
| PageAllocator.Pages.BuddyPush | Kernel/Source/Memory/PMM.c:99-112 | The page becomes the head of its order's linked list. |
| PageAllocator.Pages.BuddyPop | Kernel/Source/Memory/PMM.c:114-135 | The head of the list is unlinked, or NULL for an empty list. |
| PageAllocator.Pages.BuddyRemove | Kernel/Source/Memory/PMM.c:137-173 | The walk finds and unlinks the page exactly when it is on that list. |
| PageAllocator.Pages.LargestOrderForRange | Kernel/Source/Memory/PMM.c:175-199 | The largest aligned block that starts the range and fits it. |
| PageAllocator.Pages.BuddyAddRange | Kernel/Source/Memory/PMM.c:201-213 | Files the range block by block on the linked lists. |
| PageAllocator.Pages.BuddyAllocate | Kernel/Source/Memory/PMM.c:288-331 | Searches orders upwards and splits in place; NULL changes nothing. |
| PageAllocator.Pages.BuddyAllocateBelow | Kernel/Source/Memory/PMM.c:333-374 | Searches the linked lists in order for the first fitting block and splits it; NULL changes nothing. |
| PageAllocator.Pages.BuddyFree | Kernel/Source/Memory/PMM.c:376-402 | Joins with free buddies upwards and files the result. |
| PageAllocator.Pages.PagesToOrder | Kernel/Source/Memory/PMM.c:39-51 | The least order that holds the count. |
| PageAllocator.Pages.KAllocPages | Kernel/Source/Memory/PMM.c:512-574 | Succeeds exactly when a free block has room for the order (below the limit, if one is given) and, without free buddies, exactly when a free aligned run exists; hands out free pages only. |
| PageAllocator.Pages.KMemFreePages | Kernel/Source/Memory/PMM.c:576-604 | Exactly the block's pages become free; a state without free buddies stays one, and a NULL, empty or too large request changes nothing. |
| PageAllocator.Pages.BuddyAddUsableRange | Kernel/Source/Memory/PMM.c:215-250 | Nothing below 1 MiB becomes free. |
| PageAllocator.Pages.BuddyAddUsableRangeExcept | Kernel/Source/Memory/PMM.c:252-286 | Nothing of the kernel image becomes free. |
| PageAllocator.Pages.KMemoryInit | Kernel/Source/Memory/PMM.c:404-455 | The loop over the memory map frees exactly the usable pages, and leaves no free buddies exactly under the condition on the map above. |
| HeapSpec.TakenOk | Kernel/Source/Memory/PMM.c:631-665 | Cutting a free block keeps the blocks aligned, disjoint and over the same bytes, with no two touching free neighbours; what is handed out has the size asked for or less than 48 bytes more, and every other block handed out stays as it was. |
| HeapSpec.ReleasedOk | Kernel/Source/Memory/PMM.c:821-845 | Freeing joins both free neighbours that touch and keeps the invariant and the bytes. |
| HeapSpec.ReleasedUsed | Kernel/Source/Memory/PMM.c:821-845 | A freed block is handed out no more, and every other block that is stays exactly as it was. |
| HeapSpec.FreeRestores | Kernel/Source/Memory/PMM.c:785-845 | KFree of a KAlloc that did not expand restores the whole block list. |
| HeapSpec.ExpandOk | Kernel/Source/Memory/PMM.c:706-763 | The new pages join the heap and nothing else; a free last block they touch grows over them. |
| HeapSpec.PagesSuffice | Kernel/Source/Memory/PMM.c:706-740 | Expanding asks for just enough whole pages, but for sixteen at least. |
| HeapSpec.AllocMeaning | Kernel/Source/Memory/PMM.c:785-819 | KAlloc succeeds exactly when a free block is large enough or pages can be had, and takes the first such block; it is as large as asked, and less than 64 bytes larger, exactly when the request is at most 2^64 - 4128; no other block handed out changes. |
| HeapSpec.WrappedRequest | Kernel/Source/Memory/PMM.c:785-819 | The largest 64-bit request rounds to zero and is answered with an empty block. |
| HeapSpec.RunTiles | Kernel/Source/Memory/PMM.c:606-845 | Over every run the blocks tile exactly the pages obtained, 16-byte aligned and disjoint, with no two touching free list neighbours. |
| KernelHeap.Heap.FindFreeBlock | Kernel/Source/Memory/PMM.c:614-629 | The walk over Next finds the first free block that is large enough, or NULL. |
| KernelHeap.Heap.SplitBlock | Kernel/Source/Memory/PMM.c:631-665 | The rest becomes a block of its own with mirrored links when it is worth a header. |
| KernelHeap.Heap.MergeWithNext | Kernel/Source/Memory/PMM.c:672-704 | A free next block that touches is swallowed and the links close over it. |
| KernelHeap.Heap.ExpandWith | Kernel/Source/Memory/PMM.c:706-763 | The new block is linked behind the tail, or merged with it. |
| KernelHeap.Heap.KAlloc | Kernel/Source/Memory/PMM.c:785-819 | Header and link writes give the specified list; the result is NULL or the payload of a taken block. |
| KernelHeap.Heap.KFree | Kernel/Source/Memory/PMM.c:821-845 | NULL is ignored; otherwise the block and its free neighbours become one free block. |
| VirtDesc.AllocMeaning | Kernel/Source/VirtIO/VirtQueue.c:145-183 | Takes the head of the free list exactly when there is one and touches no other descriptor. |
| VirtDesc.FreeMeaning | Kernel/Source/VirtIO/VirtQueue.c:185-202 | The descriptor becomes blank and the head of the free list. |
| VirtDesc.FreeChainMeaning | Kernel/Source/VirtIO/VirtQueue.c:204-233 | Following the links frees exactly the chain's descriptors. |
| VirtDesc.ReleaseMeaning | Kernel/Source/VirtIO/VirtQueue.c:204-233 | The other chains and the free list remain a partition of the table. |
| VirtDesc.BuildChainMeaning | Kernel/Source/VirtIO/VirtQueue.c:235-295 | Succeeds exactly when there are buffers, all usable, and enough descriptors; then the chain describes the buffers in order, and otherwise every descriptor is free again. |
| VirtRing.SubmitKeeps | Kernel/Source/VirtIO/VirtQueue.c:297-318 | The slot written holds no entry that is still unread. |
| VirtRing.CompleteKeeps | Kernel/Source/VirtIO/VirtQueue.c:351-390 | With a conforming device a report overwrites no entry the driver has not popped. |
| VirtRing.PopKeeps | Kernel/Source/VirtIO/VirtQueue.c:351-390 | Popping yields the reports in order, and nothing exactly when there is none, across the wrap at 2^16. |
| VirtQueues.VirtQueue.constructor | Kernel/Source/VirtIO/VirtQueue.c:58-143 | All descriptors are on the free list in order and both rings are empty. |
| VirtQueues.VirtQueue.AllocDesc | Kernel/Source/VirtIO/VirtQueue.c:145-183 | In place: the head of the free list becomes used and its successor the head; an empty list changes nothing. |
| VirtQueues.VirtQueue.FreeDesc | Kernel/Source/VirtIO/VirtQueue.c:185-202 | In place: the descriptor is blank and in front of the free list; a bad or unused index changes nothing. |
| VirtQueues.VirtQueue.FreeChainFrom | Kernel/Source/VirtIO/VirtQueue.c:204-233 | The loop frees descriptors along the links until one has no successor or is not in use. |
| VirtQueues.VirtQueue.BuildChainOf | Kernel/Source/VirtIO/VirtQueue.c:235-295 | The loop links one descriptor a buffer, head first, or frees again what it took. |
| VirtQueues.VirtQueue.SubmitHead | Kernel/Source/VirtIO/VirtQueue.c:297-318 | Refuses exactly a head out of range or not in use. |
| VirtQueues.VirtQueue.PopUsed | Kernel/Source/VirtIO/VirtQueue.c:351-390 | The used index moves on and the entry is handed out unless its head is out of range. |
| BlockRuns.IssueMeaning | Kernel/Source/Disk/VirtIOBlock.c:161-288 | A request is taken exactly when the sectors are on the disk, the buffer lies below 4 GiB, a request is free and the table has the descriptors; then the first free one records what was asked and its chain describes it. Otherwise no request changes state and nothing reaches the device. |
| BlockSpec.PendingDescribed | Kernel/Source/Disk/VirtIOBlock.c:225-262 | The chain of every pending request is 16 bytes of header to read, the caller's Count*512 bytes, device-writable exactly for a read and absent for a flush, and one status byte to write. |
| BlockSpec.RequestsApart | Kernel/Source/Disk/VirtIOBlock.c:118-159 | No header or status byte of one request lies in those of another, and all lie in the one page of the pool. |
| BlockTransfer.ExecutedMeaning | Kernel/Source/Disk/VirtIOBlock.c:161-288 | A device that knows only header and descriptors fills the caller's buffer with exactly the sectors asked for, or those sectors from the buffer, and touches nothing else. |
| BlockRuns.ReportMeaning | Kernel/Source/Disk/VirtIOBlock.c:433-491 | A report sets the status byte of exactly the request whose chain ran. |
| BlockRuns.ServiceMeaning | Kernel/Source/Disk/VirtIOBlock.c:433-491 | One turn of the interrupt loop finishes exactly the request of the oldest report, completed or failed as its status byte says, and frees its descriptors. |
| BlockRuns.AnyReport | Kernel/Source/Disk/VirtIOBlock.c:433-491 | Whatever the device reports, a turn settles only the request the reported head names; a head that names none is passed over and one out of range ends the loop. |
| BlockRuns.ReleaseRequestMeaning | Kernel/Source/Disk/VirtIOBlock.c:526-565 | Only a finished request can be released, and then its slot is free. |
| BlockSpec.PendingCount | Kernel/Source/Disk/VirtIOBlock.c:140-288 | The pending requests are as many as the outstanding heads, which AvailIndex - UsedIndex counts modulo 2^16, and never more than the ring has slots. |
| BlockRuns.RunInv | Kernel/Source/Disk/VirtIOBlock.c:140-565 | Over every run the descriptors are partitioned into the free list and the chains of pending requests, RequestByHead names a request exactly when it is pending with that head, and no ring slot in use is overwritten. |
| BlockDevices.BlockDevice.FindFree | Kernel/Source/Disk/VirtIOBlock.c:140-159 | The first free request of the pool. |
| BlockDevices.BlockDevice.SubmitRequest | Kernel/Source/Disk/VirtIOBlock.c:161-288 | Argument checks, request, chain, table slot and ring entry in the code's order, or a refusal that leaves ring and table slots alone. |
| BlockDevices.BlockDevice.ServiceOne | Kernel/Source/Disk/VirtIOBlock.c:433-491 | Pops one report, settles its request from the status byte, clears its table slot and frees its chain; says whether to go on. |
| BlockDevices.BlockDevice.ReleaseRequest | Kernel/Source/Disk/VirtIOBlock.c:526-565 | A finished request becomes free; any other is refused and unchanged. |
| UserDBSpec.NumberMeaning | Libraries/Source/UserDB/UserDB.c:60-82 | Accepts exactly the non-empty digit strings whose value fits 32 bits, and yields that value. |
| UserDBSpec.NumberDecimal | Libraries/Source/UserDB/UserDB.c:334-351 | Reading back a written number gives the number. |
| UserDBSpec.EntriesUnique | Libraries/Source/UserDB/UserDB.c:84-174 | A text has at most one meaning as a database. |
| UserDBSpec.ParseMeaning | Libraries/Source/UserDB/UserDB.c:84-174 | A line parses to an account exactly when it is name, user id, group id, salt and hash in this order between colons, the ids any numerals of 32-bit numbers, only root having id 0. |
| UserDBSpec.LineParses | Libraries/Source/UserDB/UserDB.c:84-174 | For all valid names, passwords and ids the line with both ids in decimal parses to just that account. |
| UserDBSpec.DatabaseMeaning | Libraries/Source/UserDB/UserDB.c:84-174 | A database is at most 128 accounts, exactly one of them root with both ids 0, and no name and no user id given twice. |
| UserDBSpec.LoadedMeaning | Libraries/Source/UserDB/UserDB.c:176-225 | The accounts loaded are exactly those some line of the text spells. |
| UserDBSpec.NewLineParses | Libraries/Source/UserDB/UserDB.c:366-473 | The line written for an account parses to that account. |
| UserDBSpec.FreeIdSoon | Libraries/Source/UserDB/UserDB.c:425-438 | The search for an id passes at most two ids an account. |
| UserDBSpec.AddMeaning | Libraries/Source/UserDB/UserDB.c:366-473 | The text written parses to the old records plus one with its own id. |
| UserDBSpec.RequiredTight | Libraries/Source/UserDB/UserDB.c:450-455 | The space asked for is that of the longest line an account of this name can have. |
| UserDBSpec.InitialMeaning | Libraries/Source/UserDB/UserDB.c:366-473 | The first account is root's. |
| UserDBSpec.DeleteMeaning | Libraries/Source/UserDB/UserDB.c:475-517 | Cutting a record's span out of the text takes exactly its account away. |
| UserDBSpec.DeleteAfterAdd | Libraries/Source/UserDB/UserDB.c:366-517 | Cutting out the line that was added leaves the original text up to a final newline. |
| UserDBSpec.AddThenCut | Libraries/Source/UserDB/UserDB.c:366-517 | The same for whatever text satisfies the contracts of adding and deleting. |
| UserDBSpec.AddedLoads | Libraries/Source/UserDB/UserDB.c:176-473 | Loading the text after an add succeeds and finds the old accounts and the new one. |
| UserDBSpec.CutLoads | Libraries/Source/UserDB/UserDB.c:176-517 | Loading it after a delete succeeds and finds the others, and the deleted name no more. |
| UserDatabase.UserDB.ValidateName | Libraries/Source/UserDB/UserDB.c:36-58 | Accepts exactly the names of 1 to 32 letters, digits, underscores and dashes that do not start with a digit. |
| UserDatabase.UserDB.ParseNumber | Libraries/Source/UserDB/UserDB.c:60-82 | The running value never leaves 32 bits. |
| UserDatabase.UserDB.WriteDecimal | Libraries/Source/UserDB/UserDB.c:334-351 | The digits, collected from the low end and turned around, denote the number. |
| UserDatabase.UserDB.CheckHex | Libraries/Source/UserDB/Codec.c:8-26 | Exactly the lower-case hexadecimal strings of the length. |
| UserDatabase.UserDB.ValidatePasswordFields | Libraries/Source/UserDB/Codec.c:28-33 | Salt and hash have the required lengths, prefix and digits. |
| UserDatabase.UserDB.ReadLine | Libraries/Source/UserDB/UserDB.c:84-174 | The line up to the newline, refused when too long or not printable. |
| UserDatabase.UserDB.SplitFields | Libraries/Source/UserDB/UserDB.c:84-174 | Cuts at colons, and refuses more than five fields. |
| UserDatabase.UserDB.ReadEntry | Libraries/Source/UserDB/UserDB.c:84-174 | The account a line describes, or none when a field is wrong. |
| UserDatabase.UserDB.Parse | Libraries/Source/UserDB/UserDB.c:84-174 | Accepts exactly the texts that are a database, and then the records are its accounts in order with the spans of their lines. |
| UserDatabase.UserDB.Load | Libraries/Source/UserDB/UserDB.c:176-225 | Missing, unreadable, unclosable, too large and invalid files are told apart. |
| UserDatabase.UserDB.FindId | Libraries/Source/UserDB/UserDB.c:425-438 | The least id from 1000 up that no account has as user or group, at most 1000 + 2*RecordCount. |
| UserDatabase.UserDB.Add | Libraries/Source/UserDB/UserDB.c:366-473 | The answer is exactly the one the file, its accounts and the arguments call for; on success the new text parses to the old records plus one with the least free id, and otherwise the file is left alone. |
| UserDatabase.UserDB.Delete | Libraries/Source/UserDB/UserDB.c:475-517 | The answer is exactly the one the file and its accounts call for, NOT_FOUND only for a name that has none; on success the new text parses to the old records minus that one, and otherwise the file is left alone. |
| UserDatabase.UserDB.CopyAccount | Libraries/Source/UserDB/UserDB.c:597-625 | Recovers the exact salt and hash of the record. |
| UserDatabase.UserDB.Lookup | Libraries/Source/UserDB/UserDB.c:627-665 | Finds an account exactly when the readable database has one of that name, and returns it whole; it is the only account of the name. |
| Elf.OneSegment | Kernel/Source/Exec/ELF64.c:296-321 | A page belongs to one segment only, and no segment reaches the stack. |
| Elf.Validate | Kernel/Source/Exec/ELF64.c:56-167 | Accepts exactly the executables and shared objects with valid load segments, at most one well-formed interpreter and dynamic entry each, and an entry point in an executable segment (a shared object may have none). |
| Elf.Check | Kernel/Source/Exec/ELF64.c:56-321 | Accepts exactly the executables whose segments are valid, in the user range, never writable and executable, disjoint, and few enough for the page limit. |
| Elf.LoadableMeaning | Kernel/Source/Exec/ELF64.c:56-321 | Accepted are exactly the executables that enter an executable segment and all of whose segments lie in the file, between the first page and the page below the stack, readable and never both writable and executable, no page in two of them and at most 262128 pages in all. |
| Elf.Execution.MapOwnedPage | Kernel/Source/Exec/ELF64.c:222-250 | A zeroed page is mapped unless the page limit is met, memory is out or the mapping is refused, and then the page goes back. |
| Elf.Execution.LoadPage | Kernel/Source/Exec/ELF64.c:340-361 | The page holds the file's bytes where the file part meets it and zeros elsewhere. |
| Elf.Execution.LoadSegments | Kernel/Source/Exec/ELF64.c:329-362 | Every page of every segment is mapped once; only memory can fail, so the page limit is never met. |
| Elf.Execution.LoadStack | Kernel/Source/Exec/ELF64.c:364-370 | Sixteen zeroed writable pages join the image, apart from every segment. |
| Elf.Execution.FillImage | Kernel/Source/Exec/ELF64.c:329-370 | Segments and stack together fail exactly when memory or mappings run out. |
| Elf.Execution.Release | Kernel/Source/Exec/ELF64.c:180-220 | Refused for a task that may still run and when space or task cannot be destroyed, with exactly what was done by then gone; otherwise the image is gone and every page is given back. |
| Elf.Execution.LoadImage | Kernel/Source/Exec/ELF64.c:254-411 | Success exactly for an acceptable file with memory and mappings for all its pages and the stack, and then the image is precisely that; a failed load keeps nothing as long as what it made can be destroyed, and loses no page. |
| Elf.LoadedBytes | Kernel/Source/Exec/ELF64.c:329-362 | A loaded program sees the file's byte for FileSize and zero from there to MemSize, in a page writable exactly with PF_W. |
| DnsSpec.AnyPacket | Kernel/Source/Network/DNS.c:9-88 | On any packet, looping pointers included, a name is at most 253 bytes, none zero or upper-case, and the message goes on behind where it began, inside Length. |
| DnsSpec.ItemMeaning | Kernel/Source/Network/DNS.c:9-88 | A label is a length of 1 to 63 and as many bytes, a pointer the two bytes of an earlier position, the end a zero; anything else is refused. |
| DnsSpec.PointerReads | Kernel/Source/Network/DNS.c:9-88 | A compression pointer reads as the name it points to and takes two bytes. |
| DnsSpec.RestReads | Kernel/Source/Network/DNS.c:9-88 | Decoding the encoding of the rest of a name in the middle of any message gives the rest of the name. |
| DnsSpec.EncodeMeaning | Kernel/Source/Network/DNS.c:173-207 | The encoder accepts exactly the names of 1 to 252 bytes whose labels between dots are all good, a closing dot allowed. |
| DnsSpec.RoundTrip | Kernel/Source/Network/DNS.c:9-218 | Reading the query's encoding of any accepted name gives it back lower-cased without a closing dot and stops right behind it. |
| DnsSpec.CompressedReads | Kernel/Source/Network/DNS.c:9-218 | A pointer to the encoding of any accepted name earlier in the message reads as that name and takes two bytes. |
| Dns.ReadNameInto | Kernel/Source/Network/DNS.c:9-88 | The loop with its step counter never leaves the packet or the 255-byte buffer and yields the specified name. |
| Dns.WriteLabel | Kernel/Source/Network/DNS.c:169-218 | One label behind its length; refused exactly when empty, too long, of other bytes or with a dash at its rim. |
| Dns.WriteName | Kernel/Source/Network/DNS.c:169-218 | The encoder writes the specified encoding behind the header, or refuses the name. |
| Calendar.YearStep | Kernel/Source/Timer/Clock.c:32-47 | The closed form for the days before a year grows by the year's length. |
| Calendar.Gregorian | Kernel/Source/Timer/Clock.c:32-47 | Any 400 years have 146097 days, the months begin on the days of the calendar, and 1900 and 2000 are told apart. |
| Calendar.SecondsUnique | Kernel/Source/Timer/Clock.c:49-80 | Different dates name different seconds. |
| Calendar.ToUnixTime | Kernel/Source/Timer/Clock.c:49-80 | Accepts exactly the valid dates from 1970 and yields the second they name. |
| Calendar.GetDateTime | Kernel/Source/Timer/Clock.c:204-274 | The loops find the date that names the second, for exactly the offsets and years in range. |
| Calendar.FindYear | LOSLibC/Source/Time/calendar.c:66-85 | The two year loops find the year a day lies in, before and after 1970. |
| Calendar.WeekdayIs | LOSLibC/Source/Time/calendar.c:39-64 | The truncating weekday formula is the day count modulo 7, for negative days too. |
| Calendar.GmTime | LOSLibC/Source/Time/calendar.c:34-116 | The fields are a valid date that names the timer's second, with the matching day of year and weekday; refused exactly outside years 0 to 9999. |
| Calendar.RoundTrip | LOSLibC/Source/Time/calendar.c:34-116 | Whatever gmtime_r and ClockGetDateTime return for the second of a date is that date. |
| Calendar.InRange | LOSLibC/Source/Time/calendar.c:34-116 | Every date from 1970 to 9999 names a second gmtime_r accepts. |
| Division.Raise | Kernel/Source/Runtime/Compiler.c:16-25 | Shifting stops at the largest multiple by a power of two that neither passes the dividend nor wraps at bit 127. |
| Division.LowerStep | Kernel/Source/Runtime/Compiler.c:27-40 | Each subtraction keeps dividend = quotient*divisor + rest and halves the bound on the rest. |
| Division.Divide | Kernel/Source/Runtime/Compiler.c:8-69 | For every non-zero divisor the quotient and the remainder are those of division; zero yields zero. |
| Division.Unique | Kernel/Source/Runtime/Compiler.c:8-69 | They are the only pair with a remainder below the divisor. |

## Left out

- Vmm.Tables.AllocTable: which of the low free pages the allocator gives is left open.
- Vmm.Tables.CreateAddressSpace: the page of the record is a parameter and is not taken from the free pages of the model.
- Vmm.Tables.MapAddressSpacePage: the guards on CR3, CR4 and the shootdown state, and the CPUID address width, are parameters; CR3 is the field `current`.
- Vmm.Tables.MapAddressSpacePage: an inherited table is taken not to be among the allocator's free pages, and bit 7 of a root entry, reserved by the processor, is ignored by walks as in the code.
- VMMInit, VMMMapPage and VMMUnmapPage: their table writes appear only as the stores of the shootdown model.
- VMMMapUserPages, VMMMapSharedPages, VMMSwitchAddressSpace, VMMListUserTable and VMMCopyUser are not modelled.
- Shootdown.ShootdownSafe: memory is sequentially consistent, and a handler running under a foreign CR3 or CR4 is the interrupt that does nothing.
- Scheduler: a task put on a wait queue gives up its processor before it can sleep for a time, and the idle tasks never sleep; a terminated or killed task may still become SLEEPING, as in the code.
- SchedulerTables.Scheduler.LBPWRRTick: asks that the last switch was completed, which the interrupt return does before the next tick; the step system orders the two.
- Scheduler: AddTask chooses its target outside the lock, so the step relation allows any processor.
- Scheduler: process ids, stacks as memory, usage samples, the load balancer's choice and the GDT and CR3 panics are not modelled; the cells of a run queue past its count and the `Modified` flag are never read and are absent.
- WaitQueues: the chunk update of a wake or finish is in the scheduler model, not in the wait-queue class; the pointer-event twins repeat the key functions and are not repeated.
- TcpSpec.InputTracks: packet lengths, checksums and the option list come decoded in the segment; a SYN refused for its options leaves PeerMSS alone here, while the code may write it before the next SYN does.
- TcpSpec.InputTracks: a segment is assumed to lie within 2^31 of ReceiveNext, which is what comparing sequence numbers needs.
- TcpSend: the loops of Send and Close are the events of the sender's run, the retransmission timer is a boolean, and whether the link takes a packet is a parameter.
- PortTables.Network.AllocatePort: the clock is read once per locked section; the code reads it at each comparison.
- PortTables: datagram rings and the configuration guards of Connect and Open are not modelled.
- PageAllocator: addresses are page numbers with firmware ranges page-aligned, the zeroing of pages is not shown, and an unaligned address given to KMemFreePages does not arise.
- KernelHeap.Heap.ExpandWith: what the page allocator returns is a parameter.
- KernelHeap.Heap.KFree: the caller passes the payload of a block of the heap, as the code assumes.
- VirtQueues: VirtQueueWaitUsed with its completion arrays, VirtQueuePostBuffer, notification and ring memory are left out; the device conforms, and a head just built is in use, so SubmitRequest's failed submission does not arise.
- BlockTransfer.ExecutedMeaning: the device reads the header as the request's kind and sector; its byte layout is not modelled.
- BlockDevices: the synchronous wrappers and the wait for completion are left out.
- UserDatabase.UserDB.Add: the replacement buffer is a string, publication of names and the clean-up after a failed write are left out, and the check against a second root never decides because a valid database has one.
- Elf.Execution.LoadImage: headers come decoded, with the identification fields and the table bounds as one flag and the permission bits beyond R, W and X as another; how many pages can be had and mapped are two counters, and whether the space, the task and its arguments can be made and destroyed are parameters.
- Dns: IPv4 literals, the exchange with the server and the CNAME loop are left out.
- Calendar.GetDateTime: the clock reading is a parameter; the fields gmtime_r sets to constants and NTP are left out.
- Division.Divide: models __udivti3 and __umodti3 as one loop with both results.
- Not modelled: DHCP, ARP and the checksums of Network.c, the TrueType rasteriser, file systems, system calls, drivers other than the block device, boot and the user interface.
