# Verified models of the lab repository

The repository holds several independent systems. This project models the parts of each that carry a
global property and proves it. Code that works by changing things step by step is modelled by classes,
methods and loops over the same fields; each is tied to a specification on values, about which the
properties are proved. Protocols are state machines over their steps.

- **Crash-safe log** (`LogDisk`, `LogCode`, `LogRuns`, `LogCalls`, `LogSimulation`): os/memory-assignment/log.c. `LogDisk`
  describes the block writes of a commit and of a recovery and what a crash between any two of them recovers
  to. `LogCode` is the code over a cache and a disk, with a journal of its block writes. `LogRuns` interleaves
  operations, disk writes and crashes, also during recovery. `LogCalls` tells from a list of calls alone what
  they commit; `LogSimulation` shows that the code takes the steps of `LogRuns` and does what `LogCalls` tells.
- **Copy-on-write fork** (`PageState`, `PrivateMemory`, `CowKernel`): kalloc.c, vm.c and the memory side of
  proc.c. `CowKernel.Kernel` is the code; `PrivateMemory` is the machine it refines, in which every process
  owns its pages; `PageState` holds the reference counts, the free list and the mappings. Runs start at boot.
- **Red-black tree** (`RedBlack`): dsa/rb/rb.cpp, nodes with parent pointers in the heap. The insert
  modelled is the one at line 50; the one at line 25 is an empty stub of the same name.
- **Storage allocator** (`Umalloc`): os/memory-assignment/umalloc.c over an array of header units.
- **Out-of-order core** (`Dataflow`, `LoadStore`, `Stages`, `OutOfOrder`): ChampSim/src/ooo_cpu.cc. Instructions and
  queue entries refer to each other by id and by slot. `Stages` says what each stage of a cycle does.
- **Game search** (`Notakto`): game_theory_algos/alpha_beta_pruning/q2.py, against plain minimax.
- **Processes and sleep locks** (`ProcTable`, `SleepRuns`): proc.c and sleeplock.c, interleaved under
  ptable.lock and each sleep lock's spin lock.
- **Buffer cache** (`BufferCache`), **file contents** (`FileSystem`), **pipes** (`Pipes`): bio.c, fs.c, pipe.c.
- **Folded history** (`FoldedHistories`): ChampSim/branch/tage_sc_l/tage_sc_l.cc, bit by bit.
- **Checksums and frames** (`FrameCodec`): networks/networks_lab3/generator.py and recording.py.

Parameters stand for what lies outside: the answer of sbrk, whether the cache takes a request and what it
returns, when a process is killed or scheduled, and where a crash happens.

## What turned out false

Seven expectations do not hold of the code; each is stated with its condition or a concrete run.

- The size panic of `log_write` can be reached with the log that mkfs.c:25 makes, because the header takes
  one of its blocks (`LogRuns.PanicFreeIff`, `LogRuns.PanickingRun`).
- sbrk(-sz) frees all pages, returns -1 and leaves the size as it was, after which a fork panics
  (`PrivateMemory.StaysFullIff`).
- `pipewrite` that finds the ring full and its process killed, or the read end closed, returns without waking
  readers that went to sleep when the ring was empty (`Pipes.LostWakeup`). `Pipes.Pipe.Write` says when, on the
  state before the call: there are sleeping readers, the process is killed or the read end closed, and there is
  room for some of the bytes but not for all.
- "A page is on the free list if and only if its count is 0" fails for the pages that main hands out before
  kinit2 turns counting on: the kernel's own page directory and tables and the other processors' stacks
  (`PageState.FreeIsCountZero`, `CowKernel.RunFromBoot`).
- malloc of more than 2^32 - 8 bytes wraps around and returns a block too small (`Umalloc.UnitsEnough`).
- The table of the memoised search does not record which player maximizes. It may be shared between two kinds
  of searches if and only if the same player maximizes in both (`Notakto.SharedTableIff`); a search with the
  other flag returns the other player's value (`Notakto.SearchTwice`).
- "Only a process that was killed is marked so": kill looks for the pid in unused slots as well, whose pid
  is 0 at first, and allocproc does not clear the mark, so after kill(0) the next process forked is born killed
  (`SleepRuns.BornKilled`). A step marks an unused slot exactly when it is such a kill, or a fork that fails
  after its child was killed (`SleepRuns.CleanIff`).

## Model

| member | source | states |
|---|---|---|
| LogRuns.CrashAtomicity | os/memory-assignment/log.c:68-122 | at every point of every interleaved run, with any number of crashes in commits and recoveries, the disk stands for a prefix of the committed transactions; when no commit or recovery is under way the home blocks hold exactly those |
| LogRuns.ReturnedSurvive | os/memory-assignment/log.c:145-174 | a transaction whose commit returned stays in that prefix through every later step, crashes included |
| LogRuns.LogReservation | os/memory-assignment/log.c:124-141 | in every run the logged blocks plus all unused reservations stay within LOGSIZE, no block is logged twice, and no operation is outstanding during a commit |
| LogRuns.PanicFreeIff | os/memory-assignment/log.c:213-233 | the panics of log_write are unreachable exactly when the log region is larger than LOGSIZE |
| LogRuns.PanickingRun | os/memory-assignment/mkfs.c:25 | with the region mkfs makes, LOGSIZE blocks with the header, a run of operations within their reservations reaches the panic |
| LogRuns.NeverStuck | os/memory-assignment/log.c:192-202 | a commit or recovery under way can always make its next write |
| LogRuns.StepInv | os/memory-assignment/log.c:124-233 | every step of begin_op, log_write, end_op, a disk write, and a crash keeps reservation and durability |
| LogDisk.CommitCrashPoint | os/memory-assignment/log.c:192-202 | a crash after k of the writes of a commit recovers to the old home blocks if k is at most n, and to the new ones otherwise; the header write is the commit point |
| LogDisk.RecoverCrashPoint | os/memory-assignment/log.c:115-122 | recovery is idempotent at every crash point, and when complete leaves an empty log |
| LogDisk.PartInstalled | os/memory-assignment/log.c:69-82 | installing a part of a transaction first does not change what installing all of it gives |
| LogCode.FsLog.Commit | os/memory-assignment/log.c:192-202 | commit issues exactly the write list whose crash points are proved, and leaves the log empty in memory |
| LogCode.FsLog.RecoverFromLog | os/memory-assignment/log.c:115-122 | recovery issues exactly the recovery write list, from any disk with a written header |
| LogCode.FsLog.LogWrite | os/memory-assignment/log.c:213-233 | the pending transaction absorbs or appends the block, the block is pinned, and the two panics are told apart from success |
| LogCode.FsLog.EndOp | os/memory-assignment/log.c:145-174 | the last operation out commits the pending transaction, the others only leave |
| LogCode.FsLog.WriteLog | os/memory-assignment/log.c:177-190 | the log region receives the cached contents of every logged block, in order |
| LogCode.FsLog.InstallTrans | os/memory-assignment/log.c:69-82 | every logged block goes from the log region to its home |
| LogCode.CommitHome | os/memory-assignment/log.c:192-202 | after all writes of a commit the home blocks are the old ones updated by the transaction |
| LogCode.RecoverHome | os/memory-assignment/log.c:115-122 | after all writes of a recovery the home blocks are the recovered ones |
| LogCode.AbsorbIsLogging | os/memory-assignment/log.c:223-229 | the slot search of log_write is absorption: a second write of a block replaces the first |
| LogSimulation.Serve | os/memory-assignment/log.c:115-233 | whatever calls are made to the code from any disk with a written header: the home blocks, the number of operations, whether log_write panics and how many blocks are written are those that LogCalls tells from the calls alone, and after a crash between any two block writes recovery gives the home blocks that it tells for that point; no panic if the log region is larger than LOGSIZE |
| LogCalls.CommittedBlock | os/memory-assignment/log.c:192-233 | once the calls are made, a home block holds the data of the last accepted log_write to it before the last committing end_op |
| LogCalls.UntouchedBlock | os/memory-assignment/log.c:192-233 | and what recovery gave if there is no such log_write or no such end_op |
| LogCalls.CrashPrefix | os/memory-assignment/log.c:115-122 | a crash after any number of block writes leaves the home blocks as the first n calls have committed them, for some n that takes in every call whose writes were all made |
| LogSimulation.Log | os/memory-assignment/log.c:213-233 | log_write takes the step of LogRuns, panic included |
| LogSimulation.End | os/memory-assignment/log.c:145-174 | end_op takes the steps of LogRuns, one for each block write of the commit; the history grows by the pending transaction exactly when the last operation is out |
| LogSimulation.TryBegin | os/memory-assignment/log.c:124-141 | begin_op goes ahead exactly when LogRuns lets it |
| LogSimulation.TraceWrites | os/memory-assignment/log.c:192-202 | the state after each block write of a commit or a recovery is a state of a run |
| LogSimulation.CrashPoints | os/memory-assignment/log.c:115-122 | at each of those states recovery gives the home blocks after the transactions durable then |
| CowKernel.Kernel.Serve | os/memory-assignment/vm.c:315-355 | any sequence of fork, store, load, sbrk, reaping and opening and closing pipes observes what processes with private, copied memories would; the reference counts are exact between requests; no request is refused for lack of memory before the requests so far can need more pages than were free |
| CowKernel.Kernel.constructor | os/memory-assignment/main.c:20-36 | after kinit1, the kernel's own page directory, the other processors' stacks, kinit2 and userinit, the counts are exact, exactly the pages handed out before kinit2 are reserved, and there is one process with one page |
| CowKernel.RunFromBoot | os/memory-assignment/main.c:20-36 | in every run from boot each load gives the byte stored last to that address, in that process or in the ancestor it was copied from, or the initial code, or 0; the free list holds exactly the pages that are neither handed out at boot, nor mapped, nor the kernel's; those handed out at boot have count 0 and are not on it; no fork panics before some sbrk(-sz); no memory is refused before the requests can need more than there is |
| CowKernel.FreeRange | os/memory-assignment/kalloc.c:59-66 | freerange puts the pages on the list, the last one first |
| CowKernel.BootOk | os/memory-assignment/kalloc.c:37-57 | the state after kinit2 satisfies the invariant |
| CowKernel.Kernel.UserInit | os/memory-assignment/proc.c:120-154 | userinit adds one process with one page of initial code and takes exactly the pages that needs |
| CowKernel.Kernel.InitUvm | os/memory-assignment/vm.c:182-193 | inituvm maps one page with the code and zeroes behind it |
| CowKernel.Kernel.OpenPipe | os/memory-assignment/pipe.c:31-32 | the page of a pipe comes from the free list and is no open pipe's; refused only when the free list is empty |
| CowKernel.Kernel.ClosePipe | os/memory-assignment/pipe.c:70-74 | the page of a closed pipe goes back, and no process sees a change |
| CowKernel.Kernel.CopyUvm | os/memory-assignment/vm.c:315-355 | copyuvm gives the child the parent's contents page by page, changes nobody's contents, takes exactly the pages and tables it needs, and undoes everything when there are fewer |
| CowKernel.Kernel.HandlePageFault | os/memory-assignment/vm.c:405-447 | the fault handler makes the page writable and private, and no process sees a change |
| CowKernel.Kernel.Fork | os/memory-assignment/proc.c:180-222 | fork is the eager copy of the private-memory machine, and fails only when fewer pages are free than the stack, the directory and the tables of the child need |
| CowKernel.Kernel.GrowProc | os/memory-assignment/proc.c:158-175 | growproc for every C int, as the private machine's resize; growing below KERNBASE fails exactly when the pages and missing page tables are more than are free |
| CowKernel.Kernel.Reap | os/memory-assignment/proc.c:272-312 | reaping a zombie returns its kernel stack and all its pages and touches no other process |
| CowKernel.Kernel.Store | os/memory-assignment/vm.c:405-447 | a user store, with its page fault, is the private machine's store at that address of that process, and fails only when the free list is empty |
| PrivateMemory.ReadAfterWrite | os/memory-assignment/vm.c:405-447 | a load after a store gives the byte stored if it is of the same address and process, and otherwise what it would have given before |
| PrivateMemory.StepByte | os/memory-assignment/vm.c:315-355 | one request, byte by byte: a store changes one byte of one process, the child of a fork has the parent's bytes, a new page is zero, and every other byte stays |
| PrivateMemory.ReadsHeld | os/memory-assignment/vm.c:405-447 | in every run a load gives the byte stored last, traced back through the forks that copied it and the sbrk that made the page |
| PrivateMemory.SbrkIs | os/memory-assignment/proc.c:158-175 | sbrk for every C int: the new size is the old one plus n, which pages come and go, and exactly when nothing changes |
| PrivateMemory.RoundUpIs | os/memory-assignment/vm.c:221-249 | a size takes in exactly the pages that start below it |
| CowKernel.FirstBytes | os/memory-assignment/vm.c:182-193 | the first process starts with the code's bytes from address 0 on, and zeroes behind them |
| CowKernel.KernelPdesAre | os/memory-assignment/vm.c:105-115 | the kernel part of a page directory is exactly the entries with an address of physical memory above KERNBASE or of a device |
| CowKernel.Kernel.AllocUvm | os/memory-assignment/vm.c:221-249 | allocuvm adds zeroed pages and takes exactly the pages and missing page tables; with fewer free it returns 0 and leaves the process as it was |
| CowKernel.Kernel.DeallocUvm | os/memory-assignment/vm.c:255-279 | deallocuvm takes exactly the pages from the new size on |
| CowKernel.Kernel.FreeVm | os/memory-assignment/vm.c:283-298 | freevm frees a directory with all its tables and pages, and nothing else |
| CowKernel.Kernel.SetupKvm | os/memory-assignment/vm.c:118-136 | a page directory with all kernel tables, or no trace of the attempt, and that only when fewer pages are free |
| CowKernel.Kernel.Mappages | os/memory-assignment/vm.c:60-80 | the caller's reference becomes the entry's; a missing page table is made first |
| CowKernel.Kernel.Kalloc | os/memory-assignment/kalloc.c:112-134 | a page from the free list with count 1, exact counts kept |
| CowKernel.Kernel.Kfree | os/memory-assignment/kalloc.c:72-107 | the negative-count panic is unreachable for a page in hand, and the page returns to the free list with its last reference |
| CowKernel.Kernel.IncrementRefCount | os/memory-assignment/kalloc.c:163-177 | one more reference in hand, and no panic for a mapped page |
| PageState.FreeListExact | os/memory-assignment/kalloc.c:99-106 | between system calls the free list holds each managed page that is neither mapped nor the kernel's once, and no other page |
| PageState.FreeIsCountZero | os/memory-assignment/kalloc.c:82-105 | that a page is free if and only if its count is 0 is right exactly for the pages that were not handed out before kinit2 |
| PageState.WritableCountOne | os/memory-assignment/vm.c:336-340 | a page mapped writable for user programs has reference count 1 |
| PageState.KfreeHeld | os/memory-assignment/kalloc.c:72-107 | dropping a reference keeps every count equal to mappings plus kernel owners plus references in hand |
| PageState.MapPage | os/memory-assignment/vm.c:60-80 | mapping a page in hand keeps all counts exact |
| PageState.UnmapPage | os/memory-assignment/vm.c:255-279 | unmapping gives the reference back to the caller |
| PageState.ProtectEntry | os/memory-assignment/vm.c:336-338 | taking the write permission away keeps counts and contents |
| PrivateMemory.Isolation | os/memory-assignment/vm.c:315-355 | a process that makes no request sees its memory unchanged over a whole run of the others |
| PrivateMemory.StaysFullIff | os/memory-assignment/proc.c:158-175 | every process keeps all the pages its size promises through every step except sbrk(-sz), which frees the pages, returns -1 and leaves the size |
| PrivateMemory.NoForkPanics | os/memory-assignment/vm.c:327-330 | in a run without such a request no fork finds a page missing |
| PrivateMemory.CopiedAt | os/memory-assignment/vm.c:326-349 | the eager copy, cell by cell: the child has the parent's cells and nobody else notices |
| PrivateMemory.GrownAt | os/memory-assignment/vm.c:221-249 | growing, cell by cell: zeroes in the new pages, everything else as before |
| CowKernel.NewTablesBound | os/memory-assignment/vm.c:241 | growing needs at most one page table for each group of 1024 pages it touches |
| RedBlack.RbTree.Insert | dsa/rb/rb.cpp:11-21 | the new node is in the tree in search order, after the keys equal to it, and the only fault is that it may have a red parent |
| RedBlack.RbTree.InsertAt | dsa/rb/rb.cpp:50-67 | the recursion hangs the node at the one leaf whose place all comparisons allow |
| RedBlack.RbTree.Fixup | dsa/rb/rb.cpp:124-161 | after fixup the pointer structure is a red-black tree with a black root and the same nodes and keys in the same order; the loop terminates |
| RedBlack.RbTree.UnderLeft | dsa/rb/rb.cpp:126-141 | one round under a left child: recolouring or rotations keep keys, nodes and repairability, and the node is nearer to the root |
| RedBlack.RbTree.UnderRight | dsa/rb/rb.cpp:142-158 | the mirror image |
| RedBlack.RbTree.RightRotate | dsa/rb/rb.cpp:84-100 | the rotation of the pointer structure is the rotation of the tree, parent pointers and root included |
| RedBlack.RbTree.LeftRotate | dsa/rb/rb.cpp:104-120 | the same for the other direction |
| RedBlack.Build | dsa/rb/rb.cpp:181-196 | the driver's loop yields a valid tree whose keys in order are a sorted permutation of the input |
| RedBlack.PlugBalanced | dsa/rb/rb.cpp:124-161 | a subtree of the right black height in repairable surroundings makes a whole red-black tree |
| RedBlack.UnplugBalanced | dsa/rb/rb.cpp:50-67 | every place in a red-black tree has such surroundings |
| RedBlack.PlugInorder | dsa/rb/rb.cpp:165-171 | the keys of a tree are those before a place, in the subtree, and after it |
| RedBlack.PointerRules | dsa/rb/rb.cpp:163-171 | what the fields show: children and parents point at each other, no red node has a red child, no child is on the wrong side |
| RedBlack.LogHeight | dsa/rb/rb.cpp:124-161 | a valid tree of n keys is at most 2 log2(n + 1) high |
| RedBlack.SearchTurn | dsa/rb/rb.cpp:52-66 | wherever the search turns, every key on the other side has been compared |
| Umalloc.Heap.Malloc | os/memory-assignment/umalloc.c:64-90 | the block is disjoint from every live block and has the computed size; it is the tail of the first free block behind freep that is long enough; null exactly when no free block fits and sbrk refuses; live memory is untouched; the search terminates |
| Umalloc.Heap.Free | os/memory-assignment/umalloc.c:25-44 | the block's units are free again, merged with both neighbours where they touch; freep is then the last free block that starts before it; live memory is untouched; the scan terminates |
| Umalloc.Heap.Morecore | os/memory-assignment/umalloc.c:47-61 | the list gains exactly the region sbrk granted and then has a block that fits |
| Umalloc.Heap.FindPlace | os/memory-assignment/umalloc.c:30-32 | the cyclic scan stops at the last free block before the returned one |
| Umalloc.Heap.LinkIn | os/memory-assignment/umalloc.c:33-42 | the two merges on memory are the two merges on the list |
| Umalloc.Heap.Take | os/memory-assignment/umalloc.c:75-84 | the exact fit unlinks a block, the other cuts its tail off |
| Umalloc.ReturnedList | os/memory-assignment/umalloc.c:33-42 | returning a block keeps the list address-ordered and fully coalesced, and adds exactly the block's units |
| Umalloc.ReturnedPlace | os/memory-assignment/umalloc.c:33-43 | behind the place where a block is returned, no free block starts before it |
| Umalloc.TakenList | os/memory-assignment/umalloc.c:75-84 | taking a block keeps it so, and the block is off the list |
| Umalloc.TakenUnits | os/memory-assignment/umalloc.c:75-84 | the units of the list and of the block taken are those of the list before |
| Umalloc.FreeApart | os/memory-assignment/umalloc.c:22 | no unit is both free and live |
| Umalloc.OneForm | os/memory-assignment/umalloc.c:25-44 | an address-ordered, fully coalesced list is determined by the units it covers |
| Umalloc.ListDetermined | os/memory-assignment/umalloc.c:25-90 | the free list is a function of what was granted and what is live, so freeing what was allocated since brings it back |
| Umalloc.UnitsEnough | os/memory-assignment/umalloc.c:69 | the units behind the header hold nbytes exactly when the 32-bit sum does not wrap, and exceed them by less than two headers |
| Umalloc.ScanStep | os/memory-assignment/umalloc.c:30-32 | each step of the scan that does not stop is nearer to the place |
| Umalloc.ScanEnds | os/memory-assignment/umalloc.c:74-88 | malloc's scan finds a block that fits, or has seen them all when it is back at freep |
| OutOfOrder.O3Cpu.Operate | ChampSim/src/ooo_cpu.cc:35-47 | a whole cycle, stage by stage in the order of the code: what each stage starts, completes, schedules, enters, issues and retires; the buffer afterwards is the old one without the retired instructions and with the dispatched ones, sources, destinations, loads and stores as they were; buffer, dependencies and queues stay consistent and no assertion in them fires |
| OutOfOrder.O3Cpu.ExecuteInstruction | ChampSim/src/ooo_cpu.cc:427-438 | an instruction starts only when, for each source register, the latest older instruction that writes it has completed; while there is bandwidth every due one starts, oldest first; its ready cycle and those of its loads and stores are the cycle plus the execution latency |
| OutOfOrder.O3Cpu.DoScheduling | ChampSim/src/ooo_cpu.cc:403-425 | sources are marked once per producer, destinations listed, and the dependency counts stay exact; the instruction alone becomes scheduled, ready after the scheduling latency |
| OutOfOrder.O3Cpu.ScheduleInstruction | ChampSim/src/ooo_cpu.cc:386-401 | exactly the instructions with fewer than SCHEDULER_SIZE older ones not started are scheduled besides those that were; so the oldest always is |
| OutOfOrder.O3Cpu.DoCompleteExecution | ChampSim/src/ooo_cpu.cc:581-603 | completion erases every mention in the producer lists and decrements each dependent once; neither assertion fires |
| OutOfOrder.O3Cpu.CompleteInflight | ChampSim/src/ooo_cpu.cc:605-617 | only started instructions that are due complete, when all their memory operations have, each with its event cycle; while there is bandwidth every such one does, oldest first; nothing but dependency counts changes besides |
| OutOfOrder.O3Cpu.EnterLoad | ChampSim/src/ooo_cpu.cc:463-489 | a load waits for the youngest older store to its address, or has its value if that store has finished |
| OutOfOrder.O3Cpu.MaxElement | ChampSim/src/ooo_cpu.cc:469-472 | the comparison, which is no ordering, still finds the youngest store to the address whenever there is one |
| OutOfOrder.O3Cpu.DoFinishStore | ChampSim/src/ooo_cpu.cc:539-551 | the store and all loads waiting for it finish, each once, and exactly their slots are freed |
| OutOfOrder.O3Cpu.OperateLsq | ChampSim/src/ooo_cpu.cc:500-537 | stores finish in order, only stores of retired instructions leave the queue, and exactly the due loads that wait for no store are issued, as many as the bandwidth allows |
| OutOfOrder.O3Cpu.HandleMemoryReturn | ChampSim/src/ooo_cpu.cc:648-662 | as many lines as the bandwidth allows are handled, and exactly the issued loads to them finish and leave |
| OutOfOrder.O3Cpu.RetireRob | ChampSim/src/ooo_cpu.cc:664-680 | the completed instructions at the head leave in order, as many as the width allows, and the others stay as they are |
| OutOfOrder.O3Cpu.Finish | ChampSim/src/ooo_cpu.cc:723-730 | the partition point finds the instruction and its count stays in bounds |
| OutOfOrder.O3Cpu.DispatchInstruction | ChampSim/src/ooo_cpu.cc:367-384 | the buffer is the old one followed by the first instructions of the dispatch buffer, each as it was there; their loads and stores are the new queue entries, one set of entries after the other; it stops only when the width is used up or the next instruction finds no room; capacities are never exceeded |
| OutOfOrder.O3Cpu.DispatchOne | ChampSim/src/ooo_cpu.cc:376-378 | one instruction moves from the front of the dispatch buffer to the end of the reorder buffer, with everything it has, and its memory operations enter the queues |
| OutOfOrder.O3Cpu.DoMemoryScheduling | ChampSim/src/ooo_cpu.cc:460-498 | each load takes a free slot, or is done at once if the youngest older store to its address has finished; each store joins the end of its queue |
| OutOfOrder.O3Cpu.DoExecution | ChampSim/src/ooo_cpu.cc:440-458 | the instruction is started and due after the execution latency, and so are its loads and stores; nothing else changes |
| OutOfOrder.O3Cpu.ExecutionStages | ChampSim/src/ooo_cpu.cc:39-42 | retiring, completing, starting and scheduling in this order, each from the state the one before has left; the instructions that stay keep their text |
| Dataflow.StartsAfterProducers | ChampSim/src/ooo_cpu.cc:427-438 | an unblocked scheduled instruction has every source's latest older producer completed |
| Dataflow.OldestNotBlocked | ChampSim/src/ooo_cpu.cc:427-438 | the oldest uncompleted instruction is never blocked on a register |
| Dataflow.NewDependent | ChampSim/src/ooo_cpu.cc:406-414 | comparing with the last dependent tells whether the instruction is listed already |
| Dataflow.Depended | ChampSim/src/ooo_cpu.cc:406-414 | listing a dependent keeps num_reg_dependent equal to the number of uncompleted producers that list the instruction |
| Dataflow.ToldOne | ChampSim/src/ooo_cpu.cc:593-599 | so does telling one dependent, whose count was positive |
| Dataflow.LastWriter | ChampSim/src/ooo_cpu.cc:406-414 | the last of a register's producers is its latest older writer if that has not completed, and does write the register |
| Dataflow.WriterRemoved | ChampSim/src/ooo_cpu.cc:583-589 | one erasure takes one mention of the instruction from the register's list |
| LoadStore.LoadFinished | ChampSim/src/ooo_cpu.cc:541-551 | finishing a load moves one operation of its instruction to the completed ones, and completed plus queued operations stay num_mem_ops |
| LoadStore.StoreFinished | ChampSim/src/ooo_cpu.cc:539-551 | the same for the first unfinished store |
| LoadStore.LoadEntered | ChampSim/src/ooo_cpu.cc:463-489 | the same for a load that takes a slot |
| LoadStore.InstrRetired | ChampSim/src/ooo_cpu.cc:664-680 | a completed instruction has nothing left in the queues |
| LoadStore.OldStoreFinished | ChampSim/src/ooo_cpu.cc:503-519 | a store older than the whole buffer has finished |
| Notakto.Search.AlphaBeta | game_theory_algos/alpha_beta_pruning/q2.py:219-262 | above alpha the result is a lower bound of the minimax value and below beta an upper bound, for any window and any number of boards; the search terminates |
| Notakto.WindowResult | game_theory_algos/alpha_beta_pruning/q2.py:219-262 | so inside the window the result is exact, at or below alpha it is an upper bound, at or above beta a lower bound |
| Notakto.Search.Solve | game_theory_algos/alpha_beta_pruning/q2.py:310-313 | with the full window alpha-beta returns the minimax value |
| Notakto.Search.MaxMin | game_theory_algos/alpha_beta_pruning/q2.py:265-307 | the search with the table returns the minimax value and keeps every table entry correct, if the flag goes with the parity of the history as the table's entries do; a position in the table is answered from it whatever the flag |
| Notakto.FlagMatters | game_theory_algos/alpha_beta_pruning/q2.py:276-279 | the flag is not part of the key, and it matters: one board with both values |
| Notakto.SharedTableIff | game_theory_algos/alpha_beta_pruning/q2.py:265-307 | every table that is right for searches with one flag is right for searches with another if and only if the same player maximizes |
| Notakto.SearchTwice | game_theory_algos/alpha_beta_pruning/q2.py:265-307 | a second search with the other flag and the same table returns what the first one found, which for one board is the other player's value |
| Notakto.SameKey | game_theory_algos/alpha_beta_pruning/q2.py:155-159 | two legal histories with the same board string have the same boards, the same player to move and the same value |
| Notakto.TableExtended | game_theory_algos/alpha_beta_pruning/q2.py:294 | a new entry is right for every legal history with that key |
| Notakto.MoveOrder | game_theory_algos/alpha_beta_pruning/q2.py:173-193 | the value does not depend on the order of the moves |
| Notakto.OrderedPermutes | game_theory_algos/alpha_beta_pruning/q2.py:173-193 | centers, corners, edges: a permutation of the valid actions |
| Notakto.MoveExists | game_theory_algos/alpha_beta_pruning/q2.py:161-172 | as long as a board is active there is a valid action |
| Notakto.Decided | game_theory_algos/alpha_beta_pruning/q2.py:202-210 | the value of every position is 1 or -1 |
| Notakto.History.GetValidActions | game_theory_algos/alpha_beta_pruning/q2.py:166-193 | exactly the empty cells of active boards; centers before corners before edges, and by number within them |
| Notakto.History.GetBoards | game_theory_algos/alpha_beta_pruning/q2.py:73-99 | the boards are those of the history played out: a cell is marked exactly when it is in the history |
| Notakto.IsBoardWin | game_theory_algos/alpha_beta_pruning/q2.py:129-142 | true exactly when three marked cells share a row, share a column, or lie on one of the diagonals |
| Notakto.WonLines | game_theory_algos/alpha_beta_pruning/q2.py:129-142 | a board is won exactly when three of its marked cells share a row, share a column, or lie on one of the diagonals |
| Notakto.ValueTellsWinner | game_theory_algos/alpha_beta_pruning/q2.py:202-262 | the minimax value is 1 exactly when player 1 can force the other one to make the last line |
| Notakto.ActionsAre | game_theory_algos/alpha_beta_pruning/q2.py:161-193 | the valid actions are the empty cells of boards without a line, each once, centers before corners before edges and by number within them |
| Notakto.MovesCounted | game_theory_algos/alpha_beta_pruning/q2.py:144-153 | the number of moves can be read off the boards of a legal history |
| SleepRuns.NoLostWakeup | os/memory-assignment/proc.c:417-475 | in every interleaving a process asleep in wait has no zombie child, and one asleep on a sleep lock whose spin lock is free waits for a held lock |
| SleepRuns.LiveParent | os/memory-assignment/proc.c:228-268 | every started process but init has a live parent |
| SleepRuns.HoldingSleepExact | os/memory-assignment/sleeplock.c:44-53 | locked with the caller's pid holds exactly for the one process that owns the lock |
| SleepRuns.MutualExclusion | os/memory-assignment/sleeplock.c:22-32 | acquiresleep goes to sleep rather than take a lock that has an owner |
| SleepRuns.StepKeeps | os/memory-assignment/proc.c:180-499 | every step of fork, exit, wait, kill, sleep, wakeup, acquiresleep and releasesleep keeps the invariant |
| SleepRuns.GoLockPcOther | os/memory-assignment/sleeplock.c:22-42 | whoever has tested the lock and is on its way to sleep still has a locked lock or a waker to come |
| SleepRuns.ExitWakes | os/memory-assignment/proc.c:250-267 | exit leaves no zombie whose parent sleeps in wait, orphans handed to init included |
| SleepRuns.MarkStep | os/memory-assignment/proc.c:479-497 | in one step the killed flag of a slot is set by kill and cleared by reaping alone |
| SleepRuns.KilledUntilReaped | os/memory-assignment/proc.c:479-497 | over a whole run a process once killed stays marked until its slot is reaped |
| SleepRuns.KilledNeverWaits | os/memory-assignment/proc.c:303-310 | a killed process does not go to sleep in wait |
| SleepRuns.CleanIff | os/memory-assignment/proc.c:74-91 | a step leaves every unused slot unmarked, if all were before, except exactly a kill that finds an unused slot first and a fork that fails after its child was killed |
| SleepRuns.BornKilled | os/memory-assignment/proc.c:479-497 | a run in which kill(0) marks an unused slot and the next process forked is killed from the start |
| ProcTable.Table.Exit | os/memory-assignment/proc.c:250-267 | the loop of exit, slot by slot: parent woken, children to init, init woken for zombies |
| ProcTable.Table.WaitRound | os/memory-assignment/proc.c:278-311 | one round of wait reaps the first zombie child, fails, or sleeps |
| ProcTable.Table.Kill | os/memory-assignment/proc.c:479-497 | true exactly when some slot has the pid; the first such slot then is marked killed, made runnable if it slept, and otherwise as it was; no other slot changes |
| ProcTable.Table.AllocProc | os/memory-assignment/proc.c:74-91 | the first unused slot becomes an embryo with the next pid |
| ProcTable.Table.Wakeup1 | os/memory-assignment/proc.c:457-464 | exactly the sleepers on the channel become runnable |
| ProcTable.KilledIs | os/memory-assignment/proc.c:479-497 | what kill does, field by field |
| ProcTable.ExitedIs | os/memory-assignment/proc.c:250-267 | what exit does, slot by slot and field by field: who becomes a zombie, who is handed to init, who is woken |
| ProcTable.RoundIs | os/memory-assignment/proc.c:278-311 | what a round of wait comes to: it reaps the first zombie child and empties its slot, fails exactly when there is no child or the process is killed, and sleeps otherwise |
| ProcTable.WokenIs | os/memory-assignment/proc.c:457-464 | what a wakeup does, slot by slot |
| ProcTable.AllocatedIs | os/memory-assignment/proc.c:74-91 | which slot allocproc takes and what it writes there |
| BufferCache.Cache.Bget | os/memory-assignment/bio.c:60-93 | the cached buffer, or among those neither referenced nor pinned the one whose last release is the longest ago; no other buffer changes; the panic comes exactly when there is none |
| BufferCache.Cache.Fill | os/memory-assignment/bio.c:96-106 | bread gives what was last written or logged to the block |
| BufferCache.Cache.Brelse | os/memory-assignment/bio.c:120-141 | the last release moves the buffer to the front and loses none, so that the list is always in the order of last release |
| BufferCache.Cache.Bwrite | os/memory-assignment/bio.c:109-116 | the disk and the latest contents are the buffer's data |
| BufferCache.Cache.LogWrite | os/memory-assignment/log.c:231 | a logged buffer is pinned, and its data are the latest contents |
| BufferCache.Cache.constructor | os/memory-assignment/bio.c:38-56 | binit links all NBUF buffers into one cycle |
| BufferCache.Unlink | os/memory-assignment/bio.c:132-133 | taking a buffer out leaves a doubly linked cycle of the others |
| BufferCache.LinkFront | os/memory-assignment/bio.c:134-137 | putting one in front gives a doubly linked cycle again |
| BufferCache.NotLost | os/memory-assignment/bio.c:78-82 | a block whose latest contents are not on disk has them in a dirty buffer |
| FileSystem.Fs.Writei | os/memory-assignment/fs.c:481-511 | the file's bytes are the old ones with the new ones in place, all other files are as before, and -1 is returned in exactly the cases of the code; a panic means that the write was within bounds and every block is in use |
| FileSystem.Fs.Readi | os/memory-assignment/fs.c:452-476 | the bytes of the file from the offset on, as far as it goes; nothing changes, so readi never allocates |
| FileSystem.WriteRead | os/memory-assignment/fs.c:452-511 | what writei wrote readi returns, and the rest is as it was |
| FileSystem.Fs.Itrunc | os/memory-assignment/fs.c:407-435 | exactly the inode's blocks are freed, indirect ones included, and the other files are as before; bfree's panic is unreachable |
| FileSystem.Fs.Bmap | os/memory-assignment/fs.c:372-400 | the block of that part of the file, allocated on first use, without disturbing any other place or any contents; none only beyond the largest file or when every block is in use |
| FileSystem.Fs.Balloc | os/memory-assignment/fs.c:56-78 | the first block not in use, marked and zeroed |
| FileSystem.OnePlace | os/memory-assignment/fs.c:97-100 | an allocated block is in one place of one inode |
| FileSystem.RecordedExtends | os/memory-assignment/fs.c:378-394 | a new block in an empty place keeps ownership exact and all contents |
| FileSystem.DataWritten | os/memory-assignment/fs.c:498-504 | writing a data block changes those bytes of that file alone |
| FileSystem.FreedExactly | os/memory-assignment/fs.c:407-435 | what itrunc frees are the blocks in the inode's places and no others |
| FileSystem.WordSet | os/memory-assignment/fs.c:390-393 | setting an entry of the indirect block leaves the other entries |
| Pipes.Pipe.Write | os/memory-assignment/pipe.c:78-98 | the bytes accepted grow by what was written; the call returns in full exactly when the bytes fit, and fails exactly when they do not and the process is killed or the read end closed; sleeping readers are passed over exactly when it fails after some bytes have fitted |
| Pipes.Pipe.Read | os/memory-assignment/pipe.c:100-121 | the bytes delivered are always the next ones accepted; it fails exactly when the ring is empty, the writer open and the process killed, and sleeps exactly when only the last is not so; for n > 0 a zero-length read means that the writer has closed and the ring is drained |
| Pipes.Pipe.Close | os/memory-assignment/pipe.c:59-75 | closing an end wakes the sleepers of the other, and the pipe is freed when both are closed |
| Pipes.RingTests | os/memory-assignment/pipe.c:85 | the tests for a full and an empty ring are right also when a counter has wrapped around at 32 bits |
| Pipes.Pushed | os/memory-assignment/pipe.c:93 | a byte stored in the ring is the last of the queue |
| Pipes.Popped | os/memory-assignment/pipe.c:116 | a byte taken is the first |
| Pipes.LostWakeup | os/memory-assignment/pipe.c:86-88 | a run in which a wakeup is lost: a writer killed while it fills the pipe returns without waking the reader |
| FoldedHistories.FoldedHistory.Update | ChampSim/branch/tage_sc_l/tage_sc_l.cc:177-183 | after an update each bit of comp is the exclusive or of the last OLENGTH outcomes whose age is that bit modulo CLENGTH |
| FoldedHistories.Predictor.HistoryUpdate | ChampSim/branch/tage_sc_l/tage_sc_l.cc:968-983 | after any number of outcomes that holds for every register, across the wraparound of the ring |
| FoldedHistories.FoldTurns | ChampSim/branch/tage_sc_l/tage_sc_l.cc:177-183 | one more outcome turns the direct fold by one place, with one bit in and one out |
| FoldedHistories.RingPushed | ChampSim/branch/tage_sc_l/tage_sc_l.cc:974-975 | the ring holds the last 4096 outcomes, also for negative positions |
| FoldedHistories.Turned | ChampSim/branch/tage_sc_l/tage_sc_l.cc:179-182 | the four assignments are that turn within CLENGTH bits |
| FoldedHistories.FoldIsParity | ChampSim/branch/tage_sc_l/tage_sc_l.cc:177-183 | a bit of the direct fold is the parity of the number of taken outcomes among those of its ages |
| FoldedHistories.PushedAt | ChampSim/branch/tage_sc_l/tage_sc_l.cc:968-975 | the outcomes enter oldest first, and the earlier ones move up in age by their number |
| FrameCodec.RemainderZeroIff | networks/networks_lab3/generator.py:39-55 | the remainder is zero exactly for multiples of the divisor with a leading 1, so an error goes unseen exactly when it is one |
| FrameCodec.DivisionIdentity | networks/networks_lab3/generator.py:39-55 | the dividend is the quotient times that divisor plus the remainder |
| FrameCodec.RemainderLinear | networks/networks_lab3/generator.py:39-55 | the remainder of an exclusive or is the exclusive or of the remainders |
| FrameCodec.EncodedDivides | networks/networks_lab3/generator.py:58-62 | every nonempty message is encoded to itself followed by a checksum, with remainder zero |
| FrameCodec.BurstDetected | networks/networks_lab3/recording.py:235 | a codeword hit by any nonzero burst of at most 11 bits is reported |
| FrameCodec.BurstSeen | networks/networks_lab3/generator.py:39-55 | for any divisor that ends in 1, a burst no longer than the checksum leaves a nonzero remainder |
| FrameCodec.RoundTripIff | networks/networks_lab3/recording.py:214-228 | the receiver recovers addresses and payload exactly when the addresses fit in two bits and the payload length plus 4 in five |
| FrameCodec.MessageArrives | networks/networks_lab3/recording.py:214-238 | a message of up to 16 bits goes through checksum, frame and separators and is not reported as damaged |
| FrameCodec.BinaryValue | networks/networks_lab3/generator.py:15-25 | the bit string has the number's value, and its length is the field's exactly when the number fits |
| FrameCodec.Mod2Div | networks/networks_lab3/generator.py:39-55 | the loop computes the remainder, and fails on an empty dividend |
| FrameCodec.DecToBitstring | networks/networks_lab3/generator.py:15-25 | the loop yields the binary form filled with zeros |
| FrameCodec.StrToDec | networks/networks_lab3/recording.py:30-36 | the value of the last characters, or an index error |
| FrameCodec.GetInfo | networks/networks_lab3/recording.py:214-238 | the fields behind the first end of a preamble, or an index error |
| FrameCodec.CleanedSpaced | networks/networks_lab3/generator.py:87-92 | removing the separators undoes adding them |
| FrameCodec.SpacedAt | networks/networks_lab3/generator.py:87-92 | every second character on the line is a separator, and the bits are between them in order |
| FrameCodec.FrameLayout | networks/networks_lab3/generator.py:65-84 | the frame field by field: alternating bits, their end, length, sender, destination, payload |
| FrameCodec.DamageReported | networks/networks_lab3/recording.py:214-238 | a message of up to 16 bits whose payload is hit by a burst of at most 11 bits is reported as damaged |
| FrameCodec.SyncFound | networks/networks_lab3/recording.py:218-222 | the end of the preamble is found at its place |

## Left out

- CowKernel.Kernel.Serve: each system call and each user access is one step; the kernel's own writes to user pages (exec, copyout) are not modelled; sizes stay within KERNBASE; a TLB flush always takes effect.
- CowKernel.Kernel.SetupKvm: the contents of the kernel's page-table entries are not modelled, only the pages that hold them.
- CowKernel.Kernel.HandlePageFault: running out of memory is the panic it is in the code, a terminal step.
- CowKernel.Kernel.constructor: the pages below 4 MB are enough for the kernel's own directory and the stacks of the other processors, which the code takes for granted.
- CowKernel.Kernel.UserInit: main calls it once, right after kinit2; what it does with too few free pages, a panic or an unchecked null pointer, is not modelled, and the constructor shows that there are enough.
- CowKernel.Kernel.OpenPipe: the file table and the contents of the page; the ring in it is in Pipes.
- LogSimulation.Serve: calls come one after the other; calls that overlap a commit are in LogRuns.
- LogRuns.CrashAtomicity: a block write is atomic, the disk starts with a header that write_head wrote, and each operation makes at most MAXOPBLOCKS log_write calls.
- LogCode.FsLog.Bread: the buffers are a map here; the list they live on is in BufferCache.
- Umalloc.Heap.Malloc: what sbrk makes of an increment of 2^31 bytes or more, which it takes for a negative one, is not modelled: sbrk grants only smaller ones.
- OutOfOrder.O3Cpu.Operate: the front end, branch handling and statistics; what the front end hands over is any sequence of new instructions with rising ids. Ids do not wrap around at 64 bits.
- OutOfOrder.O3Cpu.HandleMemoryReturn: the instruction side of the same function (lines 623-646) is front end.
- Notakto.History.GetValidActions: the three filtering loops are one method called three times. Negative cell numbers are not in any history.
- SleepRuns.NoLostWakeup: process ids do not wrap around; the resources that fork, exit and wait handle besides the table are in CowKernel; other channels than wait and sleep locks are in Pipes.
- SleepRuns.MutualExclusion: a process releases only sleep locks it owns and exits without owning any, as the callers in the repository see to.
- BufferCache.Cache.Bget: the wait for a buffer's sleep lock is in SleepRuns; blocks beyond the disk and device 0 are not asked for.
- FileSystem.Fs.Writei: device inodes, directories, the on-disk copy of an inode (iupdate) and the packing of the free map into blocks. Running out of blocks is a panic, after which nothing is promised.
- FileSystem.Fs.Balloc: the order of the bitmap blocks is kept, their place on disk is not.
- Pipes.Pipe.Write: file reference counts; the page of the pipe is in CowKernel.
- FoldedHistories.FoldedHistory.Update: CLENGTH up to 30, for which the code's shift of a signed one is defined; history lengths below the ring's size. The pointer into the ring is an unbounded integer.
- FrameCodec.GetInfo: recording and playing sound; what was heard holds only 0, 1 and x.
- RedBlack.Build: printing, and the limit of 10000 numbers, which the tree does not need.
- exec, file descriptors, directories, the console and the device part of booting: no property here needs them.
- ChampSim's caches, replacement policies and predictors other than the folded history: their code does not keep the obvious invariants or is statistical.
- Sorting, searching and queue exercises: they would only add easy members.
