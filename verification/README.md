# A verified model of the PandoraOS kernel's memory and storage stacks

PandoraOS is a small 32-bit x86 kernel.  This project models its two layered stacks and the queues
and parsers beside them, and proves what they are for:

- **Memory.**  The first-fit block heap (`HeapTable`, `Heap`, `FirstFit`), the kernel heap with the
  two-level page tables built out of its pages (`PageTables`, `Paging`, `PagingRuns`, `KernelMemory`,
  `AddressSpace`), and processes: their allocation records (`ProcessState`, `ProcessMemory`,
  `ProcessGrants`), how they come and go (`ProcessLife`, `ProcessBirth`, `ProcessLoad`, `ProcessEnd`), the
  task list that lies in their memory (`TaskLinks`, `TaskOrder`), stores into memory (`ProcessStores`), and the
  process table itself (`ProcessRecord`, `ProcessAssembly`, `ProcessFootprint`, `Processes`,
  `ArgumentVector`).  The global invariant says that the bytes of the heap table, the pages of every
  address space and the records of every process agree.  A run is any interleaving of calls from the
  empty heap; `ProcessRuns` proves that all its states are consistent if and only if no call writes a
  link of the task list where that does harm, `OrderlyRuns` that none does as long as processes end in
  the reverse order of their loading, and every operation of the process table is shown to be a part of
  such a run.  `ElfLoader` and `ElfMapping` put ELF images on top, and `ProcessIsolation` and
  `ProgramIsolation` prove when no process can write what is not its own.
- **Storage.**  A disk as a byte stream (`DiskStream`), and the FAT16 driver on it: the first sector
  (`FatBoot`), layout (`FatLayout`), cluster chains and what a read delivers (`FatChain`), the driver's methods
  (`FatFiles`), directory entries and their names (`FatItems`), directories and paths (`FatDirectory`).
- **Parsers and queues.**  The path parser over the kernel heap (`PathText`, `PathParser`), the
  command line with its tokenizer that remembers its place (`Tokens`, `CommandLine`), the linked lists
  of strings that both build (`StringLists`), the task list and the clock tick (`Tasks`, `TaskList`),
  the keyboard ring (`Keyboard`), decimal text (`Itoa`), C strings (`CStrings`).

## How it is built

What the source rewrites in place is a class or an array with methods that rewrite it: the heap
table, physical memory, the process records, streams and buffers, linked lists, the ring.  Each
method's `ensures` equates the new state with a function of the old one, or says outright what it
leaves; lemmas prove what those functions are for.  Physical memory is one array of 32-bit words in
which page tables lie at their addresses, so that a mapping error would show as a write to somebody
else's page.  Addresses are naturals below 2^32 and the arithmetic that wraps in the source wraps
here.  Ghost maps say which heap blocks are live and whose they are; `LiveUnique` shows that they add
nothing that the bytes of the table do not already determine.

Where the code does not do what its documentation or a standard promises, the code is modelled as it
is, a lemma or a method gives an input that shows the difference, and a contract says exactly when there is none:

- the heap scan may return a trailing run that is too short (`ShortTailIsReturned`, `ScanFitsIff`), and
  a request for no bytes is granted a block that stays free; a granted request keeps heap, page tables
  and records consistent exactly when it is neither (`GrantKeepsInvIff`), and a kernel free exactly when
  its block is not part of what a process has, nor inside an allocation (`KernelFreeKeepsInvIff`);
- a read from the middle of a cluster runs over the end of the cluster into its neighbour on the disk
  (`MisalignedReadIsWrong`, `ReadsHomeIff`);
- most of the standard's end-of-chain marks are followed as if they were clusters
  (`EndMarkIsFollowed`, `ChainIsStandardIff`);
- the standard's layout formulas hold for 512-byte sectors only (`LargeSectorsMisplaced`, `StandardIff`);
- deleted directory entries are skipped in counting but not in indexing (`DeletedHidesLast`, `SeesLiveIff`);
- `task_list_remove` leaves the next task's `prev` behind, so that a later removal goes wrong, whether
  its neighbour was removed before it or a new task got the block of one that was
  (`RemoveNeighbours`, `RemoveAfterReuse`, `TaskList.Scheduler.Remove`);
- after an exception the next task loses its turn (`LoseTurn`, `TaskList.Scheduler.HandleException`);
- the keyboard ring has no full or empty check in push and backspace (`BackspaceOnEmptyLoses`,
  `PushKeepsIff`, `BackspaceKeepsIff`);
- `task_list_remove` writes through a `prev` that may name a block freed long ago and in use again: a
  termination keeps everything consistent, and the words of the other processes as they were, exactly
  when that write does no harm where it lands (`LinkKeepsInvIff`, `TerminationIff`); in one run it makes
  the task of a process an entry of that process's page directory (`StaleLinks.BreaksDirectory`), in
  another it overwrites memory a process was given (`StaleLinks.OverwritesMemory`); `task_new` writes
  through `task_tail` in the same way (`EnlistKeepsInvIff`, `Processes.ProcessTable.Register`);
- a successful `fopen` never gives back the path it parsed, and a flat binary is opened twice: a load that
  fails leaves exactly these blocks behind, and the heap table is as before if and only if no file was
  opened (`RestoredIff`, `Processes.ProcessTable.Load`, `KeptPaths.FailsAndKeeps`);
- an ELF image has the blocks of its file, but p_memsz bytes of it are mapped: a process can write other
  blocks than its own exactly when a writable segment goes past the image's blocks (`ElfConfinedIff`,
  `ZeroPagesEscape`, `WideImages.WritesBehindImage`);
- segments whose address and image offset differ modulo 4096 are mapped a part of a page off
  (`IncongruentMisses`, `TranslatesIff`);
- the loader's lowest address forgets what came before a segment at address zero (`BaseForgotten`,
  `BaseIsLeastIff`);
- an allocation refused in the middle of a command leaves the tokenizer's place behind
  (`LeaveThePlace`, `CommandLine.ParseCommand`).

## Model

| member | source | states |
|---|---|---|
| HeapTable.ScanFitsIff | src/memory/heap/heap.c:76-110 | the block the scan returns starts a run that fits the table exactly when a long enough free run exists or nothing was asked for, and then the run is free |
| HeapTable.ShortTailIsReturned | src/memory/heap/heap.c:104-109 | a table of one free block answers a request for two blocks with block 0 although no such run exists |
| HeapTable.LiveDisjoint | src/memory/heap/heap.c:117-136 | two live allocations never share a block |
| HeapTable.RunBytes | src/memory/heap/heap.h:8-12 | the bytes of an allocation: 0x41 for one block; else 0xC1, then 0x81, and 0x01 for the last |
| HeapTable.LiveUnique | src/memory/heap/heap.c:117-170 | the bytes of a table determine the allocations it stands for |
| HeapTable.TableUnique | src/memory/heap/heap.c:117-170 | the allocations determine every byte of the table |
| HeapTable.MarkTakenRepresents | src/memory/heap/heap.c:117-136 | marking a free run keeps the table a partition into free blocks and well-formed runs, and adds one allocation disjoint from all others |
| HeapTable.MarkFreeRepresents | src/memory/heap/heap.c:158-170 | clearing from a live start removes exactly that allocation from the partition |
| HeapTable.MallocFreeRestores | src/memory/heap/heap.c:138-187 | freeing what was just allocated gives back the identical table |
| HeapTable.FreeKeepsTableIff | src/memory/heap/heap.c:158-187 | a free leaves a well-formed table if and only if its block is not inside an allocation |
| HeapTable.MallocKeepsTableIff | src/memory/heap/heap.c:138-182 | an allocation leaves a well-formed table if and only if a long enough run was free |
| HeapTable.MallocClaimsIff | src/memory/heap/heap.c:138-182 | a request that finds a block changes the table if and only if it is for at least one block |
| HeapTable.BlocksIsCeiling | src/memory/heap/heap.c:58-69 | a request asks for the ceiling of size/4096 blocks, and for none exactly when it is for 0 bytes or within 4095 of 2^32 |
| HeapTable.AddressRoundTrip | src/memory/heap/heap.c:112-115 | address to block inverts block to address |
| HeapTable.RunRepresents | src/memory/heap/heap.c:138-187 | through any interleaving of permitted allocations and frees the bytes stay in step with the map of live allocations |
| Heap.BlockHeap.Create | src/memory/heap/heap.c:29-56 | refuses unaligned bounds or a table of the wrong length without touching the table, and otherwise leaves a table of no allocations |
| Heap.BlockHeap.GetStartBlock | src/memory/heap/heap.c:76-110 | returns the least start of a long enough free run, else the start of the trailing free run, else -ENOMEM |
| Heap.BlockHeap.MarkBlocksTaken | src/memory/heap/heap.c:117-136 | writes the run's flags and nothing else, past the end of the table too |
| Heap.BlockHeap.MarkBlocksFree | src/memory/heap/heap.c:158-170 | clears up to and including the first block without HAS_NEXT, and nothing outside the table |
| Heap.BlockHeap.Malloc | src/memory/heap/heap.c:138-182 | null and no change when the scan fails, else the address of the block found, which is now marked |
| Heap.BlockHeap.FreeBlock | src/memory/heap/heap.c:172-187 | for any pointer, clears the run at its block number |
| KernelMemory.Kernel.constructor | src/memory/heap/kheap.c:10-23 | the kernel heap starts as 25600 free blocks at 0x01000000 |
| KernelMemory.HeapIsBelowNarrowMask | src/config.h:9-11 | every heap page lies below 2^28, and block and address conversions agree there |
| KernelMemory.HeapRange | src/config.h:9-11 | the heap is 100 MiB of 4096-byte blocks from 0x01000000 |
| KernelMemory.ZeroedPages | src/memory/heap/kheap.c:31-42 | zeroing an allocation changes no page outside its blocks |
| KernelMemory.ZeroedBytes | src/memory/memory.c:3-11 | what the word-wise description of zeroing comes to, byte by byte |
| KernelMemory.Kernel.Kmalloc | src/memory/heap/kheap.c:25-28 | the table still encodes the live map, with one more allocation or none, if and only if the scan did not answer with too short a run; a request for no block changes nothing |
| KernelMemory.Kernel.Kzalloc | src/memory/heap/kheap.c:31-42 | the same, and every byte of the memory given is zero, and every other byte of memory is as it was |
| KernelMemory.Kernel.ZeroBytes | src/memory/memory.c:3-11 | for every address, the byte there is zero if it is one of the requested ones, and as it was otherwise |
| KernelMemory.Kernel.Kfree | src/memory/heap/kheap.c:44-47 | removes one allocation, or nothing for a free block or one outside the heap; the table still encodes the live map if and only if the block is not inside an allocation |
| PageTables.NarrowMaskIff | src/memory/paging/paging.c:193-201 | the narrower mask of paging_get reads the same table exactly when the table lies below 2^28 |
| PageTables.TranslateIs | src/memory/paging/paging.c:184-191 | the processor takes the top ten bits of an address for the directory, the next ten for the table, and the rest as the offset (Intel SDM Vol. 3A, section 4.3) |
| PageTables.SetPteEffect | src/memory/paging/paging.c:162-182 | one write through the directory changes one virtual page and no other word of memory |
| PageTables.MapPagesEffect | src/memory/paging/paging.c:109-124 | a range call changes exactly its own pages, each to its own frame, going round at 2^20, and writes only this directory's tables |
| PageTables.OtherDirectoryUnchanged | src/memory/paging/paging.c:109-124 | a directory that shares no page with it sees no difference |
| PageTables.SetThenRestore | src/task/task.c:151-158 | putting a saved entry back leaves memory as it was |
| Paging.Set | src/memory/paging/paging.c:162-182 | -EINVARG and no change on an unaligned address, else one virtual page changed |
| Paging.Get | src/memory/paging/paging.c:193-201 | the entry of a virtual page, and entry 0 for an unaligned address |
| Paging.GetReadsSet | src/memory/paging/paging.c:161-201 | paging_get reads back what paging_set wrote, although their masks differ, for tables below 2^28 |
| Paging.GetPhysicalAddress | src/memory/paging/paging.c:184-191 | the address the processor computes |
| Paging.Map | src/memory/paging/paging.c:93-101 | refuses unaligned addresses before touching anything |
| Paging.MapRange | src/memory/paging/paging.c:109-124 | maps its pages one by one, or nothing at all on an unaligned start |
| Paging.MapTo | src/memory/paging/paging.c:126-159 | an error changes nothing; otherwise the pages of the physical range appear at the virtual address |
| PagingRuns.StepEffect | src/memory/paging/paging.c:126-182 | one call on one of several address spaces that share no page keeps them separate, changes its own as the flat step says, and no other |
| PagingRuns.RunIsFlat | src/memory/paging/paging.c:126-182 | after any sequence of such calls every one of the 2^20 pages of every address space holds what its flat map holds |
| PagingRuns.GetAfterRun | src/memory/paging/paging.c:193-201 | and paging_get finds just that, for tables below 2^28 |
| AddressSpace.New4gb | src/memory/paging/paging.c:9-27 | with 1026 free blocks, builds out of 1026 different new blocks a directory that maps each page to itself, and changes no other page |
| AddressSpace.BuiltIsIdentity | src/memory/paging/paging.c:13-22 | a directory built over 1024 different pages maps every page to itself with the requested flags |
| AddressSpace.OrWriteableIs | src/memory/paging/paging.c:22 | the directory entry's flags have the writable bit, and the others as they were |
| AddressSpace.IdentityTranslates | src/memory/paging/paging.c:9-27 | every one of the 2^32 addresses then translates to itself |
| AddressSpace.Free4gb | src/memory/paging/paging.c:35-46 | recovers the table addresses from flagged entries and frees exactly the blocks of the address space |
| AddressSpace.CreatedIsDestroyable | src/memory/paging/paging.c:9-46 | what paging_new_4gb builds meets what paging_free_4gb needs |
| AddressSpace.CreateThenDestroy | src/memory/paging/paging.c:9-46 | creating an address space and destroying it gives back the identical heap table |
| ProcessState.AllocationsDisjoint | src/task/process.c:63-94 | recorded allocations of all processes are pairwise disjoint address ranges |
| ProcessMemory.MallocKeepsInv | src/task/process.c:63-94 | process_malloc keeps heap, page tables and records consistent for all processes |
| ProcessMemory.GrantKeepsInvIff | src/task/process.c:63-94 | a granted process_malloc can be accounted for at all if and only if it was for at least one block and a run of that length was free |
| ProcessMemory.FailedMallocChangesNothing | src/task/process.c:88-93 | a failed process_malloc leaves the heap table, the live map, the records and every live page as they were |
| ProcessMemory.GrantedIsZero | src/task/process.c:63-94 | every byte that a granted process_malloc was asked for is zero, after its pages were mapped too |
| ProcessMemory.FreeKeepsInv | src/task/process.c:315-337 | process_free of any pointer keeps the same consistency |
| ProcessMemory.FreeTouchesOnlyItself | src/task/process.c:315-337 | freeing one allocation releases its own block, clears its own record, unmaps its own pages and nothing else |
| ProcessMemory.FoundWhereRecorded | src/task/process.c:122-134 | no two records name the same block, so that the first record found is the only one |
| ProcessMemory.NullIsNoRecord | src/task/process.c:315-337 | a null pointer is found in an unused record, and freeing it does nothing |
| ProcessMemory.FreeAsCoded | src/task/process.c:315-337 | the statements of process_free, with whatever record they find, come to that |
| ProcessMemory.FreeFromReleasesOwn | src/task/process.c:136-147 | ending a process's allocations releases exactly its own blocks and clears exactly its own records |
| ProcessLife.KernelStepKeepsInv | src/memory/heap/kheap.c:25-47 | the kernel may allocate, write and free what is its own without disturbing any process |
| ProcessLife.FootprintIsBelongings | src/task/process.c:213-237 | the blocks process_free_process frees are all of the process's blocks, each once, and no others |
| ProcessLife.EndKeepsInv | src/task/process.c:213-251 | when a process's blocks are freed and nothing is written, the rest is consistent, and what other processes have is untouched (the link written on the way is `DelistKeepsInvIff` and `DelistSparesIff`) |
| ProcessLife.FreeFromCarries | src/task/process.c:136-147 | ending one process's allocations changes no block, record or page of another process |
| FirstFit.RunRemains | src/memory/heap/heap.c:76-110 | first fit takes at worst the front of a long free run, so that the rest of it remains for later requests |
| ProcessBirth.KernelFreeKeepsInvIff | src/memory/heap/kheap.c:44-47 | the kernel's kfree of any block number keeps heap and processes consistent if and only if the block is not inside an allocation and not the start of one that a process has |
| ProcessBirth.CreationKeepsInv | src/memory/paging/paging.c:9-27 | building an address space keeps all processes consistent |
| ProcessBirth.MarkEachRepresents | src/memory/paging/paging.c:9-27 | taking free blocks one by one, whichever they are, adds exactly them to the live map |
| ProcessBirth.AdoptionKeepsInv | src/task/process.c:527-579 | different kernel blocks whose bytes make a chunk record, a directory of 1024 tables and the other parts of a process, under a new number: the process joins the others and everything is consistent |
| ProcessBirth.OwnMappingKeepsInv | src/task/process.c:455-485 | mapping program and stack into a process's own tables keeps all processes consistent |
| Processes.FindSlot | src/task/process.c:42-56 | the first record with a given pointer, or -1 when there is none |
| Processes.Unjoin | src/task/process.c:110-120 | clears every record with this pointer and no other |
| Processes.ProcessTable.Malloc | src/task/process.c:63-94 | refines the specification for which the invariant is proved, result and state, and is a run; all bytes of memory granted are zero |
| Processes.ProcessTable.Free | src/task/process.c:315-337 | the same for process_free, for any pointer |
| Processes.ProcessTable.TerminateAllocations | src/task/process.c:136-147 | the loop over all records comes to releasing exactly the process's own blocks |
| Processes.ProcessTable.Terminate | src/task/process.c:204-251 | the process is gone with exactly its own blocks; what is left is consistent if and only if the link that task_list_remove writes is null, right already, or in no page that another process needs as directory or table; no word of another process but the next of its task changes if and only if the link lands in no other block of it or is right already; from a list linked both ways, wherever in it the process is, the chain along next, head and tail close up, and the current task is as before, or the one behind the process's task if that was it, or the first if there is none behind; all of it is a run of the calls it is made of |
| Processes.ProcessTable.KernelMalloc | src/memory/heap/kheap.c:31-42 | a kernel allocation beside processes |
| Processes.ProcessTable.KernelFree | src/memory/heap/kheap.c:44-47 | a kernel free of any block after which heap and processes can be accounted for: the block is gone, or nothing changes if nobody had it |
| Processes.ProcessTable.MapProgram | src/task/process.c:455-485 | maps image and stack into the process's own tables, and fails exactly when a segment is refused |
| Processes.ProcessTable.Load | src/task/process.c:527-594 | either adds a process whose memory maps its program, at the end of the list, the current task being as before unless there was none, or leaves nothing behind but the path blocks of each successful fopen, new ones of one block each, none exactly when the heap table is as before; the result says which; words of others change, but the next of a task, exactly when the link through task_tail lands in another block of theirs; either way a run of the calls it is made of |
| Processes.ProcessTable.Register | src/task/process.c:563-579 | the new process joins the table and its task the end of the list, whatever task_tail names: everything is consistent then if and only if the list was empty or the link through task_tail does no harm |
| Processes.ProcessTable.Open | src/fs/file.c:131-219 | fopen keeps one block for the root and two for each component exactly when it succeeds, and nothing otherwise |
| Processes.ProcessTable.RemoveFromList | src/task/task.c:70-91 | the statements of task_list_remove on the words of memory, whatever block prev names |
| Processes.ProcessTable.StoreWord | src/task/process.c:301-302 | a store into memory given to a process keeps everything consistent and changes no word of anybody else |
| ProcessLoad.RestoredIff | src/fs/file.c:131-219 | when only the kept path blocks are left of a load, the heap table is the one before if and only if none was kept |
| KeptPaths.FailsAndKeeps | src/fs/file.c:131-219 | on an empty heap, loading 0:/a whose only segment is refused fails and leaves three blocks |
| ProcessLoad.JoinFits | src/task/task.c:48-50 | if task_tail names a live block that nobody needs as directory or table, or the list is empty, the link to a newly gathered task does no harm |
| ProcessAssembly.GapPlaces | src/task/process.c:527-579 | on a heap whose first gap has four blocks, first fit puts the process record and elf_file there and everything else of a load, in order, at the front of the space behind |
| ProcessRecord.LoadedPages | src/task/process.c:455-485 | every page of a loaded ELF process is a stack page, the page of the last segment covering it, or the page itself |
| ProcessRuns.StepKeepsInvIff | src/task/process.c:63-594 | a call keeps the global invariant, under guards that speak of its arguments and of the bytes it looks at, if and only if it writes no link of the task list where that does harm; calls other than joining and leaving never do |
| ProcessRuns.ClearEachRepresents | src/task/process.c:213-237 | freeing live allocations one by one removes exactly them |
| ProcessRuns.FreeRestKeepsInvIff | src/task/process.c:213-237 | freeing one by one the blocks that the process's record and directory lead to, with its task taken out of the list on the way, keeps the invariant if and only if that link does no harm |
| ProcessRuns.FreeRestSparesIff | src/task/process.c:213-237 | it changes no word of another process but the next of its task if and only if the link lands in no other block of it or is right already |
| ProcessRuns.RestEnds | src/task/process.c:213-237 | but for that link it ends the process and disturbs no other |
| ProcessRuns.RunKeepsInvIff | src/task/process.c:63-594 | every state of a run from the empty heap satisfies the global invariant if and only if none of its calls writes a link where that does harm, any number of processes entering and leaving |
| ProcessRuns.RunKeepsInv | src/task/process.c:63-594 | every state that such a run can reach is consistent |
| OrderlyRuns.OrderlyRunKeepsInv | src/task/task.c:22-99 | in every run in which processes end in the reverse order of their loading, whatever else happens in it, every link written is harmless, every state is consistent, and the list in memory is linked both ways in that order |
| ProcessRuns.RunIsConsistent | src/task/process.c:63-147 | in every state of every harmless run, recorded allocations are live blocks of the recorded size, identity-mapped, writable for their owner by directory entry and table entry together, and pairwise disjoint |
| ProcessRuns.GetSeesEveryPage | src/memory/paging/paging.c:193-201 | in every state of every harmless run, paging_get finds what the processor finds, for every page of every process |
| TaskLinks.LinkKeepsInvIff | src/task/task.c:72-75 | writing a next through any link keeps the global invariant if and only if the word is there already or the page is no process's directory and none of the tables that its records rely on at that word |
| TaskLinks.LinkSparesIff | src/task/task.c:72-75 | it changes no word of a process but the next of its task if and only if the word is there already or the page is in no other block of that process |
| TaskLinks.DelistKeepsInvIff | src/task/task.c:70-99 | taking the task of an ended process out of the list keeps the invariant if and only if its prev is null, or names a word that fits already or a page nobody else needs |
| TaskLinks.DelistSparesIff | src/task/task.c:70-99 | and spares the words of another process if and only if prev is null or the write does |
| TaskLinks.EnlistKeepsInvIff | src/task/task.c:41-50 | putting a task at the end of the list keeps the invariant if and only if the list is empty or the write through task_tail does no harm |
| TaskLinks.EnlistSparesIff | src/task/task.c:41-50 | and spares the words of another process if and only if the list is empty or the write does |
| TaskOrder.TwoWayJoins | src/task/task.c:41-50 | a task joining a list that is linked both ways does no harm and leaves it linked both ways, the new one last, and current only if it is the first |
| TaskOrder.TwoWayLeaves | src/task/task.c:70-91 | the last task leaving such a list leaves it linked both ways without it |
| TaskOrder.AnyFits | src/task/task.c:70-91 | taking any task out of a list that is linked both ways does no harm and changes no word of another process but a next |
| TaskOrder.Leaves | src/task/task.c:60-91 | what is left then: head, tail and the chain along next closed up, each prev as it was, and the current task as before, or the next one or the head if it was the one taken out |
| TaskLinks.LinksLie | src/task/task.h:29-38 | the links of a task are its last two words, behind the directory, twelve registers and the process |
| ProcessEnd.TerminationIff | src/task/process.c:204-251 | process_terminate from any consistent state: exactly the process's own blocks go; the rest is consistent if and only if the link does no harm, and the words of each other process are spared if and only if the link spares them |
| ProcessEnd.TerminationCloses | src/task/process.c:204-251 | a whole termination leaves a list that was linked both ways closed up in that way, wherever the process was in it |
| ProcessEnd.FirstGoesQuietly | src/task/task.c:72-75 | a process whose task has no prev ends without a change to any word of another process |
| StaleLinks.BreaksDirectory | src/task/task.c:70-99 | A with an image of five blocks and B are loaded, A ends, C with an image of one block is loaded and B ends: the address of C's task is an entry of C's page directory, and the invariant is gone |
| StaleLinks.OverwritesMemory | src/task/task.c:70-99 | A, B and C are loaded, A ends, C allocates until it has the block of A's task and stores a word, and B ends: the word is gone |
| ProcessStores.StoreKeepsInv | src/task/process.c:301-302 | stores into any live pages but directories, tables, first words of chunk records and links of tasks keep the global invariant |
| ProcessStores.StoredInOne | src/task/process.c:301-302 | a store into one allocation changes no word of another |
| ProcessIsolation.StepIsolatesIff | src/task/process.c:63-594 | when no process can write what is not its own, no call changes that but the mapping of a program, and that one exactly when the program is mapped outside its own blocks |
| ProcessIsolation.RunIsolatesIff | src/task/process.c:63-594 | in every state of a harmless run each process can write only its own image, stack and allocations, if and only if every mapping of a program in it keeps to its own blocks |
| ProcessIsolation.UserStoreStaysInside | src/memory/paging/paging.c:184-191 | a store by a process through its own page tables, wherever they let it write, changes no word of the kernel or of another process and keeps everything consistent and isolated |
| ProgramIsolation.ElfConfinedIff | src/loader/formats/elf_loader.c:200-222 | a freshly loaded ELF process with page-disjoint segments can write its own blocks only, if and only if offset + p_memsz of every segment it may write lies within the blocks of its image |
| ProgramIsolation.ZeroPagesEscape | src/loader/formats/elf_loader.c:200-222 | an image of one block whose writable segment has p_memsz 0x2000 can write the block behind it |
| WideImages.WritesBehindImage | src/task/process.c:425-452 | such an image loaded on an empty heap: the process can write what is not its own |
| ProgramIsolation.BinaryIsConfined | src/task/process.c:416-423 | a flat binary can write its own blocks only |
| ProgramIsolation.BinaryPages | src/task/process.c:416-481 | every page of a loaded flat binary: the four stack pages from 0x3FB on, the image from page 0x400 on, writable, or the page itself |
| ElfLoader.ElfFile.ProcessLoad | src/loader/formats/elf_loader.c:116-132 | one loadable segment widens the extent |
| ElfLoader.ElfFile.ProcessHeaders | src/loader/formats/elf_loader.c:134-163 | all headers in order, of which only loadable ones count |
| ElfLoader.EndIsGreatest | src/loader/formats/elf_loader.c:124-129 | the virtual end is the greatest p_vaddr + p_filesz of a loadable segment, and the physical end is that of the last such segment |
| ElfLoader.BaseIsLeast | src/loader/formats/elf_loader.c:118-122 | without a segment at address zero, the base is the least address, and the physical base is that of the last such segment |
| ElfLoader.BaseIsZeroIff | src/loader/formats/elf_loader.c:118-122 | the base is zero if and only if the last loadable segment is at address zero |
| ElfLoader.BaseIsLeastIff | src/loader/formats/elf_loader.c:118-122 | the base is the least address if and only if no loadable segment is at zero or the last one is |
| ElfLoader.BaseForgotten | src/loader/formats/elf_loader.c:118-122 | of segments at 0x400000, 0 and 0x401000 the base is the last one's address |
| ElfMapping.MapElf | src/task/process.c:425-452 | maps segments in order until one is refused, and fails exactly when one is |
| ElfMapping.MapMemory | src/task/process.c:455-485 | the image, then the stack unless the image failed |
| ElfMapping.MapBinary | src/task/process.c:416-423 | a flat image at 0x400000, writable, then the stack |
| ElfMapping.SegmentsEffect | src/task/process.c:431-449 | every virtual page holds what the last segment covering it put there, or what it held before, and only this directory's tables are written |
| ElfMapping.TranslatesIff | src/task/process.c:434-442 | address a of a segment translates to the image's address plus p_offset + (a - p_vaddr) if and only if p_vaddr and the image address agree modulo 4096; the page is present and the user's, and writable exactly where PF_W is set |
| ElfMapping.CongruentCovers | src/task/process.c:441-443 | with that agreement a segment covers every page of its p_memsz range |
| ElfMapping.LoadedProgram | src/task/process.c:425-485 | with page-disjoint congruent segments from 0x400000 up, every address a of every segment translates to the image's address plus p_offset + (a - p_vaddr), with its flags, after the stack mapping too; whether that is still inside the image is `ElfConfinedIff` |
| ElfMapping.StackEffect | src/task/process.c:480-481 | the stack mapping gives the four pages below 0x3FF000 to the stack and changes no other page |
| ElfMapping.StackSparesSegments | src/task/process.c:480-481 | it leaves every page from 0x400000 up alone |
| ElfMapping.IncongruentMisses | src/task/process.c:441-443 | two bytes wanted at a page boundary but kept at offset 1 of the image are not found there |
| DiskStream.Stream.Read | src/disk/streamer.c:28-69 | stores exactly disk bytes [pos, pos + total) and nothing else, ends at pos + total, and asks the drive for a determined list of sectors |
| DiskStream.Stream.Seek | src/disk/streamer.c:20-24 | moves the position and nothing else |
| DiskStream.ReadTwice | src/disk/streamer.c:28-69 | two reads in a row deliver what one read of the combined length does |
| DiskStream.SectorsReadAre | src/disk/streamer.c:31-65 | the drive is asked for consecutive sectors up to the one holding the end position, one past the data when the read ends on a boundary |
| FatLayout.StandardIff | src/fs/fat/fat16.c:215-222 | positions of root directory, clusters and FAT entries are the standard's if and only if the volume declares 512-byte sectors |
| FatLayout.LargeSectorsMisplaced | src/fs/fat/fat16.c:215-222 | on a volume of 1024-byte sectors the code looks for cluster 2 at byte 49664 and the standard puts it at 82944 |
| FatLayout.AreasPartition | src/fs/fat/fat16.c:378-400 | every sector of the disk belongs to exactly one of reserved area, FAT copies, root directory and clusters |
| FatLayout.AreasDisjoint | src/fs/fat/fat16.c:378-381 | different clusters from 2 up, FAT copies, root directory and reserved area share no sector |
| FatLayout.EntryInFirstFatIff | src/fs/fat/fat16.c:384-400 | both bytes of a FAT entry lie in the first FAT exactly for clusters below 256 per FAT sector |
| FatBoot.FieldsLie | src/fs/fat/fat16.c:33-59 | the fields of the first sector, put one behind the other, lie where the driver reads them |
| FatBoot.EveryDiskStarts | src/fs/fat/fat16.c:33-59 | any 62 bytes are the fields of some such sector |
| FatChain.EntryIs | src/fs/fat/fat16.c:389-417 | the entry of a cluster is the pair of bytes 2 * cluster behind the reserved sectors, low byte first |
| FatChain.ClustersTile | src/fs/fat/fat16.c:378-381 | clusters are where the standard puts them, one behind the other, each as long as its sectors |
| FatChain.StopsIff | src/fs/fat/fat16.c:430-451 | the code stops at an entry exactly when the standard ends the chain there, except for 0xFFF7, 0xFFF9 to 0xFFFE and three 12-bit values |
| FatChain.ChainIsStandardIff | src/fs/fat/fat16.c:420-464 | the first n links followed are the standard's if and only if no entry met on the way is one of those values |
| FatChain.EndMarkIsFollowed | src/fs/fat/fat16.c:430-451 | on a concrete volume a chain ended by 0xFFF9 goes on to a cluster 0xFFF9 |
| FatChain.ReadAtStep | src/fs/fat/fat16.c:466-506 | re-walking the chain from its start for each further cluster refines one linear walk |
| FatChain.ReadAtOkIff | src/fs/fat/fat16.c:420-506 | any read succeeds exactly when the chain reaches the cluster of its last piece with no stop code on the way |
| FatChain.ReadIsSlice | src/fs/fat/fat16.c:466-506 | for every disk, a read from a cluster boundary or within one cluster succeeds exactly when the chain reaches the cluster of its last byte, and delivers [offset, offset + total) of the clusters in chain order |
| FatChain.ReadWithin | src/fs/fat/fat16.c:466-506 | such a read of bytes that the first n clusters hold succeeds and delivers them |
| FatChain.ReadsHomeIff | src/fs/fat/fat16.c:480-501 | any successful read takes all bytes from where the file keeps them if and only if every piece that runs over the end of its cluster runs into the next cluster of the chain |
| FatChain.MisalignedReadIsWrong | src/fs/fat/fat16.c:480-501 | on a concrete volume, a read of 512 bytes from offset 1 succeeds with a byte of another cluster |
| FatChain.ItemsAreSlice | src/fs/fat/fat16.c:751-765 | several items, each from a cluster boundary or within one cluster, are one contiguous slice, delivered exactly when the chain is long enough |
| FatChain.DivisibleItems | src/fs/fat/fat16.c:744-769 | items whose size divides cluster size and position, or that are whole clusters from a boundary, are all of that kind |
| FatChain.DivisibleRead | src/fs/fat/fat16.c:744-769 | hence reading items whose size divides cluster size and position, or whole clusters from a boundary, succeeds exactly when the chain is long enough, with one slice of the file |
| FatFiles.Driver.constructor | src/fs/fat/fat16.c:149-155 | three streams of their own on the same disk |
| FatFiles.Driver.GetFatEntry | src/fs/fat/fat16.c:389-417 | the little-endian 16-bit entry in the first FAT |
| FatFiles.Driver.GetClusterForOffset | src/fs/fat/fat16.c:420-464 | the chain's cluster for an offset, or -EIO when a stop code comes first |
| FatFiles.Driver.ReadInternal | src/fs/fat/fat16.c:466-516 | result and buffer are those of the linear walk, on success and on failure |
| FatFiles.OpenFile.ReadMembers | src/fs/fat/fat16.c:744-769 | reads along the chain from the cluster whose four bytes the entry keeps; returns nmemb and moves the position by nmemb * size when all items succeed, else -EIO and the position stays |
| FatFiles.ReadDivisible | src/fs/fat/fat16.c:744-769 | such a read of a file whose entry keeps cluster c returns nmemb, moves the position behind the data and fills the buffer with that slice of the clusters from c on, or returns -EIO and the position stays, as the chain is long enough or not |
| FatItems.FirstClusterIff | src/fs/fat/fat16.c:370-373 | an entry's first cluster is c exactly when bytes 26, 27, 20 and 21 are those of c, lowest first |
| FatItems.DirectoryIff | src/fs/fat/fat16.c:24-31 | whatever the other seven attributes are, the fifth one says whether an entry is a sub-directory |
| FatItems.EntryFields | src/fs/fat/fat16.c:70-85 | of the fields put one behind the other, the driver takes name, extension, attribute and both halves of the cluster |
| FatItems.ToProperString | src/fs/fat/fat16.c:317-336 | copies a field up to its first space or zero, never past its length, and terminates it |
| FatItems.FullRelativeFilename | src/fs/fat/fat16.c:340-350 | the buffer holds NAME.EXT, or NAME for a blank extension, and zeros |
| FatItems.NameRoundTrip | src/fs/fat/fat16.c:317-350 | a name padded with spaces into an entry is read back |
| FatItems.NameDetermines | src/fs/fat/fat16.c:340-350 | entries without a dot in the name field have the same full name only if both fields agree |
| FatDirectory.CountItems | src/fs/fat/fat16.c:162-207 | counts the entries before the first zero name that are not marked deleted |
| FatDirectory.SeesLiveIff | src/fs/fat/fat16.c:195-200 | lookups go through exactly the entries in use if and only if no deleted entry is among as many entries from the front |
| FatDirectory.DeletedHidesLast | src/fs/fat/fat16.c:195-200 | of a deleted entry and one in use, one is counted, and lookups see the deleted one |
| FatDirectory.LoadDirectory | src/fs/fat/fat16.c:552-596 | the counted number of entries, read along the chain from the cluster whose four bytes the entry keeps |
| FatDirectory.LoadedIsRaw | src/fs/fat/fat16.c:552-596 | a sub-directory within one cluster and without deleted entries is loaded whole and in order |
| FatDirectory.WrittenDirectory | src/fs/fat/fat16.c:162-207 | records in use written one behind the other, with a zero byte behind the last, are a directory of exactly these entries, all of which count |
| FatDirectory.LoadedMirrors | src/fs/fat/fat16.c:552-596 | a sub-directory that on the disk has an end, no deleted entry before it and at most one cluster can be loaded, and is then the one on the disk, entry by entry |
| FatDirectory.GetRootDirectory | src/fs/fat/fat16.c:209-261 | all announced entries in order, with the count that lookups use |
| FatDirectory.RootMirrors | src/fs/fat/fat16.c:209-261 | the root directory that mounting reads is the one on the disk, if that has an end among the announced entries and no deleted entry before it |
| FatDirectory.Mount | src/fs/fat/fat16.c:263-311 | of a disk that starts with such fields: refused exactly when the signature field is not 0x29, and otherwise the driver has exactly these fields, and the root directory is read from where they put it |
| FatDirectory.LastNamedIs | src/fs/fat/fat16.c:623-633 | the entry a lookup settles on matches and no later one does; none is found exactly when none matches |
| FatDirectory.FindItem | src/fs/fat/fat16.c:598-636 | a copy of, or the directory loaded for, the last entry whose name matches without regard to case, and null exactly when none does |
| FatDirectory.ShellIsNamed | src/fs/fat/fat16.c:623-633 | the entry of SHELL.ELF is found as shell.elf |
| FatDirectory.GetDirectoryEntry | src/fs/fat/fat16.c:638-669 | the loop over components is recursive resolution |
| FatDirectory.Open | src/fs/fat/fat16.c:671-706 | -ERDONLY for any mode but reading, -EIO for a path that resolves to nothing, else the entry it resolves to, a file at position 0 |
| FatDirectory.ResolveIsLookup | src/fs/fat/fat16.c:638-669 | path resolution can be done and equals recursive lookup in the directory tree read off the disk's bytes alone, for every path through directories of that kind in which no component but the last is missing, to any depth that covers the path |
| CStrings.Istrncmp | src/string/string.c:54-73 | zero exactly when the texts within the bound have one length and in each place the same character, or A to Z and the one 32 above it; else the difference at the first place where they do not |
| CStrings.ToLowerIff | src/string/string.c:3-11 | lower-cased characters are equal exactly when the characters are, or one is A to Z and the other 32 above it |
| CStrings.Strncpy | src/string/string.c:111-125 | the text within the bound and a terminator, and nothing else changed |
| CStrings.Strlen | src/string/string.c:13-23 | the length of the text before the first zero |
| PathText.ComponentsOfJoined | src/fs/pparser.c:42-71 | components joined by slashes are found again, whatever follows behind an empty component |
| PathText.JoinedComponents | src/fs/pparser.c:42-71 | every text that starts with a component is its components joined, then a tail that begins where one is empty |
| PathText.ParsePrinted | src/fs/pparser.c:113-170 | printing a drive and components and parsing gives them back |
| PathText.ParsedIff | src/fs/pparser.c:8-28 | with room, a text is refused exactly when it is over 108 characters, has no drive in front, or starts with an empty component |
| PathParser.GetPathPart | src/fs/pparser.c:42-71 | the next component in a zeroed buffer and a block of its own, or null with the heap unchanged; stays inside the buffer |
| PathParser.ParsePathPart | src/fs/pparser.c:74-97 | null exactly when two blocks are not free or the component is empty, with nothing changed; else linked behind the last one |
| StringLists.Append | src/fs/pparser.c:74-97 | linking a node behind the last one makes the list longer by it |
| PathParser.Parse | src/fs/pparser.c:113-170 | for any text and any number of free blocks: drive, components, their buffers and links, and exactly which blocks they hold; or null and the heap as it was |
| PathParser.Free | src/fs/pparser.c:99-111 | gives back exactly the blocks of the list |
| PathParser.ParseAndFree | src/fs/pparser.c:99-170 | parsing and freeing, or parsing in vain, gives back the identical heap table |
| Tokens.SpreadTokenized | programs/stdlib/src/string.c:137-198 | tokens set apart by any delimiters whatsoever are found again |
| Tokens.TokenizedSpread | programs/stdlib/src/string.c:137-198 | every text is its tokens, set apart by delimiters |
| CommandLine.SkipDelimiters | programs/stdlib/src/string.c:153-170 | stops at the first character that is not a delimiter, or at the end |
| CommandLine.CutToken | programs/stdlib/src/string.c:178-195 | makes the token a string of its own and leaves the text behind it intact |
| CommandLine.Tokenizer.Strtok | programs/stdlib/src/string.c:137-198 | goes on from the saved place whatever string is given; the next maximal run becomes a string by one written character, all text before it intact; at the end nothing is found and no place is kept |
| CommandLine.ParseCommand | programs/stdlib/src/pandora.c:4-52 | one argument per maximal run, cut to 511 characters, for as many as allocations succeed; the saved place is null again if and only if none was refused |
| CommandLine.KeptIs | programs/stdlib/src/pandora.c:4-52 | of a command of up to 1024 characters the first words are kept that there is memory for, and of each the first 511 characters |
| CommandLine.LeaveThePlace | programs/stdlib/src/pandora.c:4-52 | parsing "a b" with memory for one argument leaves a place behind |
| ArgumentVector.InjectArguments | src/task/process.c:273-313 | allocates argv and one string per argument with process_malloc until one is refused; on success argv's words lead to strings with the arguments' texts; otherwise an error and the old arguments, and exactly the allocations granted so far stay the process's own; no other process is touched |
| ProcessGrants.MallocGives | src/task/process.c:63-94 | process_malloc's answer is null, with no new record, or memory in a record that was unused, different from all given before |
| ProcessGrants.MallocKeeps | src/task/process.c:63-94 | and no word of anything else that is live changes but the process's page tables |
| CommandLine.Count | src/task/process.c:259-270 | the length of the list |
| CommandLine.ReadLine | programs/stdlib/src/pandora.c:67-95 | the buffer holds the line the keys make, terminated, within its bound |
| CommandLine.ErasedAtOnce | programs/stdlib/src/pandora.c:83-89 | a character taken back at once was never typed |
| CommandLine.EraseOnNothing | programs/stdlib/src/pandora.c:83-91 | on an empty line an erase is kept as a character |
| CommandLine.PlainLine | programs/stdlib/src/pandora.c:70-92 | ordinary characters and a return give the characters |
| Tasks.ResumesAsInterrupted | src/task/task.asm:9-55 | a task resumes exactly as it was interrupted if and only if interrupts were on; otherwise that flag is the only difference |
| Tasks.InterruptsOnIs | src/task/task.asm:21-24 | forcing the interrupt flag changes no other bit |
| Tasks.ResumedIs | src/task/task.asm:9-55 | each register of the processor gets the task's register of that name, the data segments get the stack's |
| Tasks.SavedIs | src/task/task.c:120-134 | each register of the interrupted program is kept under its own name |
| Tasks.FirstRun | src/task/task.c:214-236 | a new task starts at its entry with all registers clear but the stack pointer, which is 0x3FF000, in the user's segments, with interrupts on |
| Tasks.EachRunsOnce | src/task/task.c:101-118 | in any n consecutive switches of n tasks each task runs exactly once, in list order |
| Tasks.ResumesWhereItStopped | src/idt/idt.c:62-66 | each task resumes with the registers of its own last tick, the first time with those it was created with |
| TaskList.Scheduler.NewTask | src/task/task.c:22-58 | in a block never used before, the task joins the end of a list that stays linked both ways, and runs if it is the first |
| TaskList.Scheduler.AddTask | src/task/task.c:22-58 | the same in a block that may be that of a task removed before, whoever still names it |
| TaskList.Scheduler.GetNext | src/task/task.c:60-68 | the task behind the running one, or the first |
| TaskList.Scheduler.ClockTick | src/idt/idt.c:27-38 | saves the running task's registers, switches, and resumes the next, on the linked list as in the specification of ticks |
| TaskList.Scheduler.Remove | src/task/task.c:70-91 | whatever prev link the task has: forward chain, head, tail and running task are right afterwards if and only if the link names the task before it, or for the first task nothing or, with others behind it, none of them; two-way linking survives exactly the removal of the last task |
| TaskList.RemoveNeighbours | src/task/task.c:70-91 | of three tasks the second and then the third removed: the list is broken |
| TaskList.RemoveAfterReuse | src/task/task.c:70-99 | a task removed, its block given to a new one, and then the task removed that still names it: the list is broken |
| TaskList.Scheduler.HandleException | src/idt/idt.c:56-60 | the failed task is removed and one of the others runs; the list is right afterwards if and only if its prev link was, and then the task after the next one runs, or of two tasks the other one |
| TaskList.LoseTurn | src/idt/idt.c:56-60 | of three tasks the first one fails and the third one runs next |
| Keyboard.PushKeepsIff | src/keyboard/keyboard.c:64-75 | a push keeps a ring of keys exactly when fewer than 1024 are pending; else it overwrites the oldest |
| Keyboard.BackspaceKeepsIff | src/keyboard/keyboard.c:47-52 | backspace drops the newest key, and keeps a ring exactly when there is one |
| Keyboard.BackspaceOnEmptyLoses | src/keyboard/keyboard.c:47-52 | a backspace with nothing pending makes the next key invisible |
| Keyboard.PopKeeps | src/keyboard/keyboard.c:77-95 | pop gives the oldest key, and zero exactly when none is pending |
| Keyboard.NonZeroIff | src/keyboard/keyboard.c:42-45 | a slot is non-zero exactly when it lies between head and tail modulo 1024 |
| Keyboard.RunRefines | src/keyboard/keyboard.c:42-95 | in every permitted run the ring is a queue: same keys out in the same order, same keys left |
| Keyboard.Buffer.PushKey | src/keyboard/keyboard.c:64-75 | the method on the buffer is the specified step |
| Keyboard.Buffer.PopKey | src/keyboard/keyboard.c:77-95 | the same for pop |
| Keyboard.Buffer.DropKey | src/keyboard/keyboard.c:47-52 | the same for backspace |
| Itoa.Itoa | programs/stdlib/src/stdlib.c:5-34 | for every 32-bit integer, canonical text that parses back to it, inside twelve bytes, with index 0 used exactly by negative ten-digit numbers |
| Itoa.TextOfNumber | programs/stdlib/src/stdlib.c:5-34 | "-407" is canonical and stands for -407 |
| Itoa.CanonicalUnique | programs/stdlib/src/stdlib.c:5-34 | a number has one canonical text |

## Left out

- Port input and output, ATA reads: a disk is a function from sector numbers to sectors, and every read succeeds, as the driver's always does (src/disk/disk.c:12-36).
- Boot code, control registers, segment reloads, terminal, scancode tables, descriptor tables: hardware effects and tables.
- `panic` is taken as unreachable under the preconditions.
- Processes.ProcessTable.Load: requires heap room up front, so that the failures for want of memory inside loading (some of whose results the source does not look at) are not modelled; file contents and the decoding of the ELF header are parameters; the search for a free slot is not modelled; the process joins the table just before its program is mapped rather than just after, which no other code can see.  It also requires a task_tail that names a live block which nobody needs as directory or table, or an empty list, because the source goes on with whatever the link has destroyed otherwise; `Register` and `RunKeepsInvIff` say for any task_tail whether it has.
- Processes.ProcessTable.Open: the blocks that fopen takes for a descriptor and the driver's data, and fclose gives back, are not modelled, so that where `GapPlaces` and `StaleLinks` put a block is where it lies when none of them is in between; whether drive, filesystem and file are there is the parameter `found`.
- ProcessRuns.RunKeepsInv: covers any interleaving of whole calls; interrupts in the middle of a call do not occur, as the kernel runs with interrupts off.
- ProcessIsolation.UserStoreStaysInside: aligned words; reading is not confined, as every page is mapped readable for user code.
- FatFiles.Driver.ReadInternal: disk positions are unbounded, so that overflow of 32-bit positions is not modelled; clusters whose sector would be negative (0 and 1 of a volume with a short system area) are excluded along the chain.
- FatDirectory.GetDirectoryEntry: requires directories that can be loaded and no missing component before the last, because the source then follows a null pointer; memory of loaded directories is not modelled.
- FatDirectory.Mount: requires a positive number of sectors per cluster, and a terminator behind the root directory's entries.
- `fat16_seek`, `fat16_stat` and the descriptor table of src/fs/file.c: dispatch and error codes.
- PathParser.Parse: the characters of a component are kept in an array beside the heap block that holds them; the argument current_directory_path is not used by the source either.
- CommandLine.ParseCommand: allocation is a number of requests that still succeed; a saved place left behind by a refused allocation points into a stack frame that is gone, which is why a fresh tokenizer is required.
- ArgumentVector.InjectArguments: the characters of a string are kept beside the block that holds it; the words of argv are in memory.  The request for argv is one that the scan does not answer with too short a run, and for less than 2^32 - 4096 bytes.
- TaskList.Scheduler.NewTask: tasks are objects here, which a stale link can always be followed to; what such a link does to whatever else has the block is `TaskLinks`, in which registers and switching have no part.
- Keyboard.Buffer.PushKey: counters are unbounded; in the source they wrap at 2^32, a multiple of 1024.
- ProcessMemory.MallocKeepsInv: starts from a request of at least one block that the scan does not answer with too short a run; `GrantKeepsInvIff` shows that a request granted otherwise leaves a state that nothing can account for.  Such requests when no record is free, where the block is given back at once, are not modelled.
- ProcessMemory.FailedMallocChangesNothing: the same requests.
- Processes.ProcessTable.Malloc: the same requests.
- Processes.ProcessTable.KernelMalloc: the same requests; `Kernel.Kzalloc` covers them for the heap alone.
- Processes.ProcessTable.KernelFree: a block after whose kfree something consistent is left; for any other block `KernelFreeKeepsInvIff` says that nothing is.
- KernelMemory.Kernel.Kmalloc: a run past the end of the table is modelled only as far as the array that holds the table goes; what lies behind it in the source is memory of no known use.
- KernelMemory.Kernel.Kzalloc: zeroing that goes past the end of memory, or round at 2^32, is not modelled.
- Processes.ProcessTable.Terminate: the search for another process after unlinking the current one is not modelled, nor are calls after a termination that left nothing consistent.
- TaskList.Scheduler.HandleException: requires another task to run, as the source panics without one; which task runs when the failed one's prev link was not right is not said.
- FatDirectory.LoadDirectory: requires a directory whose chain reaches as far as its counted entries; the source returns a pointer it has freed otherwise, and the clusters read are to be on the disk.
- FatDirectory.FindItem: requires that every sub-directory with a matching name can be loaded, because the source returns a pointer it has freed otherwise.
- FatDirectory.Open: requires the same as `GetDirectoryEntry`.
- FatDirectory.ResolveIsLookup: about directories without deleted entries that lie within one cluster, because what the code loads of any others is not what is on the disk (`SeesLiveIff`, `ReadsHomeIff`).
