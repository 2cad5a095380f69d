/** The record of a process, and the memory that maps its program. */
module ProcessRecord {
  import opened Machine
  import opened HeapTable
  import opened PageTables
  import opened ProcessState
  import opened ProcessMemory
  import opened ProcessBirth
  import ElfLoader
  import ElfMapping

  const PROCESS_SIZE: Word := 9364    // sizeof(struct process)
  const ELF_FILE_SIZE: Word := 132    // sizeof(struct elf_file)
  const TASK_SIZE: Word := 64         // sizeof(struct task)

  lemma SizesInBlocks()
    ensures Blocks(PROCESS_SIZE) == 3 && Blocks(ELF_FILE_SIZE) == 1 && Blocks(ElfMapping.STACK_SIZE) == 4
            && Blocks(TASK_SIZE) == 1
  {
  }

  /** A directory that maps every page to itself for the user, read-only. */
  ghost predicate IdentityMemory(m: Memory, d: nat) {
    GoodDirectory(m, d) && forall q: nat | q < PAGES :: Pte(m, d, q) == EntryOf(q, 5)
  }

  function PagesOf(ptrs: seq<Word>): (pages: seq<nat>)
    ensures |pages| == |ptrs|
  {
    seq(|ptrs|, i requires 0 <= i < |ptrs| => ptrs[i] / 4096)
  }

  /** struct process, with the fields of its task and ELF file that name memory to be freed. */
  class Process {
    const self: Word
    var directory: Word
    var chunk: Word
    var allocations: seq<Allocation>   // the embedded table of 1024 records
    var isElf: bool
    var ptr: Word                      // binary image, or the ELF file record
    var elfMemory: Word
    var stack: Word
    var task: Word

    /** The record at address `self` once loading has filled it in. */
    constructor (self: Word, isElf: bool, ptr: Word, elfMemory: Word, stack: Word, task: Word, chunk: Word,
        directory: Word)
      ensures this.self == self && allocations == NoAllocations() && this.isElf == isElf
      ensures this.ptr == ptr && this.elfMemory == elfMemory && this.stack == stack && this.task == task
      ensures this.chunk == chunk && this.directory == directory
    {
      this.self, this.isElf, this.ptr, this.elfMemory := self, isElf, ptr, elfMemory;
      this.stack, this.task, this.chunk, this.directory := stack, task, chunk, directory;
      allocations := NoAllocations();
    }

    /** What process_free_program_data frees, in its order. */
    function Image(): (image: seq<Word>)
      reads this`isElf, this`ptr, this`elfMemory
      ensures 1 <= |image| <= 2
    {
      if isElf then [elfMemory, ptr] else [ptr]
    }

    predicate Aligned()
      reads this`directory, this`chunk, this`ptr, this`elfMemory, this`stack, this`task
    {
      directory % 4096 == 0 && chunk % 4096 == 0 && stack % 4096 == 0 && task % 4096 == 0 && self % 4096 == 0
      && ptr % 4096 == 0 && elfMemory % 4096 == 0
    }

    ghost function Value(): (p: Proc)
      reads this
      ensures 4 <= |p.resources| <= 5
    {
      Proc(directory / 4096, chunk / 4096, allocations, PagesOf(Image() + [stack, task, self]))
    }
  }

  /** Image and stack are live allocations of the sizes that were asked for. */
  ghost predicate Sized(s: State, process: Process, imageSize: Word)
    reads process
  {
    var image, stack := BlockOf(process.Image()[0]), BlockOf(process.stack);
    && 0 <= image && image in s.live && s.live[image] == Blocks(imageSize)
    && 0 <= stack && stack in s.live && s.live[stack] == Blocks(ElfMapping.STACK_SIZE)
  }

  /** s has one process more than s0, with no allocations yet, whose address space is an identity space
      with the program and the stack mapped over it; everything that was live still is. */
  ghost predicate Loaded(s0: State, s: State, pid: nat, process: Process, imageSize: Word, phs: seq<ElfLoader.Phdr>)
    reads process
  {
    && s.procs == s0.procs[pid := process.Value()] && process.allocations == NoAllocations()
    && (forall b <- s0.live :: b in s.live && s.live[b] == s0.live[b]) && Sized(s, process, imageSize)
    && exists m :: MappedFrom(m, s.m, process, imageSize, phs)
  }

  /** n is m, an identity space for this process, with its program and stack mapped. */
  ghost predicate MappedFrom(m: Memory, n: Memory, process: Process, imageSize: Word, phs: seq<ElfLoader.Phdr>)
    reads process
  {
    && IdentityMemory(m, process.directory / 4096) && Mappable(process, imageSize)
    && n == ProgramMemory(m, process.directory / 4096, process, imageSize, phs)
  }

  /** The order of allocation in terms of the order of freeing: image, stack, task, record. */
  function Perm(isElf: bool): seq<nat> {
    if isElf then [4, 1, 0, 2, 3] else [3, 0, 1, 2]
  }

  function Inverse(isElf: bool): seq<nat> {
    if isElf then [2, 1, 3, 4, 0] else [1, 2, 3, 0]
  }

  /** A gathered address space is an identity mapping that starts on page boundaries. */
  lemma SpaceStarts(s: State, chunk: Word, directory: Word, new_: seq<nat>)
    requires SpaceGathered(s, chunk, directory, new_, 5)
    ensures chunk % 4096 == 0 && directory % 4096 == 0 && IdentityMemory(s.m, directory / 4096)
  {
    hide GoodDirectory, SpaceTable, Pte;
    AddressOfBlock(new_[0]);
    AddressOfBlock(new_[ENTRIES + 1]);
  }

  lemma PermNumbers(isElf: bool)
    ensures Numbering(Perm(isElf), Inverse(isElf))
  {
  }

  /** Every page of a freshly loaded ELF process: stack, segment, or identity. */
  lemma LoadedPages(m: Memory, n: Memory, process: Process, imageSize: Word, phs: seq<ElfLoader.Phdr>, q: nat)
    requires process.isElf && MappedFrom(m, n, process, imageSize, phs) && q < PAGES
    requires ElfMapping.Accepted(process.elfMemory, phs)
    ensures var d := process.directory / 4096;
      GoodDirectory(n, d) &&
      Pte(n, d, q) == if 0x3FB <= q < 0x3FF then EntryOf(process.stack / 4096 + q - 0x3FB, 7)
                      else ElfMapping.LastPte(process.elfMemory, phs, q, EntryOf(q, 5))
  {
    var d := process.directory / 4096;
    ElfMapping.SegmentsEffect(m, d, process.elfMemory, phs);
    ElfMapping.StackEffect(ElfMapping.MapSegments(m, d, process.elfMemory, phs), d, process.stack, q);
    hide GoodDirectory, ElfMapping.LastPte, ElfMapping.MapSegments, ElfMapping.WithStack, OnlyTables, SameTables;
  }

  /** The addresses mapping works on are page-aligned and far from the end of the address space. */
  ghost predicate Mappable(process: Process, imageSize: Word)
    reads process
  {
    && process.stack + ElfMapping.STACK_SIZE < U32 && process.stack % 4096 == 0
    && (!process.isElf ==> process.ptr % 4096 == 0 && process.ptr + imageSize <= U32 - 4096)
  }

  /** Memory after process_map_memory. */
  ghost function ProgramMemory(m: Memory, d: nat, process: Process, imageSize: Word, phs: seq<ElfLoader.Phdr>): Memory
    requires GoodDirectory(m, d) && Mappable(process, imageSize)
    reads process
  {
    if process.isElf then
      ElfMapping.WithStack(ElfMapping.MapSegments(m, d, process.elfMemory, phs), d, process.stack,
                           if ElfMapping.Accepted(process.elfMemory, phs) then 0 else -EINVARG)
    else ElfMapping.WithStack(ElfMapping.WithBinary(m, d, process.ptr, imageSize), d, process.stack, 0)
  }

  lemma ProgramTables(m: Memory, d: nat, process: Process, imageSize: Word, phs: seq<ElfLoader.Phdr>)
    requires GoodDirectory(m, d) && Mappable(process, imageSize)
    ensures var n := ProgramMemory(m, d, process, imageSize, phs); OnlyTables(m, n, d) && SameTables(m, n, d)
  {
    hide GoodDirectory, OnlyTables, SameTables, ElfMapping.Accepted, ElfMapping.MapSegments, ElfMapping.WithBinary;
    if process.isElf {
      ElfMapping.SegmentsTables(m, d, process.elfMemory, phs);
      ElfMapping.StackTables(m, ElfMapping.MapSegments(m, d, process.elfMemory, phs), d, process.stack,
                             if ElfMapping.Accepted(process.elfMemory, phs) then 0 else -EINVARG);
    } else {
      ElfMapping.BinaryTables(m, d, process.ptr, imageSize);
      ElfMapping.StackTables(m, ElfMapping.WithBinary(m, d, process.ptr, imageSize), d, process.stack, 0);
    }
  }
}
