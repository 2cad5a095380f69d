/** A program that is longer in memory than its image. */
module WideImages {
  import opened Machine
  import opened HeapTable
  import opened PageTables
  import opened KernelMemory
  import opened ProcessState
  import opened ProcessLife
  import opened TaskLinks
  import opened ProcessLoad
  import opened ProcessRecord
  import opened ProcessAssembly
  import opened Processes
  import opened ProcessIsolation
  import opened ProgramIsolation
  import opened KeptPaths
  import ElfLoader
  import ElfMapping
  import ProcessRuns

  /** A page of file contents and a page of zeros, to be written. */
  function TwoPageSegment(): ElfLoader.Phdr {
    ElfLoader.Phdr(ElfLoader.PT_LOAD, 0, ElfMapping.PROGRAM_ADDRESS, 4096, 0x2000, 6)
  }

  lemma OneSegmentLoads(elf: Word)
    requires elf % 4096 == 0 && elf <= 0x0800_0000
    ensures ElfMapping.Accepted(elf, [TwoPageSegment()]) && ElfMapping.PageDisjoint(elf, [TwoPageSegment()])
    ensures ElfMapping.Fits(elf, TwoPageSegment())
  {
    var ph := TwoPageSegment();
    assert ElfLoader.Phys(elf, ph) == elf && ElfMapping.PhysEnd(elf, ph) == elf + 0x2000;
  }

  lemma IsLoadedElf(s0: State, table: ProcessTable, size: Word) returns (m: Memory)
    requires table.Valid() && 0 in table.processes && table.processes[0].isElf
    requires Loaded(s0, table.state, 0, table.processes[0], size, [TwoPageSegment()])
    ensures 0 in table.state.procs && LoadedElf(table.state, 0, table.processes[0], size, [TwoPageSegment()], m)
    ensures table.processes[0].elfMemory <= 0x0800_0000
  {
    hide Inv, MappedFrom;
    var process, s := table.processes[0], table.state;
    m :| MappedFrom(m, s.m, process, size, [TwoPageSegment()]);
    ImageInHeap(s, process, size);
    OneSegmentLoads(process.elfMemory);
  }

  lemma ImageInHeap(s: State, process: Process, size: Word)
    requires Inv(s) && process.Aligned() && process.isElf && Sized(s, process, size)
    ensures process.elfMemory % 4096 == 0 && process.elfMemory <= 0x0800_0000
  {
    BlockInHeap(s, BlockOf(process.elfMemory));
  }

  /** A process loaded on an empty heap that can write a block which is not its own. */
  method WritesBehindImage(kernel: Kernel) returns (table: ProcessTable)
    requires kernel.Valid() && kernel.live == map[]
    modifies kernel, kernel.heap.entries, kernel.ram
    ensures fresh(table) && table.Valid() && 0 in table.state.procs && !Confined(table.state, 0)
  {
    hide ProcessTable.Tied, Inv, HeapInv, ProcessRuns.Reaches, Loaded, Settled, HasRun, Confined, LoadedElf, KeptOnly;
    hide TailSettled, ListGrows, CarriedButNext, LoadSpares, ElfMapping.Accepted, Carried, ProcessRuns.Boot;
    table := new ProcessTable(kernel);
    ghost var s0 := table.state;
    BootRoom(s0);
    ShortPathBlocks();
    BlocksIsCeiling(4096);
    ghost var g;
    var res;
    res, g := table.Load(0, ShortPath(), File(true, true, true, 4096), [TwoPageSegment()]);
    OneSegmentLoads(Address(g.image));
    ghost var m := IsLoadedElf(s0, table, 4096);
    ZeroPagesEscape(table.state, 0, table.processes[0], 4096, [TwoPageSegment()], m);
  }
}
