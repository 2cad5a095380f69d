/** A load that fails after its file was opened: what is left of it is the path that fopen parsed. */
module KeptPaths {
  import opened Machine
  import opened Bytes
  import opened HeapTable
  import opened KernelMemory
  import opened AddressSpace
  import opened ProcessState
  import opened ProcessLoad
  import opened ProcessRecord
  import opened ProcessAssembly
  import opened Processes
  import opened PathText
  import CStrings
  import ElfLoader
  import ElfMapping
  import ProcessRuns

  /** 0:/a */
  function ShortPath(): seq<Byte> {
    [48, 58, 47, 97, 0]
  }

  lemma ShortPathBlocks()
    ensures PathBlocks(CStrings.CText(ShortPath())) == 3 && 0 in ShortPath()
  {
    var s := ShortPath();
    assert s[4] == 0;
    assert CStrings.CText(s) == [48, COLON, SLASH, 97] by {
      assert s[1..][1..][1..][1..] == [0];
    }
    var text: seq<Byte> := [48, COLON, SLASH, 97];
    assert text[3..] == [97];
    assert HeadLength([97]) == 1 by { assert ([97 as Byte])[1..] == []; }
    assert AfterHead([97]) == [];
    assert Components([97]) == [[97]] by { assert ([97 as Byte])[..1] == [97]; NoComponents([]); }
  }

  /** A segment that starts with the image and is nearly 4 GB long in memory: its end wraps round. */
  function HugeSegment(): ElfLoader.Phdr {
    ElfLoader.Phdr(ElfLoader.PT_LOAD, 0, 0x0040_0000, 4096, 0xFFFF_0000, 4)
  }

  lemma HugeIsRefused(image: nat)
    requires image < HEAP_BLOCKS
    ensures !ElfMapping.Accepted(Address(image), [HugeSegment()])
  {
    var elf, ph := Address(image), HugeSegment();
    assert ElfMapping.Refused(elf, ph);
    assert [ph][0] == ph;
  }

  lemma BootRoom(s: State)
    requires ProcessRuns.Boot(s)
    ensures HasRun(s.t, LOAD_ROOM + 2) && TailSettled(s)
  {
    assert FreeRun(s.t, 0, LOAD_ROOM + 2);
  }

  lemma KeptBlocks(s0: State, s: State, kept: seq<nat>)
    requires ProcessRuns.Boot(s0) && KeptOnly(s0, s, kept)
    ensures |s.live| == |kept| && forall b <- s.owner :: s.owner[b] == Role.Kernel
  {
    DistinctSize(kept);
    assert s.live.Keys == Elements(kept);
    assert |s.live| == |s.live.Keys|;
  }

  function Elements(blocks: seq<nat>): set<nat> {
    set b | b in blocks
  }

  lemma {:induction false} DistinctSize(blocks: seq<nat>)
    requires Distinct(blocks)
    ensures |Elements(blocks)| == |blocks|
  {
    if blocks != [] {
      var last, rest := blocks[|blocks| - 1], blocks[..|blocks| - 1];
      DistinctSize(rest);
      assert blocks == rest + [last] && last !in rest;
      assert Elements(blocks) == Elements(rest) + {last};
    }
  }

  /** On an empty heap, a load that fails because a segment is refused leaves three blocks for good. */
  method FailsAndKeeps(kernel: Kernel) returns (table: ProcessTable, res: int)
    requires kernel.Valid() && kernel.live == map[]
    modifies kernel, kernel.heap.entries, kernel.ram
    ensures fresh(table) && table.Valid() && res == -EINVARG && table.processes == map[]
    ensures |table.state.live| == 3 && forall b <- table.state.owner :: table.state.owner[b] == Role.Kernel
  {
    hide ProcessTable.Tied, Inv, HeapInv, ProcessRuns.Reaches, Loaded, Settled, HasRun;
    table := new ProcessTable(kernel);
    ghost var s0 := table.state;
    BootRoom(s0);
    ShortPathBlocks();
    BlocksIsCeiling(4096);
    ghost var g;
    res, g := table.Load(0, ShortPath(), File(true, true, true, 4096), [HugeSegment()]);
    HugeIsRefused(g.image);
    KeptBlocks(s0, table.state, g.kept);
  }
}
