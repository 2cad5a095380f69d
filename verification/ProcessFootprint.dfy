/** The blocks that a process is made of, in the order they are freed. */
module ProcessFootprint {
  import opened Machine
  import opened HeapTable
  import opened PageTables
  import opened KernelMemory
  import opened ProcessState
  import opened AddressSpace
  import opened ProcessMemory
  import opened ProcessLife
  import opened ProcessRecord
  import ProcessRuns

  /** Pointers and blocks of a process whose allocations are gone, in the order they are freed. */
  ghost predicate FreeableFootprint(live: Live, m: Memory, first: seq<Word>, chunk: Word, task: Word, self: Word,
      directory: Word, blocks: seq<nat>) {
    var r := |first|;
    && |blocks| == r + ENTRIES + 4 && Distinct(blocks)
    && (forall b | b in blocks :: b < HEAP_BLOCKS && b in live)
    && (forall i | 0 <= i < r :: blocks[i] < HEAP_BLOCKS && first[i] == Address(blocks[i]))
    && blocks[r + ENTRIES] < HEAP_BLOCKS && directory == Address(blocks[r + ENTRIES])
    && blocks[r + ENTRIES + 1] < HEAP_BLOCKS && chunk == Address(blocks[r + ENTRIES + 1])
    && blocks[r + ENTRIES + 2] < HEAP_BLOCKS && task == Address(blocks[r + ENTRIES + 2])
    && blocks[r + ENTRIES + 3] < HEAP_BLOCKS && self == Address(blocks[r + ENTRIES + 3])
    && Destroyable(live, m, chunk, blocks[r + ENTRIES], blocks[r..r + ENTRIES])
  }

  lemma PageAddress(w: Word, b: int)
    requires w % 4096 == 0 && w / 4096 - HEAP_PAGE == b && 0 <= b < HEAP_BLOCKS
    ensures w == Address(b)
  {
  }

  lemma FootprintOfProcess(s: State, pid: nat, process: Process) returns (blocks: seq<nat>)
    requires Inv(s) && pid in s.procs && s.procs[pid].allocations == NoAllocations()
    requires s.procs[pid] == process.Value() && process.Aligned()
    ensures FreeableFootprint(s.live, s.m, process.Image() + [process.stack], process.chunk, process.task,
            process.self, process.directory, blocks)
    ensures forall b :: b in blocks <==> b in Belongings(s, pid)
  {
    hide Inv, FreeableFootprint, Belongings, PagesOf;
    var first := process.Image() + [process.stack];
    assert process.Image() + [process.stack, process.task, process.self] == first + [process.task, process.self];
    blocks := FootprintIsFreeable(s, pid, first, process.chunk, process.task, process.self, process.directory);
  }

  lemma RestIsFreeable(s: State, pid: nat, process: Process)
    requires Inv(s) && pid in s.procs && s.procs[pid].allocations == NoAllocations() && s.procs[pid] == process.Value()
    ensures ProcessRuns.CanFreeRest(s, pid)
  {
    assert ProcOk(s, pid);
  }

  lemma FootprintBasics(s: State, pid: nat) returns (blocks: seq<nat>)
    requires Inv(s) && pid in s.procs && s.procs[pid].allocations == NoAllocations() && 2 <= |s.procs[pid].resources|
    ensures InMemory(s.m, s.procs[pid].directory) && blocks == Footprint(s, pid)
    ensures Distinct(blocks) && forall b :: b in blocks <==> b in Belongings(s, pid)
    ensures forall i | 0 <= i < |blocks| :: blocks[i] < HEAP_BLOCKS && blocks[i] in s.live
    ensures InMemory(s.m, s.procs[pid].chunk) && WordAt(s.m, s.procs[pid].chunk, 0) == s.procs[pid].directory * 4096
    ensures (HEAP_PAGE + HEAP_BLOCKS) * 1024 <= |s.m|
  {
    FootprintIsBelongings(s, pid);
    assert ProcOk(s, pid) && ChunkOk(s, pid);
    var f := Footprint(s, pid);
    forall i | 0 <= i < |f| ensures 0 <= f[i] < HEAP_BLOCKS && f[i] in s.live { FootprintRoles(s, pid, i); }
    blocks := f;
  }

  lemma FootprintIsFreeable(s: State, pid: nat, first: seq<Word>, chunk: Word, task: Word, self: Word,
      directory: Word) returns (blocks: seq<nat>)
    requires Inv(s) && pid in s.procs && 1 <= |first|
    requires s.procs[pid] == Proc(directory / 4096, chunk / 4096, NoAllocations(), PagesOf(first + [task, self]))
    requires directory % 4096 == 0 && chunk % 4096 == 0 && task % 4096 == 0 && self % 4096 == 0
    requires forall i | 0 <= i < |first| :: first[i] % 4096 == 0
    ensures FreeableFootprint(s.live, s.m, first, chunk, task, self, directory, blocks)
    ensures forall b :: b in blocks <==> b in Belongings(s, pid)
  {
    hide Inv, Footprint, Belongings, PagesOf, NoAllocations;
    blocks := FootprintBasics(s, pid);
    FootprintAddresses(s, pid, first, chunk, task, self, directory, blocks);
    FootprintTables(s, pid, blocks);
    TailDistinct(blocks, |first|);
  }

  lemma TailDistinct(blocks: seq<nat>, r: nat)
    requires Distinct(blocks) && |blocks| == r + ENTRIES + 4
    ensures Distinct(blocks[r..r + ENTRIES] + [blocks[r + ENTRIES]] + [blocks[r + ENTRIES + 1]])
    ensures forall b | b in blocks[r..r + ENTRIES] + [blocks[r + ENTRIES]] + [blocks[r + ENTRIES + 1]] :: b in blocks
  {
    assert blocks[r..r + ENTRIES] + [blocks[r + ENTRIES]] + [blocks[r + ENTRIES + 1]] == blocks[r..r + ENTRIES + 2];
  }

  lemma FootprintAddresses(s: State, pid: nat, first: seq<Word>, chunk: Word, task: Word, self: Word, directory: Word,
      blocks: seq<nat>)
    requires pid in s.procs && InMemory(s.m, s.procs[pid].directory) && 1 <= |first|
    requires s.procs[pid] == Proc(directory / 4096, chunk / 4096, NoAllocations(), PagesOf(first + [task, self]))
    requires directory % 4096 == 0 && chunk % 4096 == 0 && task % 4096 == 0 && self % 4096 == 0
    requires forall i | 0 <= i < |first| :: first[i] % 4096 == 0
    requires blocks == Footprint(s, pid) && forall i | 0 <= i < |blocks| :: blocks[i] < HEAP_BLOCKS
    ensures var r := |first|;
      && |blocks| == r + ENTRIES + 4
      && (forall i | 0 <= i < r :: first[i] == Address(blocks[i]))
      && directory == Address(blocks[r + ENTRIES]) && chunk == Address(blocks[r + ENTRIES + 1])
      && task == Address(blocks[r + ENTRIES + 2]) && self == Address(blocks[r + ENTRIES + 3])
  {
    var r, all := |first|, first + [task, self];
    assert |PagesOf(all)| == r + 2 && all[r] == task && all[r + 1] == self;
    forall i | 0 <= i < r ensures first[i] == Address(blocks[i]) {
      assert all[i] == first[i] && blocks[i] == PagesOf(all)[i] - HEAP_PAGE;
      PageAddress(first[i], blocks[i]);
    }
    PageAddress(directory, blocks[r + ENTRIES]);
    PageAddress(chunk, blocks[r + ENTRIES + 1]);
    PageAddress(task, blocks[r + ENTRIES + 2]);
    PageAddress(self, blocks[r + ENTRIES + 3]);
  }

  lemma FootprintTables(s: State, pid: nat, blocks: seq<nat>)
    requires pid in s.procs && InMemory(s.m, s.procs[pid].directory) && 2 <= |s.procs[pid].resources|
    requires blocks == Footprint(s, pid)
    ensures var r := |s.procs[pid].resources| - 2;
      forall i: nat | i < ENTRIES ::
        Frame(WordAt(s.m, s.procs[pid].directory, i)) == HEAP_PAGE + blocks[r..r + ENTRIES][i]
  {
    var r := |s.procs[pid].resources| - 2;
    forall i: nat | i < ENTRIES
      ensures Frame(WordAt(s.m, s.procs[pid].directory, i)) == HEAP_PAGE + blocks[r..r + ENTRIES][i]
    {
      assert blocks[r + i] == TablePage(s.m, s.procs[pid].directory, i) - HEAP_PAGE;
    }
  }

  /** What process_free_process frees before it comes to the task. */
  method FreeBeforeTask(k: KernelMemory.Kernel, first: seq<Word>, chunk: Word, ghost task: Word, ghost self: Word,
      ghost directory: Word, ghost blocks: seq<nat>)
    requires k.Valid() && FreeableFootprint(k.live, k.ram[..], first, chunk, task, self, directory, blocks)
    modifies k, k.heap.entries
    ensures k.Valid() && k.live == Without(old(k.live), blocks[..|first| + ENTRIES + 2])
    ensures FootprintEnd(old(k.live), task, self, |first|, blocks)
  {
    hide Represents, Without;
    ghost var live, r := k.live, |first|;
    FreeFirst(k, first, live, blocks);
    FreeSpace(k, chunk, live, blocks, r);
  }

  /** The last two blocks are the task and the process record. */
  ghost predicate FootprintEnd(live: Live, task: Word, self: Word, r: nat, blocks: seq<nat>) {
    && |blocks| == r + ENTRIES + 4 && Distinct(blocks) && (forall b | b in blocks :: b < HEAP_BLOCKS && b in live)
    && blocks[r + ENTRIES + 2] < HEAP_BLOCKS && task == Address(blocks[r + ENTRIES + 2])
    && blocks[r + ENTRIES + 3] < HEAP_BLOCKS && self == Address(blocks[r + ENTRIES + 3])
  }

  method FreeTask(k: KernelMemory.Kernel, task: Word, self: Word, ghost r: nat, ghost live: Live,
      ghost blocks: seq<nat>)
    requires k.Valid() && FootprintEnd(live, task, self, r, blocks)
    requires k.live == Without(live, blocks[..r + ENTRIES + 2])
    modifies k, k.heap.entries
    ensures k.Valid() && k.live == Without(live, blocks)
  {
    hide Represents, Without;
    FreeOne(k, task, live, blocks, r + ENTRIES + 2);
    FreeOne(k, self, live, blocks, r + ENTRIES + 3);
    assert blocks[..r + ENTRIES + 4] == blocks;
  }

  method FreeFirst(k: KernelMemory.Kernel, first: seq<Word>, ghost live: Live, ghost blocks: seq<nat>)
    requires k.Valid() && k.live == live && Distinct(blocks) && |first| <= |blocks|
    requires forall i | 0 <= i < |first| ::
               blocks[i] < HEAP_BLOCKS && blocks[i] in live && first[i] == Address(blocks[i])
    modifies k, k.heap.entries
    ensures k.Valid() && k.live == Without(live, blocks[..|first|])
  {
    var i := 0;
    while i < |first|
      invariant 0 <= i <= |first| && k.Valid() && k.live == Without(live, blocks[..i])
    {
      FreeOne(k, first[i], live, blocks, i);
      i := i + 1;
    }
  }

  /** paging_free_4gb in the middle of the footprint. */
  method FreeSpace(k: KernelMemory.Kernel, chunk: Word, ghost live: Live, ghost blocks: seq<nat>, ghost r: nat)
    requires k.Valid() && |blocks| == r + ENTRIES + 4 && Distinct(blocks) && k.live == Without(live, blocks[..r])
    requires Destroyable(live, k.ram[..], chunk, blocks[r + ENTRIES], blocks[r..r + ENTRIES])
    requires chunk / 4096 - HEAP_PAGE == blocks[r + ENTRIES + 1]
    modifies k, k.heap.entries
    ensures k.Valid() && k.live == Without(live, blocks[..r + ENTRIES + 2])
  {
    StillDestroyable(live, k.ram[..], chunk, blocks, r);
    hide Represents, Destroyable, Distinct;
    Free4gb(k, chunk, blocks[r + ENTRIES], blocks[r..r + ENTRIES]);
    WithoutInTwo(live, blocks, r);
  }

  lemma StillDestroyable(live: Live, m: Memory, chunk: Word, blocks: seq<nat>, r: nat)
    requires |blocks| == r + ENTRIES + 4 && Distinct(blocks) && chunk / 4096 - HEAP_PAGE == blocks[r + ENTRIES + 1]
    requires Destroyable(live, m, chunk, blocks[r + ENTRIES], blocks[r..r + ENTRIES])
    ensures Destroyable(Without(live, blocks[..r]), m, chunk, blocks[r + ENTRIES], blocks[r..r + ENTRIES])
  {
    var mid := blocks[r..r + ENTRIES] + [blocks[r + ENTRIES]] + [blocks[r + ENTRIES + 1]];
    assert mid == blocks[r..r + ENTRIES + 2];
    forall b | b in mid ensures b in Without(live, blocks[..r]) {
      var i :| 0 <= i < |mid| && mid[i] == b;
      assert mid[i] == blocks[r + i];
    }
  }

  lemma WithoutInTwo(live: Live, blocks: seq<nat>, r: nat)
    requires |blocks| == r + ENTRIES + 4
    ensures Without(Without(live, blocks[..r]),
              blocks[r..r + ENTRIES] + [blocks[r + ENTRIES]] + [blocks[r + ENTRIES + 1]])
            == Without(live, blocks[..r + ENTRIES + 2])
  {
    var mid := blocks[r..r + ENTRIES] + [blocks[r + ENTRIES]] + [blocks[r + ENTRIES + 1]];
    assert blocks[..r] + mid == blocks[..r + ENTRIES + 2];
  }
}
