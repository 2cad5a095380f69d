/** When a loaded program stays inside its own blocks. */
module ProgramIsolation {
  import opened Machine
  import opened HeapTable
  import opened PageTables
  import opened KernelMemory
  import opened ProcessState
  import opened ProcessMemory
  import opened ProcessLife
  import opened ProcessRecord
  import opened ElfLoader
  import opened ElfMapping
  import opened ProcessIsolation

  // ---------------------------------------------------------------- segments

  /** The range call for the segment maps at least one page, writable. */
  predicate Writes(elf: Word, ph: Phdr) {
    PfW(ph.flags) && !Refused(elf, ph) && 0 < PageCount(elf, ph)
  }

  /** What the segment maps lies in an image of n blocks. */
  predicate Inside(ph: Phdr, n: nat) {
    ph.offset + ph.memsz <= 4096 * n
  }

  /** The page table entries of virtual page q come from the last segment that covers it, if any does. */
  lemma {:induction false} LastPteCases(elf: Word, phs: seq<Phdr>, q: nat, before: Word)
    requires q < PAGES
    ensures LastPte(elf, phs, q, before) == before
            || exists i: nat :: i < |phs| && Covers(elf, phs[i], q)
                                && LastPte(elf, phs, q, before) == SegmentPte(elf, phs[i], q)
    decreases |phs|
  {
    if phs != [] {
      var n := |phs| - 1;
      if !Covers(elf, phs[n], q) {
        LastPteCases(elf, phs[..n], q, before);
        if i: nat :| i < n && Covers(elf, phs[..n][i], q)
                      && LastPte(elf, phs[..n], q, before) == SegmentPte(elf, phs[..n][i], q) {
          assert phs[..n][i] == phs[i];
        }
      }
    }
  }

  /** Frames of a segment in terms of its place in the image. */
  lemma SegmentFrames(elf: Word, ph: Phdr, q: nat)
    requires Fits(elf, ph) && q < PAGES && Covers(elf, ph, q) && elf % 4096 == 0
    ensures var f := Frame(SegmentPte(elf, ph, q));
      elf / 4096 <= f && (f - elf / 4096) * 4096 < AlignUp(ph.offset + ph.memsz)
  {
    hide Ahead, AlignUp, AlignDown;
    var phys := elf + ph.offset;
    assert Phys(elf, ph) == phys;
    AlignUpBounds(phys + ph.memsz);
    UpShifted(elf, ph.offset + ph.memsz);
    Between(elf, phys, AlignUp(phys + ph.memsz), Ahead(FirstPage(ph), q));
  }

  lemma Between(elf: Word, phys: Word, end: Word, k: nat)
    requires elf % 4096 == 0 && elf <= phys && end % 4096 == 0 && k < (end - AlignDown(phys)) / 4096
    ensures AlignDown(phys) / 4096 + k < PAGES
    ensures Shift(AlignDown(phys) / 4096, k) == AlignDown(phys) / 4096 + k
    ensures Frame(EntryOf(AlignDown(phys) / 4096 + k, 5)) == Frame(EntryOf(AlignDown(phys) / 4096 + k, 7))
         == AlignDown(phys) / 4096 + k
    ensures elf / 4096 <= AlignDown(phys) / 4096 + k
    ensures (AlignDown(phys) / 4096 + k - elf / 4096) * 4096 < end - elf
  {
  }

  lemma UpShifted(elf: Word, x: Word)
    requires elf % 4096 == 0 && elf + x <= U32 - 4096
    ensures AlignUp(elf + x) == elf + AlignUp(x)
  {
  }

  /** The last page that a segment maps. */
  lemma LastPage(elf: Word, ph: Phdr) returns (q: nat)
    requires Fits(elf, ph) && elf % 4096 == 0 && Writes(elf, ph) && PROGRAM_ADDRESS <= ph.vaddr
    ensures q < PAGES && Covers(elf, ph, q) && (q == 0 || PROGRAM_ADDRESS / 4096 <= q)
    ensures Frame(SegmentPte(elf, ph, q)) == elf / 4096 + AlignUp(ph.offset + ph.memsz) / 4096 - 1
  {
    hide AlignUp, AlignDown, Ahead, Shift;
    var phys, n := elf + ph.offset, PageCount(elf, ph);
    assert Phys(elf, ph) == phys;
    UpShifted(elf, ph.offset + ph.memsz);
    PagesFit(phys, ph.memsz, ph.vaddr, n);
    Between(elf, phys, AlignUp(phys + ph.memsz), n - 1);
    FirstOfSegment(ph);
    q := LastOf(FirstPage(ph), n);
    EndInPages(elf, AlignUp(ph.offset + ph.memsz));
  }

  lemma FirstOfSegment(ph: Phdr)
    requires PROGRAM_ADDRESS <= ph.vaddr
    ensures FirstPage(ph) == ph.vaddr / 4096 && PROGRAM_ADDRESS / 4096 <= FirstPage(ph) < PAGES
  {
  }

  lemma EndInPages(elf: Word, end: Word)
    requires elf % 4096 == 0
    ensures (elf + end) / 4096 == elf / 4096 + end / 4096
  {
  }

  lemma LastOf(v: nat, n: nat) returns (q: nat)
    requires PROGRAM_ADDRESS / 4096 <= v < PAGES && 0 < n && v + n <= PAGES + 1
    ensures q < PAGES && Ahead(v, q) == n - 1 && (q == 0 || PROGRAM_ADDRESS / 4096 <= q)
  {
    q := if v + n - 1 < PAGES then v + n - 1 else 0;
  }

  lemma PagesFit(phys: Word, size: Word, v: Word, n: nat)
    requires phys + size <= U32 - 4096 && v + size <= U32 && n == (AlignUp(phys + size) - AlignDown(phys)) / 4096
    ensures v / 4096 + n <= PAGES + 1 && AlignDown(phys) / 4096 + n == AlignUp(phys + size) / 4096
    ensures AlignUp(phys + size) % 4096 == 0
  {
    AlignUpBounds(phys + size);
  }

  // ---------------------------------------------------------------- the blocks of a loaded process

  /** Image and stack, as blocks of the process. */
  lemma ImageAndStack(s: State, pid: nat, process: Process, size: Word)
    requires Inv(s) && pid in s.procs && s.procs[pid] == process.Value() && process.Aligned() && Sized(s, process, size)
    ensures var image, stack, n := BlockOf(process.Image()[0]), BlockOf(process.stack), |process.Value().resources|;
      && 0 <= image && image in s.owner && image in s.live && s.owner[image] == Resource(pid, 0)
      && s.live[image] == Blocks(size)
      && 0 <= stack && stack in s.owner && stack in s.live && s.owner[stack] == Resource(pid, n - 3)
      && s.live[stack] == STACK_PAGES && 4 <= n
  {
    hide Represents, DirectoryOk, TaskOk, SlotOk;
    assert ProcOk(s, pid);
    var all := process.Image() + [process.stack, process.task, process.self];
    assert all[0] == process.Image()[0] && all[|all| - 3] == process.stack;
    assert ResourceOk(s, pid, 0) && ResourceOk(s, pid, |all| - 3);
    assert Blocks(STACK_SIZE) == STACK_PAGES;
  }

  /** All rights in the directory: a page may be written exactly if its table entry says so. */
  lemma TableDecides(s: State, pid: nat, q: nat)
    requires Inv(s) && pid in s.procs && q < PAGES
    ensures GoodDirectory(s.m, s.procs[pid].directory)
    ensures var d := s.procs[pid].directory; UserWrites(s.m, d, q) <==> ForUserToWrite(Pte(s.m, d, q))
  {
    hide Represents, ResourcesOk, SlotOk;
    assert ProcOk(s, pid);
    DirectoryIsGood(s, pid);
    assert WordAt(s.m, s.procs[pid].directory, q / 1024) % 4096 == RW_USER;
    FullRights(Pde(s.m, s.procs[pid].directory, q));
  }

  /** A process without allocations has no block of memory. */
  lemma NoMemoryYet(s: State, pid: nat, b: nat)
    requires Inv(s) && pid in s.procs && s.procs[pid].allocations == NoAllocations() && b in s.owner
    ensures !(s.owner[b].Memory? && s.owner[b].pid == pid)
  {
    assert RoleOk(s, b);
  }

  /** Where a page that is not a stack page may lead, as long as the process has no allocations. */
  lemma OnlyTheImage(s: State, pid: nat, process: Process, size: Word, q: nat, f: nat)
    requires Inv(s) && pid in s.procs && s.procs[pid] == process.Value() && process.Aligned() && Sized(s, process, size)
    requires process.allocations == NoAllocations() && !(STACK_PAGE <= q < STACK_PAGE + STACK_PAGES)
    ensures OwnFrame(s, pid, q, f) <==> process.Image()[0] / 4096 <= f < process.Image()[0] / 4096 + Blocks(size)
  {
    ImageAndStack(s, pid, process, size);
    var image := BlockOf(process.Image()[0]);
    if OwnFrame(s, pid, q, f) {
      var b :| FramesIn(s, pid, q, f, b);
      NoMemoryYet(s, pid, b);
      SameResource(s, pid, b, image);
    } else if process.Image()[0] / 4096 <= f < process.Image()[0] / 4096 + Blocks(size) {
      InTheImage(s, pid, q, f, image);
    }
  }

  lemma InTheImage(s: State, pid: nat, q: nat, f: nat, image: nat)
    requires pid in s.procs && image in s.owner && image in s.live && s.owner[image] == Resource(pid, 0)
    requires HEAP_PAGE + image <= f < HEAP_PAGE + image + s.live[image] && 4 <= |s.procs[pid].resources|
    ensures OwnFrame(s, pid, q, f)
  {
    assert FramesIn(s, pid, q, f, image);
  }

  lemma SameResource(s: State, pid: nat, b: nat, image: nat)
    requires Inv(s) && b in s.owner && image in s.owner && s.owner[image] == Resource(pid, 0)
    ensures s.owner[b] == Resource(pid, 0) ==> b == image
  {
    assert RoleOk(s, b) && RoleOk(s, image);
  }

  lemma StackFrame(s: State, pid: nat, process: Process, size: Word, q: nat)
    requires Inv(s) && pid in s.procs && s.procs[pid] == process.Value() && process.Aligned() && Sized(s, process, size)
    requires STACK_PAGE <= q < STACK_PAGE + STACK_PAGES
    ensures OwnFrame(s, pid, q, process.stack / 4096 + q - STACK_PAGE)
  {
    ImageAndStack(s, pid, process, size);
    assert FramesIn(s, pid, q, process.stack / 4096 + q - STACK_PAGE, BlockOf(process.stack));
  }

  // ---------------------------------------------------------------- ELF programs

  /** A loaded ELF process, its segments page-disjoint, within the 32-bit space, and above the stack. */
  ghost predicate LoadedElf(s: State, pid: nat, process: Process, size: Word, phs: seq<Phdr>, m: Memory)
    reads process
  {
    && Inv(s) && pid in s.procs && s.procs[pid] == process.Value() && process.Aligned() && process.isElf
    && process.allocations == NoAllocations() && Sized(s, process, size) && MappedFrom(m, s.m, process, size, phs)
    && Accepted(process.elfMemory, phs) && PageDisjoint(process.elfMemory, phs)
    && forall i: nat | i < |phs| :: Fits(process.elfMemory, phs[i]) && PROGRAM_ADDRESS <= phs[i].vaddr
  }

  lemma ElfPages(s: State, pid: nat, process: Process, size: Word, phs: seq<Phdr>, m: Memory, q: nat)
    requires LoadedElf(s, pid, process, size, phs, m) && q < PAGES
    ensures GoodDirectory(s.m, s.procs[pid].directory) && s.procs[pid].directory == process.directory / 4096
    ensures Pte(s.m, s.procs[pid].directory, q) ==
            if STACK_PAGE <= q < STACK_PAGE + STACK_PAGES then EntryOf(process.stack / 4096 + q - STACK_PAGE, 7)
            else LastPte(process.elfMemory, phs, q, EntryOf(q, 5))
  {
    hide Inv, MappedFrom, PageDisjoint, Fits;
    LoadedPages(m, s.m, process, size, phs, q);
  }

  /** The segments that may be written are inside the image: then so is every page that may be written,
      but for the stack. */
  lemma InsideIsConfined(s: State, pid: nat, process: Process, size: Word, phs: seq<Phdr>, m: Memory, q: nat)
    requires LoadedElf(s, pid, process, size, phs, m) && q < PAGES
    requires forall i: nat | i < |phs| && Writes(process.elfMemory, phs[i]) :: Inside(phs[i], Blocks(size))
    requires GoodDirectory(s.m, s.procs[pid].directory) && UserWrites(s.m, s.procs[pid].directory, q)
    ensures OwnFrame(s, pid, q, Frame(Pte(s.m, s.procs[pid].directory, q)))
  {
    hide Inv, MappedFrom, PageDisjoint, Sized, GoodDirectory, UserWrites, OwnFrame, Fits, Covers, SegmentPte, Blocks;
    hide Inside, Writes, LastPte, Pte, ForUserToWrite, Accepted;
    var elf, e := process.elfMemory, Pte(s.m, s.procs[pid].directory, q);
    ElfPages(s, pid, process, size, phs, m, q);
    TableDecides(s, pid, q);
    if STACK_PAGE <= q < STACK_PAGE + STACK_PAGES {
      StackFrame(s, pid, process, size, q);
      FrameOf(process.stack / 4096 + q - STACK_PAGE, 7);
    } else {
      LastPteCases(elf, phs, q, EntryOf(q, 5));
      NotForUser(q);
      var i: nat :| i < |phs| && Covers(elf, phs[i], q) && e == SegmentPte(elf, phs[i], q);
      ImageFrame(elf, phs[i], q, Blocks(size));
      OnlyTheImage(s, pid, process, size, q, Frame(e));
    }
  }

  lemma ImageFrame(elf: Word, ph: Phdr, q: nat, n: nat)
    requires Fits(elf, ph) && q < PAGES && Covers(elf, ph, q) && elf % 4096 == 0
    requires ForUserToWrite(SegmentPte(elf, ph, q)) && (Writes(elf, ph) ==> Inside(ph, n))
    ensures elf / 4096 <= Frame(SegmentPte(elf, ph, q)) < elf / 4096 + n
  {
    hide Covers, SegmentPte;
    SegmentRights(elf, ph, q);
    SegmentFrames(elf, ph, q);
    InBlocks(ph.offset + ph.memsz, n, Frame(SegmentPte(elf, ph, q)) - elf / 4096);
  }

  lemma FrameOf(page: nat, flags: nat)
    requires page < PAGES && flags < 4096
    ensures Frame(EntryOf(page, flags)) == page
  {
  }

  lemma NotForUser(q: nat)
    requires q < PAGES
    ensures !ForUserToWrite(EntryOf(q, 5))
  {
  }

  lemma SegmentRights(elf: Word, ph: Phdr, q: nat)
    requires q < PAGES && Covers(elf, ph, q)
    ensures ForUserToWrite(SegmentPte(elf, ph, q)) <==> PfW(ph.flags)
    ensures PfW(ph.flags) ==> Writes(elf, ph)
  {
  }

  lemma InBlocks(x: Word, n: nat, k: int)
    requires x <= 4096 * n && 0 <= k && k * 4096 < AlignUp(x) && x <= U32 - 4096
    ensures k < n
  {
    AlignUpBounds(x);
  }

  /** A writable segment that ends behind the image makes a page behind the image writable. */
  lemma OutsideEscapes(s: State, pid: nat, process: Process, size: Word, phs: seq<Phdr>, m: Memory, i: nat)
    requires LoadedElf(s, pid, process, size, phs, m) && i < |phs|
    requires Writes(process.elfMemory, phs[i]) && !Inside(phs[i], Blocks(size))
    ensures !Confined(s, pid)
  {
    hide Inv, MappedFrom, Sized, GoodDirectory, UserWrites, OwnFrame, Fits;
    var elf, ph := process.elfMemory, phs[i];
    assert Fits(elf, ph);
    var q := LastPage(elf, ph);
    ElfPages(s, pid, process, size, phs, m, q);
    TableDecides(s, pid, q);
    assert Decides(elf, phs, i, q);
    DecidedPte(elf, phs, i, q, EntryOf(q, 5));
    SegmentRights(elf, ph, q);
    BehindBlocks(elf, ph, Blocks(size));
    OnlyTheImage(s, pid, process, size, q, Frame(SegmentPte(elf, ph, q)));
  }

  lemma BehindBlocks(elf: Word, ph: Phdr, n: nat)
    requires Fits(elf, ph) && !Inside(ph, n)
    ensures n <= AlignUp(ph.offset + ph.memsz) / 4096 - 1
  {
    AlignUpBounds(ph.offset + ph.memsz);
  }

  /** Every page that a freshly loaded ELF process may write is its own if and only if every writable
      segment ends within the image: what p_memsz asks for behind it is given out whoever has it. */
  lemma ElfConfinedIff(s: State, pid: nat, process: Process, size: Word, phs: seq<Phdr>, m: Memory)
    requires LoadedElf(s, pid, process, size, phs, m)
    ensures Confined(s, pid) <==>
            forall i: nat | i < |phs| && Writes(process.elfMemory, phs[i]) :: Inside(phs[i], Blocks(size))
  {
    hide Inv, MappedFrom, Sized, PageDisjoint, Fits, UserWrites, OwnFrame, Inside, Writes;
    if forall i: nat | i < |phs| && Writes(process.elfMemory, phs[i]) :: Inside(phs[i], Blocks(size)) {
      ElfPages(s, pid, process, size, phs, m, 0);
      forall q: nat | q < PAGES && UserWrites(s.m, s.procs[pid].directory, q)
        ensures OwnFrame(s, pid, q, Frame(Pte(s.m, s.procs[pid].directory, q)))
      {
        InsideIsConfined(s, pid, process, size, phs, m, q);
      }
    } else {
      var i: nat :| i < |phs| && Writes(process.elfMemory, phs[i]) && !Inside(phs[i], Blocks(size));
      OutsideEscapes(s, pid, process, size, phs, m, i);
    }
  }

  /** An image of one block whose only segment, writable, takes two pages in memory: the process may write
      the block behind its image. */
  lemma ZeroPagesEscape(s: State, pid: nat, process: Process, size: Word, phs: seq<Phdr>, m: Memory)
    requires size <= 4096 && process.elfMemory <= 0x0800_0000
    requires phs == [Phdr(PT_LOAD, 0, PROGRAM_ADDRESS, size, 0x2000, 6)]
    requires LoadedElf(s, pid, process, size, phs, m)
    ensures !Confined(s, pid)
  {
    hide LoadedElf;
    AlignedElf(s, pid, process, size, phs, m);
    BlocksIsCeiling(size);
    TwoPages(process.elfMemory, phs[0]);
    OutsideEscapes(s, pid, process, size, phs, m, 0);
  }

  lemma AlignedElf(s: State, pid: nat, process: Process, size: Word, phs: seq<Phdr>, m: Memory)
    requires LoadedElf(s, pid, process, size, phs, m)
    ensures process.elfMemory % 4096 == 0
  {
    hide Inv;
  }

  lemma TwoPages(elf: Word, ph: Phdr)
    requires elf % 4096 == 0 && elf <= 0x0800_0000 && ph.offset == 0 && ph.memsz == 0x2000 && ph.flags == 6
    ensures Writes(elf, ph)
  {
    assert Phys(elf, ph) == elf && PhysEnd(elf, ph) == elf + 0x2000;
  }

  // ---------------------------------------------------------------- flat binaries

  /** A flat binary is always confined: its image is mapped for exactly the blocks it has. */
  lemma BinaryIsConfined(s: State, pid: nat, process: Process, size: Word, phs: seq<Phdr>, m: Memory)
    requires Inv(s) && pid in s.procs && s.procs[pid] == process.Value() && process.Aligned() && !process.isElf
    requires process.allocations == NoAllocations() && Sized(s, process, size) && MappedFrom(m, s.m, process, size, phs)
    requires 0 < Blocks(size)
    ensures Confined(s, pid)
  {
    hide Inv, Sized, UserWrites, OwnFrame, MappedFrom;
    TableDecides(s, pid, 0);
    forall q: nat | q < PAGES && UserWrites(s.m, s.procs[pid].directory, q)
      ensures OwnFrame(s, pid, q, Frame(Pte(s.m, s.procs[pid].directory, q)))
    {
      TableDecides(s, pid, q);
      ImageInHeap(s, pid, process, size);
      BinaryPages(m, s.m, process, size, phs, q);
      if STACK_PAGE <= q < STACK_PAGE + STACK_PAGES {
        StackFrame(s, pid, process, size, q);
        FrameOf(process.stack / 4096 + q - STACK_PAGE, 7);
      } else {
        NotForUser(q);
        FrameOf(process.ptr / 4096 + Ahead(PROGRAM_ADDRESS / 4096, q), 7);
        OnlyTheImage(s, pid, process, size, q, process.ptr / 4096 + Ahead(PROGRAM_ADDRESS / 4096, q));
      }
    }
  }

  lemma ImageInHeap(s: State, pid: nat, process: Process, size: Word)
    requires Inv(s) && pid in s.procs && s.procs[pid] == process.Value() && process.Aligned() && Sized(s, process, size)
    ensures process.Image()[0] % 4096 == 0 && HEAP_PAGE <= process.Image()[0] / 4096
    ensures process.Image()[0] / 4096 + Blocks(size) <= HEAP_PAGE + HEAP_BLOCKS
  {
    hide Inv;
    HeapOf(s);
    BlockInHeap(s, BlockOf(process.Image()[0]));
  }

  /** A loaded flat binary: four stack pages below 0x3FF, the image from page 0x400 on, writable, and every
      other page itself. */
  lemma BinaryPages(m: Memory, n: Memory, process: Process, size: Word, phs: seq<Phdr>, q: nat)
    requires !process.isElf && MappedFrom(m, n, process, size, phs) && q < PAGES && 0 < Blocks(size)
    requires process.ptr % 4096 == 0 && HEAP_PAGE <= process.ptr / 4096
    requires process.ptr / 4096 + Blocks(size) <= HEAP_PAGE + HEAP_BLOCKS
    ensures var d, k := process.directory / 4096, Ahead(0x400, q);
      GoodDirectory(n, d) &&
      Pte(n, d, q) == if 0x3FB <= q < 0x3FF then EntryOf(process.stack / 4096 + q - 0x3FB, 7)
                      else if k < Blocks(size) then EntryOf(process.ptr / 4096 + k, 7) else EntryOf(q, 5)
  {
    var d := process.directory / 4096;
    var b := process.ptr / 4096 - HEAP_PAGE;
    assert process.ptr == Address(b);
    RangeOfBlock(b, size);
    AlignUpBounds(process.ptr + size);
    MapPagesEffect(m, d, PROGRAM_ADDRESS / 4096, process.ptr / 4096, Blocks(size), 7);
    StackEffect(WithBinary(m, d, process.ptr, size), d, process.stack, q);
    assert MappedPte(m, d, PROGRAM_ADDRESS / 4096, process.ptr / 4096, Blocks(size), 7, q)
        == Pte(WithBinary(m, d, process.ptr, size), d, q);
  }
}
