/** Mapping an ELF image into an address space: process_map_elf and the stack mapping that follows it. */
module ElfMapping {
  import opened Machine
  import opened PageTables
  import opened ElfLoader
  import Paging

  const STACK_END: Word := 0x3FB000      // 0x3FF000 - 1024 * 16
  const STACK_SIZE: Word := 0x4000
  const PROGRAM_ADDRESS: Word := 0x40_0000

  predicate PfW(flags: Word) {
    flags / 2 % 2 == 1
  }

  /** PRESENT | ACCESS_FROM_ALL, and WRITEABLE where the segment says so. */
  function PageFlags(ph: Phdr): nat {
    if PfW(ph.flags) then 7 else 5
  }

  function PhysEnd(elf: Word, ph: Phdr): Word {
    AlignUp((Phys(elf, ph) + ph.memsz) % U32)
  }

  /** paging_map_to refuses the segment: its page-aligned end wraps below its start. */
  predicate Refused(elf: Word, ph: Phdr) {
    PhysEnd(elf, ph) < AlignDown(Phys(elf, ph))
  }

  function FirstPage(ph: Phdr): nat {
    AlignDown(ph.vaddr) / 4096
  }

  function PageCount(elf: Word, ph: Phdr): nat
    requires !Refused(elf, ph)
  {
    (PhysEnd(elf, ph) - AlignDown(Phys(elf, ph))) / 4096
  }

  /** The segment's range call writes virtual page q. */
  predicate Covers(elf: Word, ph: Phdr, q: nat)
    requires q < PAGES
  {
    !Refused(elf, ph) && Ahead(FirstPage(ph), q) < PageCount(elf, ph)
  }

  /** The entry a covering segment leaves in page q. */
  function SegmentPte(elf: Word, ph: Phdr, q: nat): Word
    requires q < PAGES
  {
    EntryOf(Shift(AlignDown(Phys(elf, ph)) / 4096, Ahead(FirstPage(ph), q)), PageFlags(ph))
  }

  ghost function MapSegment(m: Memory, d: nat, elf: Word, ph: Phdr): Memory
    requires GoodDirectory(m, d) && !Refused(elf, ph)
  {
    MapPages(m, d, FirstPage(ph), AlignDown(Phys(elf, ph)) / 4096, PageCount(elf, ph), PageFlags(ph))
  }

  /** Segments in order until one is refused. */
  ghost function MapSegments(m: Memory, d: nat, elf: Word, phs: seq<Phdr>): Memory
    requires GoodDirectory(m, d)
    decreases |phs|
  {
    if phs == [] || Refused(elf, phs[0]) then m
    else
      SegmentEffect(m, d, elf, phs[0]);
      MapSegments(MapSegment(m, d, elf, phs[0]), d, elf, phs[1..])
  }

  lemma SegmentEffect(m: Memory, d: nat, elf: Word, ph: Phdr)
    requires GoodDirectory(m, d) && !Refused(elf, ph)
    ensures var n := MapSegment(m, d, elf, ph);
      && OnlyTables(m, n, d) && SameTables(m, n, d)
      && (forall q: nat | q < PAGES ::
            Pte(n, d, q) == if Covers(elf, ph, q) then SegmentPte(elf, ph, q) else Pte(m, d, q))
  {
    MapPagesEffect(m, d, FirstPage(ph), AlignDown(Phys(elf, ph)) / 4096, PageCount(elf, ph), PageFlags(ph));
    forall q: nat | q < PAGES
      ensures Pte(MapSegment(m, d, elf, ph), d, q) ==
              if Covers(elf, ph, q) then SegmentPte(elf, ph, q) else Pte(m, d, q)
    {
      assert Pte(MapSegment(m, d, elf, ph), d, q) ==
        MappedPte(m, d, FirstPage(ph), AlignDown(Phys(elf, ph)) / 4096, PageCount(elf, ph), PageFlags(ph), q);
    }
  }

  /** The call succeeds: no segment is refused. */
  ghost predicate Accepted(elf: Word, phs: seq<Phdr>) {
    forall i | 0 <= i < |phs| :: !Refused(elf, phs[i])
  }

  /** What page q holds after all segments: the entry of the last one that covers it. */
  ghost function LastPte(elf: Word, phs: seq<Phdr>, q: nat, before: Word): Word
    requires q < PAGES
  {
    if phs == [] then before
    else if Covers(elf, phs[|phs| - 1], q) then SegmentPte(elf, phs[|phs| - 1], q)
    else LastPte(elf, phs[..|phs| - 1], q, before)
  }

  lemma {:induction false} LastPteFront(elf: Word, phs: seq<Phdr>, q: nat, before: Word)
    requires q < PAGES && phs != []
    ensures LastPte(elf, phs, q, before) ==
            LastPte(elf, phs[1..], q, if Covers(elf, phs[0], q) then SegmentPte(elf, phs[0], q) else before)
    decreases |phs|
  {
    var rest := phs[1..];
    if rest != [] {
      var n := |phs| - 1;
      assert rest[|rest| - 1] == phs[n] && rest[..|rest| - 1] == phs[..n][1..];
      if !Covers(elf, phs[n], q) {
        LastPteFront(elf, phs[..n], q, before);
      }
    } else {
      assert phs[..0] == [];
    }
  }

  /** Mapping a whole image: only the tables of this directory are written, and every virtual page holds
      what the last segment covering it put there, or what it held before. */
  lemma {:induction false} SegmentsEffect(m: Memory, d: nat, elf: Word, phs: seq<Phdr>)
    requires GoodDirectory(m, d) && Accepted(elf, phs)
    ensures var n := MapSegments(m, d, elf, phs);
      && OnlyTables(m, n, d) && SameTables(m, n, d)
      && (forall q: nat | q < PAGES :: Pte(n, d, q) == LastPte(elf, phs, q, Pte(m, d, q)))
    decreases |phs|
  {
    if phs != [] {
      var s, n := MapSegment(m, d, elf, phs[0]), MapSegments(m, d, elf, phs);
      SegmentEffect(m, d, elf, phs[0]);
      SegmentsEffect(s, d, elf, phs[1..]);
      OnlyTablesTrans(m, s, n, d);
      forall q: nat | q < PAGES ensures Pte(n, d, q) == LastPte(elf, phs, q, Pte(m, d, q)) {
        LastPteFront(elf, phs, q, Pte(m, d, q));
      }
    }
  }

  /** Even a call that stops at a refused segment writes nothing but this directory's tables. */
  lemma {:induction false} SegmentsTables(m: Memory, d: nat, elf: Word, phs: seq<Phdr>)
    requires GoodDirectory(m, d)
    ensures var n := MapSegments(m, d, elf, phs); GoodDirectory(n, d) && OnlyTables(m, n, d) && SameTables(m, n, d)
    decreases |phs|
  {
    if phs != [] && !Refused(elf, phs[0]) {
      var s := MapSegment(m, d, elf, phs[0]);
      SegmentEffect(m, d, elf, phs[0]);
      SegmentsTables(s, d, elf, phs[1..]);
      OnlyTablesTrans(m, s, MapSegments(m, d, elf, phs), d);
    }
  }

  /** One round of the loop of process_map_elf. */
  method MapOne(ram: array<Word>, directory: Word, elf: Word, ph: Phdr) returns (res: int)
    requires directory % 4096 == 0 && GoodDirectory(ram[..], directory / 4096)
    modifies ram
    ensures Refused(elf, ph) ==> res == -EINVARG && ram[..] == old(ram[..])
    ensures !Refused(elf, ph) ==> res == 0 && ram[..] == MapSegment(old(ram[..]), directory / 4096, elf, ph)
  {
    var phys := (elf + ph.offset) % U32;
    var flags := PRESENT + USER;
    if ph.flags / 2 % 2 == 1 {
      flags := flags + WRITEABLE;
    }
    AlignedEnds(elf, ph);
    res := Paging.MapTo(ram, directory, AlignDown(ph.vaddr), AlignDown(phys), AlignUp((phys + ph.memsz) % U32), flags);
  }

  lemma AlignedEnds(elf: Word, ph: Phdr)
    ensures AlignDown(ph.vaddr) % 4096 == 0 && AlignDown(Phys(elf, ph)) % 4096 == 0 && PhysEnd(elf, ph) % 4096 == 0
  {
    hide AlignUp, AlignDown;
    Aligned(ph.vaddr);
    Aligned(Phys(elf, ph));
    Aligned((Phys(elf, ph) + ph.memsz) % U32);
  }

  /** process_map_elf. */
  method MapElf(ram: array<Word>, directory: Word, elf: Word, phs: seq<Phdr>) returns (res: int)
    requires directory % 4096 == 0 && GoodDirectory(ram[..], directory / 4096)
    modifies ram
    ensures res == if Accepted(elf, phs) then 0 else -EINVARG
    ensures ram[..] == MapSegments(old(ram[..]), directory / 4096, elf, phs)
  {
    hide GoodDirectory, Refused, MapSegment;
    res := 0;
    var i := 0;
    ghost var d := directory / 4096;
    while i < |phs|
      invariant 0 <= i <= |phs| && res == 0 && GoodDirectory(ram[..], d)
      invariant forall j | 0 <= j < i :: !Refused(elf, phs[j])
      invariant MapSegments(ram[..], d, elf, phs[i..]) == MapSegments(old(ram[..]), d, elf, phs)
    {
      assert phs[i..][0] == phs[i] && phs[i..][1..] == phs[i + 1..];
      ghost var m := ram[..];
      res := MapOne(ram, directory, elf, phs[i]);
      if res < 0 {
        break;
      }
      SegmentEffect(m, d, elf, phs[i]);
      i := i + 1;
    }
  }

  /** process_map_memory for an ELF process: the image, then the stack below 0x400000. */
  method MapMemory(ram: array<Word>, directory: Word, elf: Word, phs: seq<Phdr>, stack: Word) returns (res: int)
    requires directory % 4096 == 0 && GoodDirectory(ram[..], directory / 4096)
    requires stack % 4096 == 0 && stack + STACK_SIZE < U32
    modifies ram
    ensures res == if Accepted(elf, phs) then 0 else -EINVARG
    ensures ram[..] == WithStack(MapSegments(old(ram[..]), directory / 4096, elf, phs), directory / 4096, stack, res)
  {
    res := MapElf(ram, directory, elf, phs);
    if res < 0 {
      return;
    }
    SegmentsEffect(old(ram[..]), directory / 4096, elf, phs);
    MapStack(ram, directory, stack);
  }

  /** process_map_memory for a flat binary: the whole image at 0x400000, writable, then the stack. */
  method MapBinary(ram: array<Word>, directory: Word, image: Word, size: Word, stack: Word)
    requires directory % 4096 == 0 && GoodDirectory(ram[..], directory / 4096)
    requires image % 4096 == 0 && image + size <= U32 - 4096 && stack % 4096 == 0 && stack + STACK_SIZE < U32
    modifies ram
    ensures ram[..] == WithStack(WithBinary(old(ram[..]), directory / 4096, image, size), directory / 4096, stack, 0)
  {
    hide GoodDirectory, OnlyTables, SameTables, MapPages, AlignUp;
    AlignUpBounds(image + size);
    var ignored := Paging.MapTo(ram, directory, PROGRAM_ADDRESS, image, AlignUp(image + size), 7);
    BinaryTables(old(ram[..]), directory / 4096, image, size);
    MapStack(ram, directory, stack);
  }

  method MapStack(ram: array<Word>, directory: Word, stack: Word)
    requires directory % 4096 == 0 && GoodDirectory(ram[..], directory / 4096)
    requires stack % 4096 == 0 && stack + STACK_SIZE < U32
    modifies ram
    ensures ram[..] == WithStack(old(ram[..]), directory / 4096, stack, 0)
  {
    hide GoodDirectory, MapPages, AlignUp;
    AlignUpIs(stack, STACK_SIZE, 4);
    var ignored := Paging.MapTo(ram, directory, STACK_END, stack, AlignUp(stack + STACK_SIZE), 7);
  }

  ghost function WithBinary(m: Memory, d: nat, image: Word, size: Word): Memory
    requires GoodDirectory(m, d) && image % 4096 == 0 && image + size <= U32 - 4096
  {
    AlignUpBounds(image + size);
    MapPages(m, d, PROGRAM_ADDRESS / 4096, image / 4096, (AlignUp(image + size) - image) / 4096, 7)
  }

  lemma BinaryTables(m: Memory, d: nat, image: Word, size: Word)
    requires GoodDirectory(m, d) && image % 4096 == 0 && image + size <= U32 - 4096
    ensures var n := WithBinary(m, d, image, size); GoodDirectory(n, d) && OnlyTables(m, n, d) && SameTables(m, n, d)
  {
    AlignUpBounds(image + size);
    MapPagesEffect(m, d, PROGRAM_ADDRESS / 4096, image / 4096, (AlignUp(image + size) - image) / 4096, 7);
  }

  lemma StackTables(m: Memory, s: Memory, d: nat, stack: Word, res: int)
    requires GoodDirectory(m, d) && GoodDirectory(s, d) && OnlyTables(m, s, d) && SameTables(m, s, d)
    requires stack % 4096 == 0 && stack + STACK_SIZE < U32
    ensures var n := WithStack(s, d, stack, res); OnlyTables(m, n, d) && SameTables(m, n, d)
  {
    if 0 <= res {
      MapPagesEffect(s, d, STACK_END / 4096, stack / 4096, 4, 7);
      OnlyTablesTrans(m, s, WithStack(s, d, stack, res), d);
    }
  }

  ghost function WithStack(m: Memory, d: nat, stack: Word, res: int): Memory
    requires stack % 4096 == 0
  {
    if 0 <= res && GoodDirectory(m, d) then MapPages(m, d, STACK_END / 4096, stack / 4096, 4, 7) else m
  }

  /** The stack mapping changes the four pages below 0x3FF000, which it gives to the stack, writable. */
  lemma StackEffect(m: Memory, d: nat, stack: Word, q: nat)
    requires GoodDirectory(m, d) && stack % 4096 == 0 && stack + STACK_SIZE < U32 && q < PAGES
    ensures var n := WithStack(m, d, stack, 0);
      && OnlyTables(m, n, d) && SameTables(m, n, d)
      && Pte(n, d, q) == if 0x3FB <= q < 0x3FF then EntryOf(stack / 4096 + q - 0x3FB, 7) else Pte(m, d, q)
  {
    MapPagesEffect(m, d, STACK_END / 4096, stack / 4096, 4, 7);
    assert Pte(WithStack(m, d, stack, 0), d, q) == MappedPte(m, d, STACK_END / 4096, stack / 4096, 4, 7, q);
  }

  /** The stack mapping leaves every page from 0x400000 up as the segments left it. */
  lemma StackSparesSegments(m: Memory, d: nat, stack: Word, q: nat)
    requires GoodDirectory(m, d) && stack % 4096 == 0 && stack + STACK_SIZE < U32 && q < PAGES
    requires PROGRAM_ADDRESS <= q * 4096
    ensures var n := WithStack(m, d, stack, 0);
      OnlyTables(m, n, d) && SameTables(m, n, d) && Pte(n, d, q) == Pte(m, d, q)
  {
    StackEffect(m, d, stack, q);
    hide GoodDirectory, WithStack, OnlyTables, SameTables;
  }

  // ---------------------------------------------------------------- what addresses mean afterwards

  /** Segment i decides virtual page q: it covers it and no later one does. */
  ghost predicate Decides(elf: Word, phs: seq<Phdr>, i: nat, q: nat)
    requires i < |phs| && q < PAGES
  {
    Covers(elf, phs[i], q) && forall j | i < j < |phs| :: !Covers(elf, phs[j], q)
  }

  lemma {:induction false} DecidedPte(elf: Word, phs: seq<Phdr>, i: nat, q: nat, before: Word)
    requires i < |phs| && q < PAGES && Decides(elf, phs, i, q)
    ensures LastPte(elf, phs, q, before) == SegmentPte(elf, phs[i], q)
    decreases |phs|
  {
    var n := |phs| - 1;
    if i < n {
      forall j | i < j < n ensures !Covers(elf, phs[..n][j], q) {
        assert phs[..n][j] == phs[j];
      }
      DecidedPte(elf, phs[..n], i, q, before);
    }
  }

  /** A segment that fits in the 32-bit space on both sides. */
  predicate Fits(elf: Word, ph: Phdr) {
    elf + ph.offset + ph.memsz <= U32 - 4096 && ph.vaddr + ph.memsz <= U32
  }

  lemma PageInside(a: nat, v: nat, size: nat, phys: nat, end: nat)
    requires v <= a < v + size && v % 4096 == phys % 4096 && phys + size <= end && end % 4096 == 0
    ensures 0 <= a / 4096 - v / 4096 < (end - (phys - phys % 4096)) / 4096
  {
    var n := (end - (phys - phys % 4096)) / 4096;
    assert n * 4096 == end - (phys - phys % 4096);
    assert (a / 4096 - v / 4096) * 4096 < n * 4096;
  }

  /** With page offsets in agreement, a segment covers every page of its p_memsz range. */
  lemma CongruentCovers(elf: Word, ph: Phdr, a: Word)
    requires Fits(elf, ph) && ph.vaddr <= a < ph.vaddr + ph.memsz
    requires ph.vaddr % 4096 == (elf + ph.offset) % 4096
    ensures Covers(elf, ph, a / 4096)
  {
    hide AlignUp, Ahead;
    var phys := elf + ph.offset;
    assert Phys(elf, ph) == phys;
    AlignUpBounds(phys + ph.memsz);
    PageInside(a, ph.vaddr, ph.memsz, phys, AlignUp(phys + ph.memsz));
    AheadInside(FirstPage(ph), a / 4096);
  }

  lemma AheadInside(v: nat, q: nat)
    requires v <= q < PAGES
    ensures Ahead(v, q) == q - v
  {
  }

  /** p_vaddr and the address of the segment's bytes in the image have the same page offset. */
  predicate Congruent(elf: Word, ph: Phdr) {
    ph.vaddr % 4096 == (elf + ph.offset) % 4096
  }

  /** An address in a page that segment i decides translates to its byte of the image if and only if
      p_vaddr and the image address agree modulo the page size. */
  lemma TranslatesIff(m: Memory, n: Memory, d: nat, elf: Word, phs: seq<Phdr>, i: nat, a: Word)
    requires GoodDirectory(m, d) && Accepted(elf, phs) && n == MapSegments(m, d, elf, phs)
    requires i < |phs| && Fits(elf, phs[i]) && phs[i].vaddr <= a < phs[i].vaddr + phs[i].memsz
    requires Decides(elf, phs, i, a / 4096)
    ensures GoodDirectory(n, d)
    ensures Translate(n, d, a) == elf + phs[i].offset + (a - phs[i].vaddr) <==> Congruent(elf, phs[i])
    ensures Pte(n, d, a / 4096) % 4096 == if phs[i].flags / 2 % 2 == 1 then 7 else 5
  {
    SegmentsEffect(m, d, elf, phs);
    DecidedPte(elf, phs, i, a / 4096, Pte(m, d, a / 4096));
    SegmentTranslates(elf, phs[i], a);
    hide Under, Congruent, SegmentPte;
  }

  lemma SegmentTranslates(elf: Word, ph: Phdr, a: Word)
    requires Fits(elf, ph) && ph.vaddr <= a < ph.vaddr + ph.memsz
    ensures var e := SegmentPte(elf, ph, a / 4096);
      && e % 4096 == (if ph.flags / 2 % 2 == 1 then 7 else 5)
      && (Under(e, a) == elf + ph.offset + (a - ph.vaddr) <==> Congruent(elf, ph))
  {
    var phys := elf + ph.offset;
    assert Phys(elf, ph) == phys;
    var k := Ahead(FirstPage(ph), a / 4096);
    assert k == a / 4096 - ph.vaddr / 4096;
    assert AlignDown(phys) / 4096 == phys / 4096;
  }

  ghost predicate PageDisjoint(elf: Word, phs: seq<Phdr>) {
    forall i, j, q: nat | 0 <= i < j < |phs| && q < PAGES :: !(Covers(elf, phs[i], q) && Covers(elf, phs[j], q))
  }

  /** The standard case: page-disjoint congruent segments.  Every address of every segment then reaches
      its byte of the image, writable exactly where the segment is, before and after the stack mapping. */
  lemma LoadedProgram(m: Memory, n: Memory, d: nat, elf: Word, phs: seq<Phdr>, stack: Word, i: nat, a: Word)
    requires stack % 4096 == 0 && stack + STACK_SIZE < U32
    requires GoodDirectory(m, d) && Accepted(elf, phs) && n == WithStack(MapSegments(m, d, elf, phs), d, stack, 0)
    requires PageDisjoint(elf, phs) && i < |phs| && Fits(elf, phs[i]) && Congruent(elf, phs[i])
    requires phs[i].vaddr <= a < phs[i].vaddr + phs[i].memsz && PROGRAM_ADDRESS <= phs[i].vaddr
    ensures GoodDirectory(n, d) && Translate(n, d, a) == elf + phs[i].offset + (a - phs[i].vaddr)
    ensures Pte(n, d, a / 4096) % 4096 == if phs[i].flags / 2 % 2 == 1 then 7 else 5
  {
    CongruentCovers(elf, phs[i], a);
    TranslatesIff(m, MapSegments(m, d, elf, phs), d, elf, phs, i, a);
    PageStart(a);
    StackSparesSegments(MapSegments(m, d, elf, phs), d, stack, a / 4096);
    hide Under, WithStack, MapSegments, Covers, Congruent, Fits;
  }

  lemma PageStart(a: Word)
    requires PROGRAM_ADDRESS <= a
    ensures PROGRAM_ADDRESS <= a / 4096 * 4096
  {
  }

  /** Two bytes of image at offset 1 that are wanted at a page boundary are not found there. */
  lemma IncongruentMisses(m: Memory, d: nat)
    requires GoodDirectory(m, d)
    ensures var elf, ph := 0x100_0000, Phdr(PT_LOAD, 1, 0x40_0000, 2, 2, 5);
      && GoodDirectory(MapSegments(m, d, elf, [ph]), d)
      && Translate(MapSegments(m, d, elf, [ph]), d, 0x40_0000) != 0x100_0001
  {
    hide MapSegments, GoodDirectory, Translate;
    var elf, ph := 0x100_0000, Phdr(PT_LOAD, 1, PROGRAM_ADDRESS, 2, 2, 5);
    OneByteOff(elf, ph);
    TranslatesIff(m, MapSegments(m, d, elf, [ph]), d, elf, [ph], 0, PROGRAM_ADDRESS);
  }

  lemma OneByteOff(elf: Word, ph: Phdr)
    requires elf == 0x100_0000 && ph == Phdr(PT_LOAD, 1, PROGRAM_ADDRESS, 2, 2, 5)
    ensures !Refused(elf, ph) && Covers(elf, ph, PROGRAM_ADDRESS / 4096) && Fits(elf, ph) && !Congruent(elf, ph)
  {
    assert Phys(elf, ph) == 0x100_0001 && PhysEnd(elf, ph) == 0x100_1000;
  }
}
