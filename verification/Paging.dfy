/** The paging operations, writing page tables in place in physical memory. */
module Paging {
  import opened Machine
  import opened PageTables

  predicate IsAligned(a: Word) {
    a % 4096 == 0
  }

  /** paging_set: one entry through the directory. */
  method Set(ram: array<Word>, directory: Word, virt: Word, val: Word) returns (res: int)
    requires directory % 4096 == 0 && GoodDirectory(ram[..], directory / 4096)
    modifies ram
    ensures !IsAligned(virt) ==> res == -EINVARG && ram[..] == old(ram[..])
    ensures IsAligned(virt) ==> res == 0 && ram[..] == SetPte(old(ram[..]), directory / 4096, virt / 4096, val)
  {
    if virt % 4096 != 0 {
      return -EINVARG;
    }
    var directoryIndex := virt / (1024 * 4096);
    var tableIndex := virt % (1024 * 4096) / 4096;
    assert directoryIndex == virt / 4096 / 1024 && tableIndex == virt / 4096 % 1024;
    ghost var d := directory / 4096;
    assert InMemory(ram[..], TablePage(ram[..], d, directoryIndex));
    var entry := ram[directory / 4 + directoryIndex];
    assert entry == WordAt(ram[..], d, directoryIndex);
    var table := entry - entry % 4096;
    ram[table / 4 + tableIndex] := val;
    res := 0;
  }

  lemma NarrowMask(e: Word)
    ensures 0 <= FrameLow28(e) <= Frame(e)
    ensures e % 0x1000_0000 - e % 4096 == FrameLow28(e) * 4096
    ensures Frame(e) < 0x1_0000 ==> FrameLow28(e) == Frame(e)
  {
    NarrowMaskIff(e);
  }

  /** paging_get: reads with the narrower mask, and falls back to entry 0 on an unaligned address. */
  method Get(ram: array<Word>, directory: Word, virt: Word) returns (entry: Word)
    requires directory % 4096 == 0 && GoodDirectory(ram[..], directory / 4096)
    ensures entry == NarrowPte(ram[..], directory / 4096, if IsAligned(virt) then virt / 4096 else 0)
  {
    var directoryIndex, tableIndex := 0, 0;
    if virt % 4096 == 0 {
      directoryIndex := virt / (1024 * 4096);
      tableIndex := virt % (1024 * 4096) / 4096;
      assert directoryIndex == virt / 4096 / 1024 && tableIndex == virt / 4096 % 1024;
    }
    var e := ram[directory / 4 + directoryIndex];
    assert e == WordAt(ram[..], directory / 4096, directoryIndex);
    assert InMemory(ram[..], TablePage(ram[..], directory / 4096, directoryIndex));
    NarrowMask(e);
    var table := e % 0x1000_0000 - e % 4096;
    entry := ram[table / 4 + tableIndex];
  }

  ghost function NarrowPte(m: Memory, d: nat, v: nat): Word
    requires GoodDirectory(m, d) && v < PAGES
  {
    var e := WordAt(m, d, v / 1024);
    NarrowMask(e);
    assert InMemory(m, TablePage(m, d, v / 1024));
    WordAt(m, FrameLow28(e), v % 1024)
  }

  /** paging_get returns what paging_set wrote, although their masks differ, for tables below 2^28. */
  lemma GetReadsSet(m: Memory, d: nat, v: nat, e: Word)
    requires GoodDirectory(m, d) && v < PAGES && TablePage(m, d, v / 1024) < 0x1_0000
    ensures GoodDirectory(SetPte(m, d, v, e), d)
    ensures NarrowPte(SetPte(m, d, v, e), d, v) == e
    ensures NarrowPte(m, d, v) == Pte(m, d, v)
  {
    SetPteEffect(m, d, v, e);
    NarrowMask(WordAt(m, d, v / 1024));
    NarrowMask(WordAt(SetPte(m, d, v, e), d, v / 1024));
    assert TablePage(SetPte(m, d, v, e), d, v / 1024) == TablePage(m, d, v / 1024);
    assert Pte(SetPte(m, d, v, e), d, v) == e;
  }

  /** paging_get_phyiscal_address: what the processor would compute, for tables below 2^28. */
  method GetPhysicalAddress(ram: array<Word>, directory: Word, virt: Word) returns (a: Word)
    requires directory % 4096 == 0 && GoodDirectory(ram[..], directory / 4096)
    requires TablePage(ram[..], directory / 4096, virt / 4096 / 1024) < 0x1_0000
    ensures a == Translate(ram[..], directory / 4096, virt)
  {
    var lower := AlignDown(virt);
    var difference := virt - lower;
    assert lower / 4096 == virt / 4096 && difference == virt % 4096;
    var entry := Get(ram, directory, lower);
    GetReadsSet(ram[..], directory / 4096, lower / 4096, 0);
    a := entry - entry % 4096 + difference;
  }

  /** paging_map: refuses unaligned addresses before touching anything. */
  method Map(ram: array<Word>, directory: Word, virt: Word, phys: Word, flags: nat) returns (res: int)
    requires directory % 4096 == 0 && GoodDirectory(ram[..], directory / 4096) && flags < 4096
    modifies ram
    ensures !IsAligned(virt) || !IsAligned(phys) ==> res == -EINVARG && ram[..] == old(ram[..])
    ensures IsAligned(virt) && IsAligned(phys) ==>
              res == 0 && ram[..] == SetPte(old(ram[..]), directory / 4096, virt / 4096, EntryOf(phys / 4096, flags))
  {
    if virt % 4096 != 0 || phys % 4096 != 0 {
      return -EINVARG;
    }
    res := Set(ram, directory, virt, phys + flags);
  }

  /** paging_map_range. */
  method MapRange(ram: array<Word>, directory: Word, virt: Word, phys: Word, count: int, flags: nat) returns (res: int)
    requires directory % 4096 == 0 && GoodDirectory(ram[..], directory / 4096) && flags < 4096
    modifies ram
    ensures count <= 0 ==> res == 0 && ram[..] == old(ram[..])
    ensures 0 < count && (!IsAligned(virt) || !IsAligned(phys)) ==> res == -EINVARG && ram[..] == old(ram[..])
    ensures 0 < count && IsAligned(virt) && IsAligned(phys) ==>
              res == 0 && ram[..] == MapPages(old(ram[..]), directory / 4096, virt / 4096, phys / 4096, count, flags)
  {
    hide GoodDirectory, SetPte, OnlyTables, EntryOf;
    res := 0;
    var i: int, v: Word, p: Word := 0, virt, phys;
    ghost var d := directory / 4096;
    while i < count
      invariant 0 <= i && (if 0 <= count then i <= count else i == 0) && res == 0
      invariant GoodDirectory(ram[..], d)
      invariant i == 0 ==> v == virt && p == phys && ram[..] == old(ram[..])
      invariant 0 < i ==> IsAligned(virt) && IsAligned(phys)
      invariant IsAligned(virt) && IsAligned(phys) ==> IsAligned(v) && IsAligned(p)
      invariant IsAligned(virt) && IsAligned(phys) && 0 <= count ==>
                  MapPages(ram[..], d, v / 4096, p / 4096, count - i, flags)
                  == MapPages(old(ram[..]), d, virt / 4096, phys / 4096, count, flags)
    {
      ghost var m := ram[..];
      res := Map(ram, directory, v, p, flags);
      if res < 0 {
        break;
      }
      SetPteEffect(m, d, v / 4096, EntryOf(p / 4096, flags));
      NextPage(v);
      NextPage(p);
      v := (v + 4096) % U32;
      p := (p + 4096) % U32;
      i := i + 1;
    }
  }

  lemma NextPage(a: Word)
    requires IsAligned(a)
    ensures (a + 4096) % U32 % 4096 == 0 && (a + 4096) % U32 / 4096 == Shift(a / 4096, 1)
  {
  }

  /** When paging_map_to refuses its arguments. */
  predicate BadRange(virt: Word, phys: Word, physEnd: Word) {
    !IsAligned(virt) || !IsAligned(phys) || !IsAligned(physEnd) || physEnd < phys
  }

  /** paging_map_to: an error changes nothing; otherwise the pages of [phys, physEnd) appear at virt. */
  method MapTo(ram: array<Word>, directory: Word, virt: Word, phys: Word, physEnd: Word, flags: nat) returns (res: int)
    requires directory % 4096 == 0 && GoodDirectory(ram[..], directory / 4096) && flags < 4096
    modifies ram
    ensures BadRange(virt, phys, physEnd) ==> res == -EINVARG && ram[..] == old(ram[..])
    ensures !BadRange(virt, phys, physEnd) ==>
              res == 0 && ram[..] == MapPages(old(ram[..]), directory / 4096, virt / 4096, phys / 4096,
                (physEnd - phys) / 4096, flags)
  {
    if virt % 4096 != 0 {
      return -EINVARG;
    }
    if phys % 4096 != 0 {
      return -EINVARG;
    }
    if physEnd % 4096 != 0 {
      return -EINVARG;
    }
    if physEnd < phys {
      return -EINVARG;
    }
    var totalBytes := physEnd - phys;
    var totalPages := totalBytes / 4096;
    res := MapRange(ram, directory, virt, phys, totalPages, flags);
  }
}
