/**
 Two-level 32-bit page tables as they lie in physical memory (Intel SDM Vol. 3A, section 4.3).

 Memory is a sequence of 32-bit words, word w at address 4*w, so page p is words
 [1024*p, 1024*p + 1024).  A directory is named by its page number; everything else about it,
 the place of its 1024 tables included, is read out of memory.
 */
module PageTables {
  import opened Machine

  type Memory = seq<Word>

  const ENTRIES := 1024
  const PAGES := 0x10_0000

  // Flag bits of an entry.
  const PRESENT := 1
  const WRITEABLE := 2
  const USER := 4

  /** A page-aligned address or-ed with flags below 4096. */
  function EntryOf(page: nat, flags: nat): Word
    requires page < PAGES && flags < 4096
  {
    page * 4096 + flags
  }

  /** The address part of an entry, entry & 0xFFFFF000, as a page number. */
  function Frame(e: Word): nat {
    e / 4096
  }

  /** The same with the mask 0x0FFFF000 that paging_get uses. */
  function FrameLow28(e: Word): nat {
    e % 0x1000_0000 / 4096
  }

  /** The narrower mask reads the same table exactly when the table lies below 2^28. */
  lemma NarrowMaskIff(e: Word)
    ensures FrameLow28(e) == Frame(e) <==> Frame(e) < 0x1_0000
  {
  }

  ghost predicate InMemory(m: Memory, page: int) {
    0 <= page && (page + 1) * 1024 <= |m|
  }

  function WordAt(m: Memory, page: nat, i: nat): Word
    requires InMemory(m, page) && i < 1024
  {
    m[page * 1024 + i]
  }

  function TablePage(m: Memory, d: nat, i: nat): nat
    requires InMemory(m, d) && i < ENTRIES
  {
    Frame(WordAt(m, d, i))
  }

  /** The directory at page d points to 1024 different pages of memory, none of them itself. */
  ghost predicate GoodDirectory(m: Memory, d: nat) {
    && InMemory(m, d)
    && (forall i: nat | i < ENTRIES :: InMemory(m, TablePage(m, d, i)) && TablePage(m, d, i) != d)
    && (forall i: nat, j: nat | i < ENTRIES && j < ENTRIES && i != j :: TablePage(m, d, i) != TablePage(m, d, j))
  }

  /** What the processor finds for virtual page v. */
  function Pte(m: Memory, d: nat, v: nat): Word
    requires GoodDirectory(m, d) && v < PAGES
  {
    WordAt(m, TablePage(m, d, v / 1024), v % 1024)
  }

  function PteIndex(m: Memory, d: nat, v: nat): (w: nat)
    requires GoodDirectory(m, d) && v < PAGES
    ensures w < |m|
  {
    TablePage(m, d, v / 1024) * 1024 + v % 1024
  }

  function SetPte(m: Memory, d: nat, v: nat, e: Word): Memory
    requires GoodDirectory(m, d) && v < PAGES
  {
    m[PteIndex(m, d, v) := e]
  }

  ghost predicate IsTableOf(m: Memory, d: nat, page: nat)
    requires GoodDirectory(m, d)
  {
    exists i: nat :: i < ENTRIES && TablePage(m, d, i) == page
  }

  /** Page `page` holds the same words in both memories. */
  ghost predicate SamePage(m: Memory, n: Memory, page: nat) {
    InMemory(m, page) && InMemory(n, page) && forall i: nat | i < 1024 :: WordAt(m, page, i) == WordAt(n, page, i)
  }

  /** Memories that differ in nothing but the tables of directory d, which itself is kept. */
  ghost predicate OnlyTables(m: Memory, n: Memory, d: nat)
    requires GoodDirectory(m, d)
  {
    |n| == |m| && forall p: nat | InMemory(m, p) && !IsTableOf(m, d, p) :: SamePage(m, n, p)
  }

  /** The directory holds the same entries, flags included, and so leads to the same tables. */
  ghost predicate SameTables(m: Memory, n: Memory, d: nat)
    requires GoodDirectory(m, d)
  {
    && GoodDirectory(n, d) && (forall i: nat | i < ENTRIES :: WordAt(n, d, i) == WordAt(m, d, i))
    && (forall i: nat | i < ENTRIES :: TablePage(n, d, i) == TablePage(m, d, i))
  }

  lemma SameDirectory(m: Memory, n: Memory, d: nat)
    requires GoodDirectory(m, d) && |n| == |m| && SamePage(m, n, d)
    ensures SameTables(m, n, d)
  {
    forall i: nat | i < ENTRIES ensures TablePage(n, d, i) == TablePage(m, d, i) {
      assert WordAt(m, d, i) == WordAt(n, d, i);
    }
  }

  /** A directory is not one of its own tables, so writing tables keeps it. */
  lemma KeepsDirectory(m: Memory, n: Memory, d: nat)
    requires GoodDirectory(m, d) && OnlyTables(m, n, d)
    ensures SameTables(m, n, d)
  {
    assert !IsTableOf(m, d, d);
    SameDirectory(m, n, d);
  }

  /** One write through the directory changes one virtual page and nothing else. */
  lemma SetPteEffect(m: Memory, d: nat, v: nat, e: Word)
    requires GoodDirectory(m, d) && v < PAGES
    ensures OnlyTables(m, SetPte(m, d, v, e), d)
    ensures SameTables(m, SetPte(m, d, v, e), d)
    ensures forall q: nat | q < PAGES :: Pte(SetPte(m, d, v, e), d, q) == if q == v then e else Pte(m, d, q)
  {
    var n := SetPte(m, d, v, e);
    var t := TablePage(m, d, v / 1024);
    forall p: nat | InMemory(m, p) && !IsTableOf(m, d, p) ensures SamePage(m, n, p) {
      assert p != t;
    }
    KeepsDirectory(m, n, d);
    forall q: nat | q < PAGES ensures Pte(n, d, q) == if q == v then e else Pte(m, d, q) {
      if q / 1024 != v / 1024 {
        assert TablePage(m, d, q / 1024) != t;
      }
    }
  }

  // ---------------------------------------------------------------- ranges

  /** Page number v + k in 32-bit address arithmetic. */
  function Shift(v: nat, k: nat): (r: nat)
    requires v < PAGES && k <= PAGES
  {
    if v + k < PAGES then v + k else v + k - PAGES
  }

  /** Pages from v up to q, going round at 2^20. */
  function Ahead(v: nat, q: nat): nat
    requires v < PAGES && q < PAGES
  {
    if v <= q then q - v else q + PAGES - v
  }

  lemma AheadStep(v: nat, p: nat, q: nat)
    requires v < PAGES && p < PAGES && q < PAGES
    ensures q == v ==> Ahead(v, q) == 0 && Shift(p, 0) == p && Ahead(Shift(v, 1), q) == PAGES - 1
    ensures q != v ==>
      Ahead(v, q) == Ahead(Shift(v, 1), q) + 1 &&
      Shift(p, Ahead(v, q)) == Shift(Shift(p, 1), Ahead(Shift(v, 1), q))
  {
  }

  /** The memory after mapping `count` pages from v to frames from p, all with `flags`. */
  ghost function MapPages(m: Memory, d: nat, v: nat, p: nat, count: nat, flags: nat): Memory
    requires GoodDirectory(m, d) && v < PAGES && p < PAGES && flags < 4096
    decreases count
  {
    if count == 0 then m
    else
      var n := SetPte(m, d, v, EntryOf(p, flags));
      SetPteEffect(m, d, v, EntryOf(p, flags));
      MapPages(n, d, Shift(v, 1), Shift(p, 1), count - 1, flags)
  }

  /** What virtual page q holds after the range [v, v+count) was mapped to frames from p. */
  function MappedPte(m: Memory, d: nat, v: nat, p: nat, count: nat, flags: nat, q: nat): Word
    requires GoodDirectory(m, d) && v < PAGES && p < PAGES && flags < 4096 && q < PAGES
  {
    if Ahead(v, q) < count then EntryOf(Shift(p, Ahead(v, q)), flags) else Pte(m, d, q)
  }

  lemma MappedPteStep(m: Memory, d: nat, v: nat, p: nat, count: nat, flags: nat, q: nat)
    requires GoodDirectory(m, d) && v < PAGES && p < PAGES && flags < 4096 && q < PAGES && 0 < count <= PAGES
    ensures var s := SetPte(m, d, v, EntryOf(p, flags));
      GoodDirectory(s, d) &&
      MappedPte(s, d, Shift(v, 1), Shift(p, 1), count - 1, flags, q) == MappedPte(m, d, v, p, count, flags, q)
  {
    SetPteEffect(m, d, v, EntryOf(p, flags));
    AheadStep(v, p, q);
  }

  /** A range call changes exactly its own pages, each to its own frame, and writes only tables. */
  lemma {:induction false} MapPagesEffect(m: Memory, d: nat, v: nat, p: nat, count: nat, flags: nat)
    requires GoodDirectory(m, d) && v < PAGES && p < PAGES && flags < 4096 && count <= PAGES
    ensures var n := MapPages(m, d, v, p, count, flags);
      && OnlyTables(m, n, d)
      && SameTables(m, n, d)
      && (forall q: nat | q < PAGES :: Pte(n, d, q) == MappedPte(m, d, v, p, count, flags, q))
    decreases count
  {
    if count != 0 {
      var s := SetPte(m, d, v, EntryOf(p, flags));
      SetPteEffect(m, d, v, EntryOf(p, flags));
      MapPagesEffect(s, d, Shift(v, 1), Shift(p, 1), count - 1, flags);
      OnlyTablesTrans(m, s, MapPages(m, d, v, p, count, flags), d);
      forall q: nat | q < PAGES { MappedPteStep(m, d, v, p, count, flags, q); }
    }
  }

  /** Mapping pages to themselves, away from the wrap-around. */
  lemma MapToSelf(m: Memory, d: nat, v: nat, count: nat, flags: nat)
    requires GoodDirectory(m, d) && v < PAGES && v + count <= PAGES && flags < 4096
    ensures var n := MapPages(m, d, v, v, count, flags);
      && OnlyTables(m, n, d)
      && SameTables(m, n, d)
      && (forall q: nat | q < PAGES :: Pte(n, d, q) == if v <= q < v + count then EntryOf(q, flags) else Pte(m, d, q))
  {
    MapPagesEffect(m, d, v, v, count, flags);
    var n := MapPages(m, d, v, v, count, flags);
    forall q: nat | q < PAGES
      ensures Pte(n, d, q) == if v <= q < v + count then EntryOf(q, flags) else Pte(m, d, q)
    {
      assert Pte(n, d, q) == MappedPte(m, d, v, v, count, flags, q);
    }
  }

  lemma OnlyTablesTrans(m: Memory, s: Memory, n: Memory, d: nat)
    requires GoodDirectory(m, d) && SameTables(m, s, d) && OnlyTables(m, s, d) && OnlyTables(s, n, d)
    ensures OnlyTables(m, n, d)
  {
    forall p: nat | InMemory(m, p) && !IsTableOf(m, d, p) ensures SamePage(m, n, p) {
      assert !IsTableOf(s, d, p);
      assert SamePage(m, s, p) && SamePage(s, n, p);
    }
  }

  /** Another directory that shares no page with d sees no difference. */
  lemma OtherDirectoryUnchanged(m: Memory, n: Memory, d: nat, e: nat)
    requires GoodDirectory(m, d) && GoodDirectory(m, e) && OnlyTables(m, n, d)
    requires !IsTableOf(m, d, e)
    requires forall i: nat | i < ENTRIES :: !IsTableOf(m, d, TablePage(m, e, i))
    ensures GoodDirectory(n, e)
    ensures forall q: nat | q < PAGES :: Pte(n, e, q) == Pte(m, e, q)
  {
    SameDirectory(m, n, e);
    forall q: nat | q < PAGES ensures Pte(n, e, q) == Pte(m, e, q) {
      assert SamePage(m, n, TablePage(m, e, q / 1024));
    }
  }

  /** Saving an entry, mapping something else there and putting the entry back leaves memory as it was. */
  lemma SetThenRestore(m: Memory, d: nat, v: nat, e: Word)
    requires GoodDirectory(m, d) && v < PAGES
    ensures GoodDirectory(SetPte(m, d, v, e), d)
    ensures SetPte(SetPte(m, d, v, e), d, v, Pte(m, d, v)) == m
  {
    SetPteEffect(m, d, v, e);
    assert PteIndex(SetPte(m, d, v, e), d, v) == PteIndex(m, d, v);
    assert m[PteIndex(m, d, v)] == Pte(m, d, v);
  }

  // ---------------------------------------------------------------- translation

  /** Address a under entry e: the frame of the entry, the page offset of the address. */
  function Under(e: Word, a: Word): Word {
    Frame(e) * 4096 + a % 4096
  }

  /** The directory entry for virtual page v. */
  function Pde(m: Memory, d: nat, v: nat): Word
    requires InMemory(m, d) && v < PAGES
  {
    WordAt(m, d, v / 1024)
  }

  predicate ForUserToWrite(e: Word) {
    e % 8 == PRESENT + WRITEABLE + USER
  }

  /** User code may write the page: its rights are those that both entries grant (Intel SDM Vol. 3A,
      section 4.6). */
  predicate UserWrites(m: Memory, d: nat, v: nat)
    requires GoodDirectory(m, d) && v < PAGES
  {
    ForUserToWrite(Pde(m, d, v)) && ForUserToWrite(Pte(m, d, v))
  }

  /** Physical address of virtual address a, as the processor computes it. */
  function Translate(m: Memory, d: nat, a: Word): Word
    requires GoodDirectory(m, d)
  {
    Under(Pte(m, d, a / 4096), a)
  }

  /** ... which takes the top ten bits of the address for the directory and the next ten for the table. */
  lemma TranslateIs(m: Memory, d: nat, a: Word)
    requires GoodDirectory(m, d)
    ensures var i, j := a / 0x40_0000, a / 4096 % 1024;
      && i < 1024 && d * 1024 + i < |m|
      && var table := m[d * 1024 + i] / 4096;
         && table * 1024 + j < |m|
         && Translate(m, d, a) == m[table * 1024 + j] / 4096 * 4096 + a % 4096
  {
    var i := a / 0x40_0000;
    assert a / 4096 / 1024 == i && InMemory(m, TablePage(m, d, i));
  }
}
