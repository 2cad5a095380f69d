/**
 Creating and destroying a 4 GiB address space: 1024 tables, a directory and a chunk record,
 each one block of the kernel heap.  Pages are named by their heap block number here.
 */
module AddressSpace {
  import opened Machine
  import opened HeapTable
  import opened PageTables
  import opened KernelMemory
  import opened FirstFit

  /** flags | PAGING_IS_WRITEABLE */
  function OrWriteable(flags: nat): nat {
    if flags / 2 % 2 == 1 then flags else flags + 2
  }

  /** Bit 1 is set, and the other bits are as they were. */
  lemma OrWriteableIs(flags: nat)
    ensures OrWriteable(flags) / 2 % 2 == 1 && OrWriteable(flags) % 2 == flags % 2
    ensures OrWriteable(flags) / 4 == flags / 4
  {
  }

  ghost predicate Distinct(s: seq<nat>) {
    forall i, j | 0 <= i < j < |s| :: s[i] != s[j]
  }

  ghost predicate FreshBlocks(live: Live, blocks: seq<nat>) {
    Distinct(blocks) && forall b | b in blocks :: b < HEAP_BLOCKS && b !in live
  }

  /** The live map with one more one-block allocation for each member of `blocks`. */
  ghost function WithBlocks(live: Live, blocks: seq<nat>): Live {
    live + map b | b in blocks :: 1
  }

  /** Nothing but page p differs. */
  ghost predicate OnlyPage(m: Memory, n: Memory, p: nat) {
    |n| == |m| && forall q: nat | InMemory(m, q) && q != p :: SamePage(m, n, q)
  }

  /** Nothing but the pages of these heap blocks differs. */
  ghost predicate OnlyBlocks(m: Memory, n: Memory, blocks: seq<nat>) {
    |n| == |m| && forall q: nat | InMemory(m, q) && (HEAP_PAGE <= q ==> q - HEAP_PAGE !in blocks) :: SamePage(m, n, q)
  }

  /** A one-block allocation took block b, which was free. */
  ghost predicate TookBlock(live: Live, after: Live, ptr: Word, b: nat) {
    b < HEAP_BLOCKS && ptr == Address(b) && b !in live && after == live[b := 1]
  }

  lemma OneBlockTaken(t: seq<Entry>, live: Live, size: Word, u: seq<Entry>, after: Live, ptr: Word, m: Memory)
    requires Blocks(size) == 1 && |t| == HEAP_BLOCKS && FreeBlocks(t) != {} && Allocated(t, live, size, u, after, ptr)
    requires (HEAP_PAGE + HEAP_BLOCKS) * 1024 <= |m|
    ensures ptr != 0 && ptr / 4096 >= HEAP_PAGE && TookBlock(live, after, ptr, ptr / 4096 - HEAP_PAGE)
    ensures OnlyPage(m, Zeroed(m, ptr, size), ptr / 4096)
    ensures |FreeBlocks(u)| == |FreeBlocks(t)| - 1 && FirstOne(t, u, ptr / 4096 - HEAP_PAGE)
  {
    RoomForOne(t);
    var s := StartBlock(t, 1);
    OneFewer(t, s);
    BlocksIsCeiling(size);
    ZeroedPages(m, s, size);
  }

  /** Table number i of an identity mapping. */
  ghost predicate IdentityTable(m: Memory, p: nat, i: nat, flags: nat)
    requires i < ENTRIES && flags < 4096
  {
    InMemory(m, p) && forall b: nat | b < ENTRIES :: WordAt(m, p, b) == EntryOf(i * 1024 + b, flags)
  }

  /** The directory in block d holds entries for the identity tables in `tables`, in order. */
  ghost predicate Built(m: Memory, d: nat, tables: seq<nat>, flags: nat)
    requires |tables| <= ENTRIES && flags < 256
  {
    && InMemory(m, HEAP_PAGE + d)
    && forall i: nat | i < |tables| :: BuiltAt(m, d, tables, i, flags)
  }

  ghost predicate BuiltAt(m: Memory, d: nat, tables: seq<nat>, i: nat, flags: nat)
    requires i < |tables| <= ENTRIES && flags < 256 && InMemory(m, HEAP_PAGE + d)
  {
    && tables[i] < HEAP_BLOCKS
    && WordAt(m, HEAP_PAGE + d, i) == EntryOf(HEAP_PAGE + tables[i], OrWriteable(flags))
    && IdentityTable(m, HEAP_PAGE + tables[i], i, flags)
  }

  lemma IdentityTableKept(m: Memory, n: Memory, p: nat, i: nat, flags: nat)
    requires i < ENTRIES && flags < 4096 && IdentityTable(m, p, i, flags) && SamePage(m, n, p)
    ensures IdentityTable(n, p, i, flags)
  {
    forall b: nat | b < ENTRIES ensures WordAt(n, p, b) == EntryOf(i * 1024 + b, flags) {
      assert WordAt(m, p, b) == WordAt(n, p, b);
    }
  }

  /** What has been built survives the arrival of a new table and its directory entry. */
  lemma BuiltGrows(m: Memory, n: Memory, d: nat, tables: seq<nat>, flags: nat, b: nat)
    requires |tables| < ENTRIES && flags < 256 && Built(m, d, tables, flags)
    requires OnlyPage(m, n, HEAP_PAGE + b) && b < HEAP_BLOCKS && b != d && b !in tables && d !in tables
    requires IdentityTable(n, HEAP_PAGE + b, |tables|, flags)
    ensures InMemory(n, HEAP_PAGE + d)
    ensures var o := n[(HEAP_PAGE + d) * 1024 + |tables| := EntryOf(HEAP_PAGE + b, OrWriteable(flags))];
            Built(o, d, tables + [b], flags) && OnlyPage(n, o, HEAP_PAGE + d)
  {
    var o := n[(HEAP_PAGE + d) * 1024 + |tables| := EntryOf(HEAP_PAGE + b, OrWriteable(flags))];
    assert SamePage(m, n, HEAP_PAGE + d);
    assert OnlyPage(n, o, HEAP_PAGE + d);
    forall i: nat | i < |tables| + 1 ensures BuiltAt(o, d, tables + [b], i, flags) {
      if i == |tables| {
        IdentityTableKept(n, o, HEAP_PAGE + b, i, flags);
      } else {
        assert BuiltAt(m, d, tables, i, flags);
        assert WordAt(m, HEAP_PAGE + d, i) == WordAt(n, HEAP_PAGE + d, i) == WordAt(o, HEAP_PAGE + d, i);
        IdentityTableKept(m, n, HEAP_PAGE + tables[i], i, flags);
        IdentityTableKept(n, o, HEAP_PAGE + tables[i], i, flags);
      }
    }
  }

  /** A directory built over 1024 different pages maps every page to itself. */
  lemma BuiltIsIdentity(m: Memory, d: nat, tables: seq<nat>, flags: nat)
    requires |tables| == ENTRIES && flags < 256 && Built(m, d, tables, flags) && Distinct([d] + tables)
    ensures GoodDirectory(m, HEAP_PAGE + d)
    ensures forall i: nat | i < ENTRIES :: TablePage(m, HEAP_PAGE + d, i) == HEAP_PAGE + tables[i]
    ensures forall q: nat | q < PAGES :: Pte(m, HEAP_PAGE + d, q) == EntryOf(q, flags)
  {
    var e := HEAP_PAGE + d;
    DistinctHead(d, tables);
    forall i: nat | i < ENTRIES
      ensures TablePage(m, e, i) == HEAP_PAGE + tables[i]
      ensures InMemory(m, TablePage(m, e, i)) && TablePage(m, e, i) != e
    {
      assert BuiltAt(m, d, tables, i, flags);
      assert tables[i] in tables;
    }
    forall q: nat | q < PAGES ensures Pte(m, HEAP_PAGE + d, q) == EntryOf(q, flags) {
      assert BuiltAt(m, d, tables, q / 1024, flags);
    }
  }

  /** Under an identity mapping every one of the 2^32 addresses translates to itself. */
  lemma IdentityTranslates(m: Memory, d: nat, flags: nat, a: Word)
    requires GoodDirectory(m, d) && flags < 256 && forall q: nat | q < PAGES :: Pte(m, d, q) == EntryOf(q, flags)
    ensures Translate(m, d, a) == a
  {
    assert Pte(m, d, a / 4096) == EntryOf(a / 4096, flags);
  }

  lemma DistinctHead(d: nat, tables: seq<nat>)
    requires Distinct([d] + tables)
    ensures d !in tables && Distinct(tables)
  {
    var s := [d] + tables;
    forall i | 0 <= i < |tables| ensures tables[i] != d {
      assert s[0] != s[i + 1];
    }
    forall i, j | 0 <= i < j < |tables| ensures tables[i] != tables[j] {
      assert s[i + 1] != s[j + 1];
    }
  }

  // ---------------------------------------------------------------- creation

  /** The state between two rounds of the outer loop of paging_new_4gb. */
  ghost predicate Progress(live0: Live, m0: Memory, live: Live, m: Memory, d: nat, tables: seq<nat>, flags: nat) {
    && |tables| <= ENTRIES && flags < 256
    && FreshBlocks(live0, [d] + tables)
    && live == WithBlocks(live0, [d] + tables)
    && Built(m, d, tables, flags)
    && OnlyBlocks(m0, m, [d] + tables)
  }

  lemma FreshGrows(live0: Live, live: Live, after: Live, blocks: seq<nat>, b: nat)
    requires FreshBlocks(live0, blocks) && live == WithBlocks(live0, blocks)
    requires b < HEAP_BLOCKS && b !in live && after == live[b := 1]
    ensures b !in blocks && FreshBlocks(live0, blocks + [b]) && after == WithBlocks(live0, blocks + [b])
  {
    var more := blocks + [b];
    assert forall x :: x in more <==> x in blocks || x == b;
    forall i, j | 0 <= i < j < |more| ensures more[i] != more[j] {
      assert more[i] == blocks[i] && blocks[i] in blocks;
    }
    assert after.Keys == WithBlocks(live0, more).Keys;
  }

  lemma OnlyBlocksGrows(m0: Memory, m: Memory, n: Memory, blocks: seq<nat>, b: nat)
    requires OnlyBlocks(m0, m, blocks) && OnlyPage(m, n, HEAP_PAGE + b)
    ensures OnlyBlocks(m0, n, blocks + [b])
  {
    forall q: nat | InMemory(m0, q) && (HEAP_PAGE <= q ==> q - HEAP_PAGE !in blocks + [b]) ensures SamePage(m0, n, q) {
      assert b in blocks + [b];
      assert SamePage(m0, m, q) && SamePage(m, n, q);
    }
  }

  lemma OnlyBlocksAgain(m0: Memory, m: Memory, n: Memory, blocks: seq<nat>, b: nat)
    requires OnlyBlocks(m0, m, blocks) && OnlyPage(m, n, HEAP_PAGE + b) && b in blocks
    ensures OnlyBlocks(m0, n, blocks)
  {
    forall q: nat | InMemory(m0, q) && (HEAP_PAGE <= q ==> q - HEAP_PAGE !in blocks) ensures SamePage(m0, n, q) {
      assert SamePage(m0, m, q) && SamePage(m, n, q);
    }
  }

  lemma ProgressStep(live0: Live, m0: Memory, live: Live, m: Memory, d: nat, tables: seq<nat>, flags: nat,
                     after: Live, n: Memory, b: nat, o: Memory)
    requires Progress(live0, m0, live, m, d, tables, flags) && |tables| < ENTRIES
    requires b < HEAP_BLOCKS && b !in live && after == live[b := 1]
    requires OnlyPage(m, n, HEAP_PAGE + b) && IdentityTable(n, HEAP_PAGE + b, |tables|, flags)
    requires InMemory(n, HEAP_PAGE + d)
    requires o == n[(HEAP_PAGE + d) * 1024 + |tables| := EntryOf(HEAP_PAGE + b, OrWriteable(flags))]
    ensures Progress(live0, m0, after, o, d, tables + [b], flags)
  {
    var blocks := [d] + tables;
    FreshGrows(live0, live, after, blocks, b);
    assert blocks + [b] == [d] + (tables + [b]);
    DistinctHead(d, tables);
    assert b != d && b !in tables by { assert blocks[0] == d && forall x | x in tables :: x in blocks; }
    BuiltGrows(m, n, d, tables, flags, b);
    OnlyBlocksGrows(m0, m, n, blocks, b);
    assert d in blocks + [b];
    OnlyBlocksAgain(m0, n, o, blocks + [b], d);
  }

  /** One round of the outer loop up to the directory entry: a zeroed page, then the inner loop. */
  method NewTable(k: Kernel, i: nat, offset: Word, flags: nat) returns (entry: Word)
    requires k.Valid() && i < ENTRIES && offset == i * 1024 * 4096 && flags < 256
    requires FreeBlocks(k.heap.Table()) != {}
    modifies k, k.heap.entries, k.ram
    ensures k.Valid() && |FreeBlocks(k.heap.Table())| == |FreeBlocks(old(k.heap.Table()))| - 1
    ensures entry / 4096 >= HEAP_PAGE && FirstOne(old(k.heap.Table()), k.heap.Table(), entry / 4096 - HEAP_PAGE)
    ensures TookBlock(old(k.live), k.live, entry, entry / 4096 - HEAP_PAGE)
    ensures OnlyPage(old(k.ram[..]), k.ram[..], entry / 4096)
    ensures IdentityTable(k.ram[..], entry / 4096, i, flags)
  {
    RoomForOne(k.heap.Table());
    entry := k.Kzalloc(4 * ENTRIES);
    OneBlockTaken(old(k.heap.Table()), old(k.live), 4096, k.heap.Table(), k.live, entry, old(k.ram[..]));
    FillTable(k.ram, entry, i, offset, flags);
  }

  /** The inner loop of paging_new_4gb. */
  method FillTable(ram: array<Word>, entry: Word, i: nat, offset: Word, flags: nat)
    requires i < ENTRIES && offset == i * 1024 * 4096 && flags < 256
    requires entry % 4096 == 0 && InMemory(ram[..], entry / 4096)
    modifies ram
    ensures OnlyPage(old(ram[..]), ram[..], entry / 4096) && IdentityTable(ram[..], entry / 4096, i, flags)
  {
    ghost var p := entry / 4096;
    var b := 0;
    while b < ENTRIES
      invariant 0 <= b <= ENTRIES
      invariant forall w | 0 <= w < ram.Length && w / 1024 != p :: ram[w] == old(ram[w])
      invariant forall w | p * 1024 <= w < p * 1024 + b :: ram[w] == EntryOf(i * 1024 + w - p * 1024, flags)
    {
      assert (offset + b * 4096) % U32 + flags == EntryOf(i * 1024 + b, flags);
      ram[entry / 4 + b] := (offset + b * 4096) % U32 + flags;
      b := b + 1;
    }
  }

  lemma BuiltKept(m: Memory, n: Memory, d: nat, tables: seq<nat>, flags: nat, c: nat)
    requires |tables| <= ENTRIES && flags < 256 && Built(m, d, tables, flags)
    requires OnlyPage(m, n, HEAP_PAGE + c) && c !in [d] + tables
    ensures Built(n, d, tables, flags)
  {
    assert ([d] + tables)[0] == d;
    assert SamePage(m, n, HEAP_PAGE + d);
    forall i: nat | i < |tables| ensures BuiltAt(n, d, tables, i, flags) {
      assert BuiltAt(m, d, tables, i, flags);
      assert WordAt(m, HEAP_PAGE + d, i) == WordAt(n, HEAP_PAGE + d, i);
      assert ([d] + tables)[i + 1] == tables[i];
      IdentityTableKept(m, n, HEAP_PAGE + tables[i], i, flags);
    }
  }

  /** A finished address space: its blocks are new and live, it is built, and its chunk leads to it. */
  ghost predicate Created(live0: Live, m0: Memory, live: Live, m: Memory, chunk: Word, d: nat, tables: seq<nat>,
      flags: nat) {
    && HEAP_PAGE <= chunk / 4096 < HEAP_PAGE + HEAP_BLOCKS && chunk % 4096 == 0
    && |tables| == ENTRIES && flags < 256
    && var c := chunk / 4096 - HEAP_PAGE;
    && FreshBlocks(live0, [d] + tables + [c])
    && live == WithBlocks(live0, [d] + tables + [c])
    && Built(m, d, tables, flags)
    && InMemory(m, HEAP_PAGE + c) && WordAt(m, HEAP_PAGE + c, 0) == (HEAP_PAGE + d) * 4096
    && OnlyBlocks(m0, m, [d] + tables + [c])
  }

  lemma CreatedFromProgress(live0: Live, m0: Memory, live: Live, m: Memory, d: nat, tables: seq<nat>, flags: nat,
                            after: Live, n: Memory, chunk: Word, o: Memory)
    requires Progress(live0, m0, live, m, d, tables, flags) && |tables| == ENTRIES
    requires chunk / 4096 >= HEAP_PAGE && TookBlock(live, after, chunk, chunk / 4096 - HEAP_PAGE)
    requires OnlyPage(m, n, chunk / 4096) && InMemory(n, chunk / 4096) && d < HEAP_BLOCKS
    requires o == n[chunk / 4 := Address(d)]
    ensures Created(live0, m0, after, o, chunk, d, tables, flags)
  {
    var c := chunk / 4096 - HEAP_PAGE;
    FreshGrows(live0, live, after, [d] + tables, c);
    assert chunk / 4 == (HEAP_PAGE + c) * 1024;
    forall q: nat | InMemory(m, q) && q != HEAP_PAGE + c ensures SamePage(m, o, q) {
      assert SamePage(m, n, q);
      assert forall i: nat | i < 1024 :: WordAt(n, q, i) == WordAt(o, q, i);
    }
    BuiltKept(m, o, d, tables, flags, c);
    OnlyBlocksGrows(m0, m, o, [d] + tables, c);
  }

  /** paging_new_4gb: with 1026 free blocks it builds an identity mapping out of 1026 new ones, those that
      first fit finds. */
  method New4gb(k: Kernel, flags: nat) returns (chunk: Word, ghost d: nat, ghost tables: seq<nat>)
    requires k.Valid() && flags < 256 && 1026 <= |FreeBlocks(k.heap.Table())|
    modifies k, k.heap.entries, k.ram
    ensures k.Valid()
    ensures Created(old(k.live), old(k.ram[..]), k.live, k.ram[..], chunk, d, tables, flags)
    ensures chunk / 4096 >= HEAP_PAGE
    ensures FirstOnes(old(k.heap.Table()), k.heap.Table(), [d] + tables + [chunk / 4096 - HEAP_PAGE])
  {
    hide FirstOnes, FirstOne, Created, Progress;
    ghost var t0, live0, m0 := k.heap.Table(), k.live, k.ram[..];
    var directory := NewDirectory(k, flags);
    d := directory / 4096 - HEAP_PAGE;
    FirstOnesOne(t0, k.heap.Table(), d);
    tables := BuildTables(k, directory, flags, live0, m0, d, t0);
    ghost var t := k.heap.Table();
    chunk := NewChunk(k, directory, live0, m0, d, tables, flags);
    FirstOnesMore(t0, t, [d] + tables, k.heap.Table(), chunk / 4096 - HEAP_PAGE);
  }

  /** offset += 1024 * 4096, in 32 bits. */
  function NextOffset(offset: Word): (next: Word)
    ensures next == if offset == U32 - 0x40_0000 then 0
                    else if offset < U32 - 0x40_0000 then offset + 0x40_0000
                    else offset + 0x40_0000 - U32
  {
    (offset + ENTRIES * 4096) % U32
  }

  /** The outer loop of paging_new_4gb. */
  method BuildTables(k: Kernel, directory: Word, flags: nat, ghost live0: Live, ghost m0: Memory, ghost d: nat,
      ghost t0: seq<Entry>)
    returns (ghost tables: seq<nat>)
    requires k.Valid() && 1025 <= |FreeBlocks(k.heap.Table())| && d < HEAP_BLOCKS && directory == Address(d)
    requires Progress(live0, m0, k.live, k.ram[..], d, [], flags) && FirstOnes(t0, k.heap.Table(), [d])
    modifies k, k.heap.entries, k.ram
    ensures FirstOnes(t0, k.heap.Table(), [d] + tables)
    ensures k.Valid() && FreeBlocks(k.heap.Table()) != {}
    ensures |tables| == ENTRIES && Progress(live0, m0, k.live, k.ram[..], d, tables, flags)
  {
    hide FirstOnes, FirstOne;
    tables := [];
    assert [d] + tables == [d];
    var offset: Word := 0;
    var i := 0;
    while i < ENTRIES
      invariant 0 <= i <= ENTRIES && i == |tables| && offset == if i < ENTRIES then i * 1024 * 4096 else 0
      invariant k.Valid() && 1025 - i <= |FreeBlocks(k.heap.Table())|
      invariant Progress(live0, m0, k.live, k.ram[..], d, tables, flags)
      invariant FirstOnes(t0, k.heap.Table(), [d] + tables)
    {
      ghost var t := k.heap.Table();
      ghost var b := AddTable(k, directory, i, offset, flags, live0, m0, d, tables);
      FirstOnesMore(t0, t, [d] + tables, k.heap.Table(), b);
      assert [d] + tables + [b] == [d] + (tables + [b]);
      offset := NextOffset(offset);
      tables := tables + [b];
      i := i + 1;
    }
  }

  /** One round of the outer loop: a new table, and its entry in the directory. */
  method AddTable(k: Kernel, directory: Word, i: nat, offset: Word, flags: nat,
                  ghost live0: Live, ghost m0: Memory, ghost d: nat, ghost tables: seq<nat>) returns (ghost b: nat)
    requires k.Valid() && i < ENTRIES && i == |tables| && offset == i * 1024 * 4096 && flags < 256
    requires d < HEAP_BLOCKS && directory == Address(d) && FreeBlocks(k.heap.Table()) != {}
    requires Progress(live0, m0, k.live, k.ram[..], d, tables, flags)
    modifies k, k.heap.entries, k.ram
    ensures k.Valid() && |FreeBlocks(k.heap.Table())| == |FreeBlocks(old(k.heap.Table()))| - 1
    ensures Progress(live0, m0, k.live, k.ram[..], d, tables + [b], flags)
    ensures FirstOne(old(k.heap.Table()), k.heap.Table(), b)
  {
    hide Progress, IdentityTable, FirstOne, Represents, FreeBlocks;
    ghost var live, m := k.live, k.ram[..];
    var entry := NewTable(k, i, offset, flags);
    b := entry / 4096 - HEAP_PAGE;
    ghost var n := k.ram[..];
    assert directory / 4 + i == (HEAP_PAGE + d) * 1024 + i;
    k.ram[directory / 4 + i] := entry + OrWriteable(flags);
    ProgressStep(live0, m0, live, m, d, tables, flags, k.live, n, b, k.ram[..]);
  }

  /** The chunk record, whose first word is the directory address. */
  method NewChunk(k: Kernel, directory: Word, ghost live0: Live, ghost m0: Memory, ghost d: nat,
      ghost tables: seq<nat>, ghost flags: nat)
    returns (chunk: Word)
    requires k.Valid() && d < HEAP_BLOCKS && directory == Address(d) && FreeBlocks(k.heap.Table()) != {}
    requires |tables| == ENTRIES && Progress(live0, m0, k.live, k.ram[..], d, tables, flags)
    modifies k, k.heap.entries, k.ram
    ensures k.Valid()
    ensures Created(live0, m0, k.live, k.ram[..], chunk, d, tables, flags)
    ensures chunk / 4096 >= HEAP_PAGE && FirstOne(old(k.heap.Table()), k.heap.Table(), chunk / 4096 - HEAP_PAGE)
  {
    hide FirstOne, FirstOnes, Represents, Progress, Created, MemoryByte;
    ghost var live, m := k.live, k.ram[..];
    RoomForOne(k.heap.Table());
    chunk := k.Kzalloc(4);
    OneBlockTaken(old(k.heap.Table()), live, 4, k.heap.Table(), k.live, chunk, m);
    ghost var n := k.ram[..];
    k.ram[chunk / 4] := directory;
    CreatedFromProgress(live0, m0, live, m, d, tables, flags, k.live, n, chunk, k.ram[..]);
  }

  method NewDirectory(k: Kernel, ghost flags: nat) returns (directory: Word)
    requires k.Valid() && flags < 256 && FreeBlocks(k.heap.Table()) != {}
    modifies k, k.heap.entries, k.ram
    ensures k.Valid() && |FreeBlocks(k.heap.Table())| == |FreeBlocks(old(k.heap.Table()))| - 1
    ensures directory / 4096 >= HEAP_PAGE && directory / 4096 - HEAP_PAGE < HEAP_BLOCKS && directory % 4096 == 0
    ensures FirstOne(old(k.heap.Table()), k.heap.Table(), directory / 4096 - HEAP_PAGE)
    ensures Progress(old(k.live), old(k.ram[..]), k.live, k.ram[..], directory / 4096 - HEAP_PAGE, [], flags)
  {
    RoomForOne(k.heap.Table());
    directory := k.Kzalloc(4 * ENTRIES);
    OneBlockTaken(old(k.heap.Table()), old(k.live), 4096, k.heap.Table(), k.live, directory, old(k.ram[..]));
    ghost var d := directory / 4096 - HEAP_PAGE;
    assert [d] + [] == [d];
  }

  // ---------------------------------------------------------------- destruction

  ghost function Without(live: Live, blocks: seq<nat>): Live {
    live - set b | b in blocks
  }

  lemma WithoutOneMore(live: Live, blocks: seq<nat>, b: nat)
    ensures Without(live, blocks) - {b} == Without(live, blocks + [b])
  {
  }

  /** The chunk leads to the directory and the directory to the tables, all of them different live blocks. */
  ghost predicate Destroyable(live: Live, m: Memory, chunk: Word, d: nat, tables: seq<nat>) {
    && HEAP_PAGE <= chunk / 4096 < HEAP_PAGE + HEAP_BLOCKS && chunk % 4096 == 0
    && |tables| == ENTRIES && d < HEAP_BLOCKS && (HEAP_PAGE + HEAP_BLOCKS) * 1024 <= |m|
    && var c := chunk / 4096 - HEAP_PAGE;
    && Distinct(tables + [d] + [c])
    && (forall b | b in tables + [d] + [c] :: b < HEAP_BLOCKS && b in live)
    && WordAt(m, HEAP_PAGE + c, 0) == Address(d)
    && (forall i: nat | i < ENTRIES :: Frame(WordAt(m, HEAP_PAGE + d, i)) == HEAP_PAGE + tables[i])
  }

  lemma StillLive(live: Live, blocks: seq<nat>, i: nat)
    requires i < |blocks| && Distinct(blocks) && blocks[i] in live
    ensures blocks[i] in Without(live, blocks[..i])
  {
  }

  /** paging_free_4gb: finds the tables again through the flagged entries of the directory, and frees
      exactly the tables, the directory and the chunk. */
  method Free4gb(k: Kernel, chunk: Word, ghost d: nat, ghost tables: seq<nat>)
    requires k.Valid() && Destroyable(k.live, k.ram[..], chunk, d, tables)
    modifies k, k.heap.entries
    ensures k.Valid()
    ensures k.live == Without(old(k.live), tables + [d] + [chunk / 4096 - HEAP_PAGE])
  {
    ghost var live, c := k.live, chunk / 4096 - HEAP_PAGE;
    ghost var all := tables + [d] + [c];
    assert chunk / 4 == (HEAP_PAGE + c) * 1024;
    assert all[ENTRIES] == d && all[ENTRIES + 1] == c;
    var i := 0;
    while i < ENTRIES
      invariant 0 <= i <= ENTRIES && k.Valid()
      invariant k.live == Without(live, all[..i])
    {
      var directory := k.ram[chunk / 4];
      var entry := k.ram[directory / 4 + i];
      assert entry == WordAt(k.ram[..], HEAP_PAGE + d, i) && all[i] == tables[i] && all[i] in all;
      var table := entry - entry % 4096;
      FreeOne(k, table, live, all, i);
      i := i + 1;
    }
    FreeOne(k, k.ram[chunk / 4], live, all, ENTRIES);
    FreeOne(k, chunk, live, all, ENTRIES + 1);
    assert all[..ENTRIES + 2] == all;
  }

  method FreeOne(k: Kernel, ptr: Word, ghost live: Live, ghost all: seq<nat>, ghost i: nat)
    requires k.Valid() && i < |all| && Distinct(all) && all[i] < HEAP_BLOCKS && all[i] in live
    requires ptr == Address(all[i]) && k.live == Without(live, all[..i])
    modifies k, k.heap.entries
    ensures k.Valid() && k.live == Without(live, all[..i + 1])
  {
    HeapIsBelowNarrowMask(all[i]);
    StillLive(live, all, i);
    k.Kfree(ptr);
    WithoutOneMore(live, all[..i], all[i]);
    assert all[..i] + [all[i]] == all[..i + 1];
  }

  lemma Reordered(d: nat, tables: seq<nat>, c: nat)
    requires Distinct([d] + tables + [c])
    ensures Distinct(tables + [d] + [c])
    ensures forall b :: b in tables + [d] + [c] <==> b in [d] + tables + [c]
    ensures d in [d] + tables + [c]
  {
    var made, freed, n := [d] + tables + [c], tables + [d] + [c], |tables|;
    assert made[0] == d && forall i | 0 <= i < n :: made[i + 1] == tables[i];
    forall i, j | 0 <= i < j < |freed| ensures freed[i] != freed[j] {
      var x, y := if i < n then i + 1 else 0, if j < n then j + 1 else if j == n then 0 else j;
      assert freed[i] == made[x] && freed[j] == made[y] && x != y;
    }
  }

  lemma CreatedIsDestroyable(live0: Live, m0: Memory, live: Live, m: Memory, chunk: Word, d: nat, tables: seq<nat>,
      flags: nat)
    requires Created(live0, m0, live, m, chunk, d, tables, flags) && (HEAP_PAGE + HEAP_BLOCKS) * 1024 <= |m|
    ensures Destroyable(live, m, chunk, d, tables)
    ensures Without(live, tables + [d] + [chunk / 4096 - HEAP_PAGE]) == live0
  {
    Reordered(d, tables, chunk / 4096 - HEAP_PAGE);
    forall i: nat | i < ENTRIES ensures Frame(WordAt(m, HEAP_PAGE + d, i)) == HEAP_PAGE + tables[i] {
      assert BuiltAt(m, d, tables, i, flags);
    }
    assert Without(live, tables + [d] + [chunk / 4096 - HEAP_PAGE]).Keys == live0.Keys;
  }

  /** Creating an address space and destroying it again gives back the identical heap table, after
      1024 tables reached only through their flagged directory entries were freed. */
  method CreateThenDestroy(k: Kernel, flags: nat)
    requires k.Valid() && flags < 256 && 1026 <= |FreeBlocks(k.heap.Table())|
    modifies k, k.heap.entries, k.ram
    ensures k.Valid() && k.live == old(k.live) && k.heap.Table() == old(k.heap.Table())
  {
    ghost var t, live0, m0 := k.heap.Table(), k.live, k.ram[..];
    ghost var d, tables;
    var chunk;
    chunk, d, tables := New4gb(k, flags);
    CreatedIsDestroyable(live0, m0, k.live, k.ram[..], chunk, d, tables, flags);
    Free4gb(k, chunk, d, tables);
    TableUnique(t, k.heap.Table(), live0);
  }
}
