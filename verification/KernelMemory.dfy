/**
 The kernel heap laid over physical memory: zeroing allocation, and the address spaces that
 paging builds out of heap pages.
 */
module KernelMemory {
  import opened Machine
  import opened Bytes
  import opened HeapTable
  import opened Heap
  import opened PageTables

  const HEAP_ADDRESS: Word := 0x0100_0000
  const HEAP_BLOCKS := 25600
  const HEAP_PAGE := 0x1000   // page number of heap block 0

  /** The heap ends at page 0x7400, so every table in it is below 2^28. */
  lemma HeapIsBelowNarrowMask(b: nat)
    requires b < HEAP_BLOCKS
    ensures HEAP_ADDRESS + b * BLOCK_SIZE == (HEAP_PAGE + b) * 4096 < U32
    ensures AddressToBlock(HEAP_ADDRESS, (HEAP_PAGE + b) * 4096) == b
    ensures HEAP_PAGE + b < 0x1_0000
  {
  }

  /** Address of a heap block. */
  function Address(b: nat): Word
    requires b < HEAP_BLOCKS
  {
    (HEAP_PAGE + b) * 4096
  }

  /** The heap is the 100 MiB from 0x01000000. */
  lemma HeapRange(b: nat)
    requires b < HEAP_BLOCKS
    ensures Address(b) == 0x0100_0000 + 4096 * b && 4096 * HEAP_BLOCKS == 104857600
  {
  }

  // ---------------------------------------------------------------- zeroing

  /** A word whose k low-order bytes are cleared: the first k bytes of it in memory. */
  function LowCleared(w: Word, k: int): Word {
    if k <= 0 then w
    else if k == 1 then w / 0x100 * 0x100
    else if k == 2 then w / 0x1_0000 * 0x1_0000
    else if k == 3 then w / 0x100_0000 * 0x100_0000
    else 0
  }

  /** Store a zero byte at byte k of a word: keep what is above it and what is below it. */
  function ClearByte(w: Word, k: nat): Word
    requires k < 4
  {
    if k == 0 then w / 0x100 * 0x100
    else if k == 1 then w / 0x1_0000 * 0x1_0000 + w % 0x100
    else if k == 2 then w / 0x100_0000 * 0x100_0000 + w % 0x1_0000
    else w % 0x100_0000
  }

  lemma DivTwice(w: Word)
    ensures w / 0x100 * 0x100 / 0x1_0000 == w / 0x1_0000 && w / 0x100 * 0x100 % 0x100 == 0
    ensures w / 0x1_0000 * 0x1_0000 / 0x100_0000 == w / 0x100_0000 && w / 0x1_0000 * 0x1_0000 % 0x1_0000 == 0
    ensures w / 0x100_0000 * 0x100_0000 % 0x100_0000 == 0
  {
    var q, r := w / 0x1_0000, w % 0x1_0000;
    assert w / 0x100 == q * 0x100 + r / 0x100;
    var p, s := w / 0x100_0000, w % 0x100_0000;
    assert q == p * 0x100 + s / 0x1_0000;
  }

  lemma ClearNextByte(w: Word, k: nat)
    requires k < 4
    ensures ClearByte(LowCleared(w, k), k) == LowCleared(w, k + 1)
  {
    DivTwice(w);
  }

  /** Memory after `size` zero bytes were written at the word-aligned address a. */
  function Zeroed(m: Memory, a: Word, size: nat): (n: Memory)
    ensures |n| == |m|
  {
    seq(|m|, i requires 0 <= i < |m| => if a / 4 <= i then LowCleared(m[i], a + size - 4 * i) else m[i])
  }

  /** Byte k of a word, as memory holds it: w / 256^k % 256. */
  function ByteOf(w: Word, k: nat): nat
    requires k < 4
  {
    if k == 0 then w % 0x100
    else if k == 1 then w / 0x100 % 0x100
    else if k == 2 then w / 0x1_0000 % 0x100
    else w / 0x100_0000 % 0x100
  }

  /** The byte at address x. */
  function MemoryByte(m: Memory, x: nat): nat
    requires x < 4 * |m|
  {
    ByteOf(m[x / 4], x % 4)
  }

  /** All bytes of [a, a + size) are there, and zero. */
  ghost predicate AllZero(m: Memory, a: nat, size: nat) {
    forall x: nat | a <= x < a + size :: x < 4 * |m| && MemoryByte(m, x) == 0
  }

  function FromBytes(a: nat, b: nat, c: nat, d: nat): nat {
    a + 0x100 * b + 0x1_0000 * c + 0x100_0000 * d
  }

  lemma BytesOf(a: nat, b: nat, c: nat, d: nat)
    requires a < 0x100 && b < 0x100 && c < 0x100 && d < 0x100
    ensures var w := FromBytes(a, b, c, d);
      && w < U32 && ByteOf(w, 0) == a && ByteOf(w, 1) == b && ByteOf(w, 2) == c && ByteOf(w, 3) == d
      && LowCleared(w, 1) == FromBytes(0, b, c, d) && LowCleared(w, 2) == FromBytes(0, 0, c, d)
      && LowCleared(w, 3) == FromBytes(0, 0, 0, d)
  {
    var w := FromBytes(a, b, c, d);
    Split8(w, b + 0x100 * c + 0x1_0000 * d, a);
    Split8(b + 0x100 * c + 0x1_0000 * d, c + 0x100 * d, b);
    Split16(w, c + 0x100 * d, a + 0x100 * b);
    Split8(c + 0x100 * d, d, c);
    Split24(w, d, a + 0x100 * b + 0x1_0000 * c);
  }

  lemma WordIsBytes(w: Word)
    ensures w == FromBytes(ByteOf(w, 0), ByteOf(w, 1), ByteOf(w, 2), ByteOf(w, 3))
    ensures forall k: nat | k < 4 :: ByteOf(w, k) < 0x100
  {
    FourBytes(w);
  }

  lemma AllOrNothingCleared(w: Word, k: int)
    ensures k <= 0 ==> LowCleared(w, k) == w
    ensures 4 <= k ==> LowCleared(w, k) == 0 == FromBytes(0, 0, 0, 0)
  {
  }

  lemma ClearedBytes(w: Word, k: int, j: nat)
    requires j < 4
    ensures ByteOf(LowCleared(w, k), j) == if j < k then 0 else ByteOf(w, j)
  {
    hide FromBytes, ByteOf, LowCleared;
    var a, b, c, d := ByteOf(w, 0), ByteOf(w, 1), ByteOf(w, 2), ByteOf(w, 3);
    WordIsBytes(w);
    BytesOf(a, b, c, d);
    AllOrNothingCleared(w, k);
    if k == 1 {
      BytesOf(0, b, c, d);
    } else if k == 2 {
      BytesOf(0, 0, c, d);
    } else if k == 3 {
      BytesOf(0, 0, 0, d);
    } else if 4 <= k {
      BytesOf(0, 0, 0, 0);
    }
  }

  /** Byte by byte: zero from a on for `size` bytes, and as it was everywhere else. */
  lemma ZeroedBytes(m: Memory, a: Word, size: nat)
    requires a % 4 == 0
    ensures forall x: nat | x < 4 * |m| ::
              MemoryByte(Zeroed(m, a, size), x) == if a <= x < a + size then 0 else MemoryByte(m, x)
  {
    forall x: nat | x < 4 * |m|
      ensures MemoryByte(Zeroed(m, a, size), x) == if a <= x < a + size then 0 else MemoryByte(m, x)
    {
      hide LowCleared, ByteOf;
      ClearedBytes(m[x / 4], a + size - 4 * (x / 4), x % 4);
      assert x == 4 * (x / 4) + x % 4;
    }
  }

  /** Zeroing an allocation stays inside its blocks, and clears each block it fills. */
  lemma ZeroedPages(m: Memory, b: nat, size: Word)
    requires b + Blocks(size) <= HEAP_BLOCKS && size <= Blocks(size) * 4096
    requires (HEAP_PAGE + HEAP_BLOCKS) * 1024 <= |m|
    ensures b < HEAP_BLOCKS ==> forall p: nat |
              InMemory(m, p) && !(HEAP_PAGE + b <= p < HEAP_PAGE + b + Blocks(size)) ::
                SamePage(m, Zeroed(m, Address(b), size), p)
  {
    if b < HEAP_BLOCKS {
      var n := Zeroed(m, Address(b), size);
      forall p: nat | InMemory(m, p) && !(HEAP_PAGE + b <= p < HEAP_PAGE + b + Blocks(size))
        ensures SamePage(m, n, p)
      {
        forall i: nat | i < 1024 ensures WordAt(m, p, i) == WordAt(n, p, i) {
          var w := p * 1024 + i;
          assert p < HEAP_PAGE + b ==> w < Address(b) / 4;
          assert HEAP_PAGE + b + Blocks(size) <= p ==> Address(b) + size - 4 * w <= 0;
        }
      }
    }
  }

  // ---------------------------------------------------------------- room

  ghost function FreeBlocks(t: seq<Entry>): set<nat> {
    set i: nat | i < |t| && IsFree(t[i])
  }

  lemma RoomForOne(t: seq<Entry>)
    requires FreeBlocks(t) != {}
    ensures HasRun(t, 1) && 0 <= StartBlock(t, 1) && FreeRun(t, StartBlock(t, 1), 1)
  {
    var i :| i in FreeBlocks(t);
    assert FreeRun(t, i, 1);
    ScanFitsIff(t, 1);
  }

  lemma OneFewer(t: seq<Entry>, s: nat)
    requires FreeRun(t, s, 1)
    ensures FreeBlocks(MarkTaken(t, s, 1)) == FreeBlocks(t) - {s}
    ensures |FreeBlocks(MarkTaken(t, s, 1))| == |FreeBlocks(t)| - 1
  {
    RunEntryBits(0, 1);
    assert t[s + 0] == t[s];
  }

  /** A request that the scan cannot answer with a run that is too short. */
  ghost predicate Sound(t: seq<Entry>, n: nat) {
    n == 0 || HasRun(t, n) || StartBlock(t, n) < 0
  }

  /** What an allocation of at least one block does to the table and to the live map. */
  ghost predicate Allocated(t: seq<Entry>, live: Live, size: Word, u: seq<Entry>, after: Live, ptr: Word) {
    var n, s := Blocks(size), StartBlock(t, Blocks(size));
    if s < 0 then ptr == 0 && u == t && after == live
    else
      && FreeRun(t, s, n) && s < HEAP_BLOCKS && s !in live
      && ptr == Address(s) && u == MarkTaken(t, s, n) && after == live[s := n]
  }

  lemma AllocationWorks(t: seq<Entry>, live: Live, size: Word)
    requires Represents(t, live) && |t| == HEAP_BLOCKS && 0 < Blocks(size) && Sound(t, Blocks(size))
    requires 0 <= StartBlock(t, Blocks(size))
    ensures var n, s := Blocks(size), StartBlock(t, Blocks(size));
      && s + n <= HEAP_BLOCKS && (HEAP_ADDRESS + s * BLOCK_SIZE) % U32 == Address(s) != 0
      && Represents(MarkTaken(t, s, n), live[s := n])
      && Allocated(t, live, size, MarkTaken(t, s, n), live[s := n], Address(s))
  {
    var n, s := Blocks(size), StartBlock(t, Blocks(size));
    ScanFitsIff(t, n);
    MarkTakenRepresents(t, live, s, n);
    HeapIsBelowNarrowMask(s);
    assert s !in live;
  }

  /** The address of the block the scan finds, or null. */
  ghost function FoundAddress(t: seq<Entry>, n: nat): Word
    requires |t| == HEAP_BLOCKS
  {
    StartInTable(t, n);
    if StartBlock(t, n) < 0 then 0 else Address(StartBlock(t, n))
  }

  lemma FoundAligned(t: seq<Entry>, n: nat)
    requires |t| == HEAP_BLOCKS
    ensures FoundAddress(t, n) % 4096 == 0
  {
    hide StartBlock;
    StartInTable(t, n);
  }

  lemma StartInTable(t: seq<Entry>, n: nat)
    ensures StartBlock(t, n) < |t| || StartBlock(t, n) == -ENOMEM
  {
  }

  /** After marking the block found, some set of allocations stands for the table if and only if the
      scan was sound, and then it is the one before with the run. */
  lemma MallocOutcome(t: seq<Entry>, live: Live, size: Word)
    requires Represents(t, live) && |t| == HEAP_BLOCKS && 0 <= StartBlock(t, Blocks(size))
    ensures var n, s := Blocks(size), StartBlock(t, Blocks(size));
      && (HEAP_ADDRESS + s * BLOCK_SIZE) % U32 == FoundAddress(t, n)
      && (n == 0 ==> MarkTaken(t, s, n) == t)
      && (0 < n && Sound(t, n) ==> Allocated(t, live, size, MarkTaken(t, s, n), live[s := n], Address(s)))
      && (Represents(MarkTaken(t, s, n), if n == 0 then live else live[s := n]) <==> Sound(t, n))
  {
    var n, s := Blocks(size), StartBlock(t, Blocks(size));
    StartInTable(t, n);
    HeapIsBelowNarrowMask(s);
    MallocKeepsTableIff(t, live, n);
    if 0 < n && Sound(t, n) {
      AllocationWorks(t, live, size);
    } else if n == 0 {
      assert MarkTaken(t, s, n) == t;
    }
  }

  lemma FreeOutcome(t: seq<Entry>, live: Live, b: nat)
    requires Represents(t, live)
    ensures Represents(MarkFree(t, b), live - {b}) <==> !Interior(live, b)
  {
    FreeKeepsTableIff(t, live, b);
    if b in live {
      MarkFreeRepresents(t, live, b);
      FreeKeepsTableIff(t, live, b);
      assert WellFormed(MarkFree(t, b));
    } else if !Interior(live, b) {
      FreeOfFreeBlock(t, live, b);
      assert live - {b} == live;
    }
  }

  /** An allocated address is page-aligned, in the heap, and has room for the request. */
  lemma AllocatedAddress(t: seq<Entry>, live: Live, size: Word, u: seq<Entry>, after: Live, ptr: Word)
    requires Allocated(t, live, size, u, after, ptr) && ptr != 0 && |t| == HEAP_BLOCKS && 0 < Blocks(size)
    ensures ptr % 4096 == 0 && ptr + size <= ptr + Blocks(size) * 4096 <= (HEAP_PAGE + HEAP_BLOCKS) * 4096
  {
    BlocksIsCeiling(size);
  }

  // ---------------------------------------------------------------- the kernel heap

  class Kernel {
    const heap: BlockHeap
    const ram: array<Word>
    ghost var live: Live

    ghost predicate Valid()
      reads this, heap, heap.entries
    {
      && heap.saddr == HEAP_ADDRESS && (ram as object) != heap.entries
      && heap.total == HEAP_BLOCKS <= heap.entries.Length
      && (HEAP_PAGE + HEAP_BLOCKS) * 1024 <= ram.Length
      && Represents(heap.Table(), live)
    }

    /** kheap_init: every block of the 100 MiB from 0x01000000 is free. */
    constructor (heap: BlockHeap, ram: array<Word>)
      requires (ram as object) != heap.entries && heap.total == HEAP_BLOCKS <= heap.entries.Length
               && (HEAP_PAGE + HEAP_BLOCKS) * 1024 <= ram.Length
      modifies heap, heap.entries
      ensures Valid() && live == map[] && this.heap == heap && this.ram == ram
    {
      this.heap := heap;
      this.ram := ram;
      this.live := map[];
      new;
      var res := heap.Create(HEAP_ADDRESS, HEAP_ADDRESS + 104857600);
    }

    /** kmalloc.  A run past the end of the table is written, if the memory behind it is there.  The table
        stands for a set of allocations again if and only if the scan did not answer with too short a run;
        a request for no block gets the address of a block that stays free. */
    method Kmalloc(size: Word) returns (ptr: Word)
      requires Valid() && (Sound(heap.Table(), Blocks(size)) || WithinEntries(size))
      modifies this, heap.entries
      ensures heap.Table() == Step(old(heap.Table()), Op.Malloc(size))
      ensures ptr == FoundAddress(old(heap.Table()), Blocks(size))
      ensures Valid() <==> Sound(old(heap.Table()), Blocks(size))
      ensures Sound(old(heap.Table()), Blocks(size)) && 0 < Blocks(size) ==>
                Allocated(old(heap.Table()), old(live), size, heap.Table(), live, ptr)
      ensures Blocks(size) == 0 ==> heap.Table() == old(heap.Table()) && live == old(live)
    {
      hide Represents, MarkTaken;
      ghost var t, before, n := heap.Table(), live, Blocks(size);
      ghost var s := StartBlock(t, n);
      StartInTable(t, n);
      if 0 <= s {
        ScanFitsIff(t, n);
        MallocOutcome(t, live, size);
      }
      ptr := heap.Malloc(size);
      if 0 <= s && 0 < n {
        live := live[s := n];
      }
    }

    /** The bytes a run of this size needs are in the array that holds the table. */
    ghost predicate WithinEntries(size: Word)
      reads this, heap, heap.entries
      requires heap.total <= heap.entries.Length
    {
      StartBlock(heap.Table(), Blocks(size)) + Blocks(size) <= heap.entries.Length
    }

    /** memset to zero, byte by byte. */
    method ZeroBytes(a: Word, size: nat)
      requires a % 4 == 0 && a + size <= 4 * ram.Length
      modifies ram
      ensures ram[..] == Zeroed(old(ram[..]), a, size)
      ensures forall x: nat | x < 4 * ram.Length ::
                MemoryByte(ram[..], x) == if a <= x < a + size then 0 else MemoryByte(old(ram[..]), x)
    {
      ZeroedBytes(ram[..], a, size);
      hide ByteOf;
      var i := 0;
      while i < size
        invariant 0 <= i <= size
        invariant ram[..] == Zeroed(old(ram[..]), a, i)
      {
        var w := (a + i) / 4;
        assert ram[..][w] == LowCleared(old(ram[w]), i % 4) by {
          assert a + i - 4 * w == i % 4;
        }
        ClearNextByte(old(ram[w]), i % 4);
        ram[w] := ClearByte(ram[w], i % 4);
        ZeroedStep(old(ram[..]), a, i, w);
        i := i + 1;
      }
    }

    /** kzalloc. */
    method Kzalloc(size: Word) returns (ptr: Word)
      requires Valid() && (Sound(heap.Table(), Blocks(size)) || WithinEntries(size))
      requires (Sound(heap.Table(), Blocks(size)) && 0 < Blocks(size)) || WithinMemory(size)
      modifies this, heap.entries, ram
      ensures heap.Table() == Step(old(heap.Table()), Op.Malloc(size))
      ensures ptr == FoundAddress(old(heap.Table()), Blocks(size))
      ensures Valid() <==> Sound(old(heap.Table()), Blocks(size))
      ensures Sound(old(heap.Table()), Blocks(size)) && 0 < Blocks(size) ==>
                Allocated(old(heap.Table()), old(live), size, heap.Table(), live, ptr)
      ensures Blocks(size) == 0 ==> heap.Table() == old(heap.Table()) && live == old(live)
      ensures ram[..] == if ptr == 0 then old(ram[..]) else Zeroed(old(ram[..]), ptr, size)
      ensures ptr != 0 ==>
                forall x: nat | x < 4 * ram.Length ::
                  MemoryByte(ram[..], x) == if ptr <= x < ptr + size then 0 else MemoryByte(old(ram[..]), x)
    {
      hide Represents, Step, Sound, StartBlock, Allocated, Blocks, Zeroed, FoundAddress, MemoryByte;
      ghost var t, before := heap.Table(), live;
      FoundAligned(t, Blocks(size));
      ptr := Kmalloc(size);
      if ptr == 0 {
        return;
      }
      ghost var u := heap.Table();
      if Sound(t, Blocks(size)) && 0 < Blocks(size) {
        AllocatedAddress(t, before, size, u, live, ptr);
      }
      ZeroBytes(ptr, size);
      assert heap.Table() == u;
    }

    /** The bytes a request would clear are in memory. */
    ghost predicate WithinMemory(size: Word)
      reads this, heap, heap.entries
      requires heap.total <= heap.entries.Length && heap.total == HEAP_BLOCKS
    {
      FoundAddress(heap.Table(), Blocks(size)) + size <= 4 * ram.Length
    }

    /** kfree of any pointer.  The table stands for a set of allocations again if and only if the block
        is not inside an allocation; a free block or one outside the heap is ignored. */
    method Kfree(ptr: Word)
      requires Valid()
      modifies this, heap.entries
      ensures heap.Table() == MarkFree(old(heap.Table()), AddressToBlock(HEAP_ADDRESS, ptr))
      ensures live == old(live) - {AddressToBlock(HEAP_ADDRESS, ptr)}
      ensures Valid() <==> !Interior(old(live), AddressToBlock(HEAP_ADDRESS, ptr))
    {
      hide Represents, MarkFree, Interior, AddressToBlock;
      FreeOutcome(heap.Table(), live, AddressToBlock(HEAP_ADDRESS, ptr));
      heap.FreeBlock(ptr);
      live := live - {AddressToBlock(HEAP_ADDRESS, ptr)};
    }
  }

  lemma ZeroedStep(m: Memory, a: Word, i: nat, w: nat)
    requires a % 4 == 0 && w == (a + i) / 4 < |m|
    ensures Zeroed(m, a, i + 1) == Zeroed(m, a, i)[w := LowCleared(m[w], i % 4 + 1)]
  {
  }
}
