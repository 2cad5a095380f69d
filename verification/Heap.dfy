/** The heap itself: a start address and a block table that the operations rewrite in place. */
module Heap {
  import opened Machine
  import opened HeapTable

  const PTR_NULL: Word := 0

  class BlockHeap {
    var saddr: Word
    // The memory from the first table entry upward; the table proper is its first `total` bytes.
    const entries: array<Entry>
    const total: nat

    constructor (entries: array<Entry>, total: nat)
      requires total <= entries.Length
      ensures this.entries == entries && this.total == total
    {
      this.entries := entries;
      this.total := total;
      this.saddr := 0;
    }

    ghost function Table(): (t: seq<Entry>)
      requires total <= entries.Length
      reads entries
    {
      entries[..total]
    }

    /** heap_create: refuses unaligned bounds or a table of the wrong length, else clears the table. */
    method Create(start: Word, end: Word) returns (res: int)
      requires total <= entries.Length
      modifies this, entries
      ensures res == if start % 4096 != 0 || end % 4096 != 0 || total != (end - start) % U32 / BLOCK_SIZE
                     then -EINVARG else 0
      ensures res == 0 ==> saddr == start && Represents(Table(), map[])
      ensures res != 0 ==> entries[..] == old(entries[..])
      ensures entries[total..] == old(entries[total..])
    {
      if start % BLOCK_SIZE != 0 || end % BLOCK_SIZE != 0 {
        return -EINVARG;
      }
      saddr := start;
      if total != (end - start) % U32 / BLOCK_SIZE {
        return -EINVARG;
      }
      var i := 0;
      while i < total
        invariant 0 <= i <= total && saddr == start
        invariant forall k | 0 <= k < i :: entries[k] == FREE
        invariant entries[total..] == old(entries[total..])
      {
        entries[i] := FREE;
        i := i + 1;
      }
      EmptyTable(Table());
      res := 0;
    }

    /** heap_get_start_block: one pass that restarts its count at every taken block. */
    method GetStartBlock(totalBlocks: nat) returns (r: int)
      requires total <= entries.Length
      ensures r == StartBlock(Table(), totalBlocks)
    {
      var bc, bs, i := 0, -1, 0;
      ghost var t := Table();
      while i < total
        invariant 0 <= i <= total
        invariant bs == -1 ==> bc == 0 && (0 < i ==> !IsFree(t[i - 1]))
        invariant bs != -1 ==> 0 <= bs < i && bc == i - bs && FreeRun(t, bs, bc) && (0 < bs ==> !IsFree(t[bs - 1]))
        invariant 0 < totalBlocks ==> bc < totalBlocks
        invariant forall s | 0 <= s && s + totalBlocks <= i && 0 < totalBlocks :: !FreeRun(t, s, totalBlocks)
      {
        if !IsFree(entries[i]) {
          bc := 0;
          bs := -1;
          i := i + 1;
          continue;
        }
        if bs == -1 {
          bs := i;
        }
        bc := bc + 1;
        if bc == totalBlocks {
          assert FreeRun(t, bs, totalBlocks);
          StartBlockIs(t, totalBlocks, bs);
          return bs;
        }
        i := i + 1;
      }
      NoRun(t, totalBlocks, bs);
      r := if bs == -1 then -ENOMEM else bs;
    }

    /** heap_mark_blocks_taken. */
    method MarkBlocksTaken(startBlock: nat, totalBlocks: nat)
      requires startBlock + totalBlocks <= entries.Length
      modifies entries
      ensures entries[..] == MarkTaken(old(entries[..]), startBlock, totalBlocks)
    {
      var endBlock := startBlock + totalBlocks - 1;
      var entry := TAKEN | IS_FIRST;
      if totalBlocks > 1 {
        entry := entry | HAS_NEXT;
      }
      var i := startBlock;
      while i <= endBlock
        invariant startBlock <= i <= startBlock + totalBlocks
        invariant i <= endBlock ==> entry == RunEntry(i - startBlock, totalBlocks)
        invariant forall k | 0 <= k < entries.Length ::
                    entries[k] == if startBlock <= k < i then RunEntry(k - startBlock, totalBlocks) else old(entries[k])
      {
        entries[i] := entry;
        entry := TAKEN;
        if i != endBlock - 1 {
          entry := entry | HAS_NEXT;
        }
        i := i + 1;
      }
    }

    /** heap_mark_blocks_free. */
    method MarkBlocksFree(startBlock: nat)
      requires total <= entries.Length
      modifies entries
      ensures Table() == MarkFree(old(Table()), startBlock)
      ensures entries[total..] == old(entries[total..])
    {
      var i := startBlock;
      while i < total
        invariant startBlock <= i
        invariant MarkFree(Table(), i) == MarkFree(old(Table()), startBlock)
        invariant entries[total..] == old(entries[total..])
      {
        var entry := entries[i];
        ghost var t := Table();
        entries[i] := FREE;
        assert Table() == t[i := FREE];
        if !HasNext(entry) {
          return;
        }
        i := i + 1;
      }
    }

    /** heap_malloc: 0 when the scan fails, else the address of the block it found, now marked. */
    method Malloc(size: Word) returns (address: Word)
      requires total <= entries.Length
      requires 0 <= StartBlock(Table(), Blocks(size)) ==>
               StartBlock(Table(), Blocks(size)) + Blocks(size) <= entries.Length
      modifies entries
      ensures var s := StartBlock(old(Table()), Blocks(size));
              if s < 0 then address == PTR_NULL && entries[..] == old(entries[..])
              else address == (saddr + s * BLOCK_SIZE) % U32
                   && entries[..] == MarkTaken(old(entries[..]), s, Blocks(size))
      ensures Table() == Step(old(Table()), Op.Malloc(size))
    {
      address := PTR_NULL;
      var n := AlignUp(size) / BLOCK_SIZE;
      var s := GetStartBlock(n);
      if s < 0 {
        return;
      }
      address := (saddr + s * BLOCK_SIZE) % U32;
      MarkBlocksTaken(s, n);
      assert Table() == MarkTaken(old(Table()), s, n);
    }

    /** heap_free, for any pointer at all. */
    method FreeBlock(ptr: Word)
      requires total <= entries.Length
      modifies entries
      ensures Table() == Step(old(Table()), Op.Free(AddressToBlock(saddr, ptr)))
      ensures entries[total..] == old(entries[total..])
    {
      MarkBlocksFree(AddressToBlock(saddr, ptr));
    }
  }

  /** The first start the scan completes is the least one. */
  lemma StartBlockIs(t: seq<Entry>, n: nat, bs: nat)
    requires 0 < n && FreeRun(t, bs, n)
    requires forall s | 0 <= s && s < bs :: !FreeRun(t, s, n)
    ensures StartBlock(t, n) == bs
  {
  }

  lemma NoRun(t: seq<Entry>, n: nat, bs: int)
    requires forall s | 0 <= s && s + n <= |t| && 0 < n :: !FreeRun(t, s, n)
    requires bs == -1 ==> (0 < |t| ==> !IsFree(t[|t| - 1]))
    requires bs != -1 ==> 0 <= bs < |t| && FreeRun(t, bs, |t| - bs) && (0 < bs ==> !IsFree(t[bs - 1]))
    ensures StartBlock(t, n) == if bs == -1 then -ENOMEM else bs
  {
    var s := TailStart(t);
    if bs == -1 {
      assert s == |t|;
    } else {
      assert FreeRun(t, bs, |t| - bs) && FreeRun(t, s, |t| - s);
      assert s == bs;
    }
  }
}
