/** Several allocations of one process, one after the other. */
module ProcessGrants {
  import opened Machine
  import opened HeapTable
  import opened PageTables
  import opened KernelMemory
  import opened ProcessState
  import opened ProcessMemory
  import opened ProcessLife
  import opened ProcessIsolation

  // ---------------------------------------------------------------- several allocations of one process

  /** From s0 to s, process pid was given the memory at these pointers, in records that were unused, and
      every other record is as it was. */
  ghost predicate Given(s0: State, s: State, pid: nat, ptrs: seq<Word>) {
    && pid in s0.procs && pid in s.procs && |s0.procs[pid].allocations| == |s.procs[pid].allocations| == SLOTS
    && (forall k | 0 <= k < |ptrs| :: ptrs[k] != 0 && HasRecord(s0, s, pid, ptrs[k]))
    && (forall i, j | 0 <= i < j < |ptrs| :: ptrs[i] != ptrs[j])
    && forall slot: nat | slot < SLOTS ::
         s.procs[pid].allocations[slot] == s0.procs[pid].allocations[slot] || s.procs[pid].allocations[slot].ptr in ptrs
  }

  ghost predicate HasRecord(s0: State, s: State, pid: nat, ptr: Word)
    requires pid in s0.procs && pid in s.procs && |s0.procs[pid].allocations| == |s.procs[pid].allocations| == SLOTS
  {
    exists slot: nat :: RecordedIn(s0, s, pid, ptr, slot)
  }

  ghost predicate RecordedIn(s0: State, s: State, pid: nat, ptr: Word, slot: nat)
    requires pid in s0.procs && pid in s.procs && |s0.procs[pid].allocations| == |s.procs[pid].allocations| == SLOTS
  {
    slot < SLOTS && s.procs[pid].allocations[slot].ptr == ptr && s0.procs[pid].allocations[slot].ptr == 0
  }

  lemma GivenNothing(s: State, pid: nat)
    requires Inv(s) && pid in s.procs
    ensures Given(s, s, pid, [])
  {
    assert ProcOk(s, pid);
  }

  lemma GivenOneMore(s0: State, s: State, s': State, pid: nat, ptrs: seq<Word>, a: Allocation, slot: nat)
    requires Given(s0, s, pid, ptrs) && slot < SLOTS && s.procs[pid].allocations[slot].ptr == 0 && a.ptr != 0
    requires forall i: nat | i < SLOTS :: s.procs[pid].allocations[i].ptr != a.ptr
    requires pid in s'.procs && s'.procs[pid].allocations == s.procs[pid].allocations[slot := a]
    ensures Given(s0, s', pid, ptrs + [a.ptr])
  {
    var all := ptrs + [a.ptr];
    assert RecordedIn(s0, s', pid, a.ptr, slot) by {
      assert s.procs[pid].allocations[slot] == s0.procs[pid].allocations[slot] || 0 in ptrs;
    }
    forall k | 0 <= k < |ptrs| ensures HasRecord(s0, s', pid, all[k]) && ptrs[k] != a.ptr {
      var i: nat :| RecordedIn(s0, s, pid, ptrs[k], i);
      assert RecordedIn(s0, s', pid, ptrs[k], i);
    }
    forall i: nat | i < SLOTS
      ensures s'.procs[pid].allocations[i] == s0.procs[pid].allocations[i] || s'.procs[pid].allocations[i].ptr in all
    {
      assert i == slot ==> all[|ptrs|] == a.ptr;
    }
  }

  /** What one process_malloc does to records and blocks. */
  lemma MallocGives(s0: State, s: State, pid: nat, ptrs: seq<Word>, size: Word)
    requires CanMalloc(s, pid, size) && Given(s0, s, pid, ptrs) && Inv(AfterMalloc(s, pid, size))
    ensures var s', ptr := AfterMalloc(s, pid, size), MallocResult(s, pid, size);
      if ptr == 0 then Given(s0, s', pid, ptrs) else Given(s0, s', pid, ptrs + [ptr])
    ensures var s', ptr := AfterMalloc(s, pid, size), MallocResult(s, pid, size);
      ptr != 0 ==>
        exists slot: nat :: slot < SLOTS && pid in s'.procs && |s'.procs[pid].allocations| == SLOTS
                            && s'.procs[pid].allocations[slot] == Allocation(ptr, size)
  {
    hide Inv, Represents, StartBlock, MapPages, Changed, Given;
    var s', ptr := AfterMalloc(s, pid, size), MallocResult(s, pid, size);
    var b, slot := StartBlock(s.t, Blocks(size)), FirstSlot(s.procs[pid].allocations, 0, 0);
    if b >= 0 && slot != -1 {
      ScanGivesRun(s, pid, size);
      FullTable(s, pid);
      FreshPointer(s, pid, size);
      GrantRecords(s, s', pid, size, b, slot);
      GivenOneMore(s0, s, s', pid, ptrs, Allocation(ptr, size), slot);
      assert s'.procs[pid].allocations[slot] == Allocation(ptr, size);
    } else {
      SameGiven(s0, s, s', pid, ptrs);
    }
  }

  lemma GrantRecords(s: State, s': State, pid: nat, size: Word, b: nat, slot: nat)
    requires pid in s.procs && slot < |s.procs[pid].allocations| && b < HEAP_BLOCKS
    requires s' == Granted(s, s'.m, pid, size, b, slot)
    ensures pid in s'.procs
    ensures s'.procs[pid].allocations == s.procs[pid].allocations[slot := Allocation(Address(b), size)]
  {
  }

  lemma FullTable(s: State, pid: nat)
    requires Inv(s) && pid in s.procs
    ensures |s.procs[pid].allocations| == SLOTS
  {
    assert ProcOk(s, pid);
  }

  lemma SameGiven(s0: State, s: State, s': State, pid: nat, ptrs: seq<Word>)
    requires Given(s0, s, pid, ptrs) && s'.procs == s.procs
    ensures Given(s0, s', pid, ptrs)
  {
    forall k | 0 <= k < |ptrs| ensures HasRecord(s0, s', pid, ptrs[k]) {
      var i: nat :| RecordedIn(s0, s, pid, ptrs[k], i);
      assert RecordedIn(s0, s', pid, ptrs[k], i);
    }
  }

  /** No record names the block that is given out. */
  lemma FreshPointer(s: State, pid: nat, size: Word)
    requires CanMalloc(s, pid, size) && 0 <= StartBlock(s.t, Blocks(size)) && |s.procs[pid].allocations| == SLOTS
    ensures StartBlock(s.t, Blocks(size)) < HEAP_BLOCKS
    ensures forall i: nat | i < SLOTS :: s.procs[pid].allocations[i].ptr != Address(StartBlock(s.t, Blocks(size)))
  {
    hide Inv, Represents, StartBlock;
    var b := StartBlock(s.t, Blocks(size));
    ScanGivesRun(s, pid, size);
    HeapOf(s);
    NotYetTaken(s, b, size);
    BlockOfAddress(b);
    forall i: nat | i < SLOTS ensures s.procs[pid].allocations[i].ptr != Address(b) {
      if s.procs[pid].allocations[i].ptr == Address(b) {
        SlotInUse(s, pid, i);
      }
    }
  }

  /** process_malloc leaves every block there was as it was, but for the tables of its own process. */
  lemma MallocKeeps(s: State, pid: nat, size: Word)
    requires CanMalloc(s, pid, size)
    ensures var s' := AfterMalloc(s, pid, size);
      && Kept(s, s'.m, pid) && (forall b <- s.owner :: b in s'.owner && b in s'.live && b in s.live)
      && (forall b <- s.owner :: s'.owner[b] == s.owner[b] && s'.live[b] == s.live[b])
  {
    hide Inv, Represents, StartBlock, MapPages, Changed, LiveKept, Kept, Granted;
    HeapOf(s);
    OwnedIsLive(s);
    var b, slot := StartBlock(s.t, Blocks(size)), FirstSlot(s.procs[pid].allocations, 0, 0);
    if b < 0 {
      LiveIsKept(s, s.m, pid) by { SelfLive(s); }
    } else {
      ScanGivesRun(s, pid, size);
      if slot == -1 {
        LiveIsKept(s, Zeroed(s.m, Address(b), size), pid);
      } else {
        NotYetTaken(s, b, size);
        KeptOf(s, Grant(s, pid, size, slot).m, pid, b, Blocks(size), RW_USER);
        GrantedBlocks(s, Grant(s, pid, size, slot).m, pid, size, b, slot);
      }
    }
  }

  lemma SelfLive(s: State)
    requires HeapInv(s)
    ensures LiveKept(s, s.m)
  {
    forall b | b in s.owner { BlockInHeap(s, b); }
  }

  lemma LiveIsKept(s: State, m: Memory, pid: nat)
    requires LiveKept(s, m)
    ensures Kept(s, m, pid)
  {
  }

  lemma GrantedBlocks(s: State, m: Memory, pid: nat, size: Word, b: nat, slot: nat)
    requires pid in s.procs && slot < |s.procs[pid].allocations| && b < HEAP_BLOCKS && b !in s.owner
    ensures var s' := Granted(s, m, pid, size, b, slot);
      forall c <- s.owner :: c in s'.owner && s'.owner[c] == s.owner[c]
                             && (c in s.live ==> c in s'.live && s'.live[c] == s.live[c])
  {
  }

  lemma KeptCarries(s: State, s': State, pid: nat, e: nat)
    requires Kept(s, s'.m, pid) && e != pid && (forall b <- s.owner :: b in s'.owner && b in s'.live && b in s.live)
    requires forall b <- s.owner :: s'.owner[b] == s.owner[b] && s'.live[b] == s.live[b]
    ensures Carried(s, s', e)
  {
  }
}
