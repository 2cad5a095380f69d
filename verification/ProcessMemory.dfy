/** process_malloc, process_free and termination as transitions of the global state, and why they keep its invariant. */
module ProcessMemory {
  import opened Machine
  import opened HeapTable
  import opened PageTables
  import opened KernelMemory
  import opened ProcessState

  /** First record at or after `from` whose pointer is ptr, or -1. */
  function FirstSlot(allocations: seq<Allocation>, ptr: Word, from: nat): (i: int)
    ensures i == -1 || (from <= i < |allocations| && allocations[i].ptr == ptr)
    ensures forall j | from <= j < if i == -1 then |allocations| else i :: allocations[j].ptr != ptr
    decreases |allocations| - from
  {
    if |allocations| <= from then -1
    else if allocations[from].ptr == ptr then from
    else FirstSlot(allocations, ptr, from + 1)
  }

  /** Memory after pid's pages [b, b+n) were mapped to themselves with `flags`: no other page of pid,
      and no page of anybody else, looks any different. */
  ghost predicate Changed(s: State, m: Memory, pid: nat, b: nat, n: nat, flags: nat)
    requires HeapInv(s) && pid in s.procs && flags < 4096
  {
    var d := s.procs[pid].directory;
    && GoodDirectory(s.m, d) && Kept(s, m, pid) && SameTables(s.m, m, d)
    && forall q: nat | q < PAGES ::
         Pte(m, d, q) == if HEAP_PAGE + b <= q < HEAP_PAGE + b + n then EntryOf(q, flags) else Pte(s.m, d, q)
  }

  lemma MapOwnPages(s: State, m: Memory, pid: nat, b: nat, n: nat, flags: nat)
    requires HeapInv(s) && pid in s.procs && DirectoryOk(s, pid) && LiveKept(s, m)
    requires b + n <= HEAP_BLOCKS && flags < 4096
    ensures GoodDirectory(m, s.procs[pid].directory)
    ensures Changed(s, MapPages(m, s.procs[pid].directory, HEAP_PAGE + b, HEAP_PAGE + b, n, flags), pid, b, n, flags)
  {
    var d := s.procs[pid].directory;
    SpaceKept(s, m, pid);
    MapToSelf(m, d, HEAP_PAGE + b, n, flags);
    TablesOnlyIsKept(s, m, MapPages(m, d, HEAP_PAGE + b, HEAP_PAGE + b, n, flags), pid);
  }

  /** Zeroing a free run leaves every live block's words in place. */
  lemma ZeroKeepsLive(s: State, b: nat, size: Word)
    requires HeapInv(s) && 0 < Blocks(size) && FreeRun(s.t, b, Blocks(size))
    ensures b < HEAP_BLOCKS && LiveKept(s, Zeroed(s.m, Address(b), size))
  {
    var n := Zeroed(s.m, Address(b), size);
    BlocksIsCeiling(size);
    ZeroedPages(s.m, b, size);
    MarkTakenRepresents(s.t, s.live, b, Blocks(size));
    forall c, p: nat | c in s.owner && HEAP_PAGE + c <= p < HEAP_PAGE + c + s.live[c] ensures SamePage(s.m, n, p) {
      BlockInHeap(s, c);
    }
  }

  // ---------------------------------------------------------------- what a step must not disturb

  /** e's address space looks the same, except for the pages of the step when e is pid. */
  ghost predicate SpaceSeen(s: State, m: Memory, pid: nat, e: nat)
    requires e in s.procs
  {
    var d := s.procs[e].directory;
    GoodDirectory(s.m, d) && SameTables(s.m, m, d) &&
    (e != pid ==> forall q: nat | q < PAGES :: Pte(m, d, q) == Pte(s.m, d, q))
  }

  /** pid's directory and tables, seen again after its own pages changed. */
  lemma DirectoryStillOk(s: State, s': State, m: Memory, pid: nat, b: nat, n: nat, flags: nat, e: nat)
    requires Inv(s) && pid in s.procs && flags < 4096 && Changed(s, m, pid, b, n, flags) && e in s.procs
    requires HeapInv(s') && e in s'.procs && s'.m == m && s'.procs[e].directory == s.procs[e].directory
             && s'.procs[e].chunk == s.procs[e].chunk
    requires forall c | c in s.owner && (s.owner[c].Directory? || s.owner[c].Table? || s.owner[c].Chunk?) ::
               c in s'.owner && s'.owner[c] == s.owner[c] && s'.live[c] == s.live[c]
    ensures DirectoryOk(s', e) && SpaceSeen(s, m, pid, e)
  {
    hide Represents, ResourcesOk, SlotOk;
    var d := s.procs[e].directory;
    assert ProcOk(s, e);
    if e != pid {
      OtherSpaceKept(s, m, pid, e);
    }
    FirstPageSame(s, m, s.procs[e].chunk - HEAP_PAGE);
    assert WordAt(m, s.procs[e].chunk, 0) == WordAt(s.m, s.procs[e].chunk, 0);
    forall i: nat | i < ENTRIES
      ensures OwnPage(s', TablePage(s'.m, d, i), Table(e, i)) && WordAt(m, d, i) % 4096 == RW_USER
    {
      assert OwnPage(s, TablePage(s.m, d, i), Table(e, i)) && WordAt(s.m, d, i) % 4096 == RW_USER;
      assert WordAt(m, d, i) == WordAt(s.m, d, i);
    }
  }

  lemma ResourcesStillOk(s: State, s': State, e: nat)
    requires HeapInv(s) && HeapInv(s') && e in s.procs && e in s'.procs && s'.procs[e].resources == s.procs[e].resources
    requires ResourcesOk(s, e)
    requires forall c | c in s.owner && s.owner[c].Resource? && s.owner[c].pid == e ::
               c in s'.owner && s'.owner[c] == s.owner[c] && c in s.live && SameBlock(s.m, s'.m, c, s.live[c])
    ensures ResourcesOk(s', e)
  {
    hide Represents;
    forall k: nat | k < |s.procs[e].resources| ensures ResourceOk(s', e, k) {
      assert ResourceOk(s, e, k);
    }
    var k := |s.procs[e].resources| - 2;
    assert ResourceOk(s, e, k);
    FirstPageSame(s, s'.m, TaskPage(s.procs[e]) - HEAP_PAGE);
    TaskWordsSame(s.m, s'.m, TaskPage(s.procs[e]));
  }

  lemma TaskWordsSame(m: Memory, n: Memory, p: nat)
    requires SamePage(m, n, p)
    ensures WordAt(n, p, TASK_NEXT) == WordAt(m, p, TASK_NEXT) && WordAt(n, p, TASK_PREV) == WordAt(m, p, TASK_PREV)
  {
  }

  /** A record other than the one the step is about stays right. */
  lemma SlotStillOk(s: State, s': State, m: Memory, pid: nat, b: nat, n: nat, flags: nat, e: nat, slot: nat)
    requires HeapInv(s) && pid in s.procs && flags < 4096 && Changed(s, m, pid, b, n, flags)
    requires e in s.procs && SpaceSeen(s, m, pid, e)
    requires HeapInv(s') && e in s'.procs && s'.m == m && s'.procs[e].directory == s.procs[e].directory
    requires slot < SLOTS == |s'.procs[e].allocations| == |s.procs[e].allocations|
    requires s'.procs[e].allocations[slot] == s.procs[e].allocations[slot]
    requires SlotOk(s, e, slot)
    requires var a := s.procs[e].allocations[slot]; a.ptr != 0 ==>
      var c := BlockOf(a.ptr);
      c in s'.owner && s'.owner[c] == s.owner[c] && s'.live[c] == s.live[c] && (c + s.live[c] <= b || b + n <= c)
    ensures SlotOk(s', e, slot)
  {
  }

  // ---------------------------------------------------------------- process_malloc

  /** The guard of a request: at least one block, and a heap scan that does not stop short. */
  ghost predicate CanMalloc(s: State, pid: nat, size: Word) {
    Inv(s) && pid in s.procs && 0 < Blocks(size) && Sound(s.t, Blocks(size))
  }

  /** The state in which the request has been granted in heap block b and record `slot`. */
  ghost function Granted(s: State, m: Memory, pid: nat, size: Word, b: nat, slot: nat): State
    requires pid in s.procs && slot < |s.procs[pid].allocations| && b < HEAP_BLOCKS
  {
    var p := s.procs[pid];
    State(MarkTaken(s.t, b, Blocks(size)), s.live[b := Blocks(size)], s.owner[b := Memory(pid, slot)], m,
          s.procs[pid := p.(allocations := p.allocations[slot := Allocation(Address(b), size)])], s.ends)
  }

  lemma GrantedHeap(s: State, m: Memory, pid: nat, size: Word, b: nat, slot: nat)
    requires HeapInv(s) && pid in s.procs && slot < |s.procs[pid].allocations|
    requires 0 < Blocks(size) && FreeRun(s.t, b, Blocks(size)) && |m| == |s.m|
    ensures b < HEAP_BLOCKS && HeapInv(Granted(s, m, pid, size, b, slot)) && b !in s.owner
    ensures forall c <- s.owner :: c + s.live[c] <= b || b + Blocks(size) <= c
  {
    MarkTakenRepresents(s.t, s.live, b, Blocks(size));
  }

  lemma NewSlotOk(s: State, m: Memory, pid: nat, size: Word, b: nat, slot: nat)
    requires HeapInv(s) && pid in s.procs && slot < SLOTS && 0 < Blocks(size) && FreeRun(s.t, b, Blocks(size))
    requires |s.procs[pid].allocations| == SLOTS && b < HEAP_BLOCKS && HeapInv(Granted(s, m, pid, size, b, slot))
    requires Changed(s, m, pid, b, Blocks(size), RW_USER) && DirectoryOk(s, pid)
    ensures SlotOk(Granted(s, m, pid, size, b, slot), pid, slot)
  {
    hide Represents, MarkTaken;
    BlockOfAddress(b);
    var d := s.procs[pid].directory;
    forall q: nat | HEAP_PAGE + b <= q < HEAP_PAGE + b + Blocks(size) && q < PAGES
      ensures Pte(m, d, q) == EntryOf(q, RW_USER) && UserWrites(m, d, q)
    {
      assert Pde(m, d, q) == WordAt(s.m, d, q / 1024) && WordAt(s.m, d, q / 1024) % 4096 == RW_USER;
      FullRights(Pde(m, d, q));
      FullRights(EntryOf(q, RW_USER));
    }
  }

  lemma FullRights(e: Word)
    requires e % 4096 == RW_USER
    ensures ForUserToWrite(e)
  {
  }

  lemma OldSlotOk(s: State, m: Memory, pid: nat, size: Word, b: nat, slot: nat, e: nat, i: nat)
    requires HeapInv(s) && pid in s.procs && slot < SLOTS && 0 < Blocks(size) && FreeRun(s.t, b, Blocks(size))
    requires |s.procs[pid].allocations| == SLOTS && b < HEAP_BLOCKS && HeapInv(Granted(s, m, pid, size, b, slot))
    requires Changed(s, m, pid, b, Blocks(size), RW_USER) && e in s.procs && SpaceSeen(s, m, pid, e)
    requires i < SLOTS == |s.procs[e].allocations| && SlotOk(s, e, i) && (e != pid || i != slot)
    ensures SlotOk(Granted(s, m, pid, size, b, slot), e, i)
  {
    GrantedHeap(s, m, pid, size, b, slot);
    SlotStillOk(s, Granted(s, m, pid, size, b, slot), m, pid, b, Blocks(size), RW_USER, e, i);
  }

  lemma GrantedProc(s: State, m: Memory, pid: nat, size: Word, b: nat, slot: nat, e: nat)
    requires Inv(s) && pid in s.procs && slot < SLOTS && 0 < Blocks(size) && FreeRun(s.t, b, Blocks(size))
    requires |s.procs[pid].allocations| == SLOTS
    requires Changed(s, m, pid, b, Blocks(size), RW_USER) && e in s.procs
    ensures b < HEAP_BLOCKS && HeapInv(Granted(s, m, pid, size, b, slot))
    ensures ProcOk(Granted(s, m, pid, size, b, slot), e)
  {
    hide Represents, DirectoryOk, ResourcesOk, SlotOk, MarkTaken, Blocks;
    GrantedHeap(s, m, pid, size, b, slot);
    assert ProcOk(s, e);
    DirectoryStillOk(s, Granted(s, m, pid, size, b, slot), m, pid, b, Blocks(size), RW_USER, e);
    ResourcesStillOk(s, Granted(s, m, pid, size, b, slot), e);
    forall i: nat | i < SLOTS ensures SlotOk(Granted(s, m, pid, size, b, slot), e, i) {
      if e == pid && i == slot {
        NewSlotOk(s, m, pid, size, b, slot);
      } else {
        OldSlotOk(s, m, pid, size, b, slot, e, i);
      }
    }
  }

  lemma GrantedRole(s: State, m: Memory, pid: nat, size: Word, b: nat, slot: nat, c: nat)
    requires Inv(s) && pid in s.procs && slot < SLOTS == |s.procs[pid].allocations|
             && s.procs[pid].allocations[slot].ptr == 0
    requires Changed(s, m, pid, b, Blocks(size), RW_USER)
    requires b < HEAP_BLOCKS && HeapInv(Granted(s, m, pid, size, b, slot))
    ensures c in Granted(s, m, pid, size, b, slot).owner ==> RoleOk(Granted(s, m, pid, size, b, slot), c)
  {
    hide Represents, ProcOk, Changed, MarkTaken, Blocks;
    if c in s.owner && c != b {
      assert RoleOk(s, c);
      if s.owner[c].Table? {
        SameTablesFor(s, m, pid, b, Blocks(size), RW_USER, s.owner[c].pid);
      }
    }
  }

  /** No directory leads to other tables than before. */
  lemma SameTablesFor(s: State, m: Memory, pid: nat, b: nat, n: nat, flags: nat, e: nat)
    requires Inv(s) && pid in s.procs && flags < 4096 && Changed(s, m, pid, b, n, flags) && e in s.procs
    ensures |m| == |s.m| && InMemory(s.m, s.procs[e].directory) && SameTables(s.m, m, s.procs[e].directory)
  {
    assert ProcOk(s, e);
    hide Represents, ResourcesOk, SlotOk;
    if e != pid {
      OtherSpaceKept(s, m, pid, e);
    }
  }

  lemma GrantedInv(s: State, m: Memory, pid: nat, size: Word, b: nat, slot: nat)
    requires Inv(s) && pid in s.procs && slot < SLOTS && 0 < Blocks(size) && FreeRun(s.t, b, Blocks(size))
    requires |s.procs[pid].allocations| == SLOTS && s.procs[pid].allocations[slot].ptr == 0
    requires Changed(s, m, pid, b, Blocks(size), RW_USER)
    ensures b < HEAP_BLOCKS && Inv(Granted(s, m, pid, size, b, slot))
  {
    GrantedHeap(s, m, pid, size, b, slot);
    forall e | e in s.procs { GrantedProc(s, m, pid, size, b, slot, e); }
    forall c: nat { GrantedRole(s, m, pid, size, b, slot, c); }
  }

  lemma ScanGivesRun(s: State, pid: nat, size: Word)
    requires CanMalloc(s, pid, size) && 0 <= StartBlock(s.t, Blocks(size))
    ensures var b := StartBlock(s.t, Blocks(size));
      && FreeRun(s.t, b, Blocks(size)) && b + Blocks(size) <= HEAP_BLOCKS
      && LiveKept(s, Zeroed(s.m, Address(b), size))
  {
    ScanFitsIff(s.t, Blocks(size));
    ZeroKeepsLive(s, StartBlock(s.t, Blocks(size)), size);
  }

  /** Zero the block, map it for the user, write the record. */
  ghost function Grant(s: State, pid: nat, size: Word, slot: nat): (s': State)
    requires CanMalloc(s, pid, size) && 0 <= StartBlock(s.t, Blocks(size)) && slot < |s.procs[pid].allocations|
    ensures var b := StartBlock(s.t, Blocks(size));
      && b < HEAP_BLOCKS
      && s' == Granted(s, s'.m, pid, size, b, slot) && Changed(s, s'.m, pid, b, Blocks(size), RW_USER)
  {
    ScanGivesRun(s, pid, size);
    assert ProcOk(s, pid);
    var b, n := StartBlock(s.t, Blocks(size)), Blocks(size);
    var z := Zeroed(s.m, Address(b), size);
    MapOwnPages(s, z, pid, b, n, RW_USER);
    Granted(s, MapPages(z, s.procs[pid].directory, HEAP_PAGE + b, HEAP_PAGE + b, n, RW_USER), pid, size, b, slot)
  }

  /** process_malloc's effect: nothing at all when the heap has no room; nothing but zeroed free
      memory when no record is free; otherwise block, mapping and record together. */
  ghost function AfterMalloc(s: State, pid: nat, size: Word): State
    requires CanMalloc(s, pid, size)
  {
    var slot := FirstSlot(s.procs[pid].allocations, 0, 0);
    if StartBlock(s.t, Blocks(size)) < 0 then s
    else if slot == -1 then ScanGivesRun(s, pid, size);
      s.(m := Zeroed(s.m, Address(StartBlock(s.t, Blocks(size))), size))
    else Grant(s, pid, size, slot)
  }

  ghost function MallocResult(s: State, pid: nat, size: Word): Word
    requires CanMalloc(s, pid, size)
  {
    var b := StartBlock(s.t, Blocks(size));
    if b < 0 || FirstSlot(s.procs[pid].allocations, 0, 0) == -1 then 0
    else ScanFitsIff(s.t, Blocks(size)); Address(b)
  }

  /** Behind the zeroing, a granted process_malloc writes the process's tables only. */
  lemma GrantWritesTables(s: State, pid: nat, size: Word)
    requires CanMalloc(s, pid, size) && MallocResult(s, pid, size) != 0
    ensures var b, d := StartBlock(s.t, Blocks(size)), s.procs[pid].directory;
      && FreeRun(s.t, b, Blocks(size)) && b + Blocks(size) <= HEAP_BLOCKS && MallocResult(s, pid, size) == Address(b)
      && HeapInv(s) && DirectoryOk(s, pid) && LiveKept(s, Zeroed(s.m, Address(b), size))
      && GoodDirectory(Zeroed(s.m, Address(b), size), d)
      && OnlyTables(Zeroed(s.m, Address(b), size), AfterMalloc(s, pid, size).m, d)
  {
    hide Zeroed, MapPages, MarkTaken, StartBlock, Represents, ResourcesOk, SlotOk, RoleOk;
    hide FreeRun, Changed, LiveKept, OnlyTables;
    ScanGivesRun(s, pid, size);
    assert ProcOk(s, pid);
    var b, n, d := StartBlock(s.t, Blocks(size)), Blocks(size), s.procs[pid].directory;
    var z := Zeroed(s.m, Address(b), size);
    MapOwnPages(s, z, pid, b, n, RW_USER);
    MapToSelf(z, d, HEAP_PAGE + b, n, RW_USER);
  }

  /** Every byte that a process_malloc was asked for is zero when it is granted. */
  lemma GrantedIsZero(s: State, pid: nat, size: Word)
    requires CanMalloc(s, pid, size) && MallocResult(s, pid, size) != 0
    ensures AllZero(AfterMalloc(s, pid, size).m, MallocResult(s, pid, size), size)
  {
    GrantWritesTables(s, pid, size);
    hide Zeroed, FreeRun, Inv, HeapInv, AfterMalloc, DirectoryOk, LiveKept, OnlyTables, MemoryByte, GoodDirectory;
    var b, m := StartBlock(s.t, Blocks(size)), AfterMalloc(s, pid, size).m;
    forall x: nat | Address(b) <= x < Address(b) + size ensures x < 4 * |m| && MemoryByte(m, x) == 0 {
      ZeroInRun(s, m, pid, b, size, x);
    }
  }

  lemma ZeroInRun(s: State, m: Memory, pid: nat, b: nat, size: Word, x: nat)
    requires HeapInv(s) && pid in s.procs && DirectoryOk(s, pid)
    requires FreeRun(s.t, b, Blocks(size)) && b + Blocks(size) <= HEAP_BLOCKS && 0 < Blocks(size)
    requires b < HEAP_BLOCKS && LiveKept(s, Zeroed(s.m, Address(b), size))
    requires GoodDirectory(Zeroed(s.m, Address(b), size), s.procs[pid].directory)
    requires OnlyTables(Zeroed(s.m, Address(b), size), m, s.procs[pid].directory)
    requires Address(b) <= x < Address(b) + size
    ensures x < 4 * |m| && MemoryByte(m, x) == 0
  {
    hide Zeroed, MemoryByte, FreeRun, HeapInv, DirectoryOk, LiveKept, Blocks, GoodDirectory, IsTableOf, SamePage;
    var z := Zeroed(s.m, Address(b), size);
    BlocksIsCeiling(size);
    RunIsNoTable(s, z, pid, b, Blocks(size), x / 4096);
    SameByte(z, m, x);
    ZeroedBytes(s.m, Address(b), size);
  }

  /** A page of a free run is none of a process's tables. */
  lemma RunIsNoTable(s: State, z: Memory, pid: nat, b: nat, n: nat, p: nat)
    requires HeapInv(s) && pid in s.procs && DirectoryOk(s, pid) && LiveKept(s, z) && FreeRun(s.t, b, n)
    requires HEAP_PAGE + b <= p < HEAP_PAGE + b + n
    ensures GoodDirectory(z, s.procs[pid].directory) && InMemory(z, p)
    ensures !IsTableOf(z, s.procs[pid].directory, p)
  {
    var d := s.procs[pid].directory;
    SpaceKept(s, z, pid);
    forall i: nat | i < ENTRIES ensures TablePage(z, d, i) != p {
      assert OwnPage(s, TablePage(s.m, d, i), Table(pid, i));
      assert IsFree(s.t[p - HEAP_PAGE]);
    }
  }

  lemma SameByte(m: Memory, n: Memory, x: nat)
    requires |n| == |m| && InMemory(m, x / 4096) && SamePage(m, n, x / 4096)
    ensures x < 4 * |m| && MemoryByte(n, x) == MemoryByte(m, x)
  {
    var p, i := x / 4096, x % 4096 / 4;
    assert x / 4 == p * 1024 + i && i < 1024;
    assert WordAt(m, p, i) == WordAt(n, p, i);
  }

  lemma LiveKeptProc(s: State, m: Memory, e: nat)
    requires HeapInv(s) && HeapInv(s.(m := m)) && e in s.procs && ProcOk(s, e) && LiveKept(s, m)
    ensures ProcOk(s.(m := m), e)
  {
    hide Represents;
    var s', d := s.(m := m), s.procs[e].directory;
    SpaceKept(s, m, e);
    ResourcesStillOk(s, s', e);
    FirstPageSame(s, m, s.procs[e].chunk - HEAP_PAGE);
    assert WordAt(m, s.procs[e].chunk, 0) == WordAt(s.m, s.procs[e].chunk, 0);
    forall i: nat | i < ENTRIES
      ensures OwnPage(s', TablePage(m, d, i), Table(e, i)) && WordAt(m, d, i) % 4096 == RW_USER
    {
      assert OwnPage(s, TablePage(s.m, d, i), Table(e, i));
      assert WordAt(m, d, i) == WordAt(s.m, d, i);
    }
    forall i: nat | i < SLOTS ensures SlotOk(s', e, i) {
      assert SlotOk(s, e, i);
    }
  }

  lemma LiveKeptInv(s: State, m: Memory)
    requires Inv(s) && LiveKept(s, m)
    ensures Inv(s.(m := m))
  {
    var s' := s.(m := m);
    assert HeapInv(s');
    forall e | e in s.procs ensures ProcOk(s', e) {
      assert ProcOk(s, e);
      LiveKeptProc(s, m, e);
    }
    forall c | c in s.owner ensures RoleOk(s', c) {
      assert RoleOk(s, c);
      if s.owner[c].Table? {
        assert ProcOk(s, s.owner[c].pid);
        SpaceKept(s, m, s.owner[c].pid);
      }
    }
  }

  /** Giving the block of a granted request straight back leaves table and live map as they were. */
  lemma UndoRestores(t: seq<Entry>, live: Live, b: nat, n: nat)
    requires Represents(t, live) && 0 < n && FreeRun(t, b, n) && |t| == HEAP_BLOCKS
    ensures b < HEAP_BLOCKS && AddressToBlock(HEAP_ADDRESS, Address(b)) == b && b !in live
    ensures MarkFree(MarkTaken(t, b, n), b) == t && live[b := n] - {b} == live
  {
    HeapIsBelowNarrowMask(b);
    MallocFreeRestores(t, live, b, n);
    MarkTakenRepresents(t, live, b, n);
    assert live[b := n] - {b} == live;
  }

  /** After kzalloc found block b. */
  ghost function Zalloced(s: State, size: Word, b: nat): State
    requires b < HEAP_BLOCKS
  {
    s.(t := MarkTaken(s.t, b, Blocks(size)), live := s.live[b := Blocks(size)], m := Zeroed(s.m, Address(b), size))
  }

  /** After block b of n pages was mapped for pid and recorded. */
  ghost function Recorded(s: State, pid: nat, b: nat, n: nat, a: Allocation, slot: nat): State
    requires pid in s.procs && slot < |s.procs[pid].allocations|
    requires GoodDirectory(s.m, s.procs[pid].directory) && b + n <= HEAP_BLOCKS && b < HEAP_BLOCKS
  {
    var p := s.procs[pid];
    s.(owner := s.owner[b := Memory(pid, slot)],
       m := MapPages(s.m, p.directory, HEAP_PAGE + b, HEAP_PAGE + b, n, RW_USER),
       procs := s.procs[pid := p.(allocations := p.allocations[slot := a])])
  }

  /** How a call of process_malloc may move the machine, said without the invariant. */
  ghost predicate MallocMoves(s: State, s': State, pid: nat, size: Word, ptr: Word)
    requires pid in s.procs
  {
    var b, n, slot := StartBlock(s.t, Blocks(size)), Blocks(size), FirstSlot(s.procs[pid].allocations, 0, 0);
    if b < 0 then s' == s && ptr == 0
    else if HEAP_BLOCKS <= b || HEAP_BLOCKS < b + n then false
    else if slot == -1 then s' == s.(m := Zeroed(s.m, Address(b), size)) && ptr == 0
    else
      && ptr == Address(b) && GoodDirectory(Zeroed(s.m, ptr, size), s.procs[pid].directory)
      && s' == Recorded(Zalloced(s, size, b), pid, b, n, Allocation(ptr, size), slot)
  }

  /** Zeroing the block first does not break the directory that the mapping then goes through. */
  lemma ReadyToMap(s: State, pid: nat, size: Word)
    requires CanMalloc(s, pid, size) && 0 <= StartBlock(s.t, Blocks(size))
    ensures var b := StartBlock(s.t, Blocks(size));
      b < HEAP_BLOCKS && GoodDirectory(Zeroed(s.m, Address(b), size), s.procs[pid].directory)
  {
    ScanGivesRun(s, pid, size);
    assert ProcOk(s, pid);
    SpaceKept(s, Zeroed(s.m, Address(StartBlock(s.t, Blocks(size))), size), pid);
  }

  /** Everything process_malloc's statements rely on, and what they amount to. */
  lemma BeforeMalloc(s: State, pid: nat, size: Word)
    requires CanMalloc(s, pid, size)
    ensures Inv(AfterMalloc(s, pid, size)) && pid in s.procs
    ensures 0 < Blocks(size) && Sound(s.t, Blocks(size)) && Represents(s.t, s.live) && |s.t| == HEAP_BLOCKS
    ensures var b := StartBlock(s.t, Blocks(size));
      0 <= b ==> b < HEAP_BLOCKS && GoodDirectory(Zeroed(s.m, Address(b), size), s.procs[pid].directory)
  {
    MallocKeepsInv(s, pid, size);
    if 0 <= StartBlock(s.t, Blocks(size)) {
      ReadyToMap(s, pid, size);
    }
  }

  lemma MallocMovesToAfter(s: State, s': State, pid: nat, size: Word, ptr: Word)
    requires CanMalloc(s, pid, size) && MallocMoves(s, s', pid, size, ptr)
    ensures s' == AfterMalloc(s, pid, size) && ptr == MallocResult(s, pid, size)
  {
    hide Inv, Zeroed, MapPages, MarkTaken, Blocks, Changed;
    if 0 <= StartBlock(s.t, Blocks(size)) {
      ScanGivesRun(s, pid, size);
    }
  }

  /** process_malloc keeps the global invariant. */
  lemma MallocKeepsInv(s: State, pid: nat, size: Word)
    requires CanMalloc(s, pid, size)
    ensures Inv(AfterMalloc(s, pid, size))
  {
    hide Changed, Granted, LiveKept, Grant;
    var b, slot := StartBlock(s.t, Blocks(size)), FirstSlot(s.procs[pid].allocations, 0, 0);
    if 0 <= b {
      ScanGivesRun(s, pid, size);
      if slot == -1 {
        LiveKeptInv(s, Zeroed(s.m, Address(b), size));
      } else {
        assert ProcOk(s, pid);
        GrantedInv(s, Grant(s, pid, size, slot).m, pid, size, b, slot);
      }
    }
  }

  /** Some account of the blocks, and some memory, fits the table and the records after a request has
      been granted in the block the scan finds. */
  ghost predicate ConsistentAfterGrant(s: State, pid: nat, size: Word, slot: nat)
    requires pid in s.procs && slot < |s.procs[pid].allocations| && |s.t| == HEAP_BLOCKS
  {
    exists m, live, owner :: Inv(GrantedAs(s, pid, size, slot, m, live, owner))
  }

  ghost function GrantedAs(s: State, pid: nat, size: Word, slot: nat, m: Memory, live: Live,
      owner: map<nat, Role>): State
    requires pid in s.procs && slot < |s.procs[pid].allocations| && |s.t| == HEAP_BLOCKS
  {
    var b, n, p := StartBlock(s.t, Blocks(size)), Blocks(size), s.procs[pid];
    var record := Allocation(FoundAddress(s.t, n), size);
    State(if 0 <= b then MarkTaken(s.t, b, n) else s.t, live, owner, m,
          s.procs[pid := p.(allocations := p.allocations[slot := record])], s.ends)
  }

  /** A granted process_malloc keeps heap, page tables and records consistent if and only if it was for
      at least one block and there was a run of that length: otherwise nothing whatever that memory and
      the account of blocks can be makes them so. */
  lemma GrantKeepsInvIff(s: State, pid: nat, size: Word)
    requires Inv(s) && pid in s.procs && 0 <= StartBlock(s.t, Blocks(size))
    requires FirstSlot(s.procs[pid].allocations, 0, 0) != -1
    ensures ConsistentAfterGrant(s, pid, size, FirstSlot(s.procs[pid].allocations, 0, 0))
            <==> 0 < Blocks(size) && HasRun(s.t, Blocks(size))
  {
    hide Represents, ProcOk, RoleOk, MarkTaken, HasRun, StartBlock;
    var slot, b, n := FirstSlot(s.procs[pid].allocations, 0, 0), StartBlock(s.t, Blocks(size)), Blocks(size);
    StartInTable(s.t, n);
    if 0 < n && HasRun(s.t, n) {
      MallocKeepsInv(s, pid, size);
      var s' := AfterMalloc(s, pid, size);
      assert s' == GrantedAs(s, pid, size, slot, s'.m, s'.live, s'.owner);
    } else if ConsistentAfterGrant(s, pid, size, slot) {
      var m, live, owner :| Inv(GrantedAs(s, pid, size, slot, m, live, owner));
      assert WellFormed(MarkTaken(s.t, b, n));
      MallocKeepsTableIff(s.t, s.live, n);
      if n == 0 {
        NothingTaken(s.t, b);
        RecordedIsTaken(GrantedAs(s, pid, size, slot, m, live, owner), pid, b, slot);
      }
    }
  }

  /** A block that a record names is taken. */
  lemma RecordedIsTaken(s: State, pid: nat, b: nat, slot: nat)
    requires Inv(s) && pid in s.procs && slot < |s.procs[pid].allocations| && b < HEAP_BLOCKS
    requires s.procs[pid].allocations[slot].ptr == Address(b)
    ensures !IsFree(s.t[b])
  {
    hide Represents;
    BlockOfAddress(b);
    assert ProcOk(s, pid) && SlotOk(s, pid, slot);
    BlockInHeap(s, b);
    RunBits(s.t, s.live, b);
  }

  lemma NothingTaken(t: seq<Entry>, b: nat)
    requires 0 <= StartBlock(t, 0) == b < |t|
    ensures MarkTaken(t, b, 0) == t && IsFree(t[b])
  {
    assert FreeRun(t, TailStart(t), |t| - TailStart(t));
  }

  /** A failed process_malloc leaves the heap table, the live map, the records and every word of a live
      page as they were. */
  lemma FailedMallocChangesNothing(s: State, pid: nat, size: Word)
    requires CanMalloc(s, pid, size) && MallocResult(s, pid, size) == 0
    ensures var s' := AfterMalloc(s, pid, size); s' == s.(m := s'.m) && LiveKept(s, s'.m)
  {
    hide Represents;
    if 0 <= StartBlock(s.t, Blocks(size)) {
      ScanGivesRun(s, pid, size);
      HeapIsBelowNarrowMask(StartBlock(s.t, Blocks(size)));
    } else {
      forall b | b in s.owner { BlockInHeap(s, b); }
      assert s.(m := s.m) == s;
    }
  }

  // ---------------------------------------------------------------- process_free

  /** The state in which record `slot`, naming heap block b, has been released. */
  ghost function Released(s: State, m: Memory, pid: nat, b: nat, slot: nat): State
    requires pid in s.procs && slot < |s.procs[pid].allocations|
  {
    var p := s.procs[pid];
    State(MarkFree(s.t, b), s.live - {b}, s.owner - {b}, m,
          s.procs[pid := p.(allocations := p.allocations[slot := Allocation(0, 0)])], s.ends)
  }

  ghost predicate InUse(s: State, pid: nat, b: nat, slot: nat) {
    pid in s.procs && slot < SLOTS == |s.procs[pid].allocations| && b in s.owner && b in s.live
    && s.owner[b] == Memory(pid, slot)
  }

  lemma ReleasedHeap(s: State, m: Memory, pid: nat, b: nat, slot: nat)
    requires HeapInv(s) && InUse(s, pid, b, slot) && |m| == |s.m|
    ensures HeapInv(Released(s, m, pid, b, slot))
    ensures forall c <- s.owner :: c != b ==> c + s.live[c] <= b || b + s.live[b] <= c
  {
    MarkFreeRepresents(s.t, s.live, b);
    forall c | c in s.owner && c != b ensures c + s.live[c] <= b || b + s.live[b] <= c {
      if c < b { LiveDisjoint(s.t, s.live, c, b); } else { LiveDisjoint(s.t, s.live, b, c); }
    }
  }

  lemma RemainingSlotOk(s: State, m: Memory, pid: nat, b: nat, slot: nat, e: nat, i: nat)
    requires HeapInv(s) && InUse(s, pid, b, slot) && HeapInv(Released(s, m, pid, b, slot))
    requires Changed(s, m, pid, b, s.live[b], 0) && e in s.procs && SpaceSeen(s, m, pid, e)
    requires i < SLOTS == |s.procs[e].allocations| && SlotOk(s, e, i)
    ensures SlotOk(Released(s, m, pid, b, slot), e, i)
  {
    if e != pid || i != slot {
      ReleasedHeap(s, m, pid, b, slot);
      SlotStillOk(s, Released(s, m, pid, b, slot), m, pid, b, s.live[b], 0, e, i);
    }
  }

  lemma ReleasedDirectory(s: State, m: Memory, pid: nat, b: nat, slot: nat, e: nat)
    requires Inv(s) && InUse(s, pid, b, slot) && Changed(s, m, pid, b, s.live[b], 0) && e in s.procs
    requires HeapInv(Released(s, m, pid, b, slot))
    ensures DirectoryOk(Released(s, m, pid, b, slot), e) && ResourcesOk(Released(s, m, pid, b, slot), e)
    ensures SpaceSeen(s, m, pid, e)
  {
    hide Represents;
    assert ProcOk(s, e);
    DirectoryStillOk(s, Released(s, m, pid, b, slot), m, pid, b, s.live[b], 0, e);
    ResourcesStillOk(s, Released(s, m, pid, b, slot), e);
  }

  lemma ReleasedProc(s: State, m: Memory, pid: nat, b: nat, slot: nat, e: nat)
    requires Inv(s) && InUse(s, pid, b, slot) && Changed(s, m, pid, b, s.live[b], 0) && e in s.procs
    requires HeapInv(Released(s, m, pid, b, slot))
    ensures ProcOk(Released(s, m, pid, b, slot), e)
  {
    hide Represents, DirectoryOk, SlotOk, SpaceSeen;
    assert ProcOk(s, e);
    ReleasedDirectory(s, m, pid, b, slot, e);
    forall i: nat | i < SLOTS ensures SlotOk(Released(s, m, pid, b, slot), e, i) {
      RemainingSlotOk(s, m, pid, b, slot, e, i);
    }
  }

  lemma ReleasedRole(s: State, m: Memory, pid: nat, b: nat, slot: nat, c: nat)
    requires Inv(s) && InUse(s, pid, b, slot) && Changed(s, m, pid, b, s.live[b], 0)
    requires HeapInv(Released(s, m, pid, b, slot))
    ensures c in Released(s, m, pid, b, slot).owner ==> RoleOk(Released(s, m, pid, b, slot), c)
  {
    hide Represents, ProcOk, Changed, MarkFree;
    if c in s.owner && c != b {
      assert RoleOk(s, b) && RoleOk(s, c);
      if s.owner[c].Table? {
        SameTablesFor(s, m, pid, b, s.live[b], 0, s.owner[c].pid);
      }
    }
  }

  lemma ReleasedInv(s: State, m: Memory, pid: nat, b: nat, slot: nat)
    requires Inv(s) && InUse(s, pid, b, slot) && Changed(s, m, pid, b, s.live[b], 0)
    ensures Inv(Released(s, m, pid, b, slot))
  {
    ReleasedHeap(s, m, pid, b, slot);
    forall e | e in s.procs { ReleasedProc(s, m, pid, b, slot, e); }
    forall c: nat { ReleasedRole(s, m, pid, b, slot, c); }
  }

  lemma SlotInUse(s: State, pid: nat, slot: nat)
    requires Inv(s) && pid in s.procs && slot < |s.procs[pid].allocations| && s.procs[pid].allocations[slot].ptr != 0
    ensures var a := s.procs[pid].allocations[slot];
      && a.ptr % 4096 == 0 && 0 <= BlockOf(a.ptr)
      && InUse(s, pid, BlockOf(a.ptr), slot)
      && s.live[BlockOf(a.ptr)] == Blocks(a.size)
      && AddressToBlock(HEAP_ADDRESS, a.ptr) == BlockOf(a.ptr) < HEAP_BLOCKS
      && BlockOf(a.ptr) + Blocks(a.size) <= HEAP_BLOCKS
  {
    assert ProcOk(s, pid) && SlotOk(s, pid, slot);
    var b := BlockOf(s.procs[pid].allocations[slot].ptr);
    BlockInHeap(s, b);
    HeapIsBelowNarrowMask(b);
  }

  /** Unmap, clear the record, free the block. */
  ghost function ReleaseSlot(s: State, pid: nat, slot: nat): (s': State)
    requires Inv(s) && pid in s.procs && slot < |s.procs[pid].allocations| && s.procs[pid].allocations[slot].ptr != 0
    ensures var a := s.procs[pid].allocations[slot];
      && 0 <= BlockOf(a.ptr)
      && InUse(s, pid, BlockOf(a.ptr), slot) && s.live[BlockOf(a.ptr)] == Blocks(a.size)
      && s' == Released(s, s'.m, pid, BlockOf(a.ptr), slot)
      && Changed(s, s'.m, pid, BlockOf(a.ptr), Blocks(a.size), 0)
  {
    SlotInUse(s, pid, slot);
    assert ProcOk(s, pid);
    var p := s.procs[pid];
    var b, n := BlockOf(p.allocations[slot].ptr), Blocks(p.allocations[slot].size);
    MapOwnPages(s, s.m, pid, b, n, 0);
    Released(s, MapPages(s.m, p.directory, HEAP_PAGE + b, HEAP_PAGE + b, n, 0), pid, b, slot)
  }

  /** process_free's effect: none for a pointer the process does not hold, or for a null pointer. */
  ghost function AfterFree(s: State, pid: nat, ptr: Word): State
    requires Inv(s) && pid in s.procs
  {
    var slot := FirstSlot(s.procs[pid].allocations, ptr, 0);
    if slot == -1 || ptr == 0 then s else ReleaseSlot(s, pid, slot)
  }

  lemma FreeKeepsInv(s: State, pid: nat, ptr: Word)
    requires Inv(s) && pid in s.procs
    ensures Inv(AfterFree(s, pid, ptr))
  {
    hide Inv, Changed, Released, ReleaseSlot, InUse;
    var slot := FirstSlot(s.procs[pid].allocations, ptr, 0);
    if slot != -1 && ptr != 0 {
      ReleasedInv(s, ReleaseSlot(s, pid, slot).m, pid, BlockOf(ptr), slot);
    }
  }

  function Cleared(allocations: seq<Allocation>, ptr: Word): (c: seq<Allocation>)
    ensures |c| == |allocations|
  {
    seq(|allocations|, i requires 0 <= i < |allocations| =>
      if allocations[i].ptr == ptr then Allocation(0, 0) else allocations[i])
  }

  /** What process_free needs of a record before it may act on it: a mappable range in a good
      directory, and a pointer that is a live block or lies outside the heap. */
  ghost predicate Freeable(s: State, pid: nat, a: Allocation)
    requires pid in s.procs
  {
    var b := AddressToBlock(HEAP_ADDRESS, a.ptr);
    && GoodRange(a.ptr, a.size)
    && GoodDirectory(s.m, s.procs[pid].directory)
    && (b in s.live || HEAP_BLOCKS <= b)
  }

  /** How process_free moves the machine once it has found record a. */
  ghost function Unrecorded(s: State, pid: nat, a: Allocation): State
    requires pid in s.procs && Freeable(s, pid, a)
  {
    var b, p, v := AddressToBlock(HEAP_ADDRESS, a.ptr), s.procs[pid], a.ptr / 4096;
    State(MarkFree(s.t, b), s.live - {b}, s.owner - {b},
          MapPages(s.m, p.directory, v, v, (AlignUp(a.ptr + a.size) - a.ptr) / 4096, 0),
          s.procs[pid := p.(allocations := Cleared(p.allocations, a.ptr))], s.ends)
  }

  /** What virtual page q of process e holds when pid's pages [b, b+n) have been unmapped. */
  ghost predicate OnlyUnmaps(s: State, m: Memory, pid: nat, b: nat, n: nat, e: nat)
    requires e in s.procs
  {
    && GoodDirectory(s.m, s.procs[e].directory)
    && GoodDirectory(m, s.procs[e].directory)
    && forall q: nat | q < PAGES ::
         Pte(m, s.procs[e].directory, q) ==
           if e == pid && HEAP_PAGE + b <= q < HEAP_PAGE + b + n then EntryOf(q, 0)
             else Pte(s.m, s.procs[e].directory, q)
  }

  lemma ChangedOnlyUnmaps(s: State, m: Memory, pid: nat, b: nat, n: nat, e: nat)
    requires Inv(s) && pid in s.procs && Changed(s, m, pid, b, n, 0) && e in s.procs
    ensures OnlyUnmaps(s, m, pid, b, n, e)
  {
    assert ProcOk(s, e);
    if e != pid {
      OtherSpaceKept(s, m, pid, e);
    }
  }

  /** No two records name the same block, so a pointer is found where it is recorded. */
  lemma FoundWhereRecorded(s: State, pid: nat, slot: nat)
    requires Inv(s) && pid in s.procs && slot < |s.procs[pid].allocations| && s.procs[pid].allocations[slot].ptr != 0
    ensures FirstSlot(s.procs[pid].allocations, s.procs[pid].allocations[slot].ptr, 0) == slot
  {
    var i := FirstSlot(s.procs[pid].allocations, s.procs[pid].allocations[slot].ptr, 0);
    SlotInUse(s, pid, slot);
    SlotInUse(s, pid, i);
  }

  lemma AllOnlyUnmap(s: State, m: Memory, pid: nat, b: nat, n: nat)
    requires Inv(s) && pid in s.procs && Changed(s, m, pid, b, n, 0)
    ensures forall e <- s.procs :: OnlyUnmaps(s, m, pid, b, n, e)
  {
    forall e | e in s.procs { ChangedOnlyUnmaps(s, m, pid, b, n, e); }
  }

  /** Freeing one allocation releases its own block, clears its own record, and unmaps its own pages:
      no other page in any address space changes. */
  lemma FreeTouchesOnlyItself(s: State, pid: nat, slot: nat)
    requires Inv(s) && pid in s.procs && slot < |s.procs[pid].allocations| && s.procs[pid].allocations[slot].ptr != 0
    ensures var s', a := AfterFree(s, pid, s.procs[pid].allocations[slot].ptr), s.procs[pid].allocations[slot];
      && 0 <= BlockOf(a.ptr)
      && s' == Released(s, s'.m, pid, BlockOf(a.ptr), slot)
      && (forall e <- s.procs :: OnlyUnmaps(s, s'.m, pid, BlockOf(a.ptr), Blocks(a.size), e))
  {
    hide Inv, Released, Changed, OnlyUnmaps;
    var a := s.procs[pid].allocations[slot];
    FoundWhereRecorded(s, pid, slot);
    var s' := ReleaseSlot(s, pid, slot);
    AllOnlyUnmap(s, s'.m, pid, BlockOf(a.ptr), Blocks(a.size));
  }

  // ---------------------------------------------------------------- process_terminate_allocations

  /** The loop over the records from `i` on. */
  ghost function FreeFrom(s: State, pid: nat, i: nat): State
    requires Inv(s) && pid in s.procs && |s.procs[pid].allocations| == SLOTS
    decreases SLOTS - i
  {
    if SLOTS <= i then s
    else
      FreeKeepsInv(s, pid, s.procs[pid].allocations[i].ptr);
      var s' := AfterFree(s, pid, s.procs[pid].allocations[i].ptr);
      assert ProcOk(s', pid);
      FreeFrom(s', pid, i + 1)
  }

  /** Blocks that records from `i` on of pid name. */
  ghost function Held(s: State, pid: nat, i: nat): set<nat> {
    set b | b in s.owner && s.owner[b].Memory? && s.owner[b].pid == pid && i <= s.owner[b].slot
  }

  function NoAllocations(): (a: seq<Allocation>)
    ensures |a| == SLOTS && forall i | 0 <= i < SLOTS :: a[i] == Allocation(0, 0)
  {
    seq(SLOTS, _ => Allocation(0, 0))
  }

  /** From s to s', pid's records from `i` on were cleared and exactly their blocks released. */
  ghost predicate OwnReleased(s: State, s': State, pid: nat, i: nat)
    requires pid in s.procs
  {
    && s'.live == s.live - Held(s, pid, i) && s'.owner == s.owner - Held(s, pid, i)
    && s'.procs == s.procs[pid := s.procs[pid].(allocations := NoAllocations())]
  }

  lemma RemoveInTwo<K, V>(m: map<K, V>, a: set<K>, b: set<K>)
    requires b <= a
    ensures m - (a - b) - b == m - a
  {
  }

  lemma ReleasedInTwo(s: State, s1: State, s2: State, pid: nat, i: nat)
    requires pid in s.procs && i < |s.procs[pid].allocations|
    requires RecordCleared(s, s1, pid, i) && OwnReleased(s1, s2, pid, i + 1)
    ensures OwnReleased(s, s2, pid, i)
  {
    RemoveInTwo(s.live, Held(s, pid, i), Held(s, pid, i + 1));
    RemoveInTwo(s.owner, Held(s, pid, i), Held(s, pid, i + 1));
  }

  lemma NothingLeft(s: State, pid: nat)
    requires Inv(s) && pid in s.procs && |s.procs[pid].allocations| == SLOTS
    requires s.procs[pid].allocations == NoAllocations()
    ensures OwnReleased(s, s, pid, SLOTS)
  {
    forall b | b in s.owner && s.owner[b].Memory? && s.owner[b].pid == pid
      ensures s.owner[b].slot < SLOTS
    {
      assert RoleOk(s, b);
    }
    assert Held(s, pid, SLOTS) == {};
    assert s.procs[pid].(allocations := NoAllocations()) == s.procs[pid];
  }

  lemma FreeFromStep(s: State, pid: nat, i: nat)
    requires Inv(s) && pid in s.procs && |s.procs[pid].allocations| == SLOTS && i < SLOTS
    ensures var s1 := AfterFree(s, pid, s.procs[pid].allocations[i].ptr);
      Inv(s1) && pid in s1.procs && |s1.procs[pid].allocations| == SLOTS
        && FreeFrom(s, pid, i) == FreeFrom(s1, pid, i + 1)
  {
    FreeKeepsInv(s, pid, s.procs[pid].allocations[i].ptr);
    assert ProcOk(AfterFree(s, pid, s.procs[pid].allocations[i].ptr), pid);
  }

  lemma FreeFromEnd(s: State, pid: nat)
    requires Inv(s) && pid in s.procs && |s.procs[pid].allocations| == SLOTS
    ensures FreeFrom(s, pid, SLOTS) == s
  {
  }

  /** Ending a process's allocations releases exactly its own blocks, and clears exactly its own records. */
  lemma {:induction false} FreeFromReleasesOwn(s: State, pid: nat, i: nat)
    requires Inv(s) && pid in s.procs && |s.procs[pid].allocations| == SLOTS && i <= SLOTS
    requires forall j | 0 <= j < i :: s.procs[pid].allocations[j] == Allocation(0, 0)
    ensures Inv(FreeFrom(s, pid, i)) && OwnReleased(s, FreeFrom(s, pid, i), pid, i)
    decreases SLOTS - i
  {
    hide Inv, AfterFree, OwnReleased, FreeFrom, Held;
    if i < SLOTS {
      var s1 := AfterFree(s, pid, s.procs[pid].allocations[i].ptr);
      OneRecordFreed(s, pid, i);
      FreeFromStep(s, pid, i);
      FreeFromReleasesOwn(s1, pid, i + 1);
      ReleasedInTwo(s, s1, FreeFrom(s1, pid, i + 1), pid, i);
    } else {
      assert s.procs[pid].allocations == NoAllocations();
      NothingLeft(s, pid);
      assert FreeFrom(s, pid, SLOTS) == s by { FreeFromEnd(s, pid); }
    }
  }

  /** The block that record i names, if any. */
  lemma HeldStep(s: State, pid: nat, i: nat)
    requires Inv(s) && pid in s.procs && |s.procs[pid].allocations| == SLOTS && i < SLOTS
    ensures var ptr := s.procs[pid].allocations[i].ptr;
      Held(s, pid, i) - Held(s, pid, i + 1) == if ptr == 0 then {} else {BlockOf(ptr)}
  {
    hide Represents, DirectoryOk, MappedForUser;
    var ptr := s.procs[pid].allocations[i].ptr;
    forall b | b in s.owner && s.owner[b] == Memory(pid, i) ensures ptr == (HEAP_PAGE + b) * 4096 {
      assert RoleOk(s, b);
    }
    if ptr != 0 {
      SlotInUse(s, pid, i);
    }
  }

  /** What freeing record i, used or not, does to live blocks, owners and records. */
  ghost predicate RecordCleared(s: State, s': State, pid: nat, i: nat)
    requires pid in s.procs && i < |s.procs[pid].allocations|
  {
    && s'.procs == s.procs[pid := s.procs[pid].(allocations := s.procs[pid].allocations[i := Allocation(0, 0)])]
    && s'.live == s.live - (Held(s, pid, i) - Held(s, pid, i + 1))
    && s'.owner == s.owner - (Held(s, pid, i) - Held(s, pid, i + 1))
    && Held(s', pid, i + 1) == Held(s, pid, i + 1)
  }

  lemma ReleasedIsCleared(s: State, m: Memory, pid: nat, b: nat, i: nat)
    requires InUse(s, pid, b, i) && Held(s, pid, i) - Held(s, pid, i + 1) == {b}
    ensures RecordCleared(s, Released(s, m, pid, b, i), pid, i)
  {
    assert Held(Released(s, m, pid, b, i), pid, i + 1) == Held(s, pid, i + 1);
  }

  lemma UnusedRecordFreed(s: State, pid: nat, i: nat)
    requires Inv(s) && pid in s.procs && |s.procs[pid].allocations| == SLOTS && i < SLOTS
    requires s.procs[pid].allocations[i].ptr == 0
    ensures RecordCleared(s, s, pid, i)
  {
    assert SlotOk(s, pid, i) by { assert ProcOk(s, pid); }
    HeldStep(s, pid, i);
    hide Inv, Held;
    var p := s.procs[pid];
    assert p.allocations[i := Allocation(0, 0)] == p.allocations;
    assert p.(allocations := p.allocations[i := Allocation(0, 0)]) == p;
    assert s.live - {} == s.live && s.owner - {} == s.owner;
  }

  lemma OneRecordFreed(s: State, pid: nat, i: nat)
    requires Inv(s) && pid in s.procs && |s.procs[pid].allocations| == SLOTS && i < SLOTS
    ensures RecordCleared(s, AfterFree(s, pid, s.procs[pid].allocations[i].ptr), pid, i)
  {
    if s.procs[pid].allocations[i].ptr != 0 {
      FoundWhereRecorded(s, pid, i);
      HeldStep(s, pid, i);
      ReleasedIsCleared(s, AfterFree(s, pid, s.procs[pid].allocations[i].ptr).m, pid,
        BlockOf(s.procs[pid].allocations[i].ptr), i);
    } else {
      UnusedRecordFreed(s, pid, i);
    }
  }

  lemma ClearedOnce(s: State, pid: nat, slot: nat)
    requires Inv(s) && pid in s.procs && slot < |s.procs[pid].allocations| && s.procs[pid].allocations[slot].ptr != 0
    ensures Cleared(s.procs[pid].allocations, s.procs[pid].allocations[slot].ptr) ==
            s.procs[pid].allocations[slot := Allocation(0, 0)]
  {
    var a := s.procs[pid].allocations;
    FoundWhereRecorded(s, pid, slot);
    forall j | 0 <= j < |a| && a[j].ptr == a[slot].ptr ensures j == slot {
      FoundWhereRecorded(s, pid, j);
    }
  }

  lemma SlotFacts(s: State, pid: nat, slot: nat)
    requires Inv(s) && pid in s.procs && slot < |s.procs[pid].allocations| && s.procs[pid].allocations[slot].ptr != 0
    ensures var a, b := s.procs[pid].allocations[slot], BlockOf(s.procs[pid].allocations[slot].ptr);
      && GoodDirectory(s.m, s.procs[pid].directory) && GoodRange(a.ptr, a.size) && a.ptr / 4096 == HEAP_PAGE + b
      && (AlignUp(a.ptr + a.size) - a.ptr) / 4096 == Blocks(a.size) && AddressToBlock(HEAP_ADDRESS, a.ptr) == b
         && b in s.live
      && Cleared(s.procs[pid].allocations, a.ptr) == s.procs[pid].allocations[slot := Allocation(0, 0)]
  {
    var a := s.procs[pid].allocations[slot];
    SlotInUse(s, pid, slot);
    assert ProcOk(s, pid);
    DirectoryIsGood(s, pid);
    ClearedOnce(s, pid, slot);
    assert a.ptr == Address(BlockOf(a.ptr)) && 0 < Blocks(a.size) by { assert SlotOk(s, pid, slot); }
    RangeOfBlock(BlockOf(a.ptr), a.size);
  }

  lemma SlotFreeable(s: State, pid: nat, slot: nat)
    requires Inv(s) && pid in s.procs && slot < |s.procs[pid].allocations| && s.procs[pid].allocations[slot].ptr != 0
    ensures var a := s.procs[pid].allocations[slot];
            Freeable(s, pid, a) && Unrecorded(s, pid, a) == ReleaseSlot(s, pid, slot)
  {
    hide Inv, Represents, MapPages, MarkFree, Cleared, AlignUp, AddressToBlock, Changed, GoodDirectory, GoodRange,
        BlockOf, Blocks;
    SlotFacts(s, pid, slot);
  }

  lemma NullIsOutside(s: State)
    requires HeapInv(s)
    ensures var b := AddressToBlock(HEAP_ADDRESS, 0);
      HEAP_BLOCKS <= b && MarkFree(s.t, b) == s.t && s.live - {b} == s.live && s.owner - {b} == s.owner
  {
    var b := AddressToBlock(HEAP_ADDRESS, 0);
    assert HEAP_BLOCKS <= b;
    if b in s.live { BlockInHeap(s, b); }
    assert s.live - {b} == s.live && s.owner - {b} == s.owner;
  }

  /** A null pointer is found in an unused record, and freeing it does nothing. */
  lemma NullIsNoRecord(s: State, pid: nat, slot: nat)
    requires Inv(s) && pid in s.procs && slot < |s.procs[pid].allocations| && s.procs[pid].allocations[slot].ptr == 0
    ensures Freeable(s, pid, s.procs[pid].allocations[slot])
    ensures Unrecorded(s, pid, s.procs[pid].allocations[slot]) == s
  {
    var a := s.procs[pid].allocations;
    assert ProcOk(s, pid);
    DirectoryIsGood(s, pid);
    NullIsOutside(s);
    forall i: nat | i < SLOTS ensures a[i].ptr == 0 ==> a[i] == Allocation(0, 0) { assert SlotOk(s, pid, i); }
    assert Cleared(a, 0) == a;
    hide Inv, Represents, MarkFree, Cleared, AddressToBlock;
    assert s.procs[pid].(allocations := a) == s.procs[pid];
  }

  /** The statements of process_free, with whatever record they find, come to the same as AfterFree. */
  lemma FreeAsCoded(s: State, pid: nat, ptr: Word)
    requires Inv(s) && pid in s.procs
    ensures var i := FirstSlot(s.procs[pid].allocations, ptr, 0);
      (i != -1 ==> Freeable(s, pid, s.procs[pid].allocations[i])) &&
      AfterFree(s, pid, ptr) == if i == -1 then s else Unrecorded(s, pid, s.procs[pid].allocations[i])
  {
    var i := FirstSlot(s.procs[pid].allocations, ptr, 0);
    hide Inv, Freeable, Unrecorded, ReleaseSlot;
    if i != -1 {
      if ptr == 0 { NullIsNoRecord(s, pid, i); } else { SlotFreeable(s, pid, i); }
    }
  }
}
