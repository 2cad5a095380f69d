/**
 The memory of all processes at once, as a value: the heap table, physical memory with every page
 table in it, and the allocation records of every process.

 `owner` says what each live heap block is for.  `Inv` is the global invariant: heap, page tables
 and records agree, in both directions.
 */
module ProcessState {
  import opened Machine
  import opened HeapTable
  import opened PageTables
  import opened KernelMemory

  const SLOTS := 1024
  const RW_USER := 7   // PAGING_IS_WRITEABLE | PAGING_IS_PRESENT | PAGING_ACCESS_FROM_ALL

  datatype Allocation = Allocation(ptr: Word, size: Word)

  /** A process: the pages of its page directory and of the chunk record that points to it, its
      allocation records, and the first pages of the other heap blocks that go when it goes (program
      image, stack, task, the process record itself). */
  datatype Proc = Proc(directory: nat, chunk: nat, allocations: seq<Allocation>, resources: seq<nat>)

  datatype Role =
    | Kernel
    | Directory(pid: nat)
    | Chunk(pid: nat)
    | Table(pid: nat, index: nat)
    | Memory(pid: nat, slot: nat)
    | Resource(pid: nat, index: nat)

  /** task_head, task_tail and current_task: the links between the tasks are in memory. */
  datatype Ends = Ends(head: Word, tail: Word, current: Word)

  datatype State =
    State(t: seq<Entry>, live: Live, owner: map<nat, Role>, m: Memory, procs: map<nat, Proc>, ends: Ends)

  // struct task, in words
  const TASK_NEXT := 14
  const TASK_PREV := 15

  /** The page of a process's task. */
  function TaskPage(p: Proc): nat
    requires 2 <= |p.resources|
  {
    p.resources[|p.resources| - 2]
  }

  /** Null, or an address at which a heap block may start. */
  predicate IsStart(w: Word) {
    w == 0 || (w % 4096 == 0 && HEAP_PAGE <= w / 4096 < HEAP_PAGE + HEAP_BLOCKS)
  }

  /** Page p is a live one-block allocation with the given role. */
  ghost predicate OwnPage(s: State, p: nat, role: Role) {
    HEAP_PAGE <= p && p - HEAP_PAGE in s.owner && p - HEAP_PAGE in s.live
    && s.owner[p - HEAP_PAGE] == role && s.live[p - HEAP_PAGE] == 1
  }

  /** Heap block at a page-aligned address; negative below the heap. */
  function BlockOf(ptr: Word): int {
    ptr / 4096 - HEAP_PAGE
  }

  lemma BlockOfAddress(b: nat)
    requires b < HEAP_BLOCKS
    ensures BlockOf(Address(b)) == b && Address(b) % 4096 == 0 && Address(b) != 0
  {
  }

  /** The arguments process_malloc and process_free pass to paging_map_to describe whole pages. */
  predicate GoodRange(ptr: Word, size: Word) {
    ptr % 4096 == 0 && ptr + size < U32 && ptr <= AlignUp(ptr + size) && AlignUp(ptr + size) % 4096 == 0
  }

  /** paging_align_address(ptr + size) ends the last block of an allocation. */
  lemma RangeOfBlock(b: nat, size: Word)
    requires 0 < Blocks(size) && b + Blocks(size) <= HEAP_BLOCKS
    ensures GoodRange(Address(b), size)
    ensures (AlignUp(Address(b) + size) - Address(b)) / 4096 == Blocks(size)
    ensures Address(b) / 4096 == HEAP_PAGE + b
  {
    BlocksIsCeiling(size);
    AlignUpIs(Address(b), size, Blocks(size));
    hide AlignUp, Blocks;
  }

  ghost predicate HeapInv(s: State) {
    && |s.t| == HEAP_BLOCKS && (HEAP_PAGE + HEAP_BLOCKS) * 1024 <= |s.m|
    && Represents(s.t, s.live) && s.owner.Keys == s.live.Keys
  }

  /** The chunk record of pid is a live block whose first word is the address of pid's directory. */
  ghost predicate ChunkOk(s: State, pid: nat)
    requires HeapInv(s) && pid in s.procs
  {
    var c := s.procs[pid].chunk;
    OwnPage(s, c, Chunk(pid)) && InMemory(s.m, c) && WordAt(s.m, c, 0) == s.procs[pid].directory * 4096
  }

  /** The directory of pid and its 1024 tables are live blocks set aside for exactly that, and the
      directory's entries grant every right. */
  ghost predicate DirectoryOk(s: State, pid: nat)
    requires HeapInv(s) && pid in s.procs
  {
    var d := s.procs[pid].directory;
    && OwnPage(s, d, Directory(pid)) && InMemory(s.m, d)
    && ChunkOk(s, pid)
    && (forall i: nat | i < ENTRIES :: OwnPage(s, TablePage(s.m, d, i), Table(pid, i)))
    && (forall i: nat | i < ENTRIES :: WordAt(s.m, d, i) % 4096 == RW_USER)
  }

  /** Every page of [b, b+n) is mapped to itself, present, writable and user, by its directory entry
      and its table entry together. */
  ghost predicate MappedForUser(m: Memory, d: nat, b: nat, n: nat) {
    GoodDirectory(m, d)
    && forall q: nat | HEAP_PAGE + b <= q < HEAP_PAGE + b + n && q < PAGES ::
         Pte(m, d, q) == EntryOf(q, RW_USER) && UserWrites(m, d, q)
  }

  /** A record in use names a live allocation of its process, of the recorded size, that the process can use. */
  ghost predicate SlotOk(s: State, pid: nat, slot: nat)
    requires HeapInv(s) && pid in s.procs && slot < |s.procs[pid].allocations|
  {
    var a := s.procs[pid].allocations[slot];
    if a.ptr == 0 then a.size == 0
    else
      var b := BlockOf(a.ptr);
      && a.ptr % 4096 == 0 && 0 <= b && b in s.owner && s.owner[b] == Memory(pid, slot)
      && 0 < Blocks(a.size) == s.live[b]
      && MappedForUser(s.m, s.procs[pid].directory, b, s.live[b])
  }

  /** What a live block is for is recorded where it should be. */
  ghost predicate RoleOk(s: State, b: nat)
    requires HeapInv(s) && b in s.owner
  {
    match s.owner[b]
    case Kernel => true
    case Directory(pid) => pid in s.procs && s.procs[pid].directory == HEAP_PAGE + b
    case Chunk(pid) => pid in s.procs && s.procs[pid].chunk == HEAP_PAGE + b
    case Table(pid, i) =>
      pid in s.procs && i < ENTRIES && InMemory(s.m, s.procs[pid].directory)
      && TablePage(s.m, s.procs[pid].directory, i) == HEAP_PAGE + b
    case Memory(pid, slot) =>
      pid in s.procs && slot < |s.procs[pid].allocations|
        && s.procs[pid].allocations[slot].ptr == (HEAP_PAGE + b) * 4096
    case Resource(pid, k) =>
      pid in s.procs && k < |s.procs[pid].resources| && s.procs[pid].resources[k] == HEAP_PAGE + b
  }

  ghost predicate ResourcesOk(s: State, pid: nat)
    requires HeapInv(s) && pid in s.procs
  {
    (forall k: nat | k < |s.procs[pid].resources| :: ResourceOk(s, pid, k)) && TaskOk(s, pid)
  }

  /** The last but one resource is the task, whose links may be out of date but are addresses of blocks. */
  ghost predicate TaskOk(s: State, pid: nat)
    requires HeapInv(s) && pid in s.procs
  {
    2 <= |s.procs[pid].resources| &&
    var p := TaskPage(s.procs[pid]);
    && HEAP_PAGE <= p < HEAP_PAGE + HEAP_BLOCKS
    && IsStart(WordAt(s.m, p, TASK_NEXT)) && IsStart(WordAt(s.m, p, TASK_PREV))
  }

  ghost predicate ResourceOk(s: State, pid: nat, k: nat)
    requires HeapInv(s) && pid in s.procs && k < |s.procs[pid].resources|
  {
    var p := s.procs[pid].resources[k];
    HEAP_PAGE <= p && p - HEAP_PAGE in s.owner && s.owner[p - HEAP_PAGE] == Resource(pid, k)
  }

  ghost predicate ProcOk(s: State, pid: nat)
    requires HeapInv(s) && pid in s.procs
  {
    && DirectoryOk(s, pid)
    && ResourcesOk(s, pid)
    && |s.procs[pid].allocations| == SLOTS
    && forall slot: nat | slot < SLOTS :: SlotOk(s, pid, slot)
  }

  ghost predicate Inv(s: State) {
    && HeapInv(s) && IsStart(s.ends.tail)
    && (forall pid <- s.procs :: ProcOk(s, pid))
    && (forall b <- s.owner :: RoleOk(s, b))
  }

  // ---------------------------------------------------------------- consequences

  lemma BlockInHeap(s: State, b: nat)
    requires HeapInv(s) && b in s.live
    ensures b < HEAP_BLOCKS && 0 < s.live[b] && b + s.live[b] <= HEAP_BLOCKS
    ensures InMemory(s.m, HEAP_PAGE + b)
  {
  }

  lemma DirectoryIsGood(s: State, pid: nat)
    requires HeapInv(s) && pid in s.procs && DirectoryOk(s, pid)
    ensures GoodDirectory(s.m, s.procs[pid].directory)
  {
    var d := s.procs[pid].directory;
    forall i: nat | i < ENTRIES ensures InMemory(s.m, TablePage(s.m, d, i)) && TablePage(s.m, d, i) != d {
      assert OwnPage(s, TablePage(s.m, d, i), Table(pid, i));
      BlockInHeap(s, TablePage(s.m, d, i) - HEAP_PAGE);
    }
    forall i: nat, j: nat | i < ENTRIES && j < ENTRIES && i != j ensures TablePage(s.m, d, i) != TablePage(s.m, d, j) {
      assert OwnPage(s, TablePage(s.m, d, i), Table(pid, i));
      assert OwnPage(s, TablePage(s.m, d, j), Table(pid, j));
    }
  }

  /** Recorded allocations of all processes are pairwise disjoint. */
  lemma AllocationsDisjoint(s: State, p: nat, i: nat, q: nat, j: nat)
    requires Inv(s) && p in s.procs && q in s.procs && i < SLOTS && j < SLOTS && (p != q || i != j)
    requires ProcOk(s, p) && ProcOk(s, q)
    requires s.procs[p].allocations[i].ptr != 0 && s.procs[q].allocations[j].ptr != 0
    ensures var a, b := s.procs[p].allocations[i], s.procs[q].allocations[j];
            a.ptr + Blocks(a.size) * 4096 <= b.ptr || b.ptr + Blocks(b.size) * 4096 <= a.ptr
  {
    var a, b := s.procs[p].allocations[i], s.procs[q].allocations[j];
    assert SlotOk(s, p, i) && SlotOk(s, q, j);
    var x, y := BlockOf(a.ptr), BlockOf(b.ptr);
    assert s.owner[x] != s.owner[y];
    if x < y { LiveDisjoint(s.t, s.live, x, y); } else { LiveDisjoint(s.t, s.live, y, x); }
  }

  /** Every page of an allocation holds the same words. */
  ghost predicate SameBlock(m: Memory, n: Memory, b: nat, len: nat) {
    forall p: nat | HEAP_PAGE + b <= p < HEAP_PAGE + b + len :: SamePage(m, n, p)
  }

  /** A memory in which every live block that is not one of pid's tables still holds the same words. */
  ghost predicate Kept(s: State, n: Memory, pid: nat) {
    |n| == |s.m|
    && forall b <- s.owner :: !(s.owner[b].Table? && s.owner[b].pid == pid) ==>
         b in s.live && SameBlock(s.m, n, b, s.live[b])
  }

  lemma FirstPageSame(s: State, n: Memory, b: nat)
    requires HeapInv(s) && b in s.live && SameBlock(s.m, n, b, s.live[b])
    ensures SamePage(s.m, n, HEAP_PAGE + b)
  {
  }

  /** Changing pid's tables leaves every other process's address space alone. */
  lemma OtherSpaceKept(s: State, n: Memory, pid: nat, e: nat)
    requires HeapInv(s) && e in s.procs && DirectoryOk(s, e) && Kept(s, n, pid) && e != pid
    ensures var d := s.procs[e].directory;
      && GoodDirectory(s.m, d) && SameTables(s.m, n, d)
      && (forall q: nat | q < PAGES :: Pte(n, d, q) == Pte(s.m, d, q))
  {
    var d := s.procs[e].directory;
    hide Represents;
    DirectoryIsGood(s, e);
    FirstPageSame(s, n, d - HEAP_PAGE);
    SameDirectory(s.m, n, d);
    forall q: nat | q < PAGES ensures Pte(n, d, q) == Pte(s.m, d, q) {
      var p := TablePage(s.m, d, q / 1024);
      assert OwnPage(s, p, Table(e, q / 1024));
      FirstPageSame(s, n, p - HEAP_PAGE);
    }
  }

  /** A page of one allocation is no page of another. */
  lemma PageOfOne(s: State, b: nat, c: nat, p: nat)
    requires HeapInv(s) && b in s.live && c in s.live
    requires HEAP_PAGE + b <= p < HEAP_PAGE + b + s.live[b] && HEAP_PAGE + c <= p < HEAP_PAGE + c + s.live[c]
    ensures b == c
  {
    if b < c {
      LiveDisjoint(s.t, s.live, b, c);
    } else if c < b {
      LiveDisjoint(s.t, s.live, c, b);
    }
  }

  lemma NotATable(s: State, pid: nat, b: nat, p: nat)
    requires HeapInv(s) && pid in s.procs && DirectoryOk(s, pid) && GoodDirectory(s.m, s.procs[pid].directory)
    requires b in s.owner && !(s.owner[b].Table? && s.owner[b].pid == pid)
    requires HEAP_PAGE + b <= p < HEAP_PAGE + b + s.live[b]
    ensures !IsTableOf(s.m, s.procs[pid].directory, p)
  {
    hide Represents;
    var d := s.procs[pid].directory;
    forall i: nat | i < ENTRIES ensures TablePage(s.m, d, i) != p {
      assert OwnPage(s, TablePage(s.m, d, i), Table(pid, i));
      if TablePage(s.m, d, i) == p {
        PageOfOne(s, b, p - HEAP_PAGE, p);
      }
    }
  }

  /** All live blocks still hold the same words. */
  ghost predicate LiveKept(s: State, n: Memory) {
    |n| == |s.m| && forall b <- s.owner :: b in s.live && SameBlock(s.m, n, b, s.live[b])
  }

  lemma SpaceKept(s: State, n: Memory, pid: nat)
    requires HeapInv(s) && pid in s.procs && DirectoryOk(s, pid) && LiveKept(s, n)
    ensures var d := s.procs[pid].directory;
      && GoodDirectory(s.m, d) && SameTables(s.m, n, d)
      && (forall q: nat | q < PAGES :: Pte(n, d, q) == Pte(s.m, d, q))
  {
    var d := s.procs[pid].directory;
    hide Represents;
    DirectoryIsGood(s, pid);
    FirstPageSame(s, n, d - HEAP_PAGE);
    SameDirectory(s.m, n, d);
    forall q: nat | q < PAGES ensures Pte(n, d, q) == Pte(s.m, d, q) {
      var p := TablePage(s.m, d, q / 1024);
      assert OwnPage(s, p, Table(pid, q / 1024));
      FirstPageSame(s, n, p - HEAP_PAGE);
    }
  }

  /** Writing pid's tables through its own directory touches no other live page. */
  lemma TablesOnlyIsKept(s: State, m: Memory, n: Memory, pid: nat)
    requires HeapInv(s) && pid in s.procs && DirectoryOk(s, pid) && LiveKept(s, m)
    requires GoodDirectory(m, s.procs[pid].directory) && OnlyTables(m, n, s.procs[pid].directory)
    ensures Kept(s, n, pid)
  {
    var d := s.procs[pid].directory;
    hide Represents;
    SpaceKept(s, m, pid);
    forall b, p: nat | b in s.owner && !(s.owner[b].Table? && s.owner[b].pid == pid)
                       && HEAP_PAGE + b <= p < HEAP_PAGE + b + s.live[b]
      ensures SamePage(s.m, n, p)
    {
      NotATable(s, pid, b, p);
      assert !IsTableOf(m, d, p);
      BlockInHeap(s, b);
      assert SamePage(s.m, m, p) && SamePage(m, n, p);
    }
  }
}
