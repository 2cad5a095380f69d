/** Stores: what a process or the kernel writes into memory that is there to be written. */
module ProcessStores {
  import opened Machine
  import opened HeapTable
  import opened PageTables
  import opened KernelMemory
  import opened ProcessState
  import opened ProcessLife
  import opened TaskLinks
  import opened TaskOrder

  /** m differs from the memory of s in data only: directories and tables, the pointer in a chunk record
      and the links of tasks are as they were. */
  ghost predicate OnlyData(s: State, m: Memory) {
    |m| == |s.m| && forall b <- s.owner :: DataOf(s, m, b)
  }

  ghost predicate DataOf(s: State, m: Memory, b: nat)
    requires b in s.owner
  {
    var p := HEAP_PAGE + b;
    InMemory(s.m, p) && InMemory(m, p) &&
    match s.owner[b]
    case Directory(_) => SamePage(s.m, m, p)
    case Table(_, _) => SamePage(s.m, m, p)
    case Chunk(_) => WordAt(m, p, 0) == WordAt(s.m, p, 0)
    case Resource(pid, k) =>
      pid in s.procs && k + 2 == |s.procs[pid].resources| ==>
        WordAt(m, p, TASK_NEXT) == WordAt(s.m, p, TASK_NEXT) && WordAt(m, p, TASK_PREV) == WordAt(s.m, p, TASK_PREV)
    case Kernel => true
    case Memory(_, _) => true
  }

  lemma StoredSpace(s: State, m: Memory, e: nat)
    requires HeapInv(s) && e in s.procs && DirectoryOk(s, e) && OnlyData(s, m)
    ensures DirectoryOk(s.(m := m), e) && GoodDirectory(s.m, s.procs[e].directory)
    ensures SameTables(s.m, m, s.procs[e].directory)
    ensures forall q: nat | q < PAGES :: Pte(m, s.procs[e].directory, q) == Pte(s.m, s.procs[e].directory, q)
  {
    hide Represents;
    var d := s.procs[e].directory;
    DirectoryIsGood(s, e);
    assert DataOf(s, m, d - HEAP_PAGE) && DataOf(s, m, s.procs[e].chunk - HEAP_PAGE);
    SameDirectory(s.m, m, d);
    forall i: nat | i < ENTRIES
      ensures OwnPage(s, TablePage(m, d, i), Table(e, i)) && WordAt(m, d, i) % 4096 == RW_USER
      ensures SamePage(s.m, m, TablePage(s.m, d, i))
    {
      assert OwnPage(s, TablePage(s.m, d, i), Table(e, i)) && WordAt(s.m, d, i) % 4096 == RW_USER;
      assert DataOf(s, m, TablePage(s.m, d, i) - HEAP_PAGE);
    }
    forall q: nat | q < PAGES ensures Pte(m, d, q) == Pte(s.m, d, q) {
      assert SamePage(s.m, m, TablePage(s.m, d, q / 1024));
    }
  }

  lemma StoredProc(s: State, m: Memory, e: nat)
    requires HeapInv(s) && e in s.procs && ProcOk(s, e) && OnlyData(s, m) && HeapInv(s.(m := m))
    ensures ProcOk(s.(m := m), e)
  {
    hide Represents, DirectoryOk, OnlyData;
    StoredSpace(s, m, e);
    StoredTask(s, m, e);
    forall slot: nat | slot < SLOTS ensures SlotOk(s.(m := m), e, slot) {
      assert SlotOk(s, e, slot);
    }
  }

  lemma StoredTask(s: State, m: Memory, e: nat)
    requires HeapInv(s) && e in s.procs && ResourcesOk(s, e) && OnlyData(s, m) && HeapInv(s.(m := m))
    ensures ResourcesOk(s.(m := m), e)
    ensures HasTask(s, e) && HasTask(s.(m := m), e)
    ensures NextOf(s.(m := m), e) == NextOf(s, e) && PrevOf(s.(m := m), e) == PrevOf(s, e)
  {
    hide Represents;
    forall k: nat | k < |s.procs[e].resources| ensures ResourceOk(s.(m := m), e, k) {
      assert ResourceOk(s, e, k);
    }
    assert ResourceOk(s, e, |s.procs[e].resources| - 2);
    assert DataOf(s, m, TaskPage(s.procs[e]) - HEAP_PAGE);
  }

  /** Storing data keeps heap, page tables and records consistent. */
  lemma StoreKeepsInv(s: State, m: Memory)
    requires Inv(s) && OnlyData(s, m)
    ensures Inv(s.(m := m))
  {
    hide Represents, ProcOk, OnlyData;
    var s' := s.(m := m);
    assert HeapInv(s') by { SameSize(s, m); }
    forall e | e in s.procs ensures ProcOk(s', e) {
      StoredProc(s, m, e);
    }
    forall b | b in s.owner ensures RoleOk(s', b) {
      assert RoleOk(s, b);
      StoredRole(s, m, b);
    }
  }

  lemma SameSize(s: State, m: Memory)
    requires OnlyData(s, m)
    ensures |m| == |s.m|
  {
  }

  lemma StoredRole(s: State, m: Memory, b: nat)
    requires Inv(s) && OnlyData(s, m) && b in s.owner && RoleOk(s, b) && HeapInv(s.(m := m))
    ensures RoleOk(s.(m := m), b)
  {
    hide Represents, OnlyData, SameTables;
    if s.owner[b].Table? {
      assert ProcOk(s, s.owner[b].pid);
      StoredSpace(s, m, s.owner[b].pid);
      SameTablesAt(s.m, m, s.procs[s.owner[b].pid].directory, s.owner[b].index);
    }
  }

  lemma SameTablesAt(m: Memory, n: Memory, d: nat, i: nat)
    requires GoodDirectory(m, d) && SameTables(m, n, d) && i < ENTRIES
    ensures InMemory(n, d) && TablePage(n, d, i) == TablePage(m, d, i)
  {
  }

  /** Stores leave the task list alone. */
  lemma StoreKeepsLinks(s: State, m: Memory)
    requires Inv(s) && OnlyData(s, m)
    ensures LinksKept(s, s.(m := m))
  {
    StoreKeepsInv(s, m);
    forall e | e in s.procs
      ensures HasTask(s, e) && HasTask(s.(m := m), e)
      ensures NextOf(s.(m := m), e) == NextOf(s, e) && PrevOf(s.(m := m), e) == PrevOf(s, e)
    {
      assert ProcOk(s, e);
      StoredTask(s, m, e);
    }
  }

  /** Free pages may hold anything. */
  lemma FreePagesAreData(s: State, m: Memory)
    requires HeapInv(s) && LiveKept(s, m)
    ensures OnlyData(s, m)
  {
    forall b | b in s.owner ensures DataOf(s, m, b) {
      FirstPageSame(s, m, b);
    }
  }

  // ---------------------------------------------------------------- one word

  /** A word stored in page f of block b is in no other block. */
  lemma StoredInOne(s: State, m: Memory, b: nat, f: nat, w: nat, v: Word, c: nat)
    requires HeapInv(s) && b in s.live && c in s.owner && c in s.live && c != b
    requires HEAP_PAGE + b <= f < HEAP_PAGE + b + s.live[b]
    requires f * 1024 <= w < f * 1024 + 1024 && w < |s.m| && m == s.m[w := v]
    ensures DataOf(s, m, c) && SameBlock(s.m, m, c, s.live[c])
  {
    BlockInHeap(s, c);
    hide Represents;
    forall p: nat | HEAP_PAGE + c <= p < HEAP_PAGE + c + s.live[c] ensures SamePage(s.m, m, p) {
      if p == f {
        PageOfOne(s, b, c, p);
      }
    }
    assert SamePage(s.m, m, HEAP_PAGE + c);
    FirstWords(s.m, m, HEAP_PAGE + c);
  }

  lemma FirstWords(m: Memory, n: Memory, p: nat)
    requires SamePage(m, n, p)
    ensures WordAt(n, p, 0) == WordAt(m, p, 0)
    ensures WordAt(n, p, TASK_NEXT) == WordAt(m, p, TASK_NEXT) && WordAt(n, p, TASK_PREV) == WordAt(m, p, TASK_PREV)
  {
  }

  /** A word stored in memory that a process was given is data, and concerns nobody else. */
  lemma MemoryStore(s: State, b: nat, w: nat, v: Word, pid: nat, s': State)
    requires w < |s.m| ==> s' == s.(m := s.m[w := v])
    requires Inv(s) && b in s.owner && b in s.live && s.owner[b].Memory? && s.owner[b].pid == pid
    requires (HEAP_PAGE + b) * 1024 <= w < (HEAP_PAGE + b + s.live[b]) * 1024
    ensures w < |s.m| && OnlyData(s, s.m[w := v]) && forall e :: e != pid ==> Carried(s, s', e)
  {
    hide Represents, ProcOk, RoleOk;
    BlockInHeap(s, b);
    var m, f := s.m[w := v], w / 1024;
    forall c | c in s.owner ensures DataOf(s, m, c) && c in s.live && (c != b ==> SameBlock(s.m, m, c, s.live[c])) {
      BlockInHeap(s, c);
      if c != b {
        StoredInOne(s, m, b, f, w, v, c);
      }
    }
  }
}
