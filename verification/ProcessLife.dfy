/** How blocks and whole processes come and go without disturbing the processes that stay. */
module ProcessLife {
  import opened Machine
  import opened HeapTable
  import opened PageTables
  import opened KernelMemory
  import opened ProcessState
  import opened ProcessMemory

  predicate Of(r: Role, pid: nat) {
    !r.Kernel? && r.pid == pid
  }

  /** Everything that belongs to e is in s' what it was in s, to the last word. */
  ghost predicate Carried(s: State, s': State, e: nat) {
    forall b <- s.owner :: Of(s.owner[b], e) ==>
      b in s'.owner && b in s.live && b in s'.live && s'.owner[b] == s.owner[b] && s'.live[b] == s.live[b]
      && SameBlock(s.m, s'.m, b, s.live[b])
  }

  lemma OwnPageCarried(s: State, s': State, e: nat, p: nat, r: Role)
    requires HeapInv(s) && HeapInv(s') && Carried(s, s', e) && OwnPage(s, p, r) && Of(r, e)
    ensures OwnPage(s', p, r) && SamePage(s.m, s'.m, p)
  {
    assert HEAP_PAGE + (p - HEAP_PAGE) == p;
  }

  lemma DirectoryCarried(s: State, s': State, e: nat)
    requires HeapInv(s) && HeapInv(s') && Carried(s, s', e) && e in s.procs && e in s'.procs
             && s'.procs[e] == s.procs[e]
    requires DirectoryOk(s, e)
    ensures DirectoryOk(s', e)
    ensures GoodDirectory(s.m, s.procs[e].directory) && SameTables(s.m, s'.m, s.procs[e].directory)
    ensures forall q: nat | q < PAGES :: Pte(s'.m, s.procs[e].directory, q) == Pte(s.m, s.procs[e].directory, q)
  {
    hide Represents;
    var p := s.procs[e];
    DirectoryIsGood(s, e);
    OwnPageCarried(s, s', e, p.directory, Directory(e));
    OwnPageCarried(s, s', e, p.chunk, Chunk(e));
    assert WordAt(s.m, p.chunk, 0) == WordAt(s'.m, p.chunk, 0);
    forall i: nat | i < ENTRIES
      ensures TablePage(s'.m, p.directory, i) == TablePage(s.m, p.directory, i)
      ensures OwnPage(s', TablePage(s'.m, p.directory, i), Table(e, i))
              && SamePage(s.m, s'.m, TablePage(s.m, p.directory, i))
      ensures WordAt(s'.m, p.directory, i) % 4096 == RW_USER
    {
      assert WordAt(s.m, p.directory, i) == WordAt(s'.m, p.directory, i);
      assert WordAt(s.m, p.directory, i) % 4096 == RW_USER;
      assert OwnPage(s, TablePage(s.m, p.directory, i), Table(e, i));
      OwnPageCarried(s, s', e, TablePage(s.m, p.directory, i), Table(e, i));
    }
    DirectoryIsGood(s', e);
    forall q: nat | q < PAGES ensures Pte(s'.m, p.directory, q) == Pte(s.m, p.directory, q) {
      assert SamePage(s.m, s'.m, TablePage(s.m, p.directory, q / 1024));
    }
  }

  lemma ProcCarried(s: State, s': State, e: nat)
    requires HeapInv(s) && HeapInv(s') && Carried(s, s', e) && e in s.procs && e in s'.procs
             && s'.procs[e] == s.procs[e]
    requires ProcOk(s, e)
    ensures ProcOk(s', e)
  {
    hide Represents, DirectoryOk, ResourcesOk;
    DirectoryCarried(s, s', e);
    ResourcesStillOk(s, s', e);
    forall i: nat | i < SLOTS ensures SlotOk(s', e, i) {
      assert SlotOk(s, e, i);
    }
  }

  lemma RoleCarried(s: State, s': State, b: nat)
    requires HeapInv(s) && HeapInv(s') && b in s.owner && b in s'.owner && s'.owner[b] == s.owner[b] && RoleOk(s, b)
    requires !s.owner[b].Kernel? ==> var e := s.owner[b].pid;
      e in s.procs && e in s'.procs && s'.procs[e] == s.procs[e] && ProcOk(s, e) && Carried(s, s', e)
    ensures RoleOk(s', b)
  {
    if !s.owner[b].Kernel? {
      DirectoryCarried(s, s', s.owner[b].pid);
    }
  }

  /** The kernel may take blocks for itself, write in its own pages and free its own blocks. */
  lemma KernelStepKeepsInv(s: State, s': State)
    requires Inv(s) && HeapInv(s') && s'.procs == s.procs && IsStart(s'.ends.tail)
    requires forall e <- s.procs :: Carried(s, s', e)
    requires forall b <- s'.owner :: s'.owner[b].Kernel? || (b in s.owner && s'.owner[b] == s.owner[b])
    ensures Inv(s')
  {
    forall e | e in s.procs ensures ProcOk(s', e) {
      assert ProcOk(s, e);
      ProcCarried(s, s', e);
    }
    forall b | b in s'.owner ensures RoleOk(s', b) {
      if !s'.owner[b].Kernel? {
        assert RoleOk(s, b) && ProcOk(s, s.owner[b].pid);
        RoleCarried(s, s', b);
      }
    }
  }

  lemma RelabelledCarried(s: State, s': State, e: nat)
    requires HeapInv(s) && s'.m == s.m && s'.live == s.live
    requires forall b <- s.owner :: Of(s.owner[b], e) ==> b in s'.owner && s'.owner[b] == s.owner[b]
    ensures Carried(s, s', e)
  {
    forall b | b in s.owner { BlockInHeap(s, b); }
  }

  /** Kernel blocks handed to a new process, which is right by itself. */
  lemma AdoptKeepsInv(s: State, s': State, pid: nat)
    requires Inv(s) && HeapInv(s') && pid !in s.procs && pid in s'.procs
    requires s'.procs == s.procs[pid := s'.procs[pid]]
    requires s'.m == s.m && s'.live == s.live && s'.owner.Keys == s.owner.Keys && s'.ends == s.ends
    requires forall b <- s.owner :: s'.owner[b] == s.owner[b] || (s.owner[b].Kernel? && Of(s'.owner[b], pid))
    requires ProcOk(s', pid) && forall b <- s'.owner :: Of(s'.owner[b], pid) ==> RoleOk(s', b)
    ensures Inv(s')
  {
    hide HeapInv, ProcOk, RoleOk;
    forall e | e in s'.procs ensures ProcOk(s', e) {
      if e != pid {
        RelabelledCarried(s, s', e);
        ProcCarried(s, s', e);
      }
    }
    forall b | b in s'.owner ensures RoleOk(s', b) {
      if s'.owner[b].Kernel? {
        KernelRoleOk(s', b);
      } else if !Of(s'.owner[b], pid) {
        assert RoleOk(s, b);
        KnownProc(s, b);
        RelabelledCarried(s, s', s.owner[b].pid);
        RoleCarried(s, s', b);
      }
    }
  }

  lemma KernelRoleOk(s: State, b: nat)
    requires HeapInv(s) && b in s.owner && s.owner[b].Kernel?
    ensures RoleOk(s, b)
  {
  }

  lemma KnownProc(s: State, b: nat)
    requires Inv(s) && b in s.owner && !s.owner[b].Kernel?
    ensures s.owner[b].pid in s.procs && ProcOk(s, s.owner[b].pid) && RoleOk(s, b)
  {
    assert RoleOk(s, b);
  }

  /** All blocks of a process. */
  ghost function Belongings(s: State, pid: nat): set<nat> {
    set b | b in s.owner && Of(s.owner[b], pid)
  }

  /** The process is forgotten and its blocks are the kernel's to free. */
  ghost function Disowned(s: State, pid: nat): State {
    s.(owner := map b | b in s.owner :: if Of(s.owner[b], pid) then Kernel else s.owner[b], procs := s.procs - {pid})
  }

  lemma DisownHeap(s: State, pid: nat)
    requires HeapInv(s)
    ensures HeapInv(Disowned(s, pid))
  {
    hide Represents;
    assert Disowned(s, pid).owner.Keys == s.owner.Keys;
  }

  lemma DisownKeepsInv(s: State, pid: nat)
    requires Inv(s)
    ensures Inv(Disowned(s, pid))
  {
    hide HeapInv, ProcOk, RoleOk;
    DisownHeap(s, pid);
    var s' := Disowned(s, pid);
    forall e | e in s'.procs ensures ProcOk(s', e) {
      RelabelledCarried(s, s', e);
      ProcCarried(s, s', e);
    }
    forall b | b in s'.owner ensures RoleOk(s', b) {
      if s'.owner[b].Kernel? {
        KernelRoleOk(s', b);
      } else {
        KnownProc(s, b);
        RelabelledCarried(s, s', s.owner[b].pid);
        RoleCarried(s, s', b);
      }
    }
  }

  // ---------------------------------------------------------------- the end of a process

  /** From s to s', process pid went, and with it exactly its own blocks; what the others have is untouched. */
  ghost predicate Ended(s: State, s': State, pid: nat) {
    && s'.live == s.live - Belongings(s, pid) && s'.owner == s.owner - Belongings(s, pid)
    && s'.procs == s.procs - {pid}
    && forall e <- s'.procs :: Carried(s, s', e)
  }

  /** The blocks that process_free_process frees once the allocations are gone, in its order. */
  ghost function Footprint(s: State, pid: nat): (blocks: seq<int>)
    requires pid in s.procs && InMemory(s.m, s.procs[pid].directory) && 2 <= |s.procs[pid].resources|
    ensures |blocks| == |s.procs[pid].resources| + ENTRIES + 2
  {
    var p, r := s.procs[pid], |s.procs[pid].resources| - 2;
    seq(r, i requires 0 <= i < r => p.resources[i] - HEAP_PAGE)
    + seq(ENTRIES, i requires 0 <= i < ENTRIES => TablePage(s.m, p.directory, i) - HEAP_PAGE)
    + [p.directory - HEAP_PAGE] + [p.chunk - HEAP_PAGE]
    + [p.resources[r] - HEAP_PAGE] + [p.resources[r + 1] - HEAP_PAGE]
  }

  /** The role of the i-th block of a footprint with r resources before the tables. */
  function RoleAt(pid: nat, r: nat, i: nat): Role {
    if i < r then Resource(pid, i)
    else if i < r + ENTRIES then Table(pid, i - r)
    else if i == r + ENTRIES then Directory(pid)
    else if i == r + ENTRIES + 1 then Chunk(pid)
    else Resource(pid, i - ENTRIES - 2)
  }

  lemma FootprintRoles(s: State, pid: nat, i: nat)
    requires HeapInv(s) && pid in s.procs && ProcOk(s, pid) && 2 <= |s.procs[pid].resources| && i < |Footprint(s, pid)|
    ensures var b := Footprint(s, pid)[i];
            0 <= b < HEAP_BLOCKS && b in s.owner && b in s.live
            && s.owner[b] == RoleAt(pid, |s.procs[pid].resources| - 2, i)
  {
    var p, r := s.procs[pid], |s.procs[pid].resources| - 2;
    if i < r {
      assert ResourceOk(s, pid, i);
    } else if i < r + ENTRIES {
      assert OwnPage(s, TablePage(s.m, p.directory, i - r), Table(pid, i - r));
    } else if i >= r + ENTRIES + 2 {
      assert ResourceOk(s, pid, i - ENTRIES - 2);
    }
    BlockInHeap(s, Footprint(s, pid)[i]);
  }

  ghost predicate DistinctBlocks(blocks: seq<int>) {
    forall i, j | 0 <= i < j < |blocks| :: blocks[i] != blocks[j]
  }

  /** The footprint lists every block of the process once, and nothing else. */
  lemma FootprintIsBelongings(s: State, pid: nat)
    requires Inv(s) && pid in s.procs && 2 <= |s.procs[pid].resources| && s.procs[pid].allocations == NoAllocations()
    ensures InMemory(s.m, s.procs[pid].directory)
    ensures DistinctBlocks(Footprint(s, pid))
    ensures forall b: nat :: b in Footprint(s, pid) <==> b in Belongings(s, pid)
  {
    assert ProcOk(s, pid);
    var l, r := Footprint(s, pid), |s.procs[pid].resources| - 2;
    forall i, j | 0 <= i < j < |l| ensures l[i] != l[j] {
      FootprintRoles(s, pid, i);
      FootprintRoles(s, pid, j);
    }
    forall b: nat | b in l ensures b in Belongings(s, pid) {
      var i :| 0 <= i < |l| && l[i] == b;
      FootprintRoles(s, pid, i);
    }
    forall b: nat | b in Belongings(s, pid) ensures b in l {
      BelongingIsListed(s, pid, b);
    }
  }

  lemma BelongingIsListed(s: State, pid: nat, b: nat)
    requires Inv(s) && pid in s.procs && ProcOk(s, pid) && 2 <= |s.procs[pid].resources|
    requires s.procs[pid].allocations == NoAllocations() && b in s.owner && Of(s.owner[b], pid)
    ensures b in Footprint(s, pid)
  {
    assert RoleOk(s, b);
    var l, r := Footprint(s, pid), |s.procs[pid].resources| - 2;
    match s.owner[b]
    case Directory(_) => assert l[r + ENTRIES] == b;
    case Chunk(_) => assert l[r + ENTRIES + 1] == b;
    case Table(_, i) => assert l[r + i] == b;
    case Resource(_, k) => assert l[if k < r then k else k + ENTRIES + 2] == b;
    case Memory(_, slot) =>
  }

  // ---------------------------------------------------------------- others are untouched

  lemma ReleasedCarries(s: State, m: Memory, pid: nat, b: nat, slot: nat, e: nat)
    requires HeapInv(s) && InUse(s, pid, b, slot) && Kept(s, m, pid) && e != pid
    ensures Carried(s, Released(s, m, pid, b, slot), e)
  {
    hide Represents, SamePage, MarkFree;
  }

  lemma HeapOf(s: State)
    requires Inv(s)
    ensures HeapInv(s)
  {
  }

  lemma KeptOf(s: State, m: Memory, pid: nat, b: nat, n: nat, flags: nat)
    requires Inv(s) && pid in s.procs && flags < 4096 && Changed(s, m, pid, b, n, flags)
    ensures Kept(s, m, pid)
  {
    hide Kept, Inv;
  }

  lemma FreeCarries(s: State, pid: nat, ptr: Word, e: nat)
    requires Inv(s) && pid in s.procs && e != pid
    ensures Carried(s, AfterFree(s, pid, ptr), e)
  {
    hide Inv, HeapInv, Changed, Released, ReleaseSlot, InUse, Carried, Kept, FirstSlot;
    var slot := FirstSlot(s.procs[pid].allocations, ptr, 0);
    HeapOf(s);
    if slot != -1 && ptr != 0 {
      var s', a := ReleaseSlot(s, pid, slot), s.procs[pid].allocations[slot];
      KeptOf(s, s'.m, pid, BlockOf(a.ptr), Blocks(a.size), 0);
      ReleasedCarries(s, s'.m, pid, BlockOf(a.ptr), slot, e);
    } else {
      SelfCarried(s, e);
    }
  }

  lemma SelfCarried(s: State, e: nat)
    requires HeapInv(s)
    ensures Carried(s, s, e)
  {
    RelabelledCarried(s, s, e);
  }

  lemma CarriedTwice(s: State, s1: State, s2: State, e: nat)
    requires Carried(s, s1, e) && Carried(s1, s2, e)
    ensures Carried(s, s2, e)
  {
    forall b, p: nat | b in s.owner && Of(s.owner[b], e) && HEAP_PAGE + b <= p < HEAP_PAGE + b + s.live[b]
      ensures SamePage(s.m, s2.m, p)
    {
      assert SamePage(s.m, s1.m, p) && SamePage(s1.m, s2.m, p);
    }
  }

  lemma {:induction false} FreeFromCarries(s: State, pid: nat, i: nat, e: nat)
    requires Inv(s) && pid in s.procs && |s.procs[pid].allocations| == SLOTS && i <= SLOTS && e != pid
    ensures Carried(s, FreeFrom(s, pid, i), e)
    decreases SLOTS - i
  {
    hide AfterFree, FreeFrom, Inv, HeapInv, Carried;
    HeapOf(s);
    if i < SLOTS {
      var s1 := AfterFree(s, pid, s.procs[pid].allocations[i].ptr);
      FreeFromStep(s, pid, i);
      FreeCarries(s, pid, s.procs[pid].allocations[i].ptr, e);
      FreeFromCarries(s1, pid, i + 1, e);
      CarriedTwice(s, s1, FreeFrom(s1, pid, i + 1), e);
    } else {
      FreeFromEnd(s, pid);
      SelfCarried(s, e);
    }
  }

  /** After the allocations are gone, the rest of the process is what Footprint lists. */
  lemma BelongingsInTwo(s: State, s1: State, pid: nat)
    requires pid in s.procs && OwnReleased(s, s1, pid, 0)
    ensures Held(s, pid, 0) <= Belongings(s, pid) && Belongings(s1, pid) == Belongings(s, pid) - Held(s, pid, 0)
  {
  }

  lemma EndedInTwo(s: State, s1: State, s2: State, pid: nat)
    requires Inv(s) && pid in s.procs && |s.procs[pid].allocations| == SLOTS
    requires s1 == FreeFrom(s, pid, 0) && OwnReleased(s, s1, pid, 0) && Ended(s1, s2, pid)
    ensures Ended(s, s2, pid)
  {
    hide Belongings, Held, FreeFrom, Inv, Carried;
    BelongingsInTwo(s, s1, pid);
    RemoveInTwoSteps(s.live, Belongings(s, pid), Held(s, pid, 0));
    RemoveInTwoSteps(s.owner, Belongings(s, pid), Held(s, pid, 0));
    assert s2.procs == s.procs - {pid};
    forall e | e in s2.procs ensures Carried(s, s2, e) {
      FreeFromCarries(s, pid, 0, e);
      CarriedTwice(s, s1, s2, e);
    }
  }

  lemma RemoveInTwoSteps<K, V>(m: map<K, V>, all: set<K>, first: set<K>)
    requires first <= all
    ensures m - first - (all - first) == m - all
  {
  }

  lemma AfterwardsCarried(s: State, s': State, pid: nat, e: nat)
    requires HeapInv(s) && s'.m == s.m && e != pid
    requires s'.live == s.live - Belongings(s, pid) && s'.owner == s.owner - Belongings(s, pid)
    ensures Carried(s, s', e) && Carried(Disowned(s, pid), s', e)
  {
    forall b | b in s.owner { BlockInHeap(s, b); }
    hide Represents;
  }

  /** The heap without a process's blocks, and the kernel's notes without the process, make a good state again. */
  lemma EndKeepsInv(s: State, s': State, pid: nat)
    requires Inv(s) && pid in s.procs
    requires |s'.t| == |s.t| && Represents(s'.t, s'.live) && s'.m == s.m
    requires s'.live == s.live - Belongings(s, pid) && s'.owner == s.owner - Belongings(s, pid)
             && s'.procs == s.procs - {pid} && IsStart(s'.ends.tail)
    ensures Inv(s') && Ended(s, s', pid)
  {
    assert HeapInv(s) && HeapInv(s');
    hide HeapInv, Represents, Inv, Carried;
    DisownKeepsInv(s, pid);
    forall e | e in s'.procs ensures Carried(Disowned(s, pid), s', e) && Carried(s, s', e) {
      AfterwardsCarried(s, s', pid, e);
    }
    KernelStepKeepsInv(Disowned(s, pid), s');
  }
}
