/**
 Whole runs of the memory stack.  A run is any interleaving, over any number of processes, of
 requests, frees and terminations with the steps a process load is made of: kernel allocations,
 building an address space, handing blocks to a new process, mapping its program.  Guards speak of
 the arguments of a call and of the bytes it looks at; that the invariant holds is what is proved.
 */
module ProcessRuns {
  import opened Machine
  import opened HeapTable
  import opened PageTables
  import opened KernelMemory
  import opened AddressSpace
  import opened ProcessState
  import opened ProcessMemory
  import opened ProcessLife
  import opened ProcessBirth
  import opened TaskLinks
  import opened TaskOrder
  import opened ProcessStores
  import Paging

  datatype Call =
    | Malloc(pid: nat, size: Word)
    | Free(pid: nat, ptr: Word)
    | KernelMalloc(size: Word)
    | KernelFree(block: nat)
    | NewPages(blocks: seq<nat>, m: Memory)
    | Store(m: Memory)
    | Adopt(pid: nat, p: Proc, perm: seq<nat>, inverse: seq<nat>, blocks: seq<nat>)
    | MapProgram(pid: nat, m: Memory)
    | FreeRest(pid: nat)

  /** Call c is within its contract in state s and leads to s'. */
  ghost predicate Step(s: State, c: Call, s': State)
    requires Inv(s)
  {
    match c
    case Malloc(pid, size) => CanMalloc(s, pid, size) && s' == AfterMalloc(s, pid, size)
    case Free(pid, ptr) => pid in s.procs && s' == AfterFree(s, pid, ptr)
    case KernelMalloc(size) => CanAllocate(s, size) && s' == AfterKernelMalloc(s, size)
    case KernelFree(b) => b in s.owner && s.owner[b] == Role.Kernel && s' == AfterKernelFree(s, b)
    case NewPages(blocks, m) =>
      && FreeEach(s.t, blocks) && OnlyBlocks(s.m, m, blocks)
      && s' == AfterCreation(s, MarkEach(s.t, blocks), WithBlocks(s.live, blocks), m, blocks)
    case Store(m) => OnlyData(s, m) && s' == s.(m := m)
    case Adopt(pid, p, perm, inverse, blocks) =>
      && pid !in s.procs && Distinct(blocks) && (forall b | b in blocks :: b in s.owner && s.owner[b] == Role.Kernel)
      && Numbering(perm, inverse) && Described(s, p, perm, blocks)
      && s' == Joined(Adopted(s, pid, p, perm, blocks), pid)
    case MapProgram(pid, m) =>
      && pid in s.procs && s.procs[pid].allocations == NoAllocations() && GoodDirectory(s.m, s.procs[pid].directory)
      && OnlyTables(s.m, m, s.procs[pid].directory) && SameTables(s.m, m, s.procs[pid].directory)
      && s' == s.(m := m)
    case FreeRest(pid) => CanFreeRest(s, pid) && s' == AfterFreeRest(s, pid)
  }

  /** The new process's task is put at the end of the list. */
  ghost function Joined(s: State, pid: nat): State {
    if HasTask(s, pid) && IsStart(s.ends.tail) then Enlisted(s, pid) else s
  }

  /** The two calls that write a link write it where it does no harm. */
  ghost predicate Harmless(s: State, c: Call) {
    match c
    case Adopt(pid, p, perm, _, blocks) =>
      var s1 := Adopted(s, pid, p, perm, blocks);
      HasTask(s1, pid) && IsStart(s1.ends.tail) ==> EnlistFits(s1, pid)
    case FreeRest(pid) => CanFreeRest(s, pid) ==> DelistFits(s, pid)
    case _ => true
  }

  // ---------------------------------------------------------------- freeing what a process is made of

  /** The table after kfree of each of these blocks; one below the heap is no block of it. */
  ghost function ClearEach(t: seq<Entry>, blocks: seq<int>): (u: seq<Entry>)
    ensures |u| == |t|
    decreases |blocks|
  {
    if blocks == [] then t
    else ClearEach(if blocks[0] < 0 then t else MarkFree(t, blocks[0]), blocks[1..])
  }

  ghost predicate CanFreeRest(s: State, pid: nat) {
    && HasTask(s, pid) && IsStart(PrevOf(s, pid)) && s.procs[pid].allocations == NoAllocations()
    && InMemory(s.m, s.procs[pid].directory)
  }

  /** The blocks that the process's record and its directory lead to are freed one after the other. */
  ghost function WithoutRest(s: State, pid: nat): State
    requires CanFreeRest(s, pid)
  {
    var blocks := Footprint(s, pid);
    var gone := set b: nat | b in blocks;
    State(ClearEach(s.t, blocks), s.live - gone, s.owner - gone, s.m, s.procs - {pid}, s.ends)
  }

  /** And its task is taken out of the list on the way, by way of whatever its `prev` is. */
  ghost function AfterFreeRest(s: State, pid: nat): State
    requires CanFreeRest(s, pid)
  {
    WithoutRest(s, pid).(m := DelistedMemory(s, pid),
                         ends := DelistedEnds(s.ends, TaskOf(s, pid), NextOf(s, pid), PrevOf(s, pid)))
  }

  /** Freeing live starts one by one removes exactly them. */
  lemma {:induction false} ClearEachRepresents(t: seq<Entry>, live: Live, blocks: seq<int>)
    requires Represents(t, live) && DistinctBlocks(blocks) && forall b | b in blocks :: 0 <= b && b in live
    ensures Represents(ClearEach(t, blocks), live - set b: nat | b in blocks)
    decreases |blocks|
  {
    hide Represents, MarkFree, DistinctBlocks;
    if blocks == [] {
      assert (set b: nat | b in blocks) == {};
      assert live - (set b: nat | b in blocks) == live;
    } else {
      var b, rest := blocks[0], blocks[1..];
      RestDistinct(blocks);
      assert b in blocks;
      MarkFreeRepresents(t, live, b);
      ClearEachRepresents(MarkFree(t, b), live - {b}, rest);
      assert live - {b} - (set c: nat | c in rest) == live - set c: nat | c in blocks;
    }
  }

  lemma RestDistinct(blocks: seq<int>)
    requires DistinctBlocks(blocks) && blocks != []
    ensures DistinctBlocks(blocks[1..])
    ensures forall c :: c in blocks <==> c == blocks[0] || c in blocks[1..]
    ensures blocks[0] !in blocks[1..]
  {
    forall c | c in blocks[1..] ensures c in blocks && c != blocks[0] {
      var i :| 0 <= i < |blocks[1..]| && blocks[1..][i] == c;
      assert blocks[i + 1] == c;
    }
  }

  /** What the footprint lists is freed, and that is the end of the process and of nothing else. */
  lemma RestEnds(s: State, pid: nat)
    requires Inv(s) && CanFreeRest(s, pid)
    ensures Inv(WithoutRest(s, pid)) && Ended(s, WithoutRest(s, pid), pid)
  {
    hide Inv, HeapInv, Represents, DistinctBlocks, Ended, ClearEach, Belongings, HasTask, PrevOf;
    HasTwo(s, pid);
    var s', gone := WithoutRest(s, pid), set b: nat | b in Footprint(s, pid);
    HeapBasics(s);
    TailOf(s);
    FootprintIsBelongings(s, pid);
    FootprintIsLive(s, pid);
    assert gone == Belongings(s, pid);
    ClearEachRepresents(s.t, s.live, Footprint(s, pid));
    EndKeepsInv(s, s', pid);
  }

  lemma HasTwo(s: State, pid: nat)
    requires HasTask(s, pid)
    ensures pid in s.procs && 2 <= |s.procs[pid].resources|
  {
  }

  /** Freeing what a process is made of ends it and no other, and leaves heap and processes consistent if
      and only if taking its task out of the list is harmless. */
  lemma FreeRestKeepsInvIff(s: State, pid: nat)
    requires Inv(s) && CanFreeRest(s, pid)
    ensures Inv(AfterFreeRest(s, pid)) <==> DelistFits(s, pid)
  {
    hide Inv, WithoutRest, HasTask, PrevOf, NextOf, DelistFits, Ended;
    RestEnds(s, pid);
    RestLeavesMemory(s, pid);
    DelistKeepsInvIff(s, WithoutRest(s, pid), AfterFreeRest(s, pid), pid);
  }

  lemma RestLeavesMemory(s: State, pid: nat)
    requires CanFreeRest(s, pid)
    ensures WithoutRest(s, pid).m == s.m && WithoutRest(s, pid).ends == s.ends && pid in s.procs
  {
  }

  /** No word of another process changes, but the `next` of its task, if and only if the link is right
      already or lies in no other block of that process. */
  lemma FreeRestSparesIff(s: State, pid: nat, e: nat)
    requires Inv(s) && CanFreeRest(s, pid) && e in s.procs && e != pid
    ensures HasTask(s, e)
    ensures CarriedButNext(s, AfterFreeRest(s, pid), e) <==> DelistSpares(s, pid, e)
  {
    hide Inv, WithoutRest, PrevOf, NextOf, DelistSpares;
    RestEnds(s, pid);
    RestLeavesMemory(s, pid);
    TaskIsThere(s, e);
    DelistSparesIff(s, WithoutRest(s, pid), AfterFreeRest(s, pid), pid, e);
  }

  lemma HeapBasics(s: State)
    requires Inv(s)
    ensures HeapInv(s) && Represents(s.t, s.live) && |s.t| == HEAP_BLOCKS
  {
  }

  lemma FootprintIsLive(s: State, pid: nat)
    requires Inv(s) && CanFreeRest(s, pid)
    ensures forall b | b in Footprint(s, pid) :: 0 <= b && b in s.live
  {
    hide Footprint, RoleAt;
    assert ProcOk(s, pid);
    forall b | b in Footprint(s, pid) ensures 0 <= b && b in s.live {
      var i :| 0 <= i < |Footprint(s, pid)| && Footprint(s, pid)[i] == b;
      FootprintRoles(s, pid, i);
    }
  }

  // ---------------------------------------------------------------- steps keep the invariant

  lemma NewPagesKeepInv(s: State, blocks: seq<nat>, m: Memory)
    requires Inv(s) && FreeEach(s.t, blocks) && OnlyBlocks(s.m, m, blocks)
    ensures Inv(AfterCreation(s, MarkEach(s.t, blocks), WithBlocks(s.live, blocks), m, blocks))
  {
    hide Inv, HeapInv, Represents, OnlyBlocks, IsFree, Distinct, MarkEach;
    HeapBasics(s);
    MarkEachRepresents(s.t, s.live, blocks);
    CreationKeepsInv(s, MarkEach(s.t, blocks), WithBlocks(s.live, blocks), m, blocks);
  }

  /** A new process with its task in the list. */
  lemma AdoptionJoins(s: State, pid: nat, p: Proc, perm: seq<nat>, inverse: seq<nat>, blocks: seq<nat>)
    requires Inv(s) && pid !in s.procs
    requires Distinct(blocks) && (forall b | b in blocks :: b in s.owner && s.owner[b] == Role.Kernel)
    requires Numbering(perm, inverse) && Described(s, p, perm, blocks)
    ensures var s1 := Adopted(s, pid, p, perm, blocks);
      && Inv(s1) && HasTask(s1, pid) && IsStart(s1.ends.tail) && Joins(s, s1, pid)
      && Joined(s1, pid) == Enlisted(s1, pid) && (Inv(Enlisted(s1, pid)) <==> EnlistFits(s1, pid))
  {
    hide Inv, Numbering, Distinct, Enlisted, EnlistFits;
    var s1 := Adopted(s, pid, p, perm, blocks);
    AdoptionKeepsInv(s, pid, p, perm, inverse, blocks);
    TailOf(s1);
    TaskIsThere(s1, pid);
    EnlistKeepsInvIff(s1, pid);
  }

  /** Every call keeps heap, page tables and records consistent if and only if the link it writes, if it
      writes one, does no harm where it lands. */
  lemma StepKeepsInvIff(s: State, c: Call, s': State)
    requires Inv(s) && Step(s, c, s')
    ensures Inv(s') <==> Harmless(s, c)
  {
    hide Inv, HeapInv, ProcOk, RoleOk, AfterMalloc, AfterFree, AfterKernelMalloc, AfterKernelFree, AfterCreation;
    hide GoodDirectory, Represents, AfterFreeRest, Adopted, Described, Numbering, FreeEach, MarkEach, OnlyData;
    hide Joined, Enlisted, EnlistFits, DelistFits, HasTask, Joins, CanFreeRest;
    match c
    case Malloc(pid, size) => MallocKeepsInv(s, pid, size);
    case Free(pid, ptr) => FreeKeepsInv(s, pid, ptr);
    case KernelMalloc(size) => KernelMallocKeepsInv(s, size);
    case KernelFree(b) => KernelFreeKeepsInv(s, b);
    case NewPages(blocks, m) => NewPagesKeepInv(s, blocks, m);
    case Store(m) => StoreKeepsInv(s, m);
    case Adopt(pid, p, perm, inverse, blocks) => AdoptionJoins(s, pid, p, perm, inverse, blocks);
    case MapProgram(pid, m) => OwnMappingKeepsInv(s, m, pid);
    case FreeRest(pid) => FreeRestKeepsInvIff(s, pid);
  }

  // ---------------------------------------------------------------- runs

  /** One call.  Calls are only described where the invariant holds; runs are not required to keep it. */
  ghost predicate Next(s: State, c: Call, s': State) {
    Inv(s) ==> Step(s, c, s')
  }

  datatype Run = Run(states: seq<State>, calls: seq<Call>)

  ghost predicate IsRun(r: Run) {
    && |r.states| == |r.calls| + 1
    && forall k: nat | k < |r.calls| :: Next(r.states[k], r.calls[k], r.states[k + 1])
  }

  ghost predicate RunsFrom(r: Run, s: State, s': State) {
    IsRun(r) && r.states[0] == s && r.states[|r.calls|] == s'
  }

  ghost predicate Reaches(s: State, s': State) {
    exists r :: RunsFrom(r, s, s')
  }

  lemma ReachesNext(s: State, c: Call, s': State)
    requires Next(s, c, s')
    ensures Reaches(s, s')
  {
    hide Next;
    assert RunsFrom(Run([s, s'], [c]), s, s');
  }

  lemma ReachesSelf(s: State)
    ensures Reaches(s, s)
  {
    assert RunsFrom(Run([s], []), s, s);
  }

  lemma ReachesOn(s: State, mid: State, s': State)
    requires Reaches(s, mid) && Reaches(mid, s')
    ensures Reaches(s, s')
  {
    hide Next;
    var a :| RunsFrom(a, s, mid);
    var b :| RunsFrom(b, mid, s');
    var r := Run(a.states + b.states[1..], a.calls + b.calls);
    forall k: nat | k < |r.calls| ensures Next(r.states[k], r.calls[k], r.states[k + 1]) {
      if |a.calls| <= k {
        assert Next(b.states[k - |a.calls|], b.calls[k - |a.calls|], b.states[k - |a.calls| + 1]);
      }
    }
    assert RunsFrom(r, s, s');
  }

  /** The machine after kheap_init: every block free, no process, no task. */
  ghost predicate Boot(s: State) {
    && |s.t| == HEAP_BLOCKS && (forall i | 0 <= i < |s.t| :: s.t[i] == FREE)
    && s.live == map[] && s.owner == map[] && s.procs == map[] && (HEAP_PAGE + HEAP_BLOCKS) * 1024 <= |s.m|
    && s.ends == Ends(0, 0, 0)
  }

  lemma BootInv(s: State)
    requires Boot(s)
    ensures Inv(s)
  {
    EmptyTable(s.t);
  }

  /** The state before call k is consistent, if all calls before wrote their links where they do no harm. */
  lemma {:induction false} HarmlessSoFar(r: Run, n: nat)
    requires IsRun(r) && Boot(r.states[0]) && n <= |r.calls|
    requires forall k: nat | k < n :: Harmless(r.states[k], r.calls[k])
    ensures Inv(r.states[n])
  {
    hide Inv, Harmless, Boot, Step;
    if n == 0 {
      BootInv(r.states[0]);
    } else {
      HarmlessSoFar(r, n - 1);
      assert Next(r.states[n - 1], r.calls[n - 1], r.states[n - 1 + 1]);
      StepKeepsInvIff(r.states[n - 1], r.calls[n - 1], r.states[n]);
    }
  }

  ghost predicate HarmlessRun(r: Run)
    requires IsRun(r)
  {
    forall k: nat | k < |r.calls| :: Harmless(r.states[k], r.calls[k])
  }

  /** Every state of a run from the empty heap is consistent if and only if no call of it writes a link
      where it does harm. */
  lemma RunKeepsInvIff(r: Run)
    requires IsRun(r) && Boot(r.states[0])
    ensures (forall k: nat | k <= |r.calls| :: Inv(r.states[k])) <==> HarmlessRun(r)
  {
    hide Inv, Harmless, Boot, Step;
    if HarmlessRun(r) {
      forall k: nat | k <= |r.calls| ensures Inv(r.states[k]) {
        HarmlessSoFar(r, k);
      }
    } else if forall k: nat | k <= |r.calls| :: Inv(r.states[k]) {
      forall k: nat | k < |r.calls| ensures Harmless(r.states[k], r.calls[k]) {
        assert Inv(r.states[k]) && Inv(r.states[k + 1]) && Next(r.states[k], r.calls[k], r.states[k + 1]);
        StepKeepsInvIff(r.states[k], r.calls[k], r.states[k + 1]);
      }
    }
  }

  /** s' is reached from s by calls that write no link where it does harm. */
  ghost predicate SafelyReaches(s: State, s': State) {
    exists r :: RunsFrom(r, s, s') && HarmlessRun(r)
  }

  lemma RunKeepsInv(boot: State, s: State)
    requires Boot(boot) && SafelyReaches(boot, s)
    ensures Inv(s)
  {
    hide Inv, Boot, Harmless;
    var r :| RunsFrom(r, boot, s) && HarmlessRun(r);
    HarmlessSoFar(r, |r.calls|);
  }

  /** In every state of every harmless run: recorded allocations of all processes are live blocks of the recorded
      size, mapped to themselves present, writable and user for their owner, and pairwise disjoint. */
  lemma RunIsConsistent(boot: State, s: State, p: nat, i: nat, q: nat, j: nat)
    requires Boot(boot) && SafelyReaches(boot, s)
    requires p in s.procs && i < |s.procs[p].allocations|
    requires q in s.procs && j < |s.procs[q].allocations|
    requires s.procs[p].allocations[i].ptr != 0 && s.procs[q].allocations[j].ptr != 0
    ensures var a, b := s.procs[p].allocations[i], s.procs[q].allocations[j];
      && 0 <= BlockOf(a.ptr) && BlockOf(a.ptr) in s.live && s.live[BlockOf(a.ptr)] == Blocks(a.size)
      && MappedForUser(s.m, s.procs[p].directory, BlockOf(a.ptr), Blocks(a.size))
      && ((p, i) != (q, j) ==> a.ptr + Blocks(a.size) * 4096 <= b.ptr || b.ptr + Blocks(b.size) * 4096 <= a.ptr)
  {
    hide SafelyReaches, Boot;
    RunKeepsInv(boot, s);
    assert ProcOk(s, p) && ProcOk(s, q) && SlotOk(s, p, i);
    if (p, i) != (q, j) {
      AllocationsDisjoint(s, p, i, q, j);
    }
  }

  /** In every state of every harmless run, paging_get finds what the processor finds, for every page of every
      process: all tables lie in the heap, below 2^28. */
  lemma GetSeesEveryPage(boot: State, s: State, pid: nat, q: nat)
    requires Boot(boot) && SafelyReaches(boot, s) && pid in s.procs && q < PAGES
    ensures GoodDirectory(s.m, s.procs[pid].directory)
    ensures Paging.NarrowPte(s.m, s.procs[pid].directory, q) == Pte(s.m, s.procs[pid].directory, q)
  {
    hide SafelyReaches, Boot, Pte;
    RunKeepsInv(boot, s);
    var d := s.procs[pid].directory;
    assert ProcOk(s, pid);
    DirectoryIsGood(s, pid);
    assert OwnPage(s, TablePage(s.m, d, q / 1024), Table(pid, q / 1024));
    BlockInHeap(s, TablePage(s.m, d, q / 1024) - HEAP_PAGE);
    Paging.GetReadsSet(s.m, d, q, 0);
  }

  // ---------------------------------------------------------------- single calls as runs

  lemma MallocReaches(s: State, pid: nat, size: Word)
    requires CanMalloc(s, pid, size)
    ensures Reaches(s, AfterMalloc(s, pid, size))
  {
    hide Inv, AfterMalloc, Reaches;
    ReachesNext(s, Call.Malloc(pid, size), AfterMalloc(s, pid, size));
  }

  lemma FreeReaches(s: State, pid: nat, ptr: Word)
    requires Inv(s) && pid in s.procs
    ensures Reaches(s, AfterFree(s, pid, ptr))
  {
    hide Inv, AfterFree, Reaches;
    ReachesNext(s, Call.Free(pid, ptr), AfterFree(s, pid, ptr));
  }

  lemma KernelMallocReaches(s: State, size: Word)
    requires CanAllocate(s, size)
    ensures Reaches(s, AfterKernelMalloc(s, size))
  {
    hide Inv, AfterKernelMalloc, Reaches;
    ReachesNext(s, Call.KernelMalloc(size), AfterKernelMalloc(s, size));
  }

  lemma KernelFreeReaches(s: State, b: nat)
    requires Inv(s) && b in s.owner && s.owner[b] == Role.Kernel
    ensures Reaches(s, AfterKernelFree(s, b))
  {
    hide Inv, AfterKernelFree, Reaches;
    ReachesNext(s, Call.KernelFree(b), AfterKernelFree(s, b));
  }

  /** What paging_new_4gb did to the heap and to memory is such a step. */
  lemma CreationReaches(s: State, t: seq<Entry>, live: Live, m: Memory, new_: seq<nat>)
    requires Inv(s) && Represents(t, live) && |t| == HEAP_BLOCKS
    requires FreshBlocks(s.live, new_) && live == WithBlocks(s.live, new_) && OnlyBlocks(s.m, m, new_)
    ensures Reaches(s, AfterCreation(s, t, live, m, new_))
  {
    hide Inv, HeapInv, Represents, OnlyBlocks, AfterCreation, Reaches, FreshBlocks, FreeEach, MarkEach;
    HeapBasics(s);
    MarkedTable(s.t, s.live, t, new_);
    ReachesNext(s, Call.NewPages(new_, m), AfterCreation(s, t, live, m, new_));
  }

  lemma StoreReaches(s: State, m: Memory)
    requires Inv(s) && OnlyData(s, m)
    ensures Reaches(s, s.(m := m))
  {
    hide Inv, OnlyData, Reaches;
    ReachesNext(s, Call.Store(m), s.(m := m));
  }

  lemma AdoptReaches(s: State, pid: nat, p: Proc, perm: seq<nat>, inverse: seq<nat>, blocks: seq<nat>)
    requires Inv(s) && pid !in s.procs
    requires Distinct(blocks) && (forall b | b in blocks :: b in s.owner && s.owner[b] == Role.Kernel)
    requires Numbering(perm, inverse) && Described(s, p, perm, blocks)
    ensures Reaches(s, Joined(Adopted(s, pid, p, perm, blocks), pid))
  {
    hide Inv, Adopted, Described, Numbering, Distinct, Reaches, Joined;
    ReachesNext(s, Call.Adopt(pid, p, perm, inverse, blocks), Joined(Adopted(s, pid, p, perm, blocks), pid));
  }

  lemma MapReaches(s: State, pid: nat, m: Memory)
    requires Inv(s) && pid in s.procs && s.procs[pid].allocations == NoAllocations()
    requires GoodDirectory(s.m, s.procs[pid].directory) && OnlyTables(s.m, m, s.procs[pid].directory)
    requires SameTables(s.m, m, s.procs[pid].directory)
    ensures Reaches(s, s.(m := m))
  {
    hide Inv, GoodDirectory, OnlyTables, SameTables, Reaches;
    ReachesNext(s, Call.MapProgram(pid, m), s.(m := m));
  }

  /** A heap without the process's blocks is what freeing them one by one leaves. */
  lemma RestIs(s: State, s1: State, pid: nat)
    requires Inv(s) && CanFreeRest(s, pid)
    requires |s1.t| == |s.t| && Represents(s1.t, s1.live) && s1.m == s.m && s1.ends == s.ends
    requires s1.procs == s.procs - {pid}
    requires s1.live == s.live - Belongings(s, pid) && s1.owner == s.owner - Belongings(s, pid)
    ensures s1 == WithoutRest(s, pid)
  {
    hide Inv, HeapInv, Represents, DistinctBlocks, ClearEach, Belongings, HasTask, PrevOf;
    HasTwo(s, pid);
    HeapBasics(s);
    FootprintIsBelongings(s, pid);
    FootprintIsLive(s, pid);
    assert (set b: nat | b in Footprint(s, pid)) == Belongings(s, pid);
    ClearEachRepresents(s.t, s.live, Footprint(s, pid));
    TableUnique(s1.t, ClearEach(s.t, Footprint(s, pid)), s1.live);
  }

  lemma FreeRestReaches(s: State, pid: nat)
    requires Inv(s) && CanFreeRest(s, pid)
    ensures Reaches(s, AfterFreeRest(s, pid))
  {
    hide Inv, AfterFreeRest, CanFreeRest, Reaches;
    ReachesNext(s, Call.FreeRest(pid), AfterFreeRest(s, pid));
  }
}
