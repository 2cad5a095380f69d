/**
 Runs in which processes end in the reverse order of their loading.  There every link is right when
 it is followed, so that such runs keep everything consistent whatever else happens in them.
 */
module OrderlyRuns {
  import opened Machine
  import opened HeapTable
  import opened PageTables
  import opened KernelMemory
  import opened AddressSpace
  import opened ProcessState
  import opened ProcessMemory
  import opened ProcessLife
  import opened ProcessBirth
  import opened TaskLinks
  import opened TaskOrder
  import opened ProcessStores
  import opened ProcessRuns

  /** The processes in the order of their loading, one call later. */
  function After(order: seq<nat>, c: Call): seq<nat> {
    match c
    case Adopt(pid, _, _, _, _) => order + [pid]
    case FreeRest(_) => if order == [] then [] else order[..|order| - 1]
    case _ => order
  }

  function Order(calls: seq<Call>): seq<nat> {
    if calls == [] then [] else After(Order(calls[..|calls| - 1]), calls[|calls| - 1])
  }

  /** Every process that ends is the one loaded last among those that are left. */
  ghost predicate Orderly(calls: seq<Call>) {
    forall k: nat | k < |calls| && calls[k].FreeRest? ::
      var before := Order(calls[..k]); before != [] && before[|before| - 1] == calls[k].pid
  }

  // ---------------------------------------------------------------- calls that leave the list alone

  lemma KeptLinks(s: State, s': State, pid: nat)
    requires Inv(s) && HeapInv(s') && Kept(s, s'.m, pid) && s'.ends == s.ends && s'.procs.Keys == s.procs.Keys
    requires forall e <- s.procs :: s'.procs[e].resources == s.procs[e].resources
    ensures LinksKept(s, s')
  {
    hide HeapInv, Kept, HasTask, NextOf, PrevOf, Inv, SameBlock;
    forall e | e in s.procs
      ensures HasTask(s, e) && HasTask(s', e)
      ensures NextOf(s', e) == NextOf(s, e) && PrevOf(s', e) == PrevOf(s, e)
    {
      KeptLink(s, s', pid, e);
    }
  }

  lemma KeptLink(s: State, s': State, pid: nat, e: nat)
    requires Inv(s) && HeapInv(s') && Kept(s, s'.m, pid) && s'.procs.Keys == s.procs.Keys
    requires e in s.procs && s'.procs[e].resources == s.procs[e].resources
    ensures HasTask(s, e) && HasTask(s', e)
    ensures NextOf(s', e) == NextOf(s, e) && PrevOf(s', e) == PrevOf(s, e)
  {
    hide HeapInv, Kept;
    KeptTask(s, s'.m, pid, e);
    hide Inv;
    LinkKept(s, s', e);
  }

  lemma KeptTask(s: State, m: Memory, pid: nat, e: nat)
    requires Inv(s) && Kept(s, m, pid) && e in s.procs
    ensures 2 <= |s.procs[e].resources| && HEAP_PAGE <= TaskPage(s.procs[e])
    ensures var b := TaskPage(s.procs[e]) - HEAP_PAGE; b in s.live && SameBlock(s.m, m, b, s.live[b])
  {
    hide HeapInv;
    TaskIsThere(s, e);
  }

  lemma CarriedLinks(s: State, s': State)
    requires Inv(s) && HeapInv(s') && s'.ends == s.ends && s'.procs == s.procs
    requires forall e <- s.procs :: Carried(s, s', e)
    ensures LinksKept(s, s')
  {
    hide HeapInv;
    forall e | e in s.procs
      ensures HasTask(s, e) && HasTask(s', e)
      ensures NextOf(s', e) == NextOf(s, e) && PrevOf(s', e) == PrevOf(s, e)
    {
      TaskIsThere(s, e);
      LinkKept(s, s', e);
    }
  }

  lemma MallocKeepsLinks(s: State, pid: nat, size: Word)
    requires CanMalloc(s, pid, size) && Inv(AfterMalloc(s, pid, size))
    ensures LinksKept(s, AfterMalloc(s, pid, size))
  {
    hide Inv, Granted, GoodDirectory, SameTables, Represents, StartBlock, HasRun;
    HeapOf(s);
    HeapOf(AfterMalloc(s, pid, size));
    var b, slot := StartBlock(s.t, Blocks(size)), FirstSlot(s.procs[pid].allocations, 0, 0);
    if b < 0 {
      SelfKept(s, pid);
    } else {
      ScanGivesRun(s, pid, size);
      if slot == -1 {
        LiveIsKept(s, Zeroed(s.m, Address(b), size), pid);
      } else {
        GrantLinks(s, Grant(s, pid, size, slot), pid, size, b, slot);
      }
    }
    KeptLinks(s, AfterMalloc(s, pid, size), pid);
  }

  lemma GrantLinks(s: State, s': State, pid: nat, size: Word, b: nat, slot: nat)
    requires HeapInv(s) && pid in s.procs && slot < |s.procs[pid].allocations| && b < HEAP_BLOCKS
    requires s' == Granted(s, s'.m, pid, size, b, slot) && Changed(s, s'.m, pid, b, Blocks(size), RW_USER)
    ensures Kept(s, s'.m, pid) && s'.ends == s.ends && s'.procs.Keys == s.procs.Keys
    ensures forall e <- s.procs :: s'.procs[e].resources == s.procs[e].resources
  {
    hide HeapInv;
  }

  lemma LiveIsKept(s: State, m: Memory, pid: nat)
    requires LiveKept(s, m)
    ensures Kept(s, m, pid)
  {
  }

  lemma SelfKept(s: State, pid: nat)
    requires HeapInv(s)
    ensures Kept(s, s.m, pid)
  {
    forall b | b in s.owner { BlockInHeap(s, b); }
  }

  lemma FreeKeepsLinks(s: State, pid: nat, ptr: Word)
    requires Inv(s) && pid in s.procs && Inv(AfterFree(s, pid, ptr))
    ensures LinksKept(s, AfterFree(s, pid, ptr))
  {
    hide Inv, Released, Changed, InUse, Kept;
    HeapOf(s);
    HeapOf(AfterFree(s, pid, ptr));
    var slot := FirstSlot(s.procs[pid].allocations, ptr, 0);
    if slot == -1 || ptr == 0 {
      SelfKept(s, pid);
    } else {
      var s' := ReleaseSlot(s, pid, slot);
      var a := s.procs[pid].allocations[slot];
      KeptOf(s, s'.m, pid, BlockOf(a.ptr), Blocks(a.size), 0);
      ReleaseLinks(s, s', pid, BlockOf(a.ptr), slot);
    }
    KeptLinks(s, AfterFree(s, pid, ptr), pid);
  }

  lemma ReleaseLinks(s: State, s': State, pid: nat, b: nat, slot: nat)
    requires pid in s.procs && slot < |s.procs[pid].allocations| && s' == Released(s, s'.m, pid, b, slot)
    ensures s'.ends == s.ends && s'.procs.Keys == s.procs.Keys
    ensures forall e <- s.procs :: s'.procs[e].resources == s.procs[e].resources
  {
  }

  lemma KernelMallocKeepsLinks(s: State, size: Word)
    requires CanAllocate(s, size)
    ensures LinksKept(s, AfterKernelMalloc(s, size))
  {
    hide Inv, Represents, Carried, StartBlock, MarkTaken;
    HeapOf(s);
    var b := StartBlock(s.t, Blocks(size));
    if 0 <= b {
      ScanFitsIff(s.t, Blocks(size));
      KernelMallocCarries(s, size, b);
    } else {
      forall e | e in s.procs { SelfCarried(s, e); }
    }
    CarriedLinks(s, AfterKernelMalloc(s, size));
  }

  lemma KernelFreeKeepsLinks(s: State, b: nat)
    requires Inv(s) && b in s.owner && s.owner[b] == Role.Kernel
    ensures LinksKept(s, AfterKernelFree(s, b))
  {
    hide Inv, Represents, Carried, MarkFree;
    HeapOf(s);
    KernelFreeCarries(s, b);
    CarriedLinks(s, AfterKernelFree(s, b));
  }

  lemma NewPagesKeepLinks(s: State, blocks: seq<nat>, m: Memory)
    requires Inv(s) && FreeEach(s.t, blocks) && OnlyBlocks(s.m, m, blocks)
    ensures LinksKept(s, AfterCreation(s, MarkEach(s.t, blocks), WithBlocks(s.live, blocks), m, blocks))
  {
    hide Inv, Represents, Carried, OnlyBlocks, IsFree, MarkEach;
    HeapOf(s);
    MarkEachRepresents(s.t, s.live, blocks);
    CreationCarries(s, MarkEach(s.t, blocks), WithBlocks(s.live, blocks), m, blocks);
    CarriedLinks(s, AfterCreation(s, MarkEach(s.t, blocks), WithBlocks(s.live, blocks), m, blocks));
  }

  lemma MapKeepsLinks(s: State, pid: nat, m: Memory)
    requires Inv(s) && pid in s.procs && GoodDirectory(s.m, s.procs[pid].directory)
    requires OnlyTables(s.m, m, s.procs[pid].directory) && Inv(s.(m := m))
    ensures LinksKept(s, s.(m := m))
  {
    InvGives(s, pid);
    HeapOf(s.(m := m));
    hide Inv, ProcOk, DirectoryOk, LiveKept, Kept, OnlyTables, GoodDirectory, HeapInv;
    TablesOnlyIsKept(s, s.m, m, pid);
    KeptLinks(s, s.(m := m), pid);
  }

  // ---------------------------------------------------------------- orderly runs

  lemma FreeRestInOrder(s: State, pid: nat, order: seq<nat>)
    requires Inv(s) && TwoWay(s, order) && CanFreeRest(s, pid) && order != [] && order[|order| - 1] == pid
    ensures DelistFits(s, pid) && TwoWay(AfterFreeRest(s, pid), order[..|order| - 1])
    ensures (forall e <- order :: HasTask(s, e)) && ClosedUp(s, AfterFreeRest(s, pid), order, |order| - 1)
  {
    hide Inv, ClosedUp, TwoWay, WithoutRest, DelistFits, Ended, PrevOf, NextOf;
    RestEnds(s, pid);
    RestLeavesMemory(s, pid);
    AnyFits(s, order, |order| - 1);
    Leaves(s, WithoutRest(s, pid), AfterFreeRest(s, pid), order, |order| - 1);
    TwoWayLeaves(s, WithoutRest(s, pid), AfterFreeRest(s, pid), pid, order);
  }

  lemma QuietCall(s: State, c: Call, s': State)
    requires Inv(s) && ProcessRuns.Step(s, c, s') && !c.Adopt? && !c.FreeRest?
    ensures Inv(s') && LinksKept(s, s')
  {
    StepKeepsInvIff(s, c, s');
    hide Inv, HeapInv, AfterMalloc, AfterFree, AfterKernelMalloc, AfterKernelFree, AfterCreation, OnlyData;
    hide GoodDirectory, FreeEach, MarkEach, LinksKept;
    match c
    case Malloc(pid, size) => MallocKeepsLinks(s, pid, size);
    case Free(pid, ptr) => FreeKeepsLinks(s, pid, ptr);
    case KernelMalloc(size) => KernelMallocKeepsLinks(s, size);
    case KernelFree(b) => KernelFreeKeepsLinks(s, b);
    case NewPages(blocks, m) => NewPagesKeepLinks(s, blocks, m);
    case Store(m) => StoreKeepsLinks(s, m);
    case MapProgram(pid, m) => MapKeepsLinks(s, pid, m);
  }

  /** One call of an orderly run: nothing is assumed of where links are written. */
  lemma OrderlyStep(s: State, c: Call, s': State, order: seq<nat>)
    requires Inv(s) && TwoWay(s, order) && ProcessRuns.Step(s, c, s')
    requires c.FreeRest? ==> order != [] && order[|order| - 1] == c.pid
    ensures Harmless(s, c) && Inv(s') && TwoWay(s', After(order, c))
  {
    hide Inv, TwoWay, EnlistFits, DelistFits, Adopted, Described, Numbering, Enlisted, Joins, HasTask;
    hide CanFreeRest, AfterFreeRest, Joined;
    StepKeepsInvIff(s, c, s');
    if c.Adopt? {
      AdoptionJoins(s, c.pid, c.p, c.perm, c.inverse, c.blocks);
      TwoWayJoins(s, Adopted(s, c.pid, c.p, c.perm, c.blocks), c.pid, order);
    } else if c.FreeRest? {
      FreeRestInOrder(s, c.pid, order);
    } else {
      QuietCall(s, c, s');
      TwoWayKept(s, s', order);
    }
  }

  lemma BootOrder(s: State)
    requires Boot(s)
    ensures TwoWay(s, [])
  {
  }

  lemma OrderStep(calls: seq<Call>, k: nat)
    requires k < |calls|
    ensures Order(calls[..k + 1]) == After(Order(calls[..k]), calls[k])
  {
    assert calls[..k + 1][..k] == calls[..k];
  }

  /** In a run whose processes end in the reverse order of their loading, with any calls between and any
      number of processes, every state is consistent, every link of the task list is right, and none is
      written where it does harm. */
  lemma {:induction false} OrderlyRunKeepsInv(r: Run, n: nat)
    requires IsRun(r) && Boot(r.states[0]) && Orderly(r.calls) && n <= |r.calls|
    ensures Inv(r.states[n]) && TwoWay(r.states[n], Order(r.calls[..n]))
    ensures n < |r.calls| ==> Harmless(r.states[n], r.calls[n])
  {
    hide Inv, Harmless, Boot, ProcessRuns.Step, TwoWay, After;
    if n == 0 {
      BootInv(r.states[0]);
      BootOrder(r.states[0]);
    } else {
      OrderlyRunKeepsInv(r, n - 1);
      assert Next(r.states[n - 1], r.calls[n - 1], r.states[n - 1 + 1]);
      OrderlyStep(r.states[n - 1], r.calls[n - 1], r.states[n], Order(r.calls[..n - 1]));
      OrderStep(r.calls, n - 1);
    }
    if n < |r.calls| {
      assert Next(r.states[n], r.calls[n], r.states[n + 1]);
      OrderlyStep(r.states[n], r.calls[n], r.states[n + 1], Order(r.calls[..n]));
    }
  }
}
