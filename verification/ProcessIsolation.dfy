/**
 What a process can write.  A page that user code may write is confined when it lies in the process's
 own image, in its stack at the stack's place, or in memory it was given at that memory's own address.
 */
module ProcessIsolation {
  import opened Machine
  import opened HeapTable
  import opened PageTables
  import opened KernelMemory
  import opened ProcessState
  import opened AddressSpace
  import opened ProcessMemory
  import opened ProcessLife
  import opened ProcessBirth
  import opened TaskLinks
  import opened ProcessStores
  import opened ProcessRuns
  import opened ProcessLoad

  const STACK_PAGE := 0x3FB
  const STACK_PAGES := 4

  /** A block with role r is there for process pid to write, seen at virtual page q as page f. */
  predicate IsFor(r: Role, p: Proc, pid: nat, q: nat, f: nat) {
    match r
    case Memory(owner, _) => owner == pid && q == f
    case Resource(owner, k) =>
      owner == pid && k + 2 < |p.resources|
      && (k == 0 || (k + 3 == |p.resources| && STACK_PAGE <= q < STACK_PAGE + STACK_PAGES))
    case _ => false
  }

  ghost predicate FramesIn(s: State, pid: nat, q: nat, f: nat, b: nat)
    requires pid in s.procs
  {
    b in s.owner && b in s.live && HEAP_PAGE + b <= f < HEAP_PAGE + b + s.live[b]
    && IsFor(s.owner[b], s.procs[pid], pid, q, f)
  }

  ghost predicate OwnFrame(s: State, pid: nat, q: nat, f: nat)
    requires pid in s.procs
  {
    exists b :: FramesIn(s, pid, q, f, b)
  }

  /** Every page that the process may write is one of its own, where it belongs. */
  ghost predicate Confined(s: State, pid: nat)
    requires pid in s.procs
  {
    var d := s.procs[pid].directory;
    && GoodDirectory(s.m, d)
    && forall q: nat | q < PAGES && UserWrites(s.m, d, q) :: OwnFrame(s, pid, q, Frame(Pte(s.m, d, q)))
  }

  ghost predicate Isolated(s: State) {
    forall pid <- s.procs :: Confined(s, pid)
  }

  // ---------------------------------------------------------------- what keeps a process confined

  /** The same rights to the same pages, in blocks that are still there for them. */
  lemma StillConfined(s: State, s': State, e: nat)
    requires e in s.procs && e in s'.procs && Confined(s, e)
    requires s'.procs[e].directory == s.procs[e].directory && |s'.procs[e].resources| == |s.procs[e].resources|
    requires var d := s.procs[e].directory;
      && GoodDirectory(s'.m, d)
      && forall q: nat | q < PAGES && UserWrites(s'.m, d, q) ::
           UserWrites(s.m, d, q) && Frame(Pte(s'.m, d, q)) == Frame(Pte(s.m, d, q))
    requires forall b <- s.owner :: IsOfProcess(s.owner[b], e) ==>
               b in s'.owner && b in s'.live && b in s.live && s'.owner[b] == s.owner[b] && s'.live[b] == s.live[b]
    ensures Confined(s', e)
  {
    hide GoodDirectory;
    var d := s.procs[e].directory;
    forall q: nat | q < PAGES && UserWrites(s'.m, d, q) ensures OwnFrame(s', e, q, Frame(Pte(s'.m, d, q))) {
      var b :| FramesIn(s, e, q, Frame(Pte(s.m, d, q)), b);
      assert FramesIn(s', e, q, Frame(Pte(s'.m, d, q)), b);
    }
  }

  predicate IsOfProcess(r: Role, pid: nat) {
    (r.Memory? && r.pid == pid) || (r.Resource? && r.pid == pid)
  }

  lemma CarriedConfined(s: State, s': State, e: nat)
    requires HeapInv(s) && HeapInv(s') && Carried(s, s', e) && e in s.procs && e in s'.procs
             && s'.procs[e] == s.procs[e]
    requires DirectoryOk(s, e) && Confined(s, e)
    ensures Confined(s', e)
  {
    hide Represents, DirectoryOk, Confined;
    DirectoryCarried(s, s', e);
    BlocksCarried(s, s', e);
    SameRights(s.m, s'.m, s.procs[e].directory);
    StillConfined(s, s', e);
  }

  lemma BlocksCarried(s: State, s': State, e: nat)
    requires Carried(s, s', e)
    ensures forall b <- s.owner :: IsOfProcess(s.owner[b], e) ==>
              b in s'.owner && b in s'.live && b in s.live && s'.owner[b] == s.owner[b] && s'.live[b] == s.live[b]
  {
  }

  lemma SameRights(m: Memory, n: Memory, d: nat)
    requires GoodDirectory(m, d) && SameTables(m, n, d)
    requires forall q: nat | q < PAGES :: Pte(n, d, q) == Pte(m, d, q)
    ensures forall q: nat | q < PAGES :: UserWrites(n, d, q) == UserWrites(m, d, q)
  {
    hide Pte;
    forall q: nat | q < PAGES ensures Pde(n, d, q) == Pde(m, d, q) {
      assert WordAt(n, d, q / 1024) == WordAt(m, d, q / 1024);
    }
  }

  // ---------------------------------------------------------------- links

  /** A word that is an address of a block grants no right to write. */
  lemma StartIsNoRight(v: Word)
    requires IsStart(v)
    ensures !ForUserToWrite(v)
  {
  }

  /** A link that lands in a directory or a table can only take rights away. */
  lemma LinkTakesRights(m: Memory, n: Memory, d: nat, a: Word, v: Word, q: nat)
    requires GoodDirectory(m, d) && GoodDirectory(n, d) && IsStart(v) && q < PAGES
    requires PageMoves(m, n, a, v, d) && (forall i: nat | i < ENTRIES :: PageMoves(m, n, a, v, TablePage(m, d, i)))
    requires UserWrites(n, d, q)
    ensures UserWrites(m, d, q) && Pte(n, d, q) == Pte(m, d, q)
  {
    StartIsNoRight(v);
    hide GoodDirectory;
    assert !IsLink(a, d, q / 1024);
    assert TablePage(n, d, q / 1024) == TablePage(m, d, q / 1024);
    assert PageMoves(m, n, a, v, TablePage(m, d, q / 1024)) && !IsLink(a, TablePage(m, d, q / 1024), q % 1024);
  }

  lemma MovedConfined(s: State, s': State, a: Word, v: Word, e: nat)
    requires HeapInv(s) && HeapInv(s') && LinkMoves(s, s', a, v, e) && IsStart(v)
    requires e in s.procs && e in s'.procs && s'.procs[e] == s.procs[e]
    requires DirectoryOk(s, e) && DirectoryOk(s', e) && Confined(s, e)
    ensures Confined(s', e)
  {
    var d := s.procs[e].directory;
    DirectoryIsGood(s', e);
    assert PageMoves(s.m, s'.m, a, v, d);
    forall i: nat | i < ENTRIES ensures PageMoves(s.m, s'.m, a, v, TablePage(s.m, d, i)) {
      assert OwnPage(s, TablePage(s.m, d, i), Table(e, i));
    }
    MovedBlocks(s, s', a, v, e);
    hide Represents, GoodDirectory, DirectoryOk, LinkMoves, PageMoves;
    forall q: nat | q < PAGES && UserWrites(s'.m, d, q)
      ensures UserWrites(s.m, d, q) && Frame(Pte(s'.m, d, q)) == Frame(Pte(s.m, d, q))
    {
      LinkTakesRights(s.m, s'.m, d, a, v, q);
    }
    StillConfined(s, s', e);
  }

  lemma MovedBlocks(s: State, s': State, a: Word, v: Word, e: nat)
    requires LinkMoves(s, s', a, v, e)
    ensures forall b <- s.owner :: IsOfProcess(s.owner[b], e) ==>
              b in s'.owner && b in s'.live && b in s.live && s'.owner[b] == s.owner[b] && s'.live[b] == s.live[b]
  {
  }

  // ---------------------------------------------------------------- process_malloc and process_free

  lemma GrantedCarries(s: State, m: Memory, pid: nat, size: Word, b: nat, slot: nat, e: nat)
    requires HeapInv(s) && pid in s.procs && slot < |s.procs[pid].allocations| && b < HEAP_BLOCKS && b !in s.owner
    requires Kept(s, m, pid) && e != pid
    ensures Carried(s, Granted(s, m, pid, size, b, slot), e)
  {
    hide Represents, SamePage, MarkTaken;
  }

  /** The new memory may be written at its own address, and nothing else may be written that could not be. */
  lemma GrantedConfined(s: State, m: Memory, pid: nat, size: Word, b: nat, slot: nat)
    requires HeapInv(s) && pid in s.procs && slot < |s.procs[pid].allocations| && b < HEAP_BLOCKS && b !in s.owner
    requires Changed(s, m, pid, b, Blocks(size), RW_USER) && Confined(s, pid)
    ensures Confined(Granted(s, m, pid, size, b, slot), pid)
  {
    hide Represents, MarkTaken, Kept;
    var s', d := Granted(s, m, pid, size, b, slot), s.procs[pid].directory;
    forall q: nat | q < PAGES && UserWrites(m, d, q) ensures OwnFrame(s', pid, q, Frame(Pte(m, d, q))) {
      if HEAP_PAGE + b <= q < HEAP_PAGE + b + Blocks(size) {
        assert Frame(EntryOf(q, RW_USER)) == q;
        assert FramesIn(s', pid, q, q, b);
      } else {
        assert Pde(m, d, q) == Pde(s.m, d, q) by { assert WordAt(m, d, q / 1024) == WordAt(s.m, d, q / 1024); }
        var c :| FramesIn(s, pid, q, Frame(Pte(s.m, d, q)), c);
        assert FramesIn(s', pid, q, Frame(Pte(m, d, q)), c);
      }
    }
  }

  /** Memory that was given back may not be written any more. */
  lemma ReleasedConfined(s: State, m: Memory, pid: nat, b: nat, slot: nat)
    requires HeapInv(s) && InUse(s, pid, b, slot) && Changed(s, m, pid, b, s.live[b], 0) && Confined(s, pid)
    ensures Confined(Released(s, m, pid, b, slot), pid)
  {
    hide Represents, MarkFree, Kept;
    var s', d := Released(s, m, pid, b, slot), s.procs[pid].directory;
    forall q: nat | q < PAGES && UserWrites(m, d, q) ensures OwnFrame(s', pid, q, Frame(Pte(m, d, q))) {
      assert Pde(m, d, q) == Pde(s.m, d, q) by { assert WordAt(m, d, q / 1024) == WordAt(s.m, d, q / 1024); }
      assert !(HEAP_PAGE + b <= q < HEAP_PAGE + b + s.live[b]) by { NoRights(q); }
      var c :| FramesIn(s, pid, q, Frame(Pte(s.m, d, q)), c);
      assert FramesIn(s', pid, q, Frame(Pte(m, d, q)), c);
    }
  }

  lemma NoRights(q: nat)
    requires q < PAGES
    ensures !ForUserToWrite(EntryOf(q, 0))
  {
  }

  lemma MallocIsolates(s: State, pid: nat, size: Word)
    requires CanMalloc(s, pid, size) && Inv(AfterMalloc(s, pid, size)) && Isolated(s)
    ensures Isolated(AfterMalloc(s, pid, size))
  {
    hide Inv, Changed, Confined, StartBlock, Represents, LiveKept, HasRun;
    var s' := AfterMalloc(s, pid, size);
    var b, slot := StartBlock(s.t, Blocks(size)), FirstSlot(s.procs[pid].allocations, 0, 0);
    HeapOf(s);
    HeapOf(s');
    if b < 0 {
      assert s' == s;
    } else {
      ScanGivesRun(s, pid, size);
      if slot == -1 {
        LiveKeptIsolates(s, s'.m);
      } else {
        GrantIsolates(s, s', pid, size, b, slot);
      }
    }
  }

  lemma LiveKeptIsolates(s: State, m: Memory)
    requires Inv(s) && HeapInv(s.(m := m)) && LiveKept(s, m) && Isolated(s)
    ensures Isolated(s.(m := m))
  {
    hide HeapInv, Confined, LiveKept, Carried;
    forall e | e in s.procs ensures Confined(s.(m := m), e) {
      assert ProcOk(s, e);
      LiveKeptCarries(s, m, e);
      CarriedConfined(s, s.(m := m), e);
    }
  }

  lemma GrantIsolates(s: State, s': State, pid: nat, size: Word, b: nat, slot: nat)
    requires Inv(s) && HeapInv(s') && Isolated(s) && pid in s.procs && slot < |s.procs[pid].allocations|
    requires b < HEAP_BLOCKS && 0 < Blocks(size) && FreeRun(s.t, b, Blocks(size))
    requires s' == Granted(s, s'.m, pid, size, b, slot) && Changed(s, s'.m, pid, b, Blocks(size), RW_USER)
    ensures Isolated(s')
  {
    hide HeapInv, Confined, Carried, Kept, Changed;
    HeapOf(s);
    KeptOf(s, s'.m, pid, b, Blocks(size), RW_USER);
    NotYetTaken(s, b, size);
    forall e | e in s'.procs ensures Confined(s', e) {
      assert ProcOk(s, e) && Confined(s, e);
      if e == pid {
        GrantedConfined(s, s'.m, pid, size, b, slot);
      } else {
        GrantedCarries(s, s'.m, pid, size, b, slot, e);
        CarriedConfined(s, s', e);
      }
    }
  }

  lemma NotYetTaken(s: State, b: nat, size: Word)
    requires HeapInv(s) && 0 < Blocks(size) && FreeRun(s.t, b, Blocks(size))
    ensures b !in s.owner
  {
    MarkTakenRepresents(s.t, s.live, b, Blocks(size));
  }

  lemma FreeIsolates(s: State, pid: nat, ptr: Word)
    requires Inv(s) && pid in s.procs && Inv(AfterFree(s, pid, ptr)) && Isolated(s)
    ensures Isolated(AfterFree(s, pid, ptr))
  {
    hide HeapInv, Confined, Carried, Changed, Released, InUse, ReleaseSlot, FirstSlot;
    var s', slot := AfterFree(s, pid, ptr), FirstSlot(s.procs[pid].allocations, ptr, 0);
    HeapOf(s);
    HeapOf(s');
    if slot != -1 && ptr != 0 {
      FreedProcs(s, s', pid, ptr);
      forall e | e in s'.procs ensures Confined(s', e) {
        assert ProcOk(s, e) && Confined(s, e);
        if e == pid {
          SlotInUse(s, pid, slot);
          ReleasedConfined(s, s'.m, pid, BlockOf(ptr), slot);
        } else {
          FreeCarries(s, pid, ptr, e);
          CarriedConfined(s, s', e);
        }
      }
    }
  }

  lemma FreedProcs(s: State, s': State, pid: nat, ptr: Word)
    requires Inv(s) && pid in s.procs && s' == AfterFree(s, pid, ptr)
    ensures s'.procs.Keys == s.procs.Keys && forall e <- s.procs :: e != pid ==> s'.procs[e] == s.procs[e]
  {
    hide Inv, Changed, InUse;
  }

  // ---------------------------------------------------------------- the other calls

  lemma CarriedIsolates(s: State, s': State)
    requires Inv(s) && Inv(s') && Isolated(s) && s'.procs == s.procs && forall e <- s.procs :: Carried(s, s', e)
    ensures Isolated(s')
  {
    hide HeapInv, Confined, Carried;
    forall e | e in s'.procs ensures Confined(s', e) {
      assert ProcOk(s, e) && Confined(s, e);
      CarriedConfined(s, s', e);
    }
  }

  lemma KernelMallocIsolates(s: State, size: Word)
    requires CanAllocate(s, size) && Inv(AfterKernelMalloc(s, size)) && Isolated(s)
    ensures Isolated(AfterKernelMalloc(s, size))
  {
    hide Inv, Represents, Carried, StartBlock, MarkTaken, Isolated;
    HeapOf(s);
    var b := StartBlock(s.t, Blocks(size));
    if 0 <= b {
      ScanFitsIff(s.t, Blocks(size));
      KernelMallocCarries(s, size, b);
    } else {
      forall e | e in s.procs { SelfCarried(s, e); }
    }
    CarriedIsolates(s, AfterKernelMalloc(s, size));
  }

  lemma KernelFreeIsolates(s: State, b: nat)
    requires Inv(s) && b in s.owner && s.owner[b] == Role.Kernel && Inv(AfterKernelFree(s, b)) && Isolated(s)
    ensures Isolated(AfterKernelFree(s, b))
  {
    hide Inv, Represents, Carried, MarkFree, Isolated;
    HeapOf(s);
    KernelFreeCarries(s, b);
    CarriedIsolates(s, AfterKernelFree(s, b));
  }

  lemma NewPagesIsolate(s: State, blocks: seq<nat>, m: Memory)
    requires Inv(s) && FreeEach(s.t, blocks) && OnlyBlocks(s.m, m, blocks) && Isolated(s)
    requires Inv(AfterCreation(s, MarkEach(s.t, blocks), WithBlocks(s.live, blocks), m, blocks))
    ensures Isolated(AfterCreation(s, MarkEach(s.t, blocks), WithBlocks(s.live, blocks), m, blocks))
  {
    hide Inv, Represents, Carried, OnlyBlocks, IsFree, MarkEach, Isolated;
    HeapOf(s);
    MarkEachRepresents(s.t, s.live, blocks);
    CreationCarries(s, MarkEach(s.t, blocks), WithBlocks(s.live, blocks), m, blocks);
    CarriedIsolates(s, AfterCreation(s, MarkEach(s.t, blocks), WithBlocks(s.live, blocks), m, blocks));
  }

  lemma StoreIsolates(s: State, m: Memory)
    requires Inv(s) && OnlyData(s, m) && Isolated(s)
    ensures Isolated(s.(m := m))
  {
    hide HeapInv, Confined, OnlyData;
    forall e | e in s.procs ensures Confined(s.(m := m), e) {
      assert ProcOk(s, e) && Confined(s, e);
      StoredConfined(s, m, e);
    }
  }

  lemma StoredConfined(s: State, m: Memory, e: nat)
    requires Inv(s) && OnlyData(s, m) && e in s.procs && DirectoryOk(s, e) && Confined(s, e)
    ensures Confined(s.(m := m), e)
  {
    hide Represents, Confined, OnlyData, DirectoryOk;
    StoredSpace(s, m, e);
    SameRights(s.m, m, s.procs[e].directory);
    OwnedIsLive(s);
    StillConfined(s, s.(m := m), e);
  }

  lemma OwnedIsLive(s: State)
    requires HeapInv(s)
    ensures forall b <- s.owner :: b in s.live
  {
  }

  lemma MapIsolates(s: State, pid: nat, m: Memory)
    requires Inv(s) && pid in s.procs && GoodDirectory(s.m, s.procs[pid].directory)
    requires OnlyTables(s.m, m, s.procs[pid].directory) && Inv(s.(m := m)) && Isolated(s)
    ensures forall e <- s.procs :: e != pid ==> Confined(s.(m := m), e)
  {
    hide HeapInv, Confined, Carried, GoodDirectory, OnlyTables;
    OwnMappingCarries(s, m, pid);
    forall e | e in s.procs && e != pid ensures Confined(s.(m := m), e) {
      assert ProcOk(s, e) && Confined(s, e);
      HeapOf(s.(m := m));
      CarriedConfined(s, s.(m := m), e);
    }
  }

  lemma JoinIsolates(s: State, s1: State, s': State, pid: nat)
    requires Inv(s) && Inv(s1) && Isolated(s) && pid !in s.procs && s1.procs.Keys == s.procs.Keys + {pid}
    requires forall e <- s.procs :: s1.procs[e] == s.procs[e] && Carried(s, s1, e)
    requires HasTask(s1, pid) && s' == Enlisted(s1, pid) && s'.procs == s1.procs && Inv(s')
    ensures forall e <- s.procs :: Confined(s', e)
  {
    hide HeapInv, Confined, Carried, LinkMoves;
    forall e | e in s.procs ensures Confined(s', e) {
      assert ProcOk(s, e) && ProcOk(s1, e) && ProcOk(s', e) && Confined(s, e);
      CarriedConfined(s, s1, e);
      EnlistedMoves(s1, pid, e);
      if s1.ends.head == 0 {
        CarriedConfined(s1, s', e);
      } else {
        MovedConfined(s1, s', s1.ends.tail, TaskOf(s1, pid), e);
      }
    }
  }

  lemma FreeRestIsolates(s: State, pid: nat)
    requires Inv(s) && CanFreeRest(s, pid) && Inv(AfterFreeRest(s, pid)) && Isolated(s)
    ensures Isolated(AfterFreeRest(s, pid))
  {
    hide HeapInv, Confined, Carried, LinkMoves, WithoutRest;
    var s' := AfterFreeRest(s, pid);
    TaskIsThere(s, pid);
    RestIsGone(s, pid);
    forall e | e in s'.procs ensures Confined(s', e) {
      assert ProcOk(s, e) && ProcOk(s', e) && Confined(s, e);
      FreeRestMoves(s, pid, e);
      if PrevOf(s, pid) == 0 {
        CarriedConfined(s, s', e);
      } else {
        MovedConfined(s, s', PrevOf(s, pid), NextOf(s, pid), e);
      }
    }
  }

  lemma RestIsGone(s: State, pid: nat)
    requires CanFreeRest(s, pid)
    ensures AfterFreeRest(s, pid).procs == s.procs - {pid}
  {
  }

  // ---------------------------------------------------------------- runs

  /** A call that maps memory for a process leaves that process confined. */
  ghost predicate Confines(c: Call, s': State) {
    match c
    case Adopt(pid, _, _, _, _) => pid in s'.procs ==> Confined(s', pid)
    case MapProgram(pid, _) => pid in s'.procs ==> Confined(s', pid)
    case _ => true
  }

  /** No call changes what a process may write but its own mapping; and that keeps all processes isolated if
      and only if it leaves this one confined. */
  lemma StepIsolatesIff(s: State, c: Call, s': State)
    requires Inv(s) && Inv(s') && ProcessRuns.Step(s, c, s') && Isolated(s)
    ensures Isolated(s') <==> Confines(c, s')
  {
    hide Inv, HeapInv, AfterMalloc, AfterFree, AfterKernelMalloc, AfterKernelFree, AfterCreation, OnlyData;
    hide GoodDirectory, FreeEach, MarkEach, Confined, Carried, Adopted, Described, Numbering, Enlisted, AfterFreeRest;
    hide CanFreeRest, HasTask;
    match c
    case Malloc(pid, size) => MallocIsolates(s, pid, size);
    case Free(pid, ptr) => FreeIsolates(s, pid, ptr);
    case KernelMalloc(size) => KernelMallocIsolates(s, size);
    case KernelFree(b) => KernelFreeIsolates(s, b);
    case NewPages(blocks, m) => NewPagesIsolate(s, blocks, m);
    case Store(m) => StoreIsolates(s, m);
    case Adopt(pid, p, perm, inverse, blocks) => AdoptIsolates(s, pid, p, perm, inverse, blocks);
    case MapProgram(pid, m) => MapIsolates(s, pid, m);
    case FreeRest(pid) => FreeRestIsolates(s, pid);
  }

  lemma AdoptIsolates(s: State, pid: nat, p: Proc, perm: seq<nat>, inverse: seq<nat>, blocks: seq<nat>)
    requires Inv(s) && pid !in s.procs && Isolated(s)
    requires Distinct(blocks) && (forall b | b in blocks :: b in s.owner && s.owner[b] == Role.Kernel)
    requires Numbering(perm, inverse) && Described(s, p, perm, blocks)
    requires Inv(Joined(Adopted(s, pid, p, perm, blocks), pid))
    ensures var s' := Joined(Adopted(s, pid, p, perm, blocks), pid);
      s'.procs.Keys == s.procs.Keys + {pid} && forall e <- s.procs :: Confined(s', e)
  {
    hide Inv, Numbering, Distinct, Described, Carried, Confined, Enlisted, Isolated;
    var s1 := Adopted(s, pid, p, perm, blocks);
    AdoptionJoins(s, pid, p, perm, inverse, blocks);
    HeapOf(s);
    KernelAdoptionCarries(s, pid, p, perm, blocks);
    EnlistKeepsProcs(s1, pid);
    JoinIsolates(s, s1, Enlisted(s1, pid), pid);
  }

  ghost predicate ConfiningRun(r: Run)
    requires IsRun(r)
  {
    forall k: nat | k < |r.calls| :: Confines(r.calls[k], r.states[k + 1])
  }

  lemma {:induction false} IsolatedSoFar(r: Run, n: nat)
    requires IsRun(r) && Boot(r.states[0]) && HarmlessRun(r) && n <= |r.calls|
    requires forall k: nat | k < n :: Confines(r.calls[k], r.states[k + 1])
    ensures Isolated(r.states[n])
  {
    hide Inv, Confines, ProcessRuns.Step, Isolated, Harmless;
    if n == 0 {
      NobodyToIsolate(r.states[0]);
    } else {
      IsolatedSoFar(r, n - 1);
      HarmlessSoFar(r, n - 1);
      HarmlessSoFar(r, n);
      assert Next(r.states[n - 1], r.calls[n - 1], r.states[n - 1 + 1]);
      StepIsolatesIff(r.states[n - 1], r.calls[n - 1], r.states[n]);
    }
  }

  lemma NobodyToIsolate(s: State)
    requires s.procs == map[]
    ensures Isolated(s)
  {
  }

  /** All processes are isolated in every state of a harmless run if and only if every mapping of a program in
      it leaves its own process confined. */
  lemma RunIsolatesIff(r: Run)
    requires IsRun(r) && Boot(r.states[0]) && HarmlessRun(r)
    ensures (forall k: nat | k <= |r.calls| :: Isolated(r.states[k])) <==> ConfiningRun(r)
  {
    hide Inv, Confines, ProcessRuns.Step, Isolated, Harmless, Boot;
    if ConfiningRun(r) {
      forall k: nat | k <= |r.calls| ensures Isolated(r.states[k]) {
        IsolatedSoFar(r, k);
      }
    } else if forall k: nat | k <= |r.calls| :: Isolated(r.states[k]) {
      forall k: nat | k < |r.calls| ensures Confines(r.calls[k], r.states[k + 1]) {
        HarmlessSoFar(r, k);
        HarmlessSoFar(r, k + 1);
        assert Next(r.states[k], r.calls[k], r.states[k + 1]) && Isolated(r.states[k]) && Isolated(r.states[k + 1]);
        StepIsolatesIff(r.states[k], r.calls[k], r.states[k + 1]);
      }
    }
  }

  // ---------------------------------------------------------------- what isolation is for

  /** Memory after process code stored a word at virtual address a. */
  ghost function AfterUserStore(s: State, pid: nat, a: Word, v: Word): Memory
    requires pid in s.procs && GoodDirectory(s.m, s.procs[pid].directory)
    requires Translate(s.m, s.procs[pid].directory, a) / 4 < |s.m|
  {
    s.m[Translate(s.m, s.procs[pid].directory, a) / 4 := v]
  }

  /** Wherever a confined process may store, the store stays in memory, changes no word of the kernel or of
      another process, no table, no directory and no link, and leaves everything consistent and isolated. */
  lemma UserStoreStaysInside(s: State, pid: nat, a: Word, v: Word)
    requires Inv(s) && Isolated(s) && pid in s.procs && a % 4 == 0
    requires GoodDirectory(s.m, s.procs[pid].directory) && UserWrites(s.m, s.procs[pid].directory, a / 4096)
    ensures Translate(s.m, s.procs[pid].directory, a) / 4 < |s.m|
    ensures var m := AfterUserStore(s, pid, a, v);
      && OnlyData(s, m) && Inv(s.(m := m)) && Isolated(s.(m := m))
      && forall b <- s.owner :: !IsOfProcess(s.owner[b], pid) ==> b in s.live && SameBlock(s.m, m, b, s.live[b])
  {
    hide Represents, ProcOk, RoleOk;
    assert HeapInv(s) && Confined(s, pid);
    var d := s.procs[pid].directory;
    var f := Frame(Pte(s.m, d, a / 4096));
    var b :| FramesIn(s, pid, a / 4096, f, b);
    BlockInHeap(s, b);
    WordOfPage(f, a);
    var m := AfterUserStore(s, pid, a, v);
    hide Inv, GoodDirectory;
    forall c | c in s.owner ensures DataOf(s, m, c) && c in s.live && (c != b ==> SameBlock(s.m, m, c, s.live[c])) {
      StoredElsewhere(s, m, b, c, f, Translate(s.m, d, a) / 4, v, pid, a / 4096);
    }
    StoreKeepsInv(s, m);
    StoreIsolates(s, m);
  }

  lemma WordOfPage(f: nat, a: Word)
    requires f < PAGES && a % 4 == 0
    ensures f * 1024 <= (f * 4096 + a % 4096) / 4 < f * 1024 + 1024
  {
  }

  lemma StoredElsewhere(s: State, m: Memory, b: nat, c: nat, f: nat, w: nat, v: Word, pid: nat, q: nat)
    requires HeapInv(s) && pid in s.procs && FramesIn(s, pid, q, f, b) && c in s.owner
    requires f * 1024 <= w < f * 1024 + 1024 && w < |s.m| && m == s.m[w := v]
    ensures DataOf(s, m, c) && c in s.live && (c != b ==> SameBlock(s.m, m, c, s.live[c]))
  {
    BlockInHeap(s, c);
    BlockInHeap(s, b);
    hide Represents;
    if c != b {
      StoredInOne(s, m, b, f, w, v, c);
    }
  }
}
