/**
 Loading a process as a whole: what is gathered, what is kept when it is given back, and what the link
 to the new task changes.
 */
module ProcessLoad {
  import opened Machine
  import opened HeapTable
  import opened PageTables
  import opened KernelMemory
  import opened AddressSpace
  import opened ProcessState
  import opened ProcessMemory
  import opened ProcessLife
  import opened ProcessBirth
  import opened TaskLinks
  import opened ProcessRuns
  import opened ProcessEnd
  import opened ProcessStores
  import PathParser

  // ---------------------------------------------------------------- gathering with things given back

  /** One of the gathered blocks is freed again. */
  lemma GatherLess(s0: State, s: State, blocks: seq<nat>, i: nat)
    requires HeapInv(s0) && Inv(s) && Gathered(s0, s, blocks) && i < |blocks|
    ensures blocks[i] in s.owner && s.owner[blocks[i]] == Role.Kernel
    ensures Gathered(s0, AfterKernelFree(s, blocks[i]), blocks[..i] + blocks[i + 1..])
  {
    hide Represents, ProcOk, RoleOk, Carried, OldBlocksKept, MarkFree;
    var b, s' := blocks[i], AfterKernelFree(s, blocks[i]);
    assert b in blocks;
    KernelFreeCarries(s, b);
    DistinctLess(blocks, i);
    OldKeptLess(s0, s, s', b);
  }

  lemma DistinctLess(blocks: seq<nat>, i: nat)
    requires Distinct(blocks) && i < |blocks|
    ensures Distinct(blocks[..i] + blocks[i + 1..])
    ensures forall b :: b in blocks[..i] + blocks[i + 1..] <==> b in blocks && b != blocks[i]
  {
    var rest := blocks[..i] + blocks[i + 1..];
    forall b | b in blocks && b != blocks[i] ensures b in rest {
      var k :| 0 <= k < |blocks| && blocks[k] == b;
      assert rest[if k < i then k else k - 1] == b;
    }
  }

  lemma OldKeptLess(s0: State, s: State, s': State, b: nat)
    requires OldBlocksKept(s0, s) && b !in s0.live && s'.live == s.live - {b} && s.procs == s0.procs
    requires forall e <- s0.procs :: Carried(s, s', e)
    ensures OldBlocksKept(s0, s')
  {
    hide Carried;
    forall e | e in s0.procs ensures Carried(s0, s', e) { CarriedTwice(s0, s, s', e); }
  }

  /** Only free pages were written. */
  lemma GatherStore(s0: State, s: State, blocks: seq<nat>, m: Memory)
    requires HeapInv(s) && Gathered(s0, s, blocks) && LiveKept(s, m)
    ensures Gathered(s0, s.(m := m), blocks)
  {
    hide Represents;
    var s' := s.(m := m);
    forall e ensures Carried(s, s', e) { LiveKeptCarries(s, m, e); }
    hide LiveKept, Carried, Distinct;
    OldBlocksKeptTwice(s0, s, s');
  }

  lemma LiveKeptCarries(s: State, m: Memory, e: nat)
    requires HeapInv(s) && LiveKept(s, m)
    ensures Carried(s, s.(m := m), e)
  {
    hide Represents;
  }

  /** Of the gathered blocks some are for the new process, and those in the middle are kept by the kernel. */
  ghost predicate Sorted(all: seq<nat>, front: seq<nat>, kept: seq<nat>, back: seq<nat>) {
    all == front + kept + back
  }

  lemma SortedParts(all: seq<nat>, front: seq<nat>, kept: seq<nat>, back: seq<nat>)
    requires Sorted(all, front, kept, back) && Distinct(all)
    ensures Distinct(front + back) && Distinct(kept) && (forall b :: b in all <==> b in front + back || b in kept)
    ensures forall b | b in kept :: b !in front + back
  {
    var some := front + back;
    forall i, j | 0 <= i < j < |some| ensures some[i] != some[j] {
      var x, y := if i < |front| then i else i + |kept|, if j < |front| then j else j + |kept|;
      assert all[x] == some[i] && all[y] == some[j];
    }
    forall i, j | 0 <= i < j < |kept| ensures kept[i] != kept[j] {
      assert all[|front| + i] == kept[i] && all[|front| + j] == kept[j];
    }
    forall b | b in kept ensures b !in some {
      var k :| 0 <= k < |kept| && kept[k] == b;
      forall i | 0 <= i < |some| ensures some[i] != b {
        assert all[if i < |front| then i else i + |kept|] == some[i] && all[|front| + k] == b;
      }
    }
  }

  /** Allocations of one block each. */
  ghost predicate OneEach(live: Live, blocks: seq<nat>) {
    forall b | b in blocks :: b in live && live[b] == 1
  }

  /** s is s0 with these different new one-block allocations of the kernel besides. */
  ghost predicate KeptOnly(s0: State, s: State, kept: seq<nat>) {
    && Distinct(kept) && (forall b | b in kept :: b !in s0.live) && OneEach(s.live, kept)
    && s.live.Keys == s0.live.Keys + (set b | b in kept) && (forall b <- s0.live :: s.live[b] == s0.live[b])
    && s.procs == s0.procs && s.owner == s0.owner + map b | b in kept :: Role.Kernel
  }

  /** The table after a failed load is the one before if and only if nothing was kept. */
  lemma RestoredIff(s0: State, s: State, kept: seq<nat>)
    requires HeapInv(s0) && HeapInv(s) && KeptOnly(s0, s, kept)
    ensures s.t == s0.t <==> kept == []
  {
    if kept == [] {
      assert s.live == s0.live;
      TableUnique(s.t, s0.t, s0.live);
    } else {
      assert kept[0] in kept && kept[0] in s.live;
      if s.t == s0.t {
        LiveUnique(s.t, s.live, s0.live);
      }
    }
  }

  // ---------------------------------------------------------------- opening a file

  lemma OnlyFreeIsKept(s: State, m: Memory)
    requires HeapInv(s) && PathParser.OnlyFree(s.live, s.m, m)
    ensures LiveKept(s, m)
  {
    forall b, p: nat | b in s.owner && HEAP_PAGE + b <= p < HEAP_PAGE + b + s.live[b] ensures SamePage(s.m, m, p) {
      BlockInHeap(s, b);
      assert b <= p - HEAP_PAGE < b + s.live[b];
    }
  }

  lemma HoldsIsFresh(before: Live, live: Live, blocks: seq<nat>)
    requires PathParser.Holds(before, live, blocks)
    ensures FreshBlocks(before, blocks) && live == WithBlocks(before, blocks)
  {
  }

  /** What opening a file left in the heap, taken into account. */
  ghost function AfterOpen(s: State, t: seq<Entry>, live: Live, m: Memory, kept: seq<nat>): State {
    AfterCreation(s.(m := m), t, live, m, kept)
  }

  lemma OpenKeepsInv(s0: State, s: State, all: seq<nat>, t: seq<Entry>, live: Live, m: Memory, kept: seq<nat>)
    requires Inv(s) && Gathered(s0, s, all) && Represents(t, live) && |t| == HEAP_BLOCKS
    requires PathParser.Holds(s.live, live, kept) && PathParser.OnlyFree(s.live, s.m, m)
    ensures var s' := AfterOpen(s, t, live, m, kept);
      Inv(s') && Gathered(s0, s', all + kept) && Reaches(s, s') && s'.live == live
    ensures (forall b <- s.live :: b in live && live[b] == s.live[b])
    ensures forall b | b in kept :: b in live && live[b] == 1
  {
    hide Inv, Represents, Gathered, Reaches, PathParser.Holds, PathParser.OnlyFree, OnlyData, LiveKept;
    HeapOf(s);
    OnlyFreeIsKept(s, m);
    FreePagesAreData(s, m);
    StoreKeepsInv(s, m);
    StoreReaches(s, m);
    GatherStore(s0, s, all, m);
    HoldsIsFresh(s.live, live, kept);
    var s1 := s.(m := m);
    HeapOf(s1);
    NothingWritten(m, kept);
    CreationKeepsInv(s1, t, live, m, kept);
    CreationReaches(s1, t, live, m, kept);
    GatherCreated(s0, s1, all, t, live, m, kept);
    ReachesOn(s, s1, AfterOpen(s, t, live, m, kept));
  }

  lemma NothingWritten(m: Memory, blocks: seq<nat>)
    ensures OnlyBlocks(m, m, blocks)
  {
  }

  /** In vain: nothing but free pages was written. */
  lemma OpenInVain(s0: State, s: State, all: seq<nat>, m: Memory)
    requires Inv(s) && Gathered(s0, s, all) && PathParser.OnlyFree(s.live, s.m, m)
    ensures Inv(s.(m := m)) && Gathered(s0, s.(m := m), all) && Reaches(s, s.(m := m))
  {
    hide Inv, Gathered, Reaches, PathParser.OnlyFree, OnlyData, LiveKept;
    HeapOf(s);
    OnlyFreeIsKept(s, m);
    FreePagesAreData(s, m);
    StoreKeepsInv(s, m);
    StoreReaches(s, m);
    GatherStore(s0, s, all, m);
  }

  // ---------------------------------------------------------------- one link moved

  /** Of e's words at most the one that is a->next differs, and that one is v. */
  ghost predicate LinkMoves(s: State, s': State, a: Word, v: Word, e: nat) {
    forall b <- s.owner :: Of(s.owner[b], e) ==>
      b in s'.owner && b in s.live && b in s'.live && s'.owner[b] == s.owner[b] && s'.live[b] == s.live[b]
      && forall p: nat | HEAP_PAGE + b <= p < HEAP_PAGE + b + s.live[b] :: PageMoves(s.m, s'.m, a, v, p)
  }

  ghost predicate PageMoves(m: Memory, n: Memory, a: Word, v: Word, p: nat) {
    && InMemory(m, p) && InMemory(n, p)
    && forall i: nat | i < 1024 :: WordAt(n, p, i) == if IsLink(a, p, i) then v else WordAt(m, p, i)
  }

  lemma MovesSparesIff(s: State, s': State, a: Word, v: Word, e: nat)
    requires HeapInv(s) && HasTask(s, e) && IsStart(a) && LinkMoves(s, s', a, v, e)
    ensures CarriedButNext(s, s', e) <==> LinkSpares(s, a, v, e)
  {
    var p := a / 4096;
    forall b | b in s.owner { BlockInHeap(s, b); }
    hide Represents;
    if LinkSpares(s, a, v, e) {
      forall b, q: nat | b in s.owner && Of(s.owner[b], e) && HEAP_PAGE + b <= q < HEAP_PAGE + b + s.live[b]
        ensures if q == TaskPage(s.procs[e]) then SameButNext(s.m, s'.m, q) else SamePage(s.m, s'.m, q)
      {
        assert PageOf(s, e, b, q) && PageMoves(s.m, s'.m, a, v, q);
      }
    } else if CarriedButNext(s, s', e) {
      var b :| PageOf(s, e, b, p);
      assert PageMoves(s.m, s'.m, a, v, p) && IsLink(a, p, TASK_NEXT);
      PageShows(s, s', e, b, p);
    }
  }

  lemma LinkedMoves(s: State, a: Word, v: Word, e: nat)
    requires HeapInv(s) && IsStart(a)
    ensures LinkMoves(s, Linked(s, a, v), a, v, e)
  {
    WithNextIs(s.m, a, v);
    forall b | b in s.owner { BlockInHeap(s, b); }
    hide Represents, WithNext;
    forall p: nat | InMemory(s.m, p) ensures PageMoves(s.m, Linked(s, a, v).m, a, v, p) {
    }
  }

  lemma CarriedThenMoves(s: State, s1: State, s2: State, a: Word, v: Word, e: nat)
    requires Carried(s, s1, e) && LinkMoves(s1, s2, a, v, e)
    ensures LinkMoves(s, s2, a, v, e)
  {
    forall b, p: nat | b in s.owner && Of(s.owner[b], e) && HEAP_PAGE + b <= p < HEAP_PAGE + b + s.live[b]
      ensures PageMoves(s.m, s2.m, a, v, p)
    {
      assert SamePage(s.m, s1.m, p) && PageMoves(s1.m, s2.m, a, v, p);
    }
  }

  lemma MovesThenCarried(s: State, s1: State, s2: State, a: Word, v: Word, e: nat)
    requires LinkMoves(s, s1, a, v, e) && Carried(s1, s2, e)
    ensures LinkMoves(s, s2, a, v, e)
  {
    forall b, p: nat | b in s.owner && Of(s.owner[b], e) && HEAP_PAGE + b <= p < HEAP_PAGE + b + s.live[b]
      ensures PageMoves(s.m, s2.m, a, v, p)
    {
      assert PageMoves(s.m, s1.m, a, v, p) && SamePage(s1.m, s2.m, p);
    }
  }

  lemma MovesTwice(s: State, s1: State, s2: State, a: Word, v: Word, w: Word, e: nat)
    requires LinkMoves(s, s1, a, v, e) && LinkMoves(s1, s2, a, w, e)
    ensures LinkMoves(s, s2, a, w, e)
  {
    forall b, p: nat | b in s.owner && Of(s.owner[b], e) && HEAP_PAGE + b <= p < HEAP_PAGE + b + s.live[b]
      ensures PageMoves(s.m, s2.m, a, w, p)
    {
      assert PageMoves(s.m, s1.m, a, v, p) && PageMoves(s1.m, s2.m, a, w, p);
    }
  }

  /** What task_new's last lines change for others. */
  lemma EnlistedMoves(s: State, pid: nat, e: nat)
    requires Inv(s) && pid in s.procs && HasTask(s, pid) && e != pid
    ensures s.ends.head == 0 ==> Carried(s, Enlisted(s, pid), e)
    ensures s.ends.head != 0 ==> LinkMoves(s, Enlisted(s, pid), s.ends.tail, TaskOf(s, pid), e)
  {
    hide Represents, ProcOk, RoleOk;
    if s.ends.head == 0 {
      RelabelledCarried(s, Enlisted(s, pid), e);
    } else {
      var s1 := Linked(s, s.ends.tail, TaskOf(s, pid));
      LinkedMoves(s, s.ends.tail, TaskOf(s, pid), e);
      PrevCarried(s, s1, Enlisted(s, pid), pid, s.ends.tail, e);
      MovesThenCarried(s, s1, Enlisted(s, pid), s.ends.tail, TaskOf(s, pid), e);
    }
  }

  lemma PrevCarried(s: State, s1: State, s2: State, pid: nat, w: Word, e: nat)
    requires Inv(s) && pid in s.procs && e != pid && HasTask(s1, pid) && s1 == s.(m := s1.m) && |s1.m| == |s.m|
    requires s2 == WithPrev(s1, pid, w).(ends := s2.ends)
    ensures Carried(s1, s2, e)
  {
    TaskIsThere(s, pid);
    WithPrevIs(s1, pid, w);
    hide Represents, ProcOk, RoleOk, WithPrev;
    var t := TaskPage(s.procs[pid]);
    forall c, p: nat | c in s.owner && Of(s.owner[c], e) && HEAP_PAGE + c <= p < HEAP_PAGE + c + s.live[c]
      ensures SamePage(s1.m, s2.m, p)
    {
      BlockInHeap(s, c);
      BlockInHeap(s, t - HEAP_PAGE);
      if p == t {
        PageOfOne(s, t - HEAP_PAGE, c, p);
      }
    }
  }

  lemma FreeRestMoves(s: State, pid: nat, e: nat)
    requires Inv(s) && CanFreeRest(s, pid) && e in s.procs && e != pid
    ensures PrevOf(s, pid) == 0 ==> Carried(s, AfterFreeRest(s, pid), e)
    ensures PrevOf(s, pid) != 0 ==> LinkMoves(s, AfterFreeRest(s, pid), PrevOf(s, pid), NextOf(s, pid), e)
  {
    hide Inv, WithoutRest, PrevOf, NextOf, DelistedEnds;
    RestEnds(s, pid);
    RestLeavesMemory(s, pid);
    EndedCarries(s, WithoutRest(s, pid), pid, e);
    HeapOf(s);
    HeapOf(WithoutRest(s, pid));
    var s1, s' := WithoutRest(s, pid), AfterFreeRest(s, pid);
    if PrevOf(s, pid) == 0 {
      RelabelledCarried(s1, s', e);
      CarriedTwice(s, s1, s', e);
    } else {
      LinkedMoves(s1, PrevOf(s, pid), NextOf(s, pid), e);
      EndsDoNotMove(s1, Linked(s1, PrevOf(s, pid), NextOf(s, pid)), s', PrevOf(s, pid), NextOf(s, pid), e);
      CarriedThenMoves(s, s1, s', PrevOf(s, pid), NextOf(s, pid), e);
    }
  }

  lemma EndedCarries(s: State, s1: State, pid: nat, e: nat)
    requires Ended(s, s1, pid) && e in s.procs && e != pid
    ensures Carried(s, s1, e)
  {
  }

  lemma EndsDoNotMove(s: State, s1: State, s': State, a: Word, v: Word, e: nat)
    requires LinkMoves(s, s1, a, v, e) && s' == s1.(ends := s'.ends)
    ensures LinkMoves(s, s', a, v, e)
  {
  }

  // ---------------------------------------------------------------- the tail of the task list

  /** task_tail, if it will be written through, names no free block, and nothing that a process needs. */
  ghost predicate TailSettled(s: State) {
    s.ends.head == 0 || (TailTaken(s) && forall e <- s.procs :: !Needs(s, e, s.ends.tail / 4096))
  }

  ghost predicate TailTaken(s: State) {
    s.ends.tail == 0
    || (HEAP_PAGE <= s.ends.tail / 4096 < HEAP_PAGE + |s.t| && !IsFree(s.t[s.ends.tail / 4096 - HEAP_PAGE]))
  }

  /** New blocks are no part of what was there before. */
  lemma TailNotNew(s0: State, s1: State, all: seq<nat>, b: nat, p: nat)
    requires HeapInv(s0) && HeapInv(s1) && Gathered(s0, s1, all) && TailTaken(s0) && b in all
    requires HEAP_PAGE + b <= p < HEAP_PAGE + b + s1.live[b]
    ensures s0.ends.tail / 4096 != p
  {
    if s0.ends.tail / 4096 == p {
      BlockInHeap(s1, b);
      TakenIffCovered(s0.t, s0.live, p - HEAP_PAGE);
      var r :| r in s0.live && r <= p - HEAP_PAGE < r + s0.live[r];
      hide Represents;
      PageOfOne(s1, r, b, p);
    }
  }

  /** The address space of a new process is new. */
  lemma SpaceIsNew(s0: State, s1: State, all: seq<nat>, p: Proc, perm: seq<nat>, blocks: seq<nat>)
    requires HeapInv(s0) && HeapInv(s1) && Gathered(s0, s1, all) && TailTaken(s0) && forall b | b in blocks :: b in all
    requires Described(s1, p, perm, blocks)
    ensures s0.ends.tail / 4096 != p.directory
    ensures forall i: nat | i < ENTRIES :: TablePage(s1.m, p.directory, i) != s0.ends.tail / 4096
  {
    hide Represents, TailTaken, Gathered;
    var n := |perm|;
    assert blocks[n] in blocks;
    TailNotNew(s0, s1, all, blocks[n], p.directory);
    forall i: nat | i < ENTRIES ensures TablePage(s1.m, p.directory, i) != s0.ends.tail / 4096 {
      assert DescribedTable(s1, p.directory, i, blocks, n) && blocks[n + 1 + i] in blocks;
      TailNotNew(s0, s1, all, blocks[n + 1 + i], HEAP_PAGE + blocks[n + 1 + i]);
    }
  }

  /** What Load's last allocations come to: a consistent state with the new process in it, whose task can be
      put behind the tail of the list. */
  lemma JoinFits(s0: State, s1: State, all: seq<nat>, pid: nat, p: Proc, perm: seq<nat>, inverse: seq<nat>,
      blocks: seq<nat>)
    requires Inv(s0) && Inv(s1) && pid !in s0.procs && Gathered(s0, s1, all) && TailSettled(s0)
    requires Numbering(perm, inverse) && Described(s1, p, perm, blocks) && Distinct(blocks)
    requires forall b | b in blocks :: b in all
    ensures var s := Adopted(s1, pid, p, perm, blocks);
      && Inv(s) && HasTask(s, pid) && IsStart(s.ends.tail) && EnlistFits(s, pid) && Inv(Enlisted(s, pid))
      && Joined(s, pid) == Enlisted(s, pid)
      && forall e <- s0.procs :: Carried(s0, s, e)
  {
    hide Inv, Represents, Numbering, Carried, Needs, TailTaken;
    var s := Adopted(s1, pid, p, perm, blocks);
    HeapOf(s0);
    HeapOf(s1);
    GatheredKernel(s0, s1, all);
    AdoptionJoins(s1, pid, p, perm, inverse, blocks);
    HeapOf(s);
    BothCarried(s0, s1, all, pid, p, perm, blocks);
    if s.ends.head != 0 {
      SpaceIsNew(s0, s1, all, p, perm, blocks);
      forall e | e in s.procs ensures !Needs(s, e, s.ends.tail / 4096) {
        if e == pid {
          NewNeeds(s, pid, s.ends.tail / 4096);
        } else {
          NeedsCarried(s0, s, e, s.ends.tail / 4096);
        }
      }
    }
  }

  lemma GatheredKernel(s0: State, s1: State, all: seq<nat>)
    requires Gathered(s0, s1, all)
    ensures s1.procs == s0.procs && s1.ends == s0.ends
    ensures forall b | b in all :: b in s1.owner && s1.owner[b] == Role.Kernel
  {
  }

  lemma BothCarried(s0: State, s1: State, all: seq<nat>, pid: nat, p: Proc, perm: seq<nat>, blocks: seq<nat>)
    requires HeapInv(s1) && Gathered(s0, s1, all) && pid !in s0.procs && forall b | b in blocks :: b in all
    ensures forall e <- s0.procs :: Carried(s0, Adopted(s1, pid, p, perm, blocks), e)
  {
    hide Carried, Adopted, HeapInv;
    OthersKnown(s0, s1, all);
    KernelAdoptionCarries(s1, pid, p, perm, blocks);
    forall e | e in s0.procs ensures Carried(s0, Adopted(s1, pid, p, perm, blocks), e) {
      CarriedTwice(s0, s1, Adopted(s1, pid, p, perm, blocks), e);
    }
  }

  lemma KernelAdoptionCarries(s: State, pid: nat, p: Proc, perm: seq<nat>, blocks: seq<nat>)
    requires HeapInv(s) && forall b | b in blocks :: b in s.owner && s.owner[b].Kernel?
    ensures forall e :: Carried(s, Adopted(s, pid, p, perm, blocks), e)
  {
    AdoptedRoles(s, pid, p, perm, blocks);
    forall e ensures Carried(s, Adopted(s, pid, p, perm, blocks), e) {
      RelabelledCarried(s, Adopted(s, pid, p, perm, blocks), e);
    }
  }

  /** A process without allocations needs of its address space only the directory. */
  lemma NewNeeds(s: State, pid: nat, p: nat)
    requires pid in s.procs && s.procs[pid].allocations == NoAllocations()
    ensures Needs(s, pid, p) <==> p == s.procs[pid].directory
  {
    forall i: nat, slot: nat ensures !NeedsEntry(s, pid, p, i, slot) {
    }
  }

  /** The new process's own address space is not touched by the link. */
  lemma EnlistedSpace(s: State, pid: nat)
    requires Inv(s) && pid in s.procs && HasTask(s, pid)
    requires s.ends.tail / 4096 != s.procs[pid].directory && InMemory(s.m, s.procs[pid].directory)
    requires forall i: nat | i < ENTRIES :: TablePage(s.m, s.procs[pid].directory, i) != s.ends.tail / 4096
    ensures var d, n := s.procs[pid].directory, Enlisted(s, pid).m;
      GoodDirectory(s.m, d) && SameTables(s.m, n, d) && forall q: nat | q < PAGES :: Pte(n, d, q) == Pte(s.m, d, q)
  {
    hide Represents, ResourcesOk, SlotOk, Enlisted;
    var d, t, n := s.procs[pid].directory, TaskPage(s.procs[pid]), Enlisted(s, pid).m;
    assert ProcOk(s, pid);
    TaskIsThere(s, pid);
    DirectoryIsGood(s, pid);
    hide Inv, ProcOk;
    OtherPagesSame(s, pid, d);
    SameDirectory(s.m, n, d);
    forall i: nat | i < ENTRIES ensures SamePage(s.m, n, TablePage(s.m, d, i)) {
      assert OwnPage(s, TablePage(s.m, d, i), Table(pid, i));
      OtherPagesSame(s, pid, TablePage(s.m, d, i));
    }
    forall q: nat | q < PAGES ensures Pte(n, d, q) == Pte(s.m, d, q) {
      assert SamePage(s.m, n, TablePage(s.m, d, q / 1024));
    }
  }

  lemma OtherPagesSame(s: State, pid: nat, p: nat)
    requires HasTask(s, pid) && IsStart(s.ends.tail) && InMemory(s.m, p)
    requires p != s.ends.tail / 4096 && p != TaskPage(s.procs[pid])
    ensures |Enlisted(s, pid).m| == |s.m| && SamePage(s.m, Enlisted(s, pid).m, p)
  {
    if s.ends.head != 0 {
      WithNextIs(s.m, s.ends.tail, TaskOf(s, pid));
      WithPrevIs(Linked(s, s.ends.tail, TaskOf(s, pid)), pid, s.ends.tail);
      assert forall i: nat | i < 1024 :: !IsLink(s.ends.tail, p, i);
    }
  }

  // ---------------------------------------------------------------- what a load changes for others

  /** The words of other processes after task_new's last lines and the mapping of the program. */
  lemma LoadMoves(s0: State, s: State, s3: State, pid: nat, e: nat)
    requires Inv(s) && pid in s.procs && HasTask(s, pid) && e != pid
    requires Carried(s0, s, e) && Carried(Enlisted(s, pid), s3, e)
    ensures s.ends.head == 0 ==> Carried(s0, s3, e)
    ensures s.ends.head != 0 ==> LinkMoves(s0, s3, s.ends.tail, TaskOf(s, pid), e)
  {
    hide Inv, Carried, LinkMoves, Enlisted;
    TailOf(s);
    EnlistedMoves(s, pid, e);
    if s.ends.head == 0 {
      CarriedTwice(s0, s, Enlisted(s, pid), e);
      CarriedTwice(s0, Enlisted(s, pid), s3, e);
    } else {
      CarriedThenMoves(s0, s, Enlisted(s, pid), s.ends.tail, TaskOf(s, pid), e);
      MovesThenCarried(s0, Enlisted(s, pid), s3, s.ends.tail, TaskOf(s, pid), e);
    }
  }

  /** A load spares the words of process e, but the `next` of its task, when it leaves v in tail->next. */
  ghost predicate LoadSpares(s: State, v: Word, e: nat)
    requires Writable(s.m) && IsStart(s.ends.tail) && e in s.procs && 2 <= |s.procs[e].resources|
  {
    s.ends.head == 0 || LinkSpares(s, s.ends.tail, v, e)
  }

  lemma LoadSparesIff(s0: State, s: State, s3: State, pid: nat, e: nat)
    requires Inv(s0) && HasTask(s0, e) && s.ends == s0.ends
    requires Inv(s) && pid in s.procs && HasTask(s, pid) && e != pid
    requires Carried(s0, s, e) && Carried(Enlisted(s, pid), s3, e)
    ensures CarriedButNext(s0, s3, e) <==> LoadSpares(s0, TaskOf(s, pid), e)
  {
    hide Inv, LinkMoves, Enlisted, LinkSpares, CarriedButNext;
    LoadMoves(s0, s, s3, pid, e);
    HeapOf(s0);
    TailOf(s0);
    if s.ends.head == 0 {
      CarriedIsBut(s0, s3, e);
    } else {
      MovesSparesIff(s0, s3, s.ends.tail, TaskOf(s, pid), e);
    }
  }

  lemma CarriedIsBut(s: State, s': State, e: nat)
    requires HasTask(s, e) && Carried(s, s', e)
    ensures CarriedButNext(s, s', e)
  {
  }

  /** The links of a task just put into the list. */
  lemma EnlistedOwn(s: State, pid: nat)
    requires HasTask(s, pid) && IsStart(s.ends.tail) && s.ends.tail / 4096 != TaskPage(s.procs[pid])
    requires NextOf(s, pid) == 0 && PrevOf(s, pid) == 0
    ensures var s' := Enlisted(s, pid);
      && HasTask(s', pid) && NextOf(s', pid) == 0 && PrevOf(s', pid) == (if s.ends.head == 0 then 0 else s.ends.tail)
      && TaskOf(s', pid) == TaskOf(s, pid)
  {
    if s.ends.head != 0 {
      WithNextIs(s.m, s.ends.tail, TaskOf(s, pid));
      assert !IsLink(s.ends.tail, TaskPage(s.procs[pid]), TASK_NEXT);
      WithPrevIs(Linked(s, s.ends.tail, TaskOf(s, pid)), pid, s.ends.tail);
    }
  }

  /** What nobody needed before is not needed after a link was moved there. */
  lemma NeedsMoved(s: State, s': State, a: Word, v: Word, e: nat)
    requires Inv(s) && LinkMoves(s, s', a, v, e) && e in s.procs && e in s'.procs && s'.procs[e] == s.procs[e]
    requires !Needs(s, e, a / 4096)
    ensures !Needs(s', e, a / 4096)
  {
    hide Represents, ResourcesOk;
    assert ProcOk(s, e);
    var d, p := s.procs[e].directory, a / 4096;
    assert PageMoves(s.m, s'.m, a, v, d);
    assert forall i: nat | i < ENTRIES :: WordAt(s'.m, d, i) == WordAt(s.m, d, i);
    forall slot: nat, q: nat ensures Records(s', e, slot, q) ==> Records(s, e, slot, q) {
      if slot < SLOTS {
        assert SlotOk(s, e, slot);
      }
    }
    hide Inv, Records, LinkMoves, ProcOk, SlotOk;
    forall i: nat, slot: nat ensures !NeedsEntry(s', e, p, i, slot) {
      assert !NeedsEntry(s, e, p, i, slot);
    }
  }

  /** When a segment is refused, everything but what the kernel keeps is given back. */
  lemma FailedLoad(s0: State, s: State, s3: State, s4: State, pid: nat)
    requires Inv(s0) && Inv(s) && Inv(s3) && pid !in s0.procs && pid in s.procs && HasTask(s, pid) && s.ends == s0.ends
    requires s.procs.Keys == s0.procs.Keys + {pid} && forall e <- s0.procs :: s.procs[e] == s0.procs[e]
    requires TailSettled(s0) && s3 == Enlisted(s, pid).(m := s3.m)
    requires forall e <- s0.procs :: Carried(s0, s, e) && Carried(Enlisted(s, pid), s3, e)
    requires CanFreeRest(s3, pid) && s4 == AfterFreeRest(s3, pid)
    requires NextOf(s3, pid) == 0 && PrevOf(s3, pid) == (if s0.ends.head == 0 then 0 else s0.ends.tail)
    ensures Inv(s4)
    ensures forall e <- s0.procs :: HasTask(s0, e) && (CarriedButNext(s0, s4, e) <==> LoadSpares(s0, 0, e))
  {
    hide Inv, Carried, Enlisted, CarriedButNext, LoadSpares, Needs, AfterFreeRest, PrevOf, NextOf;
    TailOf(s);
    TailOf(s0);
    HeapOf(s0);
    WritableOf(s0);
    EnlistKeepsProcs(s, pid);
    forall e | e in s0.procs ensures HasTask(s0, e) { TaskIsThere(s0, e); }
    FailedFits(s0, s, s3, pid);
    FreeRestKeepsInvIff(s3, pid);
    forall e | e in s0.procs ensures HasTask(s0, e) && (CarriedButNext(s0, s4, e) <==> LoadSpares(s0, 0, e)) {
      FailedSpares(s0, s, s3, s4, pid, e);
    }
  }

  lemma EnlistKeepsProcs(s: State, pid: nat)
    requires HasTask(s, pid) && IsStart(s.ends.tail)
    ensures Enlisted(s, pid).procs == s.procs
  {
  }

  lemma FailedFits(s0: State, s: State, s3: State, pid: nat)
    requires Inv(s0) && Inv(s) && Inv(s3) && pid !in s0.procs && pid in s.procs && HasTask(s, pid) && s.ends == s0.ends
    requires s.procs.Keys == s0.procs.Keys + {pid} && forall e <- s0.procs :: s.procs[e] == s0.procs[e]
    requires TailSettled(s0) && s3 == Enlisted(s, pid).(m := s3.m)
    requires forall e <- s0.procs :: Carried(s0, s, e) && Carried(Enlisted(s, pid), s3, e)
    requires CanFreeRest(s3, pid) && PrevOf(s3, pid) == (if s0.ends.head == 0 then 0 else s0.ends.tail)
    ensures DelistFits(s3, pid)
  {
    hide Inv, Carried, Enlisted, LinkMoves, Needs;
    TailOf(s);
    EnlistKeepsProcs(s, pid);
    if s0.ends.head != 0 {
      forall e | e in s3.procs && e != pid ensures !Needs(s3, e, s0.ends.tail / 4096) {
        LoadMoves(s0, s, s3, pid, e);
        NeedsMoved(s0, s3, s0.ends.tail, TaskOf(s, pid), e);
      }
    }
  }

  lemma FailedSpares(s0: State, s: State, s3: State, s4: State, pid: nat, e: nat)
    requires Inv(s0) && Inv(s) && Inv(s3) && pid in s.procs && HasTask(s, pid) && s.ends == s0.ends
    requires e in s0.procs && e != pid && HasTask(s0, e) && e in s3.procs
    requires Carried(s0, s, e) && Carried(Enlisted(s, pid), s3, e)
    requires CanFreeRest(s3, pid) && s4 == AfterFreeRest(s3, pid)
    requires NextOf(s3, pid) == 0 && PrevOf(s3, pid) == (if s0.ends.head == 0 then 0 else s0.ends.tail)
    ensures CarriedButNext(s0, s4, e) <==> LoadSpares(s0, 0, e)
  {
    hide Inv, Carried, Enlisted, LinkMoves, CarriedButNext, AfterFreeRest, PrevOf, NextOf;
    HeapOf(s0);
    TailOf(s0);
    LoadMoves(s0, s, s3, pid, e);
    FreeRestMoves(s3, pid, e);
    if s0.ends.head == 0 {
      CarriedTwice(s0, s3, s4, e);
      CarriedIsBut(s0, s4, e);
    } else if s0.ends.tail == 0 {
      MovesThenCarried(s0, s3, s4, 0, TaskOf(s, pid), e);
      MovesSparesIff(s0, s4, 0, TaskOf(s, pid), e);
      NothingAtZero(s0, e);
    } else {
      MovesTwice(s0, s3, s4, s0.ends.tail, TaskOf(s, pid), 0, e);
      MovesSparesIff(s0, s4, s0.ends.tail, 0, e);
    }
  }

  lemma NothingAtZero(s: State, e: nat)
    requires HasTask(s, e)
    ensures !InBlockOf(s, e, 0)
  {
  }

  /** What is left after a failed load: the state before with the blocks the kernel keeps. */
  lemma KeptAfterwards(s0: State, s1: State, all: seq<nat>, front: seq<nat>, kept: seq<nat>, back: seq<nat>, pid: nat,
      p: Proc, perm: seq<nat>, s3: State, s4: State)
    requires HeapInv(s0) && HeapInv(s1) && Inv(s1) && pid !in s0.procs && Gathered(s0, s1, all)
    requires Sorted(all, front, kept, back) && OneEach(s1.live, kept)
    requires var s := Adopted(s1, pid, p, perm, front + back);
      s3.live == s.live && s3.owner == s.owner && s3.procs == s.procs
    requires s4.live == s3.live - Belongings(s3, pid) && s4.owner == s3.owner - Belongings(s3, pid)
    requires s4.procs == s3.procs - {pid}
    ensures KeptOnly(s0, s4, kept)
  {
    hide Inv, Represents, Adopted, Belongings, Carried, OldBlocksKept, Distinct, Sorted;
    var blocks := front + back;
    OthersKnown(s0, s1, all);
    SortedParts(all, front, kept, back);
    NotYetOf(s1, pid);
    AdoptedRoles(s1, pid, p, perm, blocks);
    AdoptedIs(s1, pid, p, perm, blocks);
    BelongingsAre(s1, pid, p, perm, blocks, s3);
    KeptLive(s0, s1, all, blocks, kept, s4);
    KeptOwner(s0, s1, all, blocks, kept, Adopted(s1, pid, p, perm, blocks).owner, s4);
    assert s4.procs == s0.procs;
  }

  lemma BelongingsAre(s: State, pid: nat, p: Proc, perm: seq<nat>, blocks: seq<nat>, s3: State)
    requires forall b <- s.owner :: !Of(s.owner[b], pid)
    requires forall b | b in blocks :: b in s.owner && s.owner[b].Kernel?
    requires s3.owner == Adopted(s, pid, p, perm, blocks).owner
    ensures forall b: nat :: b in Belongings(s3, pid) <==> b in blocks
  {
  }

  lemma KeptLive(s0: State, s1: State, all: seq<nat>, blocks: seq<nat>, kept: seq<nat>, s4: State)
    requires HeapInv(s0) && HeapInv(s1) && Gathered(s0, s1, all)
    requires (forall b :: b in all <==> b in blocks || b in kept) && forall b | b in kept :: b !in blocks
    requires s4.live == s1.live - (set b | b in blocks) && OneEach(s1.live, kept)
    ensures OneEach(s4.live, kept) && s4.live.Keys == s0.live.Keys + (set b | b in kept)
    ensures (forall b <- s0.live :: s4.live[b] == s0.live[b])
    ensures forall b | b in kept :: b !in s0.live
  {
    hide Represents, Carried, Distinct;
    assert forall b | b in all :: b !in s0.live;
  }

  lemma KeptOwner(s0: State, s1: State, all: seq<nat>, blocks: seq<nat>, kept: seq<nat>, owner: map<nat, Role>,
      s4: State)
    requires Gathered(s0, s1, all)
    requires (forall b :: b in all <==> b in blocks || b in kept) && forall b | b in kept :: b !in blocks
    requires owner.Keys == s1.owner.Keys && forall b <- owner :: b in blocks || owner[b] == s1.owner[b]
    requires s4.owner == owner - set b | b in blocks
    ensures s4.owner == s0.owner + map b | b in kept :: Role.Kernel
  {
    hide Carried, Distinct, OldBlocksKept;
    var o := s0.owner + map b | b in kept :: Role.Kernel;
    forall b ensures b in s4.owner <==> b in o { }
    assert s4.owner.Keys == o.Keys;
  }
}
