/**
 Two runs in which a link of the task list is followed to a block that was freed and is in use again.
 In both, process A ends while B, loaded behind it, keeps A's task as its `prev`; C comes to have the
 block of that task; and B ends.
 */
module StaleLinks {
  import opened Machine
  import opened HeapTable
  import opened PageTables
  import opened KernelMemory
  import opened FirstFit
  import opened ProcessState
  import opened ProcessMemory
  import opened ProcessLife
  import opened TaskLinks
  import opened TaskOrder
  import opened ProcessEnd
  import opened ProcessLoad
  import opened ProcessRecord
  import opened ProcessAssembly
  import opened Processes
  import opened KeptPaths
  import ProcessGrants
  import ProcessRuns
  import PathParser

  // ---------------------------------------------------------------- what is loaded

  /** An ELF file of n blocks, which is there. */
  function ElfOf(n: nat): File
    requires n < 16
  {
    File(true, true, true, n * 4096)
  }

  lemma FileBlocks(n: nat)
    requires 0 < n < 16
    ensures Blocks(ElfOf(n).size) == n
  {
    BlocksIsCeiling(n * 4096);
  }

  lemma LoadsFine(n: nat, elf: Word)
    requires 0 < n < 16
    ensures LoadResult(ShortPath(), ElfOf(n), elf, []) == 0 && KeptBy(ShortPath(), ElfOf(n)) == 3
    ensures HasData(ShortPath(), ElfOf(n))
  {
    ShortPathBlocks();
  }

  // ---------------------------------------------------------------- where things are

  /** A process of n image blocks lies behind a gap of four blocks at a, from k on. */
  ghost predicate LiesAt(g: Gathering, a: nat, k: nat, n: nat) {
    && g.front == [a, a + 3] && |g.kept| == 3 && (forall i | 0 <= i < 3 :: g.kept[i] == k + i)
    && g.image == k + 3 && g.stack == k + 3 + n && g.task == k + 7 + n
    && |g.space| == 1026 && (forall i | 0 <= i < 1026 :: g.space[i] == g.task + 1 + i)
  }

  lemma LoadedAt(s0: State, s: State, pid: nat, process: Process, g: Gathering, n: nat, a: nat, k: nat, end: nat)
    requires Settled(s0, s, pid, process, g) && process.isElf && |g.kept| == 3 && Blocks(g.size) == n
    requires 0 < n && Gap(s0.t, a, k, end) && k + n + 1034 <= end
    ensures LiesAt(g, a, k, n) && Front(s.t, k + n + 1034, end)
  {
    hide Of, OneEach, Front, Gap, DataPlaced, RestPlaced;
    GapPlaces(g.first, g.second, g.front, g.kept, g.image, n, g.stack, g.task, g.space, a, k, end);
  }

  lemma FrontIsGap(t: seq<Entry>, k: nat, n: nat)
    requires Front(t, k, n) && k + 4 <= n
    ensures Gap(t, k, k + 4, n)
  {
  }

  lemma FrontHasRun(t: seq<Entry>, k: nat, n: nat, more: nat)
    requires Front(t, k, n) && k + more <= n
    ensures HasRun(t, more)
  {
    assert FreeRun(t, k, more);
  }

  lemma BootIsFront(s: State)
    requires ProcessRuns.Boot(s)
    ensures Front(s.t, 0, HEAP_BLOCKS)
  {
    assert forall i: nat | i < |s.t| :: s.t[i] == FREE;
  }

  /** A task in the list is a tail that can be written through. */
  lemma TaskSettled(s: State, e: nat)
    requires Inv(s) && e in s.procs && HasTask(s, e) && s.ends.tail == TaskOf(s, e)
    ensures TailSettled(s)
  {
    hide Inv, Needs;
    TaskIsThere(s, e);
    LiveTaskFits(s, e, 0);
    HeapOf(s);
    TakenThere(s, TaskPage(s.procs[e]) - HEAP_PAGE);
  }

  lemma TakenThere(s: State, b: nat)
    requires HeapInv(s) && b in s.live
    ensures b < |s.t| && !IsFree(s.t[b])
  {
    BlockInHeap(s, b);
    RunBits(s.t, s.live, b);
  }

  // ---------------------------------------------------------------- the hole that A leaves

  /** What is taken in s1 is taken by A's blocks or by its parsed path; without A's blocks only the path is left. */
  ghost predicate OnlyA(s1: State, s2: State, pid: nat, g: Gathering) {
    && HeapInv(s1) && HeapInv(s2) && s1.live.Keys == (set b | b in g.All()) && OneEach(s1.live, g.kept)
    && (forall b <- s1.live :: b in s2.live && s2.live[b] == s1.live[b] && b in s2.owner)
    && (forall b | b in g.All() && b in s2.owner ::
          if b in g.front + g.Back() then Of(s2.owner[b], pid) else s2.owner[b] == Role.Kernel)
  }

  lemma HoleAt(s1: State, s2: State, s3: State, pid: nat, g: Gathering, n: nat, i: nat)
    requires OnlyA(s1, s2, pid, g) && LiesAt(g, 0, 4, n) && Front(s1.t, n + 1038, HEAP_BLOCKS) && i < n + 1038
    requires HeapInv(s3) && s3.live == s2.live - Belongings(s2, pid) && s3.owner == s2.owner - Belongings(s2, pid)
    ensures IsFree(s3.t[i]) <==> !(4 <= i < 7)
  {
    hide IsFree, Of;
    TakenIffCovered(s1.t, s1.live, i);
    TakenIffCovered(s3.t, s3.live, i);
    var r :| r in s1.live && r <= i < r + s1.live[r];
    if 4 <= i < 7 {
      KeptBlock(s1, s2, s3, pid, g, n, i);
    } else if Covered(s3.live, i) {
      var c :| c in s3.live && c <= i < c + s3.live[c];
      hide Represents;
      PageOfOne(s2, r, c, HEAP_PAGE + i);
      WhoseRun(s1, s2, s3, pid, g, n, r, i);
    }
  }

  lemma KeptBlock(s1: State, s2: State, s3: State, pid: nat, g: Gathering, n: nat, i: nat)
    requires OnlyA(s1, s2, pid, g) && LiesAt(g, 0, 4, n) && 4 <= i < 7
    requires s3.live == s2.live - Belongings(s2, pid)
    ensures Covered(s3.live, i)
  {
    hide Represents;
    assert g.kept[i - 4] == i;
    assert i in g.kept && i in g.All();
    NotOwn(g, n, i);
    assert i in s3.live && s3.live[i] == 1;
  }

  lemma NotOwn(g: Gathering, n: nat, i: nat)
    requires LiesAt(g, 0, 4, n) && 4 <= i < 7
    ensures i !in g.front + g.Back()
  {
    assert i !in g.front && i !in g.space && i !in [g.image, g.stack, g.task];
  }

  lemma KeptIs(g: Gathering, n: nat, r: nat)
    requires LiesAt(g, 0, 4, n) && r in g.kept
    ensures 4 <= r < 7
  {
    var j :| 0 <= j < |g.kept| && g.kept[j] == r;
  }

  lemma WhoseRun(s1: State, s2: State, s3: State, pid: nat, g: Gathering, n: nat, r: nat, i: nat)
    requires OnlyA(s1, s2, pid, g) && LiesAt(g, 0, 4, n) && r in s1.live && r <= i < r + s1.live[r] && !(4 <= i < 7)
    requires s3.live == s2.live - Belongings(s2, pid)
    ensures r !in s3.live
  {
    hide Represents;
    assert r in g.All();
    if r in g.kept {
      KeptIs(g, n, r);
    } else {
      assert r in g.front + g.Back();
    }
  }

  // ---------------------------------------------------------------- the two runs up to the end of A

  /** A and B are loaded, A first and on an empty heap. */
  ghost predicate Scene(s1: State, s2: State, order: seq<nat>, g: Gathering, n: nat, end: nat) {
    && Inv(s2) && TwoWay(s2, order) && 2 <= |order| && order[0] == 0 && order[1] == 1
    && OnlyA(s1, s2, 0, g) && LiesAt(g, 0, 4, n)
    && Front(s1.t, n + 1038, HEAP_BLOCKS) && Front(s2.t, end, HEAP_BLOCKS)
    && 0 in s2.procs && HasTask(s2, 0) && TaskPage(s2.procs[0]) == HEAP_PAGE + g.task
  }

  /** A alone, on an empty heap. */
  ghost predicate First(s1: State, g: Gathering, n: nat) {
    && Inv(s1) && TwoWay(s1, [0]) && LiesAt(g, 0, 4, n) && Front(s1.t, n + 1038, HEAP_BLOCKS)
    && s1.live.Keys == (set b | b in g.All()) && OneEach(s1.live, g.kept)
    && (forall b | b in g.All() && b in s1.owner ::
          if b in g.front + g.Back() then Of(s1.owner[b], 0) else s1.owner[b] == Role.Kernel)
    && 0 in s1.procs && HasTask(s1, 0) && TaskPage(s1.procs[0]) == HEAP_PAGE + g.task && 1 !in s1.procs
  }

  lemma FirstNow(s0: State, s1: State, a: Process, g: Gathering, n: nat, size: Word)
    requires ProcessRuns.Boot(s0) && Inv(s1) && Settled(s0, s1, 0, a, g) && a.isElf && Loaded(s0, s1, 0, a, size, [])
    requires TwoWay(s1, [0]) && LiesAt(g, 0, 4, n) && Front(s1.t, n + 1038, HEAP_BLOCKS)
    ensures First(s1, g, n) && TailSettled(s1)
    ensures Gap(s1.t, n + 1038, n + 1042, HEAP_BLOCKS) <== n < 16
    ensures HasRun(s1.t, 2000) <== n < 16
  {
    hide Inv, Of, Gathering.Places, MappedFrom, TwoWay, LiesAt, Front, OneEach, TailSettled, Gap, HasRun, Sized;
    TaskAt(s0, s1, 0, a, g, size);
    TwoWaySettled(s1, [0]);
    if n < 16 {
      FrontIsGap(s1.t, n + 1038, HEAP_BLOCKS);
      FrontHasRun(s1.t, n + 1038, HEAP_BLOCKS, 2000);
    }
  }

  lemma SceneNow(s1: State, s2: State, g: Gathering, b: Process, h: Gathering, n: nat, end: nat, size: Word)
    requires First(s1, g, n) && Inv(s2) && Settled(s1, s2, 1, b, h) && Loaded(s1, s2, 1, b, size, [])
    requires TwoWay(s2, [0, 1]) && Front(s2.t, end, HEAP_BLOCKS)
    ensures Scene(s1, s2, [0, 1], g, n, end)
  {
    hide Inv, Of, Gathering.Places, MappedFrom, TwoWay, LiesAt, Front, OneEach, Sized;
    HeapOf(s1);
    HeapOf(s2);
    OwnersLive(s1);
    hide HeapInv;
    TaskIsThere(s2, 0);
  }

  lemma OwnersLive(s: State)
    requires HeapInv(s)
    ensures s.owner.Keys == s.live.Keys
  {
  }

  /** The task of a process just loaded. */
  lemma TaskAt(s0: State, s: State, pid: nat, process: Process, g: Gathering, size: Word)
    requires Inv(s) && Settled(s0, s, pid, process, g) && Loaded(s0, s, pid, process, size, [])
    ensures pid in s.procs && HasTask(s, pid) && TaskPage(s.procs[pid]) == HEAP_PAGE + g.task
    ensures s.procs == s0.procs[pid := s.procs[pid]] && s.procs[pid].directory == process.directory / 4096
  {
    hide Inv, MappedFrom, Gathering.Places, Of, Sized;
    TaskIsThere(s, pid);
  }

  lemma NobodySettled(s: State)
    requires ProcessRuns.Boot(s)
    ensures TailSettled(s) && TwoWay(s, [])
  {
  }

  lemma TwoWaySettled(s: State, order: seq<nat>)
    requires Inv(s) && TwoWay(s, order) && order != []
    ensures TailSettled(s)
  {
    hide Inv, LinkedAt, TailSettled;
    assert order[|order| - 1] in order;
    TaskSettled(s, order[|order| - 1]);
  }

  /** One ELF process more. */
  method LoadOne(table: ProcessTable, pid: nat, n: nat, ghost order: seq<nat>, ghost a: nat, ghost k: nat,
      ghost end: nat)
    returns (ghost g: Gathering)
    requires table.Valid() && pid !in table.processes && 0 < n < 16 && TailSettled(table.state)
    requires Gap(table.state.t, a, k, end) && k + n + 1034 <= end && HasRun(table.state.t, LOAD_ROOM + 2 * n)
    modifies table, table.k, table.k.heap.entries, table.k.ram
    ensures table.Valid() && pid in table.processes
    ensures table.processes == old(table.processes)[pid := table.processes[pid]]
    ensures fresh(table.processes[pid])
    ensures table.processes[pid].isElf && Loaded(old(table.state), table.state, pid, table.processes[pid], n * 4096, [])
    ensures Settled(old(table.state), table.state, pid, table.processes[pid], g)
    ensures LiesAt(g, a, k, n) && Front(table.state.t, k + n + 1034, end)
    ensures TwoWay(old(table.state), order) ==> TwoWay(table.state, order + [pid])
    ensures forall e <- old(table.state).procs :: HasTask(old(table.state), e) &&
              (CarriedButNext(old(table.state), table.state, e) <==>
               LoadSpares(old(table.state), table.state.ends.tail, e))
  {
    hide ProcessTable.Valid, TailSettled, Gap, HasRun, Loaded, Settled, Front, TwoWay, CarriedButNext, LoadSpares;
    FileBlocks(n);
    ShortPathBlocks();
    var res;
    res, g := table.Load(pid, ShortPath(), ElfOf(n), []);
    LoadsFine(n, Address(g.image));
    LoadedAt(old(table.state), table.state, pid, table.processes[pid], g, n, a, k, end);
  }

  /** A of n image blocks, on a heap with nothing in it. */
  method LoadFirst(kernel: Kernel, n: nat) returns (table: ProcessTable, ghost g: Gathering)
    requires kernel.Valid() && kernel.live == map[] && 0 < n < 16
    modifies kernel, kernel.heap.entries, kernel.ram
    ensures fresh(table) && table.k == kernel && table.Valid() && table.processes.Keys == {0}
    ensures fresh(table.processes[0])
    ensures First(table.state, g, n) && TailSettled(table.state)
    ensures Gap(table.state.t, n + 1038, n + 1042, HEAP_BLOCKS) && HasRun(table.state.t, 2000)
  {
    hide ProcessTable.Valid, TailSettled, Gap, HasRun, Front, TwoWay, ProcessRuns.Boot, CarriedButNext, LoadSpares;
    hide Loaded;
    hide Settled, OnlyA, First, LiesAt, Inv, ProcessRuns.Reaches;
    table := new ProcessTable(kernel);
    ghost var s0 := table.state;
    NobodySettled(s0);
    BootIsFront(s0);
    FrontIsGap(s0.t, 0, HEAP_BLOCKS);
    FrontHasRun(s0.t, 0, HEAP_BLOCKS, LOAD_ROOM + 2 * n);
    g := LoadOne(table, 0, n, [], 0, 4, HEAP_BLOCKS);
    ValidIsInv(table);
    assert [] + [0] == [0];
    FirstNow(s0, table.state, table.processes[0], g, n, n * 4096);
  }

  /** A of n image blocks and B of m behind it. */
  method LoadTwo(kernel: Kernel, n: nat, m: nat) returns (table: ProcessTable, ghost s1: State, ghost g: Gathering)
    requires kernel.Valid() && kernel.live == map[] && 0 < n < 16 && 0 < m < 16
    modifies kernel, kernel.heap.entries, kernel.ram
    ensures fresh(table) && table.k == kernel && table.Valid() && table.processes.Keys == {0, 1}
    ensures fresh(table.processes[0]) && fresh(table.processes[1])
    ensures Scene(s1, table.state, [0, 1], g, n, n + m + 2076)
  {
    hide ProcessTable.Valid, TailSettled, Gap, HasRun, Front, TwoWay, CarriedButNext, LoadSpares, Loaded;
    hide Settled, OnlyA, First, LiesAt, Scene, ProcessRuns.Reaches, Represents, Inv;
    table, g := LoadFirst(kernel, n);
    s1 := table.state;
    ListOfFirst(s1, g, n);
    ShorterRun(s1.t, LOAD_ROOM + 2 * m, 2000 - (LOAD_ROOM + 2 * m));
    ghost var h := LoadOne(table, 1, m, [0], n + 1038, n + 1042, HEAP_BLOCKS);
    ValidIsInv(table);
    assert [0] + [1] == [0, 1];
    SceneNow(s1, table.state, g, table.processes[1], h, n, n + m + 2076, m * 4096);
  }

  lemma ListOfFirst(s: State, g: Gathering, n: nat)
    requires First(s, g, n)
    ensures TwoWay(s, [0])
  {
  }

  // ---------------------------------------------------------------- the end of A

  /** A's place is a hole, but for the parsed path; B's `prev` still leads there, and the list has a tail. */
  ghost predicate AfterA(s: State, g: Gathering, n: nat, last: nat) {
    && Inv(s) && Gap(s.t, 0, 7, n + 1038) && HasRun(s.t, 2000) && TailSettled(s)
    && 1 in s.procs && HasTask(s, 1) && PrevOf(s, 1) / 4096 == HEAP_PAGE + g.task && PrevOf(s, 1) != 0
    && last in s.procs && HasTask(s, last) && s.ends.tail == TaskOf(s, last)
  }

  lemma Hole(s1: State, s2: State, s3: State, g: Gathering, n: nat, end: nat)
    requires OnlyA(s1, s2, 0, g) && LiesAt(g, 0, 4, n) && Front(s1.t, n + 1038, HEAP_BLOCKS)
    requires HeapInv(s3) && s3.live == s2.live - Belongings(s2, 0) && s3.owner == s2.owner - Belongings(s2, 0)
    requires Front(s2.t, end, HEAP_BLOCKS) && end + 2000 <= HEAP_BLOCKS
    ensures Gap(s3.t, 0, 7, n + 1038) && HasRun(s3.t, 2000)
  {
    hide LiesAt, OnlyA, Belongings;
    assert HeapInv(s2) by { OnlyAHeap(s1, s2, g); }
    forall i: nat | i < n + 1038 ensures IsFree(s3.t[i]) <==> !(4 <= i < 7) {
      HoleAt(s1, s2, s3, 0, g, n, i);
    }
    forall i: nat | end <= i < end + 2000 ensures IsFree(s3.t[i]) {
      FreeStays(s2, s3, i);
    }
    assert FreeRun(s3.t, end, 2000);
  }

  lemma OnlyAHeap(s1: State, s2: State, g: Gathering)
    requires OnlyA(s1, s2, 0, g)
    ensures HeapInv(s2)
  {
  }

  lemma FreeStays(s2: State, s3: State, i: nat)
    requires HeapInv(s2) && HeapInv(s3) && s3.live == s2.live - Belongings(s2, 0) && i < HEAP_BLOCKS && IsFree(s2.t[i])
    ensures IsFree(s3.t[i])
  {
    TakenIffCovered(s2.t, s2.live, i);
    TakenIffCovered(s3.t, s3.live, i);
    CoveredBefore(s2.live, s3.live, i);
  }

  lemma CoveredBefore(live: Live, after: Live, i: nat)
    requires forall b <- after :: b in live && live[b] == after[b]
    ensures Covered(after, i) ==> Covered(live, i)
  {
    if Covered(after, i) {
      var r :| r in after && r <= i < r + after[r];
      assert r in live && r <= i < r + live[r];
    }
  }

  /** The links of the list when its first task, which has no `prev`, has gone. */
  lemma FirstTaskGone(s2: State, s3: State, order: seq<nat>)
    requires Inv(s2) && TwoWay(s2, order) && 2 <= |order| && order[0] == 0 && order[1] == 1
    ensures 0 in s2.procs && 1 in s2.procs && HasTask(s2, 0) && HasTask(s2, 1) && PrevOf(s2, 0) == 0
    ensures PrevOf(s2, 1) == TaskOf(s2, 0) && IsStart(PrevOf(s2, 0)) && DelistFits(s2, 0)
    ensures var ends := DelistedEnds(s2.ends, TaskOf(s2, 0), NextOf(s2, 0), PrevOf(s2, 0));
      var last := order[|order| - 1];
      last in s2.procs && last != 0 && HasTask(s2, last) && ends.tail == TaskOf(s2, last)
  {
    hide Inv;
    var last := order[|order| - 1];
    assert order[0] in order && order[1] in order && last in order;
    assert LinkedAt(s2, order, 0) && LinkedAt(s2, order, 1);
    TasksApart(s2, 0, last);
  }

  lemma PrevCarried(s: State, s': State, e: nat)
    requires Inv(s) && Inv(s') && Carried(s, s', e) && e in s.procs && e in s'.procs && s'.procs[e] == s.procs[e]
    ensures HasTask(s, e) && HasTask(s', e) && TaskOf(s', e) == TaskOf(s, e)
    ensures PrevOf(s', e) == PrevOf(s, e) && NextOf(s', e) == NextOf(s, e)
  {
    TaskIsThere(s, e);
    HeapOf(s');
    hide HeapInv;
    LinkKept(s, s', e);
  }

  lemma AfterAIs(s1: State, s2: State, s3: State, order: seq<nat>, g: Gathering, n: nat, end: nat)
    requires Scene(s1, s2, order, g, n, end) && end + 2000 <= HEAP_BLOCKS && Gone(s2, s3, 0) && HasTask(s2, 0)
    requires Inv(s3) && forall e <- s2.procs :: e != 0 ==> Carried(s2, s3, e)
    requires s3.ends == DelistedEnds(s2.ends, TaskOf(s2, 0), NextOf(s2, 0), PrevOf(s2, 0))
    ensures 2 <= |order| && AfterA(s3, g, n, order[|order| - 1])
  {
    hide Inv, TwoWay, OnlyA, LiesAt, Front, Carried, DelistedEnds, Gap, HasRun, TailSettled, Belongings, PrevOf, NextOf;
    FirstTaskGone(s2, s3, order);
    HeapOf(s3);
    Hole(s1, s2, s3, g, n, end);
    PrevCarried(s2, s3, 1);
    var last := order[|order| - 1];
    PrevCarried(s2, s3, last);
    TaskSettled(s3, last);
  }

  /** A ends. */
  method EndA(table: ProcessTable, ghost s1: State, ghost order: seq<nat>, ghost g: Gathering, ghost n: nat,
      ghost end: nat)
    requires table.Valid() && 0 in table.processes && Scene(s1, table.state, order, g, n, end)
    requires end + 2000 <= HEAP_BLOCKS
    modifies table, table.k, table.k.heap.entries, table.k.ram, table.processes[0]
    ensures table.Valid() && table.processes == old(table.processes) - {0}
    ensures 2 <= |order| && AfterA(table.state, g, n, order[|order| - 1])
    ensures table.state.procs == old(table.state).procs - {0}
    ensures forall e <- table.state.procs :: Carried(old(table.state), table.state, e)
  {
    hide ProcessTable.Tied, Inv, TwoWay, OnlyA, LiesAt, Front, Carried, DelistedEnds, CarriedButNext, DelistFits;
    hide AfterA, PrevOf, NextOf, ProcessRuns.Reaches;
    ghost var s2 := table.state;
    FirstTaskGone(s2, s2, order);
    FullRecords(s2, 0);
    table.Terminate(0);
    AfterAIs(s1, s2, table.state, order, g, n, end);
  }

  lemma FullRecords(s: State, pid: nat)
    requires Inv(s) && pid in s.procs
    ensures |s.procs[pid].allocations| == SLOTS
  {
    assert ProcOk(s, pid);
  }

  // ---------------------------------------------------------------- a directory in the way

  /** C's directory is where B's stale link leads. */
  ghost predicate InTheWay(s: State) {
    && Inv(s) && 1 in s.procs && 2 in s.procs && HasTask(s, 1)
    && PrevOf(s, 1) != 0 && PrevOf(s, 1) / 4096 == s.procs[2].directory
  }

  lemma LinkBreaksDirectory(s: State)
    requires InTheWay(s)
    ensures IsStart(PrevOf(s, 1)) && !DelistFits(s, 1)
  {
    hide HeapInv;
    TaskIsThere(s, 1);
    HeapOf(s);
    assert ProcOk(s, 2);
    var d := s.procs[2].directory;
    assert WordAt(s.m, d, TASK_NEXT) % 4096 == RW_USER;
    hide Inv;
    assert Needs(s, 2, d);
    AddressIsNoEntry(NextOf(s, 1));
  }

  lemma AddressIsNoEntry(w: Word)
    requires IsStart(w)
    ensures w % 4096 == 0
  {
  }

  lemma ButNextKeepsPrev(s: State, s': State, e: nat)
    requires Inv(s) && Inv(s') && e in s.procs && e in s'.procs && s'.procs[e] == s.procs[e]
    requires 2 <= |s.procs[e].resources| && CarriedButNext(s, s', e)
    ensures HasTask(s, e) && HasTask(s', e) && PrevOf(s', e) == PrevOf(s, e) && TaskOf(s', e) == TaskOf(s, e)
  {
    hide Represents;
    TaskIsThere(s, e);
    TaskIsThere(s', e);
    var p := TaskPage(s.procs[e]);
    HeapOf(s);
    BlockInHeap(s, p - HEAP_PAGE);
    assert SameButNext(s.m, s'.m, p);
  }

  /** Loading C, when B's own task is the tail: B keeps its `prev`. */
  lemma LoadKeepsPrev(s: State, s': State, v: Word)
    requires Inv(s) && Inv(s') && 1 in s.procs && 1 in s'.procs && s'.procs[1] == s.procs[1] && HasTask(s, 1)
    requires s.ends.tail == TaskOf(s, 1) && (CarriedButNext(s, s', 1) <==> LoadSpares(s, v, 1))
    ensures HasTask(s', 1) && PrevOf(s', 1) == PrevOf(s, 1)
  {
    hide Inv, PrevOf;
    TaskInNoOther(s, 1, 1);
    ButNextKeepsPrev(s, s', 1);
  }

  lemma NowInTheWay(s3: State, s4: State, g: Gathering, process: Process, h: Gathering, size: Word)
    requires AfterA(s3, g, 5, 1) && Inv(s4) && Settled(s3, s4, 2, process, h) && Loaded(s3, s4, 2, process, size, [])
    requires LiesAt(g, 0, 4, 5) && LiesAt(h, 0, 7, 1) && HasTask(s4, 1) && PrevOf(s4, 1) == PrevOf(s3, 1)
    ensures InTheWay(s4)
  {
    hide Inv, MappedFrom, Gathering.Places, Of, Sized, Gap, HasRun, TailSettled, PrevOf;
    TaskAt(s3, s4, 2, process, h, size);
    assert h.space[0] == g.task;
  }

  lemma AfterAGives(s: State, g: Gathering, n: nat, last: nat)
    requires AfterA(s, g, n, last)
    ensures Inv(s) && Gap(s.t, 0, 7, n + 1038) && HasRun(s.t, 2000) && TailSettled(s)
    ensures 1 in s.procs && HasTask(s, 1) && last in s.procs && HasTask(s, last) && s.ends.tail == TaskOf(s, last)
  {
  }

  lemma SceneGives(s1: State, s2: State, order: seq<nat>, g: Gathering, n: nat, end: nat)
    requires Scene(s1, s2, order, g, n, end)
    ensures LiesAt(g, 0, 4, n) && Inv(s2)
  {
  }

  /** After A of five image blocks has gone, first fit puts the page directory of C, of one image block, where
      A's task was; and when B ends, an entry of that directory becomes the address of C's task. */
  method BreaksDirectory(kernel: Kernel) returns (table: ProcessTable)
    requires kernel.Valid() && kernel.live == map[]
    modifies kernel, kernel.heap.entries, kernel.ram
    ensures fresh(table) && table.Tied() && !table.Valid()
  {
    hide ProcessTable.Tied, Inv, TwoWay, OnlyA, LiesAt, Front, Carried, CarriedButNext, DelistFits, AfterA, Scene;
    hide LoadSpares, Loaded, Settled, InTheWay, Gap, HasRun, TailSettled, PrevOf, ProcessRuns.Reaches;
    ghost var s1, g;
    table, s1, g := LoadTwo(kernel, 5, 1);
    ghost var s2 := table.state;
    SceneGives(s1, s2, [0, 1], g, 5, 2082);
    EndA(table, s1, [0, 1], g, 5, 2082);
    ghost var s3 := table.state;
    AfterAGives(s3, g, 5, 1);
    ShorterRun(s3.t, LOAD_ROOM + 2, 2000 - (LOAD_ROOM + 2));
    ghost var h := LoadOne(table, 2, 1, [], 0, 7, 1043);
    ghost var s4 := table.state;
    ValidIsInv(table);
    TaskAt(s3, s4, 2, table.processes[2], h, 4096);
    LoadKeepsPrev(s3, s4, s4.ends.tail);
    NowInTheWay(s3, s4, g, table.processes[2], h, 4096);
    LinkBreaksDirectory(s4);
    FullRecords(s4, 1);
    table.Terminate(1);
  }

  // ---------------------------------------------------------------- memory in the way

  lemma SceneMore(s1: State, s2: State, s3: State, g: Gathering, n: nat, end: nat, c: Process, h: Gathering, size: Word)
    requires Scene(s1, s2, [0, 1], g, n, end) && Inv(s3) && Settled(s2, s3, 2, c, h) && Loaded(s2, s3, 2, c, size, [])
    requires TwoWay(s3, [0, 1, 2]) && Front(s3.t, end + 1039, HEAP_BLOCKS)
    ensures Scene(s1, s3, [0, 1, 2], g, n, end + 1039) && 2 in s3.procs && s3.procs[2].allocations == NoAllocations()
  {
    hide Represents, Inv, Of, Gathering.Places, MappedFrom, TwoWay, LiesAt, Front, OneEach, Sized;
    HeapOf(s2);
    HeapOf(s3);
    OwnersLive(s2);
    hide HeapInv;
    TaskIsThere(s3, 0);
  }

  lemma SceneRoom(s1: State, s2: State, g: Gathering, n: nat, end: nat)
    requires Scene(s1, s2, [0, 1], g, n, end) && end + 2000 <= HEAP_BLOCKS
    ensures TailSettled(s2) && Gap(s2.t, end, end + 4, HEAP_BLOCKS) && HasRun(s2.t, 2000) && TwoWay(s2, [0, 1])
  {
    hide Inv, TwoWay, OnlyA, LiesAt, Front, TailSettled, Gap, HasRun;
    TwoWaySettled(s2, [0, 1]);
    FrontIsGap(s2.t, end, HEAP_BLOCKS);
    FrontHasRun(s2.t, end, HEAP_BLOCKS, 2000);
  }

  // ---------------------------------------------------------------- asking for a certain block

  /** The records from i on are unused, and so are all blocks below i taken. */
  ghost predicate Asked(s: State, pid: nat, i: nat) {
    && pid in s.procs && |s.procs[pid].allocations| == SLOTS && i <= SLOTS && |s.t| == HEAP_BLOCKS
    && (forall j | 0 <= j < i :: s.procs[pid].allocations[j].ptr != 0)
    && (forall j | i <= j < SLOTS :: s.procs[pid].allocations[j].ptr == 0)
    && (forall j: nat | j < i && j < HEAP_BLOCKS :: !IsFree(s.t[j]))
  }

  /** First fit gives out the least free block. */
  lemma LeastFree(t: seq<Entry>, x: nat, i: nat)
    requires x < |t| && IsFree(t[x]) && forall j: nat | j < i && j < |t| :: !IsFree(t[j])
    ensures var b := StartBlock(t, 1);
      && i <= b <= x && FreeRun(t, b, 1) && (forall j: nat | j < b :: !IsFree(t[j]))
      && (forall j: nat | j <= b :: !IsFree(MarkTaken(t, b, 1)[j]))
      && (forall j: nat | b < j < |t| :: MarkTaken(t, b, 1)[j] == t[j])
  {
    assert FreeRun(t, x, 1);
    ScanFitsIff(t, 1);
    var b := StartBlock(t, 1);
    RunEntryBits(0, 1);
    forall j: nat | j < b ensures !IsFree(t[j]) {
      assert !FreeRun(t, j, 1);
    }
    assert IsFree(t[b]);
  }

  lemma AskOnce(s: State, s': State, pid: nat, i: nat, x: nat, ptr: Word)
    requires CanMalloc(s, pid, 4096) && s' == AfterMalloc(s, pid, 4096) && ptr == MallocResult(s, pid, 4096)
    requires Asked(s, pid, i) && i < SLOTS && i <= x < HEAP_BLOCKS && IsFree(s.t[x])
    ensures Asked(s', pid, i + 1) && i <= ptr / 4096 - HEAP_PAGE <= x && ptr % 4096 == 0
    ensures s'.procs[pid].allocations[i].ptr == ptr
    ensures ptr / 4096 - HEAP_PAGE == x || (IsFree(s'.t[x]) && i + 1 <= x)
  {
    hide Inv, Represents, MapPages, Changed, LiveKept;
    assert Blocks(4096) == 1;
    LeastFree(s.t, x, i);
    ScanGivesRun(s, pid, 4096);
    var b := StartBlock(s.t, 1);
    assert s.procs[pid].allocations[i].ptr == 0;
    var f := FirstSlot(s.procs[pid].allocations, 0, 0);
    assert f == i;
    assert s'.t == MarkTaken(s.t, b, 1);
  }

  lemma CanAsk(s: State, pid: nat)
    requires Inv(s) && pid in s.procs
    ensures CanMalloc(s, pid, 4096)
  {
    hide Inv;
    assert Blocks(4096) == 1;
    PathParser.OneIsSound(s.t);
  }

  /** A process that keeps asking for single pages is given every free block in the end, if it has as many
      records as there are blocks before it. */
  method TakeBlock(table: ProcessTable, pid: nat, x: nat)
    requires table.Valid() && pid in table.processes && Asked(table.state, pid, 0) && x < SLOTS
    requires IsFree(table.state.t[x])
    modifies table`owner, table`state, table.k, table.k.heap.entries, table.k.ram, table.processes[pid]
    ensures table.Valid() && table.processes == old(table.processes)
    ensures table.state.procs.Keys == old(table.state).procs.Keys && table.state.ends == old(table.state).ends
    ensures forall e <- old(table.state).procs :: e != pid ==>
              table.state.procs[e] == old(table.state).procs[e] && Carried(old(table.state), table.state, e)
    ensures x in table.state.owner && x in table.state.live && 0 < table.state.live[x]
    ensures table.state.owner[x].Memory? && table.state.owner[x].pid == pid
  {
    hide ProcessTable.Tied, Inv, Carried, AfterMalloc, MallocResult, ProcessRuns.Reaches;
    ghost var s0 := table.state;
    SelfSince(s0, pid);
    var i := 0;
    var found := false;
    while !found
      invariant table.Valid() && table.processes == old(table.processes) && Others(s0, table.state, pid)
      invariant Asked(table.state, pid, i)
      invariant if found then 0 < i && table.state.procs[pid].allocations[i - 1].ptr == (HEAP_PAGE + x) * 4096
                else i <= x && IsFree(table.state.t[x])
      decreases if found then 0 else 1 + x - i
    {
      ghost var s := table.state;
      ValidIsInv(table);
      CanAsk(s, pid);
      var ptr := table.Malloc(pid, 4096);
      AskOnce(s, table.state, pid, i, x, ptr);
      OthersOn(s0, s, table.state, pid);
      i := i + 1;
      found := ptr == (HEAP_PAGE + x) * 4096;
    }
    ValidIsInv(table);
    Recorded(table.state, pid, i - 1, x);
  }

  /** The other processes, and the list's ends, are as they were. */
  ghost predicate Others(s0: State, s: State, pid: nat) {
    && s.procs.Keys == s0.procs.Keys && s.ends == s0.ends
    && forall e <- s0.procs :: e != pid ==> s.procs[e] == s0.procs[e] && Carried(s0, s, e)
  }

  lemma SelfSince(s: State, pid: nat)
    requires Inv(s)
    ensures Others(s, s, pid)
  {
    hide Inv, Carried;
    HeapOf(s);
    forall e | e in s.procs { SelfCarried(s, e); }
  }

  lemma OthersOn(s0: State, s: State, s': State, pid: nat)
    requires Others(s0, s, pid) && CanMalloc(s, pid, 4096) && s' == AfterMalloc(s, pid, 4096)
    ensures Others(s0, s', pid)
  {
    hide Inv, Carried, AfterMalloc;
    ProcessGrants.MallocKeeps(s, pid, 4096);
    AskLeaves(s, pid);
    forall e | e in s0.procs && e != pid ensures Carried(s0, s', e) {
      ProcessGrants.KeptCarries(s, s', pid, e);
      CarriedTwice(s0, s, s', e);
    }
  }

  lemma AskLeaves(s: State, pid: nat)
    requires CanMalloc(s, pid, 4096)
    ensures var s' := AfterMalloc(s, pid, 4096);
      s'.procs.Keys == s.procs.Keys && s'.ends == s.ends
      && forall e <- s.procs :: e != pid ==> s'.procs[e] == s.procs[e]
  {
    hide Inv, Represents, MapPages, Changed;
  }

  lemma Recorded(s: State, pid: nat, i: nat, x: nat)
    requires Inv(s) && Asked(s, pid, i + 1) && x < HEAP_BLOCKS
    requires s.procs[pid].allocations[i].ptr == (HEAP_PAGE + x) * 4096
    ensures x in s.owner && x in s.live && s.owner[x].Memory? && s.owner[x].pid == pid && 0 < s.live[x]
  {
    SlotInUse(s, pid, i);
  }

  /** C's own page is where B's stale link leads, and it holds what no link is. */
  ghost predicate InMemoryWay(s: State, x: nat) {
    && Inv(s) && 1 in s.procs && 2 in s.procs && HasTask(s, 1) && PrevOf(s, 1) != 0
    && PrevOf(s, 1) / 4096 == HEAP_PAGE + x && x in s.owner && x in s.live && 0 < s.live[x]
    && s.owner[x].Memory? && s.owner[x].pid == 2
    && InMemory(s.m, HEAP_PAGE + x) && WordAt(s.m, HEAP_PAGE + x, TASK_NEXT) == 7
  }

  lemma LinkHitsMemory(s: State, x: nat)
    requires InMemoryWay(s, x)
    ensures IsStart(PrevOf(s, 1)) && HasTask(s, 2) && !DelistSpares(s, 1, 2) && DelistFits(s, 1)
  {
    hide HeapInv, RoleOk, ProcOk;
    TaskIsThere(s, 1);
    TaskIsThere(s, 2);
    HeapOf(s);
    forall e | e in s.procs ensures !Needs(s, e, HEAP_PAGE + x) { MemoryNotNeeded(s, x, e); }
    hide Inv;
    AddressIsNoEntry(NextOf(s, 1));
    assert PageOf(s, 2, x, HEAP_PAGE + x);
  }

  /** Memory given to a process is no directory and no page table. */
  lemma MemoryNotNeeded(s: State, b: nat, e: nat)
    requires Inv(s) && b in s.owner && s.owner[b].Memory? && e in s.procs
    ensures !Needs(s, e, HEAP_PAGE + b)
  {
    hide Represents, ResourcesOk, SlotOk;
    assert ProcOk(s, e);
    forall i: nat | i < ENTRIES ensures TablePage(s.m, s.procs[e].directory, i) != HEAP_PAGE + b {
      assert OwnPage(s, TablePage(s.m, s.procs[e].directory, i), Table(e, i));
    }
  }

  lemma CanStoreThere(s: State, x: nat)
    requires Inv(s) && x in s.live && 0 < s.live[x]
    ensures var w := (HEAP_PAGE + x) * 1024 + TASK_NEXT;
      && (HEAP_PAGE + x) * 1024 <= w < (HEAP_PAGE + x + s.live[x]) * 1024 && w < |s.m| && InMemory(s.m, HEAP_PAGE + x)
      && InMemory(s.m[w := 7], HEAP_PAGE + x) && WordAt(s.m[w := 7], HEAP_PAGE + x, TASK_NEXT) == 7
  {
    hide Represents;
    HeapOf(s);
    BlockInHeap(s, x);
  }

  /** A, B and C, each of one image block; then A ends.  Its task was block 12. */
  method LoadThree(kernel: Kernel) returns (table: ProcessTable)
    requires kernel.Valid() && kernel.live == map[]
    modifies kernel, kernel.heap.entries, kernel.ram
    ensures fresh(table) && table.k == kernel && table.Valid() && table.processes.Keys == {1, 2}
    ensures fresh(table.processes[1]) && fresh(table.processes[2])
    ensures Asked(table.state, 2, 0) && IsFree(table.state.t[12])
    ensures 1 in table.state.procs && 2 in table.state.procs && HasTask(table.state, 1)
    ensures PrevOf(table.state, 1) != 0 && PrevOf(table.state, 1) / 4096 == HEAP_PAGE + 12
  {
    hide ProcessTable.Tied, Inv, TwoWay, OnlyA, LiesAt, Front, Carried, CarriedButNext, AfterA, Scene, Asked;
    hide LoadSpares, Loaded, Settled, Gap, HasRun, TailSettled, PrevOf, ProcessRuns.Reaches;
    ghost var s1, g;
    table, s1, g := LoadTwo(kernel, 1, 1);
    ghost var s2 := table.state;
    SceneRoom(s1, s2, g, 1, 2078);
    ShorterRun(s2.t, LOAD_ROOM + 2, 2000 - (LOAD_ROOM + 2));
    ghost var h := LoadOne(table, 2, 1, [0, 1], 2078, 2082, HEAP_BLOCKS);
    ghost var s3 := table.state;
    ValidIsInv(table);
    assert [0, 1] + [2] == [0, 1, 2];
    SceneMore(s1, s2, s3, g, 1, 2078, table.processes[2], h, 4096);
    EndA(table, s1, [0, 1, 2], g, 1, 3117);
    SceneTask(s1, s3, g);
    HoleAsks(s3, table.state, g);
  }

  lemma SceneTask(s1: State, s2: State, g: Gathering)
    requires Scene(s1, s2, [0, 1, 2], g, 1, 3117)
    ensures g.task == 12
  {
    hide Inv, TwoWay, OnlyA, Front;
  }

  lemma HoleAsks(s3: State, s4: State, g: Gathering)
    requires AfterA(s4, g, 1, 2) && g.task == 12 && s4.procs == s3.procs - {0}
    requires 2 in s3.procs && s3.procs[2].allocations == NoAllocations()
    ensures Asked(s4, 2, 0) && IsFree(s4.t[12])
    ensures 1 in s4.procs && 2 in s4.procs && HasTask(s4, 1)
    ensures PrevOf(s4, 1) != 0 && PrevOf(s4, 1) / 4096 == HEAP_PAGE + 12
  {
    hide HasRun, TailSettled, PrevOf;
    FullRecords(s4, 2);
    HeapOf(s4);
    hide Inv, HeapInv;
  }

  /** After A has gone, C asks for single pages until it has the block where A's task was, and stores something
      there; and when B ends, that is overwritten with the address of C's task. */
  method OverwritesMemory(kernel: Kernel) returns (table: ProcessTable, ghost before: State)
    requires kernel.Valid() && kernel.live == map[]
    modifies kernel, kernel.heap.entries, kernel.ram
    ensures fresh(table) && table.Valid() && Inv(before) && Gone(before, table.state, 1)
    ensures 2 in before.procs && HasTask(before, 2) && !CarriedButNext(before, table.state, 2)
  {
    hide ProcessTable.Tied, Inv, Carried, CarriedButNext, DelistFits, Gone, InMemoryWay;
    hide PrevOf, ProcessRuns.Reaches, DelistSpares, Asked;
    table := LoadThree(kernel);
    ghost var s3 := table.state;
    TakeBlock(table, 2, 12);
    ghost var s4 := table.state;
    ValidIsInv(table);
    CanStoreThere(s4, 12);
    table.StoreWord((HEAP_PAGE + 12) * 1024 + TASK_NEXT, 7, 12, 2);
    before := table.state;
    ValidIsInv(table);
    StillInTheWay(s3, s4, before, 12);
    LinkHitsMemory(before, 12);
    FullRecords(before, 1);
    InMemoryGives(before, 12);
    table.Terminate(1);
    OthersAreThere(before, table.state, 1, 2);
  }

  lemma OthersAreThere(s: State, s': State, pid: nat, e: nat)
    requires Gone(s, s', pid) && e in s.procs && e != pid
    ensures e in s'.procs
  {
  }

  lemma StillInTheWay(s3: State, s4: State, s5: State, x: nat)
    requires Inv(s3) && Inv(s4) && Inv(s5) && 1 in s3.procs && HasTask(s3, 1) && PrevOf(s3, 1) != 0
    requires PrevOf(s3, 1) / 4096 == HEAP_PAGE + x && s4.procs.Keys == s3.procs.Keys && s4.procs[1] == s3.procs[1]
    requires Carried(s3, s4, 1) && Carried(s4, s5, 1) && 2 in s4.procs
    requires x in s4.owner && x in s4.live && 0 < s4.live[x] && s4.owner[x].Memory? && s4.owner[x].pid == 2
    requires s5 == s4.(m := s5.m) && InMemory(s5.m, HEAP_PAGE + x) && WordAt(s5.m, HEAP_PAGE + x, TASK_NEXT) == 7
    ensures InMemoryWay(s5, x)
  {
    hide Inv, Carried, PrevOf, NextOf;
    PrevCarried(s3, s4, 1);
    PrevCarried(s4, s5, 1);
  }

  lemma InMemoryGives(s: State, x: nat)
    requires InMemoryWay(s, x)
    ensures 1 in s.procs && 2 in s.procs && Inv(s)
  {
  }

  lemma ValidIsInv(table: ProcessTable)
    requires table.Valid()
    ensures Inv(table.state) && table.Tied()
  {
  }
}
