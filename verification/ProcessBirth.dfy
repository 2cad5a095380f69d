/** The birth of a process: kernel blocks gathered one by one, then handed over together. */
module ProcessBirth {
  import opened Machine
  import opened HeapTable
  import opened PageTables
  import opened KernelMemory
  import opened AddressSpace
  import opened ProcessState
  import opened ProcessMemory
  import opened ProcessLife

  // ---------------------------------------------------------------- kernel allocations

  ghost predicate CanAllocate(s: State, size: Word) {
    Inv(s) && 0 < Blocks(size) && Sound(s.t, Blocks(size))
  }

  /** kzalloc on the kernel's own behalf. */
  ghost function AfterKernelMalloc(s: State, size: Word): State
    requires CanAllocate(s, size)
  {
    var b := StartBlock(s.t, Blocks(size));
    if b < 0 then s
    else
      ScanFitsIff(s.t, Blocks(size));
      Zalloced(s, size, b).(owner := s.owner[b := Role.Kernel])
  }

  lemma KernelMallocCarries(s: State, size: Word, b: nat)
    requires HeapInv(s) && 0 < Blocks(size) && FreeRun(s.t, b, Blocks(size))
    ensures b < HEAP_BLOCKS && b !in s.live
    ensures var s' := Zalloced(s, size, b).(owner := s.owner[b := Role.Kernel]);
      HeapInv(s') && (forall e :: Carried(s, s', e)) && (forall c <- s.live :: c in s'.live && s'.live[c] == s.live[c])
  {
    ZeroKeepsLive(s, b, size);
    MarkTakenRepresents(s.t, s.live, b, Blocks(size));
  }

  lemma KernelMallocKeepsInv(s: State, size: Word)
    requires CanAllocate(s, size)
    ensures Inv(AfterKernelMalloc(s, size))
  {
    hide Represents, Carried, ProcOk, RoleOk;
    var b := StartBlock(s.t, Blocks(size));
    if 0 <= b {
      ScanFitsIff(s.t, Blocks(size));
      KernelMallocCarries(s, size, b);
      KernelStepKeepsInv(s, AfterKernelMalloc(s, size));
    }
  }

  /** kfree of one of the kernel's own blocks. */
  ghost function AfterKernelFree(s: State, b: nat): State {
    s.(t := MarkFree(s.t, b), live := s.live - {b}, owner := s.owner - {b})
  }

  lemma KernelFreeCarries(s: State, b: nat)
    requires HeapInv(s) && b in s.owner && s.owner[b] == Role.Kernel
    ensures HeapInv(AfterKernelFree(s, b)) && forall e :: Carried(s, AfterKernelFree(s, b), e)
  {
    MarkFreeRepresents(s.t, s.live, b);
    forall c | c in s.owner { BlockInHeap(s, c); }
  }

  lemma KernelFreeKeepsInv(s: State, b: nat)
    requires Inv(s) && b in s.owner && s.owner[b] == Role.Kernel
    ensures Inv(AfterKernelFree(s, b))
  {
    hide Represents, Carried, ProcOk, RoleOk;
    KernelFreeCarries(s, b);
    KernelStepKeepsInv(s, AfterKernelFree(s, b));
  }

  /** Some account of the blocks fits the processes as they are and the table after a kfree of block b. */
  ghost predicate ConsistentAfterFree(s: State, b: nat) {
    exists live, owner :: Inv(State(MarkFree(s.t, b), live, owner, s.m, s.procs, s.ends))
  }

  /** The kernel's kfree keeps heap and processes consistent if and only if its block is not inside an
      allocation and not the start of one that a process has. */
  lemma KernelFreeKeepsInvIff(s: State, b: nat)
    requires Inv(s)
    ensures ConsistentAfterFree(s, b) <==> !Interior(s.live, b) && (b in s.owner ==> s.owner[b] == Role.Kernel)
  {
    hide Represents, ProcOk, RoleOk, Interior;
    if ConsistentAfterFree(s, b) {
      var live, owner :| Inv(State(MarkFree(s.t, b), live, owner, s.m, s.procs, s.ends));
      assert WellFormed(MarkFree(s.t, b));
      FreeKeepsTableIff(s.t, s.live, b);
      if b in s.owner {
        MarkFreeRepresents(s.t, s.live, b);
        LiveUnique(MarkFree(s.t, b), live, s.live - {b});
        if s.owner[b] != Role.Kernel {
          StillAccountedFor(s, State(MarkFree(s.t, b), live, owner, s.m, s.procs, s.ends), b);
        }
      }
    }
    if b in s.owner && s.owner[b] == Role.Kernel {
      KernelFreeKeepsInv(s, b);
    } else if b !in s.owner && !Interior(s.live, b) {
      FreeOutside(s.t, s.live, b);
      assert s == State(MarkFree(s.t, b), s.live, s.owner, s.m, s.procs, s.ends);
    }
  }

  lemma FreeOutside(t: seq<Entry>, live: Live, b: nat)
    requires Represents(t, live) && b !in live && !Interior(live, b)
    ensures MarkFree(t, b) == t
  {
    FreeOfFreeBlock(t, live, b);
  }

  /** With the same memory and records, only the kernel's blocks can be accounted for differently. */
  lemma StillAccountedFor(s: State, s': State, b: nat)
    requires Inv(s) && Inv(s') && s'.m == s.m && s'.procs == s.procs && b in s.owner && s.owner[b] != Role.Kernel
    ensures b in s'.owner
  {
    hide Represents, ProcOk;
    assert RoleOk(s, b);
    var pid := s.owner[b].pid;
    assert ProcOk(s, pid) && ProcOk(s', pid);
    hide Inv;
    if s.owner[b].Memory? || s.owner[b].Resource? {
      RecordTells(s, s', pid, b);
    } else {
      DirectoryTells(s, s', pid, b);
    }
  }

  lemma DirectoryTells(s: State, s': State, pid: nat, b: nat)
    requires HeapInv(s) && HeapInv(s') && s'.m == s.m && s'.procs == s.procs && pid in s.procs && ProcOk(s', pid)
    requires b in s.owner && RoleOk(s, b)
    requires s.owner[b] == Directory(pid) || s.owner[b] == Chunk(pid) || (s.owner[b].Table? && s.owner[b].pid == pid)
    ensures b in s'.owner
  {
    hide HeapInv, ResourcesOk, SlotOk;
    if s.owner[b].Table? {
      assert OwnPage(s', TablePage(s.m, s.procs[pid].directory, s.owner[b].index), Table(pid, s.owner[b].index));
    }
  }

  lemma RecordTells(s: State, s': State, pid: nat, b: nat)
    requires HeapInv(s) && HeapInv(s') && s'.procs == s.procs && pid in s.procs && ProcOk(s', pid)
    requires b in s.owner && RoleOk(s, b)
    requires (s.owner[b].Memory? || s.owner[b].Resource?) && s.owner[b].pid == pid
    ensures b in s'.owner
  {
    hide HeapInv, DirectoryOk, MappedForUser;
    if s.owner[b].Memory? {
      assert SlotOk(s', pid, s.owner[b].slot);
    } else {
      assert ResourceOk(s', pid, s.owner[b].index);
    }
  }

  // ---------------------------------------------------------------- room

  lemma RunIsRoom(t: seq<Entry>, n: nat)
    requires HasRun(t, n)
    ensures n <= |FreeBlocks(t)|
  {
    var s :| FreeRun(t, s, n);
    SubsetSize(Range(s, n), FreeBlocks(t));
  }

  ghost function Range(s: nat, n: nat): (r: set<nat>)
    ensures forall i :: i in r <==> s <= i < s + n
    ensures |r| == n
  {
    if n == 0 then {} else Range(s, n - 1) + {s + n - 1}
  }

  lemma {:induction false} SubsetSize<T>(a: set<T>, b: set<T>)
    requires a <= b
    ensures |a| <= |b|
    decreases |a|
  {
    if a != {} {
      var x :| x in a;
      SubsetSize(a - {x}, b - {x});
    }
  }

  // ---------------------------------------------------------------- gathering

  /** s was reached from s0 by allocations of the kernel alone, of exactly these blocks. */
  ghost predicate Gathered(s0: State, s: State, blocks: seq<nat>) {
    && Distinct(blocks) && s.procs == s0.procs && s.ends == s0.ends && OldBlocksKept(s0, s)
    && (forall b | b in blocks :: b !in s0.owner && b in s.owner && s.owner[b] == Role.Kernel)
    && (forall b <- s.owner :: b in blocks || (b in s0.owner && s.owner[b] == s0.owner[b]))
    && (forall b <- s0.owner :: b in s.owner)
  }

  /** Allocations that were live before still are, and no process's pages have changed. */
  ghost predicate OldBlocksKept(s0: State, s: State) {
    (forall b <- s0.live :: b in s.live && s.live[b] == s0.live[b]) && forall e <- s0.procs :: Carried(s0, s, e)
  }

  lemma OldBlocksKeptTwice(s0: State, s: State, s': State)
    requires OldBlocksKept(s0, s) && OldBlocksKept(s, s') && s.procs == s0.procs
    ensures OldBlocksKept(s0, s')
  {
    forall e | e in s0.procs ensures Carried(s0, s', e) { CarriedTwice(s0, s, s', e); }
  }

  lemma GatherNone(s: State)
    requires HeapInv(s)
    ensures Gathered(s, s, [])
  {
    forall e | e in s.procs ensures Carried(s, s, e) { RelabelledCarried(s, s, e); }
  }

  lemma GatherOne(s0: State, s: State, blocks: seq<nat>, s': State, b: nat)
    requires Gathered(s0, s, blocks) && b !in s.owner && s'.procs == s.procs && s'.owner == s.owner[b := Role.Kernel]
    requires OldBlocksKept(s, s') && s'.ends == s.ends
    ensures Gathered(s0, s', blocks + [b])
  {
    OldBlocksKeptTwice(s0, s, s');
    hide OldBlocksKept;
    var more := blocks + [b];
    forall i, j | 0 <= i < j < |more| ensures more[i] != more[j] {
      assert more[i] == blocks[i] && blocks[i] in blocks;
    }
  }

  lemma GatherMany(s0: State, s: State, blocks: seq<nat>, s': State, new_: seq<nat>)
    requires Gathered(s0, s, blocks) && Distinct(new_) && (forall b | b in new_ :: b !in s.owner)
    requires s'.procs == s.procs && s'.owner == s.owner + map b | b in new_ :: Role.Kernel
    requires OldBlocksKept(s, s') && s'.ends == s.ends
    ensures Gathered(s0, s', blocks + new_)
  {
    OldBlocksKeptTwice(s0, s, s');
    hide OldBlocksKept;
    var more := blocks + new_;
    forall i, j | 0 <= i < j < |more| ensures more[i] != more[j] {
      if i < |blocks| {
        assert more[i] in blocks;
        if |blocks| <= j { assert more[j] == new_[j - |blocks|] && more[j] in new_; }
      } else {
        assert more[i] == new_[i - |blocks|] && more[j] == new_[j - |blocks|];
      }
    }
  }

  /** The state after paging_new_4gb on the kernel's behalf. */
  ghost function AfterCreation(s: State, t: seq<Entry>, live: Live, m: Memory, new_: seq<nat>): State {
    State(t, live, s.owner + map b | b in new_ :: Role.Kernel, m, s.procs, s.ends)
  }

  lemma CreationCarries(s: State, t: seq<Entry>, live: Live, m: Memory, new_: seq<nat>)
    requires HeapInv(s) && Represents(t, live) && |t| == HEAP_BLOCKS
    requires FreshBlocks(s.live, new_) && live == WithBlocks(s.live, new_) && OnlyBlocks(s.m, m, new_)
    ensures HeapInv(AfterCreation(s, t, live, m, new_)) && OldBlocksKept(s, AfterCreation(s, t, live, m, new_))
  {
    hide Represents, SamePage;
    var s' := AfterCreation(s, t, live, m, new_);
    assert s'.owner.Keys == s'.live.Keys;
    forall b, p: nat | b in s.live && HEAP_PAGE + b <= p < HEAP_PAGE + b + s.live[b] ensures SamePage(s.m, m, p) {
      BlockInHeap(s, b);
      if p - HEAP_PAGE in new_ {
        PageOfOne(s', b, p - HEAP_PAGE, p);
      }
    }
  }

  lemma CreationKeepsInv(s: State, t: seq<Entry>, live: Live, m: Memory, new_: seq<nat>)
    requires Inv(s) && Represents(t, live) && |t| == HEAP_BLOCKS
    requires FreshBlocks(s.live, new_) && live == WithBlocks(s.live, new_) && OnlyBlocks(s.m, m, new_)
    ensures Inv(AfterCreation(s, t, live, m, new_))
  {
    hide Represents, Carried, ProcOk, RoleOk, OnlyBlocks, FreshBlocks;
    CreationCarries(s, t, live, m, new_);
    KernelStepKeepsInv(s, AfterCreation(s, t, live, m, new_));
  }

  /** The table after each of these blocks was taken on its own. */
  ghost function MarkEach(t: seq<Entry>, blocks: seq<nat>): (u: seq<Entry>)
    ensures |u| == |t|
    decreases |blocks|
  {
    if blocks == [] then t else MarkEach(MarkTaken(t, blocks[0], 1), blocks[1..])
  }

  /** Different free blocks, as the bytes of the table say. */
  ghost predicate FreeEach(t: seq<Entry>, blocks: seq<nat>) {
    Distinct(blocks) && forall b | b in blocks :: b < |t| && IsFree(t[b])
  }

  /** Taking free blocks one by one adds exactly them to the live allocations. */
  lemma {:induction false} MarkEachRepresents(t: seq<Entry>, live: Live, blocks: seq<nat>)
    requires Represents(t, live) && FreeEach(t, blocks)
    ensures Represents(MarkEach(t, blocks), WithBlocks(live, blocks))
    ensures forall b | b in blocks :: b !in live
    decreases |blocks|
  {
    hide Represents, MarkTaken, IsFree, Distinct;
    if blocks == [] {
      assert WithBlocks(live, blocks) == live;
    } else {
      var b, rest := blocks[0], blocks[1..];
      RestFree(t, blocks);
      OneMarked(t, live, b);
      MarkEachRepresents(MarkTaken(t, b, 1), live[b := 1], rest);
      assert WithBlocks(live[b := 1], rest) == WithBlocks(live, blocks);
    }
  }

  lemma RestFree(t: seq<Entry>, blocks: seq<nat>)
    requires FreeEach(t, blocks) && blocks != []
    ensures blocks[0] < |t| && IsFree(t[blocks[0]])
    ensures Distinct(blocks[1..]) && forall c | c in blocks[1..] :: c in blocks && c != blocks[0]
  {
    hide IsFree;
    assert blocks[0] in blocks;
    forall c | c in blocks[1..] ensures c in blocks && c != blocks[0] {
      var i :| 0 <= i < |blocks[1..]| && blocks[1..][i] == c;
      assert blocks[i + 1] == c;
    }
  }

  lemma OneMarked(t: seq<Entry>, live: Live, b: nat)
    requires Represents(t, live) && b < |t| && IsFree(t[b])
    ensures Represents(MarkTaken(t, b, 1), live[b := 1]) && b !in live
    ensures forall c | 0 <= c < |t| && c != b :: MarkTaken(t, b, 1)[c] == t[c]
  {
    assert FreeRun(t, b, 1);
    MarkTakenRepresents(t, live, b, 1);
    TakenIffCovered(t, live, b);
    assert b in live ==> Covered(live, b);
  }

  /** A table that encodes some new one-block allocations besides is that one. */
  lemma MarkedTable(t: seq<Entry>, live: Live, u: seq<Entry>, blocks: seq<nat>)
    requires Represents(t, live) && |t| == |u| == HEAP_BLOCKS && FreshBlocks(live, blocks)
    requires Represents(u, WithBlocks(live, blocks))
    ensures FreeEach(t, blocks) && u == MarkEach(t, blocks)
  {
    forall b | b in blocks ensures IsFree(t[b]) {
      TakenIffCovered(t, live, b);
      forall s | s in live && s <= b < s + live[s] ensures false {
        LiveDisjoint(u, WithBlocks(live, blocks), s, b);
      }
    }
    MarkEachRepresents(t, live, blocks);
    TableUnique(u, MarkEach(t, blocks), WithBlocks(live, blocks));
  }

  /** Table i of a finished address space. */
  ghost predicate SpaceTable(s: State, new_: seq<nat>, i: nat, flags: nat)
    requires i < ENTRIES && |new_| == ENTRIES + 2
  {
    InMemory(s.m, HEAP_PAGE + new_[0]) && TablePage(s.m, HEAP_PAGE + new_[0], i) == HEAP_PAGE + new_[i + 1]
    && WordAt(s.m, HEAP_PAGE + new_[0], i) % 4096 == flags
  }

  /** A finished address space of the kernel: directory, tables and chunk in new_, mapping every page to itself. */
  ghost predicate SpaceGathered(s: State, chunk: Word, directory: Word, new_: seq<nat>, flags: nat) {
    && |new_| == ENTRIES + 2 && flags < 256
    && (forall b | b in new_ :: b < HEAP_BLOCKS && b in s.live && s.live[b] == 1)
    && new_[0] < HEAP_BLOCKS && directory == Address(new_[0])
    && new_[ENTRIES + 1] < HEAP_BLOCKS && chunk == Address(new_[ENTRIES + 1])
    && InMemory(s.m, HEAP_PAGE + new_[ENTRIES + 1]) && WordAt(s.m, HEAP_PAGE + new_[ENTRIES + 1], 0) == directory
    && GoodDirectory(s.m, HEAP_PAGE + new_[0])
    && (forall i: nat | i < ENTRIES :: SpaceTable(s, new_, i, OrWriteable(flags)))
    && (forall q: nat | q < PAGES :: Pte(s.m, HEAP_PAGE + new_[0], q) == EntryOf(q, flags))
  }

  lemma CreatedIsGathered(s: State, t: seq<Entry>, live: Live, m: Memory, chunk: Word, d: nat, tables: seq<nat>,
      flags: nat)
    requires Inv(s) && Represents(t, live) && |t| == HEAP_BLOCKS
             && Created(s.live, s.m, live, m, chunk, d, tables, flags)
    ensures d < HEAP_BLOCKS
    ensures var new_ := [d] + tables + [chunk / 4096 - HEAP_PAGE];
      && FreshBlocks(s.live, new_) && live == WithBlocks(s.live, new_) && OnlyBlocks(s.m, m, new_)
      && Inv(AfterCreation(s, t, live, m, new_))
      && SpaceGathered(AfterCreation(s, t, live, m, new_), chunk, Address(d), new_, flags)
  {
    var new_ := [d] + tables + [chunk / 4096 - HEAP_PAGE];
    assert d == new_[0] && d in new_;
    CreationKeepsInv(s, t, live, m, new_);
    CreatedSpace(s, t, live, m, chunk, d, tables, flags);
  }

  lemma GatherCreated(s0: State, s: State, blocks: seq<nat>, t: seq<Entry>, live: Live, m: Memory, new_: seq<nat>)
    requires HeapInv(s) && Gathered(s0, s, blocks) && Represents(t, live) && |t| == HEAP_BLOCKS
    requires FreshBlocks(s.live, new_) && live == WithBlocks(s.live, new_) && OnlyBlocks(s.m, m, new_)
    ensures Gathered(s0, AfterCreation(s, t, live, m, new_), blocks + new_)
  {
    hide Represents, Gathered, OldBlocksKept, OnlyBlocks;
    CreationCarries(s, t, live, m, new_);
    GatherMany(s0, s, blocks, AfterCreation(s, t, live, m, new_), new_);
  }

  lemma CreatedSpace(s: State, t: seq<Entry>, live: Live, m: Memory, chunk: Word, d: nat, tables: seq<nat>, flags: nat)
    requires Created(s.live, s.m, live, m, chunk, d, tables, flags) && d < HEAP_BLOCKS
    ensures var new_ := [d] + tables + [chunk / 4096 - HEAP_PAGE];
      SpaceGathered(AfterCreation(s, t, live, m, new_), chunk, Address(d), new_, flags)
  {
    var new_ := [d] + tables + [chunk / 4096 - HEAP_PAGE];
    assert Distinct([d] + tables) by {
      forall i, j | 0 <= i < j < |[d] + tables| ensures ([d] + tables)[i] != ([d] + tables)[j] {
        assert new_[i] == ([d] + tables)[i] && new_[j] == ([d] + tables)[j];
      }
    }
    BuiltIsIdentity(m, d, tables, flags);
    forall i: nat | i < ENTRIES
      ensures SpaceTable(AfterCreation(s, t, live, m, new_), new_, i, OrWriteable(flags))
    {
      assert new_[i + 1] == tables[i] && BuiltAt(m, d, tables, i, flags);
    }
  }

  // ---------------------------------------------------------------- handing over

  /** The blocks of a new process in the order they were allocated: its resources, numbered by `perm`
      in the order they will be freed, then the directory, the tables and the chunk. */
  function NewRole(pid: nat, perm: seq<nat>, i: nat): Role {
    if i < |perm| then Resource(pid, perm[i])
    else if i == |perm| then Directory(pid)
    else if i <= |perm| + ENTRIES then Table(pid, i - |perm| - 1)
    else Chunk(pid)
  }

  ghost function IndexOf(s: seq<nat>, b: nat): (i: nat)
    requires b in s
    ensures i < |s| && s[i] == b
  {
    if s[0] == b then 0 else 1 + IndexOf(s[1..], b)
  }

  ghost function Adopted(s: State, pid: nat, p: Proc, perm: seq<nat>, blocks: seq<nat>): State {
    s.(owner := s.owner + map b | b in blocks :: NewRole(pid, perm, IndexOf(blocks, b)), procs := s.procs[pid := p])
  }

  lemma AdoptedIs(s: State, pid: nat, p: Proc, perm: seq<nat>, blocks: seq<nat>)
    ensures var s' := Adopted(s, pid, p, perm, blocks);
      s'.live == s.live && s'.m == s.m && s'.t == s.t && s'.procs == s.procs[pid := p] && s'.ends == s.ends
  {
  }

  /** perm numbers |perm| things without repetition. */
  ghost predicate Numbering(perm: seq<nat>, inverse: seq<nat>) {
    |inverse| == |perm|
    && forall k | 0 <= k < |perm| ::
         perm[k] < |perm| && inverse[k] < |perm| && perm[inverse[k]] == k && inverse[perm[k]] == k
  }

  /** What is gathered is what the record of the new process says. */
  ghost predicate Described(s: State, p: Proc, perm: seq<nat>, blocks: seq<nat>) {
    var n := |perm|;
    && |blocks| == n + ENTRIES + 2 && |p.resources| == n && p.allocations == NoAllocations()
    && 2 <= n && BlankTask(s.m, TaskPage(p))
    && (forall k | 0 <= k < n :: perm[k] < n && p.resources[perm[k]] == HEAP_PAGE + blocks[k])
    && p.directory == HEAP_PAGE + blocks[n] && p.chunk == HEAP_PAGE + blocks[n + ENTRIES + 1]
    && InMemory(s.m, p.directory) && InMemory(s.m, p.chunk) && WordAt(s.m, p.chunk, 0) == p.directory * 4096
    && blocks[n] in s.live && s.live[blocks[n]] == 1 && blocks[n + ENTRIES + 1] in s.live
    && s.live[blocks[n + ENTRIES + 1]] == 1
    && (forall i: nat | i < ENTRIES :: DescribedTable(s, p.directory, i, blocks, n))
  }

  /** A task that is in no list. */
  ghost predicate BlankTask(m: Memory, p: nat) {
    InMemory(m, p) && WordAt(m, p, TASK_NEXT) == 0 && WordAt(m, p, TASK_PREV) == 0
  }

  /** Entry i of the directory leads to the one-block allocation number n + 1 + i, with every right. */
  ghost predicate DescribedTable(s: State, d: nat, i: nat, blocks: seq<nat>, n: nat)
    requires InMemory(s.m, d) && i < ENTRIES && |blocks| == n + ENTRIES + 2
  {
    TablePage(s.m, d, i) == HEAP_PAGE + blocks[n + 1 + i] && blocks[n + 1 + i] in s.live
    && s.live[blocks[n + 1 + i]] == 1 && WordAt(s.m, d, i) % 4096 == RW_USER
  }

  lemma IndexIsUnique(blocks: seq<nat>, i: nat)
    requires Distinct(blocks) && i < |blocks|
    ensures blocks[i] in blocks && IndexOf(blocks, blocks[i]) == i
  {
  }

  lemma AdoptedOwner(s: State, pid: nat, p: Proc, perm: seq<nat>, blocks: seq<nat>)
    requires HeapInv(s) && Distinct(blocks) && forall b | b in blocks :: b in s.owner
    ensures HeapInv(Adopted(s, pid, p, perm, blocks))
    ensures forall i | 0 <= i < |blocks| ::
              blocks[i] in s.owner && blocks[i] in s.live
                && Adopted(s, pid, p, perm, blocks).owner[blocks[i]] == NewRole(pid, perm, i)
  {
    hide Represents, NewRole;
    assert Adopted(s, pid, p, perm, blocks).owner.Keys == s.owner.Keys;
    forall i | 0 <= i < |blocks| ensures blocks[i] in blocks && IndexOf(blocks, blocks[i]) == i {
      IndexIsUnique(blocks, i);
    }
  }

  lemma AdoptedOwnPage(s: State, pid: nat, p: Proc, perm: seq<nat>, blocks: seq<nat>, i: nat)
    requires HeapInv(s) && Distinct(blocks) && (forall b | b in blocks :: b in s.owner)
    requires i < |blocks| && blocks[i] in s.live && s.live[blocks[i]] == 1
    ensures OwnPage(Adopted(s, pid, p, perm, blocks), HEAP_PAGE + blocks[i], NewRole(pid, perm, i))
  {
    hide Represents, IndexOf, NewRole, Distinct;
    AdoptedOwner(s, pid, p, perm, blocks);
  }

  lemma AdoptedTable(s: State, pid: nat, p: Proc, perm: seq<nat>, blocks: seq<nat>, i: nat)
    requires HeapInv(s) && Distinct(blocks) && (forall b | b in blocks :: b in s.owner) && InMemory(s.m, p.directory)
    requires i < ENTRIES && |blocks| == |perm| + ENTRIES + 2 && DescribedTable(s, p.directory, i, blocks, |perm|)
    ensures OwnPage(Adopted(s, pid, p, perm, blocks), TablePage(s.m, p.directory, i), Table(pid, i))
  {
    hide HeapInv, Distinct, Adopted, OwnPage;
    AdoptedOwnPage(s, pid, p, perm, blocks, |perm| + 1 + i);
  }

  lemma TableRights(s: State, d: nat, i: nat, blocks: seq<nat>, n: nat)
    requires InMemory(s.m, d) && i < ENTRIES && |blocks| == n + ENTRIES + 2 && DescribedTable(s, d, i, blocks, n)
    ensures WordAt(s.m, d, i) % 4096 == RW_USER
  {
  }

  lemma AdoptedDirectory(s: State, pid: nat, p: Proc, perm: seq<nat>, blocks: seq<nat>)
    requires HeapInv(s) && Distinct(blocks) && Described(s, p, perm, blocks) && forall b | b in blocks :: b in s.owner
    ensures HeapInv(Adopted(s, pid, p, perm, blocks)) && DirectoryOk(Adopted(s, pid, p, perm, blocks), pid)
  {
    hide HeapInv, Distinct, OwnPage, IndexOf, DescribedTable;
    AdoptedOwner(s, pid, p, perm, blocks);
    var n := |perm|;
    AdoptedOwnPage(s, pid, p, perm, blocks, n);
    AdoptedOwnPage(s, pid, p, perm, blocks, n + ENTRIES + 1);
    forall i: nat | i < ENTRIES
      ensures OwnPage(Adopted(s, pid, p, perm, blocks), TablePage(s.m, p.directory, i), Table(pid, i))
      ensures WordAt(s.m, p.directory, i) % 4096 == RW_USER
    {
      AdoptedTable(s, pid, p, perm, blocks, i);
      TableRights(s, p.directory, i, blocks, n);
    }
  }

  lemma AdoptedProcOk(s: State, pid: nat, p: Proc, perm: seq<nat>, inverse: seq<nat>, blocks: seq<nat>)
    requires HeapInv(s) && Distinct(blocks) && Numbering(perm, inverse) && Described(s, p, perm, blocks)
    requires forall b | b in blocks :: b in s.owner
    ensures HeapInv(Adopted(s, pid, p, perm, blocks)) && ProcOk(Adopted(s, pid, p, perm, blocks), pid)
  {
    hide Represents, IndexOf, Distinct, DirectoryOk;
    AdoptedOwner(s, pid, p, perm, blocks);
    AdoptedDirectory(s, pid, p, perm, blocks);
    var s' := Adopted(s, pid, p, perm, blocks);
    forall k: nat | k < |p.resources| ensures ResourceOk(s', pid, k) {
      var i := inverse[k];
      assert p.resources[perm[i]] == HEAP_PAGE + blocks[i];
    }
    assert ResourceOk(s', pid, |p.resources| - 2);
    BlockInHeap(s', TaskPage(p) - HEAP_PAGE);
    forall i: nat | i < SLOTS ensures SlotOk(s', pid, i) {
    }
  }

  lemma AdoptedRoleOk(s: State, pid: nat, p: Proc, perm: seq<nat>, blocks: seq<nat>, i: nat)
    requires HeapInv(s) && Distinct(blocks) && Described(s, p, perm, blocks) && forall b | b in blocks :: b in s.owner
    requires HeapInv(Adopted(s, pid, p, perm, blocks)) && i < |blocks|
    ensures blocks[i] in Adopted(s, pid, p, perm, blocks).owner && RoleOk(Adopted(s, pid, p, perm, blocks), blocks[i])
  {
    hide Represents, IndexOf, Distinct, BlankTask, HeapInv;
    AdoptedOwner(s, pid, p, perm, blocks);
    var n := |perm|;
    if i < n {
      assert p.resources[perm[i]] == HEAP_PAGE + blocks[i];
    } else if n < i <= n + ENTRIES {
      assert DescribedTable(s, p.directory, i - n - 1, blocks, n);
    }
  }

  lemma AdoptedAll(s: State, pid: nat, p: Proc, perm: seq<nat>, inverse: seq<nat>, blocks: seq<nat>)
    requires HeapInv(s) && Distinct(blocks) && (forall b | b in blocks :: b in s.owner)
    requires Numbering(perm, inverse) && Described(s, p, perm, blocks)
    ensures var s' := Adopted(s, pid, p, perm, blocks);
      && HeapInv(s') && ProcOk(s', pid) && s'.owner.Keys == s.owner.Keys
      && forall b | b in blocks :: b in s'.owner && RoleOk(s', b)
  {
    hide HeapInv, Described, Numbering, ProcOk, RoleOk, IndexOf, NewRole, Distinct;
    var s' := Adopted(s, pid, p, perm, blocks);
    AdoptedProcOk(s, pid, p, perm, inverse, blocks);
    forall i: nat | i < |blocks| ensures blocks[i] in s'.owner && RoleOk(s', blocks[i]) {
      AdoptedRoleOk(s, pid, p, perm, blocks, i);
    }
  }

  /** No block belongs to a process that does not exist. */
  lemma NotYetOf(s: State, pid: nat)
    requires Inv(s) && pid !in s.procs
    ensures forall b <- s.owner :: !Of(s.owner[b], pid)
  {
    forall b | b in s.owner ensures !Of(s.owner[b], pid) {
      if !s.owner[b].Kernel? { KnownProc(s, b); }
    }
  }

  lemma OthersKnown(s0: State, s: State, blocks: seq<nat>)
    requires Gathered(s0, s, blocks)
    ensures Distinct(blocks) && s.procs == s0.procs
    ensures forall b | b in blocks :: b in s.owner && s.owner[b].Kernel?
  {
  }

  lemma AdoptedRoles(s: State, pid: nat, p: Proc, perm: seq<nat>, blocks: seq<nat>)
    requires forall b | b in blocks :: b in s.owner && s.owner[b].Kernel?
    ensures var s' := Adopted(s, pid, p, perm, blocks);
      && (forall b <- s.owner :: s'.owner[b] == s.owner[b] || (s.owner[b].Kernel? && Of(s'.owner[b], pid)))
      && (forall b <- s'.owner :: b in blocks || (b in s.owner && s'.owner[b] == s.owner[b]))
      && s'.owner.Keys == s.owner.Keys
  {
  }

  /** Blocks of the kernel that are what the record of a new process says become the process: nothing
      is assumed of the process itself. */
  lemma AdoptionKeepsInv(s: State, pid: nat, p: Proc, perm: seq<nat>, inverse: seq<nat>, blocks: seq<nat>)
    requires Inv(s) && pid !in s.procs
    requires Distinct(blocks) && (forall b | b in blocks :: b in s.owner && s.owner[b].Kernel?)
    requires Numbering(perm, inverse) && Described(s, p, perm, blocks)
    ensures Inv(Adopted(s, pid, p, perm, blocks))
  {
    hide HeapInv, ProcOk, RoleOk, Described, Numbering, IndexOf, NewRole, Distinct;
    HeapOf(s);
    AdoptedAll(s, pid, p, perm, inverse, blocks);
    NotYetOf(s, pid);
    AdoptedRoles(s, pid, p, perm, blocks);
    AdoptKeepsInv(s, Adopted(s, pid, p, perm, blocks), pid);
  }

  lemma MappedCarried(s: State, m: Memory, pid: nat, e: nat)
    requires HeapInv(s) && Kept(s, m, pid) && e != pid
    ensures Carried(s, s.(m := m), e)
  {
    hide Represents;
  }

  /** Mapping program and stack into the tables of a process without allocations. */
  lemma OwnMappingKeepsInv(s: State, m: Memory, pid: nat)
    requires Inv(s) && pid in s.procs && s.procs[pid].allocations == NoAllocations()
    requires GoodDirectory(s.m, s.procs[pid].directory) && OnlyTables(s.m, m, s.procs[pid].directory)
    requires SameTables(s.m, m, s.procs[pid].directory)
    ensures Inv(s.(m := m))
  {
    InvGives(s, pid);
    assert HeapInv(s.(m := m)) by { assert |m| == |s.m|; }
    hide Inv, ProcOk, Kept, LiveKept, DirectoryOk, OnlyTables, SameTables, GoodDirectory, Represents;
    TablesOnlyIsKept(s, s.m, m, pid);
    OwnTablesKeepInv(s, m, pid);
  }

  lemma InvGives(s: State, pid: nat)
    requires Inv(s) && pid in s.procs
    ensures HeapInv(s) && ProcOk(s, pid) && DirectoryOk(s, pid) && LiveKept(s, s.m)
  {
    assert ProcOk(s, pid);
    forall b | b in s.owner { BlockInHeap(s, b); }
  }

  lemma OwnTablesKeepInv(s: State, m: Memory, pid: nat)
    requires Inv(s) && HeapInv(s.(m := m)) && pid in s.procs && s.procs[pid].allocations == NoAllocations()
    requires GoodDirectory(s.m, s.procs[pid].directory) && SameTables(s.m, m, s.procs[pid].directory) && Kept(s, m, pid)
    ensures Inv(s.(m := m))
  {
    var s' := s.(m := m);
    assert |m| == |s.m| && HeapInv(s) && ProcOk(s, pid);
    MappedProcOk(s, m, pid);
    hide HeapInv, ProcOk, RoleOk, Kept, Carried, GoodDirectory, SameTables;
    forall e | e in s.procs ensures ProcOk(s', e) {
      if e != pid {
        MappedCarried(s, m, pid, e);
        ProcCarried(s, s', e);
      }
    }
    forall b | b in s.owner ensures RoleOk(s', b) {
      assert RoleOk(s, b);
      MappedRole(s, m, pid, b);
    }
  }

  lemma MappedRole(s: State, m: Memory, pid: nat, b: nat)
    requires Inv(s) && HeapInv(s.(m := m)) && pid in s.procs && b in s.owner && RoleOk(s, b)
    requires GoodDirectory(s.m, s.procs[pid].directory) && SameTables(s.m, m, s.procs[pid].directory) && Kept(s, m, pid)
    ensures RoleOk(s.(m := m), b)
  {
    hide ProcOk, Kept, Carried, Represents;
    if s.owner[b].Table? && s.owner[b].pid != pid {
      KnownProc(s, b);
      MappedCarried(s, m, pid, s.owner[b].pid);
      RoleCarried(s, s.(m := m), b);
    }
  }

  lemma MappedProcOk(s: State, m: Memory, pid: nat)
    requires HeapInv(s) && pid in s.procs && ProcOk(s, pid) && s.procs[pid].allocations == NoAllocations()
    requires |m| == |s.m| && Kept(s, m, pid) && GoodDirectory(s.m, s.procs[pid].directory)
             && SameTables(s.m, m, s.procs[pid].directory)
    ensures ProcOk(s.(m := m), pid)
  {
    hide Represents;
    var s', p := s.(m := m), s.procs[pid];
    FirstPageSame(s, m, p.chunk - HEAP_PAGE);
    assert WordAt(m, p.chunk, 0) == WordAt(s.m, p.chunk, 0);
    forall i: nat | i < ENTRIES
      ensures OwnPage(s', TablePage(m, p.directory, i), Table(pid, i)) && WordAt(m, p.directory, i) % 4096 == RW_USER
    {
      assert OwnPage(s, TablePage(s.m, p.directory, i), Table(pid, i));
      assert WordAt(s.m, p.directory, i) % 4096 == RW_USER;
    }
    ResourcesStillOk(s, s', pid);
    forall i: nat | i < SLOTS ensures SlotOk(s', pid, i) {
    }
  }

  // ---------------------------------------------------------------- describing what was gathered

  lemma AddressOfBlock(b: nat)
    requires b < HEAP_BLOCKS
    ensures Address(b) / 4096 == HEAP_PAGE + b && Address(b) % 4096 == 0
  {
  }

  /** Resources at `ptrs` in allocation order, recorded as `pages` in freeing order, plus an address space. */
  lemma GatheredIsDescribed(s: State, p: Proc, perm: seq<nat>, ptrs: seq<Word>, first: seq<nat>, chunk: Word,
      directory: Word, new_: seq<nat>, flags: nat)
    requires |first| == |perm| == |ptrs| == |p.resources| && p.allocations == NoAllocations()
    requires forall k | 0 <= k < |perm| :: first[k] < HEAP_BLOCKS && ptrs[k] == Address(first[k])
    requires forall k | 0 <= k < |perm| :: perm[k] < |perm| && p.resources[perm[k]] == ptrs[k] / 4096
    requires p.directory == directory / 4096 && p.chunk == chunk / 4096
             && SpaceGathered(s, chunk, directory, new_, flags) && OrWriteable(flags) == RW_USER
    requires 2 <= |perm| && BlankTask(s.m, TaskPage(p))
    ensures Described(s, p, perm, first + new_)
  {
    var n, blocks := |perm|, first + new_;
    forall k | 0 <= k < n ensures p.resources[perm[k]] == HEAP_PAGE + blocks[k] {
      AddressOfBlock(first[k]);
    }
    AddressOfBlock(new_[0]);
    AddressOfBlock(new_[ENTRIES + 1]);
    assert blocks[n] == new_[0] && blocks[n + ENTRIES + 1] == new_[ENTRIES + 1];
    forall i: nat | i < ENTRIES ensures DescribedTable(s, p.directory, i, blocks, n) {
      assert SpaceTable(s, new_, i, RW_USER) && blocks[n + 1 + i] == new_[i + 1] && new_[i + 1] in new_;
    }
  }

  lemma BlockFits(b: nat, size: Word)
    requires 0 < Blocks(size) && b + Blocks(size) <= HEAP_BLOCKS
    ensures b < HEAP_BLOCKS && Address(b) % 4096 == 0 && Address(b) + size < 0x1000_0000
  {
    BlocksIsCeiling(size);
  }

  lemma OwnMappingCarries(s: State, m: Memory, pid: nat)
    requires Inv(s) && pid in s.procs
    requires GoodDirectory(s.m, s.procs[pid].directory) && OnlyTables(s.m, m, s.procs[pid].directory)
    ensures forall e <- s.procs :: e != pid ==> Carried(s, s.(m := m), e)
  {
    InvGives(s, pid);
    hide Inv, ProcOk, Kept, LiveKept, DirectoryOk, OnlyTables, SameTables, GoodDirectory, Represents, Carried;
    TablesOnlyIsKept(s, s.m, m, pid);
    forall e | e in s.procs && e != pid { MappedCarried(s, m, pid, e); }
  }
}
