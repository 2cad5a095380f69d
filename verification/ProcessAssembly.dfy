/** What a load gathers for a new process, how it joins the others, and what is left when it fails. */
module ProcessAssembly {
  import opened Machine
  import opened HeapTable
  import opened PageTables
  import opened KernelMemory
  import opened ProcessState
  import opened AddressSpace
  import opened ProcessMemory
  import opened ProcessLife
  import opened ProcessBirth
  import opened FirstFit
  import opened TaskLinks
  import opened TaskOrder
  import opened ProcessLoad
  import opened ProcessRecord
  import opened PathText
  import opened Bytes
  import CStrings
  import PathParser
  import ElfLoader
  import ElfMapping
  import ProcessRuns
  import OrderlyRuns

  /** Every allocation is still there. */
  ghost predicate AllStillLive(live: Live, after: Live) {
    forall b <- live :: b in after && after[b] == live[b]
  }

  lemma SizedHere(s: State, process: Process, image: nat, stack: nat, size: Word)
    requires image < HEAP_BLOCKS && stack < HEAP_BLOCKS && process.stack == Address(stack)
    requires process.Image()[0] == Address(image)
    requires image in s.live && s.live[image] == Blocks(size)
    requires stack in s.live && s.live[stack] == Blocks(ElfMapping.STACK_SIZE)
    ensures Sized(s, process, size)
  {
    BlockOfAddress(image);
    BlockOfAddress(stack);
  }

  lemma StillAfter(s: State, t: seq<Entry>, live: Live, m: Memory, new_: seq<nat>)
    requires FreshBlocks(s.live, new_) && live == WithBlocks(s.live, new_)
    ensures AllStillLive(s.live, AfterCreation(s, t, live, m, new_).live)
  {
  }

  lemma SpaceFound(s: State, chunk: Word, directory: Word, new_: seq<nat>)
    requires SpaceGathered(s, chunk, directory, new_, 5)
    ensures |new_| == ENTRIES + 2 && directory / 4096 == HEAP_PAGE + new_[0]
  {
    hide GoodDirectory, SpaceTable, Pte;
    AddressOfBlock(new_[0]);
  }

  lemma CreationIs(s: State, t: seq<Entry>, live: Live, m: Memory, new_: seq<nat>)
    ensures AfterCreation(s, t, live, m, new_).t == t && AfterCreation(s, t, live, m, new_).m == m
  {
  }

  lemma EnlistedTail(s: State, pid: nat)
    requires HasTask(s, pid) && IsStart(s.ends.tail)
    ensures Enlisted(s, pid).ends.tail == TaskOf(s, pid)
  {
  }

  lemma ChunkLeads(live0: Live, m0: Memory, live: Live, m: Memory, chunk: Word, d: nat, tables: seq<nat>, flags: nat)
    requires Created(live0, m0, live, m, chunk, d, tables, flags) && d < HEAP_BLOCKS
    ensures chunk / 4 < |m| && m[chunk / 4] == Address(d)
  {
    assert chunk / 4 == chunk / 4096 * 1024;
    assert WordAt(m, chunk / 4096, 0) == m[chunk / 4096 * 1024 + 0];
  }

  /** What a load gathered: the new process's blocks before and behind those the kernel keeps, and the order
      in which they will be freed. */
  datatype Gathering =
    Gathering(front: seq<nat>, image: nat, stack: nat, task: nat, space: seq<nat>, kept: seq<nat>,
              perm: seq<nat>, inverse: seq<nat>, size: Word, first: seq<seq<Entry>>, second: seq<seq<Entry>>)
  {
    /** The new process's blocks behind those the kernel keeps. */
    function Back(): seq<nat> {
      [image, stack, task] + space
    }

    function All(): seq<nat> {
      front + kept + Back()
    }

    /** For an ELF file: first fit put all of it where it is. */
    ghost predicate Places(t: seq<Entry>, u: seq<Entry>) {
      && DataPlaced(first, front, kept, image, Blocks(size)) && RestPlaced(second, stack, task, space)
      && first[0] == t && second[0] == first[4] && second[3] == u
    }
  }

  const LOAD_ROOM := 3 + 1 + 2 * PATH_ROOM + 1031

  /** Where first fit puts what elf_load asks for, after the process record: the file record, the parsed path
      and the image, through the tables in between. */
  ghost predicate DataPlaced(tables: seq<seq<Entry>>, front: seq<nat>, kept: seq<nat>, image: nat, n: nat) {
    && |tables| == 5 && |front| == 2 && FirstRun(tables[0], tables[1], front[0], 3)
    && FirstRun(tables[1], tables[2], front[1], 1) && FirstOnes(tables[2], tables[3], kept)
    && FirstRun(tables[3], tables[4], image, n)
  }

  /** And the rest: stack, task and address space. */
  ghost predicate RestPlaced(tables: seq<seq<Entry>>, stack: nat, task: nat, space: seq<nat>) {
    && |tables| == 4 && FirstRun(tables[0], tables[1], stack, 4) && FirstRun(tables[1], tables[2], task, 1)
    && FirstOnes(tables[2], tables[3], space)
  }

  /** Over a gap of four blocks, the task of an ELF process and its page directory come to lie behind path,
      image and stack, and everything taken is next to each other. */
  lemma GapPlaces(first: seq<seq<Entry>>, second: seq<seq<Entry>>, front: seq<nat>, kept: seq<nat>, image: nat, n: nat,
      stack: nat, task: nat, space: seq<nat>, a: nat, k: nat, end: nat)
    requires DataPlaced(first, front, kept, image, n) && RestPlaced(second, stack, task, space) && second[0] == first[4]
    requires Gap(first[0], a, k, end) && 0 < n && k + |kept| + n + 5 + |space| <= end
    ensures front == [a, a + 3] && (forall i | 0 <= i < |kept| :: kept[i] == k + i)
    ensures image == k + |kept| && stack == image + n && task == stack + 4
    ensures forall i | 0 <= i < |space| :: space[i] == task + 1 + i
    ensures Front(second[3], task + 1 + |space|, end)
  {
    hide Front, Gap, FirstOnes;
    GapCloses(first[0], first[1], first[2], front[0], front[1], a, k, end);
    FrontOnes(first[2], first[3], kept, k, end);
    FrontTakes(first[3], k + |kept|, end, n);
    FrontTakes(second[0], k + |kept| + n, end, 4);
    FrontTakes(second[1], k + |kept| + n + 4, end, 1);
    FrontOnes(second[2], second[3], space, k + |kept| + n + 5, end);
  }

  /** A file as a load sees it: whether the file system has it, whether it is an ELF file, whether it is
      still there when a flat binary is opened a second time, and how long it is. */
  datatype File = File(found: bool, isElf: bool, again: bool, size: Word)

  /** How many blocks of parsed paths a load leaves in the heap: those of every fopen that succeeded. */
  function KeptBy(path: seq<Byte>, file: File): nat {
    var n := PathBlocks(CStrings.CText(path));
    if !file.found then 0 else if file.isElf || !file.again then n else n + n
  }

  /** What process_load_for_slot returns, with the image of an ELF file at address elf. */
  ghost function LoadResult(path: seq<Byte>, file: File, elf: Word, phs: seq<ElfLoader.Phdr>): int {
    if !HasData(path, file) then -EIO
    else if file.isElf && !ElfMapping.Accepted(elf, phs) then -EINVARG
    else 0
  }

  lemma ImageIs(s0: State, s: State, process: Process, g: Gathering)
    requires AssembledIn(s0, s, process, g)
    ensures g.image < HEAP_BLOCKS && (process.isElf ==> process.elfMemory == Address(g.image))
  {
  }

  lemma GatheredListNow(s0: State, s: State, g: Gathering, process: Process?)
    requires Inv(s0) && Inv(s)
    requires if process == null then Gathered(s0, s, g.kept) else AssembledIn(s0, s, process, g)
    ensures ListGrows(s0, s, []) && (process != null ==> s.procs == s0.procs)
  {
    hide Inv, Gathered, ListGrows;
    if process == null {
      GatheredList(s0, s, g.kept);
    } else {
      AssembledProcs(s0, s, process, g);
      GatheredList(s0, s, g.All());
    }
  }

  /** process_load_data succeeds. */
  predicate HasData(path: seq<Byte>, file: File) {
    file.found && PathBlocks(CStrings.CText(path)) != 0 && (file.isElf || file.again)
  }

  /** The process is described by what was gathered for it, in a memory where it maps every page to itself. */
  ghost predicate AssembledIn(s0: State, s: State, process: Process, g: Gathering)
    reads process
  {
    && process.Aligned() && process.allocations == NoAllocations()
    && Gathered(s0, s, g.All()) && Sorted(g.All(), g.front, g.kept, g.Back())
    && Numbering(g.perm, g.inverse) && Described(s, process.Value(), g.perm, g.front + g.Back())
    && IdentityMemory(s.m, process.directory / 4096) && Sized(s, process, g.size)
    && process.task / 4096 == HEAP_PAGE + g.task && |g.space| == ENTRIES + 2
    && process.directory / 4096 == HEAP_PAGE + g.space[0]
    && g.image < HEAP_BLOCKS && (process.isElf ==> process.elfMemory == Address(g.image))
    && (process.isElf ==> g.Places(s0.t, s.t) && OneEach(s.live, g.kept))
  }

  lemma KeptSomething(path: seq<Byte>, file: File, kept: seq<nat>)
    requires |kept| == KeptBy(path, file) && HasData(path, file)
    ensures kept != []
  {
  }

  lemma IdentityIsGood(m: Memory, process: Process)
    requires IdentityMemory(m, process.directory / 4096)
    ensures process.Value().directory == process.directory / 4096 && GoodDirectory(m, process.Value().directory)
  {
  }

  /** A process for which everything is in place. */
  lemma InPlace(s0: State, s: State, process: Process, g: Gathering)
    requires process.Aligned() && process.allocations == NoAllocations() && Gathered(s0, s, g.front + g.kept + g.Back())
    requires Numbering(g.perm, g.inverse) && Described(s, process.Value(), g.perm, g.front + g.Back())
    requires IdentityMemory(s.m, process.directory / 4096) && Sized(s, process, g.size)
    requires g.task < HEAP_BLOCKS && process.task == Address(g.task)
    requires |g.space| == ENTRIES + 2 && process.directory / 4096 == HEAP_PAGE + g.space[0]
    requires g.image < HEAP_BLOCKS && (process.isElf ==> process.elfMemory == Address(g.image))
    requires process.isElf ==> g.Places(s0.t, s.t) && OneEach(s.live, g.kept)
    ensures AssembledIn(s0, s, process, g)
  {
    hide Gathered, Numbering, Described, IdentityMemory, Sized, OneEach, Gathering.Places;
    AddressOfBlock(g.task);
  }

  lemma OneEachStill(live: Live, after: Live, blocks: seq<nat>)
    requires OneEach(live, blocks) && AllStillLive(live, after)
    ensures OneEach(after, blocks)
  {
  }

  lemma AssembledProcs(s0: State, s: State, process: Process, g: Gathering)
    requires AssembledIn(s0, s, process, g)
    ensures s.procs == s0.procs
  {
  }

  lemma GatheredApart(s0: State, s: State, process: Process, g: Gathering)
    requires AssembledIn(s0, s, process, g)
    ensures Distinct(g.front + g.Back()) && forall b | b in g.front + g.Back() :: b in g.All()
    ensures forall b | b in g.front + g.Back() :: b in s.owner && s.owner[b] == Role.Kernel
  {
    hide Carried, Distinct, Described, Numbering, IdentityMemory, Sorted;
    OthersKnown(s0, s, g.All());
    SortedParts(g.All(), g.front, g.kept, g.Back());
  }

  /** Some of what is gathered is left: one block each, as before. */
  lemma OneEachRemains(s0: State, s: State, all: seq<nat>, live: Live, kept: seq<nat>)
    requires HeapInv(s) && Gathered(s0, s, all) && OneEach(live, kept) && forall b | b in kept :: b in all
    requires forall b <- s.live :: b in live && s.live[b] == live[b]
    ensures OneEach(s.live, kept)
  {
    hide Represents, Carried, Distinct, OldBlocksKept;
    forall b | b in kept ensures b in s.live { assert b in s.owner; }
  }

  /** There was no data to load: nothing was gathered in the end but what the kernel keeps. */
  lemma NoData(s0: State, s1: State, kept: seq<nat>)
    requires Inv(s0) && Inv(s1) && Gathered(s0, s1, kept) && OneEach(s1.live, kept)
    ensures KeptOnly(s0, s1, kept) && (s1.t == s0.t <==> kept == []) && s1.ends == s0.ends
    ensures forall e <- s0.procs :: Carried(s0, s1, e)
  {
    hide Inv, HeapInv, Represents, Carried;
    HeapOf(s0);
    HeapOf(s1);
    JustKept(s0, s1, kept);
    RestoredIff(s0, s1, kept);
  }

  lemma JustKept(s0: State, s1: State, kept: seq<nat>)
    requires HeapInv(s0) && HeapInv(s1) && Gathered(s0, s1, kept) && OneEach(s1.live, kept)
    ensures KeptOnly(s0, s1, kept) && s1.ends == s0.ends && forall e <- s0.procs :: Carried(s0, s1, e)
  {
    hide Represents, Carried, Distinct;
    var o := s0.owner + map b | b in kept :: Role.Kernel;
    assert s1.owner.Keys == o.Keys;
  }

  /** The new process can be adopted, and its task put into the list, whatever task_tail names: without harm
      if and only if the link written through it is harmless. */
  lemma CanJoin(s0: State, s1: State, pid: nat, process: Process, g: Gathering)
    requires Inv(s0) && Inv(s1) && pid !in s0.procs && AssembledIn(s0, s1, process, g)
    ensures var s := Adopted(s1, pid, process.Value(), g.perm, g.front + g.Back());
      && Inv(s) && HasTask(s, pid) && TaskOf(s, pid) == process.task && IsStart(s.ends.tail)
      && (Inv(Enlisted(s, pid)) <==> EnlistFits(s, pid)) && ProcessRuns.Reaches(s1, Enlisted(s, pid))
      && Enlisted(s, pid).procs == s.procs && Enlisted(s, pid).live == s1.live && Enlisted(s, pid).t == s1.t
      && Enlisted(s, pid).owner == s.owner
  {
    hide Inv, Gathered, Numbering, Described, IdentityMemory, Enlisted, EnlistFits, ProcessRuns.Reaches;
    hide ProcessRuns.Joined, Sorted;
    var p, blocks := process.Value(), g.front + g.Back();
    GatheredApart(s0, s1, process, g);
    NotYetThere(s0, s1, g.All());
    ProcessRuns.AdoptionJoins(s1, pid, p, g.perm, g.inverse, blocks);
    ProcessRuns.AdoptReaches(s1, pid, p, g.perm, g.inverse, blocks);
    AdoptedIs(s1, pid, p, g.perm, blocks);
    var s := Adopted(s1, pid, p, g.perm, blocks);
    TaskIs(s, pid, process);
    EnlistLeaves(s, pid);
  }

  /** The new process can be adopted, and its task put into the list, without harm. */
  lemma ReadyToJoin(s0: State, s1: State, pid: nat, process: Process, g: Gathering)
    requires Inv(s0) && Inv(s1) && pid !in s0.procs && TailSettled(s0) && AssembledIn(s0, s1, process, g)
    ensures var s := Adopted(s1, pid, process.Value(), g.perm, g.front + g.Back());
      && Inv(s) && HasTask(s, pid) && TaskOf(s, pid) == process.task && IsStart(s.ends.tail)
      && Inv(Enlisted(s, pid)) && ProcessRuns.Reaches(s1, Enlisted(s, pid)) && Enlisted(s, pid).procs == s.procs
      && Enlisted(s, pid).live == s1.live && Enlisted(s, pid).t == s1.t && Enlisted(s, pid).owner == s.owner
      && IdentityMemory(Enlisted(s, pid).m, process.directory / 4096)
      && (forall e <- s0.procs :: Carried(s0, s, e))
  {
    hide Inv, Gathered, Numbering, Described, Carried, IdentityMemory, TailSettled, Enlisted, ProcessRuns.Reaches;
    hide ProcessRuns.Joined, Sorted;
    var p, blocks := process.Value(), g.front + g.Back();
    GatheredApart(s0, s1, process, g);
    JoinFits(s0, s1, g.All(), pid, p, g.perm, g.inverse, blocks);
    NotYetThere(s0, s1, g.All());
    ProcessRuns.AdoptReaches(s1, pid, p, g.perm, g.inverse, blocks);
    AdoptedIs(s1, pid, p, g.perm, blocks);
    var s := Adopted(s1, pid, p, g.perm, blocks);
    TaskIs(s, pid, process);
    EnlistLeaves(s, pid);
    IdentityStays(s0, s1, s, pid, process, g);
  }

  lemma NotYetThere(s0: State, s1: State, all: seq<nat>)
    requires Gathered(s0, s1, all)
    ensures s1.procs == s0.procs && s1.ends == s0.ends
  {
  }

  lemma OldAreKept(s0: State, s1: State, all: seq<nat>)
    requires Gathered(s0, s1, all)
    ensures forall b <- s0.live :: b in s1.live && s1.live[b] == s0.live[b]
  {
  }

  lemma EnlistLeaves(s: State, pid: nat)
    requires HasTask(s, pid) && IsStart(s.ends.tail)
    ensures var s' := Enlisted(s, pid); s'.procs == s.procs && s'.live == s.live && s'.t == s.t && s'.owner == s.owner
  {
  }

  lemma IdentityStays(s0: State, s1: State, s: State, pid: nat, process: Process, g: Gathering)
    requires Inv(s0) && Inv(s1) && TailSettled(s0) && AssembledIn(s0, s1, process, g) && Inv(s) && s.ends == s0.ends
    requires s.m == s1.m && pid in s.procs && s.procs[pid] == process.Value() && HasTask(s, pid)
    requires forall b | b in g.front + g.Back() :: b in g.All()
    ensures IsStart(s.ends.tail) && IdentityMemory(Enlisted(s, pid).m, process.directory / 4096)
  {
    hide Inv, Gathered, Numbering, Sorted, Needs, Enlisted;
    HeapOf(s0);
    HeapOf(s1);
    TailOf(s);
    if s.ends.head != 0 {
      SpaceIsNew(s0, s1, g.All(), process.Value(), g.perm, g.front + g.Back());
      EnlistedSpace(s, pid);
    } else {
      EnlistNothing(s, pid);
    }
  }

  lemma EnlistNothing(s: State, pid: nat)
    requires HasTask(s, pid) && IsStart(s.ends.tail) && s.ends.head == 0
    ensures Enlisted(s, pid).m == s.m
  {
  }

  lemma TaskIs(s: State, pid: nat, process: Process)
    requires pid in s.procs && s.procs[pid] == process.Value() && process.Aligned() && HasTask(s, pid)
    ensures TaskOf(s, pid) == process.task
  {
  }

  /** Where the words of a task are. */
  lemma TaskWords(s: State, pid: nat)
    requires HasTask(s, pid)
    ensures TaskOf(s, pid) / 4 == TaskPage(s.procs[pid]) * 1024 && TaskOf(s, pid) / 4 + TASK_PREV < |s.m|
    ensures forall a: Word | IsStart(a) :: a / 4 == a / 4096 * 1024 && a / 4 + TASK_NEXT < |s.m|
  {
  }

  /** A segment was refused: the new process goes again. */
  lemma RefusedLoad(s0: State, s1: State, s3: State, s4: State, pid: nat, process: Process, g: Gathering)
    requires Inv(s0) && Inv(s1) && Inv(s3) && pid !in s0.procs && TailSettled(s0) && AssembledIn(s0, s1, process, g)
    requires process.isElf && g.kept != []
    requires var s := Adopted(s1, pid, process.Value(), g.perm, g.front + g.Back());
      && HasTask(s, pid) && IsStart(s.ends.tail) && s3 == Enlisted(s, pid).(m := s3.m)
      && (forall e <- Enlisted(s, pid).procs :: e != pid ==> Carried(Enlisted(s, pid), s3, e))
      && GoodDirectory(Enlisted(s, pid).m, process.directory / 4096)
      && OnlyTables(Enlisted(s, pid).m, s3.m, process.directory / 4096)
    requires ProcessRuns.CanFreeRest(s3, pid) && s4 == ProcessRuns.AfterFreeRest(s3, pid)
    ensures Inv(s4) && KeptOnly(s0, s4, g.kept) && s4.t != s0.t
    ensures forall e <- s0.procs :: HasTask(s0, e) && (CarriedButNext(s0, s4, e) <==> LoadSpares(s0, 0, e))
  {
    hide Inv, HeapInv, Gathered, Numbering, Described, Carried, IdentityMemory, TailSettled, Enlisted, Sorted, Adopted;
    hide CarriedButNext, LoadSpares, ProcessRuns.Reaches, ProcessRuns.CanFreeRest, ProcessRuns.AfterFreeRest, KeptOnly;
    hide GoodDirectory, OnlyTables, Belongings;
    var s := Adopted(s1, pid, process.Value(), g.perm, g.front + g.Back());
    ReadyToJoin(s0, s1, pid, process, g);
    AdoptedIs(s1, pid, process.Value(), g.perm, g.front + g.Back());
    NotYetThere(s0, s1, g.All());
    NewLinks(s0, s1, s3, pid, process, g);
    EnlistLeaves(s, pid);
    FailedLoad(s0, s, s3, s4, pid);
    RestEndsHere(s3, s4, pid);
    HeapOf(s0);
    HeapOf(s1);
    HeapOf(s4);
    KeptAfterwards(s0, s1, g.All(), g.front, g.kept, g.Back(), pid, process.Value(), g.perm, s3, s4);
    RestoredIff(s0, s4, g.kept);
  }

  lemma RestEndsHere(s: State, s': State, pid: nat)
    requires Inv(s) && ProcessRuns.CanFreeRest(s, pid) && s' == ProcessRuns.AfterFreeRest(s, pid)
    ensures s'.live == s.live - Belongings(s, pid) && s'.owner == s.owner - Belongings(s, pid)
    ensures s'.procs == s.procs - {pid}
  {
    hide Inv, ProcessRuns.CanFreeRest, ProcessRuns.WithoutRest, Belongings;
    ProcessRuns.RestEnds(s, pid);
  }

  /** The links of the new task. */
  lemma NewLinks(s0: State, s1: State, s3: State, pid: nat, process: Process, g: Gathering)
    requires Inv(s0) && Inv(s1) && Inv(s3) && pid !in s0.procs && TailSettled(s0) && AssembledIn(s0, s1, process, g)
    requires var s := Adopted(s1, pid, process.Value(), g.perm, g.front + g.Back());
      && Inv(s) && HasTask(s, pid) && IsStart(s.ends.tail) && Inv(Enlisted(s, pid))
      && s3 == Enlisted(s, pid).(m := s3.m)
      && GoodDirectory(Enlisted(s, pid).m, process.directory / 4096)
      && OnlyTables(Enlisted(s, pid).m, s3.m, process.directory / 4096)
    ensures HasTask(s3, pid)
    ensures NextOf(s3, pid) == 0 && PrevOf(s3, pid) == (if s0.ends.head == 0 then 0 else s0.ends.tail)
  {
    hide Inv, Numbering, Carried, IdentityMemory, Enlisted, Sorted, Represents, Needs, TailTaken, Described;
    var s := Adopted(s1, pid, process.Value(), g.perm, g.front + g.Back());
    GatheredApart(s0, s1, process, g);
    HeapOf(s0);
    HeapOf(s1);
    HeapOf(s3);
    EnlistLeaves(s, pid);
    BlankLinks(s1, s, pid, process, g);
    if s0.ends.head != 0 {
      TaskIsNew(s0, s1, process, g);
      EnlistedOwn(s, pid);
    } else {
      EnlistedFirst(s, pid);
    }
    MapKeeps(Enlisted(s, pid), s3, pid);
  }

  lemma EnlistedFirst(s: State, pid: nat)
    requires HasTask(s, pid) && IsStart(s.ends.tail) && s.ends.head == 0 && NextOf(s, pid) == 0 && PrevOf(s, pid) == 0
    ensures HasTask(Enlisted(s, pid), pid) && NextOf(Enlisted(s, pid), pid) == 0 && PrevOf(Enlisted(s, pid), pid) == 0
  {
  }

  lemma BlankLinks(s1: State, s: State, pid: nat, process: Process, g: Gathering)
    requires s == Adopted(s1, pid, process.Value(), g.perm, g.front + g.Back()) && HasTask(s, pid)
    requires Described(s1, process.Value(), g.perm, g.front + g.Back())
    ensures NextOf(s, pid) == 0 && PrevOf(s, pid) == 0 && s.ends == s1.ends
  {
  }

  lemma TaskIsNew(s0: State, s1: State, process: Process, g: Gathering)
    requires HeapInv(s0) && HeapInv(s1) && Gathered(s0, s1, g.All()) && TailTaken(s0)
    requires Numbering(g.perm, g.inverse) && Described(s1, process.Value(), g.perm, g.front + g.Back())
    requires forall b | b in g.front + g.Back() :: b in g.All()
    ensures s0.ends.tail / 4096 != TaskPage(process.Value())
  {
    hide Represents, TailTaken;
    var p, blocks := process.Value(), g.front + g.Back();
    var i := g.inverse[|p.resources| - 2];
    assert p.resources[g.perm[i]] == HEAP_PAGE + blocks[i] && blocks[i] in blocks;
    BlockInHeap(s1, blocks[i]);
    hide Gathered, Described, Numbering;
    TailNotNew(s0, s1, g.All(), blocks[i], HEAP_PAGE + blocks[i]);
  }

  lemma MapKeeps(s2: State, s3: State, pid: nat)
    requires Inv(s2) && Inv(s3) && pid in s2.procs && s3 == s2.(m := s3.m)
    requires GoodDirectory(s2.m, s2.procs[pid].directory) && OnlyTables(s2.m, s3.m, s2.procs[pid].directory)
    ensures HasTask(s2, pid) && HasTask(s3, pid)
    ensures NextOf(s3, pid) == NextOf(s2, pid) && PrevOf(s3, pid) == PrevOf(s2, pid)
  {
    hide Inv, GoodDirectory, OnlyTables;
    OrderlyRuns.MapKeepsLinks(s2, pid, s3.m);
  }

  /** Who has what after a load: the new process the blocks gathered for it, the kernel what it keeps, and
      everybody else what they had. */
  ghost predicate Settled(s0: State, s: State, pid: nat, process: Process, g: Gathering)
    reads process
  {
    && s.live.Keys == s0.live.Keys + (set b | b in g.All())
    && (forall b <- s0.owner :: b in s.owner && s.owner[b] == s0.owner[b])
    && (forall b | b in g.All() :: b !in s0.owner && b in s.owner)
    && (forall b | b in g.All() :: if b in g.front + g.Back() then Of(s.owner[b], pid) else s.owner[b] == Role.Kernel)
    && process.task / 4096 == HEAP_PAGE + g.task && |g.space| == ENTRIES + 2
    && process.directory / 4096 == HEAP_PAGE + g.space[0]
    && (process.isElf ==> g.Places(s0.t, s.t) && OneEach(s.live, g.kept))
  }

  lemma SettledNow(s0: State, s1: State, s3: State, pid: nat, process: Process, g: Gathering)
    requires HeapInv(s0) && HeapInv(s1) && AssembledIn(s0, s1, process, g) && pid !in s0.procs
    requires var s := Adopted(s1, pid, process.Value(), g.perm, g.front + g.Back());
      s3.owner == s.owner && s3.live == s1.live && s3.t == s1.t
    ensures Settled(s0, s3, pid, process, g)
  {
    hide Represents, Carried, Described, Numbering, IdentityMemory, Sized, Gathering.Places, OneEach, Adopted, Distinct;
    hide Sorted, OldBlocksKept;
    GatheredApart(s0, s1, process, g);
    AdoptedAre(s1, pid, process.Value(), g.perm, g.front + g.Back());
    GatheredKeys(s0, s1, g.All());
  }

  lemma AdoptedAre(s: State, pid: nat, p: Proc, perm: seq<nat>, blocks: seq<nat>)
    ensures var owner := Adopted(s, pid, p, perm, blocks).owner;
      && (forall b | b in blocks :: b in owner && Of(owner[b], pid))
      && (forall b <- s.owner :: b in owner && (b !in blocks ==> owner[b] == s.owner[b]))
  {
  }

  lemma GatheredKeys(s0: State, s1: State, all: seq<nat>)
    requires HeapInv(s0) && HeapInv(s1) && Gathered(s0, s1, all)
    ensures s1.live.Keys == s0.live.Keys + (set b | b in all)
    ensures forall b | b in all :: b !in s0.owner && b in s1.owner && s1.owner[b] == Role.Kernel
    ensures forall b <- s0.owner :: b in s1.owner && s1.owner[b] == s0.owner[b]
  {
    hide Represents, Carried, Distinct, OldBlocksKept;
  }

  lemma SuccessfulLoad(s0: State, s1: State, s3: State, pid: nat, process: Process, g: Gathering, imageSize: Word,
      phs: seq<ElfLoader.Phdr>)
    requires Inv(s0) && Inv(s1) && pid !in s0.procs && TailSettled(s0) && AssembledIn(s0, s1, process, g)
    requires Mappable(process, imageSize) && g.size == imageSize
    requires var s := Adopted(s1, pid, process.Value(), g.perm, g.front + g.Back());
      && HasTask(s, pid) && IsStart(s.ends.tail)
      && (forall e <- Enlisted(s, pid).procs :: e != pid ==> Carried(Enlisted(s, pid), s3, e))
      && IdentityMemory(Enlisted(s, pid).m, process.directory / 4096)
      && s3 == Enlisted(s, pid).(m :=
                 ProgramMemory(Enlisted(s, pid).m, process.directory / 4096, process, imageSize, phs))
    ensures Loaded(s0, s3, pid, process, imageSize, phs) && Settled(s0, s3, pid, process, g)
    ensures forall e <- s0.procs :: HasTask(s0, e) && (CarriedButNext(s0, s3, e) <==> LoadSpares(s0, process.task, e))
  {
    hide Inv, Numbering, Described, Carried, IdentityMemory, TailSettled, Enlisted, Sorted, Adopted, ProgramMemory;
    hide CarriedButNext, LoadSpares, ProcessRuns.Reaches, Mappable, Distinct;
    var s := Adopted(s1, pid, process.Value(), g.perm, g.front + g.Back());
    ReadyToJoin(s0, s1, pid, process, g);
    AdoptedIs(s1, pid, process.Value(), g.perm, g.front + g.Back());
    assert MappedFrom(Enlisted(s, pid).m, s3.m, process, imageSize, phs);
    HeapOf(s0);
    WritableOf(s0);
    TailOf(s0);
    HeapOf(s1);
    EnlistLeaves(s, pid);
    NotYetThere(s0, s1, g.All());
    OldAreKept(s0, s1, g.All());
    SettledNow(s0, s1, s3, pid, process, g);
    forall e | e in s0.procs ensures HasTask(s0, e) { TaskIsThere(s0, e); }
    forall e | e in s0.procs
      ensures HasTask(s0, e) && (CarriedButNext(s0, s3, e) <==> LoadSpares(s0, process.task, e))
    {
      LoadSparesIff(s0, s, s3, pid, e);
    }
  }

  lemma RoomToOpen(s: State, path: seq<Byte>, more: nat)
    requires HeapInv(s) && HasRun(s.t, PATH_ROOM + more)
    ensures var room, text := |PathParser.FreeIn(s.live)|, CStrings.CText(path);
      && Parsed(text, room) == Parsed(text, PATH_ROOM) && PathBlocks(text) <= PATH_ROOM
      && (PathBlocks(text) == 0 <==> Parsed(text, PATH_ROOM) == None)
    ensures HasRun(s.t, more)
  {
    hide HasRun, Parsed, PathParser.FreeIn, Represents, CStrings.CText;
    ShorterRun(s.t, PATH_ROOM, more);
    RunIsRoom(s.t, PATH_ROOM);
    PathParser.FreeInIs(s.t, s.live);
    RoomEnough(CStrings.CText(path), |PathParser.FreeIn(s.live)|);
    assert PATH_ROOM + more == more + PATH_ROOM;
    ShorterRun(s.t, more, PATH_ROOM);
  }

  /** kzalloc clears the links of a task, and what else is allocated afterwards leaves them clear. */
  lemma BlankUntilNow(s3: State, s4: State, s0: State, before: seq<nat>, s: State, b: nat, new_: seq<nat>)
    requires HeapInv(s3) && HeapInv(s4) && b < HEAP_BLOCKS && s4.m == Zeroed(s3.m, Address(b), TASK_SIZE)
    requires Gathered(s0, s, before + [b] + new_) && OnlyBlocks(s4.m, s.m, new_)
    ensures BlankTask(s.m, HEAP_PAGE + b)
  {
    hide Represents, OldBlocksKept;
    var p, all := HEAP_PAGE + b, before + [b] + new_;
    assert all[|before|] == b;
    forall i | 0 <= i < |new_| ensures new_[i] != b {
      assert all[|before| + 1 + i] == new_[i];
    }
    assert InMemory(s4.m, p) && SamePage(s4.m, s.m, p);
    assert Address(b) / 4 == p * 1024;
    TaskWordsSame(s4.m, s.m, p);
  }

  // ---------------------------------------------------------------- the task list

  /** Whatever two-way list there was, it is the same, or it has the new task at its end. */
  ghost predicate ListGrows(s0: State, s: State, joined: seq<nat>) {
    forall order | TwoWay(s0, order) :: Grown(s0, s, order, joined)
  }

  /** ... and the current task is as before, or the first one if there was none. */
  ghost predicate Grown(s0: State, s: State, order: seq<nat>, joined: seq<nat>) {
    && TwoWay(s, order + joined)
    && s.ends.current == if order == [] then s.ends.head else s0.ends.current
  }

  lemma ListGrowsOn(s0: State, s1: State, s2: State, joined: seq<nat>)
    requires ListGrows(s0, s1, []) && ListGrows(s1, s2, joined)
    ensures ListGrows(s0, s2, joined)
  {
    hide TwoWay;
    forall order | TwoWay(s0, order) ensures Grown(s0, s2, order, joined) {
      assert order + [] == order;
      assert Grown(s0, s1, order, []) && Grown(s1, s2, order, joined);
    }
  }

  lemma LinksKeptGrow(s0: State, s: State)
    requires LinksKept(s0, s)
    ensures ListGrows(s0, s, [])
  {
    forall order | TwoWay(s0, order) ensures Grown(s0, s, order, []) {
      assert order + [] == order;
      TwoWayKept(s0, s, order);
    }
  }

  /** Gathering blocks does not touch the list. */
  lemma GatheredList(s0: State, s1: State, all: seq<nat>)
    requires Inv(s0) && Inv(s1) && Gathered(s0, s1, all)
    ensures ListGrows(s0, s1, [])
  {
    hide Inv, ListGrows, Carried;
    HeapOf(s1);
    OrderlyRuns.CarriedLinks(s0, s1);
    LinksKeptGrow(s0, s1);
  }

  /** The new task joins the list, and mapping its program does not touch it. */
  lemma InstalledList(s0: State, s1: State, s3: State, pid: nat, process: Process, g: Gathering)
    requires Inv(s0) && Inv(s1) && Inv(s3) && pid !in s0.procs && TailSettled(s0) && AssembledIn(s0, s1, process, g)
    requires var s := Adopted(s1, pid, process.Value(), g.perm, g.front + g.Back());
      && HasTask(s, pid) && IsStart(s.ends.tail) && Inv(Enlisted(s, pid)) && s3 == Enlisted(s, pid).(m := s3.m)
      && GoodDirectory(Enlisted(s, pid).m, process.directory / 4096)
      && OnlyTables(Enlisted(s, pid).m, s3.m, process.directory / 4096)
    ensures ListGrows(s1, s3, [pid]) && forall e <- s1.procs :: e in s3.procs && s3.procs[e] == s1.procs[e]
  {
    hide Inv, Gathered, Numbering, Described, IdentityMemory, TailSettled, Enlisted, Adopted, TwoWay, GoodDirectory;
    hide OnlyTables, Joins, Sized, LinksKept, ProcessRuns.Joined, EnlistFits;
    var p, blocks := process.Value(), g.front + g.Back();
    var s := Adopted(s1, pid, p, g.perm, blocks);
    GatheredApart(s0, s1, process, g);
    NotYetThere(s0, s1, g.All());
    ProcessRuns.AdoptionJoins(s1, pid, p, g.perm, g.inverse, blocks);
    AdoptedIs(s1, pid, p, g.perm, blocks);
    EnlistLeaves(s, pid);
    OrderlyRuns.MapKeepsLinks(Enlisted(s, pid), pid, s3.m);
    forall order | TwoWay(s1, order) ensures Grown(s1, s3, order, [pid]) {
      TwoWayJoins(s1, s, pid, order);
      TwoWayKept(Enlisted(s, pid), s3, order + [pid]);
      JoinedCurrent(s1, s, s3, order, pid);
    }
  }

  lemma JoinedCurrent(s1: State, s: State, s3: State, order: seq<nat>, pid: nat)
    requires HasTask(s, pid) && IsStart(s.ends.tail) && LinksKept(Enlisted(s, pid), s3)
    requires TwoWay(Enlisted(s, pid), order + [pid]) && TwoWay(s3, order + [pid])
    requires Enlisted(s, pid).ends.current == if order == [] then TaskOf(s, pid) else s1.ends.current
    ensures Grown(s1, s3, order, [pid])
  {
    hide Enlisted, NextOf, PrevOf, TaskOf, HasTask, LinkedAt;
    if order == [] {
      var k: nat :| k < |[pid]| && s3.ends.current == TaskOf(s3, [pid][k]);
    }
  }

  /** When the process goes again, the list is as before. */
  lemma RefusedList(s1: State, s3: State, s4: State, pid: nat)
    requires ListGrows(s1, s3, [pid]) && Inv(s3) && ProcessRuns.CanFreeRest(s3, pid)
    requires forall e <- s1.procs :: e in s3.procs && s3.procs[e] == s1.procs[e]
    requires s4 == ProcessRuns.AfterFreeRest(s3, pid)
    ensures ListGrows(s1, s4, [])
  {
    hide Inv, TwoWay, ProcessRuns.CanFreeRest, ProcessRuns.AfterFreeRest, DelistFits;
    forall order | TwoWay(s1, order) ensures Grown(s1, s4, order, []) {
      assert Grown(s1, s3, order, [pid]);
      var all := order + [pid];
      OrderlyRuns.FreeRestInOrder(s3, pid, all);
      assert all[..|all| - 1] == order + [];
      AnotherRuns(s1, s3, order, pid);
      if order == [] { NobodyRuns(s4, order); }
    }
  }

  lemma NobodyRuns(s: State, order: seq<nat>)
    requires TwoWay(s, order + []) && order == []
    ensures s.ends.current == s.ends.head
  {
  }

  /** The task that joined a list with others in it is not the current one. */
  lemma AnotherRuns(s1: State, s3: State, order: seq<nat>, pid: nat)
    requires TwoWay(s1, order) && Inv(s3) && Grown(s1, s3, order, [pid])
    requires forall e <- s1.procs :: e in s3.procs && s3.procs[e] == s1.procs[e]
    ensures HasTask(s3, pid) && (order != [] ==> s3.ends.current != TaskOf(s3, pid))
  {
    hide Inv;
    assert (order + [pid])[|order|] in order + [pid];
    if order != [] {
      var k: nat :| k < |order| && s1.ends.current == TaskOf(s1, order[k]);
      assert order[k] in order && (order + [pid])[k] == order[k];
      PlacesApart(s3, order + [pid], k, |order|);
    }
  }
}
