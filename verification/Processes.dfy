/** The process structures and the operations that update them together with the heap and the page tables. */
module Processes {
  import opened Machine
  import opened HeapTable
  import opened PageTables
  import opened KernelMemory
  import opened ProcessState
  import opened AddressSpace
  import opened ProcessMemory
  import opened ProcessLife
  import opened ProcessBirth
  import opened FirstFit
  import opened TaskLinks
  import opened TaskOrder
  import opened ProcessEnd
  import opened ProcessLoad
  import opened ProcessRecord
  import opened ProcessAssembly
  import opened ProcessFootprint
  import opened PathText
  import StringLists
  import opened Bytes
  import CStrings
  import PathParser
  import Paging
  import ElfLoader
  import ElfMapping
  import ProcessRuns
  import ProcessStores

  class ProcessTable {
    const k: Kernel
    var processes: map<nat, Process>
    var head: Word      // task_head
    var tail: Word      // task_tail
    var current: Word   // current_task
    ghost var owner: map<nat, Role>
    ghost var state: State   // the whole of memory, kept equal to the fields by Tied()

    constructor (k: Kernel)
      requires k.Valid() && k.live == map[]
      ensures Valid() && this.k == k && processes == map[] && ProcessRuns.Boot(state)
    {
      this.k := k;
      this.processes := map[];
      this.head, this.tail, this.current := 0, 0, 0;
      this.owner := map[];
      this.state := State(k.heap.Table(), map[], map[], k.ram[..], map[], Ends(0, 0, 0));
    }

    ghost function View(): map<nat, Proc>
      reads this`processes, processes.Values
    {
      map pid | pid in processes :: processes[pid].Value()
    }

    /** Processes are different objects that hold page-aligned addresses. */
    ghost predicate Separate()
      reads this`processes, processes.Values
    {
      && (forall p, q | p in processes && q in processes && p != q :: processes[p] != processes[q])
      && (forall p <- processes :: processes[p].Aligned())
    }

    ghost function ListEnds(): Ends
      reads this`head, this`tail, this`current
    {
      Ends(head, tail, current)
    }

    /** `state` is what the heap table, physical memory, the process structures and the ends of the task
        list hold. */
    ghost predicate Tied()
      reads this, k, k.heap, k.heap.entries, k.ram, processes.Values
    {
      k.Valid() && Separate() && state == State(k.heap.Table(), k.live, owner, k.ram[..], View(), ListEnds())
    }

    /** The global invariant holds of everything there is. */
    ghost predicate Valid()
      reads this, k, k.heap, k.heap.entries, k.ram, processes.Values
    {
      Tied() && Inv(state)
    }

    // -------------------------------------------------------------- the statements the operations are made of

    method Zalloc(size: Word) returns (ptr: Word)
      requires Tied() && 0 < Blocks(size) && Sound(state.t, Blocks(size))
      modifies this`state, k, k.heap.entries, k.ram
      ensures Tied()
      ensures var b := StartBlock(old(state).t, Blocks(size));
        if b < 0 then (ptr == 0 && state == old(state))
        else (b + Blocks(size) <= HEAP_BLOCKS && FreeRun(old(state).t, b, Blocks(size)) && ptr == Address(b) != 0
              && state == Zalloced(old(state), size, b))
    {
      hide Represents, MarkTaken, Zeroed;
      ptr := k.Kzalloc(size);
      state := state.(t := k.heap.Table(), live := k.live, m := k.ram[..]);
    }

    method Release(ptr: Word)
      requires Tied()
      requires !Interior(state.live, AddressToBlock(HEAP_ADDRESS, ptr))
      modifies this`state, k, k.heap.entries
      ensures Tied()
      ensures var b := AddressToBlock(HEAP_ADDRESS, ptr);
        state == old(state).(t := MarkFree(old(state).t, b), live := old(state).live - {b})
    {
      hide Represents, AddressToBlock, MarkFree, Interior;
      k.Kfree(ptr);
      state := state.(t := k.heap.Table(), live := k.live);
    }

    lemma WholeBlock(ptr: Word)
      requires Tied()
      requires AddressToBlock(HEAP_ADDRESS, ptr) in state.live || HEAP_BLOCKS <= AddressToBlock(HEAP_ADDRESS, ptr)
      ensures !Interior(state.live, AddressToBlock(HEAP_ADDRESS, ptr))
    {
      NotInside(state.t, state.live, AddressToBlock(HEAP_ADDRESS, ptr));
    }

    /** paging_map_to of [ptr, ptr + size) onto itself in the directory of pid. */
    method MapSelf(pid: nat, ptr: Word, size: Word, flags: nat) returns (res: int)
      requires Tied() && pid in state.procs && flags < 4096
      requires GoodDirectory(state.m, state.procs[pid].directory) && GoodRange(ptr, size)
      modifies this`state, k.ram
      ensures Tied() && res == 0
      ensures var s, v := old(state), ptr / 4096;
        state == s.(m := MapPages(s.m, s.procs[pid].directory, v, v, (AlignUp(ptr + size) - ptr) / 4096, flags))
    {
      hide Represents, GoodDirectory, MapPages;
      res := Paging.MapTo(k.ram, processes[pid].directory, ptr, ptr, AlignUp(ptr + size), flags);
      state := state.(m := k.ram[..]);
    }

    method Records(pid: nat) returns (allocations: seq<Allocation>)
      requires Tied() && pid in state.procs
      ensures allocations == state.procs[pid].allocations
    {
      allocations := processes[pid].allocations;
    }

    method SetAllocations(pid: nat, allocations: seq<Allocation>)
      requires Separate() && pid in processes
      modifies (processes[pid] as Process)`allocations
      ensures Separate() && pid in old(View())
      ensures View() == old(View())[pid := old(View())[pid].(allocations := allocations)]
    {
      hide PagesOf;
      processes[pid].allocations := allocations;
    }

    method SetRecords(pid: nat, allocations: seq<Allocation>, ghost owner: map<nat, Role>)
      requires Tied() && pid in processes
      modifies this`owner, this`state, (processes[pid] as Process)`allocations
      ensures Tied() && pid in state.procs && pid in old(state).procs
      ensures var s := old(state);
        state == s.(owner := owner, procs := s.procs[pid := s.procs[pid].(allocations := allocations)])
    {
      hide Represents, Separate, View;
      SetAllocations(pid, allocations);
      this.owner := owner;
      state := state.(owner := owner, procs := View());
    }

    lemma Unknown(pid: nat)
      requires Tied() && pid !in processes
      ensures pid !in state.procs
    {
    }

    /** What Tied() says about one process. */
    lemma Known(pid: nat)
      requires Tied() && pid in processes
      ensures pid in state.procs && state.procs[pid] == processes[pid].Value() && processes[pid].Aligned()
      ensures View() == state.procs && Separate() && k.Valid()
      ensures k.live == state.live && k.ram[..] == state.m && owner == state.owner && |state.t| == HEAP_BLOCKS
      ensures ListEnds() == state.ends
    {
    }

    /** A word stored in memory that process pid was given. */
    method StoreWord(w: nat, v: Word, ghost b: nat, ghost pid: nat)
      requires Valid() && b in state.owner && b in state.live && state.owner[b].Memory? && state.owner[b].pid == pid
      requires (HEAP_PAGE + b) * 1024 <= w < (HEAP_PAGE + b + state.live[b]) * 1024
      modifies this`owner, this`state, k.ram
      ensures Valid() && w < |old(state).m| && state == old(state).(m := old(state).m[w := v])
      ensures forall e :: e != pid ==> Carried(old(state), state, e)
      ensures ProcessRuns.Reaches(old(state), state)
    {
      hide Inv, Represents, Tied, Carried, ProcessRuns.Reaches, ProcessStores.OnlyData;
      ghost var s := state;
      Roots();
      ProcessStores.MemoryStore(s, b, w, v, pid, if w < |s.m| then s.(m := s.m[w := v]) else s);
      ProcessStores.StoreKeepsInv(s, s.m[w := v]);
      ProcessRuns.StoreReaches(s, s.m[w := v]);
      k.ram[w] := v;
      SetState(s.(m := s.m[w := v]));
    }

    // -------------------------------------------------------------- process_malloc

    method Malloc(pid: nat, size: Word) returns (ptr: Word)
      requires Valid() && pid in processes && CanMalloc(state, pid, size)
      modifies this`owner, this`state, k, k.heap.entries, k.ram, processes[pid]
      ensures Valid() && processes == old(processes)
      ensures state == AfterMalloc(old(state), pid, size)
      ensures ptr == MallocResult(old(state), pid, size)
      ensures ptr != 0 ==> AllZero(state.m, ptr, size)
      ensures ProcessRuns.Reaches(old(state), state)
    {
      hide Inv, CanMalloc, Represents, AfterMalloc, MallocResult, MallocMoves, Sound, Tied, GoodDirectory, Zeroed,
          StartBlock, AllZero;
      ghost var s := state;
      if MallocResult(s, pid, size) != 0 {
        GrantedIsZero(s, pid, size);
      }
      BeforeMalloc(s, pid, size);
      ProcessRuns.MallocReaches(s, pid, size);
      ptr := MallocBody(pid, size);
      MallocMovesToAfter(s, state, pid, size, ptr);
    }

    method MallocBody(pid: nat, size: Word) returns (ptr: Word)
      requires Tied() && pid in processes && pid in state.procs && 0 < Blocks(size) && Sound(state.t, Blocks(size))
      requires Represents(state.t, state.live) && |state.t| == HEAP_BLOCKS
      requires var b := StartBlock(state.t, Blocks(size));
        0 <= b ==> b < HEAP_BLOCKS && GoodDirectory(Zeroed(state.m, Address(b), size), state.procs[pid].directory)
      modifies this`owner, this`state, k, k.heap.entries, k.ram, processes[pid]
      ensures Tied() && MallocMoves(old(state), state, pid, size, ptr)
    {
      hide Represents, GoodDirectory, MapPages, MarkTaken, Zeroed, StartBlock, FreeRun, FirstSlot, Blocks, Tied, Sound;
      ptr := Zalloc(size);
      if ptr == 0 {
        return;
      }
      var allocations := Records(pid);
      var index := FindSlot(allocations, 0);
      if index < 0 {
        UndoRestores(old(state).t, old(state).live, StartBlock(old(state).t, Blocks(size)), Blocks(size));
        WholeBlock(ptr);
        Release(ptr);
        ptr := 0;
        return;
      }
      RangeOfBlock(StartBlock(old(state).t, Blocks(size)), size);
      var res := MapSelf(pid, ptr, size, RW_USER);
      if res < 0 {
        return;
      }
      SetRecords(pid, allocations[index := Allocation(ptr, size)],
        state.owner[StartBlock(old(state).t, Blocks(size)) := Memory(pid, index)]);
    }

    // -------------------------------------------------------------- process_free

    /** process_free, for any pointer. */
    method Free(pid: nat, ptr: Word)
      requires Valid() && pid in processes && pid in state.procs
      modifies this`owner, this`state, k, k.heap.entries, k.ram, processes[pid]
      ensures Valid() && processes == old(processes) && state == AfterFree(old(state), pid, ptr)
      ensures ProcessRuns.Reaches(old(state), state)
    {
      hide Inv, Represents, AfterFree, Freeable, Unrecorded, Tied;
      FreeKeepsInv(state, pid, ptr);
      FreeAsCoded(state, pid, ptr);
      ProcessRuns.FreeReaches(state, pid, ptr);
      FreeBody(pid, ptr);
    }

    method FreeBody(pid: nat, ptr: Word)
      requires Tied() && pid in processes && pid in state.procs
      requires var i := FirstSlot(state.procs[pid].allocations, ptr, 0);
        i != -1 ==> Freeable(state, pid, state.procs[pid].allocations[i])
      modifies this`owner, this`state, k, k.heap.entries, k.ram, processes[pid]
      ensures Tied()
      ensures var s, i := old(state), FirstSlot(old(state).procs[pid].allocations, ptr, 0);
        state == if i == -1 then s else Unrecorded(s, pid, s.procs[pid].allocations[i])
    {
      hide Represents, GoodDirectory, MapPages, MarkFree, AddressToBlock, Tied, AlignUp, Cleared, Interior;
      var allocations := Records(pid);
      var index := FindSlot(allocations, ptr);
      if index < 0 {
        return;
      }
      var a := allocations[index];
      var res := MapSelf(pid, a.ptr, a.size, 0);
      if res < 0 {
        return;
      }
      var cleared := Unjoin(allocations, ptr);
      SetRecords(pid, cleared, state.owner - {AddressToBlock(HEAP_ADDRESS, ptr)});
      WholeBlock(ptr);
      Release(ptr);
    }

    // -------------------------------------------------------------- process_terminate_allocations

    method TerminateAllocations(pid: nat)
      requires Valid() && pid in processes && pid in state.procs && |state.procs[pid].allocations| == SLOTS
      modifies this`owner, this`state, k, k.heap.entries, k.ram, processes[pid]
      ensures Valid() && processes == old(processes) && state == FreeFrom(old(state), pid, 0)
      ensures ProcessRuns.Reaches(old(state), state)
    {
      hide Inv, Represents, AfterFree, FreeFrom, Tied, ProcessRuns.Reaches;
      ghost var s := state;
      ProcessRuns.ReachesSelf(s);
      var i := 0;
      while i < SLOTS
        invariant 0 <= i <= SLOTS && Valid() && processes == old(processes)
        invariant pid in state.procs && |state.procs[pid].allocations| == SLOTS
        invariant FreeFrom(state, pid, i) == FreeFrom(s, pid, 0) && ProcessRuns.Reaches(s, state)
      {
        ghost var s1 := state;
        FreeFromStep(state, pid, i);
        var allocations := Records(pid);
        if allocations[i].ptr != 0 {
          Free(pid, allocations[i].ptr);
          ProcessRuns.ReachesOn(s, s1, state);
        } else {
          NullFreeIsNothing(state, pid);
        }
        i := i + 1;
      }
      FreeFromEnd(state, pid);
    }

    // -------------------------------------------------------------- process_terminate

    /**
     process_terminate: unlink the process, end its allocations, then free everything else it has.  The
     process's own blocks go and no others.  What is left is consistent if and only if the link that
     task_list_remove writes does no harm where it lands, and no word of another process changes, but
     the `next` of its task, if and only if the link lands in no other block of that process or is
     there already.
     */
    method Terminate(pid: nat)
      requires Valid() && pid in processes && pid in state.procs && |state.procs[pid].allocations| == SLOTS
      modifies this, k, k.heap.entries, k.ram, processes[pid]
      ensures Tied() && processes == old(processes) - {pid} && Gone(old(state), state, pid)
      ensures HasTask(old(state), pid) && IsStart(PrevOf(old(state), pid))
      ensures Valid() <==> DelistFits(old(state), pid)
      ensures forall e <- state.procs ::
                && e in old(state).procs && HasTask(old(state), e)
                && (CarriedButNext(old(state), state, e) <==> DelistSpares(old(state), pid, e))
      ensures PrevOf(old(state), pid) == 0 ==>
                forall e <- old(state).procs :: e != pid ==> Carried(old(state), state, e)
      ensures var s := old(state);
              state.ends == DelistedEnds(s.ends, TaskOf(s, pid), NextOf(s, pid), PrevOf(s, pid))
      ensures forall order, i: nat | TwoWay(old(state), order) && i < |order| && order[i] == pid ::
                Valid() && (forall e <- order :: HasTask(old(state), e)) && ClosedUp(old(state), state, order, i)
      ensures ProcessRuns.Reaches(old(state), state)
    {
      hide Inv, Represents, FreeFrom, Footprint, Belongings, Tied, ProcessRuns.Reaches, Gone, DelistFits, HasTask;
      hide DelistSpares, CarriedButNext, PrevOf, ProcessRuns.CanFreeRest, Carried, DelistedEnds, NextOf;
      hide ClosedUp, TwoWay;
      ghost var s := state;
      FreeFromReleasesOwn(s, pid, 0);
      TerminateAllocations(pid);
      ghost var s1 := state;
      FreeProcess(pid);
      TerminationIff(s, s1, pid);
      if PrevOf(s, pid) == 0 {
        FirstGoesQuietly(s, s1, pid);
      }
      forall order, i: nat | TwoWay(s, order) && i < |order| && order[i] == pid
        ensures DelistFits(s, pid) && (forall e <- order :: HasTask(s, e)) && ClosedUp(s, state, order, i)
      {
        TerminationCloses(s, s1, order, i);
      }
      ProcessRuns.ReachesOn(s, s1, state);
    }

    /** The rest of process_free_process, for a process without allocations. */
    method FreeProcess(pid: nat)
      requires Valid() && pid in processes && pid in state.procs && state.procs[pid].allocations == NoAllocations()
      modifies this, k, k.heap.entries, k.ram
      ensures Tied() && processes == old(processes) - {pid}
      ensures ProcessRuns.CanFreeRest(old(state), pid) && state == ProcessRuns.AfterFreeRest(old(state), pid)
      ensures ProcessRuns.Reaches(old(state), state)
    {
      hide Represents, Inv, Tied, Separate, View, FreeableFootprint, Belongings, Without, Process.Value, HasTask;
      hide ProcessRuns.Reaches, ProcessRuns.CanFreeRest, ProcessRuns.AfterFreeRest, DelistedMemory, DelistedEnds;
      ghost var s := state;
      var process := processes[pid];
      Known(pid);
      ghost var blocks := FootprintOfProcess(s, pid, process);
      RestIsFreeable(s, pid, process);
      TaskIsThere(s, pid);
      TaskIs(s, pid, process);
      FreeBeforeTask(k, process.Image() + [process.stack], process.chunk, process.task, process.self,
        process.directory, blocks);
      RemoveFromList(process.task, s, pid);
      FreeTask(k, process.task, process.self, |process.Image()| + 1, s.live, blocks);
      Forget(pid, s, blocks);
    }

    /** task_list_remove, whatever the task's `prev` is. */
    method RemoveFromList(task: Word, ghost s: State, ghost pid: nat)
      requires k.ram[..] == s.m && ListEnds() == s.ends && HasTask(s, pid) && task == TaskOf(s, pid)
      requires IsStart(PrevOf(s, pid))
      modifies this`head, this`tail, this`current, k.ram
      ensures k.ram[..] == DelistedMemory(s, pid)
      ensures ListEnds() == DelistedEnds(s.ends, task, NextOf(s, pid), PrevOf(s, pid))
    {
      var w := task / 4;
      TaskWords(s, pid);
      var prev := k.ram[w + TASK_PREV];
      if prev != 0 {
        k.ram[prev / 4 + TASK_NEXT] := k.ram[w + TASK_NEXT];
      }
      assert k.ram[w + TASK_NEXT] == NextOf(s, pid);
      if task == head {
        head := k.ram[w + TASK_NEXT];
      }
      if task == tail {
        tail := k.ram[w + TASK_PREV];
      }
      if task == current {
        current := if k.ram[w + TASK_NEXT] == 0 then head else k.ram[w + TASK_NEXT];
      }
    }

    /** processes[id] = 0. */
    method Unlink(pid: nat)
      requires Separate()
      modifies this`processes
      ensures processes == old(processes) - {pid} && Separate() && View() == old(View()) - {pid}
    {
      processes := processes - {pid};
    }

    /** processes[id] = 0, and the kernel's own account of what is left. */
    method Forget(pid: nat, ghost s: State, ghost blocks: seq<nat>)
      requires k.Valid() && Separate() && Inv(s) && pid in processes && pid in s.procs && View() == s.procs
      requires ProcessRuns.CanFreeRest(s, pid) && HasTask(s, pid) && IsStart(PrevOf(s, pid))
      requires k.live == Without(s.live, blocks) && k.ram[..] == DelistedMemory(s, pid) && owner == s.owner
      requires |s.t| == HEAP_BLOCKS
      requires ListEnds() == DelistedEnds(s.ends, TaskOf(s, pid), NextOf(s, pid), PrevOf(s, pid))
      requires forall b :: b in blocks <==> b in Belongings(s, pid)
      modifies this`processes, this`owner, this`state
      ensures Tied() && processes == old(processes) - {pid}
      ensures state == ProcessRuns.AfterFreeRest(s, pid) && ProcessRuns.Reaches(s, state)
    {
      hide Represents, Inv, Belongings, Separate, View, ProcessRuns.Reaches, ProcessRuns.CanFreeRest, HasTask;
      hide ProcessRuns.WithoutRest, DelistedMemory, DelistedEnds, PrevOf, NextOf;
      Unlink(pid);
      owner := owner - Belongings(s, pid);
      ghost var s1 := State(k.heap.Table(), k.live, owner, s.m, View(), s.ends);
      assert (set b | b in blocks) == Belongings(s, pid);
      ProcessRuns.RestIs(s, s1, pid);
      state := s1.(m := k.ram[..], ends := ListEnds());
      ProcessRuns.FreeRestReaches(s, pid);
    }

    // -------------------------------------------------------------- the kernel's own allocations

    /** kzalloc on the kernel's own behalf. */
    method KernelMalloc(size: Word) returns (ptr: Word)
      requires Valid() && CanAllocate(state, size)
      modifies this`owner, this`state, k, k.heap.entries, k.ram
      ensures Valid() && state == AfterKernelMalloc(old(state), size)
      ensures var b := StartBlock(old(state).t, Blocks(size));
              if b < 0 then ptr == 0 else b < HEAP_BLOCKS && ptr == Address(b)
      ensures ProcessRuns.Reaches(old(state), state)
    {
      KernelMallocKeepsInv(state, size);
      ProcessRuns.KernelMallocReaches(state, size);
      hide Inv, Represents, Zeroed, MarkTaken, Separate, View, ProcessRuns.Reaches;
      ptr := Zalloc(size);
      if ptr != 0 {
        SetOwner(state.owner[StartBlock(old(state).t, Blocks(size)) := Role.Kernel]);
      }
    }

    ghost method SetOwner(owner: map<nat, Role>)
      requires Tied()
      modifies this`owner, this`state
      ensures Tied() && state == old(state).(owner := owner)
    {
      hide Represents;
      this.owner := owner;
      state := state.(owner := owner);
    }

    /** kfree on the kernel's own behalf, of any pointer after which heap and processes can still be
        consistent; of a block that nobody has, it changes nothing. */
    method KernelFree(ptr: Word)
      requires Valid() && ConsistentAfterFree(state, AddressToBlock(HEAP_ADDRESS, ptr))
      modifies this`owner, this`state, k, k.heap.entries
      ensures Valid() && state == AfterKernelFree(old(state), AddressToBlock(HEAP_ADDRESS, ptr))
      ensures ProcessRuns.Reaches(old(state), state)
    {
      hide Inv, Represents, MarkFree, Interior, ConsistentAfterFree, Tied, ProcessRuns.Reaches, AddressToBlock;
      ghost var s, b := state, AddressToBlock(HEAP_ADDRESS, ptr);
      KernelFreeKeepsInvIff(s, b);
      KernelFreeReaches(s, b);
      Release(ptr);
      SetOwner(state.owner - {b});
    }

    lemma KernelFreeReaches(s: State, b: nat)
      requires Inv(s) && !Interior(s.live, b) && (b in s.owner ==> s.owner[b] == Role.Kernel)
      ensures Inv(AfterKernelFree(s, b)) && ProcessRuns.Reaches(s, AfterKernelFree(s, b))
    {
      hide Represents, ProcOk, RoleOk, Interior, ProcessRuns.Reaches;
      if b in s.owner {
        KernelFreeKeepsInv(s, b);
        ProcessRuns.KernelFreeReaches(s, b);
      } else {
        FreeOutside(s.t, s.live, b);
        assert AfterKernelFree(s, b) == s;
        ProcessRuns.ReachesSelf(s);
      }
    }

    // -------------------------------------------------------------- process_load_for_slot

    /** One block more for a process that is being put together. */
    method Gather(size: Word, ghost s0: State, ghost blocks: seq<nat>, ghost more: nat)
        returns (ptr: Word, ghost b: nat)
      requires Valid() && Gathered(s0, state, blocks) && 0 < Blocks(size) && HasRun(state.t, Blocks(size) + more)
      modifies this`owner, this`state, k, k.heap.entries, k.ram
      ensures Valid() && HasRun(state.t, more)
      ensures b + Blocks(size) <= HEAP_BLOCKS && ptr == Address(b) && Gathered(s0, state, blocks + [b])
      ensures state.live == old(state).live[b := Blocks(size)] && b !in old(state).live
      ensures state.m == Zeroed(old(state).m, ptr, size)
      ensures b == StartBlock(old(state).t, Blocks(size)) && state.t == MarkTaken(old(state).t, b, Blocks(size))
      ensures ProcessRuns.Reaches(old(state), state)
    {
      hide ProcessRuns.Reaches, ProcOk, RoleOk, Zeroed, MarkTaken, Represents, Gathered;
      ghost var s := state;
      RunRemains(s.t, Blocks(size), more);
      b := StartBlock(s.t, Blocks(size));
      KernelMallocCarries(s, size, b);
      ptr := KernelMalloc(size);
      GatherOne(s0, s, blocks, state, b);
    }

    /** And one given back. */
    method GiveBack(ptr: Word, ghost s0: State, ghost blocks: seq<nat>, ghost i: nat, ghost more: nat)
      requires Valid() && HeapInv(s0) && Gathered(s0, state, blocks) && i < |blocks| && blocks[i] < HEAP_BLOCKS
      requires ptr == Address(blocks[i]) && HasRun(state.t, more)
      modifies this`owner, this`state, k, k.heap.entries
      ensures Valid() && Gathered(s0, state, blocks[..i] + blocks[i + 1..]) && HasRun(state.t, more)
      ensures state.live == old(state).live - {blocks[i]}
      ensures ProcessRuns.Reaches(old(state), state)
    {
      hide ProcessRuns.Reaches, Inv, HeapInv, Gathered, Tied, Interior, ConsistentAfterFree;
      HeapIsBelowNarrowMask(blocks[i]);
      GatherLess(s0, state, blocks, i);
      FreeKeepsRuns(state.t, blocks[i], more);
      TiedNow();
      WholeBlock(ptr);
      KernelFreeKeepsInvIff(state, blocks[i]);
      KernelFree(ptr);
    }

    lemma HeapNow()
      requires Valid()
      ensures HeapInv(state)
    {
    }

    lemma TiedNow()
      requires Valid()
      ensures Tied() && Inv(state) && state.owner.Keys == state.live.Keys
    {
    }

    /** The address space of a process that is being put together. */
    method GatherSpace(flags: nat, ghost s0: State, ghost blocks: seq<nat>)
        returns (chunk: Word, directory: Word, ghost new_: seq<nat>)
      requires Valid() && Gathered(s0, state, blocks) && flags < 256 && HasRun(state.t, 1026)
      modifies this`owner, this`state, k, k.heap.entries, k.ram
      ensures Valid()
      ensures Gathered(s0, state, blocks + new_) && SpaceGathered(state, chunk, directory, new_, flags)
      ensures OnlyBlocks(old(state).m, state.m, new_) && FirstOnes(old(state).t, state.t, new_)
      ensures AllStillLive(old(state).live, state.live)
      ensures ProcessRuns.Reaches(old(state), state)
    {
      hide Inv, HeapInv, Represents, Created, SpaceGathered, Gathered, HasRun, Separate, View, FreshBlocks, InMemory;
      hide AfterCreation, Tied, ProcessRuns.Reaches, FirstOnes;
      Roots();
      ghost var s := state;
      RunIsRoom(s.t, 1026);
      ghost var d, tables;
      chunk, d, tables := New4gb(k, flags);
      CreatedIsGathered(s, k.heap.Table(), k.live, k.ram[..], chunk, d, tables, flags);
      new_ := [d] + tables + [chunk / 4096 - HEAP_PAGE];
      CreationIs(s, k.heap.Table(), k.live, k.ram[..], new_);
      StillAfter(s, k.heap.Table(), k.live, k.ram[..], new_);
      ChunkLeads(s.live, s.m, k.live, k.ram[..], chunk, d, tables, flags);
      directory := k.ram[chunk / 4];
      GatherCreated(s0, s, blocks, k.heap.Table(), k.live, k.ram[..], new_);
      ProcessRuns.CreationReaches(s, k.heap.Table(), k.live, k.ram[..], new_);
      TakeOver(s, new_);
    }

    /** fopen for reading, on behalf of a load: the parsed path stays in the heap when the file system has
        the file, and is taken apart again when it has not. */
    method Open(path: seq<Byte>, found: bool, ghost s0: State, ghost all: seq<nat>, ghost more: nat)
      returns (isOpen: bool, ghost kept: seq<nat>)
      requires Valid() && 0 in path && Gathered(s0, state, all) && HasRun(state.t, PATH_ROOM + more)
      modifies this`owner, this`state, k, k.heap.entries, k.ram
      ensures Valid() && Gathered(s0, state, all + kept) && HasRun(state.t, more)
      ensures isOpen <==> found && PathBlocks(CStrings.CText(path)) != 0
      ensures |kept| == if isOpen then PathBlocks(CStrings.CText(path)) else 0
      ensures FirstOnes(old(state).t, state.t, kept) && AllStillLive(old(state).live, state.live)
      ensures OneEach(state.live, kept)
      ensures ProcessRuns.Reaches(old(state), state)
    {
      hide Inv, Represents, Gathered, Tied, FirstOnes, PathParser.Holds, PathParser.OnlyFree, PathParser.BlockOf;
      hide ProcessRuns.Reaches, CStrings.CText, Parsed, View, Separate, HasRun, PathParser.FreeIn;
      ghost var s := state;
      Roots();
      RoomToOpen(s, path, more);
      var root;
      ghost var nodes;
      root, nodes := PathParser.Parse(k, path);
      if root == null {
        Unchanged(s, s0, all);
        FirstNone(s.t);
        assert all + [] == all;
        return false, [];
      }
      if !found {
        PathParser.Free(k, root, nodes, s.live);
        TableUnique(k.heap.Table(), s.t, s.live);
        Unchanged(s, s0, all);
        FirstNone(s.t);
        assert all + [] == all;
        return false, [];
      }
      kept := [PathParser.BlockOf(root.address)] + PathParser.Owned(nodes);
      StringLists.TextsLength<PathParser.Place>(nodes, MAX_PATH, Parsed(CStrings.CText(path), PATH_ROOM).value.parts);
      OpenKeepsInv(s0, s, all, k.heap.Table(), k.live, k.ram[..], kept);
      OnesRemain(s.t, k.heap.Table(), kept, PATH_ROOM - |kept| + more);
      ShorterRun(k.heap.Table(), more, PATH_ROOM - |kept|);
      SetState(AfterOpen(s, k.heap.Table(), k.live, k.ram[..], kept));
      isOpen := true;
    }

    /** The parsed path could not be opened: only free pages were written. */
    ghost method Unchanged(s: State, s0: State, all: seq<nat>)
      requires k.Valid() && Separate() && View() == s.procs && owner == s.owner && ListEnds() == s.ends
      requires Inv(s) && Gathered(s0, s, all) && k.live == s.live && k.heap.Table() == s.t
      requires PathParser.OnlyFree(s.live, s.m, k.ram[..])
      modifies this`owner, this`state
      ensures Valid() && state == s.(m := k.ram[..]) && Gathered(s0, state, all) && ProcessRuns.Reaches(s, state)
    {
      hide Inv, Represents, Gathered, PathParser.OnlyFree, View, Separate, ProcessRuns.Reaches;
      OpenInVain(s0, s, all, k.ram[..]);
      SetState(s.(m := k.ram[..]));
    }

    /** What process_load_data leaves gathered: the process's own blocks so far, the image last, and in
        between what the kernel keeps. */
    ghost predicate Assembled(s0: State, process: Process, g: Gathering)
      reads this`state, process
    {
      AssembledIn(s0, state, process, g)
    }

    ghost predicate DataGathered(s0: State, front: seq<nat>, kept: seq<nat>, image: nat, size: Word)
      reads this`state
    {
      Gathered(s0, state, front + kept + [image]) && image < HEAP_BLOCKS
      && image in state.live && state.live[image] == Blocks(size)
    }

    /** elf_load: 0, or -EIO when the file cannot be opened, or -EINFORMAT when it is no ELF file.  In each
        case the parsed path stays behind if the file was opened. */
    method ElfLoad(path: seq<Byte>, f: File, ghost s0: State, ghost b0: nat, ghost more: nat)
      returns (res: int, file: Word, memory: Word, ghost front: seq<nat>, ghost kept: seq<nat>, ghost image: nat,
               ghost tables: seq<seq<Entry>>)
      requires Valid() && HeapInv(s0) && 0 in path && Gathered(s0, state, [b0]) && 0 < Blocks(f.size)
      requires HasRun(state.t, 1 + (PATH_ROOM + (Blocks(f.size) + more))) && FirstRun(s0.t, state.t, b0, 3)
      modifies this`owner, this`state, k, k.heap.entries, k.ram
      ensures Valid() && HasRun(state.t, more) && ProcessRuns.Reaches(old(state), state)
      ensures |kept| == if f.found then PathBlocks(CStrings.CText(path)) else 0
      ensures res == if kept == [] then -EIO else if f.isElf then 0 else -EINFORMAT
      ensures OneEach(state.live, kept) && (res < 0 ==> Gathered(s0, state, [b0] + kept))
      ensures res == 0 ==>
                && DataGathered(s0, front, kept, image, f.size)
                && |front| == 2 && front[0] == b0 && front[1] < HEAP_BLOCKS
                && file == Address(front[1]) && memory == Address(image)
                && DataPlaced(tables, front, kept, image, Blocks(f.size)) && tables[0] == s0.t && tables[4] == state.t
    {
      hide Inv, HeapInv, Tied, Represents, Gathered, ProcessRuns.Reaches, HasRun, CStrings.CText, FirstOnes;
      hide MarkTaken, Zeroed, StartBlock;
      assert Blocks(ELF_FILE_SIZE) == 1;
      ghost var t0 := state;
      ghost var b;
      front, kept, image, memory, tables := [b0], [], 0, 0, [];
      file, b := Gather(ELF_FILE_SIZE, s0, [b0], PATH_ROOM + (Blocks(f.size) + more));
      ghost var t1 := state;
      front := [b0] + [b];
      var isOpen;
      isOpen, kept := Open(path, f.found, s0, front, Blocks(f.size) + more);
      ghost var t2 := state;
      ProcessRuns.ReachesOn(t0, t1, t2);
      if !isOpen {
        GiveBack(file, s0, front + kept, 1, Blocks(f.size) + more);
        ProcessRuns.ReachesOn(t0, t2, state);
        assert (front + kept)[..1] + (front + kept)[2..] == [b0] + kept;
        ShorterRun(state.t, more, Blocks(f.size));
        return -EIO, file, 0, front, kept, 0, tables;
      }
      memory, image := Gather(f.size, s0, front + kept, more);
      ghost var t3 := state;
      tables := [s0.t, t0.t, t1.t, t2.t, t3.t];
      ProcessRuns.ReachesOn(t0, t2, t3);
      if !f.isElf {
        GiveBack(memory, s0, front + kept + [image], |front + kept|, more);
        ghost var t4 := state;
        ProcessRuns.ReachesOn(t0, t3, t4);
        ghost var all, n := front + kept + [image], |front + kept|;
        assert all[..n] + all[n + 1..] == front + kept;
        GiveBack(file, s0, front + kept, 1, more);
        ProcessRuns.ReachesOn(t0, t4, state);
        assert (front + kept)[..1] + (front + kept)[2..] == [b0] + kept;
        HeapNow();
        OneEachRemains(s0, state, [b0] + kept, t3.live, kept);
        return -EINFORMAT, file, memory, front, kept, image, tables;
      }
      res := 0;
    }

    /** process_load_data: an ELF file, or else a flat binary, for which the file is opened once more. */
    method LoadData(path: seq<Byte>, f: File, ghost s0: State, ghost b0: nat, ghost more: nat)
      returns (res: int, ptr: Word, elfMemory: Word, ghost front: seq<nat>, ghost kept: seq<nat>, ghost image: nat,
               ghost tables: seq<seq<Entry>>)
      requires Valid() && HeapInv(s0) && 0 in path && Gathered(s0, state, [b0]) && 0 < Blocks(f.size)
      requires FirstRun(s0.t, state.t, b0, 3)
      requires HasRun(state.t, 1 + (PATH_ROOM + (Blocks(f.size) + (PATH_ROOM + (Blocks(f.size) + more)))))
      modifies this`owner, this`state, k, k.heap.entries, k.ram
      ensures Valid() && HasRun(state.t, more) && ProcessRuns.Reaches(old(state), state)
      ensures |kept| == KeptBy(path, f) && res == if HasData(path, f) then 0 else -EIO
      ensures res < 0 ==> Gathered(s0, state, [b0] + kept) && OneEach(state.live, kept)
      ensures res == 0 ==> DataGathered(s0, front, kept, image, f.size)
      ensures res == 0 && f.isElf ==>
                && |front| == 2 && front[0] == b0 && front[1] < HEAP_BLOCKS
                && ptr == Address(front[1]) && elfMemory == Address(image) && OneEach(state.live, kept)
                && DataPlaced(tables, front, kept, image, Blocks(f.size)) && tables[0] == s0.t && tables[4] == state.t
      ensures res == 0 && !f.isElf ==>
                front == [b0] && ptr == Address(image) && elfMemory == 0 && ptr + f.size < 0x1000_0000
    {
      hide Inv, HeapInv, Tied, Represents, Gathered, ProcessRuns.Reaches, HasRun, CStrings.CText, FirstOnes, PathBlocks;
      ghost var t0, img := state, Blocks(f.size);
      res, ptr, elfMemory, front, kept, image, tables := ElfLoad(path, f, s0, b0, PATH_ROOM + (img + more));
      ghost var t1 := state;
      if res != -EINFORMAT {
        ShorterRun(state.t, more, PATH_ROOM + img);
        return;
      }
      var isOpen;
      ghost var second;
      isOpen, second := Open(path, f.again, s0, [b0] + kept, img + more);
      ghost var t2 := state;
      ProcessRuns.ReachesOn(t0, t1, t2);
      OneEachStill(t1.live, t2.live, kept);
      assert [b0] + kept + second == [b0] + (kept + second);
      if !isOpen {
        ShorterRun(state.t, more, img);
        return -EIO, ptr, 0, front, kept + second, image, tables;
      }
      ptr, image := Gather(f.size, s0, [b0] + kept + second, more);
      ProcessRuns.ReachesOn(t0, t2, state);
      BlockFits(image, f.size);
      front, kept, elfMemory, res := [b0], kept + second, 0, 0;
    }

    /** Everything process_load_for_slot allocates, gathered and recorded in a new process; or, when there is
        no data, nothing but what the kernel keeps. */
    method Assemble(path: seq<Byte>, f: File) returns (res: int, process: Process?, ghost g: Gathering)
      requires Valid() && 0 in path && 0 < Blocks(f.size) && HasRun(state.t, LOAD_ROOM + 2 * Blocks(f.size))
      modifies this`owner, this`state, k, k.heap.entries, k.ram
      ensures Valid() && ProcessRuns.Reaches(old(state), state)
      ensures |g.kept| == KeptBy(path, f) && g.size == f.size && res == if HasData(path, f) then 0 else -EIO
      ensures res < 0 ==> process == null && Gathered(old(state), state, g.kept) && OneEach(state.live, g.kept)
      ensures res < 0 ==> g.image == 0
      ensures res == 0 ==> process != null && fresh(process) && Assembled(old(state), process, g)
      ensures res == 0 ==> process.isElf == f.isElf && Mappable(process, f.size) && g.size == f.size
    {
      hide Inv, HeapInv, Tied, Represents, Gathered, SpaceGathered, HasRun, Address, Described, Numbering;
      hide IdentityMemory, ProcessRuns.Reaches, PathBlocks, CStrings.CText, FirstOnes;
      ghost var s0, img := state, Blocks(f.size);
      Roots();
      GatherNone(s0);
      SizesInBlocks();
      ghost var b0, image, front, kept, tables;
      var self, ptr, elfMemory;
      self, b0 := Gather(PROCESS_SIZE, s0, [], 1 + (PATH_ROOM + (img + (PATH_ROOM + (img + 1031)))));
      assert [] + [b0] == [b0];
      ghost var s1 := state;
      res, ptr, elfMemory, front, kept, image, tables := LoadData(path, f, s0, b0, 1031);
      ghost var s2 := state;
      ProcessRuns.ReachesOn(s0, s1, s2);
      if res < 0 {
        GiveBack(self, s0, [b0] + kept, 0, 1031);
        ProcessRuns.ReachesOn(s0, s2, state);
        assert ([b0] + kept)[..0] + ([b0] + kept)[1..] == kept;
        HeapNow();
        OneEachRemains(s0, state, kept, s2.live, kept);
        return res, null, Gathering([], 0, 0, 0, [], kept, [], [], f.size, [], []);
      }
      process, g := Complete(self, ptr, elfMemory, f, s0, b0, front, kept, image, tables);
      ProcessRuns.ReachesOn(s0, s2, state);
    }

    /** Stack, task and address space. */
    method GatherRest(ghost s0: State, ghost before: seq<nat>)
      returns (stack: Word, task: Word, chunk: Word, directory: Word,
               ghost b1: nat, ghost b2: nat, ghost new_: seq<nat>, ghost tables: seq<seq<Entry>>)
      requires Valid() && HasRun(state.t, 1031) && Gathered(s0, state, before)
      modifies this`owner, this`state, k, k.heap.entries, k.ram
      ensures Valid() && ProcessRuns.Reaches(old(state), state) && AllStillLive(old(state).live, state.live)
      ensures b1 < HEAP_BLOCKS && b2 < HEAP_BLOCKS && stack == Address(b1) && task == Address(b2)
      ensures b1 in state.live && state.live[b1] == 4 && stack + ElfMapping.STACK_SIZE < 0x1000_0000
      ensures Gathered(s0, state, before + [b1] + [b2] + new_) && SpaceGathered(state, chunk, directory, new_, 5)
      ensures BlankTask(state.m, HEAP_PAGE + b2)
      ensures RestPlaced(tables, b1, b2, new_) && tables[0] == old(state).t && tables[3] == state.t
    {
      hide Inv, HeapInv, Tied, Represents, Gathered, SpaceGathered, HasRun, Address;
      hide ProcessRuns.Reaches, FirstOnes, OnlyBlocks, BlankTask;
      SizesInBlocks();
      ghost var s2 := state;
      stack, b1 := Gather(ElfMapping.STACK_SIZE, s0, before, 1027);
      ghost var s3 := state;
      Roots();
      BlockFits(b1, ElfMapping.STACK_SIZE);
      task, b2 := Gather(TASK_SIZE, s0, before + [b1], 1026);
      ghost var s4 := state;
      Roots();
      chunk, directory, new_ := GatherSpace(5, s0, before + [b1] + [b2]);
      ProcessRuns.ReachesOn(s2, s3, s4);
      ProcessRuns.ReachesOn(s2, s4, state);
      BlankUntilNow(s3, s4, s0, before + [b1], state, b2, new_);
      tables := [s2.t, s3.t, s4.t, state.t];
    }

    /** Stack, task and address space for a process whose data is in the heap. */
    method Complete(self: Word, ptr: Word, elfMemory: Word, f: File, ghost s0: State, ghost b0: nat,
        ghost front: seq<nat>, ghost kept: seq<nat>, ghost image: nat, ghost tables: seq<seq<Entry>>)
      returns (process: Process, ghost g: Gathering)
      requires Valid() && HasRun(state.t, 1031) && DataGathered(s0, front, kept, image, f.size)
      requires b0 < HEAP_BLOCKS && self == Address(b0)
      requires f.isElf ==>
                && |front| == 2 && front[0] == b0 && front[1] < HEAP_BLOCKS
                && ptr == Address(front[1]) && elfMemory == Address(image) && OneEach(state.live, kept)
                && DataPlaced(tables, front, kept, image, Blocks(f.size)) && tables[0] == s0.t && tables[4] == state.t
      requires !f.isElf ==>
                front == [b0] && ptr == Address(image) && elfMemory == 0 && ptr + f.size < 0x1000_0000
      modifies this`owner, this`state, k, k.heap.entries, k.ram
      ensures Valid() && ProcessRuns.Reaches(old(state), state) && fresh(process) && Assembled(s0, process, g)
      ensures g.kept == kept && process.isElf == f.isElf && Mappable(process, f.size) && g.size == f.size
    {
      hide Inv, HeapInv, Tied, Represents, Gathered, SpaceGathered, HasRun, Address, Described, Numbering;
      hide IdentityMemory, ProcessRuns.Reaches, FirstOnes, OnlyBlocks, BlankTask, AssembledIn, Sized, OneEach;
      ghost var s2, before := state, front + kept + [image];
      ghost var b1, b2, new_, second, perm, inverse;
      var stack, task, chunk, directory;
      stack, task, chunk, directory, b1, b2, new_, second := GatherRest(s0, before);
      process := new Process(self, f.isElf, ptr, elfMemory, stack, task, chunk, directory);
      ghost var back := [image, b1, b2] + new_;
      assert before + [b1] + [b2] + new_ == front + kept + back;
      perm, inverse := Numbered(state, process, front, image, b1, b2, new_);
      SizedHere(state, process, image, b1, f.size);
      SpaceFound(state, chunk, directory, new_);
      g := Gathering(front, image, b1, b2, new_, kept, perm, inverse, f.size, tables, second);
      if f.isElf {
        OneEachStill(s2.live, state.live, kept);
      }
      InPlace(s0, state, process, g);
    }

    lemma Numbered(s: State, process: Process, front: seq<nat>, image: nat, b1: nat, b2: nat, new_: seq<nat>)
        returns (perm: seq<nat>, inverse: seq<nat>)
      requires process.allocations == NoAllocations() && SpaceGathered(s, process.chunk, process.directory, new_, 5)
      requires b1 < HEAP_BLOCKS && b2 < HEAP_BLOCKS && image < HEAP_BLOCKS && BlankTask(s.m, HEAP_PAGE + b2)
      requires process.stack == Address(b1) && process.task == Address(b2)
      requires process.isElf ==>
               |front| == 2 && front[0] < HEAP_BLOCKS && front[1] < HEAP_BLOCKS && process.self == Address(front[0])
               && process.ptr == Address(front[1]) && process.elfMemory == Address(image)
      requires !process.isElf ==>
               |front| == 1 && front[0] < HEAP_BLOCKS && process.self == Address(front[0])
               && process.ptr == Address(image) && process.elfMemory == 0
      ensures process.Aligned() && Numbering(perm, inverse) && IdentityMemory(s.m, process.directory / 4096)
      ensures Described(s, process.Value(), perm, front + ([image, b1, b2] + new_))
    {
      hide Represents, GoodDirectory, SpaceTable, DescribedTable, Described, Numbering, SpaceGathered, IdentityMemory;
      PermNumbers(process.isElf);
      SpaceStarts(s, process.chunk, process.directory, new_);
      var first := front + [image, b1, b2];
      var ptrs := if process.isElf then [process.self, process.ptr, process.elfMemory, process.stack, process.task]
                  else [process.self, process.ptr, process.stack, process.task];
      perm, inverse := Perm(process.isElf), Inverse(process.isElf);
      forall k | 0 <= k < |first|
        ensures first[k] < HEAP_BLOCKS && ptrs[k] == Address(first[k]) && ptrs[k] % 4096 == 0
      {
        AddressOfBlock(first[k]);
      }
      assert TaskPage(process.Value()) == HEAP_PAGE + b2;
      assert front + ([image, b1, b2] + new_) == first + new_;
      GatheredIsDescribed(s, process.Value(), perm, ptrs, first, process.chunk, process.directory, new_, 5);
    }

    /** process_map_memory for process pid: only its own tables are written. */
    method MapProgram(pid: nat, imageSize: Word, phs: seq<ElfLoader.Phdr>) returns (res: int)
      requires Valid() && pid in processes && pid in state.procs && state.procs[pid].allocations == NoAllocations()
      requires GoodDirectory(state.m, state.procs[pid].directory)
      requires Mappable(processes[pid], imageSize)
      modifies this`owner, this`state, k.ram
      ensures Valid()
      ensures state == old(state).(m :=
                ProgramMemory(old(state).m, state.procs[pid].directory, processes[pid], imageSize, phs))
      ensures res == if !processes[pid].isElf || ElfMapping.Accepted(processes[pid].elfMemory, phs) then 0 else -EINVARG
      ensures forall e <- old(state).procs :: e != pid ==> Carried(old(state), state, e)
      ensures OnlyTables(old(state).m, state.m, state.procs[pid].directory)
      ensures ProcessRuns.Reaches(old(state), state)
    {
      hide Carried, Inv, HeapInv, Represents, GoodDirectory, Tied, ElfMapping.Accepted, OnlyTables, SameTables;
      hide ProcessRuns.Reaches;
      ghost var s := state;
      var process := processes[pid];
      Roots();
      Known(pid);
      if process.isElf {
        res := ElfMapping.MapMemory(k.ram, process.directory, process.elfMemory, phs, process.stack);
      } else {
        ElfMapping.MapBinary(k.ram, process.directory, process.ptr, imageSize, process.stack);
        res := 0;
      }
      ProgramTables(s.m, process.directory / 4096, process, imageSize, phs);
      OwnMappingKeepsInv(s, k.ram[..], pid);
      OwnMappingCarries(s, k.ram[..], pid);
      ProcessRuns.MapReaches(s, pid, k.ram[..]);
      SetState(s.(m := k.ram[..]));
    }

    /**
     process_load_for_slot.  With room in the heap it fails when there is no data to load, and then leaves
     behind the parsed path of every file that was opened and nothing else; it fails when a segment is
     refused, and then leaves the same and gives everything else back; else it adds a process that maps its
     program and stack and is otherwise an identity space.  The words of other processes stay as they were,
     but for the `next` of their tasks, if and only if task_tail does not lead into another block of theirs.
     */
    method Load(pid: nat, path: seq<Byte>, f: File, phs: seq<ElfLoader.Phdr>) returns (res: int, ghost g: Gathering)
      requires Valid() && pid !in processes && 0 in path && 0 < Blocks(f.size)
      requires HasRun(state.t, LOAD_ROOM + 2 * Blocks(f.size)) && TailSettled(state)
      modifies this, k, k.heap.entries, k.ram
      ensures Valid() && ProcessRuns.Reaches(old(state), state)
      ensures |g.kept| == KeptBy(path, f) && g.image < HEAP_BLOCKS && g.size == f.size
      ensures res == LoadResult(path, f, Address(g.image), phs)
      ensures res < 0 ==>
                && processes == old(processes) && KeptOnly(old(state), state, g.kept)
                && (state.t == old(state).t <==> g.kept == [])
      ensures 0 <= res ==>
                && pid in processes && processes == old(processes)[pid := processes[pid]] && fresh(processes[pid])
                && processes[pid].isElf == f.isElf
                && Loaded(old(state), state, pid, processes[pid], f.size, phs)
                && Settled(old(state), state, pid, processes[pid], g)
      ensures ListGrows(old(state), state, if 0 <= res then [pid] else [])
      ensures !HasData(path, f) ==> forall e <- old(state).procs :: Carried(old(state), state, e)
      ensures HasData(path, f) ==>
                forall e <- old(state).procs :: HasTask(old(state), e) &&
                  (CarriedButNext(old(state), state, e) <==>
                   LoadSpares(old(state), if 0 <= res then state.ends.tail else 0, e))
    {
      hide Inv, HeapInv, Tied, Represents, Gathered, Carried, HasRun, ProcessRuns.Reaches, CarriedButNext, LoadSpares;
      hide KeptOnly, TailSettled, Loaded, AssembledIn, PathBlocks, CStrings.CText, Mappable, ListGrows, Settled;
      hide ElfMapping.Accepted;
      Unknown(pid);
      ghost var s0 := state;
      var process;
      res, process, g := Assemble(path, f);
      ghost var s1 := state;
      GatheredListNow(s0, s1, g, process);
      if res < 0 {
        NoData(s0, s1, g.kept);
        return;
      }
      KeptSomething(path, f, g.kept);
      res := Install(pid, process, f, phs, s0, g);
      ListGrowsOn(s0, s1, state, if 0 <= res then [pid] else []);
      ProcessRuns.ReachesOn(s0, s1, state);
    }

    /** The rest of process_load_for_slot, from the last lines of task_new on. */
    method Install(pid: nat, process: Process, f: File, phs: seq<ElfLoader.Phdr>, ghost s0: State, ghost g: Gathering)
      returns (res: int)
      requires Valid() && pid !in processes && process !in processes.Values && Assembled(s0, process, g)
      requires Inv(s0) && pid !in s0.procs && s0.procs == state.procs && TailSettled(s0) && g.kept != []
      requires Mappable(process, f.size) && g.size == f.size && process.isElf == f.isElf
      modifies this, k, k.heap.entries, k.ram
      ensures Valid() && ProcessRuns.Reaches(old(state), state)
      ensures res < 0 ==> processes == old(processes) && KeptOnly(s0, state, g.kept) && state.t != s0.t
      ensures 0 <= res ==>
                && processes == old(processes)[pid := process] && process.isElf == f.isElf
                && Loaded(s0, state, pid, process, f.size, phs) && Settled(s0, state, pid, process, g)
      ensures g.image < HEAP_BLOCKS
      ensures res == if !f.isElf || ElfMapping.Accepted(Address(g.image), phs) then 0 else -EINVARG
      ensures ListGrows(old(state), state, if 0 <= res then [pid] else [])
      ensures forall e <- s0.procs :: HasTask(s0, e) &&
                (CarriedButNext(s0, state, e) <==> LoadSpares(s0, if 0 <= res then state.ends.tail else 0, e))
    {
      hide Inv, HeapInv, Tied, Represents, Gathered, Carried, ProcessRuns.Reaches, CarriedButNext, LoadSpares;
      hide KeptOnly, TailSettled, Loaded, AssembledIn, Mappable, Adopted, Enlisted, IdentityMemory, OnlyTables;
      hide ListGrows, Settled, ElfMapping.Accepted;
      ghost var s1 := state;
      Register(pid, process, s0, g);
      ghost var s2 := state;
      IdentityIsGood(state.m, process);
      res := MapProgram(pid, f.size, phs);
      ghost var s3 := state;
      ProcessRuns.ReachesOn(s1, s2, s3);
      ImageIs(s0, s1, process, g);
      InstalledList(s0, s1, s3, pid, process, g);
      if res < 0 {
        FreeProcess(pid);
        ProcessRuns.ReachesOn(s1, s3, state);
        RefusedList(s1, s3, state, pid);
        RefusedLoad(s0, s1, s3, state, pid, process, g);
        assert processes == old(processes);
      } else {
        SuccessfulLoad(s0, s1, s3, pid, process, g, f.size, phs);
      }
    }

    /** processes[slot] = process: the record joins the table and the kernel's account, and its task the list,
        by way of whatever task_tail names. */
    method Register(pid: nat, process: Process, ghost s0: State, ghost g: Gathering)
      requires Valid() && pid !in processes && process !in processes.Values
      requires Inv(s0) && pid !in s0.procs && Assembled(s0, process, g)
      modifies this, k.ram
      ensures Tied() && processes == old(processes)[pid := process]
      ensures var s := Adopted(old(state), pid, process.Value(), g.perm, g.front + g.Back());
              && HasTask(s, pid) && IsStart(s.ends.tail) && state == Enlisted(s, pid)
              && (Valid() <==> EnlistFits(s, pid))
      ensures ProcessRuns.Reaches(old(state), state) && (TailSettled(s0) ==> Valid())
      ensures pid in state.procs && state.procs[pid] == process.Value() && state.ends.tail == process.task
      ensures process.allocations == NoAllocations()
      ensures TailSettled(s0) ==> IdentityMemory(state.m, process.directory / 4096)
    {
      hide Inv, HeapInv, Represents, Gathered, Numbering, Described, Adopted, Tied, Carried, ProcessRuns.Reaches;
      hide HasTask, Enlisted, TailSettled, IdentityMemory, ProcessRuns.Joined, Sorted, Sized, OneEach, Gathering.Places;
      hide View, TaskOf, IsStart, EnlistFits;
      ghost var s := state;
      Roots();
      CanJoin(s0, s, pid, process, g);
      if TailSettled(s0) {
        ReadyToJoin(s0, s, pid, process, g);
      }
      AdoptedIs(s, pid, process.Value(), g.perm, g.front + g.Back());
      Link(pid, process);
      ghost var s' := Adopted(s, pid, process.Value(), g.perm, g.front + g.Back());
      TailOf(s');
      EnlistedTail(s', pid);
      AddToList(process.task, s', pid);
      SetState(Enlisted(s', pid));
    }

    /** The last lines of task_new. */
    method AddToList(task: Word, ghost s: State, ghost pid: nat)
      requires k.ram[..] == s.m && ListEnds() == s.ends && HasTask(s, pid) && task == TaskOf(s, pid)
      requires IsStart(tail)
      modifies this`head, this`tail, this`current, k.ram
      ensures k.ram[..] == Enlisted(s, pid).m && ListEnds() == Enlisted(s, pid).ends
    {
      TaskWords(s, pid);
      if head == 0 {
        head, tail, current := task, task, task;
        return;
      }
      k.ram[tail / 4 + TASK_NEXT] := task;
      k.ram[task / 4 + TASK_PREV] := tail;
      tail := task;
    }

    ghost method SetState(s: State)
      requires k.Valid() && Separate() && View() == s.procs && ListEnds() == s.ends
      requires s.live == k.live && s.m == k.ram[..] && s.t == k.heap.Table()
      modifies this`owner, this`state
      ensures Tied() && state == s
    {
      hide Represents, Separate, View;
      owner := s.owner;
      state := s;
    }

    method Link(pid: nat, process: Process)
      requires Separate() && pid !in processes && process !in processes.Values && process.Aligned()
      modifies this`processes
      ensures Separate() && processes == old(processes)[pid := process] && View() == old(View())[pid := process.Value()]
    {
      processes := processes[pid := process];
    }

    lemma Roots()
      requires Valid()
      ensures k.live == state.live && k.ram[..] == state.m && owner == state.owner && k.heap.Table() == state.t
      ensures k.Valid() && Separate() && View() == state.procs && HeapInv(state) && ListEnds() == state.ends
    {
    }

    ghost method TakeOver(s: State, new_: seq<nat>)
      requires k.Valid() && Separate() && View() == s.procs && owner == s.owner && ListEnds() == s.ends
      modifies this`owner, this`state
      ensures Tied() && state == AfterCreation(s, k.heap.Table(), k.live, k.ram[..], new_)
    {
      hide Represents, Separate, View;
      owner := owner + map b | b in new_ :: Role.Kernel;
      state := AfterCreation(s, k.heap.Table(), k.live, k.ram[..], new_);
    }
  }

  lemma NullFreeIsNothing(s: State, pid: nat)
    requires Inv(s) && pid in s.procs
    ensures AfterFree(s, pid, 0) == s
  {
  }

  /** process_find_free_allocation_index and process_get_allocation_by_addr: one scan of the records. */
  method FindSlot(allocations: seq<Allocation>, ptr: Word) returns (index: int)
    ensures index == FirstSlot(allocations, ptr, 0)
  {
    var i := 0;
    while i < |allocations|
      invariant 0 <= i <= |allocations|
      invariant FirstSlot(allocations, ptr, i) == FirstSlot(allocations, ptr, 0)
    {
      if allocations[i].ptr == ptr {
        return i;
      }
      i := i + 1;
    }
    index := -1;
  }

  /** process_allocation_unjoin: every record with this pointer is cleared. */
  method Unjoin(allocations: seq<Allocation>, ptr: Word) returns (cleared: seq<Allocation>)
    ensures cleared == Cleared(allocations, ptr)
  {
    cleared := allocations;
    var i := 0;
    while i < |allocations|
      invariant 0 <= i <= |allocations| == |cleared|
      invariant forall j | 0 <= j < |cleared| ::
                  cleared[j] == if j < i && allocations[j].ptr == ptr then Allocation(0, 0) else allocations[j]
    {
      if cleared[i].ptr == ptr {
        cleared := cleared[i := Allocation(0, 0)];
      }
      i := i + 1;
    }
  }
}
