/** The end of a process as a whole: its allocations first, then everything else it is made of. */
module ProcessEnd {
  import opened HeapTable
  import opened PageTables
  import opened KernelMemory
  import opened ProcessState
  import opened ProcessMemory
  import opened ProcessLife
  import opened TaskLinks
  import opened TaskOrder
  import opened ProcessRuns
  import opened OrderlyRuns

  lemma LinksKeptTwice(s: State, s1: State, s2: State)
    requires LinksKept(s, s1) && LinksKept(s1, s2)
    ensures LinksKept(s, s2)
  {
    hide NextOf, PrevOf, HasTask;
  }

  lemma {:induction false} FreeFromKeepsLinks(s: State, pid: nat, i: nat)
    requires Inv(s) && pid in s.procs && |s.procs[pid].allocations| == SLOTS && i <= SLOTS
    ensures LinksKept(s, FreeFrom(s, pid, i))
    decreases SLOTS - i
  {
    hide AfterFree, FreeFrom, Inv, LinksKept;
    if i < SLOTS {
      var s1 := AfterFree(s, pid, s.procs[pid].allocations[i].ptr);
      FreeFromStep(s, pid, i);
      FreeKeepsLinks(s, pid, s.procs[pid].allocations[i].ptr);
      FreeFromKeepsLinks(s1, pid, i + 1);
      LinksKeptTwice(s, s1, FreeFrom(s1, pid, i + 1));
    } else {
      FreeFromEnd(s, pid);
      SelfLinks(s);
    }
  }

  lemma SelfLinks(s: State)
    requires Inv(s)
    ensures LinksKept(s, s)
  {
    hide Inv;
    forall e | e in s.procs ensures HasTask(s, e) { TaskIsThere(s, e); }
  }

  /** What another process needs, it needs before and after, and the word is the same. */
  lemma NeedsCarried(s: State, s1: State, e: nat, p: nat)
    requires Inv(s) && HeapInv(s1) && Carried(s, s1, e) && e in s.procs && e in s1.procs && s1.procs[e] == s.procs[e]
    ensures Needs(s1, e, p) <==> Needs(s, e, p)
    ensures Needs(s, e, p) ==>
              InMemory(s.m, p) && InMemory(s1.m, p) && WordAt(s1.m, p, TASK_NEXT) == WordAt(s.m, p, TASK_NEXT)
  {
    hide Represents, SlotOk, ResourcesOk;
    assert ProcOk(s, e);
    DirectoryCarried(s, s1, e);
    var d := s.procs[e].directory;
    forall slot: nat, q: nat ensures Records(s1, e, slot, q) <==> Records(s, e, slot, q) {
      RecordsCarried(s, s1, e, slot, q);
    }
    OwnPageCarried(s, s1, e, d, Directory(e));
    TableWords(s, s1, e);
    hide Inv, Records, Carried, DirectoryOk;
    forall i: nat, slot: nat ensures NeedsEntry(s1, e, p, i, slot) <==> NeedsEntry(s, e, p, i, slot) {
    }
    if Needs(s, e, p) {
      assert p == d || exists i: nat :: i < ENTRIES && TablePage(s.m, d, i) == p;
      assert SamePage(s.m, s1.m, p);
      TaskWordsSame(s.m, s1.m, p);
    }
  }

  lemma TableWords(s: State, s1: State, e: nat)
    requires HeapInv(s) && HeapInv(s1) && Carried(s, s1, e) && e in s.procs && DirectoryOk(s, e)
    ensures forall i: nat | i < ENTRIES :: SamePage(s.m, s1.m, TablePage(s.m, s.procs[e].directory, i))
  {
    hide Represents, Carried;
    forall i: nat | i < ENTRIES ensures SamePage(s.m, s1.m, TablePage(s.m, s.procs[e].directory, i)) {
      assert OwnPage(s, TablePage(s.m, s.procs[e].directory, i), Table(e, i));
      OwnPageCarried(s, s1, e, TablePage(s.m, s.procs[e].directory, i), Table(e, i));
    }
  }

  lemma RecordsCarried(s: State, s1: State, e: nat, slot: nat, q: nat)
    requires Inv(s) && Carried(s, s1, e) && e in s.procs && e in s1.procs && s1.procs[e] == s.procs[e] && ProcOk(s, e)
    ensures Records(s1, e, slot, q) <==> Records(s, e, slot, q)
  {
    hide Represents, DirectoryOk, ResourcesOk, MappedForUser;
    if slot < SLOTS {
      assert SlotOk(s, e, slot);
    }
  }

  /** Ending the allocations of pid first makes no difference to where its task's link goes. */
  lemma FitsAfterwards(s: State, s1: State, pid: nat)
    requires Inv(s) && Inv(s1) && pid in s.procs && LinksKept(s, s1)
    requires forall e <- s.procs :: e != pid ==> e in s1.procs && s1.procs[e] == s.procs[e] && Carried(s, s1, e)
    ensures HasTask(s, pid) && HasTask(s1, pid) && IsStart(PrevOf(s, pid)) && PrevOf(s1, pid) == PrevOf(s, pid)
    ensures DelistFits(s1, pid) <==> DelistFits(s, pid)
  {
    hide Inv, Carried, Needs;
    TaskIsThere(s, pid);
    HeapOf(s1);
    var p := PrevOf(s, pid) / 4096;
    forall e | e in s.procs && e != pid
      ensures Needs(s1, e, p) <==> Needs(s, e, p)
      ensures Needs(s, e, p) ==>
                InMemory(s.m, p) && InMemory(s1.m, p) && WordAt(s1.m, p, TASK_NEXT) == WordAt(s.m, p, TASK_NEXT)
    {
      NeedsCarried(s, s1, e, p);
    }
  }

  lemma SparesAfterwards(s: State, s1: State, pid: nat, e: nat)
    requires Inv(s) && Inv(s1) && pid in s.procs && LinksKept(s, s1) && e in s.procs && e != pid
    requires e in s1.procs && s1.procs[e] == s.procs[e] && Carried(s, s1, e)
    requires forall b <- s1.owner :: b in s.owner && s1.owner[b] == s.owner[b]
    ensures HasTask(s, pid) && HasTask(s1, pid) && HasTask(s, e) && IsStart(PrevOf(s, pid))
    ensures PrevOf(s1, pid) == PrevOf(s, pid) && (DelistSpares(s1, pid, e) <==> DelistSpares(s, pid, e))
  {
    hide Inv, Carried;
    TaskIsThere(s, pid);
    TaskIsThere(s, e);
    BlocksAfterwards(s, s1, e, PrevOf(s, pid) / 4096);
  }

  lemma BlocksAfterwards(s: State, s1: State, e: nat, p: nat)
    requires Inv(s) && Inv(s1) && HasTask(s, e) && e in s1.procs && s1.procs[e] == s.procs[e] && Carried(s, s1, e)
    requires forall b <- s1.owner :: b in s.owner && s1.owner[b] == s.owner[b]
    ensures InBlockOf(s1, e, p) <==> InBlockOf(s, e, p)
    ensures InBlockOf(s, e, p) ==>
              InMemory(s.m, p) && InMemory(s1.m, p) && WordAt(s1.m, p, TASK_NEXT) == WordAt(s.m, p, TASK_NEXT)
  {
    hide Represents, ProcOk, RoleOk;
    assert HeapInv(s) && HeapInv(s1);
    hide Inv;
    forall b ensures PageOf(s1, e, b, p) <==> PageOf(s, e, b, p) {
      if b in s.owner { BlockInHeap(s, b); }
      if b in s1.owner { BlockInHeap(s1, b); }
    }
    if InBlockOf(s, e, p) {
      var b :| PageOf(s, e, b, p);
      assert SamePage(s.m, s1.m, p);
      TaskWordsSame(s.m, s1.m, p);
    }
  }

  lemma CarriedThenBut(s: State, s1: State, s2: State, e: nat)
    requires e in s.procs && 2 <= |s.procs[e].resources| && e in s1.procs && s1.procs[e] == s.procs[e]
    requires Carried(s, s1, e) && forall b <- s1.owner :: b in s.owner && s1.owner[b] == s.owner[b]
    ensures CarriedButNext(s, s2, e) <==> CarriedButNext(s1, s2, e)
  {
    forall b, p: nat | b in s.owner && Of(s.owner[b], e) && HEAP_PAGE + b <= p < HEAP_PAGE + b + s.live[b]
      ensures SamePage(s.m, s2.m, p) <==> SamePage(s1.m, s2.m, p)
      ensures SameButNext(s.m, s2.m, p) <==> SameButNext(s1.m, s2.m, p)
    {
      SameBefore(s.m, s1.m, s2.m, p);
    }
  }

  lemma SameBefore(m: Memory, n: Memory, o: Memory, p: nat)
    requires SamePage(m, n, p)
    ensures SamePage(m, o, p) <==> SamePage(n, o, p)
    ensures SameButNext(m, o, p) <==> SameButNext(n, o, p)
  {
  }

  // ---------------------------------------------------------------- process_terminate

  /** From s to s', process pid went, and with it exactly its own blocks. */
  ghost predicate Gone(s: State, s': State, pid: nat) {
    s'.live == s.live - Belongings(s, pid) && s'.owner == s.owner - Belongings(s, pid) && s'.procs == s.procs - {pid}
  }

  /** process_terminate: whatever consistent state it starts from, exactly the process's own blocks go; the
      state afterwards is consistent if and only if taking the task out of the list is harmless, and no
      word of another process changes, but the `next` of its task, if and only if the link written is
      right already or lies in no other block of that process. */
  lemma TerminationIff(s: State, s1: State, pid: nat)
    requires Inv(s) && pid in s.procs && |s.procs[pid].allocations| == SLOTS && s1 == FreeFrom(s, pid, 0)
    requires CanFreeRest(s1, pid)
    ensures HasTask(s, pid) && IsStart(PrevOf(s, pid))
    ensures var s' := AfterFreeRest(s1, pid);
      && Gone(s, s', pid) && (Inv(s') <==> DelistFits(s, pid))
      && s'.ends == DelistedEnds(s.ends, TaskOf(s, pid), NextOf(s, pid), PrevOf(s, pid))
      && forall e <- s'.procs ::
           e in s.procs && HasTask(s, e) && (CarriedButNext(s, s', e) <==> DelistSpares(s, pid, e))
  {
    hide Inv, FreeFrom, Carried, CarriedButNext, DelistSpares, DelistFits, LinksKept, WithoutRest, CanFreeRest, Ended;
    hide DelistedEnds;
    var s' := AfterFreeRest(s1, pid);
    FreeFromReleasesOwn(s, pid, 0);
    FreeFromKeepsLinks(s, pid, 0);
    forall e | e in s.procs && e != pid ensures Carried(s, s1, e) { FreeFromCarries(s, pid, 0, e); }
    FitsAfterwards(s, s1, pid);
    FreeRestKeepsInvIff(s1, pid);
    RestEnds(s1, pid);
    EndedInTwo(s, s1, WithoutRest(s1, pid), pid);
    GoneIs(s, s1, s', pid);
    EndsAfterwards(s, s1, pid);
    forall e | e in s'.procs
      ensures e in s.procs && HasTask(s, e) && (CarriedButNext(s, s', e) <==> DelistSpares(s, pid, e))
    {
      SparesAfterwards(s, s1, pid, e);
      FreeRestSparesIff(s1, pid, e);
      CarriedThenBut(s, s1, s', e);
    }
  }

  lemma EndsAfterwards(s: State, s1: State, pid: nat)
    requires LinksKept(s, s1) && CanFreeRest(s1, pid) && pid in s.procs
    ensures HasTask(s, pid)
    ensures AfterFreeRest(s1, pid).ends == DelistedEnds(s.ends, TaskOf(s, pid), NextOf(s, pid), PrevOf(s, pid))
  {
    hide DelistedEnds, WithoutRest, NextOf, PrevOf;
  }

  /** A task without a `prev` is taken out without writing any link. */
  lemma FirstGoesQuietly(s: State, s1: State, pid: nat)
    requires Inv(s) && pid in s.procs && |s.procs[pid].allocations| == SLOTS && s1 == FreeFrom(s, pid, 0)
    requires CanFreeRest(s1, pid) && HasTask(s, pid) && PrevOf(s, pid) == 0
    ensures forall e <- s.procs :: e != pid ==> Carried(s, AfterFreeRest(s1, pid), e)
  {
    hide Inv, FreeFrom, Carried, LinksKept, AfterFreeRest, CanFreeRest;
    FreeFromReleasesOwn(s, pid, 0);
    FreeFromKeepsLinks(s, pid, 0);
    SamePrev(s, s1, pid);
    forall e | e in s.procs && e != pid ensures Carried(s, AfterFreeRest(s1, pid), e) {
      FreeFromCarries(s, pid, 0, e);
      QuietRest(s1, pid, e);
      CarriedTwice(s, s1, AfterFreeRest(s1, pid), e);
    }
  }

  /** From a list that is linked both ways, any task goes without harm, and the list closes up: the chain along
      `next`, its two ends, and the current task, which is the next one if the current one went. */
  lemma TerminationCloses(s: State, s1: State, order: seq<nat>, i: nat)
    requires Inv(s) && TwoWay(s, order) && i < |order| && order[i] in s.procs
    requires |s.procs[order[i]].allocations| == SLOTS && s1 == FreeFrom(s, order[i], 0) && CanFreeRest(s1, order[i])
    ensures HasTask(s, order[i]) && IsStart(PrevOf(s, order[i])) && DelistFits(s, order[i])
    ensures (forall e <- order :: HasTask(s, e)) && ClosedUp(s, AfterFreeRest(s1, order[i]), order, i)
  {
    hide Inv, TwoWay, FreeFrom, LinksKept, CanFreeRest, WithoutRest, Ended, ClosedUp, DelistFits, PrevOf, NextOf;
    AnyFits(s, order, i);
    FreeFromReleasesOwn(s, order[i], 0);
    FreeFromKeepsLinks(s, order[i], 0);
    TwoWayKept(s, s1, order);
    AnyFits(s1, order, i);
    RestEnds(s1, order[i]);
    RestLeavesMemory(s1, order[i]);
    Leaves(s1, WithoutRest(s1, order[i]), AfterFreeRest(s1, order[i]), order, i);
    LinksAt(s, order, i);
    ClosedBefore(s, s1, AfterFreeRest(s1, order[i]), order, i);
  }

  lemma ClosedBefore(s: State, s1: State, s': State, order: seq<nat>, i: nat)
    requires LinksKept(s, s1) && i < |order| && forall e <- order :: HasTask(s, e) && HasTask(s1, e)
    requires ClosedUp(s1, s', order, i)
    ensures ClosedUp(s, s', order, i)
  {
    hide NextOf, PrevOf;
    forall k: int ensures TaskAt(s, order, k) == TaskAt(s1, order, k) {
      if 0 <= k < |order| { assert order[k] in order; }
    }
    forall k: nat | k < |order| && k != i ensures StillLinked(s, s', order, i, k) {
      assert StillLinked(s1, s', order, i, k) && order[k] in order;
    }
  }

  lemma SamePrev(s: State, s1: State, pid: nat)
    requires LinksKept(s, s1) && HasTask(s, pid)
    ensures HasTask(s1, pid) && PrevOf(s1, pid) == PrevOf(s, pid)
  {
    hide NextOf, PrevOf;
  }

  lemma QuietRest(s: State, pid: nat, e: nat)
    requires Inv(s) && CanFreeRest(s, pid) && PrevOf(s, pid) == 0 && e in s.procs && e != pid
    ensures Carried(s, AfterFreeRest(s, pid), e)
  {
    hide Inv, WithoutRest, PrevOf, NextOf, DelistedEnds;
    RestEnds(s, pid);
    RestLeavesMemory(s, pid);
    HeapOf(s);
    HeapOf(WithoutRest(s, pid));
    RelabelledCarried(WithoutRest(s, pid), AfterFreeRest(s, pid), e);
    CarriedTwice(s, WithoutRest(s, pid), AfterFreeRest(s, pid), e);
  }

  lemma GoneIs(s: State, s1: State, s': State, pid: nat)
    requires CanFreeRest(s1, pid) && s' == AfterFreeRest(s1, pid) && Ended(s, WithoutRest(s1, pid), pid)
    ensures Gone(s, s', pid)
  {
    hide WithoutRest, Belongings, CanFreeRest;
  }
}
