/** The task list linked both ways in memory, and what keeps it so. */
module TaskOrder {
  import opened Machine
  import opened HeapTable
  import opened PageTables
  import opened KernelMemory
  import opened AddressSpace
  import opened ProcessState
  import opened ProcessMemory
  import opened ProcessLife
  import opened TaskLinks

  /** The tasks of exactly the processes in `order` are linked both ways in that order, from task_head to
      task_tail, and the current task, if there is one, is among them. */
  ghost predicate TwoWay(s: State, order: seq<nat>) {
    && Distinct(order) && (forall pid :: pid in order <==> pid in s.procs) && (forall pid <- order :: HasTask(s, pid))
    && s.ends.head == (if order == [] then 0 else TaskOf(s, order[0]))
    && s.ends.tail == (if order == [] then 0 else TaskOf(s, order[|order| - 1]))
    && (order == [] ==> s.ends.current == 0)
    && (order != [] ==> exists k: nat :: k < |order| && s.ends.current == TaskOf(s, order[k]))
    && (forall k: nat | k < |order| :: LinkedAt(s, order, k))
  }

  ghost predicate LinkedAt(s: State, order: seq<nat>, k: nat)
    requires k < |order| && forall pid <- order :: HasTask(s, pid)
  {
    && NextOf(s, order[k]) == (if k + 1 < |order| then TaskOf(s, order[k + 1]) else 0)
    && PrevOf(s, order[k]) == (if 0 < k then TaskOf(s, order[k - 1]) else 0)
  }

  /** No task, no end of the list and no link is another one. */
  ghost predicate LinksKept(s: State, s': State) {
    && s'.ends == s.ends && s'.procs.Keys == s.procs.Keys
    && forall e <- s.procs ::
         && HasTask(s, e) && HasTask(s', e) && TaskPage(s'.procs[e]) == TaskPage(s.procs[e])
         && NextOf(s', e) == NextOf(s, e) && PrevOf(s', e) == PrevOf(s, e)
  }

  lemma TwoWayKept(s: State, s': State, order: seq<nat>)
    requires TwoWay(s, order) && LinksKept(s, s')
    ensures TwoWay(s', order)
  {
    hide NextOf, PrevOf, Distinct;
    forall k: nat | k < |order| ensures LinkedAt(s', order, k) {
      assert LinkedAt(s, order, k) && order[k] in order;
    }
    if order != [] {
      var k: nat :| k < |order| && s.ends.current == TaskOf(s, order[k]);
      assert order[k] in order && s'.ends.current == TaskOf(s', order[k]);
      assert order[0] in order && order[|order| - 1] in order;
    }
  }

  /** A task whose page is carried keeps its links. */
  lemma LinkKept(s: State, s': State, e: nat)
    requires Inv(s) && HeapInv(s') && e in s.procs && e in s'.procs && s'.procs[e].resources == s.procs[e].resources
    requires var b := TaskPage(s.procs[e]) - HEAP_PAGE; b in s.live && SameBlock(s.m, s'.m, b, s.live[b])
    ensures HasTask(s, e) && HasTask(s', e) && NextOf(s', e) == NextOf(s, e) && PrevOf(s', e) == PrevOf(s, e)
  {
    TaskIsThere(s, e);
    FirstPageSame(s, s'.m, TaskPage(s.procs[e]) - HEAP_PAGE);
    hide Represents;
    TaskWordsSame(s.m, s'.m, TaskPage(s.procs[e]));
  }

  lemma TasksApart(s: State, p: nat, q: nat)
    requires Inv(s) && p in s.procs && q in s.procs && p != q
    ensures HasTask(s, p) && HasTask(s, q) && TaskPage(s.procs[p]) != TaskPage(s.procs[q])
    ensures TaskOf(s, p) != TaskOf(s, q)
  {
    hide Inv;
    TaskIsThere(s, p);
    TaskIsThere(s, q);
  }

  lemma AllApart(s: State)
    requires Inv(s)
    ensures forall p <- s.procs :: HasTask(s, p) && IsStart(TaskOf(s, p))
    ensures forall p, q | p in s.procs && q in s.procs && p != q :: TaskPage(s.procs[p]) != TaskPage(s.procs[q])
  {
    hide Inv;
    forall p | p in s.procs ensures HasTask(s, p) { TaskIsThere(s, p); }
    forall p, q | p in s.procs && q in s.procs && p != q
      ensures HasTask(s, p) && HasTask(s, q) && TaskPage(s.procs[p]) != TaskPage(s.procs[q])
    {
      TasksApart(s, p, q);
    }
  }

  // ---------------------------------------------------------------- a task joins

  /** s0 with one process more, whose task is in no list yet. */
  ghost predicate Joins(s0: State, s: State, pid: nat) {
    && pid !in s0.procs && s.procs.Keys == s0.procs.Keys + {pid} && (forall e <- s0.procs :: s.procs[e] == s0.procs[e])
    && s.m == s0.m && s.ends == s0.ends && HasTask(s, pid) && NextOf(s, pid) == 0 && PrevOf(s, pid) == 0
  }

  lemma JoinedTasks(s0: State, s: State, pid: nat, order: seq<nat>)
    requires TwoWay(s0, order) && Joins(s0, s, pid)
    ensures pid !in order && forall e <- order :: HasTask(s, e) && TaskOf(s, e) == TaskOf(s0, e)
    ensures forall e <- order :: NextOf(s, e) == NextOf(s0, e) && PrevOf(s, e) == PrevOf(s0, e)
    ensures order == [] <==> s.ends.head == 0
    ensures order != [] ==> s.ends.tail == TaskOf(s, order[|order| - 1]) && order[|order| - 1] in order
  {
    hide Distinct;
    if order != [] {
      assert order[0] in order && order[|order| - 1] in order;
    }
  }

  /** Where the words of tasks are after the last lines of task_new. */
  lemma EnlistedLinks(s: State, pid: nat, t: nat)
    requires Inv(s) && pid in s.procs && t in s.procs && t != pid && HasTask(s, pid) && HasTask(s, t)
    requires s.ends.head != 0 && s.ends.tail == TaskOf(s, t)
    ensures var s' := Enlisted(s, pid);
      && s'.procs == s.procs && s'.ends == s.ends.(tail := TaskOf(s, pid))
      && (forall e <- s.procs :: HasTask(s, e) && HasTask(s', e) && TaskOf(s', e) == TaskOf(s, e))
      && (forall e <- s.procs :: NextOf(s', e) == if e == t then TaskOf(s, pid) else NextOf(s, e))
      && (forall e <- s.procs :: PrevOf(s', e) == if e == pid then TaskOf(s, t) else PrevOf(s, e))
  {
    AllApart(s);
    EnlistedTasks(s, pid);
    hide Inv, NextOf, PrevOf, TaskOf, HasTask, Enlisted;
    forall e | e in s.procs
      ensures NextOf(Enlisted(s, pid), e) == if e == t then TaskOf(s, pid) else NextOf(s, e)
      ensures PrevOf(Enlisted(s, pid), e) == if e == pid then TaskOf(s, t) else PrevOf(s, e)
    {
      EnlistedLink(s, pid, t, e);
    }
  }

  lemma EnlistedTasks(s: State, pid: nat)
    requires pid in s.procs && HasTask(s, pid) && s.ends.head != 0 && IsStart(s.ends.tail)
    ensures var s' := Enlisted(s, pid);
      && s'.procs == s.procs && s'.ends == s.ends.(tail := TaskOf(s, pid))
      && forall e <- s.procs :: HasTask(s, e) ==> HasTask(s', e) && TaskOf(s', e) == TaskOf(s, e)
  {
    WithNextIs(s.m, s.ends.tail, TaskOf(s, pid));
  }

  lemma EnlistedLink(s: State, pid: nat, t: nat, e: nat)
    requires HasTask(s, pid) && HasTask(s, t) && t != pid && HasTask(s, e)
    requires s.ends.head != 0 && s.ends.tail == TaskOf(s, t) && HasTask(Enlisted(s, pid), e)
    requires e != t ==> TaskPage(s.procs[e]) != TaskPage(s.procs[t])
    requires e != pid ==> TaskPage(s.procs[e]) != TaskPage(s.procs[pid])
    ensures NextOf(Enlisted(s, pid), e) == if e == t then TaskOf(s, pid) else NextOf(s, e)
    ensures PrevOf(Enlisted(s, pid), e) == if e == pid then TaskOf(s, t) else PrevOf(s, e)
  {
    var s1, p := Linked(s, TaskOf(s, t), TaskOf(s, pid)), TaskPage(s.procs[e]);
    WithNextIs(s.m, TaskOf(s, t), TaskOf(s, pid));
    WithPrevIs(s1, pid, TaskOf(s, t));
    assert !IsLink(TaskOf(s, t), p, TASK_PREV) && (e != t ==> !IsLink(TaskOf(s, t), p, TASK_NEXT));
    if e != pid {
      TaskWordsSame(s1.m, Enlisted(s, pid).m, p);
    }
  }

  lemma TwoWayJoins(s0: State, s: State, pid: nat, order: seq<nat>)
    requires TwoWay(s0, order) && Joins(s0, s, pid) && Inv(s)
    ensures EnlistFits(s, pid) && TwoWay(Enlisted(s, pid), order + [pid])
    ensures Enlisted(s, pid).ends.current == if order == [] then TaskOf(s, pid) else s0.ends.current
  {
    hide Inv, NextOf, PrevOf, TaskOf;
    JoinedTasks(s0, s, pid, order);
    var s', all := Enlisted(s, pid), order + [pid];
    DistinctMore(order, pid);
    if order == [] {
      assert all == [pid];
      FirstJoins(s, pid);
    } else {
      var t := order[|order| - 1];
      LiveTaskFits(s, t, TaskOf(s, pid));
      EnlistedLinks(s, pid, t);
      JoinOthers(s0, s, s', pid, order);
    }
  }

  lemma DistinctMore(order: seq<nat>, pid: nat)
    requires Distinct(order) && pid !in order
    ensures Distinct(order + [pid])
  {
  }

  lemma FirstJoins(s: State, pid: nat)
    requires HasTask(s, pid) && IsStart(s.ends.tail) && s.ends.head == 0 && s.procs.Keys == {pid}
    requires NextOf(s, pid) == 0 && PrevOf(s, pid) == 0
    ensures TwoWay(Enlisted(s, pid), [pid])
  {
    var s', order := Enlisted(s, pid), [pid];
    assert s'.ends.current == TaskOf(s', order[0]);
    assert LinkedAt(s', order, 0);
  }

  lemma JoinOthers(s0: State, s: State, s': State, pid: nat, order: seq<nat>)
    requires TwoWay(s0, order) && Joins(s0, s, pid) && order != [] && Distinct(order + [pid])
    requires forall e <- order :: HasTask(s, e) && TaskOf(s, e) == TaskOf(s0, e)
    requires forall e <- order :: NextOf(s, e) == NextOf(s0, e) && PrevOf(s, e) == PrevOf(s0, e)
    requires var t := order[|order| - 1];
      && t in order && s'.procs == s.procs && s'.ends == s.ends.(tail := TaskOf(s, pid))
      && (forall e <- s.procs :: HasTask(s, e) && HasTask(s', e) && TaskOf(s', e) == TaskOf(s, e))
      && (forall e <- s.procs :: NextOf(s', e) == if e == t then TaskOf(s, pid) else NextOf(s, e))
      && (forall e <- s.procs :: PrevOf(s', e) == if e == pid then TaskOf(s, t) else PrevOf(s, e))
    ensures TwoWay(s', order + [pid])
  {
    hide NextOf, PrevOf, TaskOf, HasTask;
    var all, n := order + [pid], |order|;
    forall e ensures e in all <==> e in s'.procs {
    }
    forall k: nat | k < |all| ensures LinkedAt(s', all, k) {
      if k < n {
        assert LinkedAt(s0, order, k) && order[k] in order && all[k] == order[k];
        if k < n - 1 { assert order[k + 1] in order && all[k + 1] == order[k + 1] && order[k] != order[n - 1]; }
        if 0 < k { assert order[k - 1] in order && all[k - 1] == order[k - 1]; }
      }
    }
    var k: nat :| k < n && s0.ends.current == TaskOf(s0, order[k]);
    assert order[k] in order && s'.ends.current == TaskOf(s', all[k]);
    assert order[0] in order && all[0] == order[0];
  }

  // ---------------------------------------------------------------- a task leaves

  /** The task of the process in place k, or null. */
  ghost function TaskAt(s: State, order: seq<nat>, k: int): Word
    requires forall e <- order :: HasTask(s, e)
  {
    if 0 <= k < |order| then TaskOf(s, order[k]) else 0
  }

  /** What is left of the list `order` of s when the task in place i has gone: the ends close up; the current
      task stays, or if it is the one that went, it is the next one, or the first if there is none; the chain
      along `next` closes up; and no `prev` is another one. */
  ghost predicate ClosedUp(s: State, s': State, order: seq<nat>, i: nat)
    requires i < |order| && forall e <- order :: HasTask(s, e)
  {
    var n := |order|;
    && s'.ends.head == TaskAt(s, order, if i == 0 then 1 else 0)
    && s'.ends.tail == TaskAt(s, order, if i == n - 1 then n - 2 else n - 1)
    && s'.ends.current == (if s.ends.current != TaskAt(s, order, i) then s.ends.current
                           else if i + 1 < n then TaskAt(s, order, i + 1) else s'.ends.head)
    && forall k: nat | k < n && k != i :: StillLinked(s, s', order, i, k)
  }

  ghost predicate StillLinked(s: State, s': State, order: seq<nat>, i: nat, k: nat)
    requires k < |order| && forall e <- order :: HasTask(s, e)
  {
    && HasTask(s', order[k]) && TaskOf(s', order[k]) == TaskOf(s, order[k])
    && NextOf(s', order[k]) == TaskAt(s, order, if k + 1 == i then i + 1 else k + 1)
    && PrevOf(s', order[k]) == TaskAt(s, order, k - 1)
  }

  lemma PlacesApart(s: State, order: seq<nat>, i: nat, j: nat)
    requires Inv(s) && TwoWay(s, order) && i < |order| && j < |order| && i != j
    ensures order[i] in s.procs && order[j] in s.procs && order[i] != order[j]
    ensures TaskOf(s, order[i]) != TaskOf(s, order[j]) && TaskPage(s.procs[order[i]]) != TaskPage(s.procs[order[j]])
  {
    hide Inv;
    assert order[i] in order && order[j] in order;
    TasksApart(s, order[i], order[j]);
  }

  lemma LinksAt(s: State, order: seq<nat>, i: nat)
    requires TwoWay(s, order) && i < |order|
    ensures order[i] in s.procs && (forall e <- order :: HasTask(s, e))
    ensures NextOf(s, order[i]) == TaskAt(s, order, i + 1) && PrevOf(s, order[i]) == TaskAt(s, order, i - 1)
    ensures s.ends.head == TaskAt(s, order, 0) && s.ends.tail == TaskAt(s, order, |order| - 1)
    ensures exists k: nat :: k < |order| && s.ends.current == TaskOf(s, order[k])
  {
    assert LinkedAt(s, order, i) && order[i] in order;
  }

  /** In a list linked both ways a task's `prev` is a task, or null: taking it out is harmless. */
  lemma AnyFits(s: State, order: seq<nat>, i: nat)
    requires Inv(s) && TwoWay(s, order) && i < |order|
    ensures var pid := order[i];
      && pid in s.procs && HasTask(s, pid) && IsStart(PrevOf(s, pid)) && DelistFits(s, pid)
      && forall e <- s.procs :: e != pid ==> 2 <= |s.procs[e].resources| && DelistSpares(s, pid, e)
  {
    hide Inv, Needs;
    var pid := order[i];
    LinksAt(s, order, i);
    TaskIsThere(s, pid);
    if 0 < i {
      assert order[i - 1] in order;
      LiveTaskFits(s, order[i - 1], NextOf(s, pid));
    }
    forall e | e in s.procs && e != pid ensures 2 <= |s.procs[e].resources| && DelistSpares(s, pid, e) {
      TaskIsThere(s, e);
      if 0 < i {
        TaskInNoOther(s, order[i - 1], e);
      }
    }
  }

  lemma TaskInNoOther(s: State, t: nat, e: nat)
    requires Inv(s) && t in s.procs && e in s.procs
    ensures HasTask(s, t) && HasTask(s, e) && !InBlockOf(s, e, TaskPage(s.procs[t]))
  {
    TaskIsThere(s, t);
    TaskIsThere(s, e);
    hide Represents, ProcOk, RoleOk;
    var p := TaskPage(s.procs[t]);
    forall b | PageOf(s, e, b, p) ensures b == p - HEAP_PAGE {
      BlockInHeap(s, p - HEAP_PAGE);
      PageOfOne(s, b, p - HEAP_PAGE, p);
    }
  }

  /** The words of all tasks after task_list_remove, whatever `prev` was. */
  lemma DelistedWords(s: State, pid: nat, e: nat)
    requires Inv(s) && pid in s.procs && HasTask(s, pid) && IsStart(PrevOf(s, pid)) && e in s.procs && HasTask(s, e)
    ensures var n, p, prev := DelistedMemory(s, pid), TaskPage(s.procs[e]), PrevOf(s, pid);
      && |n| == |s.m| && WordAt(n, p, TASK_PREV) == PrevOf(s, e)
      && WordAt(n, p, TASK_NEXT) == if prev != 0 && prev / 4096 == p then NextOf(s, pid) else NextOf(s, e)
  {
    hide Inv;
    var prev, p := PrevOf(s, pid), TaskPage(s.procs[e]);
    if prev != 0 {
      WithNextIs(s.m, prev, NextOf(s, pid));
      assert !IsLink(prev, p, TASK_PREV) && (prev / 4096 != p ==> !IsLink(prev, p, TASK_NEXT));
    }
  }

  /** A task taken out of a list that is linked both ways, wherever it is in it. */
  lemma Leaves(s: State, s1: State, s': State, order: seq<nat>, i: nat)
    requires Inv(s) && TwoWay(s, order) && i < |order| && HasTask(s, order[i]) && IsStart(PrevOf(s, order[i]))
    requires Delists(s, s1, s', order[i])
    ensures (forall e <- order :: HasTask(s, e)) && ClosedUp(s, s', order, i)
  {
    hide Inv, DelistedMemory, Ended, TaskAt, TwoWay, NextOf, PrevOf, StillLinked;
    LinksAt(s, order, i);
    EndsCloseUp(s, order, i);
    forall k: nat | k < |order| && k != i ensures StillLinked(s, s', order, i, k) {
      LeavesLink(s, s1, s', order, i, k);
    }
  }

  lemma EndsCloseUp(s: State, order: seq<nat>, i: nat)
    requires Inv(s) && TwoWay(s, order) && i < |order|
    ensures order[i] in s.procs && forall e <- order :: HasTask(s, e)
    ensures var n, gone := |order|, TaskAt(s, order, i);
      var after := DelistedEnds(s.ends, gone, NextOf(s, order[i]), PrevOf(s, order[i]));
      && gone == TaskOf(s, order[i])
      && after.head == TaskAt(s, order, if i == 0 then 1 else 0)
      && after.tail == TaskAt(s, order, if i == n - 1 then n - 2 else n - 1)
      && after.current == (if s.ends.current != gone then s.ends.current
                           else if i + 1 < n then TaskAt(s, order, i + 1) else after.head)
  {
    hide Inv, TwoWay, NextOf, PrevOf, TaskOf;
    LinksAt(s, order, i);
    if 0 < i { PlacesApart(s, order, 0, i); }
    if i < |order| - 1 { PlacesApart(s, order, i, |order| - 1); }
  }

  lemma LeavesLink(s: State, s1: State, s': State, order: seq<nat>, i: nat, k: nat)
    requires Inv(s) && TwoWay(s, order) && i < |order| && HasTask(s, order[i]) && IsStart(PrevOf(s, order[i]))
    requires Delists(s, s1, s', order[i]) && k < |order| && k != i && forall e <- order :: HasTask(s, e)
    ensures StillLinked(s, s', order, i, k)
  {
    hide Inv, DelistedMemory, DelistedEnds, TwoWay;
    LinksAt(s, order, i);
    LinksAt(s, order, k);
    PlacesApart(s, order, i, k);
    EndedProcs(s, s1, order[i]);
    DelistedWords(s, order[i], order[k]);
    if 0 < i && k != i - 1 {
      PlacesApart(s, order, i - 1, k);
    }
  }

  lemma EndedProcs(s: State, s1: State, pid: nat)
    requires Ended(s, s1, pid)
    ensures s1.procs.Keys == s.procs.Keys - {pid} && forall e <- s1.procs :: s1.procs[e] == s.procs[e]
  {
  }

  /** When it is the last one, what is left is linked both ways again. */
  lemma TwoWayLeaves(s: State, s1: State, s': State, pid: nat, order: seq<nat>)
    requires Inv(s) && TwoWay(s, order) && order != [] && order[|order| - 1] == pid
    requires HasTask(s, pid) && IsStart(PrevOf(s, pid)) && Delists(s, s1, s', pid)
    ensures TwoWay(s', order[..|order| - 1])
  {
    hide Inv, DelistedMemory, DelistedEnds, LinkedAt, StillLinked, NextOf, PrevOf, TaskOf, HasTask, ClosedUp;
    var n, rest := |order|, order[..|order| - 1];
    Leaves(s, s1, s', order, n - 1);
    EndedProcs(s, s1, pid);
    RestOfOrder(s, s', pid, order);
    forall k: nat | k < n - 1 ensures LinkedAt(s', rest, k) {
      StaysLinked(s, s', order, k);
    }
    RestEndsRight(s, s', order);
  }

  lemma RestOfOrder(s: State, s': State, pid: nat, order: seq<nat>)
    requires Distinct(order) && order != [] && order[|order| - 1] == pid && (forall e :: e in order <==> e in s.procs)
    requires (forall e <- order :: HasTask(s, e)) && ClosedUp(s, s', order, |order| - 1)
    requires s'.procs.Keys == s.procs.Keys - {pid}
    ensures var rest := order[..|order| - 1];
      Distinct(rest) && (forall e :: e in rest <==> e in s'.procs) && (forall e <- rest :: HasTask(s', e))
  {
    hide HasTask, NextOf, PrevOf, TaskOf, TaskAt;
    var rest := order[..|order| - 1];
    forall e ensures e in rest <==> e in order && e != pid {
    }
    forall e | e in rest ensures HasTask(s', e) {
      var k :| 0 <= k < |rest| && rest[k] == e;
      assert StillLinked(s, s', order, |order| - 1, k);
    }
  }

  lemma StaysLinked(s: State, s': State, order: seq<nat>, k: nat)
    requires k < |order| - 1 && (forall e <- order :: HasTask(s, e)) && ClosedUp(s, s', order, |order| - 1)
    requires forall e <- order[..|order| - 1] :: HasTask(s', e)
    ensures LinkedAt(s', order[..|order| - 1], k)
  {
    hide HasTask, NextOf, PrevOf, TaskOf;
    var n, rest := |order|, order[..|order| - 1];
    assert StillLinked(s, s', order, n - 1, k) && rest[k] in rest;
    if 0 < k { assert StillLinked(s, s', order, n - 1, k - 1) && rest[k - 1] in rest; }
    if k + 1 < n - 1 { assert StillLinked(s, s', order, n - 1, k + 1) && rest[k + 1] in rest; }
  }

  lemma RestEndsRight(s: State, s': State, order: seq<nat>)
    requires order != [] && (forall e <- order :: HasTask(s, e)) && ClosedUp(s, s', order, |order| - 1)
    requires exists k: nat :: k < |order| && s.ends.current == TaskOf(s, order[k])
    requires forall e <- order[..|order| - 1] :: HasTask(s', e)
    ensures var rest := order[..|order| - 1];
      && s'.ends.head == (if rest == [] then 0 else TaskOf(s', rest[0]))
      && s'.ends.tail == (if rest == [] then 0 else TaskOf(s', rest[|rest| - 1]))
      && (rest == [] ==> s'.ends.current == 0)
      && (rest != [] ==> exists k: nat :: k < |rest| && s'.ends.current == TaskOf(s', rest[k]))
  {
    hide HasTask, NextOf, PrevOf, TaskOf;
    var n, rest := |order|, order[..|order| - 1];
    var k: nat :| k < n && s.ends.current == TaskOf(s, order[k]);
    if rest != [] {
      assert StillLinked(s, s', order, n - 1, 0) && StillLinked(s, s', order, n - 1, n - 2);
      assert rest[0] in rest && rest[n - 2] in rest;
      var c := if s.ends.current == TaskOf(s, order[n - 1]) then 0 else k;
      assert StillLinked(s, s', order, n - 1, c) && rest[c] in rest && s'.ends.current == TaskOf(s', rest[c]);
    }
  }
}
