/**
 The task list as it lies in memory, and what its statements write into whatever lies where they
 write.  `next` and `prev` are two words of a task's heap block; task_list_remove writes through a
 `prev` and task_new through task_tail, and either may name a block that was freed long ago.
 */
module TaskLinks {
  import opened Machine
  import opened HeapTable
  import opened PageTables
  import opened KernelMemory
  import opened ProcessState
  import opened ProcessLife

  // ---------------------------------------------------------------- one link written

  ghost predicate Writable(m: Memory) {
    (HEAP_PAGE + HEAP_BLOCKS) * 1024 <= |m|
  }

  /** a->next = v */
  function WithNext(m: Memory, a: Word, v: Word): (n: Memory)
    requires Writable(m) && IsStart(a)
    ensures |n| == |m|
  {
    m[a / 4096 * 1024 + TASK_NEXT := v]
  }

  ghost predicate IsLink(a: Word, p: nat, i: nat) {
    p == a / 4096 && i == TASK_NEXT
  }

  lemma WithNextIs(m: Memory, a: Word, v: Word)
    requires Writable(m) && IsStart(a)
    ensures InMemory(m, a / 4096) && WordAt(WithNext(m, a, v), a / 4096, TASK_NEXT) == v
    ensures forall p: nat, i: nat | InMemory(m, p) && i < 1024 && !IsLink(a, p, i) ::
              WordAt(WithNext(m, a, v), p, i) == WordAt(m, p, i)
    ensures v == WordAt(m, a / 4096, TASK_NEXT) ==> WithNext(m, a, v) == m
  {
  }

  ghost function Linked(s: State, a: Word, v: Word): State
    requires Writable(s.m) && IsStart(a)
  {
    s.(m := WithNext(s.m, a, v))
  }

  /** Record `slot` of process e is in use for virtual page q. */
  ghost predicate Records(s: State, e: nat, slot: nat, q: nat)
    requires e in s.procs
  {
    slot < |s.procs[e].allocations| && s.procs[e].allocations[slot].ptr != 0 &&
    var b := BlockOf(s.procs[e].allocations[slot].ptr);
    b in s.live && HEAP_PAGE + b <= q < HEAP_PAGE + b + s.live[b]
  }

  /** The word of page p that a link takes is part of what process e needs to be as it is: of its
      directory, or of a table where it is the entry of a page of recorded memory. */
  ghost predicate Needs(s: State, e: nat, p: nat)
    requires e in s.procs
  {
    p == s.procs[e].directory
    || exists i: nat, slot: nat :: NeedsEntry(s, e, p, i, slot)
  }

  ghost predicate NeedsEntry(s: State, e: nat, p: nat, i: nat, slot: nat)
    requires e in s.procs
  {
    i < ENTRIES && InMemory(s.m, s.procs[e].directory) && TablePage(s.m, s.procs[e].directory, i) == p
    && Records(s, e, slot, i * 1024 + TASK_NEXT)
  }

  /** Writing v does no harm: the word is v already, or no process needs it. */
  ghost predicate LinkFits(s: State, a: Word, v: Word)
    requires Writable(s.m) && IsStart(a)
  {
    v == WordAt(s.m, a / 4096, TASK_NEXT) || forall e <- s.procs :: !Needs(s, e, a / 4096)
  }

  lemma LinkedDirectory(s: State, a: Word, v: Word, e: nat)
    requires HeapInv(s) && IsStart(a) && e in s.procs && DirectoryOk(s, e) && a / 4096 != s.procs[e].directory
    ensures DirectoryOk(Linked(s, a, v), e) && SameTables(s.m, Linked(s, a, v).m, s.procs[e].directory)
    ensures GoodDirectory(s.m, s.procs[e].directory)
  {
    hide Represents;
    var s', d := Linked(s, a, v), s.procs[e].directory;
    WithNextIs(s.m, a, v);
    DirectoryIsGood(s, e);
    forall i: nat | i < ENTRIES ensures WordAt(s'.m, d, i) == WordAt(s.m, d, i) {
      assert !IsLink(a, d, i);
    }
    assert !IsLink(a, s.procs[e].chunk, 0);
    forall i: nat | i < ENTRIES
      ensures OwnPage(s', TablePage(s'.m, d, i), Table(e, i)) && WordAt(s'.m, d, i) % 4096 == RW_USER
    {
      assert OwnPage(s, TablePage(s.m, d, i), Table(e, i)) && WordAt(s.m, d, i) % 4096 == RW_USER;
    }
    DirectoryIsGood(s', e);
  }

  lemma LinkedResources(s: State, a: Word, v: Word, e: nat)
    requires HeapInv(s) && IsStart(a) && IsStart(v) && e in s.procs && ResourcesOk(s, e)
    ensures ResourcesOk(Linked(s, a, v), e)
  {
    hide Represents;
    var s', p := Linked(s, a, v), TaskPage(s.procs[e]);
    WithNextIs(s.m, a, v);
    assert !IsLink(a, p, TASK_PREV);
    assert IsLink(a, p, TASK_NEXT) || WordAt(s'.m, p, TASK_NEXT) == WordAt(s.m, p, TASK_NEXT);
    forall k: nat | k < |s.procs[e].resources| ensures ResourceOk(s', e, k) {
      assert ResourceOk(s, e, k);
    }
  }

  /** The entry of a page of recorded memory, in a page that is not needed. */
  lemma LinkedSlot(s: State, a: Word, v: Word, e: nat, slot: nat)
    requires HeapInv(s) && IsStart(a) && e in s.procs && !Needs(s, e, a / 4096)
    requires slot < |s.procs[e].allocations| && SlotOk(s, e, slot)
    requires GoodDirectory(s.m, s.procs[e].directory) && SameTables(s.m, Linked(s, a, v).m, s.procs[e].directory)
    ensures SlotOk(Linked(s, a, v), e, slot)
  {
    hide Represents, Needs;
    var s', d, r := Linked(s, a, v), s.procs[e].directory, s.procs[e].allocations[slot];
    WithNextIs(s.m, a, v);
    if r.ptr != 0 {
      var b := BlockOf(r.ptr);
      forall q: nat | HEAP_PAGE + b <= q < HEAP_PAGE + b + s.live[b] && q < PAGES
        ensures Pte(s'.m, d, q) == Pte(s.m, d, q) && Pde(s'.m, d, q) == Pde(s.m, d, q)
      {
        if IsLink(a, TablePage(s.m, d, q / 1024), q % 1024) {
          NeededEntry(s, a / 4096, e, slot, q);
        }
      }
    }
  }

  lemma NeededEntry(s: State, p: nat, e: nat, slot: nat, q: nat)
    requires e in s.procs && q < PAGES && Records(s, e, slot, q) && InMemory(s.m, s.procs[e].directory)
    requires TablePage(s.m, s.procs[e].directory, q / 1024) == p && q % 1024 == TASK_NEXT
    ensures Needs(s, e, p)
  {
    hide Records;
    assert q == q / 1024 * 1024 + TASK_NEXT;
    assert NeedsEntry(s, e, p, q / 1024, slot);
  }

  lemma LinkedProc(s: State, a: Word, v: Word, e: nat)
    requires Inv(s) && IsStart(a) && IsStart(v) && e in s.procs && !Needs(s, e, a / 4096)
    ensures ProcOk(Linked(s, a, v), e) && SameTables(s.m, Linked(s, a, v).m, s.procs[e].directory)
    ensures GoodDirectory(s.m, s.procs[e].directory)
  {
    assert ProcOk(s, e);
    hide Represents, DirectoryOk, ResourcesOk, SlotOk, Inv;
    LinkedDirectory(s, a, v, e) by { assert a / 4096 != s.procs[e].directory; }
    LinkedResources(s, a, v, e);
    forall slot: nat | slot < SLOTS ensures SlotOk(Linked(s, a, v), e, slot) {
      LinkedSlot(s, a, v, e, slot);
    }
  }

  lemma LinkedInv(s: State, a: Word, v: Word)
    requires Inv(s) && IsStart(a) && IsStart(v) && forall e <- s.procs :: !Needs(s, e, a / 4096)
    ensures Inv(Linked(s, a, v))
  {
    hide Represents, ProcOk, Needs, SameTables, GoodDirectory;
    var s' := Linked(s, a, v);
    forall e | e in s.procs ensures ProcOk(s', e) { LinkedProc(s, a, v, e); }
    forall b | b in s.owner ensures RoleOk(s', b) {
      assert RoleOk(s, b);
      LinkedRole(s, a, v, b);
    }
  }

  lemma LinkedRole(s: State, a: Word, v: Word, b: nat)
    requires Inv(s) && IsStart(a) && IsStart(v) && (forall e <- s.procs :: !Needs(s, e, a / 4096))
    requires b in s.owner && RoleOk(s, b)
    ensures RoleOk(Linked(s, a, v), b)
  {
    hide Represents, ProcOk, Needs, Inv;
    if s.owner[b].Table? {
      LinkedProc(s, a, v, s.owner[b].pid);
    }
  }

  /** A needed word cannot become another one. */
  lemma HarmShows(s: State, a: Word, v: Word, e: nat)
    requires Inv(s) && IsStart(a) && Inv(Linked(s, a, v)) && e in s.procs && Needs(s, e, a / 4096)
    ensures v == WordAt(s.m, a / 4096, TASK_NEXT)
  {
    hide Represents, DirectoryOk, ResourcesOk, SlotOk, RoleOk, NeedsEntry;
    var s', p, d := Linked(s, a, v), a / 4096, s.procs[e].directory;
    assert ProcOk(s, e) && ProcOk(s', e);
    WithNextIs(s.m, a, v);
    if p == d {
      SameFrame(s, s', e, TASK_NEXT);
    } else {
      var i: nat, slot: nat :| NeedsEntry(s, e, p, i, slot);
      EntryShows(s, a, v, e, i, slot);
    }
  }

  lemma EntryShows(s: State, a: Word, v: Word, e: nat, i: nat, slot: nat)
    requires HeapInv(s) && IsStart(a) && e in s.procs && ProcOk(s, e) && ProcOk(Linked(s, a, v), e)
    requires a / 4096 != s.procs[e].directory && NeedsEntry(s, e, a / 4096, i, slot)
    ensures v == WordAt(s.m, a / 4096, TASK_NEXT)
  {
    var q := i * 1024 + TASK_NEXT;
    assert q / 1024 == i && q % 1024 == TASK_NEXT;
    assert Records(Linked(s, a, v), e, slot, q);
    hide Represents, ProcOk, ResourcesOk, Records;
    WithNextIs(s.m, a, v);
    LinkedDirectory(s, a, v, e);
    NeededPte(s, e, slot, q);
    NeededPte(Linked(s, a, v), e, slot, q);
  }

  lemma NeededPte(s: State, e: nat, slot: nat, q: nat)
    requires HeapInv(s) && e in s.procs && ProcOk(s, e) && Records(s, e, slot, q) && q < PAGES
    ensures GoodDirectory(s.m, s.procs[e].directory) && Pte(s.m, s.procs[e].directory, q) == EntryOf(q, RW_USER)
  {
    hide Represents, DirectoryOk;
    assert SlotOk(s, e, slot);
  }

  /** Table i of e is one and the same block whatever the directory says. */
  lemma SameFrame(s: State, s': State, e: nat, i: nat)
    requires Inv(s) && HeapInv(s') && e in s.procs && DirectoryOk(s, e) && s'.procs == s.procs && s'.owner == s.owner
    requires DirectoryOk(s', e) && i < ENTRIES
    ensures WordAt(s'.m, s.procs[e].directory, i) == WordAt(s.m, s.procs[e].directory, i)
  {
    hide Represents;
    var d := s.procs[e].directory;
    assert OwnPage(s', TablePage(s'.m, d, i), Table(e, i));
    assert RoleOk(s, TablePage(s'.m, d, i) - HEAP_PAGE);
    assert WordAt(s.m, d, i) % 4096 == RW_USER && WordAt(s'.m, d, i) % 4096 == RW_USER;
  }

  /** Whatever block the link is written into, the global invariant survives if and only if the write
      does no harm. */
  lemma LinkKeepsInvIff(s: State, a: Word, v: Word)
    requires Inv(s) && IsStart(a) && IsStart(v)
    ensures Inv(Linked(s, a, v)) <==> LinkFits(s, a, v)
  {
    hide Inv, HeapInv, Needs;
    HeapOf(s);
    WritableOf(s);
    WithNextIs(s.m, a, v);
    if v == WordAt(s.m, a / 4096, TASK_NEXT) {
      assert Linked(s, a, v) == s;
    } else if forall e <- s.procs :: !Needs(s, e, a / 4096) {
      LinkedInv(s, a, v);
    } else if Inv(Linked(s, a, v)) {
      var e :| e in s.procs && Needs(s, e, a / 4096);
      HarmShows(s, a, v, e);
    }
  }

  lemma WritableOf(s: State)
    requires HeapInv(s)
    ensures Writable(s.m)
  {
  }

  // ---------------------------------------------------------------- whose words change

  ghost predicate SameButNext(m: Memory, n: Memory, p: nat) {
    InMemory(m, p) && InMemory(n, p) && forall i: nat | i < 1024 && i != TASK_NEXT :: WordAt(m, p, i) == WordAt(n, p, i)
  }

  /** Everything that belongs to e is what it was, to the last word, but for the `next` of its task. */
  ghost predicate CarriedButNext(s: State, s': State, e: nat)
    requires e in s.procs && 2 <= |s.procs[e].resources|
  {
    forall b <- s.owner :: Of(s.owner[b], e) ==>
      b in s'.owner && b in s.live && b in s'.live && s'.owner[b] == s.owner[b] && s'.live[b] == s.live[b]
      && forall p: nat | HEAP_PAGE + b <= p < HEAP_PAGE + b + s.live[b] ::
           if p == TaskPage(s.procs[e]) then SameButNext(s.m, s'.m, p) else SamePage(s.m, s'.m, p)
  }

  /** Page p is in a block of e, and it is not e's task. */
  ghost predicate InBlockOf(s: State, e: nat, p: nat)
    requires e in s.procs && 2 <= |s.procs[e].resources|
  {
    p != TaskPage(s.procs[e]) && exists b :: PageOf(s, e, b, p)
  }

  ghost predicate PageOf(s: State, e: nat, b: nat, p: nat) {
    b in s.owner && Of(s.owner[b], e) && b in s.live && HEAP_PAGE + b <= p < HEAP_PAGE + b + s.live[b]
  }

  ghost predicate LinkSpares(s: State, a: Word, v: Word, e: nat)
    requires Writable(s.m) && IsStart(a) && e in s.procs && 2 <= |s.procs[e].resources|
  {
    v == WordAt(s.m, a / 4096, TASK_NEXT) || !InBlockOf(s, e, a / 4096)
  }

  /** A link changes no word of process e but the `next` of its task if and only if the word is the same
      already or lies in no other block of e. */
  lemma LinkSparesIff(s: State, a: Word, v: Word, e: nat)
    requires HeapInv(s) && IsStart(a) && e in s.procs && 2 <= |s.procs[e].resources|
    ensures CarriedButNext(s, Linked(s, a, v), e) <==> LinkSpares(s, a, v, e)
  {
    var s', p := Linked(s, a, v), a / 4096;
    WithNextIs(s.m, a, v);
    forall b | b in s.owner { BlockInHeap(s, b); }
    hide Represents;
    if LinkSpares(s, a, v, e) {
      forall b, q: nat | b in s.owner && Of(s.owner[b], e) && HEAP_PAGE + b <= q < HEAP_PAGE + b + s.live[b]
        ensures if q == TaskPage(s.procs[e]) then SameButNext(s.m, s'.m, q) else SamePage(s.m, s'.m, q)
      {
        assert PageOf(s, e, b, q) && InMemory(s.m, q);
        assert forall i: nat | i < 1024 && i != TASK_NEXT :: !IsLink(a, q, i);
        assert q != p || q == TaskPage(s.procs[e]) || s'.m == s.m;
      }
    } else if CarriedButNext(s, s', e) {
      var b :| PageOf(s, e, b, p);
      PageShows(s, s', e, b, p);
    }
  }

  lemma PageShows(s: State, s': State, e: nat, b: nat, p: nat)
    requires e in s.procs && 2 <= |s.procs[e].resources| && CarriedButNext(s, s', e)
    requires PageOf(s, e, b, p) && p != TaskPage(s.procs[e])
    ensures InMemory(s.m, p) && InMemory(s'.m, p) && WordAt(s.m, p, TASK_NEXT) == WordAt(s'.m, p, TASK_NEXT)
  {
    assert SamePage(s.m, s'.m, p);
  }

  // ---------------------------------------------------------------- a task and its links

  /** struct task, word by word: the page directory, twelve registers, the process, and the two links. */
  function TaskRecord(directory: Word, registers: seq<Word>, process: Word, next: Word, prev: Word): seq<Word> {
    [directory] + registers + [process] + [next] + [prev]
  }

  /** The links are the words with these numbers, and the last ones. */
  lemma LinksLie(directory: Word, registers: seq<Word>, process: Word, next: Word, prev: Word)
    requires |registers| == 12
    ensures var words := TaskRecord(directory, registers, process, next, prev);
      |words| == 16 && words[TASK_NEXT] == next && words[TASK_PREV] == prev
  {
  }

  ghost predicate HasTask(s: State, pid: nat) {
    && Writable(s.m) && pid in s.procs && 2 <= |s.procs[pid].resources|
    && HEAP_PAGE <= TaskPage(s.procs[pid]) < HEAP_PAGE + HEAP_BLOCKS
  }

  ghost function TaskOf(s: State, pid: nat): (task: Word)
    requires HasTask(s, pid)
    ensures IsStart(task) && task != 0 && task / 4096 == TaskPage(s.procs[pid])
  {
    TaskPage(s.procs[pid]) * 4096
  }

  ghost function NextOf(s: State, pid: nat): Word
    requires HasTask(s, pid)
  {
    WordAt(s.m, TaskPage(s.procs[pid]), TASK_NEXT)
  }

  ghost function PrevOf(s: State, pid: nat): Word
    requires HasTask(s, pid)
  {
    WordAt(s.m, TaskPage(s.procs[pid]), TASK_PREV)
  }

  lemma TaskIsThere(s: State, pid: nat)
    requires Inv(s) && pid in s.procs
    ensures HasTask(s, pid) && IsStart(NextOf(s, pid)) && IsStart(PrevOf(s, pid))
    ensures var b := TaskPage(s.procs[pid]) - HEAP_PAGE;
            b in s.owner && b in s.live && s.owner[b] == Resource(pid, |s.procs[pid].resources| - 2)
  {
    hide Represents;
    assert ProcOk(s, pid);
    assert ResourceOk(s, pid, |s.procs[pid].resources| - 2);
  }

  /** The task of a process is no page that another one needs. */
  lemma TaskNotNeeded(s: State, pid: nat, e: nat)
    requires Inv(s) && pid in s.procs && e in s.procs
    ensures HasTask(s, pid) && !Needs(s, e, TaskPage(s.procs[pid]))
  {
    hide Represents, ResourcesOk, SlotOk;
    TaskIsThere(s, pid);
    assert ProcOk(s, e);
    var p := TaskPage(s.procs[pid]);
    forall i: nat | i < ENTRIES ensures TablePage(s.m, s.procs[e].directory, i) != p {
      assert OwnPage(s, TablePage(s.m, s.procs[e].directory, i), Table(e, i));
    }
  }

  // ---------------------------------------------------------------- task_list_remove

  ghost function DelistedMemory(s: State, pid: nat): Memory
    requires HasTask(s, pid) && IsStart(PrevOf(s, pid))
  {
    if PrevOf(s, pid) == 0 then s.m else WithNext(s.m, PrevOf(s, pid), NextOf(s, pid))
  }

  function DelistedEnds(ends: Ends, task: Word, next: Word, prev: Word): Ends {
    var head := if task == ends.head then next else ends.head;
    Ends(head, if task == ends.tail then prev else ends.tail,
         if task != ends.current then ends.current else if next == 0 then head else next)
  }

  /** Taking the task of pid out of the list is harmless: it has no `prev`, or the word there is right
      already, or no other process needs it. */
  ghost predicate DelistFits(s: State, pid: nat)
    requires HasTask(s, pid) && IsStart(PrevOf(s, pid))
  {
    PrevOf(s, pid) == 0 || NextOf(s, pid) == WordAt(s.m, PrevOf(s, pid) / 4096, TASK_NEXT)
    || forall e <- s.procs :: e != pid ==> !Needs(s, e, PrevOf(s, pid) / 4096)
  }

  /** ... and changes no word of process e but the `next` of its task. */
  ghost predicate DelistSpares(s: State, pid: nat, e: nat)
    requires HasTask(s, pid) && IsStart(PrevOf(s, pid)) && e in s.procs && 2 <= |s.procs[e].resources|
  {
    PrevOf(s, pid) == 0 || LinkSpares(s, PrevOf(s, pid), NextOf(s, pid), e)
  }

  /** s1 is what remains of s without pid, and s' is s1 with pid's task taken out of the list. */
  ghost predicate Delists(s: State, s1: State, s': State, pid: nat)
    requires HasTask(s, pid) && IsStart(PrevOf(s, pid))
  {
    && Ended(s, s1, pid) && s1.m == s.m && s1.ends == s.ends
    && s' == s1.(m := DelistedMemory(s, pid),
                 ends := DelistedEnds(s.ends, TaskOf(s, pid), NextOf(s, pid), PrevOf(s, pid)))
  }

  lemma NeedsRemain(s: State, s1: State, pid: nat, e: nat, p: nat)
    requires Inv(s) && Ended(s, s1, pid) && s1.m == s.m && e in s1.procs
    ensures Needs(s1, e, p) <==> Needs(s, e, p)
  {
    hide Represents, DirectoryOk, ResourcesOk;
    assert ProcOk(s, e);
    forall slot: nat, q: nat ensures Records(s1, e, slot, q) <==> Records(s, e, slot, q) {
      if slot < SLOTS {
        assert SlotOk(s, e, slot);
      }
    }
    hide Inv, Records;
    forall i: nat, slot: nat ensures NeedsEntry(s1, e, p, i, slot) <==> NeedsEntry(s, e, p, i, slot) {
    }
  }

  lemma EndsAnywhere(s: State, ends: Ends)
    requires Inv(s) && IsStart(ends.tail)
    ensures Inv(s.(ends := ends))
  {
    hide HeapInv, ProcOk, RoleOk;
    var s' := s.(ends := ends);
    assert HeapInv(s') by { HeapWhateverEnds(s, ends); }
    forall e | e in s.procs ensures ProcOk(s', e) {
      RelabelledCarried(s, s', e);
      ProcCarried(s, s', e);
    }
    forall b | b in s.owner ensures RoleOk(s', b) {
      assert RoleOk(s, b);
      RoleWhateverEnds(s, ends, b);
    }
  }

  lemma HeapWhateverEnds(s: State, ends: Ends)
    requires HeapInv(s)
    ensures HeapInv(s.(ends := ends))
  {
  }

  lemma RoleWhateverEnds(s: State, ends: Ends, b: nat)
    requires HeapInv(s) && b in s.owner && RoleOk(s, b) && HeapInv(s.(ends := ends))
    ensures RoleOk(s.(ends := ends), b)
  {
  }

  lemma EndsAnywhereIff(s: State, s': State)
    requires s' == s.(ends := s'.ends) && IsStart(s.ends.tail) && IsStart(s'.ends.tail)
    ensures Inv(s) <==> Inv(s')
  {
    hide Inv;
    assert s == s'.(ends := s.ends);
    if Inv(s) {
      EndsAnywhere(s, s'.ends);
    }
    if Inv(s') {
      EndsAnywhere(s', s.ends);
    }
  }

  /** For every consistent state: the end of a process leaves a consistent state if and only if taking its
      task out of the list is harmless. */
  lemma DelistKeepsInvIff(s: State, s1: State, s': State, pid: nat)
    requires Inv(s) && pid in s.procs && Inv(s1) && HasTask(s, pid) && IsStart(PrevOf(s, pid))
    requires Delists(s, s1, s', pid)
    ensures Inv(s') <==> DelistFits(s, pid)
  {
    hide Inv, Needs, Ended, DelistedEnds, NextOf, PrevOf;
    TaskIsThere(s, pid);
    var prev, next := PrevOf(s, pid), NextOf(s, pid);
    TailStarts(s, prev, pid);
    TailOf(s1);
    HeapOf(s1);
    var s2 := if prev == 0 then s1 else Linked(s1, prev, next);
    EndsAnywhereIff(s2, s');
    if prev != 0 {
      LinkKeepsInvIff(s1, prev, next);
      ProcsWithout(s, s1, pid);
      forall e | e in s1.procs ensures Needs(s1, e, prev / 4096) <==> Needs(s, e, prev / 4096) {
        NeedsRemain(s, s1, pid, e, prev / 4096);
      }
    }
  }

  lemma TailOf(s: State)
    requires Inv(s)
    ensures IsStart(s.ends.tail)
  {
  }

  lemma ProcsWithout(s: State, s1: State, pid: nat)
    requires Ended(s, s1, pid)
    ensures s1.procs.Keys == s.procs.Keys - {pid}
  {
  }

  lemma TailStarts(s: State, prev: Word, pid: nat)
    requires Inv(s) && HasTask(s, pid) && IsStart(prev)
    ensures IsStart(DelistedEnds(s.ends, TaskOf(s, pid), NextOf(s, pid), prev).tail)
  {
  }

  /** And it changes no word of another process, but the `next` of its task, if and only if the link is
      right already or lies in no other block of that process. */
  lemma DelistSparesIff(s: State, s1: State, s': State, pid: nat, e: nat)
    requires Inv(s) && pid in s.procs && HasTask(s, pid) && IsStart(PrevOf(s, pid))
    requires Delists(s, s1, s', pid) && e in s1.procs
    ensures e in s.procs && 2 <= |s.procs[e].resources|
    ensures CarriedButNext(s, s', e) <==> DelistSpares(s, pid, e)
  {
    hide DelistedEnds, NextOf, PrevOf, CarriedButNext, LinkSpares;
    assert ProcOk(s, e) && Carried(s, s1, e);
    hide Inv, ProcOk, Carried;
    var prev, next := PrevOf(s, pid), NextOf(s, pid);
    HeapOf(s);
    if prev == 0 {
      CarriedAgain(s, s1, s', s, e);
      UnchangedCarried(s, e);
    } else {
      LinkSparesIff(s, prev, next, e);
      CarriedAgain(s, s1, s', Linked(s, prev, next), e);
    }
  }

  lemma UnchangedCarried(s: State, e: nat)
    requires HeapInv(s) && e in s.procs && 2 <= |s.procs[e].resources|
    ensures CarriedButNext(s, s, e)
  {
    forall b | b in s.owner { BlockInHeap(s, b); }
  }

  /** Blocks that stay where they are: what changes in them is a matter of memory alone. */
  lemma CarriedAgain(s: State, s1: State, s': State, s2: State, e: nat)
    requires HeapInv(s) && e in s.procs && 2 <= |s.procs[e].resources| && Carried(s, s1, e)
    requires s'.owner == s1.owner && s'.live == s1.live && s2.owner == s.owner && s2.live == s.live && s'.m == s2.m
    ensures CarriedButNext(s, s', e) <==> CarriedButNext(s, s2, e)
  {
    hide Represents;
  }

  // ---------------------------------------------------------------- the last lines of task_new

  /** task->prev = w */
  ghost function WithPrev(s: State, pid: nat, w: Word): State
    requires HasTask(s, pid)
  {
    s.(m := s.m[TaskPage(s.procs[pid]) * 1024 + TASK_PREV := w])
  }

  function EnlistedEnds(ends: Ends, task: Word): Ends {
    if ends.head == 0 then Ends(task, task, task) else ends.(tail := task)
  }

  /** The task of pid put at the end of the list, whatever task_tail is. */
  ghost function Enlisted(s: State, pid: nat): State
    requires HasTask(s, pid) && IsStart(s.ends.tail)
  {
    if s.ends.head == 0 then s.(ends := EnlistedEnds(s.ends, TaskOf(s, pid)))
    else
      WithPrev(Linked(s, s.ends.tail, TaskOf(s, pid)), pid, s.ends.tail).(ends := EnlistedEnds(s.ends, TaskOf(s, pid)))
  }

  ghost predicate EnlistFits(s: State, pid: nat)
    requires HasTask(s, pid) && IsStart(s.ends.tail)
  {
    s.ends.head == 0 || LinkFits(s, s.ends.tail, TaskOf(s, pid))
  }

  ghost predicate EnlistSpares(s: State, pid: nat, e: nat)
    requires HasTask(s, pid) && IsStart(s.ends.tail) && e in s.procs && 2 <= |s.procs[e].resources|
  {
    s.ends.head == 0 || LinkSpares(s, s.ends.tail, TaskOf(s, pid), e)
  }

  /** The words of the task's own page but for `prev`, and those of all other pages, are as they were. */
  lemma WithPrevIs(s: State, pid: nat, w: Word)
    requires HasTask(s, pid)
    ensures var m, n, p := s.m, WithPrev(s, pid, w).m, TaskPage(s.procs[pid]);
      && |n| == |m| && InMemory(m, p) && WordAt(n, p, TASK_PREV) == w
      && WordAt(n, p, TASK_NEXT) == WordAt(m, p, TASK_NEXT)
      && (forall q: nat | InMemory(m, q) && q != p :: SamePage(m, n, q))
  {
  }

  lemma PrevCarries(s: State, pid: nat, w: Word, e: nat)
    requires Inv(s) && pid in s.procs && HasTask(s, pid) && e != pid
    ensures Carried(s, WithPrev(s, pid, w), e)
  {
    TaskIsThere(s, pid);
    WithPrevIs(s, pid, w);
    hide Represents, ProcOk, RoleOk, WithPrev;
    var b := TaskPage(s.procs[pid]) - HEAP_PAGE;
    forall c, p: nat | c in s.owner && Of(s.owner[c], e) && HEAP_PAGE + c <= p < HEAP_PAGE + c + s.live[c]
      ensures SamePage(s.m, WithPrev(s, pid, w).m, p)
    {
      BlockInHeap(s, c);
      BlockInHeap(s, b);
      if p == TaskPage(s.procs[pid]) {
        PageOfOne(s, b, c, p);
      }
    }
  }

  lemma PrevKeepsProc(s: State, pid: nat, w: Word)
    requires Inv(s) && pid in s.procs && HasTask(s, pid) && IsStart(w)
    ensures ProcOk(WithPrev(s, pid, w), pid)
  {
    hide Represents;
    var s', p := WithPrev(s, pid, w), s.procs[pid];
    assert ProcOk(s, pid);
    TaskIsThere(s, pid);
    WithPrevIs(s, pid, w);
    DirectoryIsGood(s, pid);
    hide WithPrev, Inv;
    assert SamePage(s.m, s'.m, p.directory) && SamePage(s.m, s'.m, p.chunk);
    SameDirectory(s.m, s'.m, p.directory);
    assert WordAt(s'.m, p.chunk, 0) == WordAt(s.m, p.chunk, 0);
    forall i: nat | i < ENTRIES
      ensures OwnPage(s', TablePage(s'.m, p.directory, i), Table(pid, i))
      ensures WordAt(s'.m, p.directory, i) % 4096 == RW_USER
      ensures SamePage(s.m, s'.m, TablePage(s.m, p.directory, i))
    {
      assert OwnPage(s, TablePage(s.m, p.directory, i), Table(pid, i));
      assert WordAt(s.m, p.directory, i) % 4096 == RW_USER;
    }
    forall k: nat | k < |p.resources| ensures ResourceOk(s', pid, k) {
      assert ResourceOk(s, pid, k);
    }
    forall slot: nat | slot < SLOTS ensures SlotOk(s', pid, slot) {
      PrevKeepsSlot(s, pid, w, slot);
    }
  }

  lemma PrevKeepsSlot(s: State, pid: nat, w: Word, slot: nat)
    requires HeapInv(s) && HasTask(s, pid) && slot < |s.procs[pid].allocations| && SlotOk(s, pid, slot)
    requires var n, d := WithPrev(s, pid, w).m, s.procs[pid].directory;
      && GoodDirectory(s.m, d) && SameTables(s.m, n, d)
      && forall i: nat | i < ENTRIES :: SamePage(s.m, n, TablePage(s.m, d, i))
    ensures SlotOk(WithPrev(s, pid, w), pid, slot)
  {
    hide Represents;
    var n, d, a := WithPrev(s, pid, w).m, s.procs[pid].directory, s.procs[pid].allocations[slot];
    if a.ptr != 0 {
      var b := BlockOf(a.ptr);
      forall q: nat | HEAP_PAGE + b <= q < HEAP_PAGE + b + s.live[b] && q < PAGES
        ensures Pte(n, d, q) == Pte(s.m, d, q) && Pde(n, d, q) == Pde(s.m, d, q)
      {
        assert SamePage(s.m, n, TablePage(s.m, d, q / 1024));
      }
    }
  }

  lemma PrevKeepsInv(s: State, pid: nat, w: Word)
    requires Inv(s) && pid in s.procs && HasTask(s, pid) && IsStart(w)
    ensures Inv(WithPrev(s, pid, w))
  {
    hide Represents, ProcOk, RoleOk, Carried, DirectoryOk;
    var s' := WithPrev(s, pid, w);
    assert HeapInv(s');
    forall e | e in s.procs ensures ProcOk(s', e) {
      if e == pid {
        PrevKeepsProc(s, pid, w);
      } else {
        assert ProcOk(s, e);
        PrevCarries(s, pid, w, e);
        ProcCarried(s, s', e);
      }
    }
    forall b | b in s.owner ensures RoleOk(s', b) {
      assert RoleOk(s, b);
      PrevKeepsRole(s, pid, w, b);
    }
  }

  lemma PrevKeepsRole(s: State, pid: nat, w: Word, b: nat)
    requires Inv(s) && pid in s.procs && HasTask(s, pid) && b in s.owner && RoleOk(s, b)
    ensures HeapInv(WithPrev(s, pid, w)) && RoleOk(WithPrev(s, pid, w), b)
  {
    hide Represents;
    if s.owner[b].Table? {
      var e := s.owner[b].pid;
      TaskIsThere(s, pid);
      WithPrevIs(s, pid, w);
      assert ProcOk(s, e);
      assert SamePage(s.m, WithPrev(s, pid, w).m, s.procs[e].directory);
      assert WordAt(WithPrev(s, pid, w).m, s.procs[e].directory, s.owner[b].index)
          == WordAt(s.m, s.procs[e].directory, s.owner[b].index);
    }
  }

  /** For every consistent state: putting a new task behind task_tail keeps it consistent if and only if
      there was no task at all, or the write to tail->next is harmless. */
  lemma EnlistKeepsInvIff(s: State, pid: nat)
    requires Inv(s) && pid in s.procs && HasTask(s, pid)
    ensures Inv(Enlisted(s, pid)) <==> EnlistFits(s, pid)
  {
    hide Inv, WithPrev, Linked;
    var tail, task := s.ends.tail, TaskOf(s, pid);
    HeapOf(s);
    TailOf(s);
    TaskIsThere(s, pid);
    if s.ends.head == 0 {
      EndsAnywhereIff(s, Enlisted(s, pid));
    } else {
      var s1 := Linked(s, tail, task);
      LinkedPrev(s, pid, tail, task);
      LinkKeepsInvIff(s, tail, task);
      PrevAnyIff(s1, pid, tail, PrevOf(s, pid));
      PrevKeepsEnds(s1, pid, tail);
      EndsAnywhereIff(WithPrev(s1, pid, tail), Enlisted(s, pid));
    }
  }

  lemma LinkedPrev(s: State, pid: nat, a: Word, v: Word)
    requires HasTask(s, pid) && IsStart(a)
    ensures HasTask(Linked(s, a, v), pid) && PrevOf(Linked(s, a, v), pid) == PrevOf(s, pid)
    ensures Linked(s, a, v).ends == s.ends
  {
  }

  lemma PrevKeepsEnds(s: State, pid: nat, w: Word)
    requires HasTask(s, pid)
    ensures WithPrev(s, pid, w).ends == s.ends
  {
  }

  lemma PrevAnyIff(s: State, pid: nat, w: Word, old_: Word)
    requires HasTask(s, pid) && old_ == PrevOf(s, pid) && IsStart(w) && IsStart(old_)
    ensures HasTask(WithPrev(s, pid, w), pid)
    ensures Inv(s) <==> Inv(WithPrev(s, pid, w))
  {
    var s' := WithPrev(s, pid, w);
    assert WithPrev(s', pid, old_) == s;
    hide Inv, WithPrev;
    if Inv(s) {
      PrevKeepsInv(s, pid, w);
    }
    if Inv(s') {
      PrevKeepsInv(s', pid, old_);
    }
  }

  /** And it changes no word of another process, but the `next` of its task, if and only if the word is
      right already or lies in no other block of that process. */
  lemma EnlistSparesIff(s: State, pid: nat, e: nat)
    requires Inv(s) && pid in s.procs && HasTask(s, pid) && e in s.procs && e != pid
    ensures 2 <= |s.procs[e].resources|
    ensures CarriedButNext(s, Enlisted(s, pid), e) <==> EnlistSpares(s, pid, e)
  {
    hide Represents, CarriedButNext, LinkSpares, WithPrev;
    assert ProcOk(s, e);
    HeapOf(s);
    hide Inv, ProcOk;
    if s.ends.head == 0 {
      UnchangedCarried(s, e);
      SelfCarried(s, e);
      CarriedAgain(s, s, Enlisted(s, pid), s, e);
    } else {
      LinkSparesIff(s, s.ends.tail, TaskOf(s, pid), e);
      PrevElsewhere(s, Linked(s, s.ends.tail, TaskOf(s, pid)), Enlisted(s, pid), pid, s.ends.tail, e);
    }
  }

  lemma PrevElsewhere(s: State, s1: State, s2: State, pid: nat, w: Word, e: nat)
    requires Inv(s) && pid in s.procs && e in s.procs && e != pid && 2 <= |s.procs[e].resources|
    requires HasTask(s1, pid) && s1 == s.(m := s1.m) && |s1.m| == |s.m| && s2 == WithPrev(s1, pid, w).(ends := s2.ends)
    ensures CarriedButNext(s, s1, e) <==> CarriedButNext(s, s2, e)
  {
    TaskIsThere(s, pid);
    WithPrevIs(s1, pid, w);
    hide Represents, ProcOk, RoleOk, WithPrev;
    var t := TaskPage(s.procs[pid]);
    forall c, p: nat | c in s.owner && Of(s.owner[c], e) && HEAP_PAGE + c <= p < HEAP_PAGE + c + s.live[c]
      ensures SamePage(s.m, s1.m, p) <==> SamePage(s.m, s2.m, p)
      ensures SameButNext(s.m, s1.m, p) <==> SameButNext(s.m, s2.m, p)
    {
      BlockInHeap(s, c);
      BlockInHeap(s, t - HEAP_PAGE);
      if p == t {
        PageOfOne(s, t - HEAP_PAGE, c, p);
      }
      SameAgain(s.m, s1.m, s2.m, p);
    }
  }

  lemma SameAgain(m: Memory, n: Memory, o: Memory, p: nat)
    requires SamePage(n, o, p)
    ensures SamePage(m, n, p) <==> SamePage(m, o, p)
    ensures SameButNext(m, n, p) <==> SameButNext(m, o, p)
  {
  }

  /** A task that is in the list is no harm to anybody as a `prev` or as the tail. */
  lemma LiveTaskFits(s: State, e: nat, v: Word)
    requires Inv(s) && e in s.procs
    ensures HasTask(s, e) && LinkFits(s, TaskOf(s, e), v)
    ensures forall f <- s.procs :: !Needs(s, f, TaskPage(s.procs[e]))
  {
    hide Inv, Needs;
    TaskIsThere(s, e);
    forall f | f in s.procs ensures !Needs(s, f, TaskPage(s.procs[e])) {
      TaskNotNeeded(s, e, f);
    }
  }
}
