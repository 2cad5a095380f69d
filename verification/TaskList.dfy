/** The doubly linked list of tasks and the operations that rewrite it. */
module TaskList {
  import opened Tasks

  class Task {
    var registers: Registers
    var next: Task?
    var prev: Task?

    constructor (registers: Registers)
      ensures this.registers == registers && next == null && prev == null
    {
      this.registers := registers;
      next, prev := null, null;
    }
  }

  /** From head to tail along `next`. */
  ghost predicate Forward(head: Task?, tail: Task?, tasks: seq<Task>)
    reads tasks
  {
    && head == (if tasks == [] then null else tasks[0])
    && tail == (if tasks == [] then null else tasks[|tasks| - 1])
    && (tasks != [] ==> tasks[|tasks| - 1].next == null)
    && (forall i, j | 0 <= i < j < |tasks| && j == i + 1 :: tasks[i].next == tasks[j])
    && (forall i, j | 0 <= i < j < |tasks| :: tasks[i] != tasks[j])
  }

  /** And back again along `prev`. */
  ghost predicate Backward(tasks: seq<Task>)
    reads tasks
  {
    && (tasks != [] ==> tasks[0].prev == null)
    && (forall i, j | 0 <= i < j < |tasks| && j == i + 1 :: tasks[j].prev == tasks[i])
  }

  ghost function SavedOf(tasks: seq<Task>): (saved: seq<Registers>)
    reads tasks
    ensures |saved| == |tasks|
  {
    seq(|tasks|, i requires 0 <= i < |tasks| reads tasks => tasks[i].registers)
  }

  function Without<T>(s: seq<T>, i: nat): seq<T>
    requires i < |s|
  {
    s[..i] + s[i + 1..]
  }

  /** The `prev` link of task i is good enough for its removal: it names the task before it; for the
      first task it names nothing, or, when others are behind it, none of them.  (A link left over
      from a removed task names one of them once a new task has been given the removed one's block.) */
  ghost predicate PrevRight(tasks: seq<Task>, i: nat, prev: Task?)
    requires i < |tasks|
  {
    if 0 < i then prev == tasks[i - 1] else prev == null || (1 < |tasks| && prev !in tasks[1..])
  }

  lemma WithoutIs<T>(s: seq<T>, i: nat)
    requires i < |s|
    ensures |Without(s, i)| == |s| - 1
    ensures forall j | 0 <= j < |s| - 1 :: Without(s, i)[j] == if j < i then s[j] else s[j + 1]
  {
  }

  /** The task behind task i, if any. */
  function Behind(tasks: seq<Task>, i: nat): Task? {
    if i + 1 < |tasks| then tasks[i + 1] else null
  }

  /** The links of a list from which task i was taken out, with whatever `prev` it had: the task
      named there, if it is one of the list, now leads to the one behind task i. */
  ghost predicate TakenOut(head: Task?, tail: Task?, tasks: seq<Task>, i: nat, prev: Task?)
    requires i < |tasks|
    reads tasks
  {
    var n := |tasks|;
    && (forall j, k | 0 <= j < k < n :: tasks[j] != tasks[k])
    && (forall j, k | 0 <= j < k < n && k == j + 1 ::
          tasks[j].next == if tasks[j] == prev then Behind(tasks, i) else tasks[k])
    && tasks[n - 1].next == (if tasks[n - 1] == prev then Behind(tasks, i) else null)
    && head == (if 0 < i then tasks[0] else Behind(tasks, 0))
    && tail == (if i < n - 1 then tasks[n - 1] else prev)
  }

  lemma TakenOutForward(head: Task?, tail: Task?, tasks: seq<Task>, i: nat, prev: Task?)
    requires i < |tasks| && TakenOut(head, tail, tasks, i, prev) && PrevRight(tasks, i, prev)
    ensures Forward(head, tail, Without(tasks, i))
  {
    WithoutIs(tasks, i);
    var u := Without(tasks, i);
    forall j | 0 < j < |tasks| && i == 0 ensures tasks[j] != prev {
      assert tasks[j] == tasks[1..][j - 1];
    }
    forall j, k | 0 <= j < k < |u| && k == j + 1 ensures u[j].next == u[k] {
      if j == i - 1 {
        assert tasks[i - 1] == prev && tasks[i - 1].next == Behind(tasks, i) by { assert tasks[i] in tasks; }
      } else {
        var a := if j < i then j else j + 1;
        assert tasks[a] == u[j] && tasks[a + 1] == u[k];
      }
    }
  }

  lemma TakenOutBroken(head: Task?, tail: Task?, tasks: seq<Task>, i: nat, prev: Task?)
    requires i < |tasks| && TakenOut(head, tail, tasks, i, prev) && !PrevRight(tasks, i, prev)
    ensures !Forward(head, tail, Without(tasks, i))
  {
    WithoutIs(tasks, i);
    var n, u := |tasks|, Without(tasks, i);
    if 0 < i {
      var before, removed := tasks[i - 1], tasks[i];
      assert before.next == removed && u[i - 1] == before;
      if i < n - 1 {
        assert u[i] == tasks[i + 1] && tasks[i] != tasks[i + 1];
      } else {
        assert u[|u| - 1].next != null;
      }
    } else if 1 < n {
      var j :| 0 <= j < |tasks[1..]| && tasks[1..][j] == prev;
      assert tasks[j + 1] == prev && u[j] == prev;
      if j + 2 < n {
        var named, after := tasks[j + 1], tasks[j + 2];
        assert named.next == if named == prev then Behind(tasks, 0) else after;
        assert u[j].next == tasks[1] && u[j + 1] == tasks[j + 2] && tasks[1] != tasks[j + 2];
      } else {
        assert u[|u| - 1].next == tasks[1];
      }
    }
  }

  lemma BackwardWithout(tasks: seq<Task>, i: nat)
    requires i < |tasks| && Backward(tasks) && forall j, k | 0 <= j < k < |tasks| :: tasks[j] != tasks[k]
    ensures Backward(Without(tasks, i)) <==> i == |tasks| - 1
    ensures PrevRight(tasks, i, tasks[i].prev)
  {
    WithoutIs(tasks, i);
    var u := Without(tasks, i);
    if i < |tasks| - 1 {
      assert u[i] == tasks[i + 1] && tasks[i + 1].prev == tasks[i];
      if 0 < i {
        assert u[i - 1] == tasks[i - 1];
      }
    }
  }

  lemma SavedOfWithout(tasks: seq<Task>, i: nat)
    requires i < |tasks|
    ensures SavedOf(Without(tasks, i)) == Without(SavedOf(tasks), i)
  {
    WithoutIs(tasks, i);
    WithoutIs(SavedOf(tasks), i);
  }

  lemma InWithout<T>(s: seq<T>, i: nat, x: T)
    requires i < |s| && x in s && x != s[i]
    ensures x in Without(s, i)
  {
    var j :| 0 <= j < |s| && s[j] == x;
    WithoutIs(s, i);
    assert Without(s, i)[if j < i then j else j - 1] == x;
  }

  /** Whether the list is right again, and which task runs then. */
  lemma Outcome(head: Task?, tail: Task?, tasks: seq<Task>, i: nat, prev: Task?, current: Task?, before: Task?)
    requires i < |tasks| && TakenOut(head, tail, tasks, i, prev) && before in tasks
    requires current == if before != tasks[i] then before else if i + 1 < |tasks| then tasks[i + 1] else head
    ensures var u := Without(tasks, i);
            && (Forward(head, tail, u) <==> PrevRight(tasks, i, prev))
            && (if u == [] then current == null else current in u)
            && head == (if u == [] then null else u[0])
            && current == (if before != tasks[i] then before else if u == [] then null else u[if i < |u| then i else 0])
  {
    hide Forward, PrevRight;
    if PrevRight(tasks, i, prev) {
      TakenOutForward(head, tail, tasks, i, prev);
    } else {
      TakenOutBroken(head, tail, tasks, i, prev);
    }
    WithoutIs(tasks, i);
    if before != tasks[i] {
      InWithout(tasks, i, before);
    }
  }

  class Scheduler {
    var current: Task?
    var head: Task?
    var tail: Task?
    ghost var tasks: seq<Task>

    /** A list with a running task whenever there is one at all. */
    ghost predicate Valid()
      reads this, tasks
    {
      && Forward(head, tail, tasks)
      && (if tasks == [] then current == null else current in tasks)
    }

    constructor ()
      ensures Valid() && tasks == [] && Backward(tasks) && tail == null
    {
      current, head, tail, tasks := null, null, null, [];
    }

    lemma TailIs()
      requires Valid()
      ensures tail == if tasks == [] then null else tasks[|tasks| - 1]
    {
    }

    /** task_new in a block just allocated, which may be that of a task removed before: cleared, given
        the registers task_init gives it, and put at the end of the list; running if it is the first. */
    method AddTask(task: Task, registers: Registers)
      requires Valid() && task !in tasks
      modifies this, tail, task
      ensures Valid() && tasks == old(tasks) + [task]
      ensures old(Backward(tasks)) ==> Backward(tasks)
      ensures tail == task && task.prev == old(tail) && forall t <- old(tasks) :: t.prev == old(t.prev)
      ensures SavedOf(tasks) == old(SavedOf(tasks)) + [registers]
      ensures current == if old(tasks) == [] then task else old(current)
    {
      task.registers := registers;
      task.next, task.prev := null, null;
      if head == null {
        head := task;
        tail := task;
        current := task;
        tasks := [task];
        return;
      }
      tail.next := task;
      task.prev := tail;
      tail := task;
      tasks := tasks + [task];
    }

    /** task_new in a block never used before. */
    method NewTask(registers: Registers) returns (task: Task)
      requires Valid()
      modifies this, tail
      ensures Valid() && fresh(task) && tasks == old(tasks) + [task]
      ensures old(Backward(tasks)) ==> Backward(tasks)
      ensures tail == task && task.prev == old(tail) && forall t <- old(tasks) :: t.prev == old(t.prev)
      ensures SavedOf(tasks) == old(SavedOf(tasks)) + [registers]
      ensures current == if old(tasks) == [] then task else old(current)
    {
      hide SavedOf, Backward;
      task := new Task(registers);
      AddTask(task, registers);
    }

    /** task_get_next: the one behind the running task, or the first. */
    method GetNext(ghost i: nat) returns (next: Task)
      requires current != null && head != null && i < |tasks|
      ensures Valid() && current == tasks[i] ==> next == tasks[After(i, |tasks|)]
    {
      if current.next == null {
        return head;
      }
      next := current.next;
    }

    /** The saved registers of all tasks and the position of the running one. */
    ghost predicate Is(s: State)
      reads this, tasks
    {
      Valid() && s.running < |tasks| && current == tasks[s.running] && s.saved == SavedOf(tasks)
    }

    /** task_switch, and the return to user land of the task switched to. */
    method Switch(task: Task) returns (cpu: Cpu)
      modifies this`current
      ensures current == task && cpu == Resumed(task.registers)
    {
      current := task;
      cpu := Resumed(task.registers);
    }

    /** An interrupt on the clock line: the running task's registers are saved and the next task resumes. */
    method ClockTick(frame: Frame, ghost s: State) returns (cpu: Cpu)
      requires Is(s)
      modifies this`current, current
      ensures Is(Tick(s, frame).0) && cpu == Tick(s, frame).1
      ensures tasks == old(tasks) && (old(Backward(tasks)) ==> Backward(tasks))
    {
      current.registers := Saved(frame);
      assert SavedOf(tasks) == s.saved[s.running := Saved(frame)];
      var next := GetNext(s.running);
      assert next.registers == SavedOf(tasks)[After(s.running, |tasks|)];
      cpu := Switch(next);
    }

    /** The rewriting of links of task_list_remove. */
    method Unlink(task: Task, ghost i: nat)
      requires Valid() && i < |tasks| && task == tasks[i]
      modifies `head, `tail, `current, task.prev
      ensures TakenOut(head, tail, tasks, i, old(task.prev))
      ensures forall t <- tasks :: t.registers == old(t.registers) && t.prev == old(t.prev)
      ensures current == if old(current) != task then old(current) else if i + 1 < |tasks| then tasks[i + 1] else head
    {
      ghost var behind := Behind(tasks, i);
      assert task.next == behind by { if i + 1 < |tasks| { assert tasks[i].next == tasks[i + 1]; } }
      if task.prev != null {
        task.prev.next := task.next;
      }
      assert task.next == behind;
      assert task == head <==> i == 0;
      assert task == tail <==> i == |tasks| - 1;
      if task == head {
        head := task.next;
      }
      if task == tail {
        tail := task.prev;
      }
      if task == current {
        current := if current.next == null then head else current.next;
      }
    }

    /**
     task_list_remove, whatever the task's `prev` is.  The list is right afterwards if and only if that
     link was right; and then, if all `prev` links were right before, they still are if and only if the last task was
     removed, because the next one keeps pointing at the removed task.
     */
    method Remove(task: Task, ghost i: nat)
      requires Valid() && i < |tasks| && task == tasks[i]
      modifies this, task.prev
      ensures tasks == Without(old(tasks), i)
      ensures Forward(head, tail, tasks) <==> PrevRight(old(tasks), i, old(task.prev))
      ensures Valid() <==> PrevRight(old(tasks), i, old(task.prev))
      ensures old(Backward(tasks)) ==> Valid() && (Backward(tasks) <==> i == |old(tasks)| - 1)
      ensures forall t <- old(tasks) :: t.prev == old(t.prev)
      ensures Valid() ==> SavedOf(tasks) == Without(old(SavedOf(tasks)), i)
      ensures head == if tasks == [] then null else tasks[0]
      ensures old(current) != null && old(current) in old(tasks) ==>
                current == if old(current) != task then old(current)
                           else if tasks == [] then null
                           else tasks[if i < |tasks| then i else 0]
    {
      hide PrevRight, Without, SavedOf, TakenOut, Backward;
      ghost var all, prev := tasks, task.prev;
      Unlink(task, i);
      Outcome(head, tail, all, i, prev, current, old(current));
      SameSaved(all);
      SavedOfWithout(all, i);
      if old(Backward(tasks)) {
        BackwardWithout(all, i);
      }
      tasks := Without(tasks, i);
    }

    /** An exception of the running task: it is removed, which makes the next task the running one,
        and then the scheduler moves on once more, so that the next task loses its turn.  The list is right
        afterwards if and only if the failed task's `prev` was, and one of those left then runs. */
    method HandleException(frame: Frame, ghost i: nat) returns (cpu: Cpu)
      requires Valid() && i < |tasks| && 1 < |tasks| && current == tasks[i]
      modifies this, current, current.prev
      ensures tasks == Without(old(tasks), i) && current != null && cpu == Resumed(current.registers)
      ensures Forward(head, tail, tasks) <==> PrevRight(old(tasks), i, old(current.prev))
      ensures Valid() ==> PrevRight(old(tasks), i, old(current.prev))
      ensures PrevRight(old(tasks), i, old(current.prev)) ==>
                var n := |old(tasks)|;
                Valid() && current == old(tasks)[if n == 2 then After(i, n) else After(After(i, n), n)]
    {
      hide SavedOf, Backward, PrevRight;
      ghost var all := tasks;
      current.registers := Saved(frame);
      Remove(current, i);
      ghost var j := if i < |tasks| then i else 0;
      WithoutIs(all, i);
      var next := GetNext(j);
      cpu := Switch(next);
    }
  }

  twostate lemma SameSaved(tasks: seq<Task>)
    requires forall t <- tasks :: t.registers == old(t.registers) && t.prev == old(t.prev)
    ensures SavedOf(tasks) == old(SavedOf(tasks))
    ensures Backward(tasks) == old(Backward(tasks))
  {
  }

  // ---------------------------------------------------------------- what goes wrong

  /** Two neighbours removed one after the other: the second one's `prev` names the first, and the
      list is not right any more. */
  method RemoveNeighbours(r: Registers) returns (s: Scheduler)
    ensures fresh(s) && !s.Valid()
  {
    hide SavedOf, Forward, Backward;
    s := new Scheduler();
    var a := s.NewTask(r);
    var b := s.NewTask(r);
    var c := s.NewTask(r);
    assert s.tasks == [a, b, c];
    assert a.prev == null && b.prev == a && c.prev == b && a in s.tasks && c in s.tasks;
    s.Remove(b, 1);
    assert s.tasks == [a, c];
    s.Remove(c, 1);
  }

  /** A task removed, its block given to a new task, and then the task removed that still names it. */
  method RemoveAfterReuse(r: Registers) returns (s: Scheduler)
    ensures fresh(s) && !s.Valid()
  {
    hide SavedOf, Forward, Backward;
    s := new Scheduler();
    var x := s.NewTask(r);
    var a := s.NewTask(r);
    assert s.tasks == [x, a] && a.prev == x && x.prev == null && a in s.tasks;
    s.Remove(x, 0);
    assert s.tasks == [a] && a in s.tasks;
    s.TailIs();
    s.AddTask(x, r);
    assert s.tasks == [a, x] && s.tasks[1..] == [x];
    s.Remove(a, 0);
  }

  /** Of three tasks the first one fails, and the third one runs next. */
  method LoseTurn(r: Registers, frame: Frame) returns (s: Scheduler, a: Task, b: Task, c: Task)
    ensures fresh(s) && s.Valid() && s.tasks == [b, c] && b != c && s.current == c
  {
    hide SavedOf, Forward, Backward;
    s := new Scheduler();
    a := s.NewTask(r);
    b := s.NewTask(r);
    c := s.NewTask(r);
    assert s.tasks == [a, b, c] && a in s.tasks && a.prev == null;
    var cpu := s.HandleException(frame, 0);
    assert s.tasks == [b, c];
  }
}
