/** Round-robin multitasking: the task list, saving and restoring registers, the clock tick. */
module Tasks {
  import opened Machine

  // ---------------------------------------------------------------- registers

  /** What an interrupt leaves on the kernel stack. */
  datatype Frame = Frame(
    edi: Word, esi: Word, ebp: Word, reserved: Word, ebx: Word, edx: Word, ecx: Word, eax: Word,
    ip: Word, cs: Word, flags: Word, esp: Word, ss: Word)

  /** The registers of a task that is not running, in the order of the structure. */
  datatype Registers = Registers(
    edi: Word, esi: Word, ebp: Word, ebx: Word, edx: Word, ecx: Word, eax: Word,
    ip: Word, cs: Word, flags: Word, esp: Word, ss: Word)
  {
    /** The word at a byte offset, as the assembly reads it. */
    function At(offset: nat): Word {
      match offset
      case 0 => edi
      case 4 => esi
      case 8 => ebp
      case 12 => ebx
      case 16 => edx
      case 20 => ecx
      case 24 => eax
      case 28 => ip
      case 32 => cs
      case 36 => flags
      case 40 => esp
      case _ => ss
    }
  }

  /** The processor in user land. */
  datatype Cpu = Cpu(
    edi: Word, esi: Word, ebp: Word, ebx: Word, edx: Word, ecx: Word, eax: Word,
    ip: Word, cs: Word, flags: Word, esp: Word, ss: Word, data: Word)

  const INTERRUPT_FLAG := 0x200

  /** Bit 9 of the flags set, the others as they were. */
  function InterruptsOn(flags: Word): Word {
    if flags / INTERRUPT_FLAG % 2 == 1 then flags else flags + INTERRUPT_FLAG
  }

  /** task_save_state. */
  function Saved(f: Frame): Registers {
    Registers(f.edi, f.esi, f.ebp, f.ebx, f.edx, f.ecx, f.eax, f.ip, f.cs, f.flags, f.esp, f.ss)
  }

  /** Every register of the interrupted program is kept under its own name. */
  lemma SavedIs(f: Frame)
    ensures Saved(f) == Registers(
              edi := f.edi, esi := f.esi, ebp := f.ebp, ebx := f.ebx, edx := f.edx, ecx := f.ecx, eax := f.eax,
              ip := f.ip, cs := f.cs, flags := f.flags, esp := f.esp, ss := f.ss)
  {
  }

  /** task_return and restore_general_purpose_registers, read off the structure by offset. */
  function Resumed(r: Registers): Cpu {
    Cpu(r.At(0), r.At(4), r.At(8), r.At(12), r.At(16), r.At(20), r.At(24),
        r.At(28), r.At(32), InterruptsOn(r.At(36)), r.At(40), r.At(44), r.At(44))
  }

  /** What task_init gives a task: where its program starts, and the user's segments and stack. */
  function Initial(entry: Word): Registers {
    Registers(edi := 0, esi := 0, ebp := 0, ebx := 0, edx := 0, ecx := 0, eax := 0,
      ip := entry, cs := 0x1B, flags := 0, esp := 0x3F_F000, ss := 0x23)
  }

  /** Every register of the processor is the task's of that name, but for the interrupt flag; the data
      segments are the stack's. */
  lemma ResumedIs(r: Registers)
    ensures Resumed(r) == Cpu(
              edi := r.edi, esi := r.esi, ebp := r.ebp, ebx := r.ebx, edx := r.edx, ecx := r.ecx, eax := r.eax,
              ip := r.ip, cs := r.cs, flags := InterruptsOn(r.flags), esp := r.esp, ss := r.ss, data := r.ss)
  {
  }

  /** A task's first run: at its entry, on its own stack, in the user's segments, and interrupts on. */
  lemma FirstRun(entry: Word)
    ensures Resumed(Initial(entry)) == Cpu(0, 0, 0, 0, 0, 0, 0, ip := entry, cs := 0x1B, flags := 0x200,
                                           esp := 0x3F_F000, ss := 0x23, data := 0x23)
  {
  }

  /** The user-land state an interrupt interrupted. */
  function Interrupted(f: Frame): Cpu {
    Cpu(f.edi, f.esi, f.ebp, f.ebx, f.edx, f.ecx, f.eax, f.ip, f.cs, f.flags, f.esp, f.ss, f.ss)
  }

  lemma InterruptsOnIs(flags: Word)
    ensures InterruptsOn(flags) / 0x200 % 2 == 1
    ensures InterruptsOn(flags) % 0x200 == flags % 0x200
    ensures InterruptsOn(flags) / 0x400 == flags / 0x400
    ensures InterruptsOn(flags) == flags <==> flags / 0x200 % 2 == 1
  {
  }

  /** A task resumes exactly as it was interrupted if and only if interrupts were on, as they are in
      user land; otherwise that flag is the only difference. */
  lemma ResumesAsInterrupted(f: Frame)
    ensures Resumed(Saved(f)) == Interrupted(f).(flags := InterruptsOn(f.flags))
    ensures Resumed(Saved(f)) == Interrupted(f) <==> f.flags / 0x200 % 2 == 1
  {
    hide InterruptsOn;
    InterruptsOnIs(f.flags);
  }

  // ---------------------------------------------------------------- runs of clock ticks

  /** The saved registers of the tasks in list order, and which of them runs. */
  datatype State = State(saved: seq<Registers>, running: nat)

  function After(i: nat, n: nat): nat {
    if i + 1 < n then i + 1 else 0
  }

  /** The task that runs k switches later. */
  function Later(i: nat, k: nat, n: nat): nat {
    if k == 0 then i else After(Later(i, k - 1, n), n)
  }

  /** A clock tick: the running task's registers are saved, the next one resumes. */
  function Tick(s: State, f: Frame): (State, Cpu)
    requires s.running < |s.saved|
  {
    var saved := s.saved[s.running := Saved(f)];
    var running := After(s.running, |saved|);
    (State(saved, running), Resumed(saved[running]))
  }

  /** The state after the first k of these interrupts. */
  function StateAt(s: State, frames: seq<Frame>, k: nat): (t: State)
    requires s.running < |s.saved| && k <= |frames|
    ensures |t.saved| == |s.saved| && t.running < |t.saved|
  {
    if k == 0 then s else Tick(StateAt(s, frames, k - 1), frames[k - 1]).0
  }

  /** What the processor holds after tick number k. */
  function CpuAt(s: State, frames: seq<Frame>, k: nat): Cpu
    requires s.running < |s.saved| && k < |frames|
  {
    Tick(StateAt(s, frames, k), frames[k]).1
  }

  lemma {:induction false} LaterIs(i: nat, k: nat, n: nat)
    requires i < n && k <= n
    ensures Later(i, k, n) == if i + k < n then i + k else i + k - n
  {
    if 0 < k {
      LaterIs(i, k - 1, n);
    }
  }

  lemma {:induction false} LaterAgain(i: nat, j: nat, k: nat, n: nat)
    ensures Later(Later(i, j, n), k, n) == Later(i, j + k, n)
  {
    if 0 < k {
      LaterAgain(i, j, k - 1, n);
    }
  }

  lemma {:induction false} RunningIs(s: State, frames: seq<Frame>, k: nat)
    requires s.running < |s.saved| && k <= |frames|
    ensures StateAt(s, frames, k).running == Later(s.running, k, |s.saved|)
  {
    if 0 < k {
      RunningIs(s, frames, k - 1);
    }
  }

  /** In any n consecutive switches of n tasks each task runs exactly once, in list order from the
      one after the task that was running. */
  lemma EachRunsOnce(s: State, frames: seq<Frame>, from: nat, t: nat) returns (k: nat)
    requires s.running < |s.saved| && from + |s.saved| <= |frames| && t < |s.saved|
    ensures from < k <= from + |s.saved| && StateAt(s, frames, k).running == t
    ensures forall j | from < j <= from + |s.saved| && StateAt(s, frames, j).running == t :: j == k
    ensures StateAt(s, frames, from + |s.saved|).running == StateAt(s, frames, from).running
  {
    hide StateAt, Later;
    var n, i := |s.saved|, StateAt(s, frames, from).running;
    RunningIs(s, frames, from);
    forall j | from <= j <= from + n
      ensures StateAt(s, frames, j).running == if i + (j - from) < n then i + (j - from) else i + (j - from) - n
    {
      RunningIs(s, frames, j);
      LaterAgain(s.running, from, j - from, n);
      LaterIs(i, j - from, n);
    }
    k := if i < t then from + (t - i) else from + (t + n - i);
  }

  /** The registers kept for the task that runs d switches later are those of its last tick. */
  lemma {:induction false} SavedAt(s: State, frames: seq<Frame>, k: nat, d: nat)
    requires s.running < |s.saved| && k <= |frames| && d < |s.saved|
    ensures var n, t := |s.saved|, Later(s.running, k + d, |s.saved|);
            t < n && StateAt(s, frames, k).saved[t] == if n <= k + d then Saved(frames[k + d - n]) else s.saved[t]
    decreases k
  {
    hide Tick, Later, Saved;
    var n := |s.saved|;
    LaterBelow(s.running, k + d, n);
    if 0 < k {
      RunningIs(s, frames, k - 1);
      TickSaves(StateAt(s, frames, k - 1), frames[k - 1]);
      LaterAgain(s.running, k - 1, d + 1, n);
      LaterIs(Later(s.running, k - 1, n), d + 1, n);
      if d + 1 < n {
        SavedAt(s, frames, k - 1, d + 1);
      }
    }
  }

  lemma TickSaves(s: State, f: Frame)
    requires s.running < |s.saved|
    ensures Tick(s, f).0.saved == s.saved[s.running := Saved(f)]
  {
  }

  lemma {:induction false} LaterBelow(i: nat, k: nat, n: nat)
    requires i < n
    ensures Later(i, k, n) < n
  {
    if 0 < k {
      LaterBelow(i, k - 1, n);
    }
  }

  /** Every task resumes, n ticks after it was interrupted, with the registers it had then; the first
      time, with those it was created with. */
  lemma ResumesWhereItStopped(s: State, frames: seq<Frame>, k: nat)
    requires s.running < |s.saved| && k < |frames|
    ensures var n, t := |s.saved|, Later(s.running, k + 1, |s.saved|);
            t < n && CpuAt(s, frames, k) == Resumed(if n <= k + 1 then Saved(frames[k + 1 - n]) else s.saved[t])
  {
    hide Resumed, Saved, Later;
    RunningIs(s, frames, k + 1);
    SavedAt(s, frames, k + 1, 0);
    assert StateAt(s, frames, k + 1) == Tick(StateAt(s, frames, k), frames[k]).0;
  }
}
