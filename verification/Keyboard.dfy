/** The keyboard ring of a process: 1024 characters, zero where nothing is pending. */
module Keyboard {
  import opened Bytes

  const SIZE := 1024

  /** The ring as a value; head and tail only ever count up and down, never wrap. */
  datatype Ring = Ring(buffer: seq<Byte>, head: int, tail: int)

  function Slot(i: int): (s: nat)
    ensures s < SIZE
  {
    i % SIZE
  }

  function At(r: Ring, i: int): Byte
    requires |r.buffer| == SIZE
  {
    r.buffer[Slot(i)]
  }

  /** Positions less than a ring apart have different slots; a ring apart, the same. */
  lemma AtUpdated(r: Ring, n: Ring, i: int, j: int, c: Byte)
    requires |r.buffer| == SIZE && n.buffer == r.buffer[Slot(j) := c] && -SIZE < i - j < SIZE
    ensures At(n, i) == if i == j then c else At(r, i)
    ensures At(n, i + SIZE) == At(n, i)
  {
  }

  /** Every slot is that of exactly one position of the ring's length. */
  lemma SlotAt(head: int, s: nat) returns (i: int)
    requires s < SIZE
    ensures head <= i < head + SIZE && forall j | head <= j < head + SIZE :: Slot(j) == s <==> j == i
  {
    i := head + (s - head) % SIZE;
  }

  /** The ring holds exactly the keys `pending`, in order from the head, and zeros elsewhere. */
  ghost predicate Represents(r: Ring, pending: seq<Byte>) {
    && |r.buffer| == SIZE && |pending| <= SIZE && r.tail == r.head + |pending|
    && (forall i | r.head <= i < r.tail :: At(r, i) != 0 && At(r, i) == pending[i - r.head])
    && (forall i | r.tail <= i < r.head + SIZE :: At(r, i) == 0)
  }

  /** A slot is non-zero exactly when it lies between head and tail, modulo 1024. */
  lemma NonZeroIff(r: Ring, pending: seq<Byte>, s: nat)
    requires Represents(r, pending) && s < SIZE
    ensures r.buffer[s] != 0 <==> exists i: int :: r.head <= i < r.tail && i % 1024 == s
  {
    var i := SlotAt(r.head, s);
    assert Slot(i) == s && At(r, i) == r.buffer[s];
  }

  // ---------------------------------------------------------------- the operations

  /** Store behind the last key, whether or not the slot is free; a zero is not a key. */
  function AfterPush(r: Ring, c: Byte): Ring
    requires |r.buffer| == SIZE
  {
    if c == 0 then r else Ring(r.buffer[Slot(r.tail) := c], r.head, r.tail + 1)
  }

  function AfterPop(r: Ring): (Ring, Byte)
    requires |r.buffer| == SIZE
  {
    var c := r.buffer[Slot(r.head)];
    if c == 0 then (r, 0) else (Ring(r.buffer[Slot(r.head) := 0], r.head + 1, r.tail), c)
  }

  /** Take the tail back and clear its slot, whether or not a key is pending. */
  function AfterBackspace(r: Ring): Ring
    requires |r.buffer| == SIZE
  {
    Ring(r.buffer[Slot(r.tail - 1) := 0], r.head, r.tail - 1)
  }

  lemma EmptyRing(r: Ring)
    requires |r.buffer| == SIZE && r.head == r.tail && forall i | 0 <= i < SIZE :: r.buffer[i] == 0
    ensures Represents(r, [])
  {
  }

  lemma PushKeeps(r: Ring, pending: seq<Byte>, c: Byte)
    requires Represents(r, pending) && c != 0 && |pending| < SIZE
    ensures Represents(AfterPush(r, c), pending + [c])
  {
    hide At;
    forall i | r.head <= i < r.head + SIZE ensures At(AfterPush(r, c), i) == if i == r.tail then c else At(r, i) {
      AtUpdated(r, AfterPush(r, c), i, r.tail, c);
    }
  }

  /** Pushing keeps a ring of keys exactly when fewer than 1024 are pending: one more overwrites the
      oldest. */
  lemma PushKeepsIff(r: Ring, pending: seq<Byte>, c: Byte)
    requires Represents(r, pending) && c != 0
    ensures (exists q :: Represents(AfterPush(r, c), q)) <==> |pending| < SIZE
    ensures |pending| == SIZE ==> At(AfterPush(r, c), r.head) == c
  {
    if |pending| < SIZE {
      PushKeeps(r, pending, c);
    }
  }

  /** Backspace drops the newest key, and keeps a ring of keys exactly when there is one. */
  lemma BackspaceKeepsIff(r: Ring, pending: seq<Byte>)
    requires Represents(r, pending)
    ensures (exists q :: Represents(AfterBackspace(r), q)) <==> 0 < |pending|
    ensures 0 < |pending| ==> Represents(AfterBackspace(r), pending[..|pending| - 1])
  {
    hide At;
    if 0 < |pending| {
      var n := AfterBackspace(r);
      forall i | r.head <= i < r.head + SIZE ensures At(n, i) == if i == r.tail - 1 then 0 else At(r, i) {
        AtUpdated(r, n, i, r.tail - 1, 0);
      }
      assert Represents(n, pending[..|pending| - 1]);
    }
  }

  /** A backspace with no key pending makes the next key invisible. */
  lemma BackspaceOnEmptyLoses(r: Ring, c: Byte)
    requires Represents(r, []) && c != 0
    ensures AfterPop(AfterPush(AfterBackspace(r), c)).1 == 0
  {
    assert At(r, r.head) == 0;
    AtUpdated(r, AfterBackspace(r), r.head, r.tail - 1, 0);
    AtUpdated(AfterBackspace(r), AfterPush(AfterBackspace(r), c), r.head, r.tail - 1, c);
    assert At(AfterPush(AfterBackspace(r), c), r.head) == 0;
  }

  /** Pop gives the oldest key, and zero exactly when none is pending. */
  lemma PopKeeps(r: Ring, pending: seq<Byte>)
    requires Represents(r, pending)
    ensures AfterPop(r).1 == 0 <==> pending == []
    ensures pending == [] ==> AfterPop(r).0 == r
    ensures pending != [] ==> AfterPop(r).1 == pending[0] && Represents(AfterPop(r).0, pending[1..])
  {
    assert r.buffer[Slot(r.head)] == At(r, r.head);
    if pending != [] {
      PopShifts(r, pending);
    }
  }

  lemma PopShifts(r: Ring, pending: seq<Byte>)
    requires Represents(r, pending) && pending != []
    ensures Represents(Ring(r.buffer[Slot(r.head) := 0], r.head + 1, r.tail), pending[1..])
  {
    hide At;
    var n := Ring(r.buffer[Slot(r.head) := 0], r.head + 1, r.tail);
    forall i | r.head <= i < r.head + SIZE ensures At(n, i) == if i == r.head then 0 else At(r, i) {
      AtUpdated(r, n, i, r.head, 0);
    }
    AtUpdated(r, n, r.head, r.head, 0);
  }

  // ---------------------------------------------------------------- runs

  datatype Op = Push(c: Byte) | Pop | Backspace

  function Step(r: Ring, op: Op): (result: (Ring, seq<Byte>))
    requires |r.buffer| == SIZE
    ensures |result.0.buffer| == SIZE
  {
    match op
    case Push(c) => (AfterPush(r, c), [])
    case Pop => (AfterPop(r).0, [AfterPop(r).1])
    case Backspace => (AfterBackspace(r), [])
  }

  /** The same on a plain sequence: push at the end, pop from the front or get zero, drop the last. */
  function QueueStep(q: seq<Byte>, op: Op): (seq<Byte>, seq<Byte>) {
    match op
    case Push(c) => (if c == 0 then q else q + [c], [])
    case Pop => if q == [] then (q, [0]) else (q[1..], [q[0]])
    case Backspace => (if q == [] then q else q[..|q| - 1], [])
  }

  /** Room for the key, or a key to take back. */
  predicate Permitted(q: seq<Byte>, op: Op) {
    match op
    case Push(c) => c == 0 || |q| < SIZE
    case Pop => true
    case Backspace => q != []
  }

  /** The ring after a run and everything it popped. */
  function Run(r: Ring, ops: seq<Op>): (result: (Ring, seq<Byte>))
    requires |r.buffer| == SIZE
    decreases |ops|
  {
    if ops == [] then (r, [])
    else
      var (n, out) := Step(r, ops[0]);
      var (last, rest) := Run(n, ops[1..]);
      (last, out + rest)
  }

  function QueueRun(q: seq<Byte>, ops: seq<Op>): (seq<Byte>, seq<Byte>)
    decreases |ops|
  {
    if ops == [] then (q, [])
    else
      var (n, out) := QueueStep(q, ops[0]);
      var (last, rest) := QueueRun(n, ops[1..]);
      (last, out + rest)
  }

  predicate AllPermitted(q: seq<Byte>, ops: seq<Op>)
    decreases |ops|
  {
    ops == [] || (Permitted(q, ops[0]) && AllPermitted(QueueStep(q, ops[0]).0, ops[1..]))
  }

  lemma StepRefines(r: Ring, q: seq<Byte>, op: Op)
    requires Represents(r, q) && Permitted(q, op)
    ensures |r.buffer| == SIZE && Represents(Step(r, op).0, QueueStep(q, op).0) && Step(r, op).1 == QueueStep(q, op).1
  {
    hide At, AfterPush, AfterPop, AfterBackspace;
    match op
    case Push(c) =>
      PushZero(r, c);
      if c != 0 { PushKeeps(r, q, c); }
    case Pop => PopKeeps(r, q);
    case Backspace => BackspaceKeepsIff(r, q);
  }

  lemma PushZero(r: Ring, c: Byte)
    requires |r.buffer| == SIZE
    ensures c == 0 ==> AfterPush(r, c) == r
  {
  }

  /** In every run in which at most 1024 keys are ever pending and only pending keys are taken back,
      the ring is a queue: the same keys come out, in the same order, and the same keys are left. */
  lemma {:induction false} RunRefines(r: Ring, q: seq<Byte>, ops: seq<Op>)
    requires Represents(r, q) && AllPermitted(q, ops)
    ensures |r.buffer| == SIZE && Represents(Run(r, ops).0, QueueRun(q, ops).0) && Run(r, ops).1 == QueueRun(q, ops).1
    decreases |ops|
  {
    hide Step, QueueStep, Permitted, At;
    if ops != [] {
      StepRefines(r, q, ops[0]);
      RunRefines(Step(r, ops[0]).0, QueueStep(q, ops[0]).0, ops[1..]);
    }
  }

  // ---------------------------------------------------------------- the code

  /** The keyboard part of a process. */
  class Buffer {
    const buffer: array<Byte>
    var head: int
    var tail: int

    ghost predicate Valid() {
      buffer.Length == SIZE
    }

    ghost function State(): (r: Ring)
      reads this, buffer
    {
      Ring(buffer[..], head, tail)
    }

    constructor ()
      ensures Valid() && fresh(buffer) && Represents(State(), [])
    {
      buffer := new Byte[SIZE](_ => 0);
      head, tail := 0, 0;
      new;
      EmptyRing(State());
    }

    /** keyboard_push, for the process this buffer belongs to. */
    method PushKey(c: Byte)
      requires Valid()
      modifies this, buffer
      ensures Valid() && State() == AfterPush(old(State()), c)
    {
      if c == 0 {
        return;
      }
      var realIndex := tail % SIZE;
      buffer[realIndex] := c;
      tail := tail + 1;
    }

    /** keyboard_pop. */
    method PopKey() returns (c: Byte)
      requires Valid()
      modifies this, buffer
      ensures (State(), c) == AfterPop(old(State()))
    {
      var realIndex := head % SIZE;
      c := buffer[realIndex];
      if c == 0 {
        return 0;
      }
      buffer[realIndex] := 0;
      head := head + 1;
    }

    /** keyboard_backspace. */
    method DropKey()
      requires Valid()
      modifies this, buffer
      ensures Valid() && State() == AfterBackspace(old(State()))
    {
      tail := tail - 1;
      var realIndex := tail % SIZE;
      buffer[realIndex] := 0;
    }
  }
}
