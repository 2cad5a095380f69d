/** The argument vector of a process: argv and the strings it leads to are allocations of that process. */
module ArgumentVector {
  import opened Machine
  import opened Bytes
  import opened HeapTable
  import opened PageTables
  import opened KernelMemory
  import opened ProcessState
  import opened ProcessMemory
  import opened ProcessLife
  import opened ProcessGrants
  import opened Processes
  import opened StringLists
  import CommandLine
  import ProcessRuns
  import PathParser

  /** process->arguments; the strings' buffers are kept beside the blocks that hold them. */
  class Arguments {
    var argc: nat
    var argv: Word
    var strings: seq<seq<Byte>>

    constructor ()
      ensures argc == 0 && argv == 0 && strings == []
    {
      argc, argv, strings := 0, 0, [];
    }
  }

  // ---------------------------------------------------------------- argv in memory

  /** The block that argv names is memory of process pid, with room for n words. */
  ghost predicate Vector(s: State, pid: nat, argv: Word, n: nat) {
    var b := BlockOf(argv);
    && argv % 4096 == 0 && 0 <= b && b in s.owner && b in s.live && s.owner[b].Memory? && s.owner[b].pid == pid
    && n <= s.live[b] * 1024
  }

  ghost predicate WordIs(m: Memory, w: nat, j: nat, v: Word) {
    w + j < |m| && m[w + j] == v
  }

  /** Its first words are these pointers. */
  ghost predicate Leads(s: State, argv: Word, ptrs: seq<Word>) {
    forall j: nat | j < |ptrs| :: WordIs(s.m, argv / 4, j, ptrs[j])
  }

  lemma VectorThere(s0: State, s: State, pid: nat, size: Word, n: nat)
    requires CanMalloc(s0, pid, size) && s == AfterMalloc(s0, pid, size) && Inv(s) && 4 * n == size
    requires MallocResult(s0, pid, size) != 0
    ensures Vector(s, pid, MallocResult(s0, pid, size), n)
  {
    hide Inv, AfterMalloc, Represents, MallocResult;
    GivenNothing(s0, pid);
    MallocGives(s0, s0, pid, [], size);
    var slot: nat :| slot < SLOTS && pid in s.procs && |s.procs[pid].allocations| == SLOTS
      && s.procs[pid].allocations[slot] == Allocation(MallocResult(s0, pid, size), size);
    SlotInUse(s, pid, slot);
    BlocksIsCeiling(size);
    RoomForWords(size, n, Blocks(size));
  }

  lemma RoomForWords(size: Word, n: nat, blocks: nat)
    requires 4 * n == size && 0 < blocks && size <= blocks * BLOCK_SIZE
    ensures n <= blocks * 1024
  {
  }

  /** Another process_malloc leaves the vector as it is. */
  lemma VectorStays(s: State, pid: nat, size: Word, argv: Word, n: nat, ptrs: seq<Word>)
    requires CanMalloc(s, pid, size) && Vector(s, pid, argv, n) && Leads(s, argv, ptrs) && |ptrs| <= n
    ensures Vector(AfterMalloc(s, pid, size), pid, argv, n) && Leads(AfterMalloc(s, pid, size), argv, ptrs)
  {
    hide Inv, AfterMalloc, Represents;
    MallocKeeps(s, pid, size);
    var s', b := AfterMalloc(s, pid, size), BlockOf(argv);
    assert SameBlock(s.m, s'.m, b, s.live[b]);
    LeadsStays(s, s', b, s.live[b], argv, ptrs);
  }

  lemma LeadsStays(s: State, s': State, b: nat, len: nat, argv: Word, ptrs: seq<Word>)
    requires SameBlock(s.m, s'.m, b, len) && argv % 4096 == 0 && argv / 4096 == HEAP_PAGE + b && |ptrs| <= len * 1024
    requires Leads(s, argv, ptrs)
    ensures Leads(s', argv, ptrs)
  {
    hide SameBlock;
    forall j: nat | j < |ptrs| ensures WordIs(s'.m, argv / 4, j, ptrs[j]) {
      assert WordIs(s.m, argv / 4, j, ptrs[j]);
      WordStays(s.m, s'.m, b, len, argv, j);
    }
  }

  lemma WordStays(m: Memory, n: Memory, b: nat, len: nat, a: Word, j: nat)
    requires SameBlock(m, n, b, len) && a % 4096 == 0 && a / 4096 == HEAP_PAGE + b && j < len * 1024
    ensures a / 4 + j < |m| && a / 4 + j < |n| && m[a / 4 + j] == n[a / 4 + j]
  {
    var p := HEAP_PAGE + b + j / 1024;
    assert SamePage(m, n, p);
    assert WordAt(m, p, j % 1024) == WordAt(n, p, j % 1024);
    assert a / 4 + j == p * 1024 + j % 1024;
  }

  /** What several allocations of one process come to, for it and for the others. */
  ghost predicate Since(s0: State, s: State, pid: nat, ptrs: seq<Word>) {
    && Given(s0, s, pid, ptrs) && s.procs.Keys == s0.procs.Keys && ProcessRuns.Reaches(s0, s)
    && forall e <- s0.procs :: e != pid ==> Carried(s0, s, e)
  }

  lemma SinceIs(s0: State, s: State, pid: nat, ptrs: seq<Word>)
    requires Since(s0, s, pid, ptrs)
    ensures Given(s0, s, pid, ptrs) && ProcessRuns.Reaches(s0, s)
    ensures forall e <- s.procs :: e != pid ==> Carried(s0, s, e)
  {
  }

  lemma Start(table: ProcessTable, pid: nat)
    requires table.Valid() && pid in table.processes
    ensures Since(table.state, table.state, pid, []) && pid in table.state.procs
  {
    hide Inv, ProcessTable.Tied, Carried, Given, ProcessRuns.Reaches;
    table.Known(pid);
    GivenNothing(table.state, pid);
    ProcessRuns.ReachesSelf(table.state);
    HeapOf(table.state);
    forall e | e in table.state.procs { SelfCarried(table.state, e); }
  }

  lemma SomeBlocks(size: Word)
    requires 0 < size <= U32 - BLOCK_SIZE
    ensures 0 < Blocks(size) && (size <= 4096 ==> forall t: seq<Entry> :: Sound(t, Blocks(size)))
  {
    BlocksIsCeiling(size);
    if size <= 4096 {
      assert Blocks(size) == 1;
      forall t: seq<Entry> ensures Sound(t, 1) { PathParser.OneIsSound(t); }
    }
  }

  lemma NoLeads(s: State, argv: Word)
    ensures Leads(s, argv, [])
  {
  }

  /** process_malloc, as one of several. */
  method Grant(table: ProcessTable, pid: nat, size: Word, ghost s0: State, ghost ptrs: seq<Word>)
    returns (ptr: Word, ghost more: seq<Word>)
    requires table.Valid() && pid in table.processes && Since(s0, table.state, pid, ptrs)
    requires 0 < Blocks(size) && Sound(table.state.t, Blocks(size))
    modifies table`owner, table`state, table.k, table.k.heap.entries, table.k.ram, table.processes[pid]
    ensures table.Valid() && table.processes == old(table.processes)
    ensures CanMalloc(old(table.state), pid, size) && table.state == AfterMalloc(old(table.state), pid, size)
    ensures ptr == MallocResult(old(table.state), pid, size)
    ensures more == (if ptr == 0 then ptrs else ptrs + [ptr]) && Since(s0, table.state, pid, more)
  {
    hide Inv, ProcessTable.Tied, Carried, Given, ProcessRuns.Reaches, AfterMalloc, MallocResult, Sound, Blocks;
    ghost var s := table.state;
    table.Known(pid);
    ptr := table.Malloc(pid, size);
    MallocGives(s0, s, pid, ptrs, size);
    MallocKeeps(s, pid, size);
    SameProcs(s, pid, size);
    forall e | e in s0.procs && e != pid ensures Carried(s0, table.state, e) {
      KeptCarries(s, table.state, pid, e);
      CarriedTwice(s0, s, table.state, e);
    }
    ProcessRuns.ReachesOn(s0, s, table.state);
    more := if ptr == 0 then ptrs else ptrs + [ptr];
  }

  lemma SameProcs(s: State, pid: nat, size: Word)
    requires CanMalloc(s, pid, size)
    ensures AfterMalloc(s, pid, size).procs.Keys == s.procs.Keys
  {
    hide Inv;
  }

  /** argv[i] = argument */
  method SetArgument(table: ProcessTable, pid: nat, argv: Word, ghost n: nat, i: nat, argument: Word, ghost s0: State,
      ghost ptrs: seq<Word>)
    requires table.Valid() && pid in table.processes && Since(s0, table.state, pid, ptrs)
    requires Vector(table.state, pid, argv, n) && i < n && |ptrs| == i + 2 && ptrs[i + 1] == argument
    requires Leads(table.state, argv, ptrs[1..i + 1])
    modifies table`owner, table`state, table.k.ram
    ensures table.Valid() && table.processes == old(table.processes) && Since(s0, table.state, pid, ptrs)
    ensures Vector(table.state, pid, argv, n) && Leads(table.state, argv, ptrs[1..])
  {
    hide Inv, ProcessTable.Tied, Carried, Given, ProcessRuns.Reaches;
    ghost var s := table.state;
    WordInVector(s, pid, argv, n, i);
    table.StoreWord(argv / 4 + i, argument, BlockOf(argv), pid);
    SameGiven(s0, s, table.state, pid, ptrs);
    forall e | e in s0.procs && e != pid ensures Carried(s0, table.state, e) {
      CarriedTwice(s0, s, table.state, e);
    }
    ProcessRuns.ReachesOn(s0, s, table.state);
    StoredLast(s.m, table.state.m, argv / 4, i, ptrs[1..i + 1], argument);
    assert ptrs[1..] == ptrs[1..i + 1] + [argument];
  }

  lemma StoredLast(m: Memory, n: Memory, w: nat, i: nat, ptrs: seq<Word>, v: Word)
    requires w + i < |m| && n == m[w + i := v] && |ptrs| == i
    requires forall j: nat | j < i :: WordIs(m, w, j, ptrs[j])
    ensures forall j: nat | j < i + 1 :: WordIs(n, w, j, (ptrs + [v])[j])
  {
    forall j: nat | j < i + 1 ensures WordIs(n, w, j, (ptrs + [v])[j]) {
      assert j < i ==> WordIs(m, w, j, ptrs[j]);
    }
  }

  lemma WordInVector(s: State, pid: nat, argv: Word, n: nat, i: nat)
    requires Vector(s, pid, argv, n) && i < n
    ensures var b := BlockOf(argv); (HEAP_PAGE + b) * 1024 <= argv / 4 + i < (HEAP_PAGE + b + s.live[b]) * 1024
  {
  }

  // ---------------------------------------------------------------- process_inject_arguments

  /** The strings of the arguments, in order. */
  ghost function Wanted(nodes: seq<CommandLine.Argument>): (texts: seq<seq<Byte>>)
    reads set n <- nodes :: n.text
    ensures |texts| == |nodes|
  {
    seq(|nodes|, k requires 0 <= k < |nodes| reads set n <- nodes :: n.text =>
      CommandLine.StringAt(nodes[k].text[..], 0))
  }

  /** The first of these strings have been copied. */
  ghost predicate Copied(strings: seq<seq<Byte>>, texts: seq<seq<Byte>>) {
    |strings| <= |texts| && forall k | 0 <= k < |strings| :: CommandLine.StringAt(strings[k], 0) == texts[k]
  }

  lemma NoneCopied(texts: seq<seq<Byte>>)
    ensures Copied([], texts)
  {
  }

  /** One more string in a space of its own. */
  method CopyOne(node: CommandLine.Argument, ghost strings: seq<seq<Byte>>, ghost texts: seq<seq<Byte>>)
    returns (text: seq<Byte>)
    requires Copied(strings, texts) && |strings| < |texts|
    requires CommandLine.StringAt(node.text[..], 0) == texts[|strings|]
    requires node.text.Length == CommandLine.ARGUMENT_SIZE && CommandLine.Ended(node.text[..], 0)
    ensures Copied(strings + [text], texts)
  {
    hide CommandLine.StringAt, CommandLine.Ended;
    var space := new Byte[CommandLine.ARGUMENT_SIZE];
    CommandLine.CopyString(space, node.text);
    text := space[..];
  }

  /** One round of the loop: memory for one more string, the string in it, and its place in argv. */
  method InjectOne(table: ProcessTable, pid: nat, argv: Word, ghost n: nat, i: nat, node: CommandLine.Argument,
      ghost s0: State, ghost ptrs: seq<Word>, ghost strings: seq<seq<Byte>>, ghost texts: seq<seq<Byte>>)
    returns (argument: Word, text: seq<Byte>, ghost more: seq<Word>)
    requires table.Valid() && pid in table.processes && Since(s0, table.state, pid, ptrs)
    requires Vector(table.state, pid, argv, n) && i < n && |ptrs| == i + 1 && ptrs[0] == argv
    requires Leads(table.state, argv, ptrs[1..])
    requires Copied(strings, texts) && |strings| < |texts|
    requires CommandLine.StringAt(node.text[..], 0) == texts[|strings|]
    requires node.text.Length == CommandLine.ARGUMENT_SIZE && CommandLine.Ended(node.text[..], 0)
    requires (node.text as object) != table.k.ram && (node.text as object) != table.k.heap.entries
    modifies table`owner, table`state, table.k, table.k.heap.entries, table.k.ram, table.processes[pid]
    ensures table.Valid() && table.processes == old(table.processes) && Since(s0, table.state, pid, more)
    ensures argument == 0 ==> more == ptrs
    ensures argument != 0 ==>
              && more == ptrs + [argument] && Copied(strings + [text], texts)
              && Vector(table.state, pid, argv, n) && Leads(table.state, argv, more[1..])
  {
    hide Inv, ProcessTable.Tied, CommandLine.StringAt, CommandLine.Ended, Given, Carried, Leads, Vector, Copied;
    hide AfterMalloc, MallocResult, Sound, Blocks, ProcessRuns.Reaches, Since;
    ghost var s1 := table.state;
    SomeBlocks(CommandLine.ARGUMENT_SIZE);
    argument, more := Grant(table, pid, CommandLine.ARGUMENT_SIZE, s0, ptrs);
    text := [];
    if argument == 0 {
      return;
    }
    VectorStays(s1, pid, CommandLine.ARGUMENT_SIZE, argv, n, ptrs[1..]);
    text := CopyOne(node, strings, texts);
    assert more[1..i + 1] == ptrs[1..];
    SetArgument(table, pid, argv, n, i, argument, s0, more);
  }

  /** The arguments' texts are not where the kernel's heap table or physical memory are. */
  ghost predicate Elsewhere(table: ProcessTable, nodes: seq<CommandLine.Argument>)
    reads table, table.k, table.k.heap
  {
    forall n <- nodes ::
      && n.text.Length == CommandLine.ARGUMENT_SIZE
      && (n.text as object) != table.k.ram && (n.text as object) != table.k.heap.entries
  }

  ghost predicate Arranged(table: ProcessTable, pid: nat, nodes: seq<CommandLine.Argument>)
    reads table, table.k, table.k.heap
  {
    && pid in table.processes && 4 * |nodes| < U32 - 4096 && Sound(table.state.t, Blocks(4 * |nodes|))
    && Elsewhere(table, nodes)
  }

  /** The loop over the list: a string each, until one is refused. */
  method InjectAll(table: ProcessTable, pid: nat, argv: Word, argc: nat, root: Node?<()>,
      ghost nodes: seq<CommandLine.Argument>, ghost s0: State, ghost first: seq<Word>)
    returns (done: bool, strings: seq<seq<Byte>>, ghost ptrs: seq<Word>)
    requires table.Valid() && pid in table.processes && Linked(root, nodes) && Elsewhere(table, nodes)
    requires argc == |nodes|
    requires forall n <- nodes :: CommandLine.Ended(n.text[..], 0)
    requires Since(s0, table.state, pid, first) && first == [argv] && Vector(table.state, pid, argv, argc)
    modifies table`owner, table`state, table.k, table.k.heap.entries, table.k.ram, table.processes[pid]
    ensures table.Valid() && table.processes == old(table.processes) && Since(s0, table.state, pid, ptrs)
    ensures 1 <= |ptrs| <= 1 + |nodes| && ptrs[0] == argv && (done <==> |ptrs| == 1 + |nodes|)
    ensures done ==>
              |strings| == |nodes| && Copied(strings, old(Wanted(nodes))) && Leads(table.state, argv, ptrs[1..])
  {
    hide Inv, ProcessTable.Tied, Linked, CommandLine.StringAt, CommandLine.Ended, Given, Carried, Leads, Vector, Copied;
    hide AfterMalloc, MallocResult, Sound, Blocks, ProcessRuns.Reaches, Since, Represents;
    ptrs, strings := first, [];
    FirstOf(root, nodes);
    NoLeads(table.state, argv);
    assert ptrs[1..] == [];
    ghost var texts := Wanted(nodes);
    NoneCopied(texts);
    var current, i := root, 0;
    while current != null
      invariant 0 <= i <= |nodes| && current == if i < |nodes| then nodes[i] else null
      invariant table.Valid() && table.processes == old(table.processes) && Since(s0, table.state, pid, ptrs)
      invariant |ptrs| == 1 + i && ptrs[0] == argv && Vector(table.state, pid, argv, argc)
      invariant Leads(table.state, argv, ptrs[1..])
      invariant |strings| == i && Copied(strings, texts)
      invariant forall n <- nodes :: n.text[..] == old(n.text[..])
      decreases |nodes| - i
    {
      assert current in nodes;
      var argument, text;
      argument, text, ptrs := InjectOne(table, pid, argv, argc, i, current, s0, ptrs, strings, texts);
      if argument == 0 {
        return false, strings, ptrs;
      }
      strings := strings + [text];
      NextOf(root, nodes, i);
      current := current.next;
      i := i + 1;
    }
    done := true;
  }

  /**
   process_inject_arguments.  Every allocation that succeeds is recorded with the process.  When all do, the
   process has as many arguments as the list, argv leads to their strings in order, and the strings are
   theirs; when one fails, the process has the arguments it had, and the allocations made until then stay
   its own.  Other processes are not touched.
   */
  method InjectArguments(table: ProcessTable, pid: nat, arguments: Arguments, root: Node?<()>,
      ghost nodes: seq<CommandLine.Argument>)
    returns (res: int, ghost ptrs: seq<Word>)
    requires table.Valid() && Linked(root, nodes) && Arranged(table, pid, nodes)
    requires forall n <- nodes :: CommandLine.Ended(n.text[..], 0)
    modifies table`owner, table`state, table.k, table.k.heap.entries, table.k.ram, table.processes[pid], arguments
    ensures table.Valid() && table.processes == old(table.processes)
    ensures res == if nodes == [] then -EIO else if |ptrs| == 1 + |nodes| then 0 else -ENOMEM
    ensures |ptrs| <= 1 + |nodes| && (nodes == [] ==> ptrs == []) && Given(old(table.state), table.state, pid, ptrs)
    ensures res != 0 ==>
              && arguments.argc == old(arguments.argc) && arguments.argv == old(arguments.argv)
              && arguments.strings == old(arguments.strings)
    ensures res == 0 ==>
              && arguments.argc == |nodes| == |arguments.strings| && arguments.argv == ptrs[0]
              && Leads(table.state, ptrs[0], ptrs[1..]) && Copied(arguments.strings, old(Wanted(nodes)))
    ensures forall e <- table.state.procs :: e != pid ==> Carried(old(table.state), table.state, e)
    ensures ProcessRuns.Reaches(old(table.state), table.state)
  {
    hide Inv, ProcessTable.Tied, Linked, CommandLine.StringAt, CommandLine.Ended, Given, Carried, Leads, Vector, Copied;
    hide AfterMalloc, MallocResult, Sound, Blocks, ProcessRuns.Reaches, Since, Represents;
    ghost var s0 := table.state;
    Start(table, pid);
    var argc := CommandLine.Count(root, nodes);
    FirstOf(root, nodes);
    ptrs := [];
    if argc == 0 {
      SinceIs(s0, table.state, pid, ptrs);
      return -EIO, ptrs;
    }
    SomeBlocks(4 * argc);
    var argv;
    argv, ptrs := Grant(table, pid, 4 * argc, s0, ptrs);
    if argv == 0 {
      SinceIs(s0, table.state, pid, ptrs);
      return -ENOMEM, ptrs;
    }
    VectorThere(s0, table.state, pid, 4 * argc, argc);
    assert [] + [argv] == [argv];
    var done, strings;
    done, strings, ptrs := InjectAll(table, pid, argv, argc, root, nodes, s0, ptrs);
    SinceIs(s0, table.state, pid, ptrs);
    if !done {
      return -ENOMEM, ptrs;
    }
    arguments.argc := argc;
    arguments.argv := argv;
    arguments.strings := strings;
    res := 0;
  }
}
