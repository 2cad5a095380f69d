/** The path parser: builds a linked list of components out of kernel heap blocks, and takes it apart. */
module PathParser {
  import opened Machine
  import opened Bytes
  import opened CStrings
  import opened PathText
  import opened StringLists
  import opened HeapTable
  import opened KernelMemory
  import opened PageTables
  import opened FirstFit

  const ROOT_SIZE := 8
  const PART_SIZE := 8

  // ---------------------------------------------------------------- one block at a time

  ghost function FreeIn(live: Live): set<nat> {
    set i: nat | i < HEAP_BLOCKS && !Covered(live, i)
  }

  function BlockOf(ptr: Word): nat {
    AddressToBlock(HEAP_ADDRESS, ptr)
  }

  /** An allocation of one block: null exactly when no block is free, else a block that was free. */
  ghost predicate TookOne(before: Live, after: Live, ptr: Word) {
    if FreeIn(before) == {} then ptr == 0 && after == before
    else
      && ptr != 0 && BlockOf(ptr) in FreeIn(before)
      && after == before[BlockOf(ptr) := 1] && FreeIn(after) == FreeIn(before) - {BlockOf(ptr)}
  }

  lemma TookOneIs(t: seq<Entry>, live: Live, size: Word, u: seq<Entry>, after: Live, ptr: Word)
    requires Represents(t, live) && |t| == HEAP_BLOCKS && 0 < size <= 4096
    requires Allocated(t, live, size, u, after, ptr)
    ensures TookOne(live, after, ptr) && (ptr == 0 ==> u == t) && (ptr != 0 ==> FirstOne(t, u, BlockOf(ptr)))
  {
    FreeInIs(t, live);
    BlocksIsCeiling(size);
    assert Blocks(size) == 1;
    if FreeIn(live) != {} {
      RoomForOne(t);
      var s := StartBlock(t, 1);
      HeapIsBelowNarrowMask(s);
      TakenIffCovered(t, live, s);
      OneLess(live, s);
    } else {
      NoRoomForOne(t);
    }
  }

  lemma FreeInIs(t: seq<Entry>, live: Live)
    requires Represents(t, live) && |t| == HEAP_BLOCKS
    ensures FreeIn(live) == FreeBlocks(t)
  {
    forall i: nat | i < HEAP_BLOCKS ensures IsFree(t[i]) <==> !Covered(live, i) {
      TakenIffCovered(t, live, i);
    }
  }

  lemma NoRoomForOne(t: seq<Entry>)
    requires FreeBlocks(t) == {}
    ensures StartBlock(t, 1) < 0
  {
    forall s ensures !FreeRun(t, s, 1) {
      assert 0 <= s < |t| ==> s !in FreeBlocks(t);
    }
    assert TailStart(t) < |t| ==> FreeRun(t, TailStart(t), 1);
  }

  lemma OneLess(live: Live, s: nat)
    requires s in FreeIn(live) && s !in live
    ensures FreeIn(live[s := 1]) == FreeIn(live) - {s}
  {
    forall i: nat | i < HEAP_BLOCKS ensures Covered(live[s := 1], i) <==> Covered(live, i) || i == s {
      if Covered(live, i) {
        var r :| r in live && r <= i < r + live[r];
        assert r in live[s := 1] && live[s := 1][r] == live[r];
      }
      assert live[s := 1][s] == 1;
    }
  }

  /** One block is never refused or half given: the scan cannot return too short a run. */
  lemma OneIsSound(t: seq<Entry>)
    ensures Sound(t, 1)
  {
    assert TailStart(t) < |t| ==> FreeRun(t, TailStart(t), 1);
  }

  /** Nothing but pages that were free before differs. */
  ghost predicate OnlyFree(before: Live, m: Memory, n: Memory) {
    && |n| == |m|
    && forall p: nat | InMemory(m, p) && (HEAP_PAGE <= p ==> p - HEAP_PAGE !in FreeIn(before)) :: SamePage(m, n, p)
  }

  lemma OnlyFreeSame(before: Live, m: Memory)
    ensures OnlyFree(before, m, m)
  {
  }

  lemma OnlyFreeTwice(before: Live, live: Live, m: Memory, n: Memory, o: Memory)
    requires OnlyFree(before, m, n) && OnlyFree(live, n, o) && FreeIn(live) <= FreeIn(before)
    ensures OnlyFree(before, m, o)
  {
    forall p: nat | InMemory(m, p) && (HEAP_PAGE <= p ==> p - HEAP_PAGE !in FreeIn(before)) ensures SamePage(m, o, p) {
      assert SamePage(m, n, p) && SamePage(n, o, p);
    }
  }

  lemma ZeroedIsFree(before: Live, m: Memory, ptr: Word, size: Word)
    requires (HEAP_PAGE + HEAP_BLOCKS) * 1024 <= |m| && 0 < size <= 4096
    requires ptr % 4096 == 0 && HEAP_PAGE <= ptr / 4096 && BlockOf(ptr) in FreeIn(before)
    requires BlockOf(ptr) == ptr / 4096 - HEAP_PAGE
    ensures OnlyFree(before, m, Zeroed(m, ptr, size))
  {
    BlocksIsCeiling(size);
    ZeroedPages(m, BlockOf(ptr), size);
  }

  ghost predicate NoEmptyRuns(live: Live) {
    forall s <- live :: 0 < live[s]
  }

  ghost predicate Ready(kernel: Kernel)
    reads kernel, kernel.heap, kernel.heap.entries
  {
    kernel.Valid()
  }

  /** kzalloc of at most one block. */
  method AllocateOne(kernel: Kernel, size: Word) returns (ptr: Word)
    requires Ready(kernel) && 0 < size <= 4096
    modifies kernel, kernel.heap.entries, kernel.ram
    ensures Ready(kernel)
    ensures TookOne(old(kernel.live), kernel.live, ptr)
    ensures ptr != 0 ==> Holds(old(kernel.live), kernel.live, [BlockOf(ptr)])
    ensures if ptr == 0 then kernel.heap.Table() == old(kernel.heap.Table())
            else FirstOne(old(kernel.heap.Table()), kernel.heap.Table(), BlockOf(ptr))
    ensures OnlyFree(old(kernel.live), old(kernel.ram[..]), kernel.ram[..])
  {
    hide TookOne, Zeroed, Sound, StartBlock, Holds, OnlyFree, FirstOne, FreeIn, Represents, MarkTaken;
    ghost var m := kernel.ram[..];
    BlocksIsCeiling(size);
    assert Blocks(size) == 1;
    OneIsSound(kernel.heap.Table());
    ptr := kernel.Kzalloc(size);
    TookOneIs(old(kernel.heap.Table()), old(kernel.live), size, kernel.heap.Table(), kernel.live, ptr);
    if ptr != 0 {
      NoneEmpty(old(kernel.heap.Table()), old(kernel.live));
      HoldsOne(old(kernel.live), kernel.live, ptr);
      FoundInHeap(old(kernel.heap.Table()), old(kernel.live), kernel.live, ptr);
      ZeroedIsFree(old(kernel.live), m, ptr, size);
    } else {
      OnlyFreeSame(old(kernel.live), m);
    }
  }

  lemma NoneEmpty(t: seq<Entry>, live: Live)
    requires Represents(t, live)
    ensures NoEmptyRuns(live)
  {
  }

  lemma FoundInHeap(t: seq<Entry>, before: Live, after: Live, ptr: Word)
    requires |t| == HEAP_BLOCKS && ptr == FoundAddress(t, 1) != 0 && TookOne(before, after, ptr)
    ensures ptr % 4096 == 0 && HEAP_PAGE <= ptr / 4096 && BlockOf(ptr) == ptr / 4096 - HEAP_PAGE
    ensures BlockOf(ptr) in FreeIn(before)
  {
    hide StartBlock, FreeIn;
    StartInTable(t, 1);
    HeapIsBelowNarrowMask(StartBlock(t, 1));
  }

  // ---------------------------------------------------------------- the blocks of a path

  ghost function Plus(before: Live, blocks: seq<nat>): Live {
    map b | b in before.Keys + (set x <- blocks) :: if b in before then before[b] else 1
  }

  /** The heap is as it was before, and holds these one-block allocations besides. */
  ghost predicate Holds(before: Live, live: Live, blocks: seq<nat>) {
    && live == Plus(before, blocks)
    && (forall b <- blocks :: b in FreeIn(before) && b !in before)
    && (forall i, j | 0 <= i < j < |blocks| :: blocks[i] != blocks[j])
  }

  lemma HoldsNothing(live: Live)
    ensures forall before: Live :: Holds(before, live, []) <==> live == before
  {
    forall before: Live ensures Plus(before, []) == before {
    }
  }

  lemma HoldsOne(before: Live, after: Live, ptr: Word)
    requires TookOne(before, after, ptr) && ptr != 0 && NoEmptyRuns(before)
    ensures Holds(before, after, [BlockOf(ptr)]) && NoEmptyRuns(after)
  {
    hide BlockOf;
    var b := BlockOf(ptr);
    assert b in before ==> Covered(before, b);
    assert after == Plus(before, [b]);
  }

  lemma CoveredByMore(before: Live, live: Live, blocks: seq<nat>, i: nat)
    requires Holds(before, live, blocks)
    ensures Covered(live, i) <==> Covered(before, i) || i in blocks
  {
    if Covered(before, i) {
      var r :| r in before && r <= i < r + before[r];
      assert r in live && live[r] == before[r];
    }
    if i in blocks {
      assert i in live && live[i] == 1;
    }
    forall r | r in live && r <= i < r + live[r] ensures Covered(before, i) || i in blocks {
      if r in before {
        assert live[r] == before[r];
      }
    }
  }

  lemma HoldsBoth(a: Live, b: Live, c: Live, first: seq<nat>, second: seq<nat>)
    requires Holds(a, b, first) && Holds(b, c, second)
    ensures Holds(a, c, first + second)
  {
    forall x | x in second ensures x in FreeIn(a) && x !in a && x !in first {
      CoveredByMore(a, b, first, x);
    }
    var both := first + second;
    forall i, j | 0 <= i < j < |both| ensures both[i] != both[j] {
      assert j >= |first| ==> both[j] in second;
      assert i < |first| ==> both[i] in first;
      assert i >= |first| ==> both[i] == second[i - |first|];
    }
    assert c == Plus(a, both);
  }

  lemma HoldsWithout(before: Live, live: Live, blocks: seq<nat>, i: nat)
    requires Holds(before, live, blocks) && i < |blocks|
    ensures Holds(before, live - {blocks[i]}, blocks[..i] + blocks[i + 1..])
  {
    var rest := blocks[..i] + blocks[i + 1..];
    forall x ensures x in rest <==> x in blocks && x != blocks[i] {
      if x in blocks && x != blocks[i] {
        var k :| 0 <= k < |blocks| && blocks[k] == x;
        assert rest[if k < i then k else k - 1] == x;
      }
    }
    assert live - {blocks[i]} == Plus(before, rest);
  }

  lemma HoldsFree(before: Live, live: Live, blocks: seq<nat>)
    requires Holds(before, live, blocks)
    ensures FreeIn(live) <= FreeIn(before)
  {
    forall i | i in FreeIn(live) ensures i in FreeIn(before) {
      CoveredByMore(before, live, blocks, i);
    }
  }

  lemma {:induction false} RoomLeft(before: Live, live: Live, blocks: seq<nat>)
    requires Holds(before, live, blocks)
    ensures |FreeIn(live)| == |FreeIn(before)| - |blocks|
    decreases |blocks|
  {
    if blocks == [] {
      HoldsNothing(live);
    } else {
      var last := |blocks| - 1;
      HoldsWithout(before, live, blocks, last);
      var rest := blocks[..last] + blocks[last + 1..];
      assert rest == blocks[..last];
      RoomLeft(before, live - {blocks[last]}, rest);
      CoveredByMore(before, live - {blocks[last]}, rest, blocks[last]);
      OneLess(live - {blocks[last]}, blocks[last]);
      assert (live - {blocks[last]})[blocks[last] := 1] == live;
    }
  }

  /** kfree of one of the blocks. */
  method FreeBlock(kernel: Kernel, ptr: Word, ghost before: Live, ghost blocks: seq<nat>, ghost i: nat)
    requires Ready(kernel) && Holds(before, kernel.live, blocks) && i < |blocks| && blocks[i] == BlockOf(ptr)
    modifies kernel, kernel.heap.entries
    ensures Ready(kernel) && Holds(before, kernel.live, blocks[..i] + blocks[i + 1..])
  {
    hide AddressToBlock;
    HoldsWithout(before, kernel.live, blocks, i);
    assert BlockOf(ptr) in kernel.live;
    kernel.Kfree(ptr);
  }

  /** kfree of the only one. */
  method FreeOnly(kernel: Kernel, ptr: Word, ghost before: Live)
    requires Ready(kernel) && Holds(before, kernel.live, [BlockOf(ptr)])
    modifies kernel, kernel.heap.entries
    ensures Ready(kernel) && kernel.live == before
  {
    hide BlockOf, Holds, Ready;
    ghost var blocks := [BlockOf(ptr)];
    FreeBlock(kernel, ptr, before, blocks, 0);
    assert blocks[..0] + blocks[1..] == [];
    HoldsNothing(kernel.live);
  }

  // ---------------------------------------------------------------- the list

  /** The heap blocks of a component's link and of its characters. */
  datatype Place = Place(address: Word, textAddress: Word)

  /** One component: two heap blocks, a zeroed buffer of 108 characters, and a link. */
  type Part = Node<Place>

  class Root {
    const address: Word
    const drive: nat
    var first: Node?<Place>

    constructor (address: Word, drive: nat)
      ensures this.address == address && this.drive == drive && first == null
    {
      this.address := address;
      this.drive := drive;
      first := null;
    }
  }

  function Owned(nodes: seq<Part>): (blocks: seq<nat>)
    ensures |blocks| == 2 * |nodes|
  {
    if nodes == [] then []
    else [BlockOf(nodes[0].place.textAddress), BlockOf(nodes[0].place.address)] + Owned(nodes[1..])
  }

  lemma {:induction false} OwnedSnoc(nodes: seq<Part>, node: Part)
    ensures Owned(nodes + [node]) == Owned(nodes) + [BlockOf(node.place.textAddress), BlockOf(node.place.address)]
  {
    hide BlockOf;
    if nodes == [] {
      assert nodes + [node] == [node] && [node][1..] == [];
    } else {
      OwnedSnoc(nodes[1..], node);
      assert (nodes + [node])[1..] == nodes[1..] + [node];
    }
  }

  // ---------------------------------------------------------------- parsing

  /** pathparser_get_path_part: the next component in a block of its own, or null; advances past it. */
  method GetPathPart(kernel: Kernel, path: seq<Byte>, p: nat) returns (ptr: Word, text: array<Byte>, q: nat)
    requires Ready(kernel)
    requires p <= |CText(path)| < |path| && |CText(path)| < p + MAX_PATH
    modifies kernel, kernel.heap.entries, kernel.ram
    ensures Ready(kernel)
    ensures ptr == 0 <==> FreeIn(old(kernel.live)) == {} || HeadLength(CText(path)[p..]) == 0
    ensures ptr == 0 ==> kernel.live == old(kernel.live) && kernel.heap.Table() == old(kernel.heap.Table())
    ensures ptr != 0 ==> FirstOne(old(kernel.heap.Table()), kernel.heap.Table(), BlockOf(ptr))
    ensures OnlyFree(old(kernel.live), old(kernel.ram[..]), kernel.ram[..])
    ensures ptr != 0 ==>
              && TookOne(old(kernel.live), kernel.live, ptr) && Holds(old(kernel.live), kernel.live, [BlockOf(ptr)])
              && fresh(text) && text.Length == MAX_PATH
              && q <= |CText(path)| && CText(path)[q..] == AfterHead(CText(path)[p..])
              && var head := CText(path)[p..][..HeadLength(CText(path)[p..])];
                 text[..] == head + ZeroBytes(MAX_PATH - |head|)
  {
    hide TookOne, CText, BlockOf, Holds, FirstOne, OnlyFree, Represents;
    ghost var s, before, t := CText(path), kernel.live, kernel.heap.Table();
    q := p;
    text := new Byte[MAX_PATH](_ => 0);
    ptr := AllocateOne(kernel, MAX_PATH);
    TookOneNull(before, kernel.live, ptr);
    if ptr == 0 {
      return;
    }
    var i := CopyPart(path, p, text);
    q := p + i;
    if path[q] == SLASH {
      q := q + 1;
    }
    if i == 0 {
      FreeOnly(kernel, ptr, before);
      TableUnique(kernel.heap.Table(), t, before);
      ptr := 0;
    }
  }

  /** The copying loop: up to a slash or the end of the path. */
  method CopyPart(path: seq<Byte>, p: nat, text: array<Byte>) returns (i: nat)
    requires p <= |CText(path)| < |path| && |CText(path)| < p + MAX_PATH
    requires text.Length == MAX_PATH && text[..] == ZeroBytes(MAX_PATH)
    modifies text
    ensures i == HeadLength(CText(path)[p..])
    ensures text[..] == CText(path)[p..][..i] + ZeroBytes(MAX_PATH - i)
  {
    hide CText;
    ghost var s := CText(path)[p..];
    i := 0;
    while path[p + i] != SLASH && path[p + i] != 0
      invariant 0 <= i <= |s| && SLASH !in s[..i]
      invariant text[..] == s[..i] + ZeroBytes(MAX_PATH - i)
      decreases |s| - i
    {
      assert i < |s| ==> s[i] == path[p + i];
      assert s[..i + 1] == s[..i] + [s[i]];
      NextChar(s[..i], s[i]);
      text[i] := path[p + i];
      i := i + 1;
    }
    assert i < |s| ==> s[i] == path[p + i];
    HeadLengthIs(s, i);
  }

  lemma NextChar(s: seq<Byte>, c: Byte)
    requires |s| < MAX_PATH
    ensures (s + ZeroBytes(MAX_PATH - |s|))[|s| := c] == s + [c] + ZeroBytes(MAX_PATH - |s| - 1)
  {
  }

  lemma TookOneNull(before: Live, after: Live, ptr: Word)
    requires TookOne(before, after, ptr)
    ensures ptr == 0 <==> FreeIn(before) == {}
    ensures ptr == 0 ==> after == before
  {
  }

  /** What one more component leaves behind: two more blocks, and the component's text. */
  ghost predicate Added(before: Live, live: Live, node: Part, head: seq<Byte>)
    reads node.text
  {
    && Holds(before, live, [BlockOf(node.place.textAddress), BlockOf(node.place.address)])
    && HasText(node, MAX_PATH, head)
  }

  /** pathparser_parse_path_part: links the new component behind the last one; null at the end of the
      path, at an empty component, or when a block is missing. */
  method ParsePathPart(kernel: Kernel, last: Node?<Place>, path: seq<Byte>, p: nat) returns (part: Node?<Place>, q: nat)
    requires Ready(kernel)
    requires p <= |CText(path)| < |path| && |CText(path)| < p + MAX_PATH
    modifies kernel, kernel.heap.entries, kernel.ram, if last == null then {} else {last}
    ensures Ready(kernel)
    ensures part == null <==> |FreeIn(old(kernel.live))| < 2 || HeadLength(CText(path)[p..]) == 0
    ensures part == null ==> kernel.live == old(kernel.live) && (last != null ==> last.next == old(last.next))
    ensures part == null ==> kernel.heap.Table() == old(kernel.heap.Table())
    ensures part != null ==> FirstOnes(old(kernel.heap.Table()), kernel.heap.Table(), Owned([part]))
    ensures OnlyFree(old(kernel.live), old(kernel.ram[..]), kernel.ram[..])
    ensures part != null ==>
              && fresh(part) && fresh(part.text) && part.next == null
              && Added(old(kernel.live), kernel.live, part, CText(path)[p..][..HeadLength(CText(path)[p..])])
              && (last != null ==> last.next == part)
              && q <= |CText(path)| && CText(path)[q..] == AfterHead(CText(path)[p..])
  {
    hide TookOne, CText, HeadLength, AfterHead, BlockOf, FreeIn, Holds, Represents, FirstOne, FirstOnes, OnlyFree;
    ghost var before, t, m := kernel.live, kernel.heap.Table(), kernel.ram[..];
    var ptr, text;
    ptr, text, q := GetPathPart(kernel, path, p);
    RoomAfterOne(before, kernel.live, ptr);
    if ptr == 0 {
      return null, q;
    }
    ghost var middle, u, n := kernel.live, kernel.heap.Table(), kernel.ram[..];
    var address := AllocateOne(kernel, PART_SIZE);
    TookOneNull(middle, kernel.live, address);
    TookOneFree(before, middle, ptr);
    OnlyFreeTwice(before, middle, m, n, kernel.ram[..]);
    if address == 0 {
      FreeOnly(kernel, ptr, before);
      TableUnique(kernel.heap.Table(), t, before);
      return null, q;
    }
    FirstTwo(t, u, kernel.heap.Table(), BlockOf(ptr), BlockOf(address));
    HoldsBoth(before, middle, kernel.live, [BlockOf(ptr)], [BlockOf(address)]);
    assert [BlockOf(ptr)] + [BlockOf(address)] == [BlockOf(ptr), BlockOf(address)];
    part := new Node(Place(address, ptr), text);
    OwnedOne(part);
    if last != null {
      last.next := part;
    }
  }

  lemma TookOneFree(before: Live, after: Live, ptr: Word)
    requires TookOne(before, after, ptr)
    ensures FreeIn(after) <= FreeIn(before)
  {
  }

  lemma FirstTwo(t: seq<Entry>, u: seq<Entry>, v: seq<Entry>, a: nat, b: nat)
    requires FirstOne(t, u, a) && FirstOne(u, v, b)
    ensures FirstOnes(t, v, [a, b])
  {
    hide FirstOne, FirstOnes;
    FirstOnesOne(t, u, a);
    FirstOnesMore(t, u, [a], v, b);
    assert [a] + [b] == [a, b];
  }

  lemma RoomAfterOne(before: Live, after: Live, ptr: Word)
    requires ptr == 0 || TookOne(before, after, ptr)
    ensures ptr != 0 ==> |FreeIn(before)| == |FreeIn(after)| + 1
    ensures |FreeIn(before)| == 0 <==> FreeIn(before) == {}
    ensures |FreeIn(after)| == 0 <==> FreeIn(after) == {}
  {
  }

  /** The finished list: a root and its parts, their texts, and the blocks they hold. */
  ghost predicate Built(before: Live, live: Live, root: Root, nodes: seq<Part>, path: Path)
    reads root, nodes, set n <- nodes :: n.text
  {
    && root.drive == path.drive && Linked(root.first, nodes) && Texts(nodes, MAX_PATH, path.parts)
    && Holds(before, live, [BlockOf(root.address)] + Owned(nodes))
  }

  /** pathparser_parse. */
  method Parse(kernel: Kernel, path: seq<Byte>) returns (root: Root?, ghost nodes: seq<Part>)
    requires Ready(kernel) && 0 in path
    modifies kernel, kernel.heap.entries, kernel.ram
    ensures Ready(kernel)
    ensures var parsed := Parsed(CText(path), |FreeIn(old(kernel.live))|);
            if root == null then
              parsed == None && kernel.live == old(kernel.live) && kernel.heap.Table() == old(kernel.heap.Table())
            else
              && fresh(root) && (forall n <- nodes :: fresh(n) && fresh(n.text))
              && parsed.Some? && Built(old(kernel.live), kernel.live, root, nodes, parsed.value)
              && FirstOnes(old(kernel.heap.Table()), kernel.heap.Table(), [BlockOf(root.address)] + Owned(nodes))
    ensures OnlyFree(old(kernel.live), old(kernel.ram[..]), kernel.ram[..])
  {
    hide TookOne, CText, Components, HeadLength, AfterHead, BlockOf, FreeIn, Holds, HasText, Owned, Texts, Represents;
    hide Linked, OnlyFree, FirstOne, FirstOnes;
    nodes := [];
    ghost var before, s, room := kernel.live, CText(path), |FreeIn(kernel.live)|;
    ghost var t, m := kernel.heap.Table(), kernel.ram[..];
    Terminated(path);
    OnlyFreeSame(before, m);
    var length := Strlen(path);
    if length > MAX_PATH || !ValidFormat(path[..length]) {
      return null, [];
    }
    var digit: int := path[0];
    var address := AllocateOne(kernel, ROOT_SIZE);
    TookOneNull(before, kernel.live, address);
    RoomAfterOne(before, kernel.live, address);
    if address == 0 {
      return null, [];
    }
    ghost var rooted, u, n := kernel.live, kernel.heap.Table(), kernel.ram[..];
    TookOneFree(before, rooted, address);
    FirstOnesOne(t, u, BlockOf(address));
    root := new Root(address, digit - 48);
    var part, p := ParsePathPart(kernel, null, path, 3);
    HeadOnly(s[3..]);
    OnlyFreeTwice(before, rooted, m, n, kernel.ram[..]);
    if part == null {
      FreeOnly(kernel, address, before);
      TableUnique(kernel.heap.Table(), t, before);
      return null, [];
    }
    FirstOnesBoth(t, u, kernel.heap.Table(), [BlockOf(address)], Owned([part]));
    root.first := part;
    ghost var head := s[3..][..HeadLength(s[3..])];
    OwnedOne(part);
    HoldsBoth(before, rooted, kernel.live, [BlockOf(address)], Owned([part]));
    nodes := ParseRest(kernel, part, path, p, before, t, m, room - 1, BlockOf(address), head);
  }

  /** The rest of the loop of pathparser_parse, with the first component in place. */
  method ParseRest(kernel: Kernel, first: Part, path: seq<Byte>, from: nat, ghost before: Live,
      ghost t: seq<Entry>, ghost m: Memory, ghost room: nat, ghost rootBlock: nat, ghost head: seq<Byte>)
    returns (ghost nodes: seq<Part>)
    requires Ready(kernel)
    requires 3 <= from <= |CText(path)| < |path| && |CText(path)| <= MAX_PATH
    requires first.next == null && HasText(first, MAX_PATH, head)
    requires first.text as object != kernel.ram && first.text as object != kernel.heap.entries
    requires Holds(before, kernel.live, [rootBlock] + Owned([first])) && |FreeIn(before)| == room + 1
    requires FirstOnes(t, kernel.heap.Table(), [rootBlock] + Owned([first])) && OnlyFree(before, m, kernel.ram[..])
    modifies kernel, kernel.heap.entries, kernel.ram, first
    ensures Ready(kernel)
    ensures Linked(first, nodes) && forall n <- nodes :: n == first || (fresh(n) && fresh(n.text))
    ensures Texts(nodes, MAX_PATH, Clipped([head] + Components(CText(path)[from..]), room / 2))
    ensures Holds(before, kernel.live, [rootBlock] + Owned(nodes))
    ensures FirstOnes(t, kernel.heap.Table(), [rootBlock] + Owned(nodes)) && OnlyFree(before, m, kernel.ram[..])
  {
    hide TookOne, CText, Components, HeadLength, AfterHead, BlockOf, FreeIn, Holds, HasText, Owned, Texts, Represents;
    hide Clipped, OnlyFree, FirstOnes;
    var part: Node?<Place>, p := first, from;
    ghost var s := CText(path);
    ghost var all := [head] + Components(s[from..]);
    ghost var parts := [head];
    nodes := [first];
    OneText(first, MAX_PATH, head);
    while part != null
      invariant Ready(kernel)
      invariant nodes != [] && forall n <- nodes :: n == first || (fresh(n) && fresh(n.text))
      invariant part != null ==> part == nodes[|nodes| - 1] && 3 <= p <= |s|
      invariant Linked(first, nodes) && Texts(nodes, MAX_PATH, parts)
      invariant Holds(before, kernel.live, [rootBlock] + Owned(nodes))
      invariant FirstOnes(t, kernel.heap.Table(), [rootBlock] + Owned(nodes)) && OnlyFree(before, m, kernel.ram[..])
      invariant part != null ==> all == parts + Components(s[p..])
      invariant part == null ==> parts == Clipped(all, room / 2)
      decreases if part == null then 0 else 1 + |s| - p
    {
      ghost var live, rest, u, n := kernel.live, s[p..], kernel.heap.Table(), kernel.ram[..];
      HoldsFree(before, live, [rootBlock] + Owned(nodes));
      RoomLeft(before, live, [rootBlock] + Owned(nodes));
      TextsLength(nodes, MAX_PATH, parts);
      LastIsLast(first, nodes);
      part, p := ParsePathPart(kernel, part, path, p);
      HeadOnly(rest);
      OnlyFreeTwice(before, live, m, n, kernel.ram[..]);
      if part == null {
        EndOfPath(all, parts, Components(rest), room + 1);
      } else {
        ghost var more := rest[..HeadLength(rest)];
        OwnedSnoc(nodes, part);
        OwnedOne(part);
        FirstOnesBoth(t, u, kernel.heap.Table(), [rootBlock] + Owned(nodes), Owned([part]));
        HoldsBoth(before, live, kernel.live, [rootBlock] + Owned(nodes),
          [BlockOf(part.place.textAddress), BlockOf(part.place.address)]);
        assert [rootBlock] + Owned(nodes + [part])
            == [rootBlock] + Owned(nodes) + [BlockOf(part.place.textAddress), BlockOf(part.place.address)];
        OneMoreText(nodes, MAX_PATH, parts, part, more);
        assert parts + Components(rest) == parts + [more] + Components(s[p..]);
        nodes, parts := nodes + [part], parts + [more];
      }
    }
  }

  lemma OwnedOne(node: Part)
    ensures Owned([node]) == [BlockOf(node.place.textAddress), BlockOf(node.place.address)]
  {
    hide BlockOf;
    assert Owned([node][1..]) == [];
  }

  /** The list ends where the path does, or where fewer than two blocks are left. */
  lemma EndOfPath(all: seq<seq<Byte>>, parts: seq<seq<Byte>>, rest: seq<seq<Byte>>, room: nat)
    requires all == parts + rest && 1 + 2 * |parts| <= room
    requires rest == [] || room - 1 - 2 * |parts| < 2
    ensures parts == Clipped(all, (room - 1) / 2)
  {
    assert (room - 1) / 2 >= |parts|;
    assert rest != [] ==> (room - 1) / 2 == |parts|;
  }

  lemma Terminated(path: seq<Byte>)
    requires 0 in path
    ensures |CText(path)| < |path|
  {
    assert path[..|path|] == path;
  }

  lemma HeadOnly(s: seq<Byte>)
    ensures HeadLength(s) == 0 <==> Components(s) == []
    ensures HeadLength(s) != 0 ==> Components(s) == [s[..HeadLength(s)]] + Components(AfterHead(s))
  {
  }

  // ---------------------------------------------------------------- taking it apart

  /** pathparser_free: every component's text and link, then the root; the heap is as it was before. */
  method Free(kernel: Kernel, root: Root, ghost nodes: seq<Part>, ghost before: Live)
    requires Ready(kernel) && Linked(root.first, nodes)
    requires Holds(before, kernel.live, [BlockOf(root.address)] + Owned(nodes))
    modifies kernel, kernel.heap.entries
    ensures Ready(kernel) && kernel.live == before
  {
    hide BlockOf, Holds, Ready;
    ghost var rb := BlockOf(root.address);
    var part := root.first;
    ghost var left := nodes;
    while part != null
      invariant Ready(kernel) && Linked(part, left)
      invariant Holds(before, kernel.live, [rb] + Owned(left))
      decreases |left|
    {
      var nextPart := part.next;
      ghost var t, a, rest := BlockOf(part.place.textAddress), BlockOf(part.place.address), Owned(left[1..]);
      assert [rb] + Owned(left) == [rb, t, a] + rest;
      FreeBlock(kernel, part.place.textAddress, before, [rb, t, a] + rest, 1);
      assert ([rb, t, a] + rest)[..1] + ([rb, t, a] + rest)[2..] == [rb, a] + rest;
      FreeBlock(kernel, part.place.address, before, [rb, a] + rest, 1);
      assert ([rb, a] + rest)[..1] + ([rb, a] + rest)[2..] == [rb] + rest;
      left := left[1..];
      part := nextPart;
    }
    assert [rb] + Owned(left) == [rb];
    FreeBlock(kernel, root.address, before, [rb], 0);
    assert [rb][..0] + [rb][1..] == [];
    HoldsNothing(kernel.live);
  }

  /** Whatever the path and however much room there is, parsing and then freeing the result, or
      parsing in vain, gives back the identical heap table. */
  method ParseAndFree(kernel: Kernel, path: seq<Byte>)
    requires Ready(kernel) && 0 in path
    modifies kernel, kernel.heap.entries, kernel.ram
    ensures kernel.Valid() && kernel.live == old(kernel.live)
    ensures kernel.heap.Table() == old(kernel.heap.Table())
  {
    hide BlockOf, Holds, Parsed, CText, FreeIn;
    ghost var t, live := kernel.heap.Table(), kernel.live;
    var root;
    ghost var nodes;
    root, nodes := Parse(kernel, path);
    if root != null {
      Free(kernel, root, nodes, live);
    }
    TableUnique(kernel.heap.Table(), t, live);
  }
}
