/**
 The block table of the first-fit heap, as a value.

 One byte describes one 4096-byte block.  The low nibble says free or taken; bit 6 marks the
 first block of an allocation and bit 7 says that the allocation goes on in the next block.
 `live` maps the first block of every allocation to its length in blocks; `Represents` ties the
 bytes to that map, and everything below is proved about the bytes through it.
 */
module HeapTable {
  import opened Machine

  type Entry = bv8
  type Live = map<nat, nat>

  const FREE: Entry := 0x00
  const TAKEN: Entry := 0x01
  const HAS_NEXT: Entry := 0x80
  const IS_FIRST: Entry := 0x40

  predicate IsFree(e: Entry) {
    e & 0x0F == FREE
  }

  predicate HasNext(e: Entry) {
    e & HAS_NEXT != 0
  }

  /** The byte of block number `k` of an allocation of `n` blocks. */
  function RunEntry(k: nat, n: nat): Entry
    requires k < n
  {
    TAKEN | (if k == 0 then IS_FIRST else 0) | (if k + 1 < n then HAS_NEXT else 0)
  }

  // ---------------------------------------------------------------- well-formed tables

  ghost predicate Covered(live: Live, i: nat) {
    exists s :: s in live && s <= i < s + live[s]
  }

  /** The table is exactly the encoding of `live`: runs where it says, free everywhere else. */
  ghost predicate Represents(t: seq<Entry>, live: Live) {
    && (forall s <- live :: 0 < live[s] && s + live[s] <= |t|)
    && (forall s, i | s in live && s <= i < s + live[s] :: t[i] == RunEntry(i - s, live[s]))
    && (forall i: nat | i < |t| && !Covered(live, i) :: t[i] == FREE)
  }

  lemma RunEntryBits(k: nat, n: nat)
    requires k < n
    ensures !IsFree(RunEntry(k, n))
    ensures RunEntry(k, n) & IS_FIRST != 0 <==> k == 0
    ensures HasNext(RunEntry(k, n)) <==> k + 1 < n
  {
  }

  /** The bytes of an allocation: taken, the first one marked, and each but the last one saying that it goes on. */
  lemma RunBytes(k: nat, n: nat)
    requires k < n
    ensures RunEntry(k, n) == if n == 1 then 0x41 else if k == 0 then 0xC1 else if k + 1 < n then 0x81 else 0x01
  {
  }

  lemma RunBits(t: seq<Entry>, live: Live, s: nat)
    requires Represents(t, live) && s in live
    ensures forall i | s <= i < s + live[s] ::
              && !IsFree(t[i])
              && (t[i] & IS_FIRST != 0 <==> i == s)
              && (HasNext(t[i]) <==> i + 1 < s + live[s])
  {
    forall i | s <= i < s + live[s]
      ensures !IsFree(t[i]) && (t[i] & IS_FIRST != 0 <==> i == s) && (HasNext(t[i]) <==> i + 1 < s + live[s])
    {
      RunEntryBits(i - s, live[s]);
    }
  }

  /** Distinct live allocations never share a block. */
  lemma LiveDisjoint(t: seq<Entry>, live: Live, a: nat, b: nat)
    requires Represents(t, live) && a in live && b in live && a < b
    ensures a + live[a] <= b
  {
    RunBits(t, live, a);
    RunBits(t, live, b);
    assert t[b] & IS_FIRST != 0;
  }

  lemma TakenIffCovered(t: seq<Entry>, live: Live, i: nat)
    requires Represents(t, live) && i < |t|
    ensures IsFree(t[i]) <==> !Covered(live, i)
    ensures t[i] == FREE <==> !Covered(live, i)
  {
    if Covered(live, i) {
      var s :| s in live && s <= i < s + live[s];
      RunBits(t, live, s);
    }
  }

  lemma StartIsStart(t: seq<Entry>, a: Live, b: Live, s: nat)
    requires Represents(t, a) && Represents(t, b) && s in a
    ensures s in b && a[s] <= b[s]
  {
    RunBits(t, a, s);
    assert t[s] & IS_FIRST != 0;
    TakenIffCovered(t, b, s);
    var r :| r in b && r <= s < r + b[r];
    RunBits(t, b, r);
    assert !HasNext(t[s + b[s] - 1]);
  }

  /** The bytes determine the allocations: no table encodes two different live maps. */
  lemma LiveUnique(t: seq<Entry>, a: Live, b: Live)
    requires Represents(t, a) && Represents(t, b)
    ensures a == b
  {
    forall s | s in a ensures s in b && a[s] <= b[s] { StartIsStart(t, a, b, s); }
    forall s | s in b ensures s in a && b[s] <= a[s] { StartIsStart(t, b, a, s); }
    assert a.Keys == b.Keys;
  }

  /** The allocations determine the bytes: restoring the live map restores the table exactly. */
  lemma TableUnique(t: seq<Entry>, u: seq<Entry>, live: Live)
    requires Represents(t, live) && Represents(u, live) && |t| == |u|
    ensures t == u
  {
    forall i: nat | i < |t| ensures t[i] == u[i] {
      if Covered(live, i) {
        var s :| s in live && s <= i < s + live[s];
        assert t[i] == RunEntry(i - s, live[s]) == u[i];
      }
    }
  }

  lemma EmptyTable(t: seq<Entry>)
    requires forall i | 0 <= i < |t| :: t[i] == FREE
    ensures Represents(t, map[])
  {
  }

  // ---------------------------------------------------------------- the first-fit scan

  ghost predicate FreeRun(t: seq<Entry>, s: int, n: nat) {
    0 <= s && s + n <= |t| && forall i | s <= i < s + n :: IsFree(t[i])
  }

  ghost predicate HasRun(t: seq<Entry>, n: nat) {
    exists s :: FreeRun(t, s, n)
  }

  /** Start of the free run that ends the table, or |t| when the last block is taken. */
  ghost function TailStart(t: seq<Entry>): (s: nat)
    ensures s <= |t|
    ensures FreeRun(t, s, |t| - s)
    ensures 0 < s ==> !IsFree(t[s - 1])
  {
    if t == [] || !IsFree(t[|t| - 1]) then |t| else TailStart(t[..|t| - 1])
  }

  ghost function LeastRunFrom(t: seq<Entry>, n: nat, s: nat): (r: nat)
    requires exists x :: s <= x && FreeRun(t, x, n)
    ensures s <= r && FreeRun(t, r, n)
    ensures forall x | s <= x < r :: !FreeRun(t, x, n)
    decreases |t| - s
  {
    if FreeRun(t, s, n) then s else LeastRunFrom(t, n, s + 1)
  }

  /**
   What the scan returns: the least start of a run of n free blocks when there is one; otherwise
   the start of the trailing free run, however short, because the count is not looked at again
   after the loop; and -ENOMEM only when the last block is taken.
   */
  ghost function StartBlock(t: seq<Entry>, n: nat): int {
    if 0 < n && HasRun(t, n) then
      assert exists x :: 0 <= x && FreeRun(t, x, n) by { var s :| FreeRun(t, s, n); }
      LeastRunFrom(t, n, 0)
    else if TailStart(t) < |t| then TailStart(t)
    else -ENOMEM
  }

  /** The scan is right exactly when it should be: a claimed run fits the table if and only if
      a long enough run exists, or nothing was asked for. */
  lemma ScanFitsIff(t: seq<Entry>, n: nat)
    requires 0 <= StartBlock(t, n)
    ensures StartBlock(t, n) + n <= |t| <==> n == 0 || HasRun(t, n)
    ensures n == 0 || HasRun(t, n) ==> FreeRun(t, StartBlock(t, n), n)
  {
    if 0 < n && !HasRun(t, n) {
      var s := TailStart(t);
      if s + n <= |t| {
        assert FreeRun(t, s, n);
      }
    }
  }

  /** A table of one free block answers a two-block request with block 0. */
  lemma ShortTailIsReturned()
    ensures StartBlock([FREE], 2) == 0 && !HasRun([FREE], 2)
  {
    assert [FREE][..0] == [];
    assert TailStart([FREE]) == TailStart([FREE][..0]);
  }

  // ---------------------------------------------------------------- marking and clearing

  /** Blocks [s, s+n) become one allocation; what would fall past the end is not in the table. */
  function MarkTaken(t: seq<Entry>, s: nat, n: nat): (u: seq<Entry>)
    ensures |u| == |t|
  {
    seq(|t|, i requires 0 <= i < |t| => if s <= i < s + n then RunEntry(i - s, n) else t[i])
  }

  /** Clear from block `b` on, up to and including the first block without HAS_NEXT. */
  function MarkFree(t: seq<Entry>, b: nat): (u: seq<Entry>)
    ensures |u| == |t|
    decreases |t| - b
  {
    if |t| <= b then t
    else if !HasNext(t[b]) then t[b := FREE]
    else MarkFree(t[b := FREE], b + 1)
  }

  lemma MarkTakenRepresents(t: seq<Entry>, live: Live, s: nat, n: nat)
    requires Represents(t, live) && 0 < n && FreeRun(t, s, n)
    ensures Represents(MarkTaken(t, s, n), live[s := n])
    ensures forall a <- live :: a + live[a] <= s || s + n <= a
  {
    var u, after := MarkTaken(t, s, n), live[s := n];
    forall a | a in live ensures a + live[a] <= s || s + n <= a {
      if s < a + live[a] && a < s + n {
        var i := if s <= a then a else s;
        assert Covered(live, i);
        TakenIffCovered(t, live, i);
      }
    }
    forall i: nat | i < |u| ensures u[i] == FREE || Covered(after, i) {
      if s <= i < s + n {
        assert s in after && s <= i < s + after[s];
      } else if Covered(live, i) {
        var a :| a in live && a <= i < a + live[a];
        assert a in after && a <= i < a + after[a];
      }
    }
  }

  /** Clearing follows the chain of HAS_NEXT bits and nothing else. */
  lemma {:induction false} MarkFreeRun(t: seq<Entry>, b: nat, e: nat)
    requires b < e <= |t|
    requires forall i | b <= i < e :: HasNext(t[i]) <==> i + 1 < e
    ensures forall i | 0 <= i < |t| :: MarkFree(t, b)[i] == if b <= i < e then FREE else t[i]
    decreases e - b
  {
    if b + 1 < e {
      MarkFreeRun(t[b := FREE], b + 1, e);
    }
  }

  /** Freeing a live start clears exactly its own run. */
  lemma MarkFreeRepresents(t: seq<Entry>, live: Live, b: nat)
    requires Represents(t, live) && b in live
    ensures Represents(MarkFree(t, b), live - {b})
  {
    var e, after := b + live[b], live - {b};
    RunBits(t, live, b);
    MarkFreeRun(t, b, e);
    var u := MarkFree(t, b);
    forall s, i | s in after && s <= i < s + after[s] ensures u[i] == RunEntry(i - s, after[s]) {
      if s < b { LiveDisjoint(t, live, s, b); } else { LiveDisjoint(t, live, b, s); }
    }
    forall i: nat | i < |u| ensures u[i] == FREE || Covered(after, i) {
      if !(b <= i < e) && Covered(live, i) {
        var s :| s in live && s <= i < s + live[s];
        assert s in after && s <= i < s + after[s];
      }
    }
  }

  /** Freeing what was just allocated gives back the identical table. */
  lemma MallocFreeRestores(t: seq<Entry>, live: Live, s: nat, n: nat)
    requires Represents(t, live) && 0 < n && FreeRun(t, s, n)
    ensures MarkFree(MarkTaken(t, s, n), s) == t
  {
    MarkTakenRepresents(t, live, s, n);
    MarkFreeRepresents(MarkTaken(t, s, n), live[s := n], s);
    assert s !in live;
    assert live[s := n] - {s} == live;
    TableUnique(MarkFree(MarkTaken(t, s, n), s), t, live);
  }

  /** Some set of allocations explains every byte of the table. */
  ghost predicate WellFormed(t: seq<Entry>) {
    exists live :: Represents(t, live)
  }

  ghost predicate Interior(live: Live, b: nat) {
    exists s :: s in live && s < b < s + live[s]
  }

  lemma NotInside(t: seq<Entry>, live: Live, b: nat)
    requires Represents(t, live) && (b in live || |t| <= b)
    ensures !Interior(live, b)
  {
    if s :| s in live && s < b < s + live[s] {
      LiveDisjoint(t, live, s, b);
    }
  }

  lemma FreeOfFreeBlock(t: seq<Entry>, live: Live, b: nat)
    requires Represents(t, live) && !Covered(live, b)
    ensures MarkFree(t, b) == t
  {
    if b < |t| {
      assert t[b] == FREE;
      assert t[b := FREE] == t;
    }
  }

  /** Clearing from the inside of an allocation leaves its first part without an end. */
  lemma FreeOfInteriorBreaks(t: seq<Entry>, live: Live, b: nat, after: Live)
    requires Represents(t, live) && Interior(live, b)
    ensures !Represents(MarkFree(t, b), after)
  {
    var s :| s in live && s < b < s + live[s];
    RunBits(t, live, s);
    MarkFreeRun(t, b, s + live[s]);
    var u := MarkFree(t, b);
    assert HasNext(u[b - 1]) && u[b - 1] != FREE && u[b] == FREE;
    if Represents(u, after) {
      TakenIffCovered(u, after, b - 1);
      var r :| r in after && r <= b - 1 < r + after[r];
      RunBits(u, after, r);
    }
  }

  /** A free leaves a well-formed table if and only if its block is not inside an allocation. */
  lemma FreeKeepsTableIff(t: seq<Entry>, live: Live, b: nat)
    requires Represents(t, live)
    ensures WellFormed(MarkFree(t, b)) <==> !Interior(live, b)
  {
    if Interior(live, b) {
      forall after: Live ensures !Represents(MarkFree(t, b), after) {
        FreeOfInteriorBreaks(t, live, b, after);
      }
    } else if b in live {
      MarkFreeRepresents(t, live, b);
      assert WellFormed(MarkFree(t, b));
    } else {
      FreeOfFreeBlock(t, live, b);
      assert WellFormed(MarkFree(t, b));
    }
  }

  /** An allocation leaves a well-formed table if and only if a long enough run was free. */
  lemma MallocKeepsTableIff(t: seq<Entry>, live: Live, n: nat)
    requires Represents(t, live) && 0 <= StartBlock(t, n)
    ensures WellFormed(MarkTaken(t, StartBlock(t, n), n)) <==> n == 0 || HasRun(t, n)
  {
    var s := StartBlock(t, n);
    var u := MarkTaken(t, s, n);
    ScanFitsIff(t, n);
    if n == 0 {
      assert u == t;
      assert WellFormed(u);
    } else if HasRun(t, n) {
      MarkTakenRepresents(t, live, s, n);
      assert WellFormed(u);
    } else {
      var last := |t| - 1;
      RunEntryBits(last - s, n);
      assert u[last] == RunEntry(last - s, n);
      assert HasNext(u[last]) && u[last] != FREE;
      if WellFormed(u) {
        var after: Live :| Represents(u, after);
        TakenIffCovered(u, after, last);
        var r :| r in after && r <= last < r + after[r];
        RunBits(u, after, r);
      }
    }
  }

  // ---------------------------------------------------------------- sizes and addresses

  /** Blocks asked for by a request of `size` bytes, in the 32-bit arithmetic of the source. */
  function Blocks(size: Word): nat {
    AlignUp(size) / BLOCK_SIZE
  }

  /** A request is the ceiling of size/4096 blocks, except that 0 and the last 4095 sizes ask
      for nothing. */
  lemma BlocksIsCeiling(size: Word)
    ensures Blocks(size) == 0 <==> size == 0 || U32 - BLOCK_SIZE < size
    ensures 0 < size <= U32 - BLOCK_SIZE ==> (Blocks(size) - 1) * BLOCK_SIZE < size <= Blocks(size) * BLOCK_SIZE
  {
  }

  /** Block number of an address: C division of the signed difference, then taken as a size_t. */
  function AddressToBlock(saddr: Word, address: Word): nat {
    var d := (address - saddr) % U32;
    var signed := if d < 0x8000_0000 then d else d - U32;
    var q := if 0 <= signed then signed / BLOCK_SIZE else -((-signed) / BLOCK_SIZE);
    q % U32
  }

  /** Address and block conversions invert each other on block starts. */
  lemma AddressRoundTrip(saddr: Word, b: nat)
    requires b < 0x8_0000 && saddr + b * BLOCK_SIZE < U32
    ensures AddressToBlock(saddr, saddr + b * BLOCK_SIZE) == b
  {
  }

  /** A request that finds a block claims something if and only if it is for at least one block:
      a request for 0 bytes, or for more than 2^32 - 4096, hands out memory that stays free. */
  lemma MallocClaimsIff(t: seq<Entry>, size: Word)
    requires 0 <= StartBlock(t, Blocks(size)) < |t|
    ensures Step(t, Malloc(size)) != t <==> Blocks(size) != 0
  {
    var n, s := Blocks(size), StartBlock(t, Blocks(size));
    var u := MarkTaken(t, s, n);
    if n == 0 {
      assert u == t;
    } else {
      ScanFitsIff(t, n);
      RunEntryBits(0, n);
      assert u[s] == RunEntry(s - s, n) && IsFree(t[s]) by {
        if !HasRun(t, n) { assert FreeRun(t, TailStart(t), |t| - TailStart(t)); }
      }
    }
  }

  // ---------------------------------------------------------------- whole runs

  datatype Op = Malloc(size: Word) | Free(block: nat)

  /** A client's side of the bargain: ask for at least one block when a run exists or the last
      block is taken, and free only what is live. */
  ghost predicate Permitted(t: seq<Entry>, live: Live, op: Op) {
    match op
    case Malloc(size) => 0 < Blocks(size) && (HasRun(t, Blocks(size)) || StartBlock(t, Blocks(size)) < 0)
    case Free(b) => b in live
  }

  ghost function Step(t: seq<Entry>, op: Op): (u: seq<Entry>) {
    match op
    case Malloc(size) =>
      var n, s := Blocks(size), StartBlock(t, Blocks(size));
      if s < 0 then t else MarkTaken(t, s, n)
    case Free(b) => MarkFree(t, b)
  }

  /** The same step of an allocator that only keeps the map of live blocks. */
  ghost function LiveStep(t: seq<Entry>, live: Live, op: Op): Live {
    match op
    case Malloc(size) =>
      var n, s := Blocks(size), StartBlock(t, Blocks(size));
      if s < 0 then live else live[s := n]
    case Free(b) => live - {b}
  }

  ghost function Run(t: seq<Entry>, ops: seq<Op>): seq<Entry>
    decreases |ops|
  {
    if ops == [] then t else Run(Step(t, ops[0]), ops[1..])
  }

  ghost function LiveRun(t: seq<Entry>, live: Live, ops: seq<Op>): Live
    decreases |ops|
  {
    if ops == [] then live else LiveRun(Step(t, ops[0]), LiveStep(t, live, ops[0]), ops[1..])
  }

  ghost predicate AllPermitted(t: seq<Entry>, live: Live, ops: seq<Op>)
    decreases |ops|
  {
    ops == [] ||
    (Permitted(t, live, ops[0]) && AllPermitted(Step(t, ops[0]), LiveStep(t, live, ops[0]), ops[1..]))
  }

  lemma StepRepresents(t: seq<Entry>, live: Live, op: Op)
    requires Represents(t, live) && Permitted(t, live, op)
    ensures Represents(Step(t, op), LiveStep(t, live, op))
  {
    match op
    case Malloc(size) =>
      var n := Blocks(size);
      if 0 <= StartBlock(t, n) {
        ScanFitsIff(t, n);
        MarkTakenRepresents(t, live, StartBlock(t, n), n);
      }
    case Free(b) => MarkFreeRepresents(t, live, b);
  }

  /** In every run of permitted calls the bytes stay in step with the map of live allocations. */
  lemma {:induction false} RunRepresents(t: seq<Entry>, live: Live, ops: seq<Op>)
    requires Represents(t, live) && AllPermitted(t, live, ops)
    ensures Represents(Run(t, ops), LiveRun(t, live, ops))
    decreases |ops|
  {
    if ops != [] {
      StepRepresents(t, live, ops[0]);
      RunRepresents(Step(t, ops[0]), LiveStep(t, live, ops[0]), ops[1..]);
    }
  }
}
