/**
 Sequences of paging calls against flat maps.  Any number of address spaces that share no page are
 changed by any sequence of paging_set and paging_map_to calls; each of them is seen as a flat
 function from its 2^20 virtual pages to entries, and that is all there is to see.
 */
module PagingRuns {
  import opened Machine
  import opened PageTables
  import opened Paging

  type Flags = f: nat | f < 4096

  /** A call on the directory at page d, with the arguments of the source. */
  datatype Call =
    | Set(d: nat, virt: Word, val: Word)
    | MapTo(d: nat, virt: Word, phys: Word, physEnd: Word, flags: Flags)

  /** What the call makes of page q of address space e, which held `before`. */
  function Flat(c: Call, e: nat, q: nat, before: Word): Word
    requires q < PAGES
  {
    if c.d != e then before
    else match c
         case Set(_, virt, val) => if IsAligned(virt) && q == virt / 4096 then val else before
         case MapTo(_, virt, phys, physEnd, flags) =>
           if BadRange(virt, phys, physEnd) || (physEnd - phys) / 4096 <= Ahead(virt / 4096, q) then before
           else EntryOf(Shift(phys / 4096, Ahead(virt / 4096, q)), flags)
  }

  ghost predicate Apart(m: Memory, d: nat, e: nat)
    requires GoodDirectory(m, d) && GoodDirectory(m, e)
  {
    !IsTableOf(m, d, e) && forall i: nat | i < ENTRIES :: !IsTableOf(m, d, TablePage(m, e, i))
  }

  /** Address spaces that share no page. */
  ghost predicate Separate(m: Memory, spaces: set<nat>) {
    && (forall d <- spaces :: GoodDirectory(m, d))
    && (forall d, e | d in spaces && e in spaces && d != e :: Apart(m, d, e))
  }

  ghost function Step(m: Memory, c: Call): Memory
    requires GoodDirectory(m, c.d)
  {
    match c
    case Set(d, virt, val) => if IsAligned(virt) then SetPte(m, d, virt / 4096, val) else m
    case MapTo(d, virt, phys, physEnd, flags) =>
      if BadRange(virt, phys, physEnd) then m
      else MapPages(m, d, virt / 4096, phys / 4096, (physEnd - phys) / 4096, flags)
  }

  /** One call writes only tables of its own directory, and is its flat step there. */
  lemma StepOwn(m: Memory, c: Call)
    requires GoodDirectory(m, c.d)
    ensures var n := Step(m, c);
      && OnlyTables(m, n, c.d) && SameTables(m, n, c.d)
      && forall q: nat | q < PAGES :: Pte(n, c.d, q) == Flat(c, c.d, q, Pte(m, c.d, q))
  {
    hide GoodDirectory, Pte;
    match c
    case Set(d, virt, val) =>
      if IsAligned(virt) {
        SetPteEffect(m, d, virt / 4096, val);
      }
    case MapTo(d, virt, phys, physEnd, flags) =>
      if !BadRange(virt, phys, physEnd) {
        var v, p, count := virt / 4096, phys / 4096, (physEnd - phys) / 4096;
        MapPagesEffect(m, d, v, p, count, flags);
        forall q: nat | q < PAGES ensures Pte(Step(m, c), d, q) == Flat(c, d, q, Pte(m, d, q)) {
          assert Pte(Step(m, c), d, q) == MappedPte(m, d, v, p, count, flags, q);
        }
      }
  }

  lemma ApartStays(m: Memory, n: Memory, d: nat, e: nat)
    requires GoodDirectory(m, d) && GoodDirectory(m, e) && Apart(m, d, e)
    requires GoodDirectory(n, d) && GoodDirectory(n, e)
    requires forall i: nat | i < ENTRIES :: TablePage(n, d, i) == TablePage(m, d, i)
    requires forall i: nat | i < ENTRIES :: TablePage(n, e, i) == TablePage(m, e, i)
    ensures Apart(n, d, e)
  {
  }

  /** One call keeps the spaces separate, and every space sees its flat step: none but the one called. */
  lemma StepEffect(m: Memory, spaces: set<nat>, c: Call)
    requires Separate(m, spaces) && c.d in spaces
    ensures Separate(Step(m, c), spaces)
    ensures forall e: nat, i: nat | e in spaces && i < ENTRIES :: TablePage(Step(m, c), e, i) == TablePage(m, e, i)
    ensures forall e: nat, q: nat | e in spaces && q < PAGES :: Pte(Step(m, c), e, q) == Flat(c, e, q, Pte(m, e, q))
  {
    hide OnlyTables, Pte, Flat, Step, Apart;
    var n := Step(m, c);
    StepOwn(m, c);
    forall e | e in spaces
      ensures GoodDirectory(n, e) && forall i: nat | i < ENTRIES :: TablePage(n, e, i) == TablePage(m, e, i)
      ensures forall q: nat | q < PAGES :: Pte(n, e, q) == Flat(c, e, q, Pte(m, e, q))
    {
      if e != c.d {
        OtherKept(m, n, c, e);
      }
    }
    forall d, e | d in spaces && e in spaces && d != e ensures Apart(n, d, e) {
      ApartStays(m, n, d, e);
    }
  }

  lemma OtherKept(m: Memory, n: Memory, c: Call, e: nat)
    requires GoodDirectory(m, c.d) && GoodDirectory(m, e) && OnlyTables(m, n, c.d) && Apart(m, c.d, e) && e != c.d
    ensures GoodDirectory(n, e) && forall i: nat | i < ENTRIES :: TablePage(n, e, i) == TablePage(m, e, i)
    ensures forall q: nat | q < PAGES :: Pte(n, e, q) == Flat(c, e, q, Pte(m, e, q))
  {
    OtherDirectoryUnchanged(m, n, c.d, e);
    SameDirectory(m, n, e);
  }

  // ---------------------------------------------------------------- sequences

  predicate CallsOn(spaces: set<nat>, calls: seq<Call>) {
    forall c <- calls :: c.d in spaces
  }

  ghost function Run(m: Memory, spaces: set<nat>, calls: seq<Call>): Memory
    requires Separate(m, spaces) && CallsOn(spaces, calls)
    decreases |calls|
  {
    if calls == [] then m
    else
      StepEffect(m, spaces, calls[0]);
      Run(Step(m, calls[0]), spaces, calls[1..])
  }

  /** The same calls on a flat map. */
  function FlatRun(calls: seq<Call>, e: nat, q: nat, before: Word): Word
    requires q < PAGES
    decreases |calls|
  {
    if calls == [] then before else FlatRun(calls[1..], e, q, Flat(calls[0], e, q, before))
  }

  /** After any sequence of calls, every page of every address space holds what its flat map holds. */
  lemma {:induction false} RunIsFlat(m: Memory, spaces: set<nat>, calls: seq<Call>, e: nat, q: nat)
    requires Separate(m, spaces) && CallsOn(spaces, calls) && e in spaces && q < PAGES
    ensures Separate(Run(m, spaces, calls), spaces)
    ensures forall i: nat | i < ENTRIES :: TablePage(Run(m, spaces, calls), e, i) == TablePage(m, e, i)
    ensures Pte(Run(m, spaces, calls), e, q) == FlatRun(calls, e, q, Pte(m, e, q))
    decreases |calls|
  {
    hide Pte, Flat, Step, GoodDirectory, Apart;
    if calls != [] {
      StepEffect(m, spaces, calls[0]);
      RunIsFlat(Step(m, calls[0]), spaces, calls[1..], e, q);
    }
  }

  /** And that is what paging_get finds, for tables below 2^28. */
  lemma GetAfterRun(m: Memory, spaces: set<nat>, calls: seq<Call>, e: nat, q: nat)
    requires Separate(m, spaces) && CallsOn(spaces, calls) && e in spaces && q < PAGES
    requires TablePage(m, e, q / 1024) < 0x1_0000
    ensures GoodDirectory(Run(m, spaces, calls), e)
    ensures NarrowPte(Run(m, spaces, calls), e, q) == FlatRun(calls, e, q, Pte(m, e, q))
  {
    hide Pte, NarrowPte, Run, FlatRun, Apart;
    RunIsFlat(m, spaces, calls, e, q);
    GetReadsSet(Run(m, spaces, calls), e, q, 0);
  }
}
