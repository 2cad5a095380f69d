/** The extent of a loaded ELF image, worked out from its program headers. */
module ElfLoader {
  import opened Machine

  const PT_LOAD: Word := 1

  /** The fields of a program header that the loader or the mapping uses. */
  datatype Phdr = Phdr(kind: Word, offset: Word, vaddr: Word, filesz: Word, memsz: Word, flags: Word)

  /** The addresses the loader keeps; zero stands for not known yet. */
  datatype Extent = Extent(virtualBase: Word, virtualEnd: Word, physicalBase: Word, physicalEnd: Word)

  function EndOf(h: Phdr): Word {
    (h.vaddr + h.filesz) % U32
  }

  /** elf_phdr_phys_address: where a segment's bytes are in the image in memory. */
  function Phys(memory: Word, h: Phdr): Word {
    (memory + h.offset) % U32
  }

  function PhysicalEndOf(memory: Word, h: Phdr): Word {
    (memory + h.offset + h.filesz) % U32
  }

  /** elf_process_phdr_pt_load, on values. */
  function Widened(memory: Word, x: Extent, h: Phdr): Extent {
    var low := if x.virtualBase >= h.vaddr || x.virtualBase == 0
               then x.(virtualBase := h.vaddr, physicalBase := Phys(memory, h)) else x;
    if x.virtualEnd <= EndOf(h) || x.virtualEnd == 0
    then low.(virtualEnd := EndOf(h), physicalEnd := PhysicalEndOf(memory, h)) else low
  }

  /** The extent after all headers, of which only loadable ones count. */
  function ExtentOf(memory: Word, headers: seq<Phdr>): Extent {
    if headers == [] then Extent(0, 0, 0, 0)
    else
      var last, x := headers[|headers| - 1], ExtentOf(memory, headers[..|headers| - 1]);
      if last.kind == PT_LOAD then Widened(memory, x, last) else x
  }

  class ElfFile {
    const memory: Word
    var virtualBase: Word
    var virtualEnd: Word
    var physicalBase: Word
    var physicalEnd: Word

    function State(): Extent
      reads this
    {
      Extent(virtualBase, virtualEnd, physicalBase, physicalEnd)
    }

    constructor (memory: Word)
      ensures this.memory == memory && State() == Extent(0, 0, 0, 0)
    {
      this.memory := memory;
      virtualBase, virtualEnd, physicalBase, physicalEnd := 0, 0, 0, 0;
    }

    /** elf_process_phdr_pt_load. */
    method ProcessLoad(h: Phdr)
      modifies this
      ensures State() == Widened(memory, old(State()), h)
    {
      if virtualBase >= h.vaddr || virtualBase == 0 {
        virtualBase := h.vaddr;
        physicalBase := (memory + h.offset) % U32;
      }
      var end := (h.vaddr + h.filesz) % U32;
      if virtualEnd <= end || virtualEnd == 0 {
        virtualEnd := end;
        physicalEnd := (memory + h.offset + h.filesz) % U32;
      }
    }

    /** elf_process_pheaders, of a file just made. */
    method ProcessHeaders(headers: seq<Phdr>)
      requires State() == Extent(0, 0, 0, 0)
      modifies this
      ensures State() == ExtentOf(memory, headers)
    {
      hide Widened;
      var i := 0;
      while i < |headers|
        invariant 0 <= i <= |headers| && State() == ExtentOf(memory, headers[..i])
      {
        assert headers[..i + 1][..i] == headers[..i];
        if headers[i].kind == PT_LOAD {
          ProcessLoad(headers[i]);
        }
        i := i + 1;
      }
      assert headers[..|headers|] == headers;
    }
  }

  // ---------------------------------------------------------------- what the extent is

  predicate Loads(headers: seq<Phdr>, i: nat) {
    i < |headers| && headers[i].kind == PT_LOAD
  }

  predicate NoneLoads(headers: seq<Phdr>) {
    forall i: nat | i < |headers| :: !Loads(headers, i)
  }

  lemma {:induction false} GreatestEnd(memory: Word, headers: seq<Phdr>) returns (k: nat)
    ensures var x := ExtentOf(memory, headers);
            if NoneLoads(headers) then x.virtualEnd == x.physicalEnd == 0
            else
              && Loads(headers, k) && EndOf(headers[k]) == x.virtualEnd
              && PhysicalEndOf(memory, headers[k]) == x.physicalEnd
              && (forall i: nat | Loads(headers, i) :: EndOf(headers[i]) <= x.virtualEnd)
              && (forall i: nat | k < i && Loads(headers, i) :: EndOf(headers[i]) < x.virtualEnd)
  {
    hide PhysicalEndOf, Phys, EndOf;
    k := 0;
    if headers != [] {
      var n := |headers| - 1;
      var init, x := headers[..n], ExtentOf(memory, headers[..n]);
      var before := GreatestEnd(memory, init);
      forall i: nat | i < n ensures Loads(headers, i) <==> Loads(init, i) {
      }
      k := if Loads(headers, n) && x.virtualEnd <= EndOf(headers[n]) then n else before;
    }
  }

  /** The end is the greatest end of a loadable segment, p_vaddr + p_filesz, and the physical end belongs to the
      last segment that has it. */
  lemma EndIsGreatest(memory: Word, headers: seq<Phdr>) returns (k: nat)
    ensures var x := ExtentOf(memory, headers);
            if NoneLoads(headers) then x.virtualEnd == x.physicalEnd == 0
            else
              && Loads(headers, k) && (headers[k].vaddr + headers[k].filesz) % U32 == x.virtualEnd
              && (memory + headers[k].offset + headers[k].filesz) % U32 == x.physicalEnd
              && (forall i: nat | Loads(headers, i) :: (headers[i].vaddr + headers[i].filesz) % U32 <= x.virtualEnd)
              && (forall i: nat | k < i && Loads(headers, i) ::
                    (headers[i].vaddr + headers[i].filesz) % U32 < x.virtualEnd)
  {
    hide ExtentOf;
    k := GreatestEnd(memory, headers);
  }

  /** Of segments with no virtual address zero, the base is the least address, and the physical base
      belongs to the last segment that has it. */
  lemma {:induction false} BaseIsLeast(memory: Word, headers: seq<Phdr>) returns (k: nat)
    requires forall i: nat | Loads(headers, i) :: headers[i].vaddr != 0
    ensures var x := ExtentOf(memory, headers);
            if NoneLoads(headers) then x.virtualBase == x.physicalBase == 0
            else
              && Loads(headers, k) && headers[k].vaddr == x.virtualBase
              && (memory + headers[k].offset) % U32 == x.physicalBase
              && (forall i: nat | Loads(headers, i) :: x.virtualBase <= headers[i].vaddr)
              && (forall i: nat | k < i && Loads(headers, i) :: x.virtualBase < headers[i].vaddr)
  {
    hide PhysicalEndOf, EndOf;
    k := 0;
    if headers != [] {
      var n := |headers| - 1;
      var init, x := headers[..n], ExtentOf(memory, headers[..n]);
      forall i: nat | i < n ensures Loads(headers, i) <==> Loads(init, i) {
      }
      var before := BaseIsLeast(memory, init);
      k := if Loads(headers, n) && (x.virtualBase >= headers[n].vaddr || x.virtualBase == 0) then n else before;
    }
  }

  /** The last loadable segment. */
  predicate IsLast(headers: seq<Phdr>, k: nat) {
    Loads(headers, k) && forall i: nat | k < i < |headers| :: !Loads(headers, i)
  }

  /** A segment at virtual address zero makes the loader forget the base, so that the base is zero
      only if such a segment comes last. */
  lemma {:induction false} BaseIsZeroIff(memory: Word, headers: seq<Phdr>, k: nat)
    requires IsLast(headers, k)
    ensures ExtentOf(memory, headers).virtualBase == 0 <==> headers[k].vaddr == 0
    decreases |headers|
  {
    hide PhysicalEndOf, Phys, EndOf;
    var n := |headers| - 1;
    var init := headers[..n];
    if k < n {
      forall i: nat | i < n ensures Loads(headers, i) <==> Loads(init, i) {
      }
      assert !Loads(headers, n);
      BaseIsZeroIff(memory, init, k);
    }
  }

  /** So the base is the least address of a loadable segment if and only if none of them is zero, or
      the last one is. */
  lemma BaseIsLeastIff(memory: Word, headers: seq<Phdr>, k: nat)
    requires IsLast(headers, k)
    ensures (forall i: nat | Loads(headers, i) :: ExtentOf(memory, headers).virtualBase <= headers[i].vaddr)
       <==> (forall i: nat | Loads(headers, i) :: headers[i].vaddr != 0) || headers[k].vaddr == 0
  {
    hide ExtentOf;
    BaseIsZeroIff(memory, headers, k);
    if forall i: nat | Loads(headers, i) :: headers[i].vaddr != 0 {
      var _ := BaseIsLeast(memory, headers);
    }
  }

  /** Three loadable segments, the second at address zero: the base is that of the third. */
  lemma BaseForgotten()
    ensures var at := (a: Word) => Phdr(1, 0, a, 0x1000, 0x1000, 5);
            ExtentOf(0x100_0000, [at(0x40_0000), at(0), at(0x40_1000)]).virtualBase == 0x40_1000
  {
    var at := (a: Word) => Phdr(1, 0, a, 0x1000, 0x1000, 5);
    var headers := [at(0x40_0000), at(0), at(0x40_1000)];
    assert headers[..2] == [at(0x40_0000), at(0)];
    assert [at(0x40_0000), at(0)][..1] == [at(0x40_0000)];
    assert [at(0x40_0000)][..0] == [];
    assert ExtentOf(0x100_0000, [at(0x40_0000)]).virtualBase == 0x40_0000;
    assert ExtentOf(0x100_0000, [at(0x40_0000), at(0)]).virtualBase == 0;
  }
}
