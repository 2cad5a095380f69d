/** Cluster chains through the FAT, and what a file read delivers, as values. */
module FatChain {
  import opened Machine
  import opened Bytes
  import opened DiskStream
  import opened FatLayout

  datatype Volume = Volume(disk: Disk, header: Header) {
    predicate Valid() {
      header.Valid()
    }

    function ClusterBytes(): (n: nat)
      requires Valid()
      ensures 0 < n
    {
      header.ClusterBytes()
    }

    /** First byte of a cluster on the disk; for a cluster before the start of the disk, 0. */
    function Pos(cluster: nat): nat {
      if header.ClusterSector(cluster) < 0 then 0 else header.ClusterSector(cluster) * SECTOR_SIZE
    }

    /** The 16-bit little-endian FAT entry of a cluster. */
    function Entry(cluster: nat): (e: nat)
      ensures e < 0x1_0000
    {
      Pair(ByteAt(disk, header.EntryPos(cluster)), ByteAt(disk, header.EntryPos(cluster) + 1))
    }
  }

  /** The entry of a cluster is the pair of bytes at its place in the first FAT, low byte first. */
  lemma EntryIs(v: Volume, cluster: nat)
    ensures var pos := 512 * v.header.reservedSectors + 2 * cluster;
            v.Entry(cluster) % 0x100 == ByteAt(v.disk, pos) && v.Entry(cluster) / 0x100 == ByteAt(v.disk, pos + 1)
  {
    hide ByteAt;
    assert v.header.EntryPos(cluster) == 512 * v.header.reservedSectors + 2 * cluster;
    PairIs(ByteAt(v.disk, v.header.EntryPos(cluster)), ByteAt(v.disk, v.header.EntryPos(cluster) + 1));
  }

  /** Clusters lie one behind the other, each as long as its sectors, and where the standard puts them. */
  lemma ClustersTile(v: Volume, c: nat)
    requires v.Valid() && v.header.bytesPerSector == 512 && 0 <= v.header.ClusterSector(c)
    ensures v.Pos(c) == v.header.StandardClusterByte(c) && v.ClusterBytes() == 512 * v.header.sectorsPerCluster
    ensures v.Pos(c + 1) == v.Pos(c) + v.ClusterBytes()
  {
    var h := v.header;
    assert h.StandardRootSectors() == h.RootSectors();
    assert (c + 1 - 2) * h.sectorsPerCluster == (c - 2) * h.sectorsPerCluster + h.sectorsPerCluster;
    assert h.ClusterSector(c + 1) == h.ClusterSector(c) + h.sectorsPerCluster;
  }

  /** The entry values at which the code gives up. */
  predicate Stops(entry: nat) {
    entry in {0xFFF8, 0xFFFF, 0xFF7, 0xFF0, 0xFF6, 0x00}
  }

  function Next(v: Volume, cluster: nat): Option<nat> {
    if Stops(v.Entry(cluster)) then None else Some(v.Entry(cluster))
  }

  /** Cluster number k of the chain that starts with `start`, if the chain gets that far. */
  function Chain(v: Volume, start: nat, k: nat): Option<nat> {
    if k == 0 then Some(start)
    else match Chain(v, start, k - 1)
         case None => None
         case Some(c) => Next(v, c)
  }

  /** The first n clusters of the chain, as far as they exist, are on the disk. */
  ghost predicate OnDisk(v: Volume, start: nat, n: nat) {
    forall k: nat | k < n && Chain(v, start, k).Some? :: 0 <= v.header.ClusterSector(Chain(v, start, k).value)
  }

  lemma {:induction false} ChainSplit(v: Volume, start: nat, a: nat, b: nat)
    ensures Chain(v, start, a + b) == match Chain(v, start, a) case None => None case Some(c) => Chain(v, c, b)
  {
    hide Next;
    if 0 < b {
      ChainSplit(v, start, a, b - 1);
    }
  }

  lemma ChainEnds(v: Volume, start: nat, a: nat, b: nat)
    requires a <= b && Chain(v, start, b).Some?
    ensures Chain(v, start, a).Some?
  {
    ChainSplit(v, start, a, b - a);
  }

  // ---------------------------------------------------------------- against the standard

  /** Where the standard ends a chain: at a free or bad cluster, or at any end-of-chain mark. */
  predicate StandardStops(entry: nat) {
    entry == 0 || entry == 0xFFF7 || 0xFFF8 <= entry
  }

  /** The bad-cluster mark, all end-of-chain marks but the first and the last, and the values at which
      only the code stops. */
  predicate Disputed(entry: nat) {
    entry == 0xFFF7 || 0xFFF9 <= entry <= 0xFFFE || entry in {0xFF0, 0xFF6, 0xFF7}
  }

  lemma StopsIff(entry: nat)
    requires entry < 0x1_0000
    ensures Stops(entry) == StandardStops(entry) <==> !Disputed(entry)
  {
  }

  /** Cluster number k of the chain as the standard defines it. */
  function StandardChain(v: Volume, start: nat, k: nat): Option<nat> {
    if k == 0 then Some(start)
    else match StandardChain(v, start, k - 1)
         case None => None
         case Some(c) => if StandardStops(v.Entry(c)) then None else Some(v.Entry(c))
  }

  predicate SameLink(v: Volume, start: nat, k: nat) {
    Chain(v, start, k) == StandardChain(v, start, k)
  }

  /** Both chains have cluster number k, the same one, and its entry is a disputed one. */
  predicate DisputedAt(v: Volume, start: nat, k: nat) {
    Chain(v, start, k).Some? && Chain(v, start, k) == StandardChain(v, start, k)
    && Disputed(v.Entry(Chain(v, start, k).value))
  }

  /** The code follows the standard's chain through its first n links exactly when it meets no disputed
      entry on the way. */
  lemma {:induction false} ChainIsStandardIff(v: Volume, start: nat, n: nat)
    ensures (forall k: nat | k <= n :: SameLink(v, start, k)) <==> (forall k: nat | k < n :: !DisputedAt(v, start, k))
  {
    hide SameLink, DisputedAt;
    FirstOfBoth(v, start);
    if 0 < n {
      ChainIsStandardIff(v, start, n - 1);
      if SameLink(v, start, n - 1) {
        OneLink(v, start, n - 1);
      }
    }
  }

  lemma FirstOfBoth(v: Volume, start: nat)
    ensures SameLink(v, start, 0)
  {
  }

  lemma OneLink(v: Volume, start: nat, k: nat)
    requires SameLink(v, start, k)
    ensures SameLink(v, start, k + 1) <==> !DisputedAt(v, start, k)
  {
    hide Stops, StandardStops, Disputed;
    if Chain(v, start, k).Some? {
      StopsIff(v.Entry(Chain(v, start, k).value));
    }
  }

  // ---------------------------------------------------------------- one linear walk

  datatype Fetched = Fetched(bytes: seq<Byte>, ok: bool)

  /** One walk along the chain from cluster c: up to a cluster's length at a time, always from the
      same place within the cluster. */
  function Walk(v: Volume, c: nat, within: nat, total: nat): (f: Fetched)
    requires v.Valid()
    ensures |f.bytes| <= total && (f.ok ==> |f.bytes| == total)
    decreases total
  {
    var n := if total > v.ClusterBytes() then v.ClusterBytes() else total;
    var piece := Slice(v.disk, v.Pos(c) + within, n);
    if total == n then Fetched(piece, true)
    else match Next(v, c)
         case None => Fetched(piece, false)
         case Some(d) => var rest := Walk(v, d, within, total - n); Fetched(piece + rest.bytes, rest.ok)
  }

  /** What a read of `total` bytes at `offset` of the file starting at `start` delivers. */
  function ReadAt(v: Volume, start: nat, offset: nat, total: nat): (f: Fetched)
    requires v.Valid()
    ensures |f.bytes| <= total && (f.ok ==> |f.bytes| == total)
  {
    match Chain(v, start, Quotient(offset, v.ClusterBytes()))
    case None => Fetched([], false)
    case Some(c) => Walk(v, c, Remainder(offset, v.ClusterBytes()), total)
  }

  /** How many clusters of the chain a read looks at. */
  function Touched(v: Volume, offset: nat, total: nat): nat
    requires v.Valid()
  {
    Quotient(offset, v.ClusterBytes()) + Last(total, v.ClusterBytes()) + 1
  }

  function Last(total: nat, d: nat): nat
    requires 0 < d
  {
    if total == 0 then 0 else Quotient(total - 1, d)
  }

  lemma StepDown(x: nat, d: nat)
    requires 0 < d
    ensures Quotient(x + d, d) == Quotient(x, d) + 1 && Remainder(x + d, d) == Remainder(x, d)
    ensures x < d ==> Quotient(x, d) == 0 && Remainder(x, d) == x
  {
    hide Quotient, Remainder;
    var q, r := Quotient(x, d), Remainder(x, d);
    Divided(x, d);
    assert x + d == (q + 1) * d + r;
    DivModIs(x + d, d, q + 1, r);
    if x < d {
      DivModIs(x, d, 0, x);
    }
  }

  lemma DivModIs(x: nat, d: nat, q: nat, r: nat)
    requires 0 < d && r < d && x == q * d + r
    ensures Quotient(x, d) == q && Remainder(x, d) == r
  {
    hide Quotient, Remainder;
    Divided(x, d);
    QuotientIs(x, d, q);
  }

  /** Re-walking the chain from its start for every further cluster refines the single walk. */
  lemma ReadAtStep(v: Volume, start: nat, offset: nat, total: nat)
    requires v.Valid() && v.ClusterBytes() < total && Chain(v, start, Quotient(offset, v.ClusterBytes())).Some?
    ensures var cb := v.ClusterBytes();
            var c := Chain(v, start, Quotient(offset, cb)).value;
            var rest := ReadAt(v, start, offset + cb, total - cb);
            ReadAt(v, start, offset, total) ==
              Fetched(Slice(v.disk, v.Pos(c) + Remainder(offset, cb), cb) + rest.bytes, rest.ok)
    ensures Touched(v, offset + v.ClusterBytes(), total - v.ClusterBytes()) == Touched(v, offset, total)
  {
    hide Quotient, Remainder, Next, Slice, Volume.Pos, Volume.ClusterBytes;
    var cb := v.ClusterBytes();
    StepDown(offset, cb);
    StepDown(total - cb - 1, cb);
    assert Chain(v, start, Quotient(offset, cb) + 1) == Next(v, Chain(v, start, Quotient(offset, cb)).value);
  }

  // ---------------------------------------------------------------- when a read succeeds, and what it reads

  lemma OneFurther(v: Volume, c: nat, k: nat)
    ensures Chain(v, c, k + 1) == match Next(v, c) case None => None case Some(d) => Chain(v, d, k)
  {
    hide Next;
    ChainSplit(v, c, 1, k);
    assert Chain(v, c, 0) == Some(c);
  }

  lemma {:induction false} WalkOk(v: Volume, c: nat, within: nat, total: nat)
    requires v.Valid()
    ensures Walk(v, c, within, total).ok <==> Chain(v, c, Last(total, v.ClusterBytes())).Some?
    decreases total
  {
    hide Quotient, Remainder, Slice, Next, Volume.Pos, Volume.ClusterBytes;
    var cb := v.ClusterBytes();
    if total > cb {
      StepDown(total - cb - 1, cb);
      OneFurther(v, c, Last(total - cb, cb));
      if Next(v, c).Some? {
        WalkOk(v, Next(v, c).value, within, total - cb);
      }
    } else if 0 < total {
      StepDown(total - 1, cb);
    }
  }

  /** A read succeeds exactly when the chain has the cluster of its last piece with no stop code
      on the way. */
  lemma ReadAtOkIff(v: Volume, start: nat, offset: nat, total: nat)
    requires v.Valid()
    ensures ReadAt(v, start, offset, total).ok <==> Chain(v, start, Touched(v, offset, total) - 1).Some?
  {
    hide Quotient, Remainder, Slice, Walk, Last, Volume.Pos, Volume.ClusterBytes;
    var q := Quotient(offset, v.ClusterBytes());
    ChainSplit(v, start, q, Last(total, v.ClusterBytes()));
    if Chain(v, start, q).Some? {
      WalkOk(v, Chain(v, start, q).value, Remainder(offset, v.ClusterBytes()), total);
    }
  }

  lemma {:induction false} WalkByte(v: Volume, c: nat, within: nat, total: nat, i: nat)
    requires v.Valid() && i < |Walk(v, c, within, total).bytes|
    ensures var cb := v.ClusterBytes();
            Chain(v, c, Quotient(i, cb)).Some?
            && Walk(v, c, within, total).bytes[i] ==
               ByteAt(v.disk, v.Pos(Chain(v, c, Quotient(i, cb)).value) + within + Remainder(i, cb))
    decreases total
  {
    hide Quotient, Remainder, ByteAt, Next, Volume.Pos, Volume.ClusterBytes;
    var cb := v.ClusterBytes();
    if i < cb {
      StepDown(i, cb);
    } else {
      StepDown(i - cb, cb);
      OneFurther(v, c, Quotient(i - cb, cb));
      WalkByte(v, Next(v, c).value, within, total - cb, i - cb);
    }
  }

  /** The disk address byte i of a read is taken from. */
  ghost function Source(v: Volume, start: nat, offset: nat, i: nat): Option<nat>
    requires v.Valid()
  {
    var cb := v.ClusterBytes();
    match Chain(v, start, Quotient(offset, cb) + Quotient(i, cb))
    case None => None
    case Some(c) => Some(v.Pos(c) + Remainder(offset, cb) + Remainder(i, cb))
  }

  /** Where byte k of the file is kept. */
  ghost function Home(v: Volume, start: nat, k: nat): Option<nat>
    requires v.Valid()
  {
    var cb := v.ClusterBytes();
    match Chain(v, start, Quotient(k, cb))
    case None => None
    case Some(c) => Some(v.Pos(c) + Remainder(k, cb))
  }

  lemma ReadAtByte(v: Volume, start: nat, offset: nat, total: nat, i: nat)
    requires v.Valid() && i < |ReadAt(v, start, offset, total).bytes|
    ensures Source(v, start, offset, i).Some?
    ensures ReadAt(v, start, offset, total).bytes[i] == ByteAt(v.disk, Source(v, start, offset, i).value)
  {
    hide Quotient, Remainder, ByteAt, Walk, Volume.Pos, Volume.ClusterBytes;
    var cb := v.ClusterBytes();
    var q := Quotient(offset, cb);
    var c := Chain(v, start, q).value;
    WalkByte(v, c, Remainder(offset, cb), total, i);
    ChainSplit(v, start, q, Quotient(i, cb));
  }

  // ---------------------------------------------------------------- the file's own bytes

  /** The first n clusters of the chain, one after the other. */
  function Contents(v: Volume, start: nat, n: nat): (bytes: seq<Byte>)
    requires v.Valid() && (0 < n ==> Chain(v, start, n - 1).Some?)
    ensures |bytes| == n * v.ClusterBytes()
  {
    if n == 0 then []
    else
      ChainBefore(v, start, n);
      Contents(v, start, n - 1) + Slice(v.disk, v.Pos(Chain(v, start, n - 1).value), v.ClusterBytes())
  }

  lemma ChainBefore(v: Volume, start: nat, n: nat)
    requires 0 < n && Chain(v, start, n - 1).Some?
    ensures 1 < n ==> Chain(v, start, n - 2).Some?
  {
  }

  lemma {:induction false} ContentsByte(v: Volume, start: nat, n: nat, k: nat)
    requires v.Valid() && 0 < n && Chain(v, start, n - 1).Some? && k < n * v.ClusterBytes()
    ensures Home(v, start, k).Some? && Contents(v, start, n)[k] == ByteAt(v.disk, Home(v, start, k).value)
  {
    hide Quotient, Remainder, ByteAt, Volume.Pos, Volume.ClusterBytes;
    var cb := v.ClusterBytes();
    ChainBefore(v, start, n);
    if k < (n - 1) * cb {
      ContentsByte(v, start, n - 1, k);
    } else {
      DivModIs(k, cb, n - 1, k - (n - 1) * cb);
    }
  }

  /** A read that starts on a cluster boundary, or that stays within one cluster. */
  predicate WholeOrWithin(v: Volume, offset: nat, total: nat)
    requires v.Valid()
  {
    Remainder(offset, v.ClusterBytes()) == 0 || Remainder(offset, v.ClusterBytes()) + total <= v.ClusterBytes()
  }

  lemma SourceIsHome(v: Volume, start: nat, offset: nat, i: nat)
    requires v.Valid() && Remainder(offset, v.ClusterBytes()) + Remainder(i, v.ClusterBytes()) < v.ClusterBytes()
    ensures Source(v, start, offset, i) == Home(v, start, offset + i)
    ensures Quotient(offset + i, v.ClusterBytes()) == Quotient(offset, v.ClusterBytes()) + Quotient(i, v.ClusterBytes())
  {
    hide Quotient, Remainder, Chain, Volume.Pos, Volume.ClusterBytes;
    var cb := v.ClusterBytes();
    Divided(offset, cb);
    Divided(i, cb);
    DivModIs(offset + i, cb, Quotient(offset, cb) + Quotient(i, cb), Remainder(offset, cb) + Remainder(i, cb));
  }

  /** The last cluster a read of that kind looks at is the one that holds its last byte. */
  lemma TouchedIs(v: Volume, offset: nat, total: nat)
    requires v.Valid() && 0 < total && WholeOrWithin(v, offset, total)
    ensures Touched(v, offset, total) - 1 == Quotient(offset + total - 1, v.ClusterBytes())
    ensures offset + total <= Touched(v, offset, total) * v.ClusterBytes()
  {
    hide Quotient, Remainder, Volume.ClusterBytes;
    var cb := v.ClusterBytes();
    if Remainder(offset, cb) != 0 {
      StepDown(total - 1, cb);
    }
    SourceIsHome(v, 0, offset, total - 1);
    BelowNext(offset + total - 1, cb);
  }

  lemma BelowNext(x: nat, d: nat)
    requires 0 < d
    ensures x < (Quotient(x, d) + 1) * d
  {
    hide Quotient, Remainder;
    Divided(x, d);
  }

  /** Such a read of bytes the first n clusters hold delivers them. */
  lemma ReadWithin(v: Volume, start: nat, offset: nat, total: nat, n: nat)
    requires v.Valid() && 0 < total && WholeOrWithin(v, offset, total) && 0 < n && Chain(v, start, n - 1).Some?
    requires offset + total <= n * v.ClusterBytes()
    ensures ReadAt(v, start, offset, total).ok
    ensures ReadAt(v, start, offset, total).bytes == Contents(v, start, n)[offset..offset + total]
  {
    hide Quotient, Remainder, ByteAt, Contents, ReadAt, Chain, Touched, Volume.ClusterBytes, Source, Home;
    var cb := v.ClusterBytes();
    TouchedIs(v, offset, total);
    Divided(offset + total - 1, cb);
    Monotone(n, Quotient(offset + total - 1, cb), cb);
    ChainEnds(v, start, Quotient(offset + total - 1, cb), n - 1);
    ReadAtOkIff(v, start, offset, total);
    var got, all := ReadAt(v, start, offset, total).bytes, Contents(v, start, n);
    forall i: nat | i < total ensures got[i] == all[offset + i] {
      WithinCluster(v, offset, total, i);
      ReadAtByte(v, start, offset, total, i);
      SourceIsHome(v, start, offset, i);
      ContentsByte(v, start, n, offset + i);
    }
    assert got == all[offset..offset + total];
  }

  /**
   For every disk: a read of at least one byte that starts on a cluster boundary or stays within one
   cluster succeeds exactly when the chain reaches the cluster of its last byte, and then delivers
   bytes [offset, offset + total) of the clusters put together in chain order.
   */
  lemma ReadIsSlice(v: Volume, start: nat, offset: nat, total: nat)
    requires v.Valid() && 0 < total && WholeOrWithin(v, offset, total)
    ensures var n := Quotient(offset + total - 1, v.ClusterBytes()) + 1;
            (ReadAt(v, start, offset, total).ok <==> Chain(v, start, n - 1).Some?)
            && (Chain(v, start, n - 1).Some? ==>
                  offset + total <= |Contents(v, start, n)|
                  && ReadAt(v, start, offset, total).bytes == Contents(v, start, n)[offset..offset + total])
  {
    hide Quotient, Remainder, ByteAt, Contents, ReadAt, Chain, Touched, Volume.ClusterBytes, WholeOrWithin;
    TouchedIs(v, offset, total);
    ReadAtOkIff(v, start, offset, total);
    var n := Touched(v, offset, total);
    if Chain(v, start, n - 1).Some? {
      ReadWithin(v, start, offset, total, n);
    }
  }

  lemma WithinCluster(v: Volume, offset: nat, total: nat, i: nat)
    requires v.Valid() && WholeOrWithin(v, offset, total) && i < total
    ensures Remainder(offset, v.ClusterBytes()) + Remainder(i, v.ClusterBytes()) < v.ClusterBytes()
  {
    hide Quotient, Remainder, Volume.ClusterBytes;
    if Remainder(offset, v.ClusterBytes()) != 0 {
      StepDown(i, v.ClusterBytes());
    }
  }

  // ---------------------------------------------------------------- every other read

  /** Piece k of a read runs over the end of its cluster. */
  predicate Spills(v: Volume, offset: nat, total: nat, k: nat)
    requires v.Valid()
  {
    var cb, w := v.ClusterBytes(), Remainder(offset, v.ClusterBytes());
    0 < w && k * cb + (cb - w) < total
  }

  /** The cluster after piece k of a read is the next one on the disk. */
  predicate Neighbours(v: Volume, start: nat, offset: nat, k: nat)
    requires v.Valid()
  {
    var j := Quotient(offset, v.ClusterBytes()) + k;
    && Chain(v, start, j).Some? && Chain(v, start, j + 1).Some?
    && Chain(v, start, j + 1).value == Chain(v, start, j).value + 1
  }

  lemma Positive(t: int, s: nat)
    requires 0 < s
    ensures 0 < t ==> 0 < t * s
  {
  }

  lemma Scaled(x: int, y: int, s: nat)
    requires 0 < s
    ensures y * s == x * s + s <==> y == x + 1
  {
    var t := y - x - 1;
    assert t * s == y * s - x * s - s by { assert y == t + (x + 1); }
    Positive(t, s);
    Positive(-t, s);
  }

  lemma PosStep(v: Volume, c: nat, d: nat)
    requires v.Valid() && 0 <= v.header.ClusterSector(c) && 0 <= v.header.ClusterSector(d)
    ensures v.Pos(d) == v.Pos(c) + v.ClusterBytes() <==> d == c + 1
  {
    hide Header.DataStart;
    Scaled(c - 2, d - 2, v.header.sectorsPerCluster);
  }

  lemma SpilledByte(v: Volume, start: nat, offset: nat, total: nat, i: nat)
    requires v.Valid() && i < total && OnDisk(v, start, Touched(v, offset, total) + 1)
    requires v.ClusterBytes() <= Remainder(offset, v.ClusterBytes()) + Remainder(i, v.ClusterBytes())
    requires Source(v, start, offset, i).Some?
    ensures var k := Quotient(i, v.ClusterBytes());
            Spills(v, offset, total, k)
            && (Source(v, start, offset, i) == Home(v, start, offset + i) <==> Neighbours(v, start, offset, k))
  {
    hide Quotient, Remainder, Chain, Volume.Pos, Volume.ClusterBytes;
    var cb, w := v.ClusterBytes(), Remainder(offset, v.ClusterBytes());
    var k, r := Quotient(i, v.ClusterBytes()), Remainder(i, v.ClusterBytes());
    Divided(offset, cb);
    Divided(i, cb);
    DivModIs(offset + i, cb, Quotient(offset, cb) + k + 1, w + r - cb);
    QuotientMonotone(i, total - 1, cb);
    var j := Quotient(offset, cb) + k;
    if Chain(v, start, j + 1).Some? {
      PosStep(v, Chain(v, start, j).value, Chain(v, start, j + 1).value);
    }
  }

  lemma QuotientMonotone(x: nat, y: nat, d: nat)
    requires 0 < d && x <= y
    ensures Quotient(x, d) <= Quotient(y, d)
  {
    hide Quotient, Remainder;
    Divided(x, d);
    Divided(y, d);
    Monotone(Quotient(y, d) + 1, Quotient(x, d), d);
  }

  /**
   Any successful read takes all its bytes from where the file keeps them if and only if every piece
   that runs over the end of its cluster runs into the next cluster of the chain.
   */
  lemma ReadsHomeIff(v: Volume, start: nat, offset: nat, total: nat)
    requires v.Valid() && ReadAt(v, start, offset, total).ok && OnDisk(v, start, Touched(v, offset, total) + 1)
    ensures (forall i: nat | i < total :: Source(v, start, offset, i) == Home(v, start, offset + i))
       <==> (forall k: nat | Spills(v, offset, total, k) :: Neighbours(v, start, offset, k))
  {
    hide Quotient, Remainder, Chain, ReadAt, Source, Home, Neighbours, Touched, OnDisk, Volume.Pos, Volume.ClusterBytes;
    var cb, w := v.ClusterBytes(), Remainder(offset, v.ClusterBytes());
    forall i: nat | i < total
      ensures Source(v, start, offset, i).Some?
      ensures w + Remainder(i, cb) < cb ==> Source(v, start, offset, i) == Home(v, start, offset + i)
      ensures w + Remainder(i, cb) >= cb ==> Spills(v, offset, total, Quotient(i, cb))
      ensures w + Remainder(i, cb) >= cb ==>
        (Source(v, start, offset, i) == Home(v, start, offset + i) <==> Neighbours(v, start, offset, Quotient(i, cb)))
    {
      ReadAtByte(v, start, offset, total, i);
      if w + Remainder(i, cb) < cb {
        SourceIsHome(v, start, offset, i);
      } else {
        SpilledByte(v, start, offset, total, i);
      }
    }
    forall k: nat | Spills(v, offset, total, k)
      ensures var i := k * cb + (cb - w); Quotient(i, cb) == k && Remainder(i, cb) == cb - w
    {
      DivModIs(k * cb + (cb - w), cb, k, cb - w);
    }
  }

  /** A volume of one-sector clusters whose file of clusters 2 and 4 leaves out cluster 3. */
  function GappedVolume(): Volume {
    var fat := ZeroBytes(512)[4 := 4];
    Volume((k: nat) => if k == 1 then fat else Filled(k % 256), Header(512, 1, 1, 1, 16, 1))
  }

  function Filled(b: Byte): Sector {
    seq<Byte>(512, _ => b)
  }

  /** Reading 512 bytes from offset 1 of that file succeeds, and ends with a byte of cluster 3. */
  lemma MisalignedReadIsWrong()
    ensures var v := GappedVolume();
            v.Valid() && Chain(v, 2, 1) == Some(4)
            && ReadAt(v, 2, 1, 512).ok && ReadAt(v, 2, 1, 512).bytes != Contents(v, 2, 2)[1..513]
  {
    var v := GappedVolume();
    assert v.ClusterBytes() == 512 && v.header.DataStart() == 3;
    assert v.Entry(2) == 4 by {
      assert v.header.EntryPos(2) == 516;
      assert ByteAt(v.disk, 516) == 4 && ByteAt(v.disk, 517) == 0;
    }
    assert Chain(v, 2, 0) == Some(2);
    assert Chain(v, 2, 1) == Some(4);
    ReadAtByte(v, 2, 1, 512, 511);
    assert Source(v, 2, 1, 511) == Some(2048) && ByteAt(v.disk, 2048) == 4;
    ContentsByte(v, 2, 2, 512);
    assert Home(v, 2, 512) == Some(2560) && ByteAt(v.disk, 2560) == 5;
  }

  function MarkedSector(k: nat): Sector {
    if k == 1 then ZeroBytes(512)[4 := 0xF9][5 := 0xFF] else Filled(0)
  }

  /** A volume whose cluster 2 carries the end-of-chain mark 0xFFF9. */
  function MarkedVolume(): Volume {
    Volume(MarkedSector, Header(512, 1, 1, 1, 16, 1))
  }

  /** By the standard the file that starts there is one cluster long; the code goes on to cluster 0xFFF9. */
  lemma EndMarkIsFollowed()
    ensures var v := MarkedVolume();
            v.Valid() && StandardChain(v, 2, 1) == None && Chain(v, 2, 1) == Some(0xFFF9)
  {
    var v := MarkedVolume();
    assert v.header.EntryPos(2) == 516;
    assert ByteAt(v.disk, 516) == 0xF9 && ByteAt(v.disk, 517) == 0xFF;
    assert v.Entry(2) == 0xFFF9;
    assert Chain(v, 2, 0) == Some(2) && StandardChain(v, 2, 0) == Some(2);
  }

  // ---------------------------------------------------------------- reads of several items

  /** n reads of `size` bytes one after the other, up to the first that fails. */
  function ReadItems(v: Volume, start: nat, pos: nat, size: nat, n: nat): (f: Fetched)
    requires v.Valid()
    ensures |f.bytes| <= Times(n, size) && (f.ok ==> |f.bytes| == Times(n, size))
    decreases n
  {
    if n == 0 then Fetched([], true)
    else
      var first := ReadAt(v, start, pos, size);
      var rest := ReadItems(v, start, pos + size, size, n - 1);
      ItemsLength(size, n);
      if first.ok then Fetched(first.bytes + rest.bytes, rest.ok) else first
  }

  /** Bytes of n items. */
  function Times(n: nat, size: nat): nat {
    n * size
  }

  lemma TimesIs(n: nat, size: nat)
    ensures Times(n, size) == n * size
  {
  }

  lemma ItemsLength(size: nat, n: nat)
    requires 0 < n
    ensures size + Times(n - 1, size) == Times(n, size)
  {
  }

  lemma NoItems(size: nat)
    ensures Times(0, size) == 0
  {
  }

  /** Every one of n items of `size` bytes starts on a cluster boundary or stays within one cluster. */
  predicate EachWhole(v: Volume, pos: nat, size: nat, n: nat)
    requires v.Valid()
    decreases n
  {
    n == 0 || (WholeOrWithin(v, pos, size) && EachWhole(v, pos + size, size, n - 1))
  }

  /** Then the items together are one slice of the file, delivered exactly when the chain is long enough. */
  lemma {:induction false} ItemsAreSlice(v: Volume, start: nat, pos: nat, size: nat, n: nat)
    requires v.Valid() && 0 < size && 0 < n && EachWhole(v, pos, size, n)
    ensures 0 < Times(n, size)
    ensures var m := Quotient(pos + Times(n, size) - 1, v.ClusterBytes()) + 1;
            (ReadItems(v, start, pos, size, n).ok <==> Chain(v, start, m - 1).Some?)
            && (Chain(v, start, m - 1).Some? ==>
                  pos + Times(n, size) <= |Contents(v, start, m)|
                  && ReadItems(v, start, pos, size, n).bytes == Contents(v, start, m)[pos..pos + Times(n, size)])
    decreases n
  {
    hide Times, Quotient, Remainder, ByteAt, Contents, ReadAt, Chain, Volume.ClusterBytes, WholeOrWithin;
    var cb := v.ClusterBytes();
    NoItems(size);
    ItemsLength(size, n);
    ReadIsSlice(v, start, pos, size);
    if 1 < n {
      ItemsLength(size, n - 1);
      ItemsAreSlice(v, start, pos + size, size, n - 1);
      var m := Quotient(pos + Times(n, size) - 1, cb) + 1;
      QuotientMonotone(pos + size - 1, pos + Times(n, size) - 1, cb);
      if Chain(v, start, m - 1).Some? {
        ChainEnds(v, start, Quotient(pos + size - 1, cb), m - 1);
        ReadWithin(v, start, pos, size, m);
      }
    }
  }

  predicate Divides(d: nat, x: nat) {
    0 < d && Remainder(x, d) == 0
  }

  /** Items whose size divides both the cluster and the position, or that are whole clusters from a
      cluster boundary, are all of that kind. */
  lemma {:induction false} DivisibleItems(v: Volume, pos: nat, size: nat, n: nat)
    requires v.Valid()
    requires (Divides(size, v.ClusterBytes()) && Divides(size, pos))
             || (Divides(v.ClusterBytes(), size) && Divides(v.ClusterBytes(), pos))
    ensures EachWhole(v, pos, size, n)
    decreases n
  {
    hide Quotient, Remainder, Volume.ClusterBytes;
    if 0 < n {
      var d := if Divides(size, v.ClusterBytes()) && Divides(size, pos) then size else v.ClusterBytes();
      SumDivisible(pos, size, d);
      if d == size {
        Fits(pos, v.ClusterBytes(), size);
      }
      DivisibleItems(v, pos + size, size, n - 1);
    }
  }

  lemma SumDivisible(x: nat, y: nat, d: nat)
    requires Divides(d, x) && (Divides(d, y) || y == d)
    ensures Divides(d, x + y)
  {
    hide Quotient, Remainder;
    if y == d {
      StepDown(x, d);
    } else {
      Divided(x, d);
      Divided(y, d);
      DivModIs(x + y, d, Quotient(x, d) + Quotient(y, d), 0);
    }
  }

  lemma Fits(x: nat, y: nat, d: nat)
    requires Divides(d, x) && Divides(d, y) && 0 < y
    ensures Remainder(x, y) + d <= y
  {
    hide Quotient, Remainder;
    Divided(x, d);
    Divided(y, d);
    Divided(x, y);
    var k := Quotient(x, d) - Quotient(x, y) * Quotient(y, d);
    assert Remainder(x, y) == k * d;
    MonotoneInt(Quotient(y, d), k, d);
    MonotoneInt(k + 1, Quotient(y, d), d);
  }

  lemma MonotoneInt(a: int, b: int, d: nat)
    ensures a <= b ==> a * d <= b * d
  {
  }

  /** Such items are delivered exactly when the chain reaches the cluster of their last byte, and then
      they are bytes [pos, pos + n * size) of the clusters in chain order. */
  lemma DivisibleRead(v: Volume, start: nat, pos: nat, size: nat, n: nat)
    requires v.Valid() && 0 < n
    requires (Divides(size, v.ClusterBytes()) && Divides(size, pos))
          || (Divides(v.ClusterBytes(), size) && Divides(v.ClusterBytes(), pos) && 0 < size)
    ensures 0 < Times(n, size)
    ensures var m := Quotient(pos + Times(n, size) - 1, v.ClusterBytes()) + 1;
            (ReadItems(v, start, pos, size, n).ok <==> Chain(v, start, m - 1).Some?)
            && (Chain(v, start, m - 1).Some? ==>
                  pos + Times(n, size) <= |Contents(v, start, m)|
                  && ReadItems(v, start, pos, size, n).bytes == Contents(v, start, m)[pos..pos + Times(n, size)])
  {
    hide Quotient, Remainder, Contents, ReadItems, Chain, Times, Volume.ClusterBytes;
    DivisibleItems(v, pos, size, n);
    ItemsAreSlice(v, start, pos, size, n);
  }
}
