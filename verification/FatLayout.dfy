/** Where a FAT16 volume keeps things: the reserved area, the FAT copies, the root directory, the clusters. */
module FatLayout {
  import opened DiskStream

  /** The header fields the layout depends on, with the widths they have on disk. */
  datatype Header = Header(
    bytesPerSector: nat,
    sectorsPerCluster: nat,
    reservedSectors: nat,
    fatCopies: nat,
    rootDirEntries: nat,
    sectorsPerFat: nat)
  {
    predicate Valid() {
      && 0 < sectorsPerCluster < 0x100 && fatCopies < 0x100 && bytesPerSector < 0x1_0000
      && reservedSectors < 0x1_0000 && rootDirEntries < 0x1_0000 && sectorsPerFat < 0x1_0000
    }

    /** First sector of the root directory. */
    function RootStart(): (s: nat)
      ensures reservedSectors <= s
    {
      fatCopies * sectorsPerFat + reservedSectors
    }

    /** Sectors the root directory takes: its size divided, plus one for a remainder. */
    function RootSectors(): nat {
      var size := rootDirEntries * 32;
      size / SECTOR_SIZE + if size % SECTOR_SIZE != 0 then 1 else 0
    }

    /** First sector behind the root directory: `ending_sector_pos`. */
    function DataStart(): (s: nat)
      ensures RootStart() <= s
    {
      RootStart() + RootSectors()
    }

    /** fat16_cluster_to_sector; negative for clusters 0 and 1 of a volume with a short system area. */
    function ClusterSector(cluster: nat): int {
      DataStart() + (cluster - 2) * sectorsPerCluster
    }

    function ClusterBytes(): nat {
      sectorsPerCluster * SECTOR_SIZE
    }

    /** Disk position of the two-byte FAT entry of a cluster. */
    function EntryPos(cluster: nat): nat {
      reservedSectors * SECTOR_SIZE + cluster * 2
    }

    // The formulas of "FAT: General Overview of On-Disk Format", version 1.03, in its own terms.

    function StandardRootSectors(): nat
      requires 0 < bytesPerSector
    {
      (rootDirEntries * 32 + (bytesPerSector - 1)) / bytesPerSector
    }

    function StandardDataStart(): nat
      requires 0 < bytesPerSector
    {
      reservedSectors + fatCopies * sectorsPerFat + StandardRootSectors()
    }

    function StandardClusterByte(cluster: nat): int
      requires 0 < bytesPerSector
    {
      ((cluster - 2) * sectorsPerCluster + StandardDataStart()) * bytesPerSector
    }

    function StandardEntryByte(cluster: nat): nat
      requires 0 < bytesPerSector
    {
      var offset := cluster * 2;
      (reservedSectors + offset / bytesPerSector) * bytesPerSector + offset % bytesPerSector
    }
  }

  // ---------------------------------------------------------------- agreement with the standard

  /** For the sector sizes the standard allows, the byte positions of the root directory, of every
      cluster from 2 up and of every FAT entry are the standard's if and only if the volume
      declares 512-byte sectors, which is the only size the code knows. */
  lemma StandardIff(h: Header)
    requires h.Valid() && 0 < h.reservedSectors && h.bytesPerSector in {512, 1024, 2048, 4096}
    ensures h.bytesPerSector == 512 <==>
            && h.RootStart() * SECTOR_SIZE == (h.reservedSectors + h.fatCopies * h.sectorsPerFat) * h.bytesPerSector
            && (forall c: nat | 2 <= c :: h.ClusterSector(c) * SECTOR_SIZE == h.StandardClusterByte(c))
            && (forall c: nat :: h.EntryPos(c) == h.StandardEntryByte(c))
  {
    var b := h.bytesPerSector;
    if b == 512 {
      assert h.StandardRootSectors() == h.RootSectors();
      assert h.StandardDataStart() == h.DataStart();
    } else {
      var sectors := h.reservedSectors + h.fatCopies * h.sectorsPerFat;
      assert 0 <= h.fatCopies * h.sectorsPerFat;
      assert sectors * 512 < sectors * b;
    }
  }

  /** On a volume of 1024-byte sectors the code looks for cluster 2 where the standard does not put it. */
  lemma LargeSectorsMisplaced()
    ensures var h := Header(1024, 1, 1, 2, 512, 32);
            h.Valid() && h.ClusterSector(2) * SECTOR_SIZE == 49664 && h.StandardClusterByte(2) == 82944
  {
  }

  // ---------------------------------------------------------------- the areas of a volume

  datatype Area = Reserved | Fat(copy: nat) | Root | Cluster(number: nat)

  predicate Exists(h: Header, a: Area) {
    match a
    case Reserved => true
    case Fat(k) => k < h.fatCopies
    case Root => true
    case Cluster(c) => 2 <= c
  }

  /** First sector of an area and the number of its sectors. */
  function Extent(h: Header, a: Area): (int, nat) {
    match a
    case Reserved => (0, h.reservedSectors)
    case Fat(k) => (h.reservedSectors + k * h.sectorsPerFat, h.sectorsPerFat)
    case Root => (h.RootStart(), h.RootSectors())
    case Cluster(c) => (h.ClusterSector(c), h.sectorsPerCluster)
  }

  predicate Holds(h: Header, a: Area, sector: nat) {
    Extent(h, a).0 <= sector < Extent(h, a).0 + Extent(h, a).1
  }

  function Quotient(x: nat, d: nat): nat
    requires 0 < d
  {
    x / d
  }

  function Remainder(x: nat, d: nat): (r: nat)
    requires 0 < d
    ensures r < d
  {
    x % d
  }

  lemma Divided(x: nat, d: nat)
    requires 0 < d
    ensures x == Quotient(x, d) * d + Remainder(x, d)
  {
  }

  lemma QuotientIs(x: nat, d: nat, k: nat)
    requires 0 < d
    ensures k * d <= x < k * d + d <==> Quotient(x, d) == k
  {
    hide Quotient, Remainder;
    Divided(x, d);
    var q := Quotient(x, d);
    if k < q {
      assert (k + 1) * d <= q * d;
    } else if q < k {
      assert (q + 1) * d <= k * d;
    }
  }

  lemma Monotone(a: nat, b: nat, d: nat)
    ensures a <= b ==> a * d <= b * d
  {
  }

  lemma CopiesBelow(k: nat, copies: nat, size: nat)
    requires k < copies
    ensures k * size + size <= copies * size
  {
    assert (k + 1) * size <= copies * size;
  }

  /** The area a sector of the disk belongs to. */
  function AreaOf(h: Header, sector: nat): Area
    requires h.Valid()
  {
    if sector < h.reservedSectors then Reserved
    else if sector < h.RootStart() && 0 < h.sectorsPerFat then
      Fat(Quotient(sector - h.reservedSectors, h.sectorsPerFat))
    else if sector < h.DataStart() then Root
    else Cluster(2 + Quotient(sector - h.DataStart(), h.sectorsPerCluster))
  }

  lemma PartitionFats(h: Header, k: nat, sector: nat)
    requires h.Valid() && k < h.fatCopies
    ensures Holds(h, Fat(k), sector) <==> AreaOf(h, sector) == Fat(k)
  {
    hide Header.DataStart, Header.RootSectors, Quotient;
    CopiesBelow(k, h.fatCopies, h.sectorsPerFat);
    if h.reservedSectors <= sector && 0 < h.sectorsPerFat {
      QuotientIs(sector - h.reservedSectors, h.sectorsPerFat, k);
    }
  }

  lemma PartitionClusters(h: Header, c: nat, sector: nat)
    requires h.Valid() && 2 <= c
    ensures Holds(h, Cluster(c), sector) <==> AreaOf(h, sector) == Cluster(c)
  {
    hide Header.RootStart, Header.RootSectors, Quotient;
    assert h.DataStart() == h.RootStart() + h.RootSectors();
    assert 0 <= (c - 2) * h.sectorsPerCluster;
    if h.DataStart() <= sector {
      QuotientIs(sector - h.DataStart(), h.sectorsPerCluster, c - 2);
    }
  }

  lemma AreaExists(h: Header, sector: nat)
    requires h.Valid()
    ensures Exists(h, AreaOf(h, sector))
  {
    hide Header.DataStart, Header.RootSectors, Quotient;
    if h.reservedSectors <= sector < h.RootStart() && 0 < h.sectorsPerFat {
      Divided(sector - h.reservedSectors, h.sectorsPerFat);
      Monotone(h.fatCopies, Quotient(sector - h.reservedSectors, h.sectorsPerFat), h.sectorsPerFat);
    }
  }

  /** The areas share no sector and leave none out: a sector lies inside an area exactly when it is
      the area that sector belongs to. */
  lemma AreasPartition(h: Header, a: Area, sector: nat)
    requires h.Valid() && Exists(h, a)
    ensures Holds(h, a, sector) <==> AreaOf(h, sector) == a
    ensures Exists(h, AreaOf(h, sector))
  {
    hide Header.RootSectors, Quotient;
    AreaExists(h, sector);
    match a
    case Fat(k) => PartitionFats(h, k, sector);
    case Cluster(c) => PartitionClusters(h, c, sector);
    case _ => assert h.sectorsPerFat == 0 ==> h.fatCopies * h.sectorsPerFat == 0;
  }

  /** Clusters from 2 up, FAT copies, root directory and reserved area are pairwise disjoint. */
  lemma AreasDisjoint(h: Header, a: Area, b: Area, sector: nat)
    requires h.Valid() && Exists(h, a) && Exists(h, b) && a != b
    ensures !(Holds(h, a, sector) && Holds(h, b, sector))
  {
    AreasPartition(h, a, sector);
    AreasPartition(h, b, sector);
  }

  /** Both bytes of a FAT entry lie in the first FAT exactly for clusters below 256 per FAT sector. */
  lemma EntryInFirstFatIff(h: Header, cluster: nat)
    requires h.Valid() && 0 < h.fatCopies
    ensures cluster < 256 * h.sectorsPerFat <==>
            && AreaOf(h, h.EntryPos(cluster) / SECTOR_SIZE) == Fat(0)
            && AreaOf(h, (h.EntryPos(cluster) + 1) / SECTOR_SIZE) == Fat(0)
  {
    var s0, s1 := h.EntryPos(cluster) / SECTOR_SIZE, (h.EntryPos(cluster) + 1) / SECTOR_SIZE;
    assert s0 == h.reservedSectors + cluster / 256 == s1;
    AreasPartition(h, Fat(0), s0);
  }
}
