/** The FAT16 driver's reads, through its three streams. */
module FatFiles {
  import opened Machine
  import opened Bytes
  import opened DiskStream
  import opened FatLayout
  import opened FatChain
  import opened FatItems

  /** The mounted volume: its geometry and a stream each for clusters, the FAT and directories. */
  class Driver {
    const volume: Volume
    const clusterStream: Stream
    const fatStream: Stream
    const directoryStream: Stream

    ghost predicate Valid() {
      && volume.Valid()
      && clusterStream != fatStream && fatStream != directoryStream && directoryStream != clusterStream
      && clusterStream.disk == fatStream.disk == directoryStream.disk == volume.disk
    }

    /** fat16_init_private. */
    constructor (volume: Volume)
      requires volume.Valid()
      ensures Valid() && this.volume == volume
      ensures fresh(clusterStream) && fresh(fatStream) && fresh(directoryStream)
    {
      this.volume := volume;
      clusterStream := new Stream(volume.disk);
      fatStream := new Stream(volume.disk);
      directoryStream := new Stream(volume.disk);
    }

    /** fat16_get_fat_entry. */
    method GetFatEntry(cluster: nat) returns (entry: nat)
      requires Valid()
      modifies fatStream
      ensures entry == volume.Entry(cluster)
    {
      fatStream.Seek(volume.header.EntryPos(cluster));
      var result := new Byte[2];
      fatStream.Read(result, 0, 2);
      ghost var s := Slice(volume.disk, volume.header.EntryPos(cluster), 2);
      assert result[..][0] == s[0] && result[..][1] == s[1];
      entry := Pair(result[0], result[1]);
    }

    /** fat16_get_cluster_for_offset: follows the chain one entry at a time. */
    method GetClusterForOffset(start: nat, offset: nat) returns (res: int)
      requires Valid()
      modifies fatStream
      ensures res == match Chain(volume, start, Quotient(offset, volume.ClusterBytes()))
                     case None => -EIO
                     case Some(c) => c
    {
      hide Quotient;
      var clusterToUse := start;
      var clustersAhead := Quotient(offset, volume.ClusterBytes());
      var i := 0;
      while i < clustersAhead
        invariant 0 <= i <= clustersAhead
        invariant Chain(volume, start, i) == Some(clusterToUse)
      {
        var entry := GetFatEntry(clusterToUse);
        if Stops(entry) {
          if Chain(volume, start, clustersAhead).Some? {
            ChainEnds(volume, start, i + 1, clustersAhead);
          }
          return -EIO;
        }
        clusterToUse := entry;
        i := i + 1;
      }
      res := clusterToUse;
    }

    /** fat16_read_internal: finds the cluster from the start of the chain for every piece. */
    method ReadInternal(start: nat, offset: nat, total: nat, out: array<Byte>, at: nat) returns (res: int)
      requires Valid() && at + total <= out.Length
      requires OnDisk(volume, start, Touched(volume, offset, total))
      modifies fatStream, clusterStream, out
      ensures res == if ReadAt(volume, start, offset, total).ok then 0 else -EIO
      ensures out[..] == Stored(old(out[..]), at, ReadAt(volume, start, offset, total).bytes)
      decreases total
    {
      hide Quotient, Remainder, Stored, Slice, Chain, Next, Volume.ClusterBytes;
      var cb := volume.ClusterBytes();
      var cluster := GetClusterForOffset(start, offset);
      if cluster < 0 {
        StoreNothing(out[..], at, []);
        return cluster;
      }
      var startingSector := volume.header.ClusterSector(cluster);
      var startingPos := startingSector * SECTOR_SIZE + Remainder(offset, cb);
      var totalToRead := if total > cb then cb else total;
      clusterStream.Seek(startingPos);
      clusterStream.Read(out, at, totalToRead);
      res := 0;
      if total - totalToRead > 0 {
        ReadAtStep(volume, start, offset, total);
        StoredTwice(old(out[..]), at, Slice(volume.disk, startingPos, cb),
          ReadAt(volume, start, offset + cb, total - cb).bytes);
        res := ReadInternal(start, offset + totalToRead, total - totalToRead, out, at + totalToRead);
      }
    }
  }

  /** An open file: its directory entry and its position. */
  class OpenFile {
    const item: Item
    var pos: nat

    constructor (item: Item)
      ensures this.item == item && pos == 0
    {
      this.item := item;
      pos := 0;
    }

    /** fat16_read of a file whose entry stores cluster c: nmemb items one after the other; the position
        moves only when all succeed. */
    method ReadMembers(driver: Driver, size: nat, nmemb: nat, out: array<Byte>, ghost c: nat) returns (res: int)
      requires driver.Valid() && nmemb * size <= out.Length && StoresCluster(item, c)
      requires AllOnDisk(driver.volume, c, pos, size, nmemb)
      modifies this, driver.fatStream, driver.clusterStream, out
      ensures var f := ReadItems(driver.volume, c, old(pos), size, nmemb);
              && res == (if f.ok then nmemb as int else -EIO)
              && pos == (if f.ok then old(pos) + nmemb * size else old(pos))
              && out[..] == Stored(old(out[..]), 0, f.bytes)
    {
      hide Stored, ReadAt, OnDisk, Times, StoresCluster;
      FirstClusterIff(item, c);
      TimesIs(nmemb, size);
      NoItems(size);
      var offset := pos;
      var at := 0;
      var i := 0;
      ghost var done := [];
      ghost var v, start := driver.volume, c;
      StoreNothing(out[..], 0, []);
      while i < nmemb
        invariant 0 <= i <= nmemb && at == |done| && pos == old(pos)
        invariant at + Times(nmemb - i, size) == Times(nmemb, size)
        invariant offset == old(pos) + at
        invariant out[..] == Stored(old(out[..]), 0, done)
        invariant AllOnDisk(v, start, offset, size, nmemb - i)
        invariant var f, rest := ReadItems(v, start, old(pos), size, nmemb),
                  ReadItems(v, start, offset, size, nmemb - i);
                  f == Fetched(done + rest.bytes, rest.ok)
      {
        ItemsLength(size, nmemb - i);
        ghost var piece := ReadAt(v, start, offset, size);
        StoredTwice(old(out[..]), 0, done, piece.bytes);
        res := driver.ReadInternal(FirstCluster(item), offset, size, out, at);
        if res < 0 {
          return;
        }
        assert done + piece.bytes + ReadItems(v, start, offset + size, size, nmemb - i - 1).bytes
            == done + (piece.bytes + ReadItems(v, start, offset + size, size, nmemb - i - 1).bytes);
        done := done + piece.bytes;
        at := at + size;
        offset := offset + size;
        i := i + 1;
      }
      assert done + [] == done;
      pos := offset;
      res := nmemb;
    }
  }

  /** Reading, from a file whose entry stores cluster c, items whose size divides cluster and position, or
      that are whole clusters from a cluster boundary: all of them, or an error and the position stays, as
      the chain is long enough or not. */
  method ReadDivisible(file: OpenFile, driver: Driver, size: nat, nmemb: nat, out: array<Byte>, ghost c: nat)
    returns (res: int)
    requires driver.Valid() && 0 < nmemb && nmemb * size <= out.Length && StoresCluster(file.item, c)
    requires (Divides(size, driver.volume.ClusterBytes()) && Divides(size, file.pos))
          || (Divides(driver.volume.ClusterBytes(), size) && Divides(driver.volume.ClusterBytes(), file.pos)
             && 0 < size)
    requires AllOnDisk(driver.volume, c, file.pos, size, nmemb)
    modifies file, driver.fatStream, driver.clusterStream, out
    ensures 0 < nmemb * size
    ensures var v, pos, end := driver.volume, old(file.pos), old(file.pos) + nmemb * size;
            var m := Quotient(end - 1, v.ClusterBytes()) + 1;
            if Chain(v, c, m - 1).Some? then
              && res == nmemb && file.pos == end
              && end <= |Contents(v, c, m)| && out[..] == Stored(old(out[..]), 0, Contents(v, c, m)[pos..end])
            else res == -EIO && file.pos == pos
  {
    hide Quotient, Remainder, Contents, ReadItems, Chain, Times, Volume.ClusterBytes, Stored, AllOnDisk;
    hide StoresCluster;
    TimesIs(nmemb, size);
    DivisibleRead(driver.volume, c, file.pos, size, nmemb);
    res := file.ReadMembers(driver, size, nmemb, out, c);
  }

  /** The clusters a sequence of reads looks at are all on the disk. */
  ghost predicate AllOnDisk(v: Volume, start: nat, pos: nat, size: nat, n: nat)
    requires v.Valid()
    decreases n
  {
    n == 0 || (OnDisk(v, start, Touched(v, pos, size)) && AllOnDisk(v, start, pos + size, size, n - 1))
  }
}
