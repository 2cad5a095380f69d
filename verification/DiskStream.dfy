/** A byte stream over a disk of 512-byte sectors. */
module DiskStream {
  import opened Bytes

  type Sector = s: seq<Byte> | |s| == 512 witness ZeroBytes(512)

  /** What the drive delivers for each sector number; every read succeeds. */
  type Disk = nat -> Sector

  const SECTOR_SIZE := 512

  /** Byte number k of the disk. */
  function ByteAt(disk: Disk, k: nat): Byte {
    disk(k / SECTOR_SIZE)[k % SECTOR_SIZE]
  }

  /** Disk bytes [pos, pos + n). */
  function Slice(disk: Disk, pos: nat, n: nat): (s: seq<Byte>)
    ensures |s| == n
    ensures forall i | 0 <= i < n :: s[i] == ByteAt(disk, pos + i)
  {
    seq<Byte>(n, i requires 0 <= i < n => ByteAt(disk, pos + i))
  }

  /** Two neighbouring pieces make one. */
  lemma SliceSplit(disk: Disk, pos: nat, a: nat, b: nat)
    ensures Slice(disk, pos, a) + Slice(disk, pos + a, b) == Slice(disk, pos, a + b)
  {
    hide ByteAt;
  }

  /** The sector numbers a read asks the drive for, in order. */
  function SectorsRead(pos: nat, total: nat): seq<nat>
    decreases total, if pos % SECTOR_SIZE == 0 then 0 else 1
  {
    var offset := pos % SECTOR_SIZE;
    if offset + total < SECTOR_SIZE then [pos / SECTOR_SIZE]
    else [pos / SECTOR_SIZE] + SectorsRead(pos + (SECTOR_SIZE - offset), total - (SECTOR_SIZE - offset))
  }

  /** Bytes of one sector are neighbours on the disk. */
  lemma SectorByte(disk: Disk, pos: nat, i: nat)
    requires pos % SECTOR_SIZE + i < SECTOR_SIZE
    ensures ByteAt(disk, pos + i) == disk(pos / SECTOR_SIZE)[pos % SECTOR_SIZE + i]
  {
    assert (pos + i) / SECTOR_SIZE == pos / SECTOR_SIZE;
  }

  lemma StoreOneMore(disk: Disk, pos: nat, out: seq<Byte>, at: nat, i: nat)
    requires at + i < |out|
    ensures Stored(out, at, Slice(disk, pos, i))[at + i := ByteAt(disk, pos + i)]
         == Stored(out, at, Slice(disk, pos, i + 1))
  {
    hide ByteAt, Stored;
    StoreNext(out, at, Slice(disk, pos, i), ByteAt(disk, pos + i));
    assert Slice(disk, pos, i) + [ByteAt(disk, pos + i)] == Slice(disk, pos, i + 1);
  }

  /** The copying loop: bytes offset .. offset + n of one sector into the buffer. */
  method CopySector(disk: Disk, pos: nat, n: nat, out: array<Byte>, at: nat)
    requires pos % SECTOR_SIZE + n <= SECTOR_SIZE && at + n <= out.Length
    modifies out
    ensures out[..] == Stored(old(out[..]), at, Slice(disk, pos, n))
  {
    hide ByteAt, Stored;
    var buf := disk(pos / SECTOR_SIZE);
    StoreNothing(old(out[..]), at, Slice(disk, pos, 0));
    var i := 0;
    while i < n
      invariant 0 <= i <= n
      invariant out[..] == Stored(old(out[..]), at, Slice(disk, pos, i))
    {
      SectorByte(disk, pos, i);
      StoreOneMore(disk, pos, old(out[..]), at, i);
      out[at + i] := buf[pos % SECTOR_SIZE + i];
      i := i + 1;
    }
  }

  class Stream {
    var pos: nat
    const disk: Disk
    // The sector numbers the drive was asked for so far.
    ghost var requested: seq<nat>

    constructor (disk: Disk)
      ensures pos == 0 && this.disk == disk
    {
      this.disk := disk;
      pos := 0;
      requested := [];
    }

    /** diskstreamer_seek. */
    method Seek(p: nat)
      modifies this`pos
      ensures pos == p
    {
      pos := p;
    }

    /** diskstreamer_read: one sector at a time through a local buffer, then the rest recursively,
        with a last call for no bytes at all when the read ends on a sector boundary. */
    method Read(out: array<Byte>, at: nat, total: nat)
      requires at + total <= out.Length
      modifies this, out
      ensures pos == old(pos) + total
      ensures out[..] == Stored(old(out[..]), at, Slice(disk, old(pos), total))
      ensures requested == old(requested) + SectorsRead(old(pos), total)
      decreases total, if pos % SECTOR_SIZE == 0 then 0 else 1
    {
      hide ByteAt, Stored;
      var offset := pos % SECTOR_SIZE;
      var totalToRead := total;
      var overflow := offset + totalToRead >= SECTOR_SIZE;
      if overflow {
        totalToRead := totalToRead - (offset + totalToRead - SECTOR_SIZE);
      }
      requested := requested + [pos / SECTOR_SIZE];
      CopySector(disk, pos, totalToRead, out, at);
      pos := pos + totalToRead;
      if overflow {
        StoredTwice(old(out[..]), at, Slice(disk, old(pos), totalToRead), Slice(disk, pos, total - totalToRead));
        SliceSplit(disk, old(pos), totalToRead, total - totalToRead);
        Read(out, at + totalToRead, total - totalToRead);
      }
    }
  }

  /** Two reads in a row deliver what one read of the combined length does. */
  method ReadTwice(s: Stream, out: array<Byte>, a: nat, b: nat)
    requires a + b <= out.Length
    modifies s, out
    ensures s.pos == old(s.pos) + a + b
    ensures out[..] == Stored(old(out[..]), 0, Slice(s.disk, old(s.pos), a + b))
  {
    hide Stored, ByteAt;
    s.Read(out, 0, a);
    s.Read(out, a, b);
    StoredTwice(old(out[..]), 0, Slice(s.disk, old(s.pos), a), Slice(s.disk, old(s.pos) + a, b));
    SliceSplit(s.disk, old(s.pos), a, b);
  }

  /** The drive is asked for the sectors from the first byte's to the one holding position pos + total,
      consecutively: one sector past the data when the read ends on a boundary. */
  lemma {:induction false} SectorsReadAre(pos: nat, total: nat)
    ensures var first, last := pos / SECTOR_SIZE, (pos + total) / SECTOR_SIZE;
      SectorsRead(pos, total) == seq(last - first + 1, i requires 0 <= i => first + i)
    decreases total, if pos % SECTOR_SIZE == 0 then 0 else 1
  {
    var offset := pos % SECTOR_SIZE;
    if offset + total >= SECTOR_SIZE {
      SectorsReadAre(pos + (SECTOR_SIZE - offset), total - (SECTOR_SIZE - offset));
    }
  }
}
