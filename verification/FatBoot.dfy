/** The first sector of a FAT16 volume: its fields, packed one behind the other. */
module FatBoot {
  import opened Bytes
  import opened DiskStream

  /** struct fat_header, and behind it struct fat_header_extended. */
  datatype BootRecord = BootRecord(
    jump: seq<Byte>,
    oem: seq<Byte>,
    bytesPerSector: nat,
    sectorsPerCluster: Byte,
    reservedSectors: nat,
    fatCopies: Byte,
    rootDirEntries: nat,
    sectors: nat,
    mediaType: Byte,
    sectorsPerFat: nat,
    sectorsPerTrack: nat,
    heads: nat,
    hiddenSectors: nat,
    sectorsBig: nat,
    drive: Byte,
    ntBit: Byte,
    signature: Byte,
    volumeId: nat,
    volumeName: seq<Byte>,
    system: seq<Byte>)
  {
    /** Every field has the width it has on disk. */
    predicate Valid() {
      && |jump| == 3 && |oem| == 8 && |volumeName| == 11 && |system| == 8
      && bytesPerSector < 0x1_0000 && reservedSectors < 0x1_0000 && rootDirEntries < 0x1_0000 && sectors < 0x1_0000
      && sectorsPerFat < 0x1_0000 && sectorsPerTrack < 0x1_0000 && heads < 0x1_0000
      && hiddenSectors < 0x1_0000_0000 && sectorsBig < 0x1_0000_0000 && volumeId < 0x1_0000_0000
    }

    /** Disk position of the root directory: behind the reserved sectors and the copies of the FAT. */
    function RootPosition(): nat {
      (reservedSectors + fatCopies * sectorsPerFat) * 512
    }

    function Primary(): seq<Byte> {
      jump + oem
      + LittleEndian(bytesPerSector, 2) + [sectorsPerCluster] + LittleEndian(reservedSectors, 2) + [fatCopies]
      + LittleEndian(rootDirEntries, 2) + LittleEndian(sectors, 2) + [mediaType] + LittleEndian(sectorsPerFat, 2)
      + LittleEndian(sectorsPerTrack, 2) + LittleEndian(heads, 2)
      + LittleEndian(hiddenSectors, 4) + LittleEndian(sectorsBig, 4)
    }

    function Extended(): seq<Byte> {
      [drive] + [ntBit] + [signature] + LittleEndian(volumeId, 4) + volumeName + system
    }

    function Text(): seq<Byte> {
      Primary() + Extended()
    }
  }

  const RECORD_SIZE := 62

  /** A disk that starts with the fields of this record. */
  ghost predicate StartsWith(disk: Disk, b: BootRecord) {
    b.Valid() && Slice(disk, 0, RECORD_SIZE) == b.Text()
  }

  /** Where the fields lie that the driver uses. */
  lemma FieldsLie(b: BootRecord)
    requires b.Valid()
    ensures |b.Text()| == RECORD_SIZE
    ensures var s := b.Text();
      && Pair(s[11], s[12]) == b.bytesPerSector && s[13] == b.sectorsPerCluster
      && Pair(s[14], s[15]) == b.reservedSectors && s[16] == b.fatCopies
      && Pair(s[17], s[18]) == b.rootDirEntries && Pair(s[22], s[23]) == b.sectorsPerFat
      && s[38] == b.signature
  {
    TwoBytes(b.bytesPerSector);
    TwoBytes(b.reservedSectors);
    TwoBytes(b.rootDirEntries);
    TwoBytes(b.sectorsPerFat);
    hide LittleEndian, Pair;
    var s := b.Primary();
    assert |s| == 36 && |b.Extended()| == 26;
    assert b.Text()[36 + 2] == b.Extended()[2];
    assert forall i: nat | i < 36 :: b.Text()[i] == s[i];
  }

  // ---------------------------------------------------------------- every sector has fields

  function NumberOf(s: seq<Byte>): (w: nat)
  {
    if s == [] then 0 else var low: nat := s[0]; low + 0x100 * NumberOf(s[1..])
  }

  lemma {:induction false} NumberRoundTrip(s: seq<Byte>)
    ensures LittleEndian(NumberOf(s), |s|) == s
    ensures |s| == 2 ==> NumberOf(s) < 0x1_0000
    ensures |s| == 4 ==> NumberOf(s) < 0x1_0000_0000
  {
    if s != [] {
      NumberRoundTrip(s[1..]);
      assert NumberOf(s) / 0x100 == NumberOf(s[1..]) && NumberOf(s) % 0x100 == s[0];
      assert [s[0]] + s[1..] == s;
      if |s| == 2 || |s| == 4 {
        NumberBelow(s);
      }
    }
  }

  lemma NumberBelow(s: seq<Byte>)
    ensures |s| == 2 ==> NumberOf(s) < 0x1_0000
    ensures |s| == 4 ==> NumberOf(s) < 0x1_0000_0000
  {
    if |s| == 2 {
      assert NumberOf(s[1..][1..]) == 0;
    } else if |s| == 4 {
      assert NumberOf(s[1..][1..][1..][1..]) == 0;
    }
  }

  /** Any 62 bytes are the fields of some record, so that every disk starts with one. */
  lemma EveryDiskStarts(disk: Disk) returns (b: BootRecord)
    ensures StartsWith(disk, b)
  {
    var s := Slice(disk, 0, RECORD_SIZE);
    b := BootRecord(s[..3], s[3..11], NumberOf(s[11..13]), s[13], NumberOf(s[14..16]), s[16], NumberOf(s[17..19]),
      NumberOf(s[19..21]), s[21], NumberOf(s[22..24]), NumberOf(s[24..26]), NumberOf(s[26..28]),
      NumberOf(s[28..32]), NumberOf(s[32..36]), s[36], s[37], s[38], NumberOf(s[39..43]), s[43..54], s[54..62]);
    NumberRoundTrip(s[11..13]);
    NumberRoundTrip(s[14..16]);
    NumberRoundTrip(s[17..19]);
    NumberRoundTrip(s[19..21]);
    NumberRoundTrip(s[22..24]);
    NumberRoundTrip(s[24..26]);
    NumberRoundTrip(s[26..28]);
    NumberRoundTrip(s[28..32]);
    NumberRoundTrip(s[32..36]);
    NumberRoundTrip(s[39..43]);
    hide NumberOf, LittleEndian, Slice, ByteAt;
    Pieces(s);
    assert b.Text() == s;
  }

  lemma Pieces(s: seq<Byte>)
    requires |s| == RECORD_SIZE
    ensures s[..3] + s[3..11] + s[11..13] + [s[13]] + s[14..16] + [s[16]] + s[17..19] + s[19..21] + [s[21]] + s[22..24]
         + s[24..26] + s[26..28] + s[28..32] + s[32..36] == s[..36]
    ensures s[..36] + ([s[36]] + [s[37]] + [s[38]] + s[39..43] + s[43..54] + s[54..62]) == s
  {
    assert s[..3] + s[3..11] + s[11..13] + [s[13]] + s[14..16] + [s[16]] == s[..17];
    assert s[..17] + s[17..19] + s[19..21] + [s[21]] + s[22..24] == s[..24];
  }
}
