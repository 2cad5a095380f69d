/** The 32-byte directory entries of a FAT16 volume: their fields and their names. */
module FatItems {
  import opened Bytes

  type Item = s: seq<Byte> | |s| == 32 witness ZeroBytes(32)

  const DELETED := 0xE5
  const SPACE := 0x20
  const DOT := 0x2E

  /** The entry keeps cluster c, its two low-order bytes at 26 and its two high-order bytes at 20. */
  predicate StoresCluster(item: Item, c: nat) {
    && c < 0x1_0000_0000
    && item[26] == c % 0x100 && item[27] == c / 0x100 % 0x100
    && item[20] == c / 0x1_0000 % 0x100 && item[21] == c / 0x100_0000
  }

  /** fat16_get_first_cluster. */
  function FirstCluster(item: Item): (c: nat)
    ensures StoresCluster(item, c)
  {
    OfPairs(Pair(item[26], item[27]), Pair(item[20], item[21]));
    PairIs(item[26], item[27]);
    PairIs(item[20], item[21]);
    Pair(item[20], item[21]) * 0x1_0000 + Pair(item[26], item[27])
  }

  lemma OfPairs(low: nat, high: nat)
    requires low < 0x1_0000 && high < 0x1_0000
    ensures var c := high * 0x1_0000 + low;
      && c < 0x1_0000_0000 && c % 0x100 == low % 0x100 && c / 0x100 % 0x100 == low / 0x100
      && c / 0x1_0000 % 0x100 == high % 0x100 && c / 0x100_0000 == high / 0x100
  {
    var c := high * 0x1_0000 + low;
    Split8(c, 0x100 * high + low / 0x100, low % 0x100);
    Split8(0x100 * high + low / 0x100, high, low / 0x100);
    Split16(c, high, low);
    Split24(c, high / 0x100, high % 0x100 * 0x1_0000 + low);
  }

  /** Four bytes hold one cluster, whichever it is of the 2^32. */
  lemma FirstClusterIff(item: Item, c: nat)
    ensures StoresCluster(item, c) <==> c == FirstCluster(item)
  {
    if StoresCluster(item, c) {
      FourBytes(c);
      FourBytes(FirstCluster(item));
    }
  }

  /** The FAT_FILE_SUBDIRECTORY bit of the attribute byte. */
  predicate IsDirectory(item: Item) {
    var attribute: nat := item[11];
    attribute / 0x10 % 2 == 1
  }

  function Bit(on: bool, value: nat): nat {
    if on then value else 0
  }

  /** Whatever the other attributes are, the fifth one says whether the entry is a sub-directory. */
  lemma DirectoryIff(item: Item, readOnly: bool, hidden: bool, system: bool, volume: bool, subdirectory: bool,
      archived: bool, device: bool, reserved: bool)
    requires item[11] == Bit(readOnly, 0x01) + Bit(hidden, 0x02) + Bit(system, 0x04) + Bit(volume, 0x08)
                       + Bit(subdirectory, 0x10) + Bit(archived, 0x20) + Bit(device, 0x40) + Bit(reserved, 0x80)
    ensures IsDirectory(item) <==> subdirectory
  {
    var low := Bit(readOnly, 0x01) + Bit(hidden, 0x02) + Bit(system, 0x04) + Bit(volume, 0x08);
    var high := Bit(archived, 1) + Bit(device, 2) + Bit(reserved, 4);
    assert item[11] == low + 0x10 * (Bit(subdirectory, 1) + 2 * high);
  }

  // ---------------------------------------------------------------- the fields, one behind the other

  /** struct fat_directory_item. */
  datatype EntryRecord = EntryRecord(
    name: seq<Byte>,
    ext: seq<Byte>,
    attribute: Byte,
    reserved: Byte,
    tenths: Byte,
    creationTime: nat,
    creationDate: nat,
    lastAccess: nat,
    clusterHigh: nat,
    modTime: nat,
    modDate: nat,
    clusterLow: nat,
    fileSize: nat)
  {
    /** Every field has the width it has on disk. */
    predicate Valid() {
      && |name| == 8 && |ext| == 3 && creationTime < 0x1_0000 && creationDate < 0x1_0000 && lastAccess < 0x1_0000
      && clusterHigh < 0x1_0000 && modTime < 0x1_0000 && modDate < 0x1_0000 && clusterLow < 0x1_0000
      && fileSize < 0x1_0000_0000
    }

    function Text(): seq<Byte> {
      name + ext + [attribute] + [reserved] + [tenths] + LittleEndian(creationTime, 2) + LittleEndian(creationDate, 2)
      + LittleEndian(lastAccess, 2) + LittleEndian(clusterHigh, 2) + LittleEndian(modTime, 2)
      + LittleEndian(modDate, 2) + LittleEndian(clusterLow, 2) + LittleEndian(fileSize, 4)
    }
  }

  /** What the driver takes from an entry's bytes are the fields with these names. */
  lemma EntryFields(e: EntryRecord)
    requires e.Valid()
    ensures |e.Text()| == 32 && e.Text()[..8] == e.name && e.Text()[8..11] == e.ext
    ensures FirstCluster(e.Text()) == e.clusterHigh * 0x1_0000 + e.clusterLow
    ensures var attribute: nat := e.attribute; IsDirectory(e.Text()) <==> attribute / 0x10 % 2 == 1
  {
    TwoBytes(e.clusterHigh);
    TwoBytes(e.clusterLow);
    hide LittleEndian, Pair;
    var s := e.Text();
    assert s[20] == LittleEndian(e.clusterHigh, 2)[0] && s[21] == LittleEndian(e.clusterHigh, 2)[1];
    assert s[26] == LittleEndian(e.clusterLow, 2)[0] && s[27] == LittleEndian(e.clusterLow, 2)[1];
  }

  // ---------------------------------------------------------------- names

  predicate Ends(c: Byte) {
    c == 0 || c == SPACE
  }

  /** A padded field up to its first space or zero. */
  function FieldText(field: seq<Byte>): (t: seq<Byte>)
    ensures |t| <= |field| && t == field[..|t|] && (forall c <- t :: !Ends(c))
    ensures |t| < |field| ==> Ends(field[|t|])
  {
    if field == [] || Ends(field[0]) then [] else [field[0]] + FieldText(field[1..])
  }

  lemma {:induction false} FieldTextIs(field: seq<Byte>, n: nat)
    requires n <= |field| && (forall i: nat | i < n :: !Ends(field[i])) && (n < |field| ==> Ends(field[n]))
    ensures FieldText(field) == field[..n]
  {
    if 0 < n {
      FieldTextIs(field[1..], n - 1);
      assert field[..n] == [field[0]] + field[1..][..n - 1];
    }
  }

  /** NAME.EXT, or NAME alone when the extension field is blank. */
  function FullName(item: Item): (name: seq<Byte>)
    ensures |name| <= 12 && 0 !in name
  {
    FieldText(item[..8]) + if Ends(item[8]) then [] else [DOT] + FieldText(item[8..11])
  }

  /** fat16_to_proper_string: copies one character at a time and stops at the field's length. */
  method ToProperString(out: array<Byte>, at: nat, field: seq<Byte>) returns (end: nat)
    requires 0 < |field| && at + |field| < out.Length
    modifies out
    ensures out[..] == Stored(old(out[..]), at, FieldText(field) + [0])
    ensures end == at + |FieldText(field)|
  {
    hide Stored, FieldText;
    StoreNothing(out[..], at, field[..0]);
    var i := 0;
    end := at;
    while !Ends(field[i])
      invariant 0 <= i < |field| && end == at + i
      invariant forall k: nat | k < i :: !Ends(field[k])
      invariant out[..] == Stored(old(out[..]), at, field[..i])
      decreases |field| - i
    {
      StoreNext(old(out[..]), at, field[..i], field[i]);
      assert field[..i + 1] == field[..i] + [field[i]];
      out[end] := field[i];
      end := end + 1;
      if i >= |field| - 1 {
        break;
      }
      i := i + 1;
    }
    ghost var n := end - at;
    FieldTextIs(field, n);
    StoreNext(old(out[..]), at, field[..n], 0);
    out[end] := 0;
  }

  /** fat16_get_full_relative_filename. */
  method FullRelativeFilename(item: Item, out: array<Byte>)
    requires 12 < out.Length
    modifies out
    ensures out[..] == FullName(item) + ZeroBytes(out.Length - |FullName(item)|)
  {
    hide Stored, FieldText;
    forall i | 0 <= i < out.Length {
      out[i] := 0;
    }
    assert out[..] == ZeroBytes(out.Length);
    var end := ToProperString(out, 0, item[..8]);
    if !Ends(item[8]) {
      ghost var zeros, name, ext := ZeroBytes(out.Length), FieldText(item[..8]), FieldText(item[8..11]);
      ghost var before := out[..];
      out[end] := DOT;
      var _ := ToProperString(out, end + 1, item[8..11]);
      NameStored(zeros, name, ext, before);
    } else {
      StoredInZeros(ZeroBytes(out.Length), FieldText(item[..8]));
    }
  }

  lemma NameStored(zeros: seq<Byte>, name: seq<Byte>, ext: seq<Byte>, before: seq<Byte>)
    requires |name| + 1 + |ext| < |zeros| && zeros == ZeroBytes(|zeros|)
    requires before == Stored(zeros, 0, name + [0])
    ensures Stored(before[|name| := DOT], |name| + 1, ext + [0])
         == name + ([DOT] + ext) + ZeroBytes(|zeros| - (|name| + 1 + |ext|))
  {
  }

  function Pad(s: seq<Byte>, n: nat): (p: seq<Byte>)
    requires |s| <= n
    ensures |p| == n
  {
    s + seq<Byte>(n - |s|, _ => SPACE)
  }

  /** A name written into an entry the standard way, padded with spaces, is read back. */
  lemma NameRoundTrip(item: Item, base: seq<Byte>, ext: seq<Byte>)
    requires |base| <= 8 && |ext| <= 3 && (forall c <- base + ext :: !Ends(c))
    requires item[..8] == Pad(base, 8) && item[8..11] == Pad(ext, 3)
    ensures FullName(item) == base + if ext == [] then [] else [DOT] + ext
  {
    forall i: nat | i < |base| ensures !Ends(base[i]) { assert base[i] in base + ext; }
    forall i: nat | i < |ext| ensures !Ends(ext[i]) { assert ext[i] in base + ext; }
    FieldTextIs(item[..8], |base|);
    FieldTextIs(item[8..11], |ext|);
    assert item[8] == item[8..11][0];
    assert Pad(base, 8)[..|base|] == base && Pad(ext, 3)[..|ext|] == ext;
  }

  /** SHELL.ELF, as an entry keeps it. */
  lemma ShellName(item: Item)
    requires item[..8] == [83, 72, 69, 76, 76, 32, 32, 32] && item[8..11] == [69, 76, 70]
    ensures FullName(item) == [83, 72, 69, 76, 76, 46, 69, 76, 70]
  {
    NameRoundTrip(item, [83, 72, 69, 76, 76], [69, 76, 70]);
  }

  /** Entries whose name fields hold no dot have the same full name only if both fields agree. */
  lemma NameDetermines(a: Item, b: Item)
    requires DOT !in a[..8] && DOT !in b[..8] && FullName(a) == FullName(b)
    ensures FieldText(a[..8]) == FieldText(b[..8])
    ensures FieldText(a[8..11]) == FieldText(b[8..11])
  {
    hide FieldText;
    assert a[8] == a[8..11][0] && b[8] == b[8..11][0];
    BlankExtension(a);
    BlankExtension(b);
    SplitAtDot(FieldText(a[..8]), FieldText(a[8..11]), FieldText(b[..8]), FieldText(b[8..11]));
  }

  lemma BlankExtension(a: Item)
    ensures Ends(a[8]) <==> FieldText(a[8..11]) == []
  {
    assert a[8] == a[8..11][0];
  }

  lemma SplitAtDot(n: seq<Byte>, e: seq<Byte>, m: seq<Byte>, f: seq<Byte>)
    requires DOT !in n && DOT !in m
    requires n + (if e == [] then [] else [DOT] + e) == m + (if f == [] then [] else [DOT] + f)
    ensures n == m && e == f
  {
    var x, y := n + (if e == [] then [] else [DOT] + e), m + (if f == [] then [] else [DOT] + f);
    assert forall i | 0 <= i < |n| :: x[i] == n[i];
    assert forall i | 0 <= i < |m| :: y[i] == m[i];
    assert |n| < |x| ==> x[|n|] == DOT;
    assert |m| < |y| ==> y[|m|] == DOT;
    assert |n| == |m|;
    assert n == x[..|n|] && m == y[..|m|];
    assert x[|n|..] == (if e == [] then [] else [DOT] + e);
    assert y[|m|..] == (if f == [] then [] else [DOT] + f);
    assert |e| > 0 ==> e == x[|n|..][1..];
    assert |f| > 0 ==> f == y[|m|..][1..];
  }
}
