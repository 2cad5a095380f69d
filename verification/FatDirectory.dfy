/** Directories of a FAT16 volume: counting, loading, lookup by name, and path resolution. */
module FatDirectory {
  import opened Machine
  import opened Bytes
  import opened DiskStream
  import opened CStrings
  import opened FatLayout
  import opened FatChain
  import opened FatItems
  import opened FatBoot
  import opened FatFiles

  /** A directory in memory: its entries as read, and how many of them lookups go through. */
  datatype Directory = Directory(items: seq<Item>, total: nat)

  datatype FatItem = FileItem(item: Item) | DirectoryItem(directory: Directory)

  // ---------------------------------------------------------------- counting

  function ItemAt(disk: Disk, pos: nat, i: nat): Item {
    Slice(disk, pos + 32 * i, 32)
  }

  /** Entry n is the first whose name starts with a zero byte. */
  ghost predicate EndsAt(disk: Disk, pos: nat, n: nat) {
    ItemAt(disk, pos, n)[0] == 0 && forall i: nat | i < n :: ItemAt(disk, pos, i)[0] != 0
  }

  /** The entries before the terminator. */
  function Raw(disk: Disk, pos: nat, n: nat): (items: seq<Item>)
    ensures |items| == n && forall i | 0 <= i < n :: items[i] == ItemAt(disk, pos, i)
  {
    seq<Item>(n, i requires 0 <= i < n => ItemAt(disk, pos, i))
  }

  /** The entries that are not marked deleted, in order. */
  function Live(items: seq<Item>): (live: seq<Item>)
    ensures |live| <= |items|
  {
    if items == [] then [] else Kept(items[0]) + Live(items[1..])
  }

  function Kept(item: Item): (kept: seq<Item>)
    ensures |kept| <= 1
  {
    if item[0] == DELETED then [] else [item]
  }

  lemma {:induction false} LiveSnoc(items: seq<Item>, item: Item)
    ensures Live(items + [item]) == Live(items) + Kept(item)
  {
    hide Kept;
    if items == [] {
      assert items + [item] == [item] && [item][1..] == [];
      assert Live([item]) == Kept(item) + Live([]);
    } else {
      LiveSnoc(items[1..], item);
      assert (items + [item])[0] == items[0] && (items + [item])[1..] == items[1..] + [item];
      assert Live(items) == Kept(items[0]) + Live(items[1..]);
      assert Kept(items[0]) + (Live(items[1..]) + Kept(item)) == Kept(items[0]) + Live(items[1..]) + Kept(item);
    }
  }

  /** fat16_get_total_items_for_directory: one entry at a time until a zero name; deleted ones do not count. */
  method CountItems(driver: Driver, sector: nat, ghost n: nat) returns (total: nat)
    requires driver.Valid() && EndsAt(driver.volume.disk, sector * SECTOR_SIZE, n)
    modifies driver.directoryStream
    ensures total == |Live(Raw(driver.volume.disk, sector * SECTOR_SIZE, n))|
  {
    hide Slice, Live, Raw, Stored;
    var stream := driver.directoryStream;
    ghost var disk, pos := driver.volume.disk, sector * SECTOR_SIZE;
    stream.Seek(sector * SECTOR_SIZE);
    total := 0;
    ghost var k := 0;
    while true
      invariant 0 <= k <= n && stream.pos == pos + 32 * k
      invariant total == |Live(Raw(disk, pos, k))|
      decreases n - k
    {
      var buffer := new Byte[32];
      ghost var before := buffer[..];
      stream.Read(buffer, 0, 32);
      StoredAll(before, Slice(disk, pos + 32 * k, 32));
      var item := buffer[..];
      assert item == ItemAt(disk, pos, k);
      if item[0] == 0 {
        break;
      }
      LiveSnoc(Raw(disk, pos, k), ItemAt(disk, pos, k));
      assert Raw(disk, pos, k + 1) == Raw(disk, pos, k) + [ItemAt(disk, pos, k)];
      k := k + 1;
      if item[0] == DELETED {
        continue;
      }
      total := total + 1;
    }
  }

  /** Lookups go through as many entries from the front as were counted: these are the entries in
      use if and only if none of them is marked deleted, so that a deleted entry anywhere before one
      in use hides as many entries at the end. */
  lemma {:induction false} SeesLiveIff(items: seq<Item>)
    ensures items[..|Live(items)|] == Live(items) <==> forall i: nat | i < |Live(items)| :: items[i][0] != DELETED
    decreases |items|
  {
    LiveIsLive(items);
    var n := |Live(items)|;
    if n > 0 && items[0][0] != DELETED {
      SeesLiveIff(items[1..]);
      assert items[..n] == [items[0]] + items[1..][..n - 1];
      assert Live(items)[1..] == Live(items[1..]) && items[..n][1..] == items[1..][..n - 1];
      forall i: nat | i < n ensures items[i] == if i == 0 then items[0] else items[1..][i - 1] {
      }
      assert (forall i: nat | i < n - 1 :: items[1..][i][0] != DELETED) ==>
             forall i: nat | 0 < i < n :: items[i][0] != DELETED by {
        forall i: nat | 0 < i < n ensures items[i] == items[1..][i - 1] {
        }
      }
    } else if n > 0 {
      assert items[..n][0] == items[0] && Live(items)[0][0] != DELETED;
    }
  }

  /** Of a deleted entry and one in use, one is counted and it is the deleted one. */
  lemma DeletedHidesLast()
    ensures var gone, here := ZeroBytes(32)[0 := 0xE5], ZeroBytes(32)[0 := 65];
            Live([gone, here]) == [here] && [gone, here][..|Live([gone, here])|] == [gone] && gone != here
  {
    var gone: Item, here: Item := ZeroBytes(32)[0 := 0xE5], ZeroBytes(32)[0 := 65];
    assert [gone, here][1..] == [here] && [here][1..] == [];
    assert Live([here]) == [here];
    assert gone[0] != here[0];
  }

  lemma {:induction false} LiveIsLive(items: seq<Item>)
    ensures forall i: nat | i < |Live(items)| :: Live(items)[i][0] != DELETED
  {
    if items != [] {
      LiveIsLive(items[1..]);
    }
  }

  // ---------------------------------------------------------------- loading

  function ItemsOf(bytes: seq<Byte>): (items: seq<Item>)
    ensures |items| == |bytes| / 32
    ensures forall i | 0 <= i < |items| :: items[i] == bytes[32 * i..32 * i + 32]
  {
    seq<Item>(|bytes| / 32, i requires 0 <= i < |bytes| / 32 => bytes[32 * i..32 * i + 32])
  }

  /** Number of entries before the terminator of the directory that starts at disk position pos. */
  ghost function Length(disk: Disk, pos: nat): (n: nat)
    requires exists k :: EndsAt(disk, pos, k)
    ensures EndsAt(disk, pos, n)
  {
    var n :| EndsAt(disk, pos, n); n
  }

  ghost function Counted(v: Volume, cluster: nat): nat
    requires exists k :: EndsAt(v.disk, v.Pos(cluster), k)
  {
    |Live(Raw(v.disk, v.Pos(cluster), Length(v.disk, v.Pos(cluster))))|
  }

  /** The sub-directory at cluster c is on the disk, has an end, and its chain holds the counted entries. */
  ghost predicate Loadable(v: Volume, c: nat)
    requires v.Valid()
  {
    && 0 <= v.header.ClusterSector(c)
    && (exists k :: EndsAt(v.disk, v.Pos(c), k))
    && OnDisk(v, c, Touched(v, 0, 32 * Counted(v, c)))
    && ReadAt(v, c, 0, 32 * Counted(v, c)).ok
  }

  /** What loading makes of the sub-directory at cluster c. */
  ghost function Loaded(v: Volume, c: nat): Directory
    requires v.Valid() && Loadable(v, c)
  {
    Directory(ItemsOf(ReadAt(v, c, 0, 32 * Counted(v, c)).bytes), Counted(v, c))
  }

  /** A sub-directory with no deleted entry before its end, and with its entries in its first
      cluster, is loaded whole: the entries before the terminator, in order. */
  lemma LoadedIsRaw(v: Volume, c: nat)
    requires v.Valid() && Loadable(v, c)
    requires var n := Length(v.disk, v.Pos(c));
             && 32 * n <= v.ClusterBytes()
             && forall i: nat | i < n :: ItemAt(v.disk, v.Pos(c), i)[0] != 0xE5
    ensures var n := Length(v.disk, v.Pos(c)); Loaded(v, c) == Directory(Raw(v.disk, v.Pos(c), n), n)
  {
    hide Quotient, Remainder, ByteAt, Volume.ClusterBytes, Volume.Pos, Live, OnDisk;
    var n := Length(v.disk, v.Pos(c));
    var raw := Raw(v.disk, v.Pos(c), n);
    NoneDeleted(raw);
    var bytes := ReadAt(v, c, 0, 32 * n).bytes;
    StepDown(0, v.ClusterBytes());
    assert bytes == Slice(v.disk, v.Pos(c), 32 * n) by {
      assert Chain(v, c, 0) == Some(c);
    }
    forall i: nat | i < n ensures ItemsOf(bytes)[i] == raw[i] {
      assert Slice(v.disk, v.Pos(c), 32 * n)[32 * i..32 * i + 32] == Slice(v.disk, v.Pos(c) + 32 * i, 32);
    }
  }

  lemma {:induction false} NoneDeleted(items: seq<Item>)
    requires forall i: nat | i < |items| :: items[i][0] != DELETED
    ensures Live(items) == items
  {
    if items != [] {
      NoneDeleted(items[1..]);
    }
  }

  /** Entry records written one behind the other. */
  function Texts(records: seq<EntryRecord>): seq<Byte> {
    if records == [] then [] else records[0].Text() + Texts(records[1..])
  }

  /** A directory as it is written: records in use one behind the other, and a zero byte.  Its end is behind the
      last record, it has exactly these entries, and all of them count. */
  lemma {:induction false} WrittenDirectory(disk: Disk, pos: nat, records: seq<EntryRecord>)
    requires forall r <- records :: r.Valid() && r.name[0] != 0 && r.name[0] != 0xE5
    requires Slice(disk, pos, 32 * |records|) == Texts(records) && ByteAt(disk, pos + 32 * |records|) == 0
    ensures EndsAt(disk, pos, |records|)
    ensures forall i: nat | i < |records| :: Raw(disk, pos, |records|)[i] == records[i].Text()
    ensures Live(Raw(disk, pos, |records|)) == Raw(disk, pos, |records|)
  {
    hide ByteAt, EntryRecord.Text, Texts, Live;
    var n := |records|;
    forall i: nat | i < n ensures ItemAt(disk, pos, i) == records[i].Text() && |records[i].Text()| == 32 {
      TextAt(records, i);
      assert records[i] in records;
      assert Slice(disk, pos, 32 * n)[32 * i..32 * i + 32] == Slice(disk, pos + 32 * i, 32);
    }
    forall i: nat | i < n ensures ItemAt(disk, pos, i)[0] != 0 && ItemAt(disk, pos, i)[0] != DELETED {
      assert records[i] in records;
      EntryFields(records[i]);
      assert records[i].Text()[..8][0] == records[i].name[0];
    }
    NoneDeleted(Raw(disk, pos, n));
  }

  lemma {:induction false} TextAt(records: seq<EntryRecord>, i: nat)
    requires (forall r <- records :: r.Valid()) && i < |records|
    ensures |Texts(records)| == 32 * |records| && Texts(records)[32 * i..32 * i + 32] == records[i].Text()
  {
    hide EntryRecord.Text;
    assert records[0] in records;
    EntryFields(records[0]);
    var rest := records[1..];
    if rest == [] {
      assert Texts(rest) == [];
    } else {
      TextAt(rest, if 0 < i then i - 1 else 0);
    }
  }

  lemma LengthUnique(disk: Disk, pos: nat, m: nat, n: nat)
    requires EndsAt(disk, pos, m) && EndsAt(disk, pos, n)
    ensures m == n
  {
  }

  /** fat16_load_fat_directory of a loadable sub-directory, whose entry stores cluster c. */
  method LoadDirectory(driver: Driver, item: Item, ghost c: nat) returns (directory: Directory)
    requires driver.Valid() && StoresCluster(item, c) && Loadable(driver.volume, c)
    modifies driver.directoryStream, driver.fatStream, driver.clusterStream
    ensures directory == Loaded(driver.volume, c)
  {
    hide ReadAt, Touched, OnDisk, Live, Stored, StoresCluster;
    FirstClusterIff(item, c);
    var cluster := FirstCluster(item);
    var sector := driver.volume.header.ClusterSector(cluster);
    ghost var n := Length(driver.volume.disk, driver.volume.Pos(cluster));
    var total := CountItems(driver, sector, n);
    var buffer := new Byte[32 * total];
    ghost var before := buffer[..];
    var res := driver.ReadInternal(cluster, 0, 32 * total, buffer, 0);
    StoredAll(before, ReadAt(driver.volume, cluster, 0, 32 * total).bytes);
    directory := Directory(ItemsOf(buffer[..]), total);
  }

  // ---------------------------------------------------------------- mounting

  const SIGNATURE_POS := 38
  const SIGNATURE := 0x29

  /** Entries read in one piece are the entries at their places. */
  lemma ItemsOfSlice(disk: Disk, pos: nat, n: nat)
    ensures ItemsOf(Slice(disk, pos, 32 * n)) == Raw(disk, pos, n)
  {
    hide ByteAt;
    forall i: nat | i < n ensures Slice(disk, pos, 32 * n)[32 * i..32 * i + 32] == ItemAt(disk, pos, i) {
    }
  }

  /** fat16_get_root_directory: all entries the header announces, of which lookups go through the counted ones. */
  method GetRootDirectory(driver: Driver, ghost n: nat) returns (root: Directory)
    requires driver.Valid() && EndsAt(driver.volume.disk, driver.volume.header.RootStart() * SECTOR_SIZE, n)
    modifies driver.directoryStream
    ensures var disk, pos := driver.volume.disk, driver.volume.header.RootStart() * SECTOR_SIZE;
            root == Directory(Raw(disk, pos, driver.volume.header.rootDirEntries), |Live(Raw(disk, pos, n))|)
  {
    hide Slice, Live, Stored;
    var header := driver.volume.header;
    var total := CountItems(driver, header.RootStart(), n);
    var buffer := new Byte[32 * header.rootDirEntries];
    ghost var before := buffer[..];
    driver.directoryStream.Seek(header.RootStart() * SECTOR_SIZE);
    driver.directoryStream.Read(buffer, 0, 32 * header.rootDirEntries);
    StoredAll(before, Slice(driver.volume.disk, header.RootStart() * SECTOR_SIZE, 32 * header.rootDirEntries));
    ItemsOfSlice(driver.volume.disk, header.RootStart() * SECTOR_SIZE, header.rootDirEntries);
    root := Directory(ItemsOf(buffer[..]), total);
  }

  /** fat16_resolve of a disk that starts with the fields b: refuses any signature but 0x29, and otherwise
      takes these fields. */
  method Mount(disk: Disk, ghost b: BootRecord, ghost n: nat) returns (res: int, driver: Driver?, root: Directory)
    requires StartsWith(disk, b)
    requires b.signature == 0x29 ==> 0 < b.sectorsPerCluster && EndsAt(disk, b.RootPosition(), n)
    ensures res == if b.signature == 0x29 then 0 else -EFSNOTUS
    ensures res == 0 ==>
              && driver != null && driver.Valid() && driver.volume.disk == disk
              && driver.volume.header == Header(
                   bytesPerSector := b.bytesPerSector, sectorsPerCluster := b.sectorsPerCluster,
                   reservedSectors := b.reservedSectors, fatCopies := b.fatCopies,
                   rootDirEntries := b.rootDirEntries, sectorsPerFat := b.sectorsPerFat)
              && root == Directory(Raw(disk, b.RootPosition(), b.rootDirEntries),
                                   |Live(Raw(disk, b.RootPosition(), n))|)
    ensures res != 0 ==> driver == null
  {
    hide ByteAt, Stored, Live, Raw, BootRecord.Text, Pair;
    driver, root := null, Directory([], 0);
    var stream := new Stream(disk);
    var bytes := new Byte[62];
    ghost var before := bytes[..];
    stream.Read(bytes, 0, 62);
    StoredAll(before, Slice(disk, 0, 62));
    var s := bytes[..];
    FieldsLie(b);
    if s[SIGNATURE_POS] != SIGNATURE {
      return -EFSNOTUS, null, root;
    }
    var header := Header(Pair(s[11], s[12]), s[13], Pair(s[14], s[15]), s[16], Pair(s[17], s[18]), Pair(s[22], s[23]));
    driver := new Driver(Volume(disk, header));
    assert header.RootStart() * SECTOR_SIZE == b.RootPosition();
    root := GetRootDirectory(driver, n);
    res := 0;
  }

  // ---------------------------------------------------------------- lookup

  /** The name comparison of a lookup: without regard to case, over at most 108 characters. */
  predicate Named(item: Item, name: seq<Byte>) {
    SameText(FullName(item), Within(name, MAX_PATH))
  }

  /** The entry of SHELL.ELF has the name shell.elf. */
  lemma ShellIsNamed(item: Item, name: seq<Byte>)
    requires item[..8] == [83, 72, 69, 76, 76, 32, 32, 32] && item[8..11] == [69, 76, 70]
    requires 9 < |name| && name[..9] == [115, 104, 101, 108, 108, 46, 101, 108, 102] && name[9] == 0
    ensures Named(item, name)
  {
    hide FullName;
    ShellName(item);
    hide Within;
    WithinIs(name, 9, MAX_PATH);
  }

  /** The last of the first n entries that has the name. */
  function LastNamed(items: seq<Item>, n: nat, name: seq<Byte>): (r: Option<nat>)
    requires n <= |items|
    ensures r.Some? ==> r.value < n
  {
    if n == 0 then None
    else if Named(items[n - 1], name) then Some(n - 1)
    else LastNamed(items, n - 1, name)
  }

  lemma {:induction false} LastNamedIs(items: seq<Item>, n: nat, name: seq<Byte>)
    requires n <= |items|
    ensures match LastNamed(items, n, name)
            case None => forall i: nat | i < n :: !Named(items[i], name)
            case Some(k) => Named(items[k], name) && forall i | k < i < n :: !Named(items[i], name)
  {
    hide Named;
    if 0 < n {
      LastNamedIs(items, n - 1, name);
    }
  }

  ghost predicate Searchable(v: Volume, dir: Directory, name: seq<Byte>)
    requires v.Valid()
  {
    && dir.total <= |dir.items|
    && forall i: nat | i < dir.total && Named(dir.items[i], name) && IsDirectory(dir.items[i]) ::
         Loadable(v, FirstCluster(dir.items[i]))
  }

  /** A loaded directory for a sub-directory's entry, a copy of the entry for any other.  (An empty
      directory for one that cannot be loaded, which no lookup below comes across.) */
  ghost function ItemFor(v: Volume, item: Item): FatItem
    requires v.Valid()
  {
    if !IsDirectory(item) then FileItem(item)
    else
      var c := FirstCluster(item);
      DirectoryItem(if Loadable(v, c) then Loaded(v, c) else Directory([], 0))
  }

  ghost function Find(v: Volume, dir: Directory, name: seq<Byte>): Option<FatItem>
    requires v.Valid() && Searchable(v, dir, name)
  {
    match LastNamed(dir.items, dir.total, name)
    case None => None
    case Some(i) => Some(ItemFor(v, dir.items[i]))
  }

  predicate CString(s: seq<Byte>) {
    0 in s || MAX_PATH <= |s|
  }

  /** fat16_find_item_in_directory: goes through all entries, so that a later match replaces an earlier one. */
  method FindItem(driver: Driver, dir: Directory, name: seq<Byte>) returns (found: Option<FatItem>)
    requires driver.Valid() && CString(name) && Searchable(driver.volume, dir, name)
    modifies driver.directoryStream, driver.fatStream, driver.clusterStream
    ensures found == Find(driver.volume, dir, name)
    ensures found.None? <==> forall i: nat | i < dir.total :: !Named(dir.items[i], name)
    ensures forall k: nat | k < dir.total && LastNamedAt(dir.items[..dir.total], k, name) ::
              found == Some(ItemFor(driver.volume, dir.items[k]))
  {
    hide FullName, SameText, Within, Loadable, Loaded, LastNamedAt;
    LastNamedIs(dir.items, dir.total, name);
    forall k: nat | k < dir.total && LastNamedAt(dir.items[..dir.total], k, name)
      ensures LastNamed(dir.items, dir.total, name) == Some(k)
    {
      OneIsLast(dir, k, name);
    }
    found := None;
    var tmpFilename := new Byte[MAX_PATH];
    var i := 0;
    while i < dir.total
      invariant 0 <= i <= dir.total
      invariant found == match LastNamed(dir.items, i, name)
                         case None => None
                         case Some(k) => Some(ItemFor(driver.volume, dir.items[k]))
    {
      var item := dir.items[i];
      FullRelativeFilename(item, tmpFilename);
      WithinName(tmpFilename[..], FullName(item));
      var res := Istrncmp(tmpFilename[..], name, MAX_PATH);
      if res == 0 {
        if IsDirectory(item) {
          var directory := LoadDirectory(driver, item, FirstCluster(item));
          found := Some(DirectoryItem(directory));
        } else {
          found := Some(FileItem(item));
        }
      }
      i := i + 1;
    }
  }

  lemma OneIsLast(dir: Directory, k: nat, name: seq<Byte>)
    requires dir.total <= |dir.items| && k < dir.total && LastNamedAt(dir.items[..dir.total], k, name)
    ensures LastNamed(dir.items, dir.total, name) == Some(k)
  {
    hide Named;
    LastNamedIs(dir.items, dir.total, name);
    var items := dir.items[..dir.total];
    assert forall i: nat | i < dir.total :: items[i] == dir.items[i];
    assert Named(dir.items[k], name);
  }

  lemma WithinName(s: seq<Byte>, name: seq<Byte>)
    requires |name| < |s| == MAX_PATH && 0 !in name && s == name + ZeroBytes(|s| - |name|)
    ensures Within(s, MAX_PATH) == name && 0 in s
  {
    assert s[..|name|] == name && s[|name|] == 0;
    WithinIs(s, |name|, MAX_PATH);
  }

  // ---------------------------------------------------------------- paths

  /** Every directory the path leads through can be loaded, and every component but the last is there. */
  ghost predicate Resolvable(v: Volume, dir: Directory, parts: seq<seq<Byte>>)
    requires v.Valid() && 0 < |parts|
    decreases |parts|
  {
    && CString(parts[0])
    && Searchable(v, dir, parts[0])
    && (1 < |parts| ==>
          && Find(v, dir, parts[0]).Some?
          && (Find(v, dir, parts[0]).value.DirectoryItem? ==>
                Resolvable(v, Find(v, dir, parts[0]).value.directory, parts[1..])))
  }

  ghost function Resolve(v: Volume, dir: Directory, parts: seq<seq<Byte>>): Option<FatItem>
    requires v.Valid() && 0 < |parts| && Resolvable(v, dir, parts)
    decreases |parts|
  {
    var found := Find(v, dir, parts[0]);
    if |parts| == 1 then found
    else if found.value.FileItem? then None
    else Resolve(v, found.value.directory, parts[1..])
  }

  /** fat16_get_directory_entry. */
  method GetDirectoryEntry(driver: Driver, root: Directory, parts: seq<seq<Byte>>) returns (current: Option<FatItem>)
    requires driver.Valid() && 0 < |parts| && Resolvable(driver.volume, root, parts)
    modifies driver.directoryStream, driver.fatStream, driver.clusterStream
    ensures current == Resolve(driver.volume, root, parts)
  {
    hide Find, Searchable;
    var rootItem := FindItem(driver, root, parts[0]);
    if rootItem.None? {
      return None;
    }
    current := rootItem;
    var next := 1;
    ghost var dir := root;
    while next < |parts|
      invariant 1 <= next <= |parts| && current.Some?
      invariant Resolvable(driver.volume, dir, parts[next - 1..])
      invariant current == Find(driver.volume, dir, parts[next - 1])
      invariant Resolve(driver.volume, dir, parts[next - 1..]) == Resolve(driver.volume, root, parts)
    {
      if current.value.FileItem? {
        return None;
      }
      assert parts[next - 1..][1..] == parts[next..];
      dir := current.value.directory;
      current := FindItem(driver, current.value.directory, parts[next]);
      next := next + 1;
      if current.None? {
        return;
      }
    }
  }

  datatype Opened = Refused(error: int) | OpenedFile(file: OpenFile) | OpenedDirectory(directory: Directory)

  /** fat16_open: only for reading, and only what is there; a file is open at position 0. */
  method Open(driver: Driver, root: Directory, parts: seq<seq<Byte>>, forReading: bool) returns (r: Opened)
    requires driver.Valid() && 0 < |parts| && (forReading ==> Resolvable(driver.volume, root, parts))
    modifies driver.directoryStream, driver.fatStream, driver.clusterStream
    ensures !forReading ==> r == Refused(-ERDONLY)
    ensures forReading ==>
              match Resolve(driver.volume, root, parts)
              case None => r == Refused(-EIO)
              case Some(FileItem(item)) => r.OpenedFile? && fresh(r.file) && r.file.item == item && r.file.pos == 0
              case Some(DirectoryItem(d)) => r == OpenedDirectory(d)
  {
    hide Resolve, Resolvable;
    if !forReading {
      return Refused(-ERDONLY);
    }
    var entry := GetDirectoryEntry(driver, root, parts);
    if entry.None? {
      return Refused(-EIO);
    }
    match entry.value
    case FileItem(item) =>
      var file := new OpenFile(item);
      r := OpenedFile(file);
    case DirectoryItem(d) =>
      r := OpenedDirectory(d);
  }

  // ---------------------------------------------------------------- the tree on the disk

  /** A directory tree cut off at some depth. */
  datatype Tree = FileNode(item: Item) | DirectoryNode(entries: seq<Entry>) | Cut
  datatype Entry = Entry(name: seq<Byte>, node: Tree)

  ghost predicate HasEnd(v: Volume, pos: nat) {
    exists n :: EndsAt(v.disk, pos, n)
  }

  /** All entries of the directory at disk position pos, up to its terminator. */
  ghost function Entries(v: Volume, pos: nat): seq<Item>
    requires HasEnd(v, pos)
  {
    Raw(v.disk, pos, Length(v.disk, pos))
  }

  /** Where the directory of a sub-directory's entry starts. */
  function Place(v: Volume, item: Item): (pos: nat)
    ensures forall c :: StoresCluster(item, c) ==> pos == v.Pos(c)
  {
    forall c | StoresCluster(item, c) ensures c == FirstCluster(item) { FirstClusterIff(item, c); }
    v.Pos(FirstCluster(item))
  }

  /** The node of an entry, read off the disk: nothing here counts, loads or looks anything up. */
  ghost function NodeOf(v: Volume, item: Item, depth: nat): Tree
    decreases depth, 1
  {
    if !IsDirectory(item) then FileNode(item) else if depth == 0 then Cut else TreeAt(v, Place(v, item), depth)
  }

  /** The tree below the directory at disk position pos, `depth` levels of it. */
  ghost function TreeAt(v: Volume, pos: nat, depth: nat): Tree
    requires 0 < depth
    decreases depth, 0
  {
    if !HasEnd(v, pos) then Cut
    else
      var items := Entries(v, pos);
      DirectoryNode(seq(|items|, i requires 0 <= i < |items| =>
        Entry(FullName(items[i]), NodeOf(v, items[i], depth - 1))))
  }

  /** Entry i is the last one of that name, without regard to case. */
  predicate IsLast(entries: seq<Entry>, i: int, name: seq<Byte>) {
    && 0 <= i < |entries| && SameText(entries[i].name, Within(name, MAX_PATH))
    && forall j | i < j < |entries| :: !SameText(entries[j].name, Within(name, MAX_PATH))
  }

  /** Recursive lookup of a path in a tree. */
  ghost function Lookup(tree: Tree, parts: seq<seq<Byte>>): Option<Tree>
    decreases |parts|
  {
    if parts == [] then Some(tree)
    else if tree.DirectoryNode? && exists i :: IsLast(tree.entries, i, parts[0]) then
      var i :| IsLast(tree.entries, i, parts[0]);
      Lookup(tree.entries[i].node, parts[1..])
    else None
  }

  /** A sub-directory on the disk, with an end, no deleted entry before it, and no more than one cluster. */
  ghost predicate Tidy(v: Volume, item: Item)
    requires v.Valid()
  {
    && 0 <= v.header.ClusterSector(FirstCluster(item))
    && HasEnd(v, Place(v, item))
    && 32 * |Entries(v, Place(v, item))| <= v.ClusterBytes()
    && NoneIsDeleted(Entries(v, Place(v, item)))
  }

  predicate NoneIsDeleted(items: seq<Item>) {
    forall i: nat | i < |items| :: items[i][0] != DELETED
  }

  /** The path from the directory at pos leads through tidy directories only, and no component but the
      last is missing: all said of the disk. */
  ghost predicate TidyPath(v: Volume, pos: nat, parts: seq<seq<Byte>>)
    requires v.Valid()
    decreases |parts|
  {
    0 < |parts| && CString(parts[0]) && HasEnd(v, pos) &&
    var items := Entries(v, pos);
    && (forall i: nat | i < |items| && Named(items[i], parts[0]) && IsDirectory(items[i]) :: Tidy(v, items[i]))
    && (1 < |parts| ==>
          && (exists i :: LastNamedAt(items, i, parts[0]))
          && forall i | LastNamedAt(items, i, parts[0]) && IsDirectory(items[i]) ::
               TidyPath(v, Place(v, items[i]), parts[1..]))
  }

  predicate LastNamedAt(items: seq<Item>, i: int, name: seq<Byte>) {
    0 <= i < |items| && Named(items[i], name) && forall j | i < j < |items| :: !Named(items[j], name)
  }

  /** A directory in memory is the one at disk position pos, entry by entry. */
  ghost predicate Mirrors(v: Volume, dir: Directory, pos: nat) {
    && HasEnd(v, pos) && dir.total == |Entries(v, pos)| <= |dir.items|
    && dir.items[..dir.total] == Entries(v, pos)
  }

  /** The root directory that mounting reads is the one on disk, if it has no deleted entry before its
      end and its end is among its announced entries. */
  lemma RootMirrors(v: Volume, n: nat)
    requires var pos := v.header.RootStart() * SECTOR_SIZE;
             EndsAt(v.disk, pos, n) && n <= v.header.rootDirEntries && NoneIsDeleted(Raw(v.disk, pos, n))
    ensures var pos := v.header.RootStart() * SECTOR_SIZE;
            Mirrors(v, Directory(Raw(v.disk, pos, v.header.rootDirEntries), |Live(Raw(v.disk, pos, n))|), pos)
  {
    hide ItemAt;
    var pos := v.header.RootStart() * SECTOR_SIZE;
    LengthUnique(v.disk, pos, n, Length(v.disk, pos));
    NoneDeleted(Raw(v.disk, pos, n));
    assert Raw(v.disk, pos, v.header.rootDirEntries)[..n] == Raw(v.disk, pos, n);
  }

  /** A tidy sub-directory can be loaded, and what is loaded is what is on the disk. */
  lemma LoadedMirrors(v: Volume, item: Item)
    requires v.Valid() && Tidy(v, item)
    ensures Loadable(v, FirstCluster(item)) && Mirrors(v, Loaded(v, FirstCluster(item)), Place(v, item))
  {
    hide ItemAt, FirstCluster, Volume.Pos, StoresCluster;
    var c, cb := FirstCluster(item), v.ClusterBytes();
    var items := Entries(v, v.Pos(c));
    NoneDeleted(items);
    OneCluster(v, c, 32 * |items|);
    forall i: nat | i < |items| ensures ItemAt(v.disk, v.Pos(c), i)[0] != DELETED {
      assert items[i][0] != DELETED;
    }
    LoadedIsRaw(v, c);
    assert items[..|items|] == items;
  }

  /** A read from the start that stays within the first cluster looks at that one only. */
  lemma OneCluster(v: Volume, c: nat, total: nat)
    requires v.Valid() && 0 <= v.header.ClusterSector(c) && total <= v.ClusterBytes()
    ensures OnDisk(v, c, Touched(v, 0, total)) && ReadAt(v, c, 0, total).ok
  {
    hide Quotient, Remainder, Next, Slice, Volume.Pos, Volume.ClusterBytes;
    StepDown(0, v.ClusterBytes());
    if 0 < total {
      StepDown(total - 1, v.ClusterBytes());
    }
    assert Chain(v, c, 0) == Some(c);
  }

  /** The entry a lookup in memory settles on is the last one of that name on the disk and in the tree. */
  lemma FoundOnDisk(v: Volume, dir: Directory, pos: nat, name: seq<Byte>, depth: nat)
    requires v.Valid() && 0 < depth && Mirrors(v, dir, pos)
    ensures var tree, items := TreeAt(v, pos, depth), Entries(v, pos);
            tree.DirectoryNode? &&
            match LastNamed(dir.items, dir.total, name)
            case None => (forall i :: !IsLast(tree.entries, i, name)) && forall i :: !LastNamedAt(items, i, name)
            case Some(k) =>
              && k < |items| && dir.items[k] == items[k] && LastNamedAt(items, k, name)
              && (forall i :: IsLast(tree.entries, i, name) <==> i == k)
              && (forall i :: LastNamedAt(items, i, name) <==> i == k)
              && tree.entries[k].node == NodeOf(v, items[k], depth - 1)
  {
    hide FullName, SameText, Within, NodeOf, Entries;
    LastNamedIs(dir.items, dir.total, name);
    var tree, items := TreeAt(v, pos, depth), Entries(v, pos);
    forall i: nat | i < dir.total ensures dir.items[i] == items[i] {
      assert dir.items[..dir.total][i] == items[i];
    }
    forall i: nat | i < |items|
      ensures Named(items[i], name) <==> SameText(tree.entries[i].name, Within(name, MAX_PATH))
    {
    }
  }

  /** What path resolution returned is the node of the tree that lookup finds: nothing for nothing, the
      entry of a file, or a directory that is the one on the disk. */
  ghost predicate Denotes(v: Volume, found: Option<FatItem>, node: Option<Tree>, depth: nat) {
    match found
    case None => node.None?
    case Some(FileItem(item)) => node == Some(FileNode(item))
    case Some(DirectoryItem(d)) =>
      exists pos :: Mirrors(v, d, pos) && node == Some(if depth == 0 then Cut else TreeAt(v, pos, depth))
  }

  /** The first component: what memory finds is what the tree holds. */
  lemma FirstComponent(v: Volume, dir: Directory, pos: nat, parts: seq<seq<Byte>>, depth: nat)
    requires v.Valid() && 0 < depth && TidyPath(v, pos, parts) && Mirrors(v, dir, pos)
    ensures 0 < |parts| && CString(parts[0]) && Searchable(v, dir, parts[0])
    ensures match Find(v, dir, parts[0])
            case None => Lookup(TreeAt(v, pos, depth), parts) == None && |parts| == 1
            case Some(FileItem(item)) => Lookup(TreeAt(v, pos, depth), parts) == Lookup(FileNode(item), parts[1..])
            case Some(DirectoryItem(d)) =>
              exists p ::
                && Mirrors(v, d, p) && (1 < |parts| ==> TidyPath(v, p, parts[1..]))
                && Lookup(TreeAt(v, pos, depth), parts)
                   == Lookup(if depth == 1 then Cut else TreeAt(v, p, depth - 1), parts[1..])
  {
    hide TreeAt, Named, Tidy, Loadable, Loaded, HasEnd;
    FoundOnDisk(v, dir, pos, parts[0], depth);
    SearchableHere(v, dir, pos, parts);
    var tree, items := TreeAt(v, pos, depth), Entries(v, pos);
    match LastNamed(dir.items, dir.total, parts[0])
    case None =>
    case Some(k) =>
      assert IsLast(tree.entries, k, parts[0]) && LastNamedAt(items, k, parts[0]);
      assert Lookup(tree, parts) == Lookup(NodeOf(v, items[k], depth - 1), parts[1..]);
      if IsDirectory(items[k]) {
        LoadedMirrors(v, items[k]);
        assert Mirrors(v, Loaded(v, FirstCluster(items[k])), Place(v, items[k]));
      }
  }

  lemma SearchableHere(v: Volume, dir: Directory, pos: nat, parts: seq<seq<Byte>>)
    requires v.Valid() && TidyPath(v, pos, parts) && Mirrors(v, dir, pos)
    ensures Searchable(v, dir, parts[0])
  {
    hide Named, Tidy, Loadable, HasEnd;
    var items := Entries(v, pos);
    forall i: nat | i < dir.total && Named(dir.items[i], parts[0]) && IsDirectory(dir.items[i])
      ensures Loadable(v, FirstCluster(dir.items[i]))
    {
      assert dir.items[..dir.total][i] == items[i];
      LoadedMirrors(v, items[i]);
    }
  }

  /** Path resolution is recursive lookup in the directory tree on the disk, for every path through
      tidy directories and to any depth that covers it; and such a path can be resolved. */
  lemma {:induction false} ResolveIsLookup(v: Volume, dir: Directory, pos: nat, parts: seq<seq<Byte>>, depth: nat)
    requires v.Valid() && 0 < |parts| <= depth && TidyPath(v, pos, parts) && Mirrors(v, dir, pos)
    ensures Resolvable(v, dir, parts)
    ensures Denotes(v, Resolve(v, dir, parts), Lookup(TreeAt(v, pos, depth), parts), depth - |parts|)
    decreases |parts|
  {
    hide TreeAt, Searchable, Find, Lookup, Mirrors, TidyPath, Denotes, CString;
    FirstComponent(v, dir, pos, parts, depth);
    var found := Find(v, dir, parts[0]);
    match found
    case None => NothingDenotes(v, depth - |parts|);
    case Some(FileItem(item)) =>
      LookupInFile(item, parts[1..]);
      NothingDenotes(v, depth - |parts|);
      FileDenotes(v, item, depth - |parts|);
    case Some(DirectoryItem(d)) =>
      var p :| Mirrors(v, d, p) && (1 < |parts| ==> TidyPath(v, p, parts[1..]))
        && Lookup(TreeAt(v, pos, depth), parts) ==
           Lookup(if depth == 1 then Cut else TreeAt(v, p, depth - 1), parts[1..]);
      if 1 < |parts| {
        ResolveIsLookup(v, d, p, parts[1..], depth - 1);
      } else {
        LookupNothing(if depth == 1 then Cut else TreeAt(v, p, depth - 1), parts[1..]);
        DirectoryDenotes(v, d, p, depth - 1);
      }
  }

  lemma NothingDenotes(v: Volume, depth: nat)
    ensures Denotes(v, None, None, depth)
  {
  }

  lemma FileDenotes(v: Volume, item: Item, depth: nat)
    ensures Denotes(v, Some(FileItem(item)), Some(FileNode(item)), depth)
  {
  }

  lemma DirectoryDenotes(v: Volume, d: Directory, pos: nat, depth: nat)
    requires Mirrors(v, d, pos)
    ensures Denotes(v, Some(DirectoryItem(d)), Some(if depth == 0 then Cut else TreeAt(v, pos, depth)), depth)
  {
  }

  lemma LookupNothing(tree: Tree, parts: seq<seq<Byte>>)
    requires parts == []
    ensures Lookup(tree, parts) == Some(tree)
  {
  }

  lemma LookupInFile(item: Item, parts: seq<seq<Byte>>)
    ensures Lookup(FileNode(item), parts) == if parts == [] then Some(FileNode(item)) else None
  {
  }
}
