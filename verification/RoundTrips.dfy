// Operations composed: what one undoes or what the next one sees of it.

module RoundTrips {
  import opened Bytes
  import opened Endian
  import opened Codec
  import opened Geometry
  import opened Volumes
  import opened Streams
  import opened Layouts
  import opened FatxFs
  import opened Dirs
  import opened Listings
  import opened FileOps
  import opened DirOps
  import opened Renames
  import opened Contents
  import opened Rooms
  import opened Partitions
  import opened Superblocks
  import opened Formats
  import opened RustReader
  import opened Spaces
  import opened Machine
  import opened Trees
  import opened Runs

  lemma StillFile(v: Volume, g: Layout, v': Volume, g': Layout, d: nat, name: seq<byte>, k: nat)
    requires Inv(v, g) && Inv(v', g') && Names(v, g, d, name, k) && k in Abs(v', g')
    requires Abs(v', g') == Abs(v, g)[k := Abs(v', g')[k]]
    requires Abs(v', g')[k].dir == d && Abs(v', g')[k].attr.name == name && !Abs(v', g')[k].attr.IsDirectory()
    ensures NamesFile(v', g', d, name) && Names(v', g', d, name, k)
  {
    hide AttrOf, SlotAt, InvBut, Live, Abs, AttrAt;
    forall p | Live(v', g', p) && p.dir == d && AttrAt(v', g', p).name == name
      ensures !AttrAt(v', g', p).IsDirectory() {
      LiveNames(v', g', p);
      NamesUnique(v', g', d, name, k, AttrAt(v', g', p).first);
    }
  }

  lemma NodeIsFile(v: Volume, g: Layout, d: nat, name: seq<byte>, k: nat)
    requires Inv(v, g) && NamesFile(v, g, d, name) && Names(v, g, d, name, k)
    ensures k in Abs(v, g) && !Abs(v, g)[k].attr.IsDirectory() && Sized(Abs(v, g)[k])
  {
    hide InvBut, Abs, Inv, NamesFile;
    InvProper(v, g);
    FileByName(v, g, d, name, k);
    NamesAttr(v, g, d, name, k);
  }

  // What was written is what is read.
  method WriteThenRead(fs: Fs, d: nat, name: seq<byte>, offset: nat, data: seq<byte>)
      returns (done: bool, back: seq<byte>)
    requires fs.Mounted() && d in fs.layout.dirs && NamesFile(fs.vol, fs.layout, d, name)
    requires data != [] && offset + |data| < WORD
    modifies fs
    ensures fs.Mounted()
    ensures done ==> back == data
    ensures !done ==> NoneFree(fs.vol.fat, 2, fs.geo.numClusters) || old(NoEntry(fs.vol, fs.layout, d, name))
  {
    hide Rep, Framed, InvBut, Abs, NamesFile, NoneFree, Live, Times, ClustersFor, PartlyWritten, WrittenNode, NoEntry,
         AttrAt;
    fs.Bounds();
    ghost var v0, g0 := fs.vol, fs.layout;
    var status, count;
    ghost var k, stuck;
    status, count, k, stuck := Write(fs, d, name, offset, data);
    if status != Success || count != |data| {
      return false, [];
    }
    fs.Bounds();
    NodeIsFile(v0, g0, d, name, k);
    WrittenShapeOf(Abs(v0, g0)[k], offset, data, fs.geo.bytesPerCluster);
    StillFile(v0, g0, fs.vol, fs.layout, d, name, k);
    ReadAfterWrite(Abs(v0, g0)[k], offset, data, fs.geo.bytesPerCluster);
    NoEntryIsFalse(fs.vol, fs.layout, d, name, k);
    var buf := new byte[|data|];
    ghost var j;
    status, count, j := Read(fs, d, name, offset, |data|, buf);
    if status == Success { NamesUnique(fs.vol, fs.layout, d, name, k, j); }
    done, back := true, buf[..];
  }

  lemma WrittenShapeOf(n: Node, offset: nat, d: seq<byte>, b: nat)
    requires b > 0
    ensures var m := WrittenNode(n, offset, d, b);
      m.dir == n.dir && m.attr.name == n.attr.name && m.attr.IsDirectory() == n.attr.IsDirectory()
  {
    hide Times, ClustersFor;
  }

  // Exchanging two entries twice leaves the inode table as it was.
  method ExchangeTwice(fs: Fs, d1: nat, name1: seq<byte>, d2: nat, name2: seq<byte>, now: Ts) returns (status: Status)
    requires fs.Mounted() && d1 in fs.layout.dirs && d2 in fs.layout.dirs && name2 != [] && 0 !in name2
    requires |fs.vol.fat| == |fs.vol.clusters| + 1
    modifies fs
    ensures fs.Mounted() && Abs(fs.vol, fs.layout) == old(Abs(fs.vol, fs.layout))
    ensures status == Success ==> fs.vol.fat == old(fs.vol).fat
  {
    hide Rep, Framed, InvBut, Abs, NoEntry, Live, AttrAt;
    ghost var v0, g0 := fs.vol, fs.layout;
    ghost var k1, k2, j1, j2;
    status, k1, k2 := Rename(fs, d1, name1, d2, name2, true, false, now);
    if status != Success {
      return;
    }
    NamesAttr(v0, g0, d1, name1, k1);
    NamesAttr(v0, g0, d2, name2, k2);
    ghost var v1, g1 := fs.vol, fs.layout;
    fs.Bounds();
    ExchangedNames(v0, g0, v1, g1, d1, name1, d2, name2, k1, k2);
    NoEntryIsFalse(v1, g1, d1, name1, k2);
    NoEntryIsFalse(v1, g1, d2, name2, k1);
    status, j1, j2 := Rename(fs, d1, name1, d2, name2, true, false, now);
    NamesUnique(v1, g1, d1, name1, k2, j1);
    NamesUnique(v1, g1, d2, name2, k1, j2);
    ExchangeSymmetric(Abs(v1, g1), k1, k2);
    ExchangeIsInvolution(Abs(v0, g0), k1, k2);
  }

  lemma ExchangedNames(v: Volume, g: Layout, v': Volume, g': Layout, d1: nat, name1: seq<byte>, d2: nat,
      name2: seq<byte>, k1: nat, k2: nat)
    requires Inv(v, g) && Names(v, g, d1, name1, k1) && Names(v, g, d2, name2, k2)
    requires Abs(v', g') == ExchangedNodes(Abs(v, g), k1, k2)
    ensures Names(v', g', d1, name1, k2) && Names(v', g', d2, name2, k1)
  {
    hide Abs, InvBut;
  }

  lemma ExchangeSymmetric(abs: map<nat, Node>, k1: nat, k2: nat)
    requires k1 in abs && k2 in abs
    ensures ExchangedNodes(abs, k2, k1) == ExchangedNodes(abs, k1, k2)
  {
    if k1 != k2 {
      assert ExchangedNodes(abs, k2, k1).Keys == ExchangedNodes(abs, k1, k2).Keys;
    }
  }

  // Renaming an entry to a free name and back, within one directory or between two, leaves
  // the table and the FAT as they were; v and g are the volume in between.  Only between two
  // directories a free cluster is needed.
  method RenameAndBack(fs: Fs, d1: nat, from: seq<byte>, d2: nat, to: seq<byte>, now: Ts)
      returns (there: Status, back: Status, ghost v: Volume, ghost g: Layout)
    requires fs.Mounted() && d1 in fs.layout.dirs && d2 in fs.layout.dirs && |fs.vol.fat| == |fs.vol.clusters| + 1
    requires from != [] && 0 !in from && |from| < MAX_NAME && to != [] && 0 !in to && |to| < MAX_NAME
    requires !NoEntry(fs.vol, fs.layout, d1, from) && NoEntry(fs.vol, fs.layout, d2, to)
    requires d1 != d2 ==> HasRoom(fs.vol, fs.layout, d2, false)
    modifies fs
    ensures fs.Mounted() && Abs(fs.vol, fs.layout) == old(Abs(fs.vol, fs.layout))
    ensures there == back == Success <==> d1 == d2 || !NoneFree(old(fs.vol).fat, 2, fs.geo.numClusters)
    ensures there == Success ==>
              && back == Success && fs.vol.fat == old(fs.vol).fat && Inv(v, g) && NoEntry(v, g, d1, from)
              && exists k :: && Names(old(fs.vol), old(fs.layout), d1, from, k) && Names(v, g, d2, to, k)
                             && Abs(v, g)[k].bytes == Abs(old(fs.vol), old(fs.layout))[k].bytes
  {
    hide Rep, Framed, InvBut, Abs, NoEntry, HasRoom, NamesRemovable, NoneFree, Without, MovedTo, Live, AttrAt;
    back, v, g := Error, fs.vol, fs.layout;
    ghost var v0, g0 := fs.vol, fs.layout;
    ghost var kf, kt;
    NothingRemovable(v0, g0, d2, to);
    there, kf, kt := Rename(fs, d1, from, d2, to, false, false, now);
    if there != Success {
      return;
    }
    v, g := fs.vol, fs.layout;
    fs.Bounds();
    MovedAway(v0, g0, v, g, d1, from, d2, to, kf);
    NoEntryIsFalse(v, g, d2, to, kf);
    NothingRemovable(v, g, d1, from);
    SameDirs(g0, g);
    ghost var k;
    back, k, kt := Rename(fs, d2, to, d1, from, false, false, now);
    NamesUnique(v, g, d2, to, kf, k);
    MovedBack(Abs(v0, g0), kf, d2, to);
  }

  // What a rename to a free name leaves under both names.
  lemma MovedAway(v: Volume, g: Layout, v': Volume, g': Layout, d1: nat, from: seq<byte>, d2: nat, to: seq<byte>,
      k: nat)
    requires Inv(v, g) && Inv(v', g') && Names(v, g, d1, from, k) && NoEntry(v, g, d2, to)
    requires Abs(v', g') == Abs(v, g)[k := MovedTo(Abs(v, g)[k], d2, to)]
    ensures NoEntry(v', g', d1, from) && Names(v', g', d2, to, k) && Abs(v', g')[k].bytes == Abs(v, g)[k].bytes
  {
    hide InvBut, Abs, NoEntry;
    NoEntryNames(v, g, d2, to);
    NoEntryNames(v', g', d1, from);
    forall j | j in Abs(v', g') ensures !Names(v', g', d1, from, j) {
      if Names(v', g', d1, from, j) && j != k { NamesUnique(v, g, d1, from, k, j); }
    }
  }

  lemma SameDirs(g: Layout, g': Layout)
    requires Without(g, g', {})
    ensures g'.dirs.Keys == g.dirs.Keys
  {
  }

  lemma MovedBack(abs: map<nat, Node>, k: nat, d: nat, name: seq<byte>)
    requires k in abs
    ensures var moved := abs[k := MovedTo(abs[k], d, name)];
      moved[k := MovedTo(moved[k], abs[k].dir, abs[k].attr.name)] == abs
  {
    var moved := abs[k := MovedTo(abs[k], d, name)];
    assert moved[k := MovedTo(moved[k], abs[k].dir, abs[k].attr.name)].Keys == abs.Keys;
  }

  // Creating a file and removing it again gives back every cluster.
  method CreateThenUnlink(fs: Fs, d: nat, name: seq<byte>, now: Ts) returns (status: Status)
    requires fs.Mounted() && d in fs.layout.dirs && name != [] && 0 !in name
    requires |fs.vol.fat| == |fs.vol.clusters| + 1 && HasRoom(fs.vol, fs.layout, d, false)
    modifies fs
    ensures fs.Mounted() && Abs(fs.vol, fs.layout) == old(Abs(fs.vol, fs.layout))
    ensures status == Success ==> fs.vol.fat == old(fs.vol).fat
  {
    hide Rep, Framed, InvBut, Abs, NoEntry, HasRoom, NoneFree, NewNode, NamesRemovable, Live, AttrAt;
    fs.Bounds();
    ghost var v0, g0 := fs.vol, fs.layout;
    ghost var c, p, k;
    status, c, p := Mknod(fs, d, name, now);
    if status != Success {
      return;
    }
    ghost var v1, g1 := fs.vol, fs.layout;
    NewNodeShape(fs.variant, d, NewAttr(name, 0, c, now), fs.geo.bytesPerCluster);
    FreshIsNoDir(v0, g0, c);
    RemovableAbs(v1, g1, d, name, c);
    NoEntryIsFalse(v1, g1, d, name, c);
    status, k := Unlink(fs, d, name);
    NamesUnique(v1, g1, d, name, c, k);
    FreedAgain(v0.fat, c, fs.vol.fat);
  }

  // A new file as the Rust reader lists it: no bytes, no attributes, and in all three stamps
  // the time of its making.
  ghost predicate ListedNew(variant: Variant, entries: seq<DirectoryEntry>, name: seq<byte>, now: Ts) {
    exists i ::
      && 0 <= i < |entries| && CString(FileName(entries[i])) == name
      && entries[i].attributes == 0 && entries[i].fileSize == 0
      && var e := entries[i];
         && DateTime(e.modifiedDate, e.modifiedTime, variant) == DateTime(e.createdDate, e.createdTime, variant)
         && DateTime(e.createdDate, e.createdTime, variant) == DateTime(e.accessedDate, e.accessedTime, variant)
         && DateTime(e.accessedDate, e.accessedTime, variant) == StoredTs(variant, now)
         && (Representable(variant, now) ==> DateTime(e.modifiedDate, e.modifiedTime, variant) == now)
  }

  // libfatx makes a file and closes the device; the Rust reader opens it and lists the
  // directory.
  method MakeThenList(fs: Fs, d: nat, name: seq<byte>, now: Ts, asked: nat, ghost size: nat, ghost sectorSize: nat,
      ghost sb: Superblock)
    returns (status: Status, entries: seq<DirectoryEntry>)
    requires fs.Mounted() && d in fs.layout.dirs && name != [] && 0 !in name
    requires |fs.vol.fat| == |fs.vol.clusters| + 1 && HasRoom(fs.vol, fs.layout, d, false)
    requires Shared(fs, asked, Auto, size, sectorSize, sb)
    modifies fs
    ensures status == if old(NoEntry(fs.vol, fs.layout, d, name)) && |name| < MAX_NAME
                         && !NoneFree(old(fs.vol).fat, 2, fs.geo.numClusters) then Success else Error
    ensures status == Success ==> ListedNew(fs.variant, entries, name, now)
  {
    hide Rep, Framed, InvBut, Abs, NoEntry, HasRoom, NoneFree, NewNode, Live, AttrAt, Grew, LibGeometry, Accepted,
         Capacity, BytesPerCluster, Carries, BothAlike, ListDir, Inv, StoredTs, Representable, SeenAll, RustSize;
    entries := [];
    ghost var c, p, g := 0, Place(0, 0, 0), fs.layout;
    status, c, p := Mknod(fs, d, name, now);
    if status != Success {
      return;
    }
    StillDir(g, fs.layout, p, c, d);
    ghost var attr := Abs(fs.vol, fs.layout)[c].attr;
    ListingIsTable(fs.vol, fs.layout, d, attr);
    var failed;
    entries, failed := HandOverDirectory(fs, asked, Auto, d, size, sectorSize, sb);
    SeenSome(fs.variant, entries, attr);
  }

  lemma StillDir(g: Layout, g': Layout, p: Place, c: nat, d: nat)
    requires Grew(g, g', p, c, false) && d in g.dirs
    ensures d in g'.dirs
  {
  }

  lemma {:induction false} SeenSome(variant: Variant, entries: seq<DirectoryEntry>, a: Attr)
    requires a in SeenAll(variant, entries)
    ensures exists i :: 0 <= i < |entries| && Seen(variant, entries[i]) == a
    decreases |entries|
  {
    hide Seen;
    if a == Seen(variant, entries[|entries| - 1]) {
    } else {
      SeenSome(variant, entries[..|entries| - 1], a);
      var i :| 0 <= i < |entries| - 1 && Seen(variant, entries[..|entries| - 1][i]) == a;
      assert entries[..|entries| - 1][i] == entries[i];
    }
  }

  // The file that a directory path and a name lead to.
  ghost predicate FileAt(abs: Table, root: nat, dir: Path, name: seq<byte>, k: nat) {
    Located(abs, root, dir, name, k) && k in abs && !abs[k].attr.IsDirectory()
  }

  method FindFile(fs: Fs, dir: Path, name: seq<byte>) returns (found: bool, first: nat, size: u32)
    requires Runnable(fs)
    modifies fs`cursor, fs`disk, fs`cache
    ensures Runnable(fs)
    ensures found ==>
              && FileAt(Abs(fs.vol, fs.layout), fs.geo.rootCluster, dir, name, first) && first in Abs(fs.vol, fs.layout)
              && size == Abs(fs.vol, fs.layout)[first].attr.size && !Abs(fs.vol, fs.layout)[first].attr.IsDirectory()
    ensures !found ==> forall k :: !FileAt(Abs(fs.vol, fs.layout), fs.geo.rootCluster, dir, name, k)
  {
    hide Rep, Framed, AttrOf, SlotAt, Live, InvBut, AttrAt, NoEntry, Abs, SingleDirs, Inv, Readable, Leads, Named,
         UniqueNames;
    found, first, size := false, 0, 0;
    InvUnique(fs.vol, fs.layout);
    ghost var abs := Abs(fs.vol, fs.layout);
    var ok, d := OpenPath(fs, dir);
    if !ok {
      return;
    }
    InvIsInvBut(fs.vol, fs.layout, {});
    fs.Bounds();
    var status, cursor, attr;
    ghost var p;
    status, cursor, attr, p := Find(fs, d, name);
    TakenIsEntry(fs.vol, fs.layout, d, name);
    forall e | Leads(abs, fs.geo.rootCluster, dir, e) ensures e == d {
      LeadsUnique(abs, fs.geo.rootCluster, dir, d, e);
    }
    if status != Success {
      return;
    }
    LiveNames(fs.vol, fs.layout, p);
    NamesIsNamed(fs.vol, fs.layout, d, name, attr.first);
    OneName(abs, d, name, attr.first);
    NamedInTable(abs, d, name);
    if attr.IsDirectory() {
      return;
    }
    AttrSmall(fs.vol, fs.layout, p);
    return true, attr.first, attr.size;
  }

  lemma AttrSmall(v: Volume, g: Layout, p: Place)
    ensures AttrAt(v, g, p).size < WORD
  {
    hide Decode;
  }

  // libfatx looks a file up and closes the device; the Rust reader opens it and reads.
  method ReadByRust(fs: Fs, dir: Path, name: seq<byte>, pos: nat, len: nat, asked: nat, ghost size: nat,
      ghost sb: Superblock)
    returns (found: bool, buf: seq<byte>)
    requires Runnable(fs) && Shared(fs, asked, Auto, size, RUST_SECTOR, sb)
    modifies fs
    ensures fs.vol == old(fs.vol) && fs.layout == old(fs.layout)
    ensures found ==>
              var abs := Abs(fs.vol, fs.layout);
              exists k :: FileAt(abs, fs.geo.rootCluster, dir, name, k) && k in abs && buf == ReadBack(abs[k], pos, len)
    ensures !found ==>
              var abs := Abs(fs.vol, fs.layout);
              forall k :: FileAt(abs, fs.geo.rootCluster, dir, name, k) && k in abs ==> pos > abs[k].attr.size
  {
    hide Rep, Framed, InvBut, Abs, Inv, SingleDirs, Shared, ReadBack, FileAt;
    found, buf := false, [];
    var there, first, fileSize := FindFile(fs, dir, name);
    OneFile(fs.vol, fs.layout, fs.geo.rootCluster, dir, name, first);
    if !there || pos > fileSize {
      return;
    }
    buf := HandOverFile(fs, asked, Auto, first, fileSize, pos, len, size, RUST_SECTOR, sb);
    found := true;
  }

  lemma OneFile(v: Volume, g: Layout, root: nat, dir: Path, name: seq<byte>, k: nat)
    requires Inv(v, g)
    ensures FileAt(Abs(v, g), root, dir, name, k) ==> forall j :: FileAt(Abs(v, g), root, dir, name, j) ==> j == k
  {
    hide InvBut, Abs, Inv, Leads, Named, UniqueNames;
    InvUnique(v, g);
    forall j | FileAt(Abs(v, g), root, dir, name, k) && FileAt(Abs(v, g), root, dir, name, j) ensures j == k {
      var d :| Leads(Abs(v, g), root, dir, d) && Named(Abs(v, g), d, name, k);
      var e :| Leads(Abs(v, g), root, dir, e) && Named(Abs(v, g), e, name, j);
      LeadsUnique(Abs(v, g), root, dir, d, e);
      OneName(Abs(v, g), d, name, k);
    }
  }

  // The partition as formatted is one that both programs lay out alike, with a root that
  // both accept.
  ghost predicate AlikeThere(device: seq<byte>, offset: nat, size: nat, sectorsPerCluster: u32, id: u32) {
    var chosen := ChosenSuperblock(device, offset, Auto, sectorsPerCluster, id);
    chosen.Some? ==>
      forall geo :: LibGeometry(geo, offset, size, RUST_SECTOR, chosen.value.1) ==>
        && BothAlike(geo, size, RUST_SECTOR, chosen.value.1)
        && chosen.value.1.rootCluster < Capacity(size, BytesPerCluster(chosen.value.1.sectorsPerCluster, RUST_SECTOR))
  }

  // fatx_partition_map: the partitions of a retail disk, one behind the other, by number.
  function RetailOffset(i: nat): nat {
    match i
    case 0 => 0x0008_0000
    case 1 => 0x2ee8_0000
    case 2 => 0x5dc8_0000
    case 3 => 0x8ca8_0000
    case 4 => 0xabe8_0000
    case _ => 0x1_dd15_6000
  }

  function RetailSize(i: nat): nat {
    if i < 3 then 0x2ee0_0000 else if i == 3 then 0x1f40_0000 else 0x1_312d_6000
  }

  // As fatx_disk_format formats them, in clusters of 16 KiB, the retail partitions follow
  // each other, can all be formatted with sectors of either size, and with sectors of 512
  // bytes are laid out alike by both programs.
  lemma RetailPartitions(device: seq<byte>, i: nat, sectorSize: nat, id: u32)
    requires i < 5 && SectorSizeOk(sectorSize) && RetailOffset(5) <= |device|
    ensures RetailOffset(i) + RetailSize(i) == RetailOffset(i + 1)
    ensures Opens(device, RetailOffset(i), RetailSize(i), sectorSize, 16384 / sectorSize, Auto, id)
    ensures Formattable(device, RetailOffset(i), RetailSize(i), sectorSize, 16384 / sectorSize, id, 2)
    ensures RootReady(device, RetailOffset(i), RetailSize(i), sectorSize, 16384 / sectorSize, id)
    ensures sectorSize == RUST_SECTOR ==> AlikeThere(device, RetailOffset(i), RetailSize(i), 16384 / sectorSize, id)
  {
    hide CutUp, Formattable, RootReady;
    RetailCapacity(i);
    LargeIsFormattable(device, RetailOffset(i), RetailSize(i), sectorSize, 16384 / sectorSize, id);
    if sectorSize == RUST_SECTOR {
      forall geo | LibGeometry(geo, RetailOffset(i), RetailSize(i), RUST_SECTOR, Superblock(id, 32, 1))
        ensures BothAlike(geo, RetailSize(i), RUST_SECTOR, Superblock(id, 32, 1))
      {
        EntryWidth(geo, RetailOffset(i), RetailSize(i), 16384, 1, Capacity(RetailSize(i), 16384) + RESERVED_ENTRIES);
        RetailPages(geo, i);
      }
    }
  }

  lemma RetailCapacity(i: nat)
    requires i < 5
    ensures Capacity(RetailSize(i), 16384) == if i < 3 then 48000 else if i == 3 then 32000 else 312501
  {
  }

  lemma RetailPages(geo: Geometry, i: nat)
    requires i < 5 && geo.fat32 == (i == 4)
    ensures !PageExact(geo, Capacity(RetailSize(i), 16384))
  {
    RetailCapacity(i);
  }

  // The figures of the retail partitions: the bytes of the table, the clusters, number 0
  // included, and where cluster 1 is.
  lemma RetailGeometry(geo: Geometry, i: nat, id: u32)
    requires i < 5 && LibGeometry(geo, RetailOffset(i), RetailSize(i), RUST_SECTOR, Superblock(id, 32, 1))
    ensures geo.fatSize == (if i < 3 then 0x1_8000 else if i == 3 then 0x1_0000 else 0x13_2000)
    ensures geo.numClusters == if i < 3 then 47994 else if i == 3 then 31996 else 312425
    ensures geo.ClusterStart(1) == RetailOffset(i) + 4096 + geo.fatSize
  {
    hide Times;
    RetailCapacity(i);
    TimesStep(0, geo.bytesPerCluster);
    var n := Capacity(RetailSize(i), 16384) + RESERVED_ENTRIES;
    var size := if i < 3 then 0x1_8000 else if i == 3 then 0x1_0000 else 0x13_2000;
    SameMultiple(geo.fatSize, size, geo.EntryOffset(n));
  }

  // From formatting over any run to the other program: libfatx formats a partition that
  // both lay out alike, executes a script and closes the device; the Rust reader opens
  // that device by itself and reads a file.  It gets the bytes of the run's last table.
  method RunThenRust(device: seq<byte>, offset: nat, size: nat, sectorsPerCluster: u32, id: u32, hint: nat,
      script: seq<Command>, dir: Path, name: seq<byte>, pos: nat, len: nat)
    returns (ok: bool, replies: seq<Reply>, found: bool, buf: seq<byte>, ghost root: nat, ghost trace: seq<Table>,
             ghost envs: seq<Env>)
    requires Formattable(device, offset, size, RUST_SECTOR, sectorsPerCluster, id, hint) && size < REST
    requires RootReady(device, offset, size, RUST_SECTOR, sectorsPerCluster, id)
    requires AlikeThere(device, offset, size, sectorsPerCluster, id)
    ensures ok <==> Opens(device, offset, size, RUST_SECTOR, sectorsPerCluster, Auto, id)
    ensures ok ==>
              && |replies| == |script| && RunOf(envs, script, trace, replies) && NativeRun(envs, trace)
              && |trace| == |envs| == |script| + 1 && trace[0] == map[] && root == envs[0].root
    ensures ok && found ==>
              exists k :: FileAt(trace[|script|], root, dir, name, k) && k in trace[|script|]
                && buf == ReadBack(trace[|script|][k], pos, len)
    ensures ok && !found ==>
              forall k :: FileAt(trace[|script|], root, dir, name, k) && k in trace[|script|] ==>
                pos > trace[|script|][k].attr.size
  {
    hide Rep, Framed, InvBut, Abs, Inv, SingleDirs, Shared, ReadBack, FileAt, RunOf, PartitionOf, Formattable, Opens,
         ChosenSuperblock, LibGeometry, BothAlike, AlikeThere, RootReady, ChosenSize, TotalNeed, Rooted, RanOut,
         DetachingMove, NativeRun, FirstSpare, AllocSet, RoomyDirs, EnvOf;
    found, buf, root := false, [], 0;
    var fs;
    ghost var sb;
    ok, fs, sb, replies, trace, envs :=
      FormatAndRun(device, offset, size, RUST_SECTOR, sectorsPerCluster, id, hint, script);
    if !ok {
      return;
    }
    root := fs.geo.rootCluster;
    EnvParts(fs);
    RunEnds(envs, script, trace, replies);
    SharedAgain(fs, device, offset, size, sectorsPerCluster, id, sb);
    found, buf := ReadByRust(fs, dir, name, pos, len, size, size, sb);
  }

  lemma SharedAgain(fs: Fs, device: seq<byte>, offset: nat, size: nat, sectorsPerCluster: u32, id: u32, sb: Superblock)
    requires Runnable(fs) && Opens(device, offset, size, RUST_SECTOR, sectorsPerCluster, Auto, id) && size < REST
    requires ChosenSuperblock(device, offset, Auto, sectorsPerCluster, id) == Some((fs.variant, sb))
             && fs.geo.partitionOffset == offset
    requires ChosenSize(|device|, offset, size, RUST_SECTOR).Some?
    requires PartitionOf(fs, ChosenSize(|device|, offset, size, RUST_SECTOR).value, RUST_SECTOR, sb)
    requires AlikeThere(device, offset, size, sectorsPerCluster, id)
    ensures Shared(fs, size, Auto, size, RUST_SECTOR, sb)
  {
    hide Rep, Framed, InvBut, Inv, Capacity, BytesPerCluster, CutUp, Carries, BothAlike, Accepted, ChosenSuperblock,
         Times, FirstSpare;
    fs.Bounds();
  }
}
