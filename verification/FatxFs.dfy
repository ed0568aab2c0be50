// struct fatx_fs: the device with its cursor, the write-back FAT window and the
// allocator's hint.  The ghost fields raw and vol are the FAT seen through the
// cache and the volume they stand for; Valid() ties them to the bytes.

module FatxFs {
  import opened Bytes
  import opened Endian
  import opened Geometry
  import opened Volumes
  import opened Layouts

  const CACHE_ENTRIES := 512

  datatype Status = Success | Error | FileNotFound | FileDeleted | EndOfDir

  // ---- FAT entries as bytes ----

  function LoadEntry(fat32: bool, variant: Variant, s: seq<byte>, at: nat): (r: u32)
    requires at + (if fat32 then 4 else 2) <= |s|
    ensures !fat32 ==> r < 0x1_0000
  {
    if fat32 then FromDisk32(variant, Word32([s[at], s[at + 1], s[at + 2], s[at + 3]]))
    else FromDisk16(variant, Word16([s[at], s[at + 1]]))
  }

  function StoreEntry(fat32: bool, variant: Variant, entry: u32): (b: seq<byte>)
    ensures |b| == if fat32 then 4 else 2
  {
    if fat32 then Bytes32(ToDisk32(variant, entry)) else Bytes16(ToDisk16(variant, entry % 0x1_0000))
  }

  // An entry as it comes back after being stored in the entry width.
  function Narrowed(fat32: bool, entry: u32): u32 {
    if fat32 then entry else entry % 0x1_0000
  }

  lemma LoadAfterStore(fat32: bool, variant: Variant, s: seq<byte>, at: nat, entry: u32)
    requires at + (if fat32 then 4 else 2) <= |s|
    ensures LoadEntry(fat32, variant, Splice(s, at, StoreEntry(fat32, variant, entry)), at) == Narrowed(fat32, entry)
  {
    var d := StoreEntry(fat32, variant, entry);
    var t := Splice(s, at, d);
    if fat32 {
      assert [t[at], t[at + 1], t[at + 2], t[at + 3]] == d;
      WordOfBytes32(ToDisk32(variant, entry));
      DiskRoundTrip32(variant, entry);
    } else {
      assert [t[at], t[at + 1]] == d;
      WordOfBytes16(ToDisk16(variant, entry % 0x1_0000));
      DiskRoundTrip16(variant, entry % 0x1_0000);
    }
  }

  // ---- the FAT, seen through the window ----

  datatype Window = NoWindow | Window(pos: nat, count: nat, data: seq<byte>)

  // The entry of FAT index i as the device has it, and as the window has it.
  function DiskEntry(geo: Geometry, variant: Variant, disk: seq<byte>, i: nat): (r: u32)
  {
    if geo.fatOffset + geo.EntryOffset(i) + geo.Width() <= |disk|
    then LoadEntry(geo.fat32, variant, disk, geo.fatOffset + geo.EntryOffset(i))
    else 0
  }

  function WindowEntry(geo: Geometry, variant: Variant, data: seq<byte>, j: nat): (r: u32)
  {
    if geo.EntryOffset(j) + geo.Width() <= |data|
    then LoadEntry(geo.fat32, variant, data, geo.EntryOffset(j))
    else 0
  }

  function LogicalEntry(geo: Geometry, variant: Variant, disk: seq<byte>, w: Window, i: nat): (r: u32) {
    if w.Window? && w.pos <= i < w.pos + w.count then WindowEntry(geo, variant, w.data, i - w.pos)
    else DiskEntry(geo, variant, disk, i)
  }

  ghost predicate WindowOk(geo: Geometry, w: Window) {
    w.Window? ==>
      && w.count > 0 && w.pos + w.count <= geo.numClusters + RESERVED_ENTRIES
      && |w.data| == geo.EntryOffset(w.count)
  }

  // The window holds what the device holds.
  ghost predicate WindowClean(geo: Geometry, disk: seq<byte>, w: Window) {
    w.Window? ==>
      var base := geo.fatOffset + geo.EntryOffset(w.pos);
      base + |w.data| <= |disk| && forall j :: 0 <= j < |w.data| ==> disk[base + j] == w.data[j]
  }

  // raw is the logical FAT: the device's table overlaid by the window.
  ghost predicate FatOk(geo: Geometry, variant: Variant, disk: seq<byte>, w: Window, raw: seq<u32>) {
    && |raw| == geo.numClusters + RESERVED_ENTRIES
    && forall i :: 0 <= i < |raw| ==> raw[i] == LogicalEntry(geo, variant, disk, w, i)
  }

  lemma LoadSame(fat32: bool, variant: Variant, s: seq<byte>, at: nat, t: seq<byte>, bt: nat)
    requires at + (if fat32 then 4 else 2) <= |s| && bt + (if fat32 then 4 else 2) <= |t|
    requires s[at..at + if fat32 then 4 else 2] == t[bt..bt + if fat32 then 4 else 2]
    ensures LoadEntry(fat32, variant, s, at) == LoadEntry(fat32, variant, t, bt)
  {
    hide Word16, Word32, FromDisk16, FromDisk32;
    var u, w := s[at..at + if fat32 then 4 else 2], t[bt..bt + if fat32 then 4 else 2];
    assert u[0] == s[at] && u[1] == s[at + 1] && w[0] == t[bt] && w[1] == t[bt + 1];
    if fat32 {
      assert u[2] == s[at + 2] && u[3] == s[at + 3] && w[2] == t[bt + 2] && w[3] == t[bt + 3];
    }
  }

  // Writing the window back gives the device the window's entries and keeps the others.
  lemma FlushedEntry(geo: Geometry, variant: Variant, disk: seq<byte>, w: Window, i: nat)
    requires w.Window? && WindowOk(geo, w)
    requires geo.fatOffset + geo.EntryOffset(w.pos + w.count) <= |disk|
    ensures DiskEntry(geo, variant, Splice(disk, geo.fatOffset + geo.EntryOffset(w.pos), w.data), i)
         == LogicalEntry(geo, variant, disk, w, i)
  {
    hide LoadEntry, Splice;
    var base, d, n := geo.fatOffset + geo.EntryOffset(w.pos), Splice(disk, geo.fatOffset + geo.EntryOffset(w.pos),
        w.data), geo.Width();
    var at := geo.fatOffset + geo.EntryOffset(i);
    if w.pos <= i < w.pos + w.count {
      var off := geo.EntryOffset(i - w.pos);
      SpliceCovers(disk, base, w.data, at, at + n);
      LoadSame(geo.fat32, variant, d, at, w.data, off);
    } else if at + n <= |disk| {
      SpliceOutside(disk, base, w.data, at, at + n);
      LoadSame(geo.fat32, variant, d, at, disk, at);
    }
  }

  lemma FlushKeepsFat(geo: Geometry, variant: Variant, disk: seq<byte>, w: Window, raw: seq<u32>)
    requires w.Window? && WindowOk(geo, w) && FatOk(geo, variant, disk, w, raw)
    requires geo.fatOffset + geo.EntryOffset(w.pos + w.count) <= |disk|
    ensures var disk' := Splice(disk, geo.fatOffset + geo.EntryOffset(w.pos), w.data);
      FatOk(geo, variant, disk', w, raw) && FatOk(geo, variant, disk', NoWindow, raw) && WindowClean(geo, disk', w)
  {
    var disk' := Splice(disk, geo.fatOffset + geo.EntryOffset(w.pos), w.data);
    forall i | 0 <= i < |raw|
      ensures raw[i] == LogicalEntry(geo, variant, disk', w, i) == DiskEntry(geo, variant, disk', i)
    {
      FlushedEntry(geo, variant, disk, w, i);
    }
  }

  lemma CleanEntry(geo: Geometry, variant: Variant, disk: seq<byte>, w: Window, i: nat)
    requires WindowOk(geo, w) && WindowClean(geo, disk, w)
    ensures LogicalEntry(geo, variant, disk, w, i) == DiskEntry(geo, variant, disk, i)
  {
    hide LoadEntry;
    if w.Window? && w.pos <= i < w.pos + w.count {
      var at, off, n := geo.fatOffset + geo.EntryOffset(i), geo.EntryOffset(i - w.pos), geo.Width();
      CleanSlice(disk, geo.fatOffset + geo.EntryOffset(w.pos), w.data, off, n);
      LoadSame(geo.fat32, variant, disk, at, w.data, off);
    }
  }

  lemma CleanSlice(disk: seq<byte>, base: nat, data: seq<byte>, off: nat, n: nat)
    requires base + |data| <= |disk| && off + n <= |data|
    requires forall j :: 0 <= j < |data| ==> disk[base + j] == data[j]
    ensures disk[base + off..base + off + n] == data[off..off + n]
  {
    var l, r := disk[base + off..base + off + n], data[off..off + n];
    forall i | 0 <= i < n ensures l[i] == r[i] {
      assert disk[base + (off + i)] == data[off + i];
    }
  }

  // Where the window is clean it does not matter whether one looks through it.
  lemma CleanWindowIsTransparent(geo: Geometry, variant: Variant, disk: seq<byte>, w: Window, raw: seq<u32>)
    requires WindowOk(geo, w) && WindowClean(geo, disk, w)
    ensures FatOk(geo, variant, disk, w, raw) <==> FatOk(geo, variant, disk, NoWindow, raw)
  {
    forall i: nat
      ensures LogicalEntry(geo, variant, disk, w, i) == LogicalEntry(geo, variant, disk, NoWindow, i)
    {
      CleanEntry(geo, variant, disk, w, i);
    }
  }

  lemma StoredEntry(geo: Geometry, variant: Variant, w: Window, j: nat, entry: u32, i: nat)
    requires w.Window? && WindowOk(geo, w) && j < w.count && i < w.count
    ensures WindowEntry(geo, variant, Splice(w.data, geo.EntryOffset(j), StoreEntry(geo.fat32, variant, entry)), i)
         == if i == j then Narrowed(geo.fat32, entry) else WindowEntry(geo, variant, w.data, i)
  {
    if i == j {
      LoadAfterStore(geo.fat32, variant, w.data, geo.EntryOffset(j), entry);
    }
  }

  // Storing into the window changes exactly one logical entry.
  lemma StoreUpdatesFat(geo: Geometry, variant: Variant, disk: seq<byte>, w: Window, raw: seq<u32>, index: nat,
      entry: u32)
    requires w.Window? && WindowOk(geo, w) && FatOk(geo, variant, disk, w, raw)
    requires w.pos <= index < w.pos + w.count
    ensures FatOk(geo, variant, disk,
                  w.(data := Splice(w.data, geo.EntryOffset(index - w.pos), StoreEntry(geo.fat32, variant, entry))),
                  raw[index := Narrowed(geo.fat32, entry)])
  {
    hide LoadEntry, StoreEntry;
    var w' := w.(data := Splice(w.data, geo.EntryOffset(index - w.pos), StoreEntry(geo.fat32, variant, entry)));
    forall i | 0 <= i < |raw|
      ensures LogicalEntry(geo, variant, disk, w', i)
           == if i == index then Narrowed(geo.fat32, entry) else LogicalEntry(geo, variant, disk, w, i)
    {
      if w.pos <= i < w.pos + w.count {
        StoredEntry(geo, variant, w, index - w.pos, entry, i - w.pos);
      }
    }
  }

  ghost predicate Classified(fat32: bool, raw: seq<u32>, fat: seq<FatEntry>) {
    |fat| == |raw| && forall i :: 0 <= i < |raw| ==> fat[i] == Classify(fat32, raw[i])
  }

  // ---- the clusters ----

  lemma ClusterStartMonotone(geo: Geometry, c: nat, d: nat)
    requires 1 <= c < d
    ensures geo.ClusterStart(c) + geo.bytesPerCluster <= geo.ClusterStart(d)
  {
    TimesMonotone(c - 1, d - 1, geo.bytesPerCluster);
  }

  // Every cluster's content is its stretch of the device.
  ghost predicate ClustersOk(geo: Geometry, vol: Volume, disk: seq<byte>) {
    && vol.bpc == geo.bytesPerCluster && |vol.clusters| == geo.numClusters
    && (geo.numClusters > 0 ==> vol.clusters[0] == [])
    && forall c :: 1 <= c < geo.numClusters ==>
         && geo.ClusterStart(c) + geo.bytesPerCluster <= |disk|
         && vol.clusters[c] == disk[geo.ClusterStart(c)..geo.ClusterStart(c) + geo.bytesPerCluster]
  }

  // A device write that stays below the clusters leaves all contents alone.
  lemma ClustersSurviveFatWrite(geo: Geometry, vol: Volume, disk: seq<byte>, at: nat, data: seq<byte>)
    requires ClustersOk(geo, vol, disk)
    requires at + |data| <= geo.clusterOffset <= |disk|
    ensures ClustersOk(geo, vol, Splice(disk, at, data))
  {
    forall c | 1 <= c < geo.numClusters
      ensures Splice(disk, at, data)[geo.ClusterStart(c)..geo.ClusterStart(c) + geo.bytesPerCluster]
           == disk[geo.ClusterStart(c)..geo.ClusterStart(c) + geo.bytesPerCluster]
    {
      SpliceOutside(disk, at, data, geo.ClusterStart(c), geo.ClusterStart(c) + geo.bytesPerCluster);
    }
  }

  // ---- the whole representation ----

  // disk and window w (dirty or not) stand for the table raw and the volume vol.
  ghost predicate Rep(geo: Geometry, variant: Variant, disk: seq<byte>, w: Window, dirty: bool, raw: seq<u32>,
      vol: Volume) {
    && geo.Sound()
    && |disk| >= geo.clusterOffset && |disk| >= geo.partitionOffset + geo.partitionSize
    && WindowOk(geo, w)
    && (!dirty ==> WindowClean(geo, disk, w))
    && FatOk(geo, variant, disk, w, raw)
    && Classified(geo.fat32, raw, vol.fat)
    && ClustersOk(geo, vol, disk)
    && vol.variant == variant
  }

  // A device write inside a cluster changes that cluster's content and no FAT entry.
  lemma RepWrite(geo: Geometry, variant: Variant, disk: seq<byte>, w: Window, dirty: bool, raw: seq<u32>, vol: Volume,
      c: nat, off: nat, d: seq<byte>)
    requires Rep(geo, variant, disk, w, dirty, raw, vol)
    requires vol.InRange(c) && off + |d| <= geo.bytesPerCluster
    ensures |vol.clusters[c]| == geo.bytesPerCluster && geo.ClusterStart(c) + off + |d| <= |disk|
    ensures Rep(geo, variant, Splice(disk, geo.ClusterStart(c) + off, d), w, dirty, raw, vol.Write(c, off, d))
  {
    hide LoadEntry, Classify, Times, FatOk, Classified;
    FatSurvivesClusterWrite(geo, variant, disk, w, raw, geo.ClusterStart(c) + off, d);
    if !dirty {
      WindowSurvivesClusterWrite(geo, disk, w, geo.ClusterStart(c) + off, d);
    }
    ClusterWriteUpdates(geo, disk, vol, c, off, d);
  }

  lemma ClusterWriteUpdates(geo: Geometry, disk: seq<byte>, vol: Volume, c: nat, off: nat, d: seq<byte>)
    requires ClustersOk(geo, vol, disk) && vol.InRange(c) && off + |d| <= geo.bytesPerCluster
    ensures |vol.clusters[c]| == geo.bytesPerCluster && geo.ClusterStart(c) + off + |d| <= |disk|
    ensures ClustersOk(geo, vol.Write(c, off, d), Splice(disk, geo.ClusterStart(c) + off, d))
  {
    hide Times;
    var disk' := Splice(disk, geo.ClusterStart(c) + off, d);
    forall e | 1 <= e < geo.numClusters
      ensures disk'[geo.ClusterStart(e)..geo.ClusterStart(e) + geo.bytesPerCluster] == vol.Write(c, off, d).clusters[e]
    {
      var a, b := geo.ClusterStart(e), geo.ClusterStart(e) + geo.bytesPerCluster;
      if e == c {
        SpliceInside(disk, geo.ClusterStart(c) + off, d, a, b);
      } else {
        if e < c { ClusterStartMonotone(geo, e, c); } else { ClusterStartMonotone(geo, c, e); }
        SpliceOutside(disk, geo.ClusterStart(c) + off, d, a, b);
      }
    }
  }

  lemma WindowSurvivesClusterWrite(geo: Geometry, disk: seq<byte>, w: Window, at: nat, d: seq<byte>)
    requires geo.Sound() && WindowOk(geo, w) && geo.clusterOffset <= at && at + |d| <= |disk|
    requires WindowClean(geo, disk, w)
    ensures WindowClean(geo, Splice(disk, at, d), w)
  {
  }

  lemma FatSurvivesClusterWrite(geo: Geometry, variant: Variant, disk: seq<byte>, w: Window, raw: seq<u32>, at: nat,
      d: seq<byte>)
    requires geo.Sound() && geo.clusterOffset <= at && at + |d| <= |disk|
    requires FatOk(geo, variant, disk, w, raw)
    ensures FatOk(geo, variant, Splice(disk, at, d), w, raw)
  {
    hide Word16, Word32, FromDisk16, FromDisk32;
    forall i | 0 <= i < |raw|
      ensures DiskEntry(geo, variant, Splice(disk, at, d), i) == DiskEntry(geo, variant, disk, i)
    {
    }
  }

  lemma RepRead(geo: Geometry, variant: Variant, disk: seq<byte>, w: Window, dirty: bool, raw: seq<u32>, vol: Volume,
      c: nat, off: nat, count: nat)
    requires Rep(geo, variant, disk, w, dirty, raw, vol)
    requires vol.InRange(c) && off + count <= geo.bytesPerCluster
    ensures |vol.clusters[c]| == geo.bytesPerCluster && geo.ClusterStart(c) + off + count <= |disk|
    ensures disk[geo.ClusterStart(c) + off..geo.ClusterStart(c) + off + count] == vol.clusters[c][off..off + count]
  {
    hide LoadEntry, Classify, Times, FatOk;
    var s := geo.ClusterStart(c);
    assert vol.clusters[c] == disk[s..s + geo.bytesPerCluster];
    SliceOfSlice(disk, s, geo.bytesPerCluster, off, count);
  }

  lemma SliceOfSlice<T>(s: seq<T>, at: nat, n: nat, off: nat, count: nat)
    requires at + n <= |s| && off + count <= n
    ensures s[at..at + n][off..off + count] == s[at + off..at + off + count]
  {
    var t, l, r := s[at..at + n], s[at..at + n][off..off + count], s[at + off..at + off + count];
    forall i | 0 <= i < count ensures l[i] == r[i] {
      assert l[i] == t[off + i] == s[at + off + i];
    }
  }

  // A device write past the last cluster is seen by no cluster and no FAT entry.
  lemma RepWriteBeyond(geo: Geometry, variant: Variant, disk: seq<byte>, w: Window, dirty: bool, raw: seq<u32>,
      vol: Volume, at: nat, d: seq<byte>)
    requires Rep(geo, variant, disk, w, dirty, raw, vol)
    requires geo.ClusterStart(geo.numClusters) <= at && at + |d| <= |disk|
    ensures Rep(geo, variant, Splice(disk, at, d), w, dirty, raw, vol)
  {
    hide LoadEntry, Classify, FatOk, Classified, Times;
    ClusterStartMonotone(geo, 1, geo.numClusters);
    TimesStep(0, geo.bytesPerCluster);
    assert geo.ClusterStart(1) == geo.clusterOffset;
    FatSurvivesClusterWrite(geo, variant, disk, w, raw, at, d);
    if !dirty {
      WindowSurvivesClusterWrite(geo, disk, w, at, d);
    }
    ClustersSurviveWriteBeyond(geo, disk, vol, at, d);
  }

  lemma ClustersSurviveWriteBeyond(geo: Geometry, disk: seq<byte>, vol: Volume, at: nat, d: seq<byte>)
    requires ClustersOk(geo, vol, disk) && geo.numClusters >= 1
    requires geo.ClusterStart(geo.numClusters) <= at && at + |d| <= |disk|
    ensures ClustersOk(geo, vol, Splice(disk, at, d))
  {
    hide Times;
    forall e | 1 <= e < geo.numClusters
      ensures Splice(disk, at, d)[geo.ClusterStart(e)..geo.ClusterStart(e) + geo.bytesPerCluster]
           == disk[geo.ClusterStart(e)..geo.ClusterStart(e) + geo.bytesPerCluster]
    {
      ClusterStartMonotone(geo, e, geo.numClusters);
      SpliceOutside(disk, at, d, geo.ClusterStart(e), geo.ClusterStart(e) + geo.bytesPerCluster);
    }
  }

  // The markers and links the engine writes are read back as such.
  lemma MarkersClassify(geo: Geometry, c: u32)
    requires geo.Sound()
    ensures Classify(geo.fat32, Narrowed(geo.fat32, if geo.fat32 then 0xffff_ffff else 0xffff)) == End
    ensures Classify(geo.fat32, Narrowed(geo.fat32, 0)) == Available
    ensures Classify(geo.fat32, Narrowed(geo.fat32, 0xffff_fff8)) == Media
    ensures 1 <= c < geo.numClusters ==> Classify(geo.fat32, Narrowed(geo.fat32, c)) == Data(c)
  {
    hide Times;
  }

  // struct fatx_cache
  datatype Cache = Cache(present: bool, position: nat, entries: nat, entrySize: nat, dirty: bool, data: seq<byte>)

  ghost function CacheWindow(cache: Cache): Window {
    if cache.present then Window(cache.position, cache.entries, cache.data) else NoWindow
  }

  lemma RepBounds(geo: Geometry, variant: Variant, disk: seq<byte>, w: Window, dirty: bool, raw: seq<u32>, vol: Volume)
    requires Rep(geo, variant, disk, w, dirty, raw, vol)
    ensures geo.Sound()
    ensures |raw| == |vol.fat| == geo.numClusters + RESERVED_ENTRIES
    ensures |vol.clusters| == geo.numClusters && vol.bpc == geo.bytesPerCluster && vol.Wf() && vol.variant == variant
    ensures forall i, count :: 0 <= i && 0 <= count && i + count <= geo.numClusters + RESERVED_ENTRIES ==>
              geo.fatOffset + geo.EntryOffset(i) + geo.EntryOffset(count) <= geo.clusterOffset
    ensures w.Window? ==> |w.data| == geo.EntryOffset(w.count)
    ensures geo.clusterOffset <= |disk| && geo.partitionOffset + geo.partitionSize <= |disk|
  {
  }

  lemma RepFlush(geo: Geometry, variant: Variant, disk: seq<byte>, w: Window, dirty: bool, raw: seq<u32>, vol: Volume)
    requires Rep(geo, variant, disk, w, dirty, raw, vol) && w.Window?
    ensures geo.fatOffset + geo.EntryOffset(w.pos) + |w.data| <= |disk|
    ensures Rep(geo, variant, Splice(disk, geo.fatOffset + geo.EntryOffset(w.pos), w.data), w, false, raw, vol)
  {
    hide LoadEntry, Classify;
    FlushKeepsFat(geo, variant, disk, w, raw);
    ClustersSurviveFatWrite(geo, vol, disk, geo.fatOffset + geo.EntryOffset(w.pos), w.data);
  }

  // The window lies inside the FAT.
  lemma RepWindow(geo: Geometry, variant: Variant, disk: seq<byte>, w: Window, dirty: bool, raw: seq<u32>, vol: Volume)
    requires Rep(geo, variant, disk, w, dirty, raw, vol) && w.Window?
    ensures geo.fatOffset + geo.EntryOffset(w.pos) + |w.data| <= geo.clusterOffset <= geo.ClustersEnd()
  {
    hide LoadEntry, Classify;
    InsideClusters(geo, 1);
    TimesStep(0, geo.bytesPerCluster);
  }

  lemma RepPopulate(geo: Geometry, variant: Variant, disk: seq<byte>, w: Window, raw: seq<u32>, vol: Volume, pos: nat,
      count: nat)
    requires Rep(geo, variant, disk, w, false, raw, vol)
    requires count > 0 && pos + count <= geo.numClusters + RESERVED_ENTRIES
    ensures var base := geo.fatOffset + geo.EntryOffset(pos);
      && base + geo.EntryOffset(count) <= |disk|
      && Rep(geo, variant, disk, Window(pos, count, disk[base..base + geo.EntryOffset(count)]), false, raw, vol)
  {
    hide LoadEntry, Classify, LogicalEntry;
    var base := geo.fatOffset + geo.EntryOffset(pos);
    var w' := Window(pos, count, disk[base..base + geo.EntryOffset(count)]);
    CleanWindowIsTransparent(geo, variant, disk, w, raw);
    CleanWindowIsTransparent(geo, variant, disk, w', raw);
  }

  lemma RepLoad(geo: Geometry, variant: Variant, disk: seq<byte>, w: Window, dirty: bool, raw: seq<u32>, vol: Volume,
      index: nat)
    requires Rep(geo, variant, disk, w, dirty, raw, vol)
    requires w.Window? && w.pos <= index < w.pos + w.count
    ensures geo.EntryOffset(index - w.pos) + geo.Width() <= |w.data|
    ensures index < |raw| && LoadEntry(geo.fat32, variant, w.data, geo.EntryOffset(index - w.pos)) == raw[index]
    ensures Classified(geo.fat32, raw, vol.fat)
  {
    hide LoadEntry, Classify;
    assert raw[index] == LogicalEntry(geo, variant, disk, w, index);
  }

  lemma RepStore(geo: Geometry, variant: Variant, disk: seq<byte>, w: Window, dirty: bool, raw: seq<u32>, vol: Volume,
      index: nat, entry: u32)
    requires Rep(geo, variant, disk, w, dirty, raw, vol)
    requires w.Window? && w.pos <= index < w.pos + w.count
    ensures geo.EntryOffset(index - w.pos) + geo.Width() <= |w.data| && index < |raw| == |vol.fat|
    ensures var e := Narrowed(geo.fat32, entry);
      Rep(geo, variant, disk,
          w.(data := Splice(w.data, geo.EntryOffset(index - w.pos), StoreEntry(geo.fat32, variant, entry))), true,
          raw[index := e], vol.(fat := vol.fat[index := Classify(geo.fat32, e)]))
  {
    hide LoadEntry, StoreEntry, Classify, Narrowed, LogicalEntry;
    StoreUpdatesFat(geo, variant, disk, w, raw, index, entry);
  }

  // ---- what lies outside the table and the clusters ----

  const DIRENT_BYTES := 64

  // The device is as it was when it was opened, but for the FAT, the clusters, and, once
  // a directory entry strayed, the place of one entry right behind the last cluster.
  ghost predicate Framed(geo: Geometry, origin: seq<byte>, disk: seq<byte>, strayed: bool) {
    && |disk| == |origin|
    && (forall i :: 0 <= i < |disk| && i < geo.fatOffset ==> disk[i] == origin[i])
    && (forall i :: 0 <= i < |disk| && geo.ClustersEnd() + (if strayed then DIRENT_BYTES else 0) <= i ==>
       disk[i] == origin[i])
  }

  lemma FramedWrite(geo: Geometry, origin: seq<byte>, disk: seq<byte>, strayed: bool, at: nat, d: seq<byte>)
    requires Framed(geo, origin, disk, strayed) && at + |d| <= |disk|
    requires geo.fatOffset <= at && at + |d| <= geo.ClustersEnd()
    ensures Framed(geo, origin, Splice(disk, at, d), strayed)
  {
    hide Times;
  }

  lemma FramedStray(geo: Geometry, origin: seq<byte>, disk: seq<byte>, strayed: bool, d: seq<byte>)
    requires Framed(geo, origin, disk, strayed) && geo.fatOffset <= geo.ClustersEnd()
    requires |d| <= DIRENT_BYTES && geo.ClustersEnd() + |d| <= |disk|
    ensures Framed(geo, origin, Splice(disk, geo.ClustersEnd(), d), true)
  {
    hide Times;
  }

  // Everything inside the clusters lies behind the FAT and before their end.
  lemma InsideClusters(geo: Geometry, c: nat)
    requires geo.Sound() && 1 <= c < geo.numClusters
    ensures geo.fatOffset <= geo.clusterOffset <= geo.ClusterStart(c)
    ensures geo.ClusterStart(c) + geo.bytesPerCluster <= geo.ClustersEnd()
  {
    hide Times;
    ClusterStartMonotone(geo, c, geo.numClusters);
  }

  // ---- the volume a device stands for ----

  function RawOf(geo: Geometry, variant: Variant, disk: seq<byte>): seq<u32> {
    seq(geo.numClusters + RESERVED_ENTRIES, i requires 0 <= i => DiskEntry(geo, variant, disk, i))
  }

  function ClusterBytes(geo: Geometry, disk: seq<byte>, c: nat): seq<byte> {
    if c >= 1 && geo.ClusterStart(c) + geo.bytesPerCluster <= |disk|
    then disk[geo.ClusterStart(c)..geo.ClusterStart(c) + geo.bytesPerCluster]
    else []
  }

  // The table decoded entry by entry and every cluster's bytes: what a device holds
  // when nothing is cached.
  function VolumeOf(geo: Geometry, variant: Variant, disk: seq<byte>): Volume {
    Volume(geo.bytesPerCluster, variant,
           seq(geo.numClusters + RESERVED_ENTRIES, i requires 0 <= i => Classify(geo.fat32,
             DiskEntry(geo, variant, disk, i))),
           seq(geo.numClusters, c requires 0 <= c => ClusterBytes(geo, disk, c)))
  }

  // Without a window, or with a clean one, the device alone determines the volume.
  lemma RepIsVolumeOf(geo: Geometry, variant: Variant, disk: seq<byte>, w: Window, raw: seq<u32>, vol: Volume)
    requires Rep(geo, variant, disk, w, false, raw, vol)
    ensures raw == RawOf(geo, variant, disk) && vol == VolumeOf(geo, variant, disk)
  {
    hide LoadEntry, Classify, Times, LogicalEntry, DiskEntry;
    CleanWindowIsTransparent(geo, variant, disk, w, raw);
    assert FatOk(geo, variant, disk, NoWindow, raw);
    NoWindowEntries(geo, variant, disk, raw);
    assert raw == RawOf(geo, variant, disk);
    var u := VolumeOf(geo, variant, disk);
    assert vol.fat == u.fat;
    forall c | 0 <= c < geo.numClusters ensures vol.clusters[c] == ClusterBytes(geo, disk, c) {
    }
    assert vol.clusters == u.clusters;
  }

  lemma NoWindowEntries(geo: Geometry, variant: Variant, disk: seq<byte>, raw: seq<u32>)
    requires FatOk(geo, variant, disk, NoWindow, raw)
    ensures forall i :: 0 <= i < |raw| ==> raw[i] == DiskEntry(geo, variant, disk, i)
  {
    hide DiskEntry;
  }

  lemma VolumeOfIsRep(geo: Geometry, variant: Variant, disk: seq<byte>)
    requires geo.Sound() && geo.partitionOffset + geo.partitionSize <= |disk|
    ensures Rep(geo, variant, disk, NoWindow, false, RawOf(geo, variant, disk), VolumeOf(geo, variant, disk))
  {
    hide LoadEntry, Classify, Times, DiskEntry;
    TimesStep(0, geo.bytesPerCluster);
    ClusterStartMonotone(geo, 1, geo.numClusters);
    forall c | 1 <= c < geo.numClusters
      ensures geo.ClusterStart(c) + geo.bytesPerCluster <= |disk|
    {
      ClusterStartMonotone(geo, c, geo.numClusters);
    }
  }

  class Fs {
    const geo: Geometry
    const variant: Variant

    // the device
    var disk: seq<byte>
    var cursor: nat

    // fat_cache; present is "data is not NULL"
    var cache: Cache

    // the static index of fatx_alloc_cluster
    var hint: nat

    ghost var raw: seq<u32>
    ghost var vol: Volume
    ghost var layout: Layout

    // the device as it was opened, and whether a write went past the last cluster since
    ghost const origin: seq<byte>
    ghost var strayed: bool

    // fatx_open_device_ex once the geometry is known; the hint is the process's
    constructor Open(geo: Geometry, variant: Variant, disk: seq<byte>, hint: nat)
      requires geo.Sound() && geo.partitionOffset + geo.partitionSize <= |disk|
      ensures this.geo == geo && this.variant == variant && this.disk == disk && this.hint == hint
      ensures Valid() && !cache.present && vol == VolumeOf(geo, variant, disk)
      ensures origin == disk && !strayed
    {
      hide Rep;
      VolumeOfIsRep(geo, variant, disk);
      this.geo, this.variant, this.disk, this.cursor, this.hint := geo, variant, disk, 0, hint;
      cache := Cache(false, 0, 0, 0, false, []);
      raw, vol := RawOf(geo, variant, disk), VolumeOf(geo, variant, disk);
      layout := Layout(0, map[], map[], map[]);
      origin, strayed := disk, false;
    }

    ghost predicate Valid()
      reads this
    {
      && Rep(geo, variant, disk, CacheWindow(cache), cache.dirty, raw, vol)
      && Framed(geo, origin, disk, strayed)
      && (if cache.present then cache.entrySize == geo.Width() else !cache.dirty)
    }

    // What the allocator needs of the index it starts from.
    predicate HintOk()
      reads this
    {
      2 <= hint < geo.numClusters
    }

    // Everything the directory and file operations rely on and keep.
    ghost predicate Mounted()
      reads this
    {
      Valid() && HintOk() && !strayed && Inv(vol, layout) && layout.root == geo.rootCluster
    }

    lemma Bounds()
      requires Valid()
      ensures geo.Sound() && vol.Wf() && geo.partitionOffset + geo.partitionSize <= |disk|
      ensures |raw| == |vol.fat| == geo.numClusters + RESERVED_ENTRIES
      ensures |vol.clusters| == geo.numClusters && vol.bpc == geo.bytesPerCluster && vol.variant == variant
    {
      hide Rep, Framed;
      RepBounds(geo, variant, disk, CacheWindow(cache), cache.dirty, raw, vol);
    }

    // ---- device ----

    method DevSeek(offset: nat)
      modifies `cursor
      ensures cursor == offset
    {
      cursor := offset;
    }

    // fatx_dev_read of whole items
    method DevRead(count: nat) returns (data: seq<byte>)
      requires cursor + count <= |disk|
      modifies `cursor
      ensures data == disk[old(cursor)..old(cursor) + count]
      ensures cursor == old(cursor) + count
    {
      data := disk[cursor..cursor + count];
      cursor := cursor + count;
    }

    // fatx_dev_read of single bytes: the device may transfer fewer, but at least one
    method DevReadSome(count: nat) returns (data: seq<byte>)
      requires count > 0 && cursor + count <= |disk|
      modifies `cursor
      ensures 1 <= |data| <= count
      ensures data == disk[old(cursor)..old(cursor) + |data|]
      ensures cursor == old(cursor) + |data|
    {
      var got :| 1 <= got <= count;
      data := disk[cursor..cursor + got];
      cursor := cursor + got;
    }

    method DevWrite(data: seq<byte>)
      requires cursor + |data| <= |disk|
      modifies `cursor, `disk
      ensures disk == Splice(old(disk), old(cursor), data)
      ensures cursor == old(cursor) + |data|
    {
      disk := Splice(disk, cursor, data);
      cursor := cursor + |data|;
    }

    // the same two with the cursor inside cluster c
    method DevReadCluster(count: nat, ghost c: nat, ghost off: nat) returns (data: seq<byte>)
      requires Valid() && vol.InRange(c) && off + count <= geo.bytesPerCluster
      requires cursor == geo.ClusterStart(c) + off
      modifies `cursor
      ensures Valid() && |vol.clusters[c]| == geo.bytesPerCluster
      ensures data == vol.clusters[c][off..off + count]
      ensures cursor == geo.ClusterStart(c) + off + count
    {
      hide Rep, Framed, Times;
      RepRead(geo, variant, disk, CacheWindow(cache), cache.dirty, raw, vol, c, off, count);
      data := DevRead(count);
    }

    method DevReadSomeCluster(count: nat, ghost c: nat, ghost off: nat) returns (data: seq<byte>)
      requires Valid() && vol.InRange(c) && 0 < count && off + count <= geo.bytesPerCluster
      requires cursor == geo.ClusterStart(c) + off
      modifies `cursor
      ensures Valid() && |vol.clusters[c]| == geo.bytesPerCluster
      ensures 1 <= |data| <= count && data == vol.clusters[c][off..off + |data|]
      ensures cursor == geo.ClusterStart(c) + off + |data|
    {
      hide Rep, Framed, Times;
      RepRead(geo, variant, disk, CacheWindow(cache), cache.dirty, raw, vol, c, off, count);
      data := DevReadSome(count);
      RepRead(geo, variant, disk, CacheWindow(cache), cache.dirty, raw, vol, c, off, |data|);
    }

    // fatx_dev_write with the cursor inside cluster c
    method DevWriteCluster(data: seq<byte>, ghost c: nat, ghost off: nat)
      requires Valid() && vol.InRange(c) && off + |data| <= geo.bytesPerCluster
      requires cursor == geo.ClusterStart(c) + off
      modifies `cursor, `disk, `vol
      ensures Valid() && |disk| == |old(disk)|
      ensures |old(vol).clusters[c]| == geo.bytesPerCluster && vol == old(vol).Write(c, off, data)
      ensures cursor == geo.ClusterStart(c) + off + |data|
    {
      hide Rep, Framed, Times;
      RepWrite(geo, variant, disk, CacheWindow(cache), cache.dirty, raw, vol, c, off, data);
      Bounds();
      InsideClusters(geo, c);
      FramedWrite(geo, origin, disk, strayed, cursor, data);
      DevWrite(data);
      vol := vol.Write(c, off, data);
    }

    // fatx_dev_read of one item at offset off of cluster c, in the same range
    method DevReadItem(count: nat, ghost c: nat, ghost off: nat) returns (ok: bool, data: seq<byte>)
      requires Valid() && 1 <= c <= geo.numClusters && off + count <= geo.bytesPerCluster
      requires cursor == geo.ClusterStart(c) + off
      modifies `cursor
      ensures Valid() && |vol.clusters| == geo.numClusters
      ensures ok ==> |data| == count
      ensures c < geo.numClusters ==>
                ok && |vol.clusters[c]| == geo.bytesPerCluster && data == vol.clusters[c][off..off + count]
    {
      hide Rep, Framed, Times;
      Bounds();
      if c < geo.numClusters {
        RepRead(geo, variant, disk, CacheWindow(cache), cache.dirty, raw, vol, c, off, count);
      }
      if cursor + count > |disk| {
        return false, [];
      }
      data := DevRead(count);
      return true, data;
    }

    // fatx_dev_write of one item at offset off of cluster c, which may be the one past
    // the last cluster; false when the device ends before the item does.
    method DevWriteItem(data: seq<byte>, ghost c: nat, ghost off: nat) returns (ok: bool)
      requires Valid() && 1 <= c <= geo.numClusters && off + |data| <= geo.bytesPerCluster
      requires cursor == geo.ClusterStart(c) + off
      requires c == geo.numClusters ==> off == 0 && |data| <= DIRENT_BYTES
      modifies `cursor, `disk, `vol, `strayed
      ensures Valid() && |disk| == |old(disk)|
      ensures c < geo.numClusters ==> ok
      ensures strayed == (old(strayed) || (ok && c == geo.numClusters))
      ensures !ok ==> disk == old(disk)
      ensures |old(vol).clusters| == geo.numClusters
      ensures if c < geo.numClusters
              then |old(vol).clusters[c]| == geo.bytesPerCluster && vol == old(vol).Write(c, off, data)
              else vol == old(vol)
    {
      hide Rep, Framed, Times;
      Bounds();
      if c < geo.numClusters {
        RepWrite(geo, variant, disk, CacheWindow(cache), cache.dirty, raw, vol, c, off, data);
      }
      if cursor + |data| > |disk| {
        return false;
      }
      if c == geo.numClusters {
        RepWriteBeyond(geo, variant, disk, CacheWindow(cache), cache.dirty, raw, vol, cursor, data);
        ClusterStartMonotone(geo, 1, geo.numClusters);
        TimesStep(0, geo.bytesPerCluster);
        FramedStray(geo, origin, disk, strayed, data);
        strayed := true;
      } else {
        InsideClusters(geo, c);
        FramedWrite(geo, origin, disk, strayed, cursor, data);
      }
      DevWrite(data);
      if c < geo.numClusters {
        vol := vol.Write(c, off, data);
      }
      return true;
    }

    // fatx_dev_write of single bytes: the device may accept fewer, but at least one
    method DevWriteSomeCluster(data: seq<byte>, ghost c: nat, ghost off: nat) returns (written: nat)
      requires Valid() && vol.InRange(c) && 0 < |data| && off + |data| <= geo.bytesPerCluster
      requires cursor == geo.ClusterStart(c) + off
      modifies `cursor, `disk, `vol
      ensures Valid() && |disk| == |old(disk)|
      ensures 1 <= written <= |data|
      ensures |old(vol).clusters[c]| == geo.bytesPerCluster && vol == old(vol).Write(c, off, data[..written])
      ensures cursor == geo.ClusterStart(c) + off + written
    {
      written :| 1 <= written <= |data|;
      DevWriteCluster(data[..written], c, off);
    }

    // fatx_dev_seek_cluster over fatx_cluster_number_to_byte_offset.  Number 0 is let
    // through; its address wraps around before it is compared with the partition's end.
    method SeekCluster(cluster: nat, offset: nat) returns (status: Status)
      requires geo.Sound()
      modifies `cursor
      ensures 1 <= cluster < geo.numClusters ==> status == Success
      ensures status == if cluster <= geo.numClusters && ByteOffset(cluster) < geo.partitionOffset + geo.partitionSize
                        then Success else Error
      ensures status == Success ==> cursor == ByteOffset(cluster) + offset
      ensures status == Success && cluster >= 1 ==> cursor == geo.ClusterStart(cluster) + offset
      ensures status == Error ==> cursor == old(cursor)
    {
      hide Times;
      if !ClusterValid(cluster) {
        return Error;
      }
      var pos := ByteOffset(cluster);
      if pos >= geo.partitionOffset + geo.partitionSize {
        if 1 <= cluster < geo.numClusters { ClusterStartMonotone(geo, cluster, geo.numClusters); }
        return Error;
      }
      DevSeek(pos + offset);
      return Success;
    }

    // the 64-bit address computed in fatx_cluster_number_to_byte_offset
    function ByteOffset(cluster: nat): nat {
      if cluster >= RESERVED_ENTRIES then geo.ClusterStart(cluster)
      else (geo.clusterOffset - geo.bytesPerCluster) % 0x1_0000_0000_0000_0000
    }

    // ---- FAT cache ----

    predicate ClusterValid(c: nat) {
      c < geo.numClusters + RESERVED_ENTRIES
    }

    method FlushFatCache()
      requires Valid()
      modifies `cursor, `disk, `cache
      ensures Valid() && cache == old(cache).(dirty := false)
      ensures |disk| == |old(disk)|
    {
      hide Rep, Framed;
      if !cache.present || !cache.dirty {
        return;
      }
      RepFlush(geo, variant, disk, CacheWindow(cache), cache.dirty, raw, vol);
      Bounds();
      RepWindow(geo, variant, disk, CacheWindow(cache), cache.dirty, raw, vol);
      FramedWrite(geo, origin, disk, strayed, geo.fatOffset + geo.EntryOffset(cache.position), cache.data);
      DevSeek(geo.fatOffset + geo.EntryOffset(cache.position));
      DevWrite(cache.data);
      cache := cache.(dirty := false);
    }

    method PopulateFatCache(index: nat) returns (status: Status)
      requires Valid()
      modifies `cursor, `disk, `cache
      ensures Valid()
      ensures status == if ClusterValid(index) then Success else Error
      ensures status == Success ==> cache.present && cache.position == index && index < cache.position + cache.entries
      ensures |disk| == |old(disk)|
    {
      hide Rep, Framed;
      if !ClusterValid(index) {
        return Error;
      }
      FlushFatCache();
      var left := geo.numClusters + RESERVED_ENTRIES - index;
      var count := if CACHE_ENTRIES <= left then CACHE_ENTRIES else left;
      RepPopulate(geo, variant, disk, CacheWindow(cache), raw, vol, index, count);
      cache := cache.(position := index, entries := count, entrySize := geo.Width());
      DevSeek(geo.fatOffset + geo.EntryOffset(cache.position));
      var data := DevRead(geo.EntryOffset(cache.entries));
      cache := cache.(present := true, data := data, dirty := false);
      return Success;
    }

    method ReadFat(index: nat) returns (status: Status, entry: u32)
      requires Valid()
      modifies `cursor, `disk, `cache
      ensures Valid()
      ensures status == if ClusterValid(index) then Success else Error
      ensures status == Success ==>
                index < |raw| && entry == raw[index] && index < |vol.fat|
                  && vol.fat[index] == Classify(geo.fat32, entry)
      ensures |disk| == |old(disk)|
    {
      hide Rep, Framed, LoadEntry, Classify;
      if !ClusterValid(index) {
        return Error, 0;
      }
      if !cache.present || index < cache.position || index >= cache.position + cache.entries {
        status := PopulateFatCache(index);
      }
      RepLoad(geo, variant, disk, CacheWindow(cache), cache.dirty, raw, vol, index);
      return Success, LoadEntry(geo.fat32, variant, cache.data, geo.EntryOffset(index - cache.position));
    }

    method WriteFat(index: nat, entry: u32) returns (status: Status)
      requires Valid()
      modifies `cursor, `disk, `cache, `raw, `vol
      ensures Valid()
      ensures status == if ClusterValid(index) then Success else Error
      ensures status == Success ==>
                var e := Narrowed(geo.fat32, entry);
                && index < |old(raw)| && raw == old(raw)[index := e]
                && index < |old(vol).fat| && vol == old(vol).(fat := old(vol).fat[index := Classify(geo.fat32, e)])
      ensures status == Error ==> raw == old(raw) && vol == old(vol)
      ensures |disk| == |old(disk)|
    {
      hide Rep, Framed, StoreEntry, Classify, Narrowed;
      if !ClusterValid(index) {
        return Error;
      }
      if !cache.present || index < cache.position || index >= cache.position + cache.entries {
        status := PopulateFatCache(index);
      }
      RepStore(geo, variant, disk, CacheWindow(cache), cache.dirty, raw, vol, index, entry);
      cache := cache.(data := Splice(cache.data, geo.EntryOffset(index - cache.position),
                                     StoreEntry(geo.fat32, variant, entry)));
      cache := cache.(dirty := true);
      raw := raw[index := Narrowed(geo.fat32, entry)];
      vol := vol.(fat := vol.fat[index := Classify(geo.fat32, Narrowed(geo.fat32, entry))]);
      return Success;
    }

    // fatx_close_device: afterwards the device alone stands for the volume.
    method CloseDevice()
      requires Valid()
      modifies `cursor, `disk, `cache
      ensures Valid() && |disk| == |old(disk)|
      ensures raw == RawOf(geo, variant, disk) && vol == VolumeOf(geo, variant, disk)
    {
      hide Rep, Framed, RawOf, VolumeOf;
      FlushFatCache();
      RepIsVolumeOf(geo, variant, disk, CacheWindow(cache), raw, vol);
    }

    // ---- cluster chains ----

    method GetNextCluster(cluster: nat) returns (status: Status, next: nat)
      requires Valid()
      modifies `cursor, `disk, `cache
      ensures Valid() && |disk| == |old(disk)|
      ensures |vol.fat| == geo.numClusters + RESERVED_ENTRIES
      ensures status == if cluster < |vol.fat| && vol.fat[cluster].Data? then Success else Error
      ensures next == if status == Success then vol.fat[cluster].next else cluster
    {
      hide Rep, Framed, Classify;
      RepBounds(geo, variant, disk, CacheWindow(cache), cache.dirty, raw, vol);
      var s, entry := ReadFat(cluster);
      if s != Success {
        return s, cluster;
      }
      var t := Classify(geo.fat32, entry);
      if t.Data? {
        return Success, entry;
      }
      return Error, cluster;
    }

    method MarkClusterAvailable(cluster: nat)
      requires Valid()
      modifies `cursor, `disk, `cache, `raw, `vol
      ensures Valid() && |disk| == |old(disk)|
      ensures |old(vol).fat| == geo.numClusters + RESERVED_ENTRIES
      ensures vol == if cluster < |old(vol).fat| then old(vol).(fat := old(vol).fat[cluster := Available]) else old(vol)
    {
      hide Rep, Framed, Classify, Narrowed;
      RepBounds(geo, variant, disk, CacheWindow(cache), cache.dirty, raw, vol);
      MarkersClassify(geo, 0);
      var status := WriteFat(cluster, 0);
    }

    method MarkClusterEnd(cluster: nat)
      requires Valid()
      modifies `cursor, `disk, `cache, `raw, `vol
      ensures Valid() && |disk| == |old(disk)|
      ensures |old(vol).fat| == geo.numClusters + RESERVED_ENTRIES
      ensures vol == if cluster < |old(vol).fat| then old(vol).(fat := old(vol).fat[cluster := End]) else old(vol)
    {
      hide Rep, Framed, Classify, Narrowed;
      RepBounds(geo, variant, disk, CacheWindow(cache), cache.dirty, raw, vol);
      MarkersClassify(geo, 0);
      var status;
      if !geo.fat32 {
        status := WriteFat(cluster, 0xffff);
      } else {
        status := WriteFat(cluster, 0xffff_ffff);
      }
    }

    // Terminates on every table: each further round turns a data entry into an available one.
    method FreeClusterChain(first: nat)
      requires Valid()
      modifies `cursor, `disk, `cache, `raw, `vol
      ensures Valid() && |disk| == |old(disk)|
      ensures vol == old(vol).(fat := FreeChain(old(vol).fat, first))
    {
      hide Rep, Framed;
      var cluster: nat := first;
      while true
        invariant Valid() && |disk| == |old(disk)|
        invariant vol == old(vol).(fat := vol.fat)
        invariant FreeChain(vol.fat, cluster) == FreeChain(old(vol).fat, first)
        decreases CountData(vol.fat)
      {
        var status, next := GetNextCluster(cluster);
        if status != Success {
          next := 0;
        }
        if cluster < |vol.fat| { CountDataUpdate(vol.fat, cluster); }
        MarkClusterAvailable(cluster);
        cluster := next;
        if cluster == 0 {
          break;
        }
      }
    }

    // A search ends: its hint is in range, or there is something to find.
    ghost predicate SearchEnds()
      reads this
    {
      hint >= 2 && (HintOk() || !NoneFree(vol.fat, 2, geo.numClusters))
    }

    // the search of fatx_alloc_cluster
    method FindFree() returns (found: bool, ghost probes: nat)
      requires Valid() && SearchEnds()
      modifies `cursor, `disk, `cache, `hint
      ensures Valid() && HintOk() && |disk| == |old(disk)|
      ensures probes <= geo.numClusters - 2
      ensures if found then NextFree(vol.fat, geo.numClusters, old(hint), hint)
              else NoneFree(vol.fat, 2, geo.numClusters)
    {
      hide Rep, Framed, Times;
      RepBounds(geo, variant, disk, CacheWindow(cache), cache.dirty, raw, vol);
      var start := hint;
      var wrapped := false;
      probes := 0;
      while true
        invariant Valid() && |disk| == |old(disk)|
        invariant if wrapped then 2 <= hint <= start && hint <= geo.numClusters
                  else start <= hint <= if start < geo.numClusters then geo.numClusters else start
        invariant if wrapped then NoneFree(vol.fat, start, geo.numClusters) && NoneFree(vol.fat, 2, hint)
                  else NoneFree(vol.fat, start, hint)
        invariant start >= geo.numClusters ==> !NoneFree(vol.fat, 2, geo.numClusters)
        invariant probes == if !wrapped then hint - start
                            else hint - 2 + if start < geo.numClusters then geo.numClusters - start else 0
        decreases !wrapped, if wrapped then start - hint else geo.numClusters - hint
      {
        if hint >= geo.numClusters {
          hint := 2;
          wrapped := true;
        }
        if hint == start && wrapped {
          return false, probes;
        }
        var s, entry := ReadFat(hint);
        probes := probes + 1;
        if Classify(geo.fat32, entry) == Available {
          return true, probes;
        }
        hint := hint + 1;
      }
    }

    // The first available index in cyclic order from the hint, in one lap at most.
    method AllocCluster(zero: bool) returns (status: Status, cluster: nat, ghost probes: nat)
      requires Valid() && SearchEnds()
      modifies `cursor, `disk, `cache, `raw, `vol, `hint
      ensures Valid() && HintOk() && |disk| == |old(disk)|
      ensures probes <= geo.numClusters - 2
      ensures status == Success || status == Error
      ensures status == Error ==> vol == old(vol) && NoneFree(vol.fat, 2, geo.numClusters)
      ensures status == Success ==>
                && NextFree(old(vol).fat, geo.numClusters, old(hint), cluster) && hint == cluster
                && |old(vol).clusters| == geo.numClusters && |old(vol).clusters[cluster]| == geo.bytesPerCluster
                && vol == Allocated(old(vol), cluster, zero)
    {
      hide Rep, Framed, Times, NoneFree;
      Bounds();
      var found;
      found, probes := FindFree();
      if !found {
        return Error, 0, probes;
      }
      MarkClusterEnd(hint);
      Bounds();
      var s := SeekCluster(hint, 0);
      if zero {
        DevWriteCluster(Zeros(geo.bytesPerCluster), hint, 0);
      }
      return Success, hint, probes;
    }

    method AttachCluster(tail: nat, cluster: nat) returns (status: Status)
      requires Valid()
      modifies `cursor, `disk, `cache, `raw, `vol
      ensures Valid() && |disk| == |old(disk)|
      ensures |old(vol).fat| == geo.numClusters + RESERVED_ENTRIES
      ensures status == if tail < |old(vol).fat| && old(vol).fat[tail] == End then Success else Error
      ensures status == Error ==> vol == old(vol)
      ensures status == Success && 1 <= cluster < geo.numClusters ==>
                vol == old(vol).(fat := old(vol).fat[tail := Data(cluster)][cluster := End])
      // a target outside the data clusters is cut to the entry width and ended only where it has an entry
      ensures status == Success ==>
                var fat := old(vol).fat[tail := Classify(geo.fat32, Narrowed(geo.fat32, cluster % 0x1_0000_0000))];
                vol == old(vol).(fat := if cluster < |fat| then fat[cluster := End] else fat)
    {
      hide Rep, Framed, Classify, Narrowed;
      RepBounds(geo, variant, disk, CacheWindow(cache), cache.dirty, raw, vol);
      var s, entry := ReadFat(tail);
      if s != Success {
        return s;
      }
      if Classify(geo.fat32, entry) != End {
        return Error;
      }
      MarkersClassify(geo, cluster % 0x1_0000_0000);
      s := WriteFat(tail, cluster % 0x1_0000_0000);
      MarkClusterEnd(cluster);
      return Success;
    }
  }
}
