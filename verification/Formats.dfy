// Formatting: fatx_init_fat and fatx_init_root turn any partition into an empty file system.

module Formats {
  import opened Bytes
  import opened Endian
  import opened Codec
  import opened Geometry
  import opened Volumes
  import opened Streams
  import opened Layouts
  import opened FatxFs
  import opened Files
  import opened Partitions
  import opened Superblocks

  lemma ZeroEntry(geo: Geometry, variant: Variant, disk: seq<byte>, i: nat)
    requires geo.Sound() && geo.clusterOffset <= |disk| && i <= geo.numClusters
    ensures DiskEntry(geo, variant, Splice(disk, geo.fatOffset, Zeros(geo.fatSize)), i) == 0
  {
    var d := Splice(disk, geo.fatOffset, Zeros(geo.fatSize));
    var at := geo.fatOffset + geo.EntryOffset(i);
    assert geo.EntryOffset(i) + geo.Width() <= geo.fatSize;
    assert d[at] == 0 && d[at + 1] == 0;
  }

  // A zeroed table has only available entries, and the clusters are as they were.
  lemma WipedFat(geo: Geometry, variant: Variant, disk: seq<byte>, raw: seq<u32>, vol: Volume)
    requires Rep(geo, variant, disk, NoWindow, false, raw, vol)
    ensures geo.fatOffset + geo.fatSize <= |disk|
    ensures Rep(geo, variant, Splice(disk, geo.fatOffset, Zeros(geo.fatSize)), NoWindow, false,
                seq(geo.numClusters + RESERVED_ENTRIES, _ => 0),
                vol.(fat := seq(geo.numClusters + RESERVED_ENTRIES, _ => Available)))
  {
    hide LoadEntry, Times, DiskEntry;
    forall i | 0 <= i <= geo.numClusters
      ensures DiskEntry(geo, variant, Splice(disk, geo.fatOffset, Zeros(geo.fatSize)), i) == 0
    {
      ZeroEntry(geo, variant, disk, i);
    }
    ClustersSurviveFatWrite(geo, vol, disk, geo.fatOffset, Zeros(geo.fatSize));
  }

  // fatx_init_fat on a device just opened
  method InitFat(fs: Fs)
    requires fs.Valid() && !fs.cache.present
    modifies fs`cursor, fs`disk, fs`raw, fs`vol
    ensures fs.Valid() && |fs.disk| == |old(fs.disk)|
    ensures fs.vol == old(fs.vol).(fat := seq(fs.geo.numClusters + RESERVED_ENTRIES, _ => Available))
  {
    hide Rep, Framed, Times;
    WipedFat(fs.geo, fs.variant, fs.disk, fs.raw, fs.vol);
    ghost var disk0, geo := fs.disk, fs.geo;
    fs.Bounds();
    TimesStep(0, geo.bytesPerCluster);
    InsideClusters(geo, 1);
    FramedWrite(geo, fs.origin, disk0, fs.strayed, geo.fatOffset, Zeros(geo.fatSize));
    fs.DevSeek(fs.geo.fatOffset);
    var chunkSize: nat := Max(0x4000, fs.geo.fatSize / 256);
    var chunk := Zeros(chunkSize);
    var bytesRemaining: int := fs.geo.fatSize;
    while bytesRemaining > 0
      invariant 0 <= bytesRemaining <= geo.fatSize && |fs.disk| == |disk0|
      invariant fs.cursor == geo.fatOffset + geo.fatSize - bytesRemaining
      invariant fs.disk == Splice(disk0, geo.fatOffset, Zeros(geo.fatSize - bytesRemaining))
      invariant fs.raw == old(fs.raw) && fs.vol == old(fs.vol)
    {
      var bytesToWrite: nat := Min(chunkSize, bytesRemaining);
      fs.DevWrite(chunk[..bytesToWrite]);
      bytesRemaining := bytesRemaining - bytesToWrite;
    }
    fs.raw := seq(geo.numClusters + RESERVED_ENTRIES, _ => 0);
    fs.vol := fs.vol.(fat := seq(geo.numClusters + RESERVED_ENTRIES, _ => Available));
  }

  // A blank table with the two root entries, and a first cluster of end markers.
  function EmptyVolume(v: Volume, root: nat): Volume
    requires 0 < root < |v.fat| && 1 < |v.clusters|
  {
    v.(fat := v.fat[0 := Media][root := End], clusters := v.clusters[1 := Padding(v.bpc)])
  }

  // An empty root directory and nothing else.
  function EmptyLayout(root: nat, e: nat): Layout {
    Layout(root, map[root := [root]], map[root := Term(0, e)], map[])
  }

  // In cluster c slot e is an end marker and the slots before it are deleted.
  ghost predicate EndsEmpty(v: Volume, c: nat, e: nat) {
    && e < SlotsPerCluster(v.bpc) && IsEnd(SlotBytes(v, c, e))
    && forall i :: 0 <= i < e ==> IsDeleted(SlotBytes(v, c, i))
  }

  // The root cluster is the one that gets the end markers, or holds an empty directory as
  // it is.
  ghost predicate ReadyRoot(v: Volume, root: nat) {
    root == 1 || exists e :: EndsEmpty(v, root, e)
  }

  lemma EmptyRootSlot(v: Volume, root: nat, e: nat)
    requires v.Wf() && v.InRange(root)
    ensures SlotBytes(EmptyVolume(v, root), root, e) == if root == 1 then SlotBytes(EmptyVolume(v, 1), 1, e)
            else SlotBytes(v, root, e)
  {
  }

  lemma MarkersEnd(v: Volume)
    requires v.Wf() && v.InRange(1)
    ensures EndsEmpty(EmptyVolume(v, 1), 1, 0)
  {
  }

  lemma EmptyEnds(v: Volume, root: nat) returns (e: nat)
    requires v.Wf() && v.InRange(root) && ReadyRoot(v, root)
    ensures EndsEmpty(EmptyVolume(v, root), root, e)
  {
    hide SlotBytes;
    if root == 1 {
      MarkersEnd(v);
      e := 0;
    } else {
      e :| EndsEmpty(v, root, e);
      forall i: nat ensures SlotBytes(EmptyVolume(v, root), root, i) == SlotBytes(v, root, i) {
        EmptyRootSlot(v, root, i);
      }
    }
  }

  lemma EmptyIsInv(v: Volume, root: nat) returns (e: nat)
    requires v.Wf() && v.InRange(root) && ReadyRoot(v, root) && forall i :: 0 <= i < |v.fat| ==> v.fat[i] == Available
    ensures var v', g := EmptyVolume(v, root), EmptyLayout(root, e); Inv(v', g) && Abs(v', g) == map[]
  {
    hide AttrOf, SlotBytes, IsEnd, IsDeleted, ReadyRoot;
    e := EmptyEnds(v, root);
    var v', g := EmptyVolume(v, root), EmptyLayout(root, e);
    assert IsChain(v', [root]) by {
      assert v'.fat[[root][0]] == Link([root], 0);
    }
    assert ChainsOk(v', g.chains) by {
      assert root in g.chains[root];
    }
    assert DirOk(v', g, root) by {
      forall k, i | 0 <= k && 0 <= i < SlotsPerCluster(v'.bpc) && Before(k, i, Term(0, e))
        ensures GoodSlot(v'.variant, SlotAt(v', g, Place(root, k, i)))
      {
        assert IsDeleted(SlotBytes(v', root, i));
        DeletedGood(v'.variant, SlotBytes(v', root, i));
      }
    }
    forall p ensures !Live(v', g, p) {
      assert InDir(v', g, p) ==> p.dir == root && p.k == 0;
      assert p.e < e ==> IsDeleted(SlotBytes(v', root, p.e));
    }
  }

  lemma DeletedGood(variant: Variant, b: seq<byte>)
    requires |b| == DIRENT_SIZE && IsDeleted(b)
    ensures GoodSlot(variant, b)
  {
    hide AttrOf;
  }

  // What fatx_init_root leaves is a proper volume, in whatever layout, if and only if the
  // root is in the first cluster, which gets the end markers, or its cluster happens to hold
  // an empty directory.
  lemma EmptyIsExact(v: Volume, root: nat)
    requires v.Wf() && v.InRange(root) && forall i :: 0 <= i < |v.fat| ==> v.fat[i] == Available
    ensures ReadyRoot(v, root) <==> exists g: Layout :: g.root == root && Inv(EmptyVolume(v, root), g)
  {
    hide AttrOf, SlotBytes, InvBut;
    if ReadyRoot(v, root) {
      var e := EmptyIsInv(v, root);
      assert EmptyLayout(root, e).root == root;
    }
    if root != 1 && exists g: Layout :: g.root == root && Inv(EmptyVolume(v, root), g) {
      var g: Layout :| g.root == root && Inv(EmptyVolume(v, root), g);
      var t := OnlyRoot(v, root, g);
      forall i: nat | i <= t.e
        ensures SlotBytes(v, root, i) == SlotAt(EmptyVolume(v, root), g, Place(root, 0, i))
      {
        EmptyRootSlot(v, root, i);
      }
      assert EndsEmpty(v, root, t.e);
    }
  }

  // In an empty volume the root directory has one cluster and no entries.
  lemma OnlyRoot(v: Volume, root: nat, g: Layout) returns (t: Term)
    requires v.Wf() && v.InRange(root) && forall i :: 0 <= i < |v.fat| ==> v.fat[i] == Available
    requires g.root == root && Inv(EmptyVolume(v, root), g)
    ensures root in g.chains && g.chains[root] == [root] && t.k == 0 && t.e < SlotsPerCluster(v.bpc)
    ensures IsEnd(SlotAt(EmptyVolume(v, root), g, Place(root, 0, t.e)))
    ensures forall i: nat :: i < t.e ==> IsDeleted(SlotAt(EmptyVolume(v, root), g, Place(root, 0, i)))
  {
    hide AttrOf, SlotAt, NamesDistinct, AttrAt;
    var v' := EmptyVolume(v, root);
    t := g.dirs[root];
    var ch := g.chains[root];
    assert IsChain(v', ch) && DirOk(v', g, root);
    ChainEntry(v', ch, 0);
    forall i: nat | i < t.e ensures IsDeleted(SlotAt(v', g, Place(root, 0, i))) {
      var p := Place(root, 0, i);
      if !IsDeleted(SlotAt(v', g, p)) {
        assert Live(v', g, p);
        assert LiveOk(v', g, p, {});
        var k := AttrAt(v', g, p).first;
        assert IsChain(v', g.chains[k]);
        ChainEntry(v', g.chains[k], 0);
      }
    }
  }

  lemma EmptyVolumeIs(v: Volume, root: nat)
    requires v.Wf() && v.InRange(root)
    ensures var marked := v.(fat := v.fat[0 := Media]);
            EmptyVolume(v, root) == marked.(fat := marked.fat[root := End]).Write(1, 0, Padding(v.bpc))
  {
    assert Splice(v.clusters[1], 0, Padding(v.bpc)) == Padding(v.bpc);
  }

  lemma EmptyParts(v: Volume, root: nat)
    requires 0 < root < |v.fat| && 1 < |v.clusters|
    ensures var w := EmptyVolume(v, root);
      && |w.fat| == |v.fat| && |w.clusters| == |v.clusters| && w.bpc == v.bpc
      && (forall i :: 0 <= i < |v.fat| ==> w.fat[i] == if i == root then End else if i == 0 then Media else v.fat[i])
      && (forall c :: 0 <= c < |v.clusters| && c != 1 ==> w.clusters[c] == v.clusters[c])
      && |w.clusters[1]| == v.bpc && forall i :: 0 <= i < v.bpc ==> w.clusters[1][i] == 0xff
  {
  }

  // fatx_init_root: the root's entry is ended, but the markers go to cluster 1 whatever
  // the root is.  On a blank table that makes a file system exactly where the root is ready.
  method InitRoot(fs: Fs)
    requires fs.Valid()
    modifies fs
    ensures fs.Valid() && |fs.disk| == |old(fs.disk)| && fs.hint == old(fs.hint) && fs.strayed == old(fs.strayed)
    ensures var root := fs.geo.rootCluster;
      0 < root < |old(fs.vol).fat| && 1 < |old(fs.vol).clusters| && fs.vol == EmptyVolume(old(fs.vol), root)
    // entry 0 is the media's, the root's an end, cluster 1 is all end markers, and the rest stays
    ensures |fs.vol.fat| == |old(fs.vol).fat| && |fs.vol.clusters| == |old(fs.vol).clusters|
    ensures forall i :: 0 <= i < |fs.vol.fat| ==>
              fs.vol.fat[i] == if i == fs.geo.rootCluster then End else if i == 0 then Media else old(fs.vol).fat[i]
    ensures forall c :: 0 <= c < |fs.vol.clusters| && c != 1 ==> fs.vol.clusters[c] == old(fs.vol).clusters[c]
    ensures 1 < |fs.vol.clusters| && |fs.vol.clusters[1]| == fs.geo.bytesPerCluster
            && forall i :: 0 <= i < fs.geo.bytesPerCluster ==> fs.vol.clusters[1][i] == 0xff
    ensures fs.HintOk() && !fs.strayed && (forall i :: 0 <= i < |old(fs.vol).fat| ==> old(fs.vol).fat[i] == Available)
            && ReadyRoot(old(fs.vol), fs.geo.rootCluster) ==>
              fs.Mounted() && Abs(fs.vol, fs.layout) == map[]
              && exists e :: fs.layout == EmptyLayout(fs.geo.rootCluster, e)
    ensures (forall i :: 0 <= i < |old(fs.vol).fat| ==> old(fs.vol).fat[i] == Available)
            && !ReadyRoot(old(fs.vol), fs.geo.rootCluster) ==>
              forall g: Layout :: g.root == fs.geo.rootCluster ==> !Inv(fs.vol, g)
  {
    hide Rep, Framed, Times, Classify, Bytes.Zeros, Inv, Abs, EmptyVolume, Splice, ReadyRoot;
    fs.Bounds();
    ghost var v0, root := fs.vol, fs.geo.rootCluster;
    MarkersClassify(fs.geo, 0);
    var status := fs.WriteFat(0, 0xffff_fff8);
    fs.MarkClusterEnd(fs.geo.rootCluster);
    fs.Bounds();
    TimesStep(0, fs.geo.bytesPerCluster);
    fs.DevSeek(fs.geo.clusterOffset);
    fs.DevWriteCluster(Padding(fs.geo.bytesPerCluster), 1, 0);
    EmptyVolumeIs(v0, root);
    EmptyParts(v0, root);
    if forall i :: 0 <= i < |v0.fat| ==> v0.fat[i] == Available {
      EmptyIsExact(v0, root);
      if ReadyRoot(v0, root) {
        ghost var e := EmptyIsInv(v0, root);
        fs.layout := EmptyLayout(root, e);
      }
    }
  }

  // fs works on the partition of that size, whose superblock is sb.
  ghost predicate PartitionOf(fs: Fs, size: nat, sectorSize: nat, sb: Superblock) {
    && LibGeometry(fs.geo, fs.geo.partitionOffset, size, sectorSize, sb)
    && Carries(fs.origin, fs.geo.partitionOffset, fs.variant, sb)
  }

  // What opening the partition arrives at is sound and lies on the device, and the
  // allocator's hint is in its range.
  ghost predicate Formattable(device: seq<byte>, offset: nat, size: nat, sectorSize: nat, sectorsPerCluster: u32,
      id: u32, hint: nat) {
    var chosen := ChosenSuperblock(device, offset, Auto, sectorsPerCluster, id);
    chosen.Some? && SectorSizeOk(sectorSize) && ChosenSize(|device|, offset, size, sectorSize).Some? ==>
      var s := ChosenSize(|device|, offset, size, sectorSize).value;
      forall geo :: LibGeometry(geo, offset, s, sectorSize, chosen.value.1) ==>
        geo.Sound() && offset + s <= |device| && 2 <= hint < geo.numClusters
  }

  // Its root is in the first cluster, or an empty directory is where it is.
  ghost predicate RootReady(device: seq<byte>, offset: nat, size: nat, sectorSize: nat, sectorsPerCluster: u32,
      id: u32) {
    var chosen := ChosenSuperblock(device, offset, Auto, sectorsPerCluster, id);
    chosen.Some? && SectorSizeOk(sectorSize) && ChosenSize(|device|, offset, size, sectorSize).Some? ==>
      var s := ChosenSize(|device|, offset, size, sectorSize).value;
      forall geo :: LibGeometry(geo, offset, s, sectorSize, chosen.value.1) ==>
        ReadyRoot(VolumeOf(geo, chosen.value.0, device), geo.rootCluster)
  }

  // Every partition of 16 KiB and four clusters can be formatted, but for those with
  // clusters above 8 KiB and a table that would end on a page boundary.
  lemma LargeIsFormattable(device: seq<byte>, offset: nat, size: nat, sectorSize: nat, sectorsPerCluster: u32, id: u32)
    requires sectorsPerCluster != READ_FROM_SUPERBLOCK && Opens(device, offset, size, sectorSize, sectorsPerCluster,
             Auto, id)
    requires var s, bpc := ChosenSize(|device|, offset, size, sectorSize).value,
             BytesPerCluster(sectorsPerCluster, sectorSize);
      && bpc > 0 && 16384 + 4 * bpc <= s < 0x1_0000_0000_0000_0000 && Capacity(s, bpc) + RESERVED_ENTRIES < 0xffff_fff0
      && offset + s <= |device|
      && (bpc <= 8192 || EntryBytes(Capacity(s, bpc) + RESERVED_ENTRIES) % FAT_ALIGN != 0)
    ensures Formattable(device, offset, size, sectorSize, sectorsPerCluster, id, 2)
    ensures RootReady(device, offset, size, sectorSize, sectorsPerCluster, id)
  {
    hide VolumeOf, Capacity, BytesPerCluster, CutUp, Times, Aligned;
    var s := ChosenSize(|device|, offset, size, sectorSize).value;
    var bpc := BytesPerCluster(sectorsPerCluster, sectorSize);
    var sb := Superblock(id, sectorsPerCluster, 1);
    forall geo | LibGeometry(geo, offset, s, sectorSize, sb)
      ensures geo.Sound() && geo.rootCluster == 1 && 2 < geo.numClusters
    {
      EntryWidth(geo, offset, s, bpc, 1, Capacity(s, bpc) + RESERVED_ENTRIES);
      LargeIsSound(geo, offset, s, sectorSize, sectorsPerCluster);
      LibShape(geo, offset, s, sectorSize, sb);
    }
  }

  function EntryBytes(entries: nat): nat {
    if entries < FAT16_LIMIT then 2 * entries else 4 * entries
  }

  lemma EntryWidth(geo: Geometry, offset: nat, size: nat, bpc: nat, root: nat, entries: nat)
    requires CutUp(geo, offset, size, bpc, root, entries)
    ensures geo.EntryOffset(entries) == EntryBytes(entries)
  {
  }

  // fatx_disk_format_partition; the device is closed afterwards.
  method FormatPartition(device: seq<byte>, offset: nat, size: nat, sectorSize: nat, sectorsPerCluster: u32, id: u32,
      hint: nat)
    returns (ok: bool, fs: Fs?, ghost sb: Superblock)
    requires Formattable(device, offset, size, sectorSize, sectorsPerCluster, id, hint)
    ensures ok <==> Opens(device, offset, size, sectorSize, sectorsPerCluster, Auto, id)
    ensures ok ==>
              && fs != null && fresh(fs) && fs.Valid() && fs.geo.partitionOffset == offset
              && ChosenSuperblock(device, offset, Auto, sectorsPerCluster, id) == Some((fs.variant, sb))
              && PartitionOf(fs, ChosenSize(|device|, offset, size, sectorSize).value, sectorSize, sb)
              && fs.vol == VolumeOf(fs.geo, fs.variant, fs.disk)
              && forall i :: 1 <= i < |fs.vol.fat| && i != fs.geo.rootCluster ==> fs.vol.fat[i] == Available
    ensures ok ==>
              && fs.geo.rootCluster < |fs.vol.fat| && fs.vol.fat[fs.geo.rootCluster] == End && fs.geo.rootCluster > 0
              && fs.vol.fat[0] == Media && 1 < |fs.vol.clusters|
              && |fs.vol.clusters[1]| == fs.geo.bytesPerCluster
              && forall i :: 0 <= i < fs.geo.bytesPerCluster ==> fs.vol.clusters[1][i] == 0xff
    // an empty file system, if and only if the root is ready
    ensures ok ==>
              if ReadyRoot(VolumeOf(fs.geo, fs.variant, device), fs.geo.rootCluster)
              then
                && fs.Mounted() && Abs(fs.vol, fs.layout) == map[]
                && exists e :: fs.layout == EmptyLayout(fs.geo.rootCluster, e)
              else
                forall g: Layout :: g.root == fs.geo.rootCluster ==> !Inv(fs.vol, g)
    // of the device only the superblock, the FAT and the clusters have changed
    ensures ok ==>
              && |fs.disk| == |device| && offset + SUPERBLOCK_SIZE <= |device|
              && Elsewhere(device, fs.origin, offset)
  {
    hide Rep, Framed, Inv, Abs, VolumeOf, RawOf, ChosenSuperblock, SuperblockBytes, Capacity, CutUp, BytesPerCluster,
         Times, EmptyVolume, ReadyRoot, Carries, Elsewhere;
    fs := null;
    var geo, variant, found;
    ok, geo, variant, found := OpenDevice(device, offset, size, sectorSize, sectorsPerCluster, Auto, id);
    sb := found;
    if !ok {
      return;
    }
    LibShape(geo, offset, ChosenSize(|device|, offset, size, sectorSize).value, sectorSize, sb);
    InsideClusters(geo, 1);
    var written, device' := WriteSuperblock(device, offset, variant, found);
    BehindSuperblock(device, device', offset);
    SameClusters(geo, variant, device, device');
    var made := new Fs.Open(geo, variant, device', hint);
    made.Bounds();
    SameReady(VolumeOf(geo, variant, device), made.vol, geo.rootCluster);
    InitFat(made);
    ghost var blank := made.vol;
    SameReady(VolumeOf(geo, variant, device), blank, geo.rootCluster);
    InitRoot(made);
    EmptyIsFree(blank, geo.rootCluster);
    made.CloseDevice();
    fs := made;
  }

  lemma BehindSuperblock(device: seq<byte>, device': seq<byte>, offset: nat)
    requires Elsewhere(device, device', offset)
    ensures |device'| == |device| && forall i :: offset + SUPERBLOCK_SIZE <= i < |device| ==> device'[i] == device[i]
  {
  }

  // The clusters are behind the superblock.
  lemma SameClusters(geo: Geometry, variant: Variant, device: seq<byte>, device': seq<byte>)
    requires |device'| == |device| && geo.Sound()
    requires forall i :: geo.fatOffset <= i < |device| ==> device'[i] == device[i]
    ensures VolumeOf(geo, variant, device').clusters == VolumeOf(geo, variant, device).clusters
    ensures VolumeOf(geo, variant, device').bpc == VolumeOf(geo, variant, device).bpc
  {
    hide DiskEntry, Times, Classify;
    var v, v' := VolumeOf(geo, variant, device), VolumeOf(geo, variant, device');
    forall c: nat | c < geo.numClusters ensures ClusterBytes(geo, device', c) == ClusterBytes(geo, device, c) {
    }
    assert |v.clusters| == |v'.clusters| == geo.numClusters;
    assert forall c: nat :: c < geo.numClusters ==> v'.clusters[c] == v.clusters[c];
  }

  lemma SameReady(v: Volume, v': Volume, root: nat)
    requires v'.clusters == v.clusters && v'.bpc == v.bpc
    ensures ReadyRoot(v', root) <==> ReadyRoot(v, root)
  {
    forall e: nat ensures SlotBytes(v', root, e) == SlotBytes(v, root, e) {
    }
    hide SlotBytes;
    forall e ensures EndsEmpty(v', root, e) <==> EndsEmpty(v, root, e) {
    }
  }

  lemma EmptyIsFree(v: Volume, root: nat)
    requires 0 < root < |v.fat| && 1 < |v.clusters| && forall i :: 0 <= i < |v.fat| ==> v.fat[i] == Available
    ensures forall i :: 1 <= i < |EmptyVolume(v, root).fat| && i != root ==> EmptyVolume(v, root).fat[i] == Available
  {
  }

  lemma LibShape(geo: Geometry, offset: nat, size: nat, sectorSize: nat, sb: Superblock)
    requires LibGeometry(geo, offset, size, sectorSize, sb)
    ensures geo.partitionOffset == offset && geo.partitionSize == size && geo.rootCluster == sb.rootCluster
  {
  }

  // A device closed after any history and opened again is the same volume.
  method Remount(fs: Fs, hint: nat) returns (again: Fs)
    requires fs.Mounted() && 2 <= hint < fs.geo.numClusters
    modifies fs`cursor, fs`disk, fs`cache
    ensures fresh(again) && again.geo == fs.geo && again.variant == fs.variant && again.disk == fs.disk
    ensures again.Mounted() && again.vol == old(fs.vol) && again.layout == old(fs.layout)
  {
    hide Rep, Framed, Inv, VolumeOf, RawOf;
    fs.Bounds();
    fs.CloseDevice();
    again := new Fs.Open(fs.geo, fs.variant, fs.disk, hint);
    again.layout := fs.layout;
  }
}
