// Creating and removing entries: libfatx/fatx_dir.c and fatx_mknod, each tied to its
// effect on the inode table.

module DirOps {
  import opened Bytes
  import opened Endian
  import opened Codec
  import opened Geometry
  import opened Volumes
  import opened Layouts
  import opened Entries
  import opened FatxFs
  import opened Dirs
  import opened FileOps
  import opened Rooms

  // ---- creating ----

  lemma FreeUnattached(v: Volume, c: nat, zero: bool)
    requires v.Wf() && v.InRange(c) && v.fat[c] == Available
    ensures |v.clusters[c]| == v.bpc
    ensures var w := Allocated(v, c, zero);
      w.(fat := FreeChain(w.fat, c)) == if zero then v.Write(c, 0, Zeros(v.bpc)) else v
  {
    var w := Allocated(v, c, zero);
    assert w.fat[c] == End;
    assert FreeChain(w.fat, c) == w.fat[c := Available];
    assert v.fat[c := End][c := Available] == v.fat;
  }

  lemma StopFresh(v: Volume, g: Layout, d: nat, t: Term, c: nat)
    requires Inv(v, g) && d in g.dirs && v.InRange(c) && v.fat[c] == Available
    requires d in g.chains && StopAt(v, g.chains[d], t) && t.k < |g.chains[d]|
    ensures |v.clusters[c]| == v.bpc
    ensures var v1, ch := Allocated(v, c, true), g.chains[d];
      && |v1.fat| == |v1.clusters| + 1 && IsChain(v1, ch) && ch[0] == d && StopAt(v1, ch, t)
      && SlotBytes(v1, ch[t.k], t.e) == SlotBytes(v, ch[t.k], t.e) && v1.InRange(ch[t.k]) && v1.bpc == v.bpc
      && |v1.clusters| == |v.clusters| && v1.variant == v.variant
      && ClusterAt(g, Place(d, t.k, t.e)) == ch[t.k]
      && SlotAt(v1, g, Place(d, t.k, t.e)) == SlotAt(v, g, Place(d, t.k, t.e)) == SlotBytes(v1, ch[t.k], t.e)
  {
    hide AttrOf, SlotBytes, DirOk, NamesDistinct, LiveOk, Live, AttrAt, GoodSlot;
    FreshCluster(v, g, c);
    var v1, ch := Allocated(v, c, true), g.chains[d];
    assert IsChain(v, ch) && ch[0] == d;
    ChainUntouched(v, v1, ch);
    forall k, e: nat | 0 <= k < |ch| ensures SlotBytes(v1, ch[k], e) == SlotBytes(v, ch[k], e) {
      assert ch[k] in ch;
      OtherClusterSlot(v, c, 0, Zeros(v.bpc), ch[k], e);
      SlotIgnoresFat(v.Write(c, 0, Zeros(v.bpc)), v1, ch[k], e);
    }
  }

  // A marker that misses the device changes nothing.
  lemma MarkMisses(v: Volume, c: nat, e: nat)
    requires SlotHome(v, c, e).0 >= |v.clusters|
    ensures MarkAt(v, c, e, END_OF_DIR) == v
  {
  }

  lemma AvailableIsFree(v: Volume, c: nat, n: nat)
    requires 2 <= c < n && c < |v.fat| && v.fat[c] == Available
    ensures !NoneFree(v.fat, 2, n)
  {
  }

  lemma RoomByNumber(v: Volume, g: Layout, p: Place, c: nat, directory: bool)
    requires |v.fat| == |v.clusters| + 1 && ScanStops(v, g, p) && 2 <= c < |v.clusters| && v.fat[c] == Available
    ensures HasRoom(v, g, p.dir, directory) ==>
              CreateWorks(v, g, p, c, directory) && (RoomFor(v, g, p) || ClusterAt(g, p) + 1 < |v.clusters|)
  {
    hide ScanStops, HasRoom, CreateWorks, RoomFor;
    if HasRoom(v, g, p.dir, directory) {
      RoomThereWorks(v, g, p, c, directory);
    }
  }

  // fatx_alloc_dir_entry and fatx_write_dir for a cluster c just taken from the volume v0;
  // marked is the volume between them.
  method PlaceEntry(fs: Fs, d: nat, attr: Attr, ghost v0: Volume, ghost t: Term, ghost c: nat)
    returns (status: Status, ghost marked: Volume)
    requires fs.Valid() && fs.HintOk() && !fs.strayed && Inv(v0, fs.layout) && d in fs.layout.dirs
    requires v0.InRange(c) && c < |v0.fat| && v0.fat[c] == Available && |v0.clusters[c]| == v0.bpc
    requires fs.vol == Allocated(v0, c, true) && |attr.name| <= MAX_NAME && d in fs.layout.chains
    requires StopAt(v0, fs.layout.chains[d], t) && t.k < |fs.layout.chains[d]|
             && ScanStops(v0, fs.layout, Place(d, t.k, t.e))
    requires var b := SlotAt(v0, fs.layout, Place(d, t.k, t.e)); IsDeleted(b) || IsEnd(b)
    modifies fs`cursor, fs`disk, fs`cache, fs`raw, fs`vol, fs`hint, fs`strayed
    ensures fs.Valid() && fs.HintOk()
    ensures status == Success || status == Error
    ensures var g, p := fs.layout, Place(d, t.k, t.e);
      if status == Success
      then
        && fs.vol == CreatedVolume(v0, g, p, c, attr) && marked == Marked(Allocated(v0, c, true), g, p)
        && fs.strayed == (!RoomFor(v0, g, p) && ClusterAt(g, p) + 1 >= |v0.clusters|)
      else
        fs.vol == old(fs.vol) && !fs.strayed && !RoomFor(v0, g, p) && ClusterAt(g, p) + 1 >= |v0.clusters|
  {
    hide Rep, Framed, Times, AttrOf, SlotBytes, InvBut, Live, IsChain, SlotAt, StopAt, MarkAt, PutAt, Encode,
         Allocated, Inv, ScanStops, ClusterAt;
    fs.Bounds();
    ghost var g, p := fs.layout, Place(d, t.k, t.e);
    StopFresh(v0, g, d, t, c);
    StopInRange(v0, g, p);
    var dir := new Dir(d, 0);
    ghost var c2;
    status, c2 := AllocDirEntry(fs, dir, g.chains[d], t);
    marked := fs.vol;
    if status != Success {
      MarkMisses(Allocated(v0, c, true), ClusterAt(g, p), p.e + 1);
      return;
    }
    assert fs.vol == Marked(Allocated(v0, c, true), g, p) && dir.On(ClusterAt(g, p), p.e);
    MarkedShape(Allocated(v0, c, true), g, p);
    fs.Bounds();
    status := WriteDir(fs, dir, attr);
  }

  lemma StopInRange(v: Volume, g: Layout, p: Place)
    requires ScanStops(v, g, p)
    ensures p.e < SlotsPerCluster(v.bpc)
  {
  }

  // fatx_create_dirent; steps are the volumes after each of its writes.
  method CreateDirent(fs: Fs, d: nat, name: seq<byte>, attributes: byte, now: Ts)
    returns (status: Status, ghost c: nat, ghost p: Place, ghost steps: seq<Volume>)
    requires fs.Mounted() && d in fs.layout.dirs && name != [] && 0 !in name
    modifies fs
    ensures fs.Valid() && fs.HintOk()
    ensures status == Success || status == Error
    ensures p.dir == d && old(ScanStops(fs.vol, fs.layout, p))
    ensures status == Error ==>
              fs.Mounted() && fs.layout == old(fs.layout) && Abs(fs.vol, fs.layout) == old(Abs(fs.vol, fs.layout))
    ensures old(|fs.vol.fat| == |fs.vol.clusters| + 1)
    ensures old(HasRoom(fs.vol, fs.layout, d, NewAttr(name, attributes, 0, now).IsDirectory())) ==>
              status == if |name| < MAX_NAME && !NoneFree(old(fs.vol).fat, 2, fs.geo.numClusters) then Success
                else Error
    ensures status == Success ==>
              var v, g, a := old(fs.vol), old(fs.layout), NewAttr(name, attributes, c, now);
              && |name| < MAX_NAME && 2 <= c < fs.geo.numClusters && v.InRange(c) && v.fat[c] == Available
                 && |v.clusters[c]| == v.bpc
              && fs.vol == CreatedVolume(v, g, p, c, a) && steps == CreateSteps(v, g, p, c, a)
              && fs.strayed == (!RoomFor(v, g, p) && ClusterAt(g, p) + 1 >= |v.clusters|)
    // where it works and the name is new, the volume is proper and has one more node
    ensures status == Success
            && old(NoEntry(fs.vol, fs.layout, d, name))
            && CreateWorks(old(fs.vol), old(fs.layout), p, c, NewAttr(name, attributes, c, now).IsDirectory()) ==>
              var a := NewAttr(name, attributes, c, now);
              && (!fs.strayed ==> fs.Mounted()) && Inv(fs.vol, fs.layout)
              && Grew(old(fs.layout), fs.layout, p, c, a.IsDirectory())
              && Abs(fs.vol, fs.layout)
                 == old(Abs(fs.vol, fs.layout))[c := NewNode(fs.variant, d, a, fs.geo.bytesPerCluster)]
    // which is found under its name, empty, with the time of its making in all three stamps
    ensures status == Success
            && old(NoEntry(fs.vol, fs.layout, d, name))
            && CreateWorks(old(fs.vol), old(fs.layout), p, c, NewAttr(name, attributes, c, now).IsDirectory()) ==>
              && Names(fs.vol, fs.layout, d, name, c)
              && var n := Abs(fs.vol, fs.layout)[c];
                 && n.attr.attributes == attributes && n.attr.first == c && n.attr.size == 0
                 && n.attr.modified == n.attr.created == n.attr.accessed == StoredTs(fs.variant, now)
                 && (Representable(fs.variant, now) ==> n.attr.modified == now)
                 && n.bytes == if attributes / 16 % 2 == 1 then [] else Zeros(fs.geo.bytesPerCluster)
  {
    hide Rep, Framed, Times, AttrOf, SlotAt, InvBut, Live, NoneFree, StopAt, Allocated, NewNode, HasRoom, FreeChain,
         Readable, Inv, Abs, NoEntry, CreateWorks, ScanStops, CreatedVolume, RoomFor, ClusterAt, Marked, Grew;
    fs.Bounds();
    ghost var v0, g := fs.vol, fs.layout;
    InvIsInvBut(v0, g, {});
    c, steps := 0, [v0];
    ghost var t := StopInDir(v0, g, d);
    p := Place(d, t.k, t.e);
    if |name| >= MAX_NAME {
      return Error, 0, p, steps;
    }
    var cluster;
    ghost var probes;
    status, cluster, probes := fs.AllocCluster(true);
    if status != Success {
      return;
    }
    c, steps := cluster, steps + [fs.vol];
    AvailableIsFree(v0, c, fs.geo.numClusters);
    fs.Bounds();
    RoomByNumber(v0, g, p, c, NewAttr(name, attributes, 0, now).IsDirectory());
    var attr := NewAttr(name, attributes, cluster, now);
    ghost var marked;
    status, marked := PlaceEntry(fs, d, attr, v0, t, c);
    if status != Success {
      WriteFresh(v0, g, c, 0, Zeros(v0.bpc));
      FreeUnattached(v0, c, true);
      fs.FreeClusterChain(cluster);
      return;
    }
    steps := steps + [marked, fs.vol];
    fs.Bounds();
    if NoEntry(v0, g, d, name) && CreateWorks(v0, g, p, c, attr.IsDirectory()) {
      fs.layout := CreatedKeepsInv(v0, g, p, c, attr);
      GrewRoot(g, fs.layout, p, c, attr.IsDirectory());
      NewNodeFields(fs.variant, d, name, attributes, c, now, fs.geo.bytesPerCluster);
    }
  }

  lemma GrewRoot(g: Layout, g': Layout, p: Place, c: nat, directory: bool)
    requires Grew(g, g', p, c, directory)
    ensures g'.root == g.root
  {
  }

  // A new node, field by field.
  lemma NewNodeFields(variant: Variant, d: nat, name: seq<byte>, attributes: byte, c: nat, now: Ts, b: nat)
    requires c < 0x1_0000_0000
    ensures var n := NewNode(variant, d, NewAttr(name, attributes, c, now), b);
      && n.dir == d && n.attr.name == name && n.attr.attributes == attributes && n.attr.first == c && n.attr.size == 0
      && n.attr.modified == n.attr.created == n.attr.accessed == StoredTs(variant, now)
      && (Representable(variant, now) ==> n.attr.modified == now)
      && n.bytes == if attributes / 16 % 2 == 1 then [] else Zeros(b)
  {
    hide StoredTs, Representable;
    StoredIffRepresentable(variant, now);
  }

  // fatx_mknod
  method Mknod(fs: Fs, d: nat, name: seq<byte>, now: Ts) returns (status: Status, ghost c: nat, ghost p: Place)
    requires fs.Mounted() && d in fs.layout.dirs && name != [] && 0 !in name
    requires |fs.vol.fat| == |fs.vol.clusters| + 1 && HasRoom(fs.vol, fs.layout, d, false)
    modifies fs
    ensures fs.Mounted()
    ensures status == if old(NoEntry(fs.vol, fs.layout, d, name)) && |name| < MAX_NAME
                         && !NoneFree(old(fs.vol).fat, 2, fs.geo.numClusters) then Success else Error
    ensures status == Error ==>
              fs.layout == old(fs.layout) && Abs(fs.vol, fs.layout) == old(Abs(fs.vol, fs.layout))
    ensures status == Success ==>
              && c !in old(Abs(fs.vol, fs.layout)) && Grew(old(fs.layout), fs.layout, p, c, false)
              && Abs(fs.vol, fs.layout) == old(Abs(fs.vol, fs.layout))
                   [c := NewNode(fs.variant, d, NewAttr(name, 0, c, now), fs.geo.bytesPerCluster)]
              && 2 <= c < fs.geo.numClusters && old(fs.vol).InRange(c)
              && c < |old(fs.vol).fat| && old(fs.vol).fat[c] == Available && fs.vol.fat == old(fs.vol).fat[c := End]
    // the entry of that name is an empty file with the time of its making in all three stamps
    ensures status == Success ==>
              && Names(fs.vol, fs.layout, d, name, c)
              && var n := Abs(fs.vol, fs.layout)[c];
                 && n.attr.attributes == 0 && n.attr.first == c && n.attr.size == 0
                 && n.attr.modified == n.attr.created == n.attr.accessed == StoredTs(fs.variant, now)
                 && (Representable(fs.variant, now) ==> n.attr.modified == now)
                 && n.bytes == Zeros(fs.geo.bytesPerCluster)
  {
    hide Rep, Framed, InvBut, HasRoom, NoneFree, AttrOf, SlotAt, Live, NewNode, CreatedVolume, Readable, Inv, NoEntry,
         Abs, AttrAt, ClusterAt, ScanStops, RoomFor, Grew, CreateWorks;
    fs.Bounds();
    ghost var v0, g := fs.vol, fs.layout;
    InvIsInvBut(v0, g, {});
    var dir, attr;
    ghost var q;
    status, dir, attr, q := Find(fs, d, name);
    if status == Success {
      LiveHasEntry(v0, g, q);
      return Error, 0, q;
    }
    ghost var steps;
    status, c, p, steps := CreateDirent(fs, d, name, 0, now);
    if status == Success {
      RoomByNumber(v0, g, p, c, false);
      CreatedFat(v0, g, p, c, NewAttr(name, 0, c, now));
      FreshCluster(v0, g, c);
      InvKeys(v0, g);
    }
  }

  // ---- removing ----

  // The entries of d called name are files or empty directories.
  ghost predicate NamesRemovable(v: Volume, g: Layout, d: nat, name: seq<byte>) {
    forall p :: Live(v, g, p) && p.dir == d && AttrAt(v, g, p).name == name ==> EmptyDir(v, g, AttrAt(v, g, p).first)
  }

  lemma RemovedIsMarked(v: Volume, g: Layout, p: Place, k: nat)
    requires v.Wf() && ChainsOk(v, g.chains) && InDir(v, g, p)
    ensures var v1 := v.(fat := FreeChain(v.fat, k));
      v1.InRange(ClusterAt(g, p)) && MarkAt(v1, ClusterAt(g, p), p.e, DELETED) == Removed(v, g, p, k)
  {
    hide FreeChain, IsChain, SlotBytes;
    SlotInCluster(v, g, p);
    var v1 := v.(fat := FreeChain(v.fat, k));
    SlotIgnoresFat(v, v1, ClusterAt(g, p), p.e);
  }

  // fatx_unlink: exactly what it leaves of the volume, and that this is proper where the
  // name is a file's or an empty directory's.
  method Unlink(fs: Fs, d: nat, name: seq<byte>) returns (status: Status, ghost k: nat)
    requires fs.Mounted() && d in fs.layout.dirs
    modifies fs
    ensures fs.Valid() && fs.HintOk() && !fs.strayed
    ensures status == if old(NoEntry(fs.vol, fs.layout, d, name)) then FileNotFound else Success
    ensures status == FileNotFound ==> fs.Mounted() && fs.vol == old(fs.vol) && fs.layout == old(fs.layout)
    ensures status == Success ==>
              && Names(old(fs.vol), old(fs.layout), d, name, k) && k in old(fs.layout).owner
              && fs.vol == Removed(old(fs.vol), old(fs.layout), old(fs.layout).owner[k], k)
    ensures status == Success ==>
              && k in old(fs.layout).chains && |fs.vol.fat| == |old(fs.vol).fat|
              && forall i :: 0 <= i < |fs.vol.fat| ==>
                   fs.vol.fat[i] == if i in old(fs.layout).chains[k] then Available else old(fs.vol).fat[i]
    ensures status == Success && old(NamesRemovable(fs.vol, fs.layout, d, name)) ==>
              && fs.Mounted() && fs.layout == RemovedLayout(old(fs.layout), k)
              && Abs(fs.vol, fs.layout) == old(Abs(fs.vol, fs.layout)) - {k}
    // and there is room for another entry then
    ensures status == Success && old(NamesRemovable(fs.vol, fs.layout, d, name)) ==>
              |fs.vol.fat| == |fs.vol.clusters| + 1 && forall directory :: HasRoom(fs.vol, fs.layout, d, directory)
  {
    hide Rep, Framed, Times, AttrOf, SlotAt, InvBut, Live, IsChain, FreeChain, MarkAt, Removed, EmptyDir, Abs,
         SlotBytes, NamesRemovable, NoEntry, Inv, Readable, HasRoom;
    fs.Bounds();
    ghost var v0, g := fs.vol, fs.layout;
    InvIsInvBut(v0, g, {});
    var dir, attr;
    ghost var p;
    status, dir, attr, p := Find(fs, d, name);
    if status != Success {
      return status, 0;
    }
    k := attr.first;
    LiveHasEntry(v0, g, p);
    LiveNames(v0, g, p);
    LiveOwner(v0, g, {}, p);
    LiveInDir(v0, g, p);
    InvChains(v0, g);
    FreedFat(v0, g, k);
    RemovedIsMarked(v0, g, p, k);
    RemovedFat(v0, g, p, k);
    fs.FreeClusterChain(attr.first);
    status := MarkDirEntry(fs, dir, DELETED);
    if NamesRemovable(v0, g, d, name) {
      NamedRemovable(v0, g, d, name, p);
      RemoveEntry(v0, g, p, k);
      RemovedHasRoom(v0, g, p, k, false);
      forall directory ensures HasRoom(Removed(v0, g, p, k), RemovedLayout(g, k), d, directory) {
        RemovedHasRoom(v0, g, p, k, directory);
      }
      fs.layout := RemovedLayout(g, k);
    }
  }

  lemma RemovedFat(v: Volume, g: Layout, p: Place, k: nat)
    ensures Removed(v, g, p, k).fat == FreeChain(v.fat, k)
  {
  }

  lemma NamedRemovable(v: Volume, g: Layout, d: nat, name: seq<byte>, p: Place)
    requires Inv(v, g) && NamesRemovable(v, g, d, name) && Live(v, g, p) && p.dir == d && AttrAt(v, g, p).name == name
    ensures Removable(v, g, p, AttrAt(v, g, p).first)
  {
    hide AttrOf, SlotAt, InvBut, Live, AttrAt;
  }

  lemma InvChains(v: Volume, g: Layout)
    requires Inv(v, g)
    ensures v.Wf() && ChainsOk(v, g.chains) && g.root in g.dirs
  {
  }

  // ---- directories ----

  // fatx_mkdir
  method Mkdir(fs: Fs, d: nat, name: seq<byte>, now: Ts) returns (status: Status, ghost c: nat, ghost p: Place)
    requires fs.Mounted() && d in fs.layout.dirs && name != [] && 0 !in name
    requires |fs.vol.fat| == |fs.vol.clusters| + 1 && HasRoom(fs.vol, fs.layout, d, true)
    modifies fs
    ensures fs.Mounted()
    ensures status == if old(NoEntry(fs.vol, fs.layout, d, name)) && |name| < MAX_NAME
                         && !NoneFree(old(fs.vol).fat, 2, fs.geo.numClusters) then Success else Error
    ensures status == Error ==>
              fs.layout == old(fs.layout) && Abs(fs.vol, fs.layout) == old(Abs(fs.vol, fs.layout))
    ensures status == Success ==>
              && c !in old(Abs(fs.vol, fs.layout)) && Grew(old(fs.layout), fs.layout, p, c, true)
              && Abs(fs.vol, fs.layout) == old(Abs(fs.vol, fs.layout))
                   [c := NewNode(fs.variant, d, NewAttr(name, ATTR_DIRECTORY, c, now), fs.geo.bytesPerCluster)]
              && 2 <= c < fs.geo.numClusters && old(fs.vol).InRange(c)
              && c < |old(fs.vol).fat| && old(fs.vol).fat[c] == Available && fs.vol.fat == old(fs.vol).fat[c := End]
    // the entry of that name is a directory with the time of its making in all three stamps,
    // and its cluster holds an end marker and zeros
    ensures status == Success ==>
              && Names(fs.vol, fs.layout, d, name, c)
              && var n := Abs(fs.vol, fs.layout)[c];
                 && n.attr.attributes == ATTR_DIRECTORY && n.attr.first == c && n.attr.size == 0
                 && n.attr.modified == n.attr.created == n.attr.accessed == StoredTs(fs.variant, now)
                 && (Representable(fs.variant, now) ==> n.attr.modified == now)
                 && n.bytes == []
    ensures status == Success ==>
              c < |fs.vol.clusters| && fs.vol.clusters[c] == Zeros(fs.geo.bytesPerCluster)[0 := END_OF_DIR]
  {
    hide Rep, Framed, InvBut, HasRoom, NoneFree, AttrOf, SlotAt, Live, NewNode, CreatedVolume, Abs, MarkAt, NoEntry,
         Readable, ClusterAt, AttrAt, ScanStops, RoomFor, CreateWorks, Inv, StoredTs, Representable, Grew;
    fs.Bounds();
    ghost var v0, g := fs.vol, fs.layout;
    InvIsInvBut(v0, g, {});
    var dir, attr;
    ghost var q;
    status, dir, attr, q := Find(fs, d, name);
    if status == Success {
      LiveHasEntry(v0, g, q);
      return Error, 0, q;
    }
    ghost var steps;
    status, c, p, steps := CreateDirent(fs, d, name, ATTR_DIRECTORY, now);
    if status != Success {
      return;
    }
    RoomByNumber(v0, g, p, c, true);
    CreatedFat(v0, g, p, c, NewAttr(name, ATTR_DIRECTORY, c, now));
    NewDirectory(g, fs.layout, p, c);
    NewCluster(v0, g, p, c, NewAttr(name, ATTR_DIRECTORY, c, now));
    FreshCluster(v0, g, c);
    InvKeys(v0, g);
    fs.Bounds();
    InvIsInvBut(fs.vol, fs.layout, {});
    NewNodeShape(fs.variant, d, NewAttr(name, ATTR_DIRECTORY, c, now), fs.geo.bytesPerCluster);
    NoEntryIsFalse(fs.vol, fs.layout, d, name, c);
    status, dir, attr, q := Find(fs, d, name);
    LiveNames(fs.vol, fs.layout, q);
    NamesUnique(fs.vol, fs.layout, d, name, attr.first, c);
    MarkNewDir(fs.vol, fs.layout, c);
    MarkedZeros(fs.vol, c);
    dir := new Dir(attr.first, 0);
    status := MarkDirEntry(fs, dir, END_OF_DIR);
  }

  lemma InvKeys(v: Volume, g: Layout)
    requires Inv(v, g)
    ensures g.dirs.Keys <= g.chains.Keys && g.owner.Keys <= g.chains.Keys && Abs(v, g).Keys == g.owner.Keys
  {
  }

  lemma NewNodeShape(variant: Variant, d: nat, a: Attr, b: nat)
    requires a.first < 0x1_0000_0000 && a.size == 0
    ensures var n := NewNode(variant, d, a, b);
      n.dir == d && n.attr.name == a.name && n.attr.first == a.first && n.attr.size == 0
        && n.attr.IsDirectory() == a.IsDirectory()
  {
  }

  lemma NoEntryIsFalse(v: Volume, g: Layout, d: nat, name: seq<byte>, k: nat)
    requires Inv(v, g) && Names(v, g, d, name, k)
    ensures !NoEntry(v, g, d, name)
  {
    hide InvBut, Abs, NoEntry, Names;
    NamesAttr(v, g, d, name, k);
    NoEntryNames(v, g, d, name);
  }

  lemma NewDirectory(g: Layout, g': Layout, p: Place, c: nat)
    requires Grew(g, g', p, c, true)
    ensures c in g'.chains && g'.chains[c] == [c] && c in g'.dirs && g'.dirs[c] == Term(0, 0) && g'.root == g.root
    ensures p.dir in g.dirs ==> p.dir in g'.dirs
  {
  }

  // What creating leaves in the new cluster: zeros, but for an end marker perhaps.
  lemma NewCluster(v: Volume, g: Layout, p: Place, c: nat, a: Attr)
    requires Inv(v, g) && ScanStops(v, g, p) && v.InRange(c) && v.fat[c] == Available && |a.name| <= MAX_NAME
    ensures |v.clusters[c]| == v.bpc && c < |v.fat|
    ensures var w := CreatedVolume(v, g, p, c, a);
      c < |w.clusters| && |w.clusters[c]| == v.bpc && forall i :: 1 <= i < v.bpc ==> w.clusters[c][i] == 0
  {
    hide Encode, AttrOf, InvBut, IsDeleted, ScanStops, Live, ClusterAt, SlotAt;
    WfBound(v, g);
    WriteFresh(v, g, c, 0, Zeros(v.bpc));
    FreshScan(v, g, p, c);
    StopInRange(v, g, p);
  }

  lemma MarkedZeros(v: Volume, c: nat)
    requires v.Wf() && v.InRange(c) && |v.clusters[c]| == v.bpc && v.bpc >= DIRENT_SIZE
    requires forall i :: 1 <= i < v.bpc ==> v.clusters[c][i] == 0
    ensures var w := MarkAt(v, c, 0, END_OF_DIR); c < |w.clusters| && w.clusters[c] == Zeros(v.bpc)[0 := END_OF_DIR]
  {
  }

  lemma MarkNewDir(v: Volume, g: Layout, c: nat)
    requires Inv(v, g) && c in g.chains && g.chains[c] == [c] && c in g.dirs && g.dirs[c] == Term(0, 0)
    ensures v.InRange(c)
    ensures Inv(MarkAt(v, c, 0, END_OF_DIR), g) && Abs(MarkAt(v, c, 0, END_OF_DIR), g) == Abs(v, g)
    ensures MarkAt(v, c, 0, END_OF_DIR).fat == v.fat
  {
    hide AttrOf, SlotBytes, DirOk, NamesDistinct, LiveOk, Live, AttrAt, IsChain, NodeOf, Abs, InvBut;
    var p := Place(c, 0, 0);
    InvChains(v, g);
    SlotInCluster(v, g, p);
    var b := SlotAt(v, g, p)[0 := END_OF_DIR];
    PutBehindTerm(v, g, p, b);
    assert MarkAt(v, c, 0, END_OF_DIR) == SlotPlaceWrite(v, g, p, b);
  }

  ghost predicate EmptyBefore(v: Volume, g: Layout, d: nat, t: Term) {
    forall q :: Live(v, g, q) && q.dir == d ==> !Before(q.k, q.e, t)
  }

  lemma EmptyOn(v: Volume, g: Layout, d: nat, k: nat, e: nat)
    requires Readable(v, g) && Scanning(v, g, d, k, e) && EmptyBefore(v, g, d, Term(k, e))
    requires !Live(v, g, Place(d, k, e))
    ensures Term(k, e) == g.dirs[d] ==> EmptyDir(v, g, d)
    ensures Before(k, e, g.dirs[d]) ==>
              && (e + 1 == SlotsPerCluster(v.bpc) ==> k + 1 < |g.chains[d]|)
              && var t := if e + 1 < SlotsPerCluster(v.bpc) then Term(k, e + 1) else Term(k + 1, 0);
                 Scanning(v, g, d, t.k, t.e) && EmptyBefore(v, g, d, t)
  {
    hide AttrOf, SlotAt, IsChain;
    assert DirOk(v, g, d);
    var t := if e + 1 < SlotsPerCluster(v.bpc) then Term(k, e + 1) else Term(k + 1, 0);
    forall q | Live(v, g, q) && q.dir == d ensures !Before(q.k, q.e, t) {
      NextTerm(q, k, e, SlotsPerCluster(v.bpc));
    }
  }

  lemma NextTerm(q: Place, k: nat, e: nat, epc: nat)
    requires q.e < epc
    ensures Before(q.k, q.e, if e + 1 < epc then Term(k, e + 1) else Term(k + 1, 0)) ==>
              Before(q.k, q.e, Term(k, e)) || q == Place(q.dir, k, e)
  {
  }

  // the scan of fatx_rmdir
  method CheckEmpty(fs: Fs, d: nat) returns (status: Status)
    requires fs.Valid() && Readable(fs.vol, fs.layout) && d in fs.layout.dirs
    modifies fs`cursor, fs`disk, fs`cache
    ensures fs.Valid()
    ensures status == if EmptyDir(fs.vol, fs.layout, d) then Success else EndOfDir
  {
    hide Rep, Framed, Times, IsChain, AttrOf, SlotBytes, Readable, GoodSlot, EmptyBefore;
    var dir := new Dir(d, 0);
    ghost var k: nat := 0;
    fs.Bounds();
    ScanFromStart(fs.vol, fs.layout, d, []);
    assert EmptyBefore(fs.vol, fs.layout, d, Term(0, 0)) by { EmptyFromStart(fs.vol, fs.layout, d); }
    while true
      invariant fs.Valid() && fresh(dir)
      invariant Scanning(fs.vol, fs.layout, d, k, dir.entry) && dir.cluster == fs.layout.chains[d][k]
      invariant EmptyBefore(fs.vol, fs.layout, d, Term(k, dir.entry))
      decreases |fs.layout.chains[d]| - k, SlotsPerCluster(fs.geo.bytesPerCluster) - dir.entry
    {
      fs.Bounds();
      var attr;
      ScannedSlot(fs.vol, fs.layout, d, k, dir.entry);
      status, attr := ReadDir(fs, dir);
      if status == Success {
        return EndOfDir;
      }
      EmptyOn(fs.vol, fs.layout, d, k, dir.entry);
      if status == FileDeleted {
        status, k := NextDirEntry(fs, dir, fs.layout.chains[d], k);
        if status != Success {
          return Error;
        }
      } else if status == EndOfDir {
        return Success;
      } else {
        return Error;
      }
    }
  }

  lemma EmptyFromStart(v: Volume, g: Layout, d: nat)
    ensures EmptyBefore(v, g, d, Term(0, 0))
  {
  }

  // fatx_rmdir
  method Rmdir(fs: Fs, d: nat, name: seq<byte>) returns (status: Status, ghost k: nat)
    requires fs.Mounted() && d in fs.layout.dirs
    modifies fs
    ensures fs.Mounted()
    ensures status == Success || status == FileNotFound || status == EndOfDir
    ensures status != Success ==> fs.vol == old(fs.vol) && fs.layout == old(fs.layout)
    ensures status == FileNotFound ==>
              forall j :: Names(fs.vol, fs.layout, d, name, j) ==> !Abs(fs.vol, fs.layout)[j].attr.IsDirectory()
    ensures status != FileNotFound ==>
              Names(old(fs.vol), old(fs.layout), d, name, k) && old(Abs(fs.vol, fs.layout))[k].attr.IsDirectory()
    ensures status == EndOfDir ==> exists j :: j in Abs(fs.vol, fs.layout) && Abs(fs.vol, fs.layout)[j].dir == k
    ensures status == Success ==>
              && (forall j :: j in old(Abs(fs.vol, fs.layout)) ==> old(Abs(fs.vol, fs.layout))[j].dir != k)
              && fs.layout == RemovedLayout(old(fs.layout), k)
              && Abs(fs.vol, fs.layout) == old(Abs(fs.vol, fs.layout)) - {k}
  {
    hide Rep, Framed, AttrOf, SlotAt, InvBut, Live, Abs, EmptyDir, Names;
    fs.Bounds();
    ghost var v0, g := fs.vol, fs.layout;
    InvIsInvBut(v0, g, {});
    var dir, attr;
    ghost var p;
    status, dir, attr, p := Find(fs, d, name);
    if status != Success {
      NoEntryNames(v0, g, d, name);
      NamesInAbs(v0, g, d, name);
      return status, 0;
    }
    k := attr.first;
    LiveNames(v0, g, p);
    if attr.attributes / ATTR_DIRECTORY % 2 == 0 {
      forall j | Names(v0, g, d, name, j) ensures j == k { NamesUnique(v0, g, d, name, j, k); }
      return FileNotFound, k;
    }
    LiveDirectory(v0, g, p);
    EmptyDirAbs(v0, g, k);
    status := CheckEmpty(fs, attr.first);
    if status != Success {
      return;
    }
    RemovableByName(v0, g, d, name, p);
    ghost var j;
    status, j := Unlink(fs, d, name);
    if status == Success { NamesUnique(v0, g, d, name, j, k); }
    NoEntryIsFalse(v0, g, d, name, k);
  }

  lemma NamesInAbs(v: Volume, g: Layout, d: nat, name: seq<byte>)
    ensures forall j :: Names(v, g, d, name, j) ==> j in Abs(v, g)
  {
  }

  lemma LiveDirectory(v: Volume, g: Layout, p: Place)
    requires Inv(v, g) && Live(v, g, p) && AttrAt(v, g, p).IsDirectory()
    ensures AttrAt(v, g, p).first in g.dirs
  {
    hide AttrOf, SlotAt, DirOk, NamesDistinct, ChainsOk;
    assert LiveOk(v, g, p, {});
  }

  lemma EmptyDirAbs(v: Volume, g: Layout, d: nat)
    requires Inv(v, g)
    ensures EmptyDir(v, g, d) <==> forall j :: j in Abs(v, g) ==> Abs(v, g)[j].dir != d
  {
    hide AttrOf, SlotAt, InvBut, Live, Abs, AttrAt, Names;
    if EmptyDir(v, g, d) {
      forall j | j in Abs(v, g) ensures Abs(v, g)[j].dir != d {
        NodeLive(v, g, j);
      }
    } else {
      var q :| Live(v, g, q) && q.dir == d;
      LiveNames(v, g, q);
      NamesAttr(v, g, d, AttrAt(v, g, q).name, AttrAt(v, g, q).first);
    }
  }

  lemma NodeLive(v: Volume, g: Layout, j: nat)
    requires Inv(v, g) && j in Abs(v, g)
    ensures j in g.owner && Live(v, g, g.owner[j]) && Abs(v, g)[j].dir == g.owner[j].dir
  {
    hide AttrOf, SlotAt, DirOk, NamesDistinct, ChainsOk, LiveOk, Live, AttrAt;
  }

  lemma RemovableByName(v: Volume, g: Layout, d: nat, name: seq<byte>, p: Place)
    requires Inv(v, g) && Live(v, g, p) && p.dir == d && AttrAt(v, g, p).name == name
             && EmptyDir(v, g, AttrAt(v, g, p).first)
    ensures NamesRemovable(v, g, d, name)
  {
    hide AttrOf, SlotAt, InvBut, Live, AttrAt, EmptyDir;
    forall q | Live(v, g, q) && q.dir == d && AttrAt(v, g, q).name == name
      ensures EmptyDir(v, g, AttrAt(v, g, q).first) {
      SameName(v, g, {}, p, q);
    }
  }
}
