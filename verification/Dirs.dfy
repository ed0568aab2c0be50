// libfatx/fatx_dir.c and the attribute access of libfatx/fatx_attr.c.  A directory is
// given by its first cluster, an entry by its name.

module Dirs {
  import opened Bytes
  import opened Codec
  import opened Geometry
  import opened Volumes
  import opened Streams
  import opened Layouts
  import opened FatxFs

  // struct fatx_dir: a cursor on slot entry of cluster cluster
  class Dir {
    var cluster: nat
    var entry: nat

    constructor (cluster: nat, entry: nat)
      ensures this.cluster == cluster && this.entry == entry
    {
      this.cluster, this.entry := cluster, entry;
    }

    predicate On(cluster: nat, entry: nat)
      reads this
    {
      this.cluster == cluster && this.entry == entry
    }
  }

  // fatx_read_dir; the entry's name is the attributes' name
  method ReadDir(fs: Fs, dir: Dir) returns (status: Status, attr: Attr)
    requires fs.Valid() && fs.vol.InRange(dir.cluster) && dir.entry < SlotsPerCluster(fs.geo.bytesPerCluster)
    requires var b := SlotBytes(fs.vol, dir.cluster, dir.entry); IsEnd(b) || GoodSlot(fs.variant, b)
    modifies fs`cursor
    ensures fs.Valid()
    ensures var b := SlotBytes(fs.vol, dir.cluster, dir.entry);
      && status == (if IsEnd(b) then EndOfDir else if IsDeleted(b) then FileDeleted else Success)
      && (status == Success ==> attr == AttrOf(fs.variant, b))
  {
    hide Rep, Framed, Times, Decode;
    fs.Bounds();
    status := fs.SeekCluster(dir.cluster, DIRENT_SIZE * dir.entry);
    var b := fs.DevReadCluster(DIRENT_SIZE, dir.cluster, DIRENT_SIZE * dir.entry);
    attr := AttrOf(fs.variant, Padding(DIRENT_SIZE));
    if b[0] == END_OF_DIR || b[0] == END_OF_DIR2 {
      return EndOfDir, attr;
    }
    if b[0] == DELETED {
      return FileDeleted, attr;
    }
    return Success, Decode(fs.variant, b);
  }

  // fatx_next_dir_entry from slot (k, entry) of chain ch
  method NextDirEntry(fs: Fs, dir: Dir, ghost ch: seq<nat>, ghost k: nat) returns (status: Status, ghost k': nat)
    requires fs.Valid() && |fs.vol.fat| == |fs.vol.clusters| + 1 && IsChain(fs.vol, ch)
    requires k < |ch| && dir.cluster == ch[k] && dir.entry < SlotsPerCluster(fs.geo.bytesPerCluster)
    modifies fs`cursor, fs`disk, fs`cache, dir
    ensures fs.Valid() && |fs.disk| == |old(fs.disk)|
    ensures status == (if old(dir.entry) + 1 == SlotsPerCluster(fs.geo.bytesPerCluster) && k + 1 == |ch| then Error
            else Success)
    ensures status == Success ==>
              if old(dir.entry) + 1 < SlotsPerCluster(fs.geo.bytesPerCluster)
                 then k' == k && dir.On(ch[k], old(dir.entry) + 1)
              else k' == k + 1 && dir.On(ch[k + 1], 0)
    ensures status == Error ==> k' == k && dir.On(ch[k], old(dir.entry) + 1)
  {
    hide Rep, Framed, Times, IsChain, Classify;
    fs.Bounds();
    dir.entry := dir.entry + 1;
    k' := k;
    if dir.entry < fs.geo.bytesPerCluster / DIRENT_SIZE {
      return Success, k';
    }
    ChainEntry(fs.vol, ch, k);
    var s, entry := fs.ReadFat(dir.cluster);
    var t := Classify(fs.geo.fat32, entry);
    if t.Data? {
      dir.cluster := entry;
      dir.entry := 0;
      return Success, k + 1;
    }
    return Error, k';
  }

  // Where an access to slot e of cluster c lands: with e one past the last slot it is
  // the first slot of the cluster that follows on the device.
  function SlotHome(v: Volume, c: nat, e: nat): (nat, nat) {
    if e < SlotsPerCluster(v.bpc) then (c, e) else (c + 1, 0)
  }

  // The volume after b was put there; past the last cluster nothing of it changes.
  function PutAt(v: Volume, c: nat, e: nat, b: seq<byte>): Volume
    requires |b| == DIRENT_SIZE
  {
    var h := SlotHome(v, c, e);
    if h.0 < |v.clusters| && DIRENT_SIZE * h.1 + DIRENT_SIZE <= |v.clusters[h.0]|
       then v.Write(h.0, DIRENT_SIZE * h.1, b) else v
  }

  lemma HomeAddress(geo: Geometry, v: Volume, c: nat, e: nat)
    requires geo.Sound() && v.bpc == geo.bytesPerCluster && c >= 1 && e <= SlotsPerCluster(v.bpc)
    ensures geo.ClusterStart(c) + DIRENT_SIZE * e == geo.ClusterStart(SlotHome(v, c, e).0)
            + DIRENT_SIZE * SlotHome(v, c, e).1
  {
    TimesStep(c - 1, geo.bytesPerCluster);
  }

  // fatx_write_dir
  method WriteDir(fs: Fs, dir: Dir, attr: Attr) returns (status: Status)
    requires fs.Valid() && fs.vol.InRange(dir.cluster) && dir.entry <= SlotsPerCluster(fs.geo.bytesPerCluster)
    requires |attr.name| <= MAX_NAME
    modifies fs`cursor, fs`disk, fs`vol, fs`strayed
    ensures fs.Valid() && |fs.disk| == |old(fs.disk)|
    ensures status == Success || status == Error
    ensures SlotHome(old(fs.vol), dir.cluster, dir.entry).0 < |old(fs.vol).clusters| ==> status == Success
    ensures fs.strayed == (old(fs.strayed)
              || (status == Success && SlotHome(old(fs.vol), dir.cluster, dir.entry).0 >= |old(fs.vol).clusters|))
    ensures fs.vol == PutAt(old(fs.vol), dir.cluster, dir.entry, Encode(fs.variant, attr))
  {
    status := PutRaw(fs, dir, Encode(fs.variant, attr));
  }

  // seek and write of one raw entry
  method PutRaw(fs: Fs, dir: Dir, b: seq<byte>) returns (status: Status)
    requires fs.Valid() && fs.vol.InRange(dir.cluster) && dir.entry <= SlotsPerCluster(fs.geo.bytesPerCluster)
    requires |b| == DIRENT_SIZE
    modifies fs`cursor, fs`disk, fs`vol, fs`strayed
    ensures fs.Valid() && |fs.disk| == |old(fs.disk)|
    ensures status == Success || status == Error
    ensures SlotHome(old(fs.vol), dir.cluster, dir.entry).0 < |old(fs.vol).clusters| ==> status == Success
    ensures fs.strayed == (old(fs.strayed)
              || (status == Success && SlotHome(old(fs.vol), dir.cluster, dir.entry).0 >= |old(fs.vol).clusters|))
    ensures fs.vol == PutAt(old(fs.vol), dir.cluster, dir.entry, b)
  {
    hide Rep, Framed, Times;
    fs.Bounds();
    ghost var h := SlotHome(fs.vol, dir.cluster, dir.entry);
    HomeAddress(fs.geo, fs.vol, dir.cluster, dir.entry);
    status := fs.SeekCluster(dir.cluster, DIRENT_SIZE * dir.entry);
    var ok := fs.DevWriteItem(b, h.0, DIRENT_SIZE * h.1);
    status := if ok then Success else Error;
  }

  // The volume after the entry there was given a marker.
  function MarkAt(v: Volume, c: nat, e: nat, marker: byte): Volume {
    var h := SlotHome(v, c, e);
    PutAt(v, c, e, SlotBytes(v, h.0, h.1)[0 := marker])
  }

  // fatx_mark_dir_entry
  method MarkDirEntry(fs: Fs, dir: Dir, marker: byte) returns (status: Status)
    requires fs.Valid() && fs.vol.InRange(dir.cluster) && dir.entry <= SlotsPerCluster(fs.geo.bytesPerCluster)
    modifies fs`cursor, fs`disk, fs`vol, fs`strayed
    ensures fs.Valid() && |fs.disk| == |old(fs.disk)|
    ensures status == Success || status == Error
    ensures SlotHome(old(fs.vol), dir.cluster, dir.entry).0 < |old(fs.vol).clusters| ==> status == Success
    ensures fs.strayed == (old(fs.strayed)
              || (status == Success && SlotHome(old(fs.vol), dir.cluster, dir.entry).0 >= |old(fs.vol).clusters|))
    ensures fs.vol == MarkAt(old(fs.vol), dir.cluster, dir.entry, marker)
  {
    hide Rep, Framed, Times;
    fs.Bounds();
    ghost var h := SlotHome(fs.vol, dir.cluster, dir.entry);
    HomeAddress(fs.geo, fs.vol, dir.cluster, dir.entry);
    status := fs.SeekCluster(dir.cluster, DIRENT_SIZE * dir.entry);
    var ok, raw := fs.DevReadItem(DIRENT_SIZE, h.0, DIRENT_SIZE * h.1);
    if !ok {
      return Error;
    }
    status := fs.SeekCluster(dir.cluster, DIRENT_SIZE * dir.entry);
    ok := fs.DevWriteItem(raw[0 := marker], h.0, DIRENT_SIZE * h.1);
    status := if ok then Success else Error;
  }

  // ---- looking an entry up ----

  ghost predicate NoEntryBefore(v: Volume, g: Layout, d: nat, name: seq<byte>, t: Term) {
    forall q :: Live(v, g, q) && q.dir == d && Before(q.k, q.e, t) ==> AttrAt(v, g, q).name != name
  }

  // Slot (k, e) of directory d, not past its terminator.
  ghost predicate Scanning(v: Volume, g: Layout, d: nat, k: nat, e: nat) {
    && d in g.dirs && d in g.chains && k < |g.chains[d]| && e < SlotsPerCluster(v.bpc)
    && (Before(k, e, g.dirs[d]) || Term(k, e) == g.dirs[d])
  }

  lemma ScannedSlot(v: Volume, g: Layout, d: nat, k: nat, e: nat)
    requires Readable(v, g) && Scanning(v, g, d, k, e)
    ensures |v.fat| == |v.clusters| + 1 && IsChain(v, g.chains[d]) && v.InRange(g.chains[d][k])
    ensures SlotAt(v, g, Place(d, k, e)) == SlotBytes(v, g.chains[d][k], e)
    ensures IsEnd(SlotBytes(v, g.chains[d][k], e)) <==> Term(k, e) == g.dirs[d]
    ensures IsEnd(SlotBytes(v, g.chains[d][k], e)) || GoodSlot(v.variant, SlotBytes(v, g.chains[d][k], e))
    ensures Live(v, g, Place(d, k, e)) <==>
            !IsEnd(SlotBytes(v, g.chains[d][k], e)) && !IsDeleted(SlotBytes(v, g.chains[d][k], e))
  {
    hide AttrOf, SlotBytes, LiveOk, NamesDistinct;
    assert DirOk(v, g, d);
    assert SlotAt(v, g, Place(d, k, e)) == SlotBytes(v, g.chains[d][k], e);
  }

  lemma ScanFromStart(v: Volume, g: Layout, d: nat, name: seq<byte>)
    requires Readable(v, g) && d in g.dirs
    ensures Scanning(v, g, d, 0, 0) && g.chains[d][0] == d
    ensures NoEntryBefore(v, g, d, name, Term(0, 0))
  {
    hide AttrOf, SlotAt, LiveOk, NamesDistinct;
    assert DirOk(v, g, d);
    assert IsChain(v, g.chains[d]);
  }

  // The slot after (k, e).
  lemma ScanOn(v: Volume, g: Layout, d: nat, name: seq<byte>, k: nat, e: nat)
    requires Readable(v, g) && Scanning(v, g, d, k, e) && Before(k, e, g.dirs[d])
    requires NoEntryBefore(v, g, d, name, Term(k, e))
    requires Live(v, g, Place(d, k, e)) ==> AttrAt(v, g, Place(d, k, e)).name != name
    ensures e + 1 == SlotsPerCluster(v.bpc) ==> k + 1 < |g.chains[d]|
    ensures var t := if e + 1 < SlotsPerCluster(v.bpc) then Term(k, e + 1) else Term(k + 1, 0);
      Scanning(v, g, d, t.k, t.e) && NoEntryBefore(v, g, d, name, t)
  {
    hide AttrOf, SlotAt, LiveOk, NamesDistinct, AttrAt;
    assert DirOk(v, g, d);
    var t := if e + 1 < SlotsPerCluster(v.bpc) then Term(k, e + 1) else Term(k + 1, 0);
    forall q | Live(v, g, q) && q.dir == d && Before(q.k, q.e, t)
      ensures AttrAt(v, g, q).name != name
    {
      if !Before(q.k, q.e, Term(k, e)) {
        assert q == Place(d, k, e);
      }
    }
  }

  lemma ScanEnd(v: Volume, g: Layout, d: nat, name: seq<byte>, k: nat, e: nat)
    requires d in g.dirs && Term(k, e) == g.dirs[d] && NoEntryBefore(v, g, d, name, Term(k, e))
    ensures NoEntry(v, g, d, name)
  {
    hide AttrOf, SlotAt, AttrAt;
  }

  // fatx_open_dir's handle and fatx_get_attr_dir
  method Find(fs: Fs, d: nat, name: seq<byte>) returns (status: Status, dir: Dir, attr: Attr, ghost p: Place)
    requires fs.Valid() && Readable(fs.vol, fs.layout) && d in fs.layout.dirs
    modifies fs`cursor, fs`disk, fs`cache
    ensures fs.Valid() && |fs.disk| == |old(fs.disk)| && fresh(dir)
    ensures status == Success || status == FileNotFound
    ensures status == Success ==>
              && Live(fs.vol, fs.layout, p) && p.dir == d && dir.On(ClusterAt(fs.layout, p), p.e)
              && attr == AttrAt(fs.vol, fs.layout, p) && attr.name == name
    ensures status == FileNotFound ==> NoEntry(fs.vol, fs.layout, d, name)
  {
    hide Rep, Framed, Times, IsChain, AttrOf, SlotBytes, Readable, GoodSlot, NoEntry, NoEntryBefore;
    dir := new Dir(d, 0);
    ghost var k: nat := 0;
    fs.Bounds();
    ScanFromStart(fs.vol, fs.layout, d, name);
    while true
      invariant fs.Valid() && |fs.disk| == |old(fs.disk)| && fresh(dir)
      invariant Scanning(fs.vol, fs.layout, d, k, dir.entry) && dir.cluster == fs.layout.chains[d][k]
      invariant NoEntryBefore(fs.vol, fs.layout, d, name, Term(k, dir.entry))
      decreases |fs.layout.chains[d]| - k, SlotsPerCluster(fs.geo.bytesPerCluster) - dir.entry
    {
      fs.Bounds();
      p := Place(d, k, dir.entry);
      ScannedSlot(fs.vol, fs.layout, d, k, dir.entry);
      status, attr := ReadDir(fs, dir);
      if status == Success {
        if attr.name == name {
          return;
        }
      } else if status == FileDeleted {
      } else if status == EndOfDir {
        ScanEnd(fs.vol, fs.layout, d, name, k, dir.entry);
        status := FileNotFound;
        return;
      } else {
        status := Error;
        return;
      }
      ScanOn(fs.vol, fs.layout, d, name, k, dir.entry);
      status, k := NextDirEntry(fs, dir, fs.layout.chains[d], k);
      if status != Success {
        return;
      }
    }
  }

  lemma ReadableSlot(v: Volume, g: Layout, p: Place)
    requires Readable(v, g) && InDir(v, g, p)
    ensures v.InRange(ClusterAt(g, p)) && |v.clusters[ClusterAt(g, p)]| == v.bpc
    ensures DIRENT_SIZE * p.e + DIRENT_SIZE <= v.bpc
  {
    assert IsChain(v, g.chains[p.dir]);
  }

  lemma LiveHasEntry(v: Volume, g: Layout, p: Place)
    requires Live(v, g, p)
    ensures !NoEntry(v, g, p.dir, AttrAt(v, g, p).name)
  {
  }

  // fatx_set_attr
  method SetAttr(fs: Fs, d: nat, name: seq<byte>, attr: Attr) returns (status: Status, ghost p: Place)
    requires fs.Valid() && Readable(fs.vol, fs.layout) && d in fs.layout.dirs && |attr.name| <= MAX_NAME
    modifies fs`cursor, fs`disk, fs`cache, fs`vol, fs`strayed
    ensures fs.Valid() && |fs.disk| == |old(fs.disk)| && fs.strayed == old(fs.strayed)
    ensures status == Success || status == FileNotFound
    ensures status == FileNotFound ==> fs.vol == old(fs.vol) && NoEntry(fs.vol, fs.layout, d, name)
    ensures status == Success ==>
              var v := old(fs.vol);
              && Live(v, fs.layout, p) && p.dir == d && AttrAt(v, fs.layout, p).name == name
              && v.InRange(ClusterAt(fs.layout, p))
              && DIRENT_SIZE * p.e + DIRENT_SIZE <= |v.clusters[ClusterAt(fs.layout, p)]|
              && fs.vol == v.Write(ClusterAt(fs.layout, p), DIRENT_SIZE * p.e, Encode(v.variant, attr))
  {
    hide Rep, Framed, Times, AttrOf, SlotBytes, NoEntry, Encode, DirOk, IsChain, Readable;
    fs.Bounds();
    var dir, old';
    status, dir, old', p := Find(fs, d, name);
    if status != Success {
      return;
    }
    LiveInDir(fs.vol, fs.layout, p);
    ReadableSlot(fs.vol, fs.layout, p);
    status := WriteDir(fs, dir, attr);
  }

  // ---- finding room for a new entry ----

  // The scan of chain ch stops at t: at the first slot that is deleted or an end
  // marker, or past the last slot (t.k == |ch|).
  ghost predicate StopAt(v: Volume, ch: seq<nat>, t: Term) {
    && t.k <= |ch| && t.e < SlotsPerCluster(v.bpc) && (t.k == |ch| ==> t.e == 0)
    && (forall k, e :: 0 <= k < |ch| && 0 <= e < SlotsPerCluster(v.bpc) && Before(k, e, t) ==>
          var b := SlotBytes(v, ch[k], e); GoodSlot(v.variant, b) && !IsDeleted(b))
    && (t.k < |ch| ==> var b := SlotBytes(v, ch[t.k], t.e); IsEnd(b) || IsDeleted(b))
  }

  lemma StopBounds(v: Volume, ch: seq<nat>, t: Term)
    requires StopAt(v, ch, t)
    ensures t.k <= |ch| && (t.k == |ch| ==> t.e == 0) && t.e < SlotsPerCluster(v.bpc)
  {
  }

  lemma StopSlot(v: Volume, ch: seq<nat>, t: Term, k: nat, e: nat)
    requires StopAt(v, ch, t) && k < |ch| && e < SlotsPerCluster(v.bpc)
    requires Before(k, e, t) || Term(k, e) == t
    ensures var b := SlotBytes(v, ch[k], e);
      && (IsEnd(b) || GoodSlot(v.variant, b))
      && (Term(k, e) == t <==> IsEnd(b) || IsDeleted(b))
      && (IsEnd(b) ==> !IsDeleted(b))
    ensures Before(k, e, t) ==>
              if e + 1 < SlotsPerCluster(v.bpc) then Before(k, e + 1, t) || Term(k, e + 1) == t
              else Before(k + 1, 0, t) || Term(k + 1, 0) == t
  {
    hide AttrOf, SlotBytes;
  }

  // fatx_alloc_dir_entry on the directory with chain ch
  method AllocDirEntry(fs: Fs, dir: Dir, ghost ch: seq<nat>, ghost t: Term) returns (status: Status, ghost c: nat)
    requires fs.Valid() && fs.HintOk() && |fs.vol.fat| == |fs.vol.clusters| + 1
    requires IsChain(fs.vol, ch) && dir.On(ch[0], 0) && StopAt(fs.vol, ch, t)
    modifies fs`cursor, fs`disk, fs`cache, fs`raw, fs`vol, fs`hint, fs`strayed, dir
    ensures fs.Valid() && fs.HintOk()
    ensures status == Success || status == Error
    // only the marker of an end in the last slot of the last cluster strays
    ensures fs.strayed == (old(fs.strayed)
              || (status == Success && t.k < |ch| && IsEnd(SlotBytes(old(fs.vol), ch[t.k], t.e))
                  && SlotHome(old(fs.vol), ch[t.k], t.e + 1).0 >= |old(fs.vol).clusters|))
    // a deleted slot is reused
    ensures t.k < |ch| && IsDeleted(SlotBytes(old(fs.vol), ch[t.k], t.e)) ==>
              status == Success && dir.On(ch[t.k], t.e) && fs.vol == old(fs.vol)
    // the end marker moves one slot on, wherever that is on the device
    ensures t.k < |ch| && IsEnd(SlotBytes(old(fs.vol), ch[t.k], t.e)) ==>
              && fs.vol == MarkAt(old(fs.vol), ch[t.k], t.e + 1, END_OF_DIR)
              && (status == Success ==> dir.On(ch[t.k], t.e))
              && (SlotHome(old(fs.vol), ch[t.k], t.e + 1).0 < |old(fs.vol).clusters| ==> status == Success)
    // a chain without end marker grows by a cluster, but the slot past its old end is returned
    ensures t.k == |ch| && status == Error ==> fs.vol == old(fs.vol) && NoneFree(fs.vol.fat, 2, fs.geo.numClusters)
    ensures t.k == |ch| && status == Success ==>
              var v, tail := old(fs.vol), ch[|ch| - 1];
              && v.InRange(c) && |v.clusters[c]| == v.bpc && v.fat[c] == Available && tail < |v.fat|
              && NextFree(v.fat, fs.geo.numClusters, old(fs.hint), c)
              && fs.vol == MarkAt(Attached(Allocated(v, c, true), tail, c), c, 0, END_OF_DIR)
              && dir.On(tail, SlotsPerCluster(v.bpc))
  {
    hide Rep, Framed, Times, IsChain, AttrOf, SlotBytes, GoodSlot, NoneFree, StopAt, IsEnd, IsDeleted, MarkAt,
         NextFree;
    fs.Bounds();
    StopBounds(fs.vol, ch, t);
    c := 0;
    ghost var k: nat := 0;
    ChainInRange(fs.vol, ch);
    while true
      invariant fs.Valid() && fs.HintOk() && fs.vol == old(fs.vol) && fs.strayed == old(fs.strayed)
      invariant fs.hint == old(fs.hint)
      invariant k < |ch| && dir.cluster == ch[k] && dir.entry < SlotsPerCluster(fs.geo.bytesPerCluster)
      invariant Before(k, dir.entry, t) || Term(k, dir.entry) == t
      decreases |ch| - k, SlotsPerCluster(fs.geo.bytesPerCluster) - dir.entry
    {
      fs.Bounds();
      var attr;
      ChainEntry(fs.vol, ch, k);
      StopSlot(fs.vol, ch, t, k, dir.entry);
      status, attr := ReadDir(fs, dir);
      if status == Success {
        status, k := NextDirEntry(fs, dir, ch, k);
        if status != Success {
          break;
        }
      } else if status == FileDeleted {
        status := Success;
        return;
      } else if status == EndOfDir {
        break;
      } else {
        status := Error;
        return;
      }
    }
    fs.Bounds();
    ChainEntry(fs.vol, ch, k);
    if dir.entry < fs.geo.bytesPerCluster / DIRENT_SIZE {
      dir.entry := dir.entry + 1;
      status := MarkDirEntry(fs, dir, END_OF_DIR);
      if status != Success {
        return;
      }
      dir.entry := dir.entry - 1;
      return;
    }
    status, c := GrowDirectory(fs, dir, ch);
  }

  lemma GrowReady(v: Volume, ch: seq<nat>, c: nat)
    requires v.Wf() && IsChain(v, ch) && v.InRange(c) && c >= 2 && v.fat[c] == Available
    ensures var tail := ch[|ch| - 1];
      && v.InRange(tail) && |v.clusters[c]| == v.bpc && tail < |v.fat|
      && var w := Allocated(v, c, true);
         && w.fat[tail] == End && w.(fat := w.fat[tail := Data(c)][c := End]) == Attached(w, tail, c)
         && |w.clusters| == |v.clusters| && |Attached(w, tail, c).clusters| == |v.clusters| && |w.fat| == |v.fat|
         && Attached(w, tail, c).bpc == v.bpc
  {
    AttachGrows(v, ch, c, true);
    ChainInRange(v, ch);
  }

  // the last part of fatx_alloc_dir_entry: a new cluster for a directory that is full
  method GrowDirectory(fs: Fs, dir: Dir, ghost ch: seq<nat>) returns (status: Status, c: nat)
    requires fs.Valid() && fs.HintOk() && |fs.vol.fat| == |fs.vol.clusters| + 1
    requires IsChain(fs.vol, ch) && dir.cluster == ch[|ch| - 1]
    modifies fs`cursor, fs`disk, fs`cache, fs`raw, fs`vol, fs`hint, fs`strayed, dir
    ensures fs.Valid() && fs.HintOk() && fs.strayed == old(fs.strayed) && dir.On(old(dir.cluster), old(dir.entry))
    ensures status == Success || status == Error
    ensures status == Error ==> fs.vol == old(fs.vol) && NoneFree(fs.vol.fat, 2, fs.geo.numClusters)
    ensures status == Success ==>
              var v, tail := old(fs.vol), dir.cluster;
              && v.InRange(c) && |v.clusters[c]| == v.bpc && v.fat[c] == Available && tail < |v.fat|
              && NextFree(v.fat, fs.geo.numClusters, old(fs.hint), c)
              && fs.vol == MarkAt(Attached(Allocated(v, c, true), tail, c), c, 0, END_OF_DIR)
  {
    hide Rep, Framed, Times, IsChain, SlotBytes, NoneFree, NextFree, Allocated, Attached, MarkAt;
    fs.Bounds();
    ghost var v, probes;
    v := fs.vol;
    status, c, probes := fs.AllocCluster(true);
    if status != Success {
      return;
    }
    NextIsFree(v.fat, fs.geo.numClusters, old(fs.hint), c);
    GrowReady(v, ch, c);
    status := fs.AttachCluster(dir.cluster, c);
    fs.Bounds();
    var cluster, entry := dir.cluster, dir.entry;
    dir.cluster, dir.entry := c, 0;
    status := MarkDirEntry(fs, dir, END_OF_DIR);
    dir.cluster, dir.entry := cluster, entry;
  }
}
