// fatx_attr_atomic_swap and fatx_rename of libfatx.

module Renames {
  import opened Bytes
  import opened Endian
  import opened Codec
  import opened Geometry
  import opened Volumes
  import opened Streams
  import opened Layouts
  import opened Entries
  import opened FatxFs
  import opened Dirs
  import opened FileOps
  import opened Rooms
  import opened DirOps

  function MovedTo(n: Node, d: nat, name: seq<byte>): Node {
    n.(dir := d, attr := n.attr.(name := name))
  }

  // The two inodes' directories and names exchanged.
  function ExchangedNodes(abs: map<nat, Node>, k1: nat, k2: nat): map<nat, Node>
    requires k1 in abs && k2 in abs
  {
    abs[k1 := MovedTo(abs[k1], abs[k2].dir, abs[k2].attr.name)][k2 := MovedTo(abs[k2], abs[k1].dir, abs[k1].attr.name)]
  }

  lemma ExchangeIsInvolution(abs: map<nat, Node>, k1: nat, k2: nat)
    requires k1 in abs && k2 in abs
    ensures ExchangedNodes(ExchangedNodes(abs, k1, k2), k1, k2) == abs
  {
    var once := ExchangedNodes(abs, k1, k2);
    var twice := ExchangedNodes(once, k1, k2);
    assert twice.Keys == abs.Keys;
    forall k | k in abs ensures twice[k] == abs[k] {
    }
  }

  // Writing an entry's own attributes back.
  lemma RestoreEntry(v: Volume, g: Layout, q: Place)
    requires Inv(v, g) && Live(v, g, q)
    ensures |AttrAt(v, g, q).name| <= MAX_NAME
    ensures var v' := SlotPlaceWrite(v, g, q, Encode(v.variant, AttrAt(v, g, q)));
      Inv(v', g) && Abs(v', g) == Abs(v, g) && v'.Wf()
  {
    hide Encode, AttrOf, SlotAt, InvBut, Live, NodeOf, Stored, Times, SlotPlaceWrite;
    var a := AttrAt(v, g, q);
    LiveName(v, g, {}, q);
    LiveOwner(v, g, {}, q);
    LiveInDir(v, g, q);
    InvChains(v, g);
    PutPlace(v, g, q, Encode(v.variant, a));
    RenamedStored(v.variant, SlotAt(v, g, q), a.name);
    assert a.(name := a.name) == a;
    InvIsInvBut(v, g, {a.first});
    SameAttrStorable(v, g, q);
    AttrFirst32(v.variant, SlotAt(v, g, q));
    StoreEntryAttr(v, g, q, a, a.first);
    LiveNames(v, g, q);
    var v' := SlotPlaceWrite(v, g, q, Encode(v.variant, a));
    assert Abs(v', g) == Abs(v, g)[a.first := Abs(v, g)[a.first]];
  }

  lemma AttrFirst32(variant: Variant, b: seq<byte>)
    requires |b| == DIRENT_SIZE
    ensures AttrOf(variant, b).first < 0x1_0000_0000 && AttrOf(variant, b).size < 0x1_0000_0000
  {
    hide Decode;
  }

  lemma SameAttrStorable(v: Volume, g: Layout, q: Place)
    requires Inv(v, g) && Live(v, g, q)
    ensures Storable(v, g, q, AttrAt(v, g, q))
  {
    hide AttrOf, SlotAt, AttrAt, DirOk, ChainsOk, Times;
    LiveName(v, g, {}, q);
    assert LiveOk(v, g, q, {});
    AttrFirst32(v.variant, SlotAt(v, g, q));
    assert AttrAt(v, g, q) == AttrOf(v.variant, SlotAt(v, g, q)) by { AttrAtIsAttrOf(v, g, q); }
  }

  lemma AttrAtIsAttrOf(v: Volume, g: Layout, q: Place)
    ensures AttrAt(v, g, q) == AttrOf(v.variant, SlotAt(v, g, q))
  {
  }

  lemma PutAtIsPlace(v: Volume, g: Layout, p: Place, b: seq<byte>)
    requires |b| == DIRENT_SIZE && p.e < SlotsPerCluster(v.bpc)
    ensures PutAt(v, ClusterAt(g, p), p.e, b) == SlotPlaceWrite(v, g, p, b)
  {
  }

  // The two new entries of a swap.
  lemma SwapIsSwappable(v: Volume, g: Layout, p: Place, q: Place)
    requires Inv(v, g) && Live(v, g, p) && Live(v, g, q) && p != q
    ensures |AttrAt(v, g, p).name| <= MAX_NAME && |AttrAt(v, g, q).name| <= MAX_NAME
    ensures Swappable(v, g, p, q, Encode(v.variant, AttrAt(v, g, q).(name := AttrAt(v, g, p).name)),
                      Encode(v.variant, AttrAt(v, g, p).(name := AttrAt(v, g, q).name)))
  {
    hide Encode, AttrOf, SlotAt, AttrAt, InvBut, Live, Stored, GoodSlot;
    LiveName(v, g, {}, p);
    LiveName(v, g, {}, q);
    AttrAtIsAttrOf(v, g, p);
    AttrAtIsAttrOf(v, g, q);
    EncodedSlot(v.variant, AttrAt(v, g, q).(name := AttrAt(v, g, p).name));
    EncodedSlot(v.variant, AttrAt(v, g, p).(name := AttrAt(v, g, q).name));
    RenamedStored(v.variant, SlotAt(v, g, q), AttrAt(v, g, p).name);
    RenamedStored(v.variant, SlotAt(v, g, p), AttrAt(v, g, q).name);
  }

  // fatx_attr_atomic_swap; w1, w2 and w3 say whether the device accepts the first, the
  // second and the restoring write.
  method AtomicSwap(fs: Fs, d1: nat, base1: seq<byte>, d2: nat, base2: seq<byte>, w1: bool, w2: bool, w3: bool)
    returns (status: Status, ghost k1: nat, ghost k2: nat)
    requires fs.Mounted() && d1 in fs.layout.dirs && d2 in fs.layout.dirs
    modifies fs
    ensures fs.Valid() && (!w1 || w2 || w3 ==> fs.Mounted())
    ensures status == Success || status == Error || status == FileNotFound
    ensures status == FileNotFound <==> old(NoEntry(fs.vol, fs.layout, d1, base1)
            || NoEntry(fs.vol, fs.layout, d2, base2))
    ensures status == FileNotFound ==> fs.vol == old(fs.vol) && fs.layout == old(fs.layout) && fs.Mounted()
    ensures status != FileNotFound ==>
              && Names(old(fs.vol), old(fs.layout), d1, base1, k1) && Names(old(fs.vol), old(fs.layout), d2, base2, k2)
              && (status == Success <==> w1 && w2)
    ensures status == Success ==>
              && Abs(fs.vol, fs.layout) == ExchangedNodes(old(Abs(fs.vol, fs.layout)), k1, k2)
              && fs.layout.dirs == old(fs.layout).dirs && fs.layout.chains == old(fs.layout).chains
              && fs.vol.fat == old(fs.vol).fat
    // a failed swap leaves the directories as they were, unless the restoring write fails too
    ensures status == Error && (!w1 || w3) ==>
              fs.layout == old(fs.layout) && Abs(fs.vol, fs.layout) == old(Abs(fs.vol, fs.layout))
  {
    hide Rep, Framed, AttrOf, SlotAt, InvBut, Live, Abs, Names, NoEntry, AttrAt, ExchangedNodes;
    fs.Bounds();
    ghost var v0, g := fs.vol, fs.layout;
    InvIsInvBut(v0, g, {});
    k1, k2 := 0, 0;
    var dir1, attr1, dir2, attr2;
    ghost var p, q;
    status, dir1, attr1, p := Find(fs, d1, base1);
    if status != Success {
      return;
    }
    LiveHasEntry(v0, g, p);
    status, dir2, attr2, q := Find(fs, d2, base2);
    if status != Success {
      return;
    }
    LiveHasEntry(v0, g, q);
    k1, k2 := attr1.first, attr2.first;
    LiveNames(v0, g, p);
    LiveNames(v0, g, q);
    NamesAttr(v0, g, d1, base1, k1);
    NamesAttr(v0, g, d2, base2, k2);
    status := SwapWrites(fs, dir1, attr1, dir2, attr2, w1, w2, w3, p, q);
  }

  // the writes of fatx_attr_atomic_swap
  method SwapWrites(fs: Fs, dir1: Dir, a1: Attr, dir2: Dir, a2: Attr, w1: bool, w2: bool, w3: bool, ghost p: Place,
      ghost q: Place)
    returns (status: Status)
    requires fs.Mounted() && Live(fs.vol, fs.layout, p) && Live(fs.vol, fs.layout, q)
    requires dir1.On(ClusterAt(fs.layout, p), p.e) && dir2.On(ClusterAt(fs.layout, q), q.e)
    requires a1 == AttrAt(fs.vol, fs.layout, p) && a2 == AttrAt(fs.vol, fs.layout, q)
    requires a1.first in Abs(fs.vol, fs.layout) && a2.first in Abs(fs.vol, fs.layout)
    modifies fs
    ensures fs.Valid() && (!w1 || w2 || w3 ==> fs.Mounted())
    ensures status == if w1 && w2 then Success else Error
    ensures status == Success ==>
              && Abs(fs.vol, fs.layout) == ExchangedNodes(old(Abs(fs.vol, fs.layout)), a1.first, a2.first)
              && fs.layout.dirs == old(fs.layout).dirs && fs.layout.chains == old(fs.layout).chains
              && fs.vol.fat == old(fs.vol).fat
    ensures status == Error && (!w1 || w3) ==>
              fs.layout == old(fs.layout) && Abs(fs.vol, fs.layout) == old(Abs(fs.vol, fs.layout))
  {
    hide Rep, Framed, AttrOf, SlotAt, InvBut, Live, Abs, Encode, SlotPlaceWrite, PutAt, SwappedLayout, AttrAt,
         ExchangedNodes, ChainsOk;
    fs.Bounds();
    ghost var v0, g := fs.vol, fs.layout;
    InvChains(v0, g);
    LiveName(v0, g, {}, p);
    LiveName(v0, g, {}, q);
    LiveInDir(v0, g, p);
    LiveInDir(v0, g, q);
    SlotInCluster(v0, g, p);
    SlotInCluster(v0, g, q);
    if !w1 {
      return Error;
    }
    var attr1, attr2 := a1.(name := a2.name), a2.(name := a1.name);
    status := WriteDir(fs, dir2, attr1);
    PutAtIsPlace(v0, g, q, Encode(v0.variant, attr1));
    ghost var v1 := fs.vol;
    PutPlace(v0, g, q, Encode(v0.variant, attr1));
    fs.Bounds();
    if !w2 {
      if w3 {
        attr2 := attr2.(name := a2.name);
        status := WriteDir(fs, dir2, attr2);
        PutAtIsPlace(v1, g, q, Encode(v0.variant, attr2));
        PutTwice(v0, g, q, Encode(v0.variant, attr1), Encode(v0.variant, attr2));
        RestoreEntry(v0, g, q);
      }
      return Error;
    }
    status := WriteDir(fs, dir1, attr2);
    PutAtIsPlace(v1, g, p, Encode(v0.variant, attr2));
    SwapDone(v0, g, p, q);
    fs.layout := if p == q then g else SwappedLayout(v0, g, p, q);
  }

  // What the two writes of a swap amount to.
  lemma SwapDone(v: Volume, g: Layout, p: Place, q: Place)
    requires Inv(v, g) && Live(v, g, p) && Live(v, g, q)
    requires AttrAt(v, g, p).first in Abs(v, g) && AttrAt(v, g, q).first in Abs(v, g)
    ensures |AttrAt(v, g, p).name| <= MAX_NAME && |AttrAt(v, g, q).name| <= MAX_NAME
    ensures var g' := if p == q then g else SwappedLayout(v, g, p, q);
      var v' := Swapped(v, g, p, q, Encode(v.variant, AttrAt(v, g, q).(name := AttrAt(v, g, p).name)),
                        Encode(v.variant, AttrAt(v, g, p).(name := AttrAt(v, g, q).name)));
      && Inv(v', g') && Abs(v', g') == ExchangedNodes(Abs(v, g), AttrAt(v, g, p).first, AttrAt(v, g, q).first)
      && g'.root == g.root && g'.dirs == g.dirs && g'.chains == g.chains && v'.fat == v.fat
  {
    hide AttrOf, SlotAt, InvBut, Live, Abs, Encode, SlotPlaceWrite, AttrAt, ExchangedNodes, ChainsOk;
    LiveName(v, g, {}, p);
    LiveName(v, g, {}, q);
    SwappedFat(v, g, p, q, Encode(v.variant, AttrAt(v, g, q).(name := AttrAt(v, g, p).name)),
               Encode(v.variant, AttrAt(v, g, p).(name := AttrAt(v, g, q).name)));
    if p == q {
      PutTwice(v, g, q, Encode(v.variant, AttrAt(v, g, q)), Encode(v.variant, AttrAt(v, g, q)));
      RestoreEntry(v, g, q);
      ExchangeSelf(Abs(v, g), AttrAt(v, g, p).first);
    } else {
      SwapIsSwappable(v, g, p, q);
      SwapEntries(v, g, p, q, Encode(v.variant, AttrAt(v, g, q).(name := AttrAt(v, g, p).name)),
                  Encode(v.variant, AttrAt(v, g, p).(name := AttrAt(v, g, q).name)));
      SwapIsExchange(v, g, p, q);
    }
  }

  lemma SwappedFat(v: Volume, g: Layout, p: Place, q: Place, bp: seq<byte>, bq: seq<byte>)
    requires |bp| == DIRENT_SIZE && |bq| == DIRENT_SIZE
    ensures Swapped(v, g, p, q, bp, bq).fat == v.fat
  {
  }

  lemma ExchangeSelf(abs: map<nat, Node>, k: nat)
    requires k in abs
    ensures ExchangedNodes(abs, k, k) == abs
  {
    assert MovedTo(abs[k], abs[k].dir, abs[k].attr.name) == abs[k];
  }

  lemma SwapIsExchange(v: Volume, g: Layout, p: Place, q: Place)
    requires Inv(v, g) && Live(v, g, p) && Live(v, g, q) && p != q
    ensures var kp, kq := AttrAt(v, g, p).first, AttrAt(v, g, q).first;
      && kp in g.owner && kq in g.owner && kp in Abs(v, g) && kq in Abs(v, g)
      && ExchangedNodes(Abs(v, g), kp, kq) == Abs(v, g)
           [kp := NodeOf(v, g, kp).(dir := q.dir, attr := AttrAt(v, g, p).(name := AttrAt(v, g, q).name))]
           [kq := NodeOf(v, g, kq).(dir := p.dir, attr := AttrAt(v, g, q).(name := AttrAt(v, g, p).name))]
  {
    hide AttrOf, SlotAt, InvBut, Live, AttrAt, Stream;
    SwappedKeys(v, g, p, q);
    LiveNames(v, g, p);
    LiveNames(v, g, q);
  }

  // ---- renaming ----

  // What the inode table says about the name being removable.
  ghost predicate NothingIn(abs: map<nat, Node>, k: nat) {
    forall j :: j in abs ==> abs[j].dir != k
  }

  lemma RemovableAbs(v: Volume, g: Layout, d: nat, name: seq<byte>, k: nat)
    requires Inv(v, g) && Names(v, g, d, name, k)
    ensures NamesRemovable(v, g, d, name) <==> NothingIn(Abs(v, g), k)
  {
    hide AttrOf, SlotAt, InvBut, Live, AttrAt, EmptyDir, Abs;
    NamesLive(v, g, d, name, k);
    EmptyDirAbs(v, g, k);
    forall q | Live(v, g, q) && q.dir == d && AttrAt(v, g, q).name == name ensures AttrAt(v, g, q).first == k {
      LiveNames(v, g, q);
      NamesUnique(v, g, d, name, k, AttrAt(v, g, q).first);
    }
  }

  // Storing a new name in the entry of k.
  lemma AdoptName(v: Volume, g: Layout, p: Place, k: nat, name: seq<byte>)
    requires Inv(v, g) && Live(v, g, p) && k == AttrAt(v, g, p).first && GoodName(name)
    requires forall q :: Live(v, g, q) && q.dir == p.dir && q != p ==> AttrAt(v, g, q).name != name
    ensures v.InRange(ClusterAt(g, p)) && |v.clusters[ClusterAt(g, p)]| == v.bpc
            && DIRENT_SIZE * p.e + DIRENT_SIZE <= v.bpc
    ensures k in Abs(v, g)
    ensures var v' := v.Write(ClusterAt(g, p), DIRENT_SIZE * p.e, Encode(v.variant, AttrAt(v, g, p).(name := name)));
      Inv(v', g) && Abs(v', g) == Abs(v, g)[k := MovedTo(Abs(v, g)[k], p.dir, name)]
  {
    hide Encode, AttrOf, SlotAt, InvBut, Live, NodeOf, Stored, Times, AttrAt;
    var a := AttrAt(v, g, p);
    AttrAtIsAttrOf(v, g, p);
    RenamedStored(v.variant, SlotAt(v, g, p), name);
    AttrFirst32(v.variant, SlotAt(v, g, p));
    InvIsInvBut(v, g, {k});
    SameAttrStorable(v, g, p);
    StoreEntryAttr(v, g, p, a.(name := name), k);
    LiveNames(v, g, p);
  }

  // the last step of a rename within one directory
  method SetName(fs: Fs, d: nat, from: seq<byte>, attr: Attr, to: seq<byte>, ghost k: nat) returns (status: Status)
    requires fs.Mounted() && d in fs.layout.dirs && GoodName(to) && NoEntry(fs.vol, fs.layout, d, to)
    requires NoEntry(fs.vol, fs.layout, d, from) || (Names(fs.vol, fs.layout, d, from, k)
             && attr == Abs(fs.vol, fs.layout)[k].attr)
    modifies fs`cursor, fs`disk, fs`cache, fs`vol, fs`strayed
    ensures fs.Mounted() && fs.vol.fat == old(fs.vol).fat
    ensures status == if old(NoEntry(fs.vol, fs.layout, d, from)) then FileNotFound else Success
    ensures status == FileNotFound ==> fs.vol == old(fs.vol)
    ensures status == Success ==>
              Abs(fs.vol, fs.layout) == var abs := old(Abs(fs.vol, fs.layout)); abs[k := MovedTo(abs[k], d, to)]
  {
    hide Rep, Framed, AttrOf, SlotAt, InvBut, Live, Encode, AttrAt, Abs, Names, NoEntry;
    fs.Bounds();
    ghost var v0 := fs.vol;
    InvIsInvBut(v0, fs.layout, {});
    ghost var p;
    status, p := SetAttr(fs, d, from, attr.(name := to));
    if status == Success {
      LiveHasEntry(v0, fs.layout, p);
      LiveNames(v0, fs.layout, p);
      NamesUnique(v0, fs.layout, d, from, k, AttrAt(v0, fs.layout, p).first);
      NamesAttr(v0, fs.layout, d, from, k);
      NoEntryOther(v0, fs.layout, p, to);
      AdoptName(v0, fs.layout, p, k, to);
      fs.Bounds();
    }
  }

  lemma NoEntryOther(v: Volume, g: Layout, p: Place, name: seq<byte>)
    requires NoEntry(v, g, p.dir, name)
    ensures forall q :: Live(v, g, q) && q.dir == p.dir && q != p ==> AttrAt(v, g, q).name != name
  {
    hide Live, AttrAt;
  }

  // The table with kt gone and kf in its place.
  function Replaced(abs: map<nat, Node>, kf: nat, kt: nat, d: nat, name: seq<byte>): map<nat, Node>
    requires kf in abs
  {
    (abs - {kt})[kf := MovedTo(abs[kf], d, name)]
  }

  // The chains and directories of g without those in gone.
  ghost predicate Without(g: Layout, g': Layout, gone: set<nat>) {
    g'.chains == g.chains - gone && g'.dirs.Keys == g.dirs.Keys - gone
  }

  lemma WithoutNone(g: Layout)
    ensures Without(g, g, {})
  {
  }

  ghost predicate Freed(fat: seq<FatEntry>, fat': seq<FatEntry>, ch: seq<nat>) {
    |fat'| == |fat| && forall i :: 0 <= i < |fat| ==> fat'[i] == if i in ch then Available else fat[i]
  }

  // a rename across directories, once the target exists
  method MoveOver(fs: Fs, d1: nat, from: seq<byte>, d2: nat, to: seq<byte>, ghost kf: nat,
      ghost kt: nat) returns (status: Status)
    requires fs.Mounted() && d1 in fs.layout.dirs && d2 in fs.layout.dirs && d1 != d2
    requires Names(fs.vol, fs.layout, d1, from, kf) && Names(fs.vol, fs.layout, d2, to, kt)
    requires NothingIn(Abs(fs.vol, fs.layout), kt)
    modifies fs
    ensures fs.Mounted() && status == Success
    ensures Abs(fs.vol, fs.layout) == Replaced(old(Abs(fs.vol, fs.layout)), kf, kt, d2, to)
    ensures Without(old(fs.layout), fs.layout, {kt})
    ensures kt in old(fs.layout).chains && Freed(old(fs.vol).fat, fs.vol.fat, old(fs.layout).chains[kt])
    ensures |fs.vol.fat| == |fs.vol.clusters| + 1 && forall directory :: HasRoom(fs.vol, fs.layout, d1, directory)
  {
    hide Rep, Framed, AttrOf, SlotAt, InvBut, Live, Encode, AttrAt, Abs, NoEntry, NamesRemovable, HasRoom;
    ghost var v0, g0 := fs.vol, fs.layout;
    NoEntryIsFalse(v0, g0, d1, from, kf);
    NoEntryIsFalse(v0, g0, d2, to, kt);
    ghost var k1, k2;
    status, k1, k2 := AtomicSwap(fs, d1, from, d2, to, true, true, true);
    NamesUnique(v0, g0, d1, from, kf, k1);
    NamesUnique(v0, g0, d2, to, kt, k2);
    RemovableAbs(fs.vol, fs.layout, d1, from, kt);
    NoEntryIsFalse(fs.vol, fs.layout, d1, from, kt);
    ghost var v1, g1, k := fs.vol, fs.layout, kt;
    status, k := Unlink(fs, d1, from);
    NamesUnique(v1, g1, d1, from, kt, k);
    ExchangedThenRemoved(Abs(v0, g0), kf, kt, d2, to);
  }

  lemma ExchangedThenRemoved(abs: map<nat, Node>, kf: nat, kt: nat, d: nat, name: seq<byte>)
    requires kf in abs && kt in abs && kf != kt && abs[kt].dir == d && abs[kt].attr.name == name
    ensures ExchangedNodes(abs, kf, kt) - {kt} == Replaced(abs, kf, kt, d, name)
  {
  }

  // a rename across directories to a name that is not there yet
  method MoveToNew(fs: Fs, d1: nat, from: seq<byte>, d2: nat, to: seq<byte>, now: Ts, ghost kf: nat)
      returns (status: Status)
    requires fs.Mounted() && d1 in fs.layout.dirs && d2 in fs.layout.dirs && d1 != d2
    requires Names(fs.vol, fs.layout, d1, from, kf) && NoEntry(fs.vol, fs.layout, d2, to)
    requires GoodName(to) && |to| < MAX_NAME
    requires |fs.vol.fat| == |fs.vol.clusters| + 1 && HasRoom(fs.vol, fs.layout, d2, false)
    modifies fs
    ensures fs.Mounted()
    ensures status == if NoneFree(old(fs.vol).fat, 2, fs.geo.numClusters) then Error else Success
    ensures status == Error ==> Abs(fs.vol, fs.layout) == old(Abs(fs.vol, fs.layout))
    ensures status == Success ==>
              && fs.vol.fat == old(fs.vol).fat
              && Abs(fs.vol, fs.layout) == var abs := old(Abs(fs.vol, fs.layout)); abs[kf := MovedTo(abs[kf], d2, to)]
    ensures Without(old(fs.layout), fs.layout, {})
    ensures status == Success ==>
              |fs.vol.fat| == |fs.vol.clusters| + 1 && forall directory :: HasRoom(fs.vol, fs.layout, d1, directory)
  {
    hide Rep, Framed, InvBut, Abs, NoEntry, HasRoom, NewNode;
    fs.Bounds();
    ghost var v0, g0 := fs.vol, fs.layout;
    ghost var c, p;
    status, c, p := Mknod(fs, d2, to, now);
    if status != Success {
      return;
    }
    NewNodeShape(fs.variant, d2, NewAttr(to, 0, c, now), fs.geo.bytesPerCluster);
    FreshIsNoDir(v0, g0, c);
    NamesInAbs(v0, g0, d1, from);
    ghost var v1, g1 := fs.vol, fs.layout;
    status := MoveOver(fs, d1, from, d2, to, kf, c);
    FreedAgain(v0.fat, c, fs.vol.fat);
    FreshLayout(v0, g0, g1, fs.layout, p, c);
    assert Replaced(Abs(v1, g1), kf, c, d2, to) == Abs(v0, g0)[kf := MovedTo(Abs(v0, g0)[kf], d2, to)];
  }

  lemma FreshIsNoDir(v: Volume, g: Layout, c: nat)
    requires Inv(v, g) && v.InRange(c) && c < |v.fat| && v.fat[c] == Available
    ensures c !in g.dirs && c !in Abs(v, g) && NothingIn(Abs(v, g), c)
  {
    hide InvBut, Live;
    FreshCluster(v, g, c);
    forall j | j in Abs(v, g) ensures Abs(v, g)[j].dir != c {
      NodeLive(v, g, j);
      LiveInDir(v, g, g.owner[j]);
    }
  }

  lemma FreshLayout(v: Volume, g: Layout, g1: Layout, g2: Layout, p: Place, c: nat)
    requires Inv(v, g) && v.InRange(c) && c < |v.fat| && v.fat[c] == Available
    requires Grew(g, g1, p, c, false) && Without(g1, g2, {c})
    ensures Without(g, g2, {})
  {
    hide InvBut;
    FreshCluster(v, g, c);
  }

  lemma FreedAgain(fat: seq<FatEntry>, c: nat, fat': seq<FatEntry>)
    requires c < |fat| && fat[c] == Available && Freed(fat[c := End], fat', [c])
    ensures fat' == fat
  {
  }

  lemma GoneIsGone(v: Volume, g: Layout, v': Volume, g': Layout, d: nat, name: seq<byte>, k: nat)
    requires Inv(v, g) && Inv(v', g') && Names(v, g, d, name, k) && Abs(v', g') == Abs(v, g) - {k}
    ensures NoEntry(v', g', d, name)
  {
    hide InvBut, Abs, NoEntry;
    NoEntryNames(v', g', d, name);
    forall j | j in Abs(v', g') ensures !Names(v', g', d, name, j) {
      if Names(v', g', d, name, j) { NamesUnique(v, g, d, name, k, j); }
    }
  }

  // a rename within one directory over an existing entry
  method ReplaceHere(fs: Fs, d: nat, from: seq<byte>, attr: Attr, to: seq<byte>, ghost kf: nat,
      ghost kt: nat) returns (status: Status)
    requires fs.Mounted() && d in fs.layout.dirs && GoodName(to)
    requires Names(fs.vol, fs.layout, d, from, kf) && attr == Abs(fs.vol, fs.layout)[kf].attr
    requires Names(fs.vol, fs.layout, d, to, kt)
    requires NothingIn(Abs(fs.vol, fs.layout), kt)
    modifies fs
    ensures fs.Mounted() && status == if kf == kt then FileNotFound else Success
    ensures kt in old(fs.layout).chains && Freed(old(fs.vol).fat, fs.vol.fat, old(fs.layout).chains[kt])
    ensures Abs(fs.vol, fs.layout) == var abs := old(Abs(fs.vol, fs.layout));
      if kf == kt then abs - {kt} else Replaced(abs, kf, kt, d, to)
    ensures Without(old(fs.layout), fs.layout, {kt})
  {
    hide Rep, Framed, InvBut, Abs, NoEntry, NamesRemovable, Encode, AttrAt;
    ghost var v0, g0, k := fs.vol, fs.layout, kt;
    RemovableAbs(v0, g0, d, to, kt);
    NoEntryIsFalse(v0, g0, d, to, kt);
    status, k := Unlink(fs, d, to);
    NamesUnique(v0, g0, d, to, kt, k);
    GoneIsGone(v0, g0, fs.vol, fs.layout, d, to, kt);
    NamesAttr(v0, g0, d, from, kf);
    NamesAttr(v0, g0, d, to, kt);
    if from == to {
      NamesUnique(v0, g0, d, from, kf, kt);
    } else {
      StillNamed(v0, g0, fs.vol, fs.layout, d, from, kf, kt);
      NoEntryIsFalse(fs.vol, fs.layout, d, from, kf);
    }
    status := SetName(fs, d, from, attr, to, kf);
  }

  lemma StillNamed(v: Volume, g: Layout, v': Volume, g': Layout, d: nat, name: seq<byte>, k: nat, j: nat)
    requires Names(v, g, d, name, k) && Abs(v', g') == Abs(v, g) - {j} && j != k
    ensures Names(v', g', d, name, k) && Abs(v', g')[k] == Abs(v, g)[k]
  {
    hide Abs;
  }

  // What a rename that takes effect leaves in the inode table: kf is the inode called
  // from, kt the one called to, if any.
  ghost predicate Renamed(abs: map<nat, Node>, abs': map<nat, Node>, kf: nat, kt: nat, d2: nat, to: seq<byte>,
      taken: bool, exchange: bool)
    requires kf in abs && (taken ==> kt in abs)
  {
    if !taken then abs' == abs[kf := MovedTo(abs[kf], d2, to)]
    else if exchange then abs' == ExchangedNodes(abs, kf, kt)
    else abs' == Replaced(abs, kf, kt, d2, to)
  }

  // the part of fatx_rename for a target that exists
  method RenameOver(fs: Fs, d1: nat, from: seq<byte>, attrFrom: Attr, d2: nat, to: seq<byte>, exchange: bool,
      ghost kf: nat, ghost kt: nat)
    returns (status: Status)
    requires fs.Mounted() && d1 in fs.layout.dirs && d2 in fs.layout.dirs && GoodName(to)
    requires Names(fs.vol, fs.layout, d1, from, kf) && attrFrom == Abs(fs.vol, fs.layout)[kf].attr
    requires Names(fs.vol, fs.layout, d2, to, kt) && (!exchange ==> NamesRemovable(fs.vol, fs.layout, d2, to))
    modifies fs
    ensures fs.Mounted()
    ensures status == if !exchange && d1 == d2 && from == to then FileNotFound else Success
    ensures status == Success ==>
              Renamed(old(Abs(fs.vol, fs.layout)), Abs(fs.vol, fs.layout), kf, kt, d2, to, true, exchange)
    ensures status == FileNotFound ==> kf == kt && Abs(fs.vol, fs.layout) == old(Abs(fs.vol, fs.layout)) - {kf}
    ensures if exchange then fs.vol.fat == old(fs.vol).fat
            else kt in old(fs.layout).chains && Freed(old(fs.vol).fat, fs.vol.fat, old(fs.layout).chains[kt])
    ensures Without(old(fs.layout), fs.layout, if exchange then {} else {kt})
    ensures !exchange && d1 != d2 ==>
              |fs.vol.fat| == |fs.vol.clusters| + 1 && forall directory :: HasRoom(fs.vol, fs.layout, d1, directory)
  {
    hide Rep, Framed, InvBut, Abs, NoEntry, NamesRemovable, AttrAt, ExchangedNodes, Freed, Replaced, MovedTo, HasRoom;
    ghost var v0, g0 := fs.vol, fs.layout;
    if exchange {
      NoEntryIsFalse(v0, g0, d1, from, kf);
      NoEntryIsFalse(v0, g0, d2, to, kt);
      ghost var k1, k2;
      status, k1, k2 := AtomicSwap(fs, d1, from, d2, to, true, true, true);
      NamesUnique(v0, g0, d1, from, kf, k1);
      NamesUnique(v0, g0, d2, to, kt, k2);
    } else {
      RemovableAbs(v0, g0, d2, to, kt);
      if d1 != d2 {
        status := MoveOver(fs, d1, from, d2, to, kf, kt);
      } else {
        status := ReplaceHere(fs, d1, from, attrFrom, to, kf, kt);
        SameInode(v0, g0, d1, from, to, kf, kt);
        if from == to { NamesUnique(v0, g0, d1, from, kf, kt); }
      }
    }
  }

  lemma RenamedFresh(abs: map<nat, Node>, kf: nat, kt: nat, d: nat, name: seq<byte>)
    requires kf in abs
    ensures Renamed(abs, abs[kf := MovedTo(abs[kf], d, name)], kf, kt, d, name, false, false)
  {
  }

  // What the caller has to see to: a target that is to be replaced is a file or an empty
  // directory, and a target in another directory finds room there.
  ghost predicate Renamable(v: Volume, g: Layout, d1: nat, d2: nat, to: seq<byte>, exchange: bool, noReplace: bool)
    requires |v.fat| == |v.clusters| + 1
  {
    && (!exchange && !noReplace ==> NamesRemovable(v, g, d2, to))
    && (!exchange && d1 != d2 && NoEntry(v, g, d2, to) ==> HasRoom(v, g, d2, false))
  }

  // What fatx_rename answers: noFrom and noTo say that there is no such entry, full that no
  // cluster is free, same that both names are in one directory.
  function RenameStatus(noFrom: bool, noTo: bool, full: bool, same: bool, from: seq<byte>, to: seq<byte>,
      exchange: bool, noReplace: bool): (status: Status)
    ensures status == Success || status == Error || status == FileNotFound
  {
    if (exchange && noReplace) || |to| >= MAX_NAME || |from| >= MAX_NAME then Error
    else if noFrom then FileNotFound
    else if noTo then if exchange || (!same && full) then Error else Success
    else if noReplace then Error
    else if !exchange && same && from == to then FileNotFound
    else Success
  }

  // The same the other way round: when which answer comes.
  lemma StatusMeans(noFrom: bool, noTo: bool, full: bool, same: bool, from: seq<byte>, to: seq<byte>, exchange: bool,
      noReplace: bool)
    requires same && from == to ==> noFrom == noTo
    ensures var status := RenameStatus(noFrom, noTo, full, same, from, to, exchange, noReplace);
      && (status == Success <==>
          && |from| < MAX_NAME && |to| < MAX_NAME && !(exchange && noReplace) && !noFrom
          && if noTo then !exchange && (same || !full) else exchange || (!noReplace && !(same && from == to)))
      && (status == FileNotFound <==>
          && |from| < MAX_NAME && |to| < MAX_NAME && !(exchange && noReplace)
          && (noFrom || (same && from == to && !exchange && !noReplace)))
  {
  }

  // fatx_rename.  A plain rename of an entry to itself removes it: then status is
  // FileNotFound and kf == kt.
  method Rename(fs: Fs, d1: nat, from: seq<byte>, d2: nat, to: seq<byte>, exchange: bool, noReplace: bool, now: Ts)
    returns (status: Status, ghost kf: nat, ghost kt: nat)
    requires fs.Mounted() && d1 in fs.layout.dirs && d2 in fs.layout.dirs && to != [] && 0 !in to
    requires |fs.vol.fat| == |fs.vol.clusters| + 1
    requires Renamable(fs.vol, fs.layout, d1, d2, to, exchange, noReplace)
    modifies fs
    ensures fs.Mounted()
    ensures status == RenameStatus(old(NoEntry(fs.vol, fs.layout, d1, from)), old(NoEntry(fs.vol, fs.layout, d2, to)),
                                   NoneFree(old(fs.vol).fat, 2, fs.geo.numClusters),
                                   d1 == d2, from, to, exchange, noReplace)
    ensures status == Success ==>
              var taken := !old(NoEntry(fs.vol, fs.layout, d2, to));
              && Names(old(fs.vol), old(fs.layout), d1, from, kf) && (taken ==>
                 Names(old(fs.vol), old(fs.layout), d2, to, kt))
              && Renamed(old(Abs(fs.vol, fs.layout)), Abs(fs.vol, fs.layout), kf, kt, d2, to, taken, exchange)
    ensures status == Success ==>
              if exchange || old(NoEntry(fs.vol, fs.layout, d2, to)) then fs.vol.fat == old(fs.vol).fat
              else kt in old(fs.layout).chains && Freed(old(fs.vol).fat, fs.vol.fat, old(fs.layout).chains[kt])
    ensures Without(old(fs.layout), fs.layout,
                    if status == Success && !exchange && !old(NoEntry(fs.vol, fs.layout, d2, to)) then {kt}
                    else if status == FileNotFound && !old(NoEntry(fs.vol, fs.layout, d1, from)) then {kf}
                    else {})
    // so it succeeds where there is such an entry, the names are short, and the target is one
    // to exchange, another one to replace, or a free name that needs no cluster or finds one
    ensures status == Success <==>
            && |from| < MAX_NAME && |to| < MAX_NAME && !(exchange && noReplace)
            && !old(NoEntry(fs.vol, fs.layout, d1, from))
            && if old(NoEntry(fs.vol, fs.layout, d2, to))
               then !exchange && (d1 == d2 || !NoneFree(old(fs.vol).fat, 2, fs.geo.numClusters))
               else exchange || (!noReplace && (d1 != d2 || from != to))
    ensures status == FileNotFound <==>
            && |from| < MAX_NAME && |to| < MAX_NAME && !(exchange && noReplace)
            && (old(NoEntry(fs.vol, fs.layout, d1, from)) || (d1 == d2 && from == to && !exchange && !noReplace))
    // and then the entry, with all it had, is under the new name
    ensures status == Success ==>
              && Names(fs.vol, fs.layout, d2, to, kf) && kf in old(Abs(fs.vol, fs.layout))
              && Abs(fs.vol, fs.layout)[kf]
                 == var n := old(Abs(fs.vol, fs.layout))[kf]; n.(dir := d2, attr := n.attr.(name := to))
    ensures status == Success && !exchange && d1 != d2 ==>
              |fs.vol.fat| == |fs.vol.clusters| + 1 && forall directory :: HasRoom(fs.vol, fs.layout, d1, directory)
    ensures status == Error ==> Abs(fs.vol, fs.layout) == old(Abs(fs.vol, fs.layout))
    ensures status == FileNotFound ==>
              if old(NoEntry(fs.vol, fs.layout, d1, from)) then Abs(fs.vol, fs.layout) == old(Abs(fs.vol, fs.layout))
              else
                && Names(old(fs.vol), old(fs.layout), d1, from, kf)
                && Abs(fs.vol, fs.layout) == old(Abs(fs.vol, fs.layout)) - {kf}
  {
    hide Rep, Framed, InvBut, Abs, NoEntry, HasRoom, NamesRemovable, AttrAt, ExchangedNodes, Freed, Replaced, MovedTo,
         Without, Renamed, NoneFree, Names, Live, SlotAt, AttrOf, ClusterAt, Readable, Inv;
    ghost var v0, g0 := fs.vol, fs.layout;
    kf, kt := 0, 0;
    WithoutNone(g0);
    StatusMeans(NoEntry(v0, g0, d1, from), NoEntry(v0, g0, d2, to), NoneFree(v0.fat, 2, fs.geo.numClusters), d1 == d2,
                from, to, exchange, noReplace);
    if exchange && noReplace {
      return Error, 0, 0;
    }
    if |to| >= MAX_NAME {
      return Error, 0, 0;
    }
    if |from| >= MAX_NAME {
      return Error, 0, 0;
    }
    fs.Bounds();
    InvIsInvBut(v0, g0, {});
    var dir, attrFrom, attrTo;
    ghost var p, q;
    status, dir, attrFrom, p := Find(fs, d1, from);
    if status != Success {
      return;
    }
    LiveHasEntry(v0, g0, p);
    LiveNames(v0, g0, p);
    NamesAttr(v0, g0, d1, from, attrFrom.first);
    kf := attrFrom.first;
    status, dir, attrTo, q := Find(fs, d2, to);
    if status == FileNotFound {
      RenamedFresh(Abs(v0, g0), kf, kt, d2, to);
      if exchange {
        status := Error;
      } else if d1 != d2 {
        status := MoveToNew(fs, d1, from, d2, to, now, kf);
      } else {
        status := SetName(fs, d1, from, attrFrom, to, kf);
      }
    } else {
      LiveHasEntry(v0, g0, q);
      LiveNames(v0, g0, q);
      NamesAttr(v0, g0, d2, to, attrTo.first);
      kt := attrTo.first;
      if noReplace {
        status := Error;
      } else {
        status := RenameOver(fs, d1, from, attrFrom, d2, to, exchange, kf, kt);
      }
    }
    if status == Success {
      RenamedThere(v0, g0, fs.vol, fs.layout, d1, from, d2, to, kf, kt, !NoEntry(v0, g0, d2, to), exchange);
    }
  }

  lemma RenamedThere(v: Volume, g: Layout, v': Volume, g': Layout, d1: nat, from: seq<byte>, d2: nat, to: seq<byte>,
      kf: nat, kt: nat, taken: bool, exchange: bool)
    requires Names(v, g, d1, from, kf) && (taken ==> Names(v, g, d2, to, kt))
    requires Renamed(Abs(v, g), Abs(v', g'), kf, kt, d2, to, taken, exchange)
    ensures Names(v', g', d2, to, kf)
    ensures Abs(v', g')[kf] == var n := Abs(v, g)[kf]; n.(dir := d2, attr := n.attr.(name := to))
  {
    hide Abs;
  }

  lemma SameInode(v: Volume, g: Layout, d: nat, from: seq<byte>, to: seq<byte>, kf: nat, kt: nat)
    requires Names(v, g, d, from, kf) && Names(v, g, d, to, kt)
    ensures kf == kt ==> from == to
  {
  }
}
