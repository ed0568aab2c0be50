// Whole runs: any script of commands, on any mounted volume, is a run of the machine over
// the inode table, answer by answer.

module Runs {
  import opened Bytes
  import opened Codec
  import opened Geometry
  import opened Volumes
  import opened Streams
  import opened Layouts
  import opened Entries
  import opened FatxFs
  import opened Partitions
  import opened Superblocks
  import opened Formats
  import opened Dirs
  import opened FileOps
  import opened Rooms
  import opened DirOps
  import opened Renames
  import opened Contents
  import opened Spaces
  import opened Machine
  import opened Trees
  import opened Slacks

  // A mounted volume whose first cluster is the root directory's or nobody's.
  ghost predicate Runnable(fs: Fs)
    reads fs
  {
    fs.Mounted() && FirstSpare(fs.layout)
  }

  // Directory d has a slot for another entry: one that is free, or the end marker's with
  // another one behind it in the same cluster.
  ghost predicate Roomy(v: Volume, g: Layout, d: nat) {
    exists p :: ScanStops(v, g, p) && p.dir == d && RoomFor(v, g, p)
  }

  ghost function RoomyDirs(v: Volume, g: Layout): set<nat> {
    set d | d in g.dirs && Roomy(v, g, d)
  }

  ghost function EnvOf(fs: Fs): Env
    reads fs
  {
    Env(fs.variant, fs.geo.bytesPerCluster, fs.geo.numClusters, fs.geo.rootCluster, |AllocSet(fs.vol)|,
        RoomyDirs(fs.vol, fs.layout))
  }

  lemma RunShape(fs: Fs)
    requires Runnable(fs)
    ensures fs.Mounted() && EnvOf(fs).Ok() && fs.layout.root == fs.geo.rootCluster && FirstSpare(fs.layout)
    ensures |fs.vol.fat| == |fs.vol.clusters| + 1 && |fs.vol.clusters| == fs.geo.numClusters
    ensures fs.vol.variant == fs.variant && fs.vol.bpc == fs.geo.bytesPerCluster && fs.layout.root in fs.layout.dirs
    ensures NoneFree(fs.vol.fat, 2, fs.geo.numClusters) <==> EnvOf(fs).free == 0
  {
    hide Rep, Framed, InvBut, FirstSpare, RoomyDirs;
    fs.Bounds();
    RootIsDir(fs.vol, fs.layout);
    NoneToAlloc(fs.vol);
  }

  lemma EnvParts(fs: Fs)
    ensures EnvOf(fs).root == fs.geo.rootCluster && EnvOf(fs).roomy == RoomyDirs(fs.vol, fs.layout)
    ensures EnvOf(fs).free == |AllocSet(fs.vol)| && EnvOf(fs).b == fs.geo.bytesPerCluster
  {
    hide AllocSet, RoomyDirs;
  }

  lemma RootIsDir(v: Volume, g: Layout)
    requires Inv(v, g)
    ensures g.root in g.dirs
  {
  }

  // ---- entries and the table ----

  lemma InvUnique(v: Volume, g: Layout)
    requires Inv(v, g)
    ensures UniqueNames(Abs(v, g))
  {
    hide InvBut, Abs, Inv;
    forall d, name, j, k | Named(Abs(v, g), d, name, j) && Named(Abs(v, g), d, name, k) ensures j == k {
      NamesUnique(v, g, d, name, j, k);
    }
  }

  lemma NamesIsNamed(v: Volume, g: Layout, d: nat, name: seq<byte>, k: nat)
    ensures Names(v, g, d, name, k) <==> Named(Abs(v, g), d, name, k)
  {
    hide Abs;
  }

  lemma TakenIsEntry(v: Volume, g: Layout, d: nat, name: seq<byte>)
    requires Inv(v, g)
    ensures Taken(Abs(v, g), d, name) <==> !NoEntry(v, g, d, name)
  {
    hide InvBut, Abs, NoEntry, Names, Named, Inv;
    NoEntryNames(v, g, d, name);
    NamedInTable(Abs(v, g), d, name);
    forall k ensures Names(v, g, d, name, k) <==> Named(Abs(v, g), d, name, k) {
      NamesIsNamed(v, g, d, name, k);
    }
  }

  lemma NamedInTable(abs: Table, d: nat, name: seq<byte>)
    ensures forall k :: Named(abs, d, name, k) ==> k in abs
  {
  }

  lemma FileByName(v: Volume, g: Layout, d: nat, name: seq<byte>, k: nat)
    requires Inv(v, g) && Names(v, g, d, name, k)
    ensures NamesFile(v, g, d, name) <==> !Abs(v, g)[k].attr.IsDirectory()
  {
    hide AttrOf, SlotAt, InvBut, Live, AttrAt, Abs;
    NamesLive(v, g, d, name, k);
    forall p | Live(v, g, p) && p.dir == d && AttrAt(v, g, p).name == name ensures p == g.owner[k] {
      SameName(v, g, {}, p, g.owner[k]);
    }
  }

  // ---- space ----

  lemma HoldsChain(v: Volume, g: Layout, k: nat)
    requires Inv(v, g) && k in Abs(v, g) && v.bpc > 0 && (SingleDirs(g) || !Abs(v, g)[k].attr.IsDirectory())
    ensures k in g.chains && Holds(Abs(v, g)[k], v.bpc) == |g.chains[k]|
  {
    hide InvBut, Abs;
    NodeSized(v, g, k);
    if !Abs(v, g)[k].attr.IsDirectory() {
      HoldsTimes(Abs(v, g)[k], |g.chains[k]|, v.bpc);
    }
  }

  lemma {:induction false} SameUsed(abs: Table, chains: map<nat, seq<nat>>, b: nat)
    requires b > 0 && abs.Keys == chains.Keys && forall k :: k in abs ==> |chains[k]| == Holds(abs[k], b)
    ensures TotalLength(chains) == Used(abs, b)
    decreases |abs|
  {
    hide Holds;
    if abs != map[] {
      var k :| k in abs && Used(abs, b) == Holds(abs[k], b) + Used(abs - {k}, b);
      SameUsed(abs - {k}, chains - {k}, b);
      TotalWithout(chains, k);
    } else {
      assert chains == map[];
    }
  }

  // The free clusters of a volume of one-cluster directories are those that the table leaves.
  lemma FreeIsFree(v: Volume, g: Layout, b: nat)
    requires Inv(v, g) && SingleDirs(g) && FirstSpare(g) && b == v.bpc && b > 0
    ensures |AllocSet(v)| + Used(Abs(v, g), b) + (if g.root == 1 then 2 else 3) == |v.clusters|
  {
    hide InvBut, Abs, Holds, Used, TotalLength, AllocSet, FirstSpare;
    AllocConserved(v, g);
    SingleRoot(v, g);
    forall k | k in Abs(v, g) ensures k in g.chains && |g.chains[k]| == Holds(Abs(v, g)[k], v.bpc) {
      HoldsChain(v, g, k);
    }
    TotalWithout(g.chains, g.root);
    SameUsed(Abs(v, g), g.chains - {g.root}, v.bpc);
  }

  lemma SingleRoot(v: Volume, g: Layout)
    requires Inv(v, g) && SingleDirs(g)
    ensures g.root in g.chains && |g.chains[g.root]| == 1 && Abs(v, g).Keys == (g.chains - {g.root}).Keys
  {
    hide DirOk, LiveOk, Live, NamesDistinct, AttrAt, NodeOf;
  }

  // ---- room ----

  ghost function ChildrenBelow(g: Layout, d: nat, e: nat): set<nat> {
    set k | k in g.owner && g.owner[k].dir == d && g.owner[k].e < e
  }

  // One child for every slot that is not deleted.
  lemma {:induction false} ChildCount(v: Volume, g: Layout, d: nat, e: nat)
    requires Inv(v, g) && d in g.dirs && d in g.chains && |g.chains[d]| == 1 && e <= g.dirs[d].e && g.dirs[d].k == 0
    ensures |ChildrenBelow(g, d, e)| <= e
    ensures |ChildrenBelow(g, d, e)| == e <==> forall i :: 0 <= i < e ==> !IsDeleted(SlotAt(v, g, Place(d, 0, i)))
  {
    hide AttrOf, SlotAt, InvBut, IsDeleted, AttrAt;
    if e == 0 {
      assert ChildrenBelow(g, d, e) == {};
    } else {
      ChildCount(v, g, d, e - 1);
      var p := Place(d, 0, e - 1);
      SlotInside(v, g, p);
      forall k | k in g.owner && g.owner[k].dir == d && g.owner[k].e == e - 1
        ensures g.owner[k] == p && Live(v, g, p) && k == AttrAt(v, g, p).first {
        OwnerPlace(v, g, {}, k);
        LiveBefore(v, g, g.owner[k]);
      }
      if IsDeleted(SlotAt(v, g, p)) {
        assert ChildrenBelow(g, d, e) == ChildrenBelow(g, d, e - 1);
      } else {
        LiveOwner(v, g, {}, p);
        assert ChildrenBelow(g, d, e) == ChildrenBelow(g, d, e - 1) + {AttrAt(v, g, p).first};
      }
    }
  }

  lemma SlotInside(v: Volume, g: Layout, p: Place)
    requires Inv(v, g) && p.dir in g.dirs && p.dir in g.chains && |g.chains[p.dir]| == 1 && g.dirs[p.dir].k == 0 == p.k
    requires p.e < g.dirs[p.dir].e
    ensures InDir(v, g, p) && (Live(v, g, p) <==> !IsDeleted(SlotAt(v, g, p)))
  {
    hide AttrOf, SlotAt, LiveOk, NamesDistinct, ChainsOk;
    assert DirOk(v, g, p.dir);
  }

  lemma SingleTerm(v: Volume, g: Layout, d: nat)
    requires Inv(v, g) && SingleDirs(g) && d in g.dirs
    ensures d in g.chains && |g.chains[d]| == 1 && g.dirs[d].k == 0 && g.dirs[d].e < SlotsPerCluster(v.bpc)
    ensures Children(Abs(v, g), d) == ChildrenBelow(g, d, g.dirs[d].e)
  {
    hide AttrOf, SlotAt, LiveOk, NamesDistinct, ChainsOk, Live, NodeOf;
    assert DirOk(v, g, d);
    forall k | k in g.owner ensures g.owner[k].dir == d ==> g.owner[k].e < g.dirs[d].e {
      LiveBefore(v, g, g.owner[k]);
    }
    forall k | k in g.owner ensures Abs(v, g)[k].dir == g.owner[k].dir {
      NodeLive(v, g, k);
    }
  }

  // Room by the number of entries is room at the slot where the scan stops.
  lemma RoomIsRoom(v: Volume, g: Layout, p: Place, b: nat)
    requires Inv(v, g) && SingleDirs(g) && ScanStops(v, g, p) && b == v.bpc
    ensures RoomFor(v, g, p) <==> Room(Abs(v, g), p.dir, b)
  {
    hide AttrOf, SlotAt, InvBut, IsDeleted, Abs, Children, ChildrenBelow, Inv, SingleDirs;
    var d := p.dir;
    SingleTerm(v, g, d);
    ChildCount(v, g, d, g.dirs[d].e);
    assert p == Place(d, 0, p.e);
    forall i | 0 <= i < g.dirs[d].e && !IsDeleted(SlotAt(v, g, p)) ensures !IsDeleted(SlotAt(v, g, Place(d, 0, i))) {
      SlotInside(v, g, Place(d, 0, i));
    }
  }

  lemma RoomyAt(v: Volume, g: Layout, p: Place)
    requires ScanStops(v, g, p)
    ensures Roomy(v, g, p.dir) <==> RoomFor(v, g, p)
  {
    hide ScanStops, RoomFor;
    forall q | ScanStops(v, g, q) && q.dir == p.dir ensures q == p {
      StopUnique(v, g, p, q);
    }
  }

  lemma RoomyHas(v: Volume, g: Layout, d: nat, directory: bool)
    requires Roomy(v, g, d) && |v.fat| == |v.clusters| + 1
    ensures HasRoom(v, g, d, directory)
  {
    hide ScanStops, RoomFor;
    var p :| ScanStops(v, g, p) && p.dir == d && RoomFor(v, g, p);
    assert RoomThere(v, g, p, directory);
  }

  // On volumes of one-cluster directories the space follows from the table.
  lemma SingleIsNative(fs: Fs)
    requires Runnable(fs) && SingleDirs(fs.layout)
    ensures EnvOf(fs).Ok() && Native(EnvOf(fs), Abs(fs.vol, fs.layout))
  {
    hide Rep, Framed, InvBut, Abs, Inv, SingleDirs, Used, AllocSet, Roomy, Room, RoomFor, ScanStops, Readable, StopAt,
         FirstSpare;
    RunShape(fs);
    var v, g := fs.vol, fs.layout;
    InvIsInvBut(v, g, {});
    FreeIsFree(v, g, fs.geo.bytesPerCluster);
    forall d | d == g.root || (d in Abs(v, g) && Abs(v, g)[d].attr.IsDirectory())
      ensures d in RoomyDirs(v, g) <==> Room(Abs(v, g), d, v.bpc)
    {
      if d != g.root { FileIsNoDir(v, g, d); }
      var t := StopInDir(v, g, d);
      RoomIsRoom(v, g, Place(d, t.k, t.e), v.bpc);
      RoomyAt(v, g, Place(d, t.k, t.e));
    }
  }

  lemma FileIsNoDir(v: Volume, g: Layout, k: nat)
    requires Inv(v, g) && k in Abs(v, g)
    ensures Abs(v, g)[k].attr.IsDirectory() <==> k in g.dirs
  {
    hide InvBut, Abs;
    NodeSized(v, g, k);
  }

  // ---- what a caller checks first ----

  // A directory handle for a path, one component at a time.
  method OpenPath(fs: Fs, path: Path) returns (ok: bool, d: nat)
    requires Runnable(fs)
    modifies fs`cursor, fs`disk, fs`cache
    ensures Runnable(fs)
    ensures fs.vol == old(fs.vol) && fs.layout == old(fs.layout) && EnvOf(fs) == old(EnvOf(fs))
    ensures ok ==> d in fs.layout.dirs && Leads(Abs(fs.vol, fs.layout), fs.geo.rootCluster, path, d)
    ensures !ok ==> forall e :: !Leads(Abs(fs.vol, fs.layout), fs.geo.rootCluster, path, e)
  {
    hide Rep, Framed, AttrOf, SlotAt, Live, InvBut, Abs, Inv, Leads, Readable, NoEntry, AttrAt, FirstSpare, RoomyDirs;
    ghost var abs, root := Abs(fs.vol, fs.layout), fs.geo.rootCluster;
    d := fs.geo.rootCluster;
    RunShape(fs);
    InvIsInvBut(fs.vol, fs.layout, {});
    InvUnique(fs.vol, fs.layout);
    var i := 0;
    assert path[..0] == [];
    LeadsNowhere(abs, root);
    while i < |path|
      invariant Runnable(fs) && i <= |path|
      invariant d in fs.layout.dirs && Leads(abs, root, path[..i], d)
    {
      var status, dir, attr;
      ghost var p;
      status, dir, attr, p := Find(fs, d, path[i]);
      if status != Success || !attr.IsDirectory() {
        forall e ensures !Leads(abs, root, path, e) {
          DeadEnd(fs.vol, fs.layout, root, path, i, d, e, p, status == Success);
        }
        return false, 0;
      }
      LiveDirectory(fs.vol, fs.layout, p);
      LiveNames(fs.vol, fs.layout, p);
      LeadsOn(abs, root, path[..i], d, attr.first);
      assert path[..i] + [path[i]] == path[..i + 1];
      d := attr.first;
      i := i + 1;
    }
    assert path[..i] == path;
    ok := true;
  }

  lemma LeadsNowhere(abs: Table, d: nat)
    ensures Leads(abs, d, [], d)
  {
  }

  // Where a component is missing or a file, the path leads nowhere.
  lemma DeadEnd(v: Volume, g: Layout, root: nat, path: Path, i: nat, d: nat, e: nat, p: Place, found: bool)
    requires Inv(v, g) && UniqueNames(Abs(v, g)) && i < |path| && Leads(Abs(v, g), root, path[..i], d)
    requires if found then Live(v, g, p) && p.dir == d && AttrAt(v, g, p).name == path[i]
             && !AttrAt(v, g, p).IsDirectory()
             else NoEntry(v, g, d, path[i])
    ensures !Leads(Abs(v, g), root, path, e)
  {
    hide AttrOf, SlotAt, Live, InvBut, Abs, Inv, NoEntry, UniqueNames, AttrAt;
    if Leads(Abs(v, g), root, path, e) {
      var abs, rest := Abs(v, g), path[i..];
      assert path == path[..i] + rest;
      var m := LeadsSplit(abs, root, path[..i], rest, e);
      LeadsUnique(abs, root, path[..i], d, m);
      var k :| Named(abs, d, rest[0], k) && abs[k].attr.IsDirectory() && Leads(abs, k, rest[1..], e);
      TakenIsEntry(v, g, d, path[i]);
      if found {
        LiveNames(v, g, p);
        NamesIsNamed(v, g, d, path[i], AttrAt(v, g, p).first);
        OneName(abs, d, path[i], k);
      }
    }
  }

  // Whether directory d has room for a new entry.
  method CheckRoom(fs: Fs, d: nat) returns (room: bool)
    requires Runnable(fs) && d in fs.layout.dirs
    modifies fs`cursor, fs`disk, fs`cache
    ensures Runnable(fs) && fs.vol == old(fs.vol) && fs.layout == old(fs.layout)
    ensures room == (d in RoomyDirs(fs.vol, fs.layout))
  {
    hide Rep, Framed, Times, IsChain, AttrOf, SlotBytes, GoodSlot, StopAt, IsEnd, IsDeleted, InvBut, Live, Roomy, Abs,
         FirstSpare, Inv, ScanStops, Readable;
    fs.Bounds();
    InvIsInvBut(fs.vol, fs.layout, {});
    ghost var t := StopInDir(fs.vol, fs.layout, d);
    RoomyAt(fs.vol, fs.layout, Place(d, t.k, t.e));
    ghost var ch := fs.layout.chains[d];
    DirChain(fs.vol, fs.layout, d);
    var dir := new Dir(d, 0);
    ghost var k: nat := 0;
    StopBounds(fs.vol, ch, t);
    while true
      invariant Runnable(fs) && fresh(dir) && fs.vol == old(fs.vol) && fs.layout == old(fs.layout)
      invariant k < |ch| && dir.cluster == ch[k] && dir.entry < SlotsPerCluster(fs.geo.bytesPerCluster)
      invariant Before(k, dir.entry, t) || Term(k, dir.entry) == t
      decreases |ch| - k, SlotsPerCluster(fs.geo.bytesPerCluster) - dir.entry
    {
      fs.Bounds();
      var status, attr;
      ChainEntry(fs.vol, ch, k);
      StopSlot(fs.vol, ch, t, k, dir.entry);
      status, attr := ReadDir(fs, dir);
      if status == FileDeleted {
        return true;
      }
      if status == EndOfDir {
        return dir.entry + 1 < fs.geo.bytesPerCluster / DIRENT_SIZE;
      }
      status, k := NextDirEntry(fs, dir, ch, k);
    }
  }

  lemma DirChain(v: Volume, g: Layout, d: nat)
    requires Readable(v, g) && d in g.dirs
    ensures d in g.chains && |v.fat| == |v.clusters| + 1 && IsChain(v, g.chains[d]) && g.chains[d][0] == d
  {
    assert DirOk(v, g, d);
  }

  lemma InvHomed(v: Volume, g: Layout)
    requires Inv(v, g) && SingleDirs(g)
    ensures Homed(Abs(v, g), g.root)
  {
    hide InvBut, Abs, Live, SingleDirs;
    SingleRoot(v, g);
    forall k | k in Abs(v, g) ensures Abs(v, g)[k].dir == g.root || Abs(v, g)[k].dir in Abs(v, g) {
      NodeLive(v, g, k);
      LiveInDir(v, g, g.owner[k]);
      InvIsInvBut(v, g, {});
      DirChain(v, g, Abs(v, g)[k].dir);
    }
  }

  // What directory d has under a name: nothing, a file or a directory.
  method CheckName(fs: Fs, d: nat, name: seq<byte>) returns (found: bool, directory: bool, ghost k: nat)
    requires Runnable(fs) && d in fs.layout.dirs
    modifies fs`cursor, fs`disk, fs`cache
    ensures Runnable(fs) && fs.vol == old(fs.vol) && fs.layout == old(fs.layout)
    ensures found == Taken(Abs(fs.vol, fs.layout), d, name)
    ensures found ==>
              && Named(Abs(fs.vol, fs.layout), d, name, k) && directory == Abs(fs.vol, fs.layout)[k].attr.IsDirectory()
              && (directory ==> k in fs.layout.dirs)
    ensures NamesFile(fs.vol, fs.layout, d, name) <==> !found || !directory
  {
    hide Rep, Framed, AttrOf, SlotAt, Live, InvBut, AttrAt, NoEntry, Abs, SingleDirs, Inv, Readable, NamesFile, Named;
    fs.Bounds();
    InvIsInvBut(fs.vol, fs.layout, {});
    var status, dir, attr;
    ghost var p;
    status, dir, attr, p := Find(fs, d, name);
    TakenIsEntry(fs.vol, fs.layout, d, name);
    k := 0;
    if status != Success {
      NoNameIsFile(fs.vol, fs.layout, d, name);
      return false, false, 0;
    }
    LiveHasEntry(fs.vol, fs.layout, p);
    LiveNames(fs.vol, fs.layout, p);
    k := attr.first;
    NamesIsNamed(fs.vol, fs.layout, d, name, k);
    FileByName(fs.vol, fs.layout, d, name, k);
    if attr.IsDirectory() {
      LiveDirectory(fs.vol, fs.layout, p);
    }
    return true, attr.IsDirectory(), k;
  }

  lemma NoNameIsFile(v: Volume, g: Layout, d: nat, name: seq<byte>)
    requires NoEntry(v, g, d, name)
    ensures NamesFile(v, g, d, name)
  {
    hide Live, AttrAt;
  }

  // Whether nothing would be lost with what directory d has under a name.
  method CheckRemovable(fs: Fs, d: nat, name: seq<byte>) returns (removable: bool)
    requires Runnable(fs) && d in fs.layout.dirs
    modifies fs`cursor, fs`disk, fs`cache
    ensures Runnable(fs) && fs.vol == old(fs.vol) && fs.layout == old(fs.layout)
    ensures removable == NamesRemovable(fs.vol, fs.layout, d, name)
    ensures removable == forall k :: Named(Abs(fs.vol, fs.layout), d, name, k) ==> NothingIn(Abs(fs.vol, fs.layout), k)
  {
    hide Rep, Framed, AttrOf, SlotAt, Live, InvBut, AttrAt, NoEntry, EmptyDir, Abs, SingleDirs, Inv, Readable,
         NamesRemovable, Named, NothingIn, UniqueNames;
    fs.Bounds();
    InvIsInvBut(fs.vol, fs.layout, {});
    InvUnique(fs.vol, fs.layout);
    var status, dir, attr;
    ghost var p;
    status, dir, attr, p := Find(fs, d, name);
    TakenIsEntry(fs.vol, fs.layout, d, name);
    if status != Success {
      NothingRemovable(fs.vol, fs.layout, d, name);
      return true;
    }
    LiveNames(fs.vol, fs.layout, p);
    NamesIsNamed(fs.vol, fs.layout, d, name, attr.first);
    OneName(Abs(fs.vol, fs.layout), d, name, attr.first);
    RemovableAbs(fs.vol, fs.layout, d, name, attr.first);
    EmptyDirAbs(fs.vol, fs.layout, attr.first);
    NothingInside(Abs(fs.vol, fs.layout), attr.first);
    if !attr.IsDirectory() {
      FileHoldsNothing(fs.vol, fs.layout, attr.first);
      return true;
    }
    LiveDirectory(fs.vol, fs.layout, p);
    status := CheckEmpty(fs, attr.first);
    removable := status == Success;
  }

  lemma NothingRemovable(v: Volume, g: Layout, d: nat, name: seq<byte>)
    requires NoEntry(v, g, d, name)
    ensures NamesRemovable(v, g, d, name)
  {
    hide Live, AttrAt, EmptyDir;
  }

  lemma NothingInside(abs: Table, k: nat)
    ensures NothingIn(abs, k) <==> forall j :: j in abs ==> abs[j].dir != k
  {
  }

  lemma FileHoldsNothing(v: Volume, g: Layout, k: nat)
    requires Inv(v, g) && k in Abs(v, g) && !Abs(v, g)[k].attr.IsDirectory()
    ensures NothingIn(Abs(v, g), k)
  {
    hide InvBut, Live, AttrAt;
    NodeSized(v, g, k);
    forall j | j in Abs(v, g) ensures Abs(v, g)[j].dir != k {
      NodeLive(v, g, j);
      LiveInDir(v, g, g.owner[j]);
    }
  }

  // ---- one command ----

  lemma GrewRunnable(v: Volume, g: Layout, g': Layout, p: Place, c: nat, directory: bool)
    requires Inv(v, g) && v.InRange(c) && c >= 2 && v.fat[c] == Available && Grew(g, g', p, c, directory)
    ensures FirstSpare(g) ==> FirstSpare(g')
    ensures SingleDirs(g) ==> SingleDirs(g')
  {
    hide InvBut;
    FreshCluster(v, g, c);
  }

  method ExecMake(fs: Fs, d: nat, name: seq<byte>, directory: bool, now: Ts) returns (reply: Reply)
    requires Runnable(fs) && d in fs.layout.dirs
    modifies fs
    ensures Runnable(fs) && old(EnvOf(fs)).Ok() && (old(SingleDirs(fs.layout)) ==> SingleDirs(fs.layout))
    ensures MakeStep(old(EnvOf(fs)), old(Abs(fs.vol, fs.layout)), Abs(fs.vol, fs.layout), reply, d, name,
                     if directory then ATTR_DIRECTORY else 0, now)
  {
    hide Rep, Framed, InvBut, Abs, NewNode, HasRoom, SingleDirs, NoneFree, NoEntry, Readable, Inv, Grew, Taken, Roomy,
         FirstSpare, AllocSet, RoomyDirs;
    RunShape(fs);
    ghost var v0, g0 := fs.vol, fs.layout;
    InvIsInvBut(v0, g0, {});
    var room := CheckRoom(fs, d);
    if !ProperName(name) || !room {
      return NotRun;
    }
    RoomyIn(v0, g0, d, directory);
    TakenIsEntry(v0, g0, d, name);
    NewIsNotRoot(v0, g0);
    var status;
    ghost var c, p;
    if directory {
      status, c, p := Mkdir(fs, d, name, now);
    } else {
      status, c, p := Mknod(fs, d, name, now);
    }
    if status == Success {
      GrewRunnable(v0, g0, fs.layout, p, c, directory);
    }
    reply := Answer(status);
  }

  lemma RoomyIn(v: Volume, g: Layout, d: nat, directory: bool)
    requires d in RoomyDirs(v, g) && |v.fat| == |v.clusters| + 1
    ensures HasRoom(v, g, d, directory)
  {
    hide Roomy, HasRoom;
    RoomyHas(v, g, d, directory);
  }

  // The root directory's cluster is not available.
  lemma NewIsNotRoot(v: Volume, g: Layout)
    requires Inv(v, g) && |v.fat| == |v.clusters| + 1
    ensures g.root < |v.fat| && v.fat[g.root] != Available
  {
    hide DirOk, LiveOk, Live, NamesDistinct, AttrAt, Link;
    assert IsChain(v, g.chains[g.root]) && g.root in g.chains[g.root];
    ChainEntryInUse(v, g.chains[g.root], g.root);
  }

  method ExecRead(fs: Fs, d: nat, name: seq<byte>, offset: nat, size: nat) returns (reply: Reply)
    requires Runnable(fs) && d in fs.layout.dirs
    modifies fs
    ensures Runnable(fs) && fs.layout == old(fs.layout)
    ensures ReadStep(old(Abs(fs.vol, fs.layout)), Abs(fs.vol, fs.layout), reply, d, name, offset, size)
  {
    hide Rep, Framed, InvBut, Abs, FirstSpare, NoEntry, NamesFile, Inv, ReadBack, Splice, Names, UniqueNames, Named;
    var found, directory;
    ghost var k;
    found, directory, k := CheckName(fs, d, name);
    if found && directory {
      return NotRun;
    }
    TakenIsEntry(fs.vol, fs.layout, d, name);
    InvUnique(fs.vol, fs.layout);
    var buf := new byte[size];
    ghost var was := buf[..];
    var status, count;
    ghost var j;
    status, count, j := Read(fs, d, name, offset, size, buf);
    if status != Success {
      return Answer(status);
    }
    NamesIsNamed(fs.vol, fs.layout, d, name, j);
    OneName(Abs(fs.vol, fs.layout), d, name, j);
    NamedInTable(Abs(fs.vol, fs.layout), d, name);
    SplicePrefix(was, ReadBack(Abs(fs.vol, fs.layout)[j], offset, size));
    reply := Reply.Data(buf[..count]);
  }

  // What a write or a truncation of file k leaves for the machine: its clusters and the
  // free ones are what they were together.
  lemma TotalStays(v: Volume, g: Layout, v': Volume, g': Layout, k: nat, b: nat)
    requires Inv(v, g) && Inv(v', g') && FirstSpare(g) && b == v.bpc == v'.bpc && b > 0
    requires |v.clusters| == |v'.clusters| && k in Abs(v, g) && k in Abs(v', g')
    requires k in g'.chains && g' == g.(chains := g.chains[k := g'.chains[k]]) && k !in g.dirs
    requires Owned(g'.chains, 1) ==> Owned(g.chains, 1)
    ensures FirstSpare(g') && (SingleDirs(g) ==> SingleDirs(g'))
    ensures var n, n' := Abs(v, g)[k], Abs(v', g')[k];
      && Holds(n', b) == |g'.chains[k]| >= 1 && |n'.bytes| == Times(|g'.chains[k]|, b) && Sized(n)
      && Holds(n', b) + |AllocSet(v')| == Holds(n, b) + |AllocSet(v)|
  {
    hide InvBut, Abs, Holds, Times, AllocSet, TotalLength, Owned;
    FileIsNoDir(v, g, k);
    FileIsNoDir(v', g', k);
    HoldsChain(v, g, k);
    HoldsChain(v', g', k);
    AllocConserved(v, g);
    AllocConserved(v', g');
    TotalWithout(g.chains, k);
    TotalWithout(g'.chains, k);
    assert g'.chains - {k} == g.chains - {k};
    NodeSized(v, g, k);
    NodeSized(v', g', k);
    LongEnough(v', g', k);
  }

  lemma LongEnough(v: Volume, g: Layout, k: nat)
    requires Inv(v, g) && k in g.chains
    ensures |g.chains[k]| >= 1
  {
    assert IsChain(v, g.chains[k]);
  }

  method ExecWrite(fs: Fs, d: nat, name: seq<byte>, offset: nat, data: seq<byte>) returns (reply: Reply)
    requires Runnable(fs) && d in fs.layout.dirs
    modifies fs
    ensures Runnable(fs) && old(EnvOf(fs)).Ok() && (old(SingleDirs(fs.layout)) ==> SingleDirs(fs.layout))
    ensures WriteStep(old(EnvOf(fs)), old(Abs(fs.vol, fs.layout)), Abs(fs.vol, fs.layout), reply, d, name, offset, data)
  {
    hide Rep, Framed, InvBut, Abs, SingleDirs, NoEntry, NamesFile, Inv, UniqueNames, Wrote, NoneFree, Times,
         ClustersFor, WrittenNode, PartlyWritten, Holds, GapClosed, Fit, FirstSpare, AllocSet, RoomyDirs, Owned;
    RunShape(fs);
    ghost var v0, g0, env := fs.vol, fs.layout, EnvOf(fs);
    var found, directory;
    ghost var k, j, stuck;
    found, directory, k := CheckName(fs, d, name);
    TakenIsEntry(v0, g0, d, name);
    if data == [] || offset + |data| >= WORD || (found && directory) {
      return NotRun;
    }
    InvUnique(v0, g0);
    var status, count;
    status, count, j, stuck := Write(fs, d, name, offset, data);
    if status == FileNotFound {
      return Answer(status);
    }
    MountedShape(fs);
    NamesIsNamed(v0, g0, d, name, j);
    OneName(Abs(v0, g0), d, name, j);
    FileIsNoDir(v0, g0, k);
    TotalStays(v0, g0, fs.vol, fs.layout, k, env.b);
    NoGap(Abs(v0, g0)[k], offset, env.b);
    reply := if status == Success then Count(count) else Answer(status);
    WroteExactly(env, Abs(v0, g0), Abs(fs.vol, fs.layout), k, |fs.layout.chains[k]|, |AllocSet(fs.vol)|, status, count,
                 stuck, offset, data);
  }

  lemma NoGap(n: Node, offset: nat, b: nat)
    requires b > 0
    ensures offset <= n.attr.size ==> GapClosed(n, offset, b) == n
  {
  }

  lemma MountedShape(fs: Fs)
    requires fs.Mounted()
    ensures |fs.vol.clusters| == fs.geo.numClusters && fs.vol.bpc == fs.geo.bytesPerCluster
    ensures fs.layout.root == fs.geo.rootCluster
    ensures NoneFree(fs.vol.fat, 2, fs.geo.numClusters) <==> |AllocSet(fs.vol)| == 0
  {
    hide Rep, Framed, AllocSet, NoneFree;
    fs.Bounds();
    NoneToAlloc(fs.vol);
  }

  // len and left are the clusters of the file and the free ones afterwards.
  lemma WroteExactly(env: Env, abs: Table, abs': Table, k: nat, len: nat, left: nat, status: Status, count: nat,
      stuck: bool, offset: nat, data: seq<byte>)
    requires env.Ok() && k in abs && k in abs' && abs' == abs[k := abs'[k]] && data != [] && offset + |data| < WORD
    requires !abs[k].attr.IsDirectory() && len >= 1 && |abs'[k].bytes| == Times(len, env.b)
    requires len + left == Holds(abs[k], env.b) + env.free
    requires status == Success || status == Error
    requires status == Success && !stuck ==> count == |data| && abs'[k] == WrittenNode(abs[k], offset, data, env.b)
    requires status == Success && stuck ==>
               && count == 0 && offset <= abs[k].attr.size && left == 0 && Times(len, env.b) <= offset
               && abs'[k] == abs[k].(bytes := Fit(abs[k].bytes, Times(len, env.b)))
    requires status == Error ==>
               left == 0 && PartlyWritten(abs[k], abs'[k], Times(len, env.b), offset, data, count, env.b)
    ensures Wrote(env, abs, abs', if status == Success then Count(count) else Answer(status), k, offset, data)
  {
    hide Times, ClustersFor, WrittenNode, PartlyWritten, Holds, Fit, WriteOutcome;
    var total: nat := Holds(abs[k], env.b) + env.free;
    if status == Error {
      PartlyOutcome(abs[k], abs'[k], offset, data, count, total, env.b);
    } else if stuck {
      StuckOutcome(abs[k], offset, data, total, env.b);
    } else {
      WrittenFits(abs[k], offset, data, len, total, env.b);
      FittingOutcome(abs[k], offset, data, total, env.b);
    }
  }

  lemma FittingOutcome(n: Node, offset: nat, data: seq<byte>, total: nat, b: nat)
    requires b > 0 && ClustersFor(offset + |data|, b) <= total
    ensures WriteOutcome(n, total, offset, data, b) == (WrittenNode(n, offset, data, b), Count(|data|))
  {
    hide WrittenNode, ClustersFor, Fit, Splice;
  }

  method ExecResize(fs: Fs, d: nat, name: seq<byte>, size: nat) returns (reply: Reply)
    requires Runnable(fs) && d in fs.layout.dirs
    modifies fs
    ensures Runnable(fs) && old(EnvOf(fs)).Ok() && (old(SingleDirs(fs.layout)) ==> SingleDirs(fs.layout))
    ensures ResizeStep(old(EnvOf(fs)), old(Abs(fs.vol, fs.layout)), Abs(fs.vol, fs.layout), reply, d, name, size)
  {
    hide Rep, Framed, InvBut, Abs, SingleDirs, NoEntry, NamesFile, Inv, UniqueNames, Resized, NoneFree, Times,
         ClustersFor, TruncatedNode, Holds, Fit, FirstSpare, AllocSet, RoomyDirs, Owned;
    RunShape(fs);
    ghost var v0, g0, env := fs.vol, fs.layout, EnvOf(fs);
    var found, directory;
    ghost var k, j;
    found, directory, k := CheckName(fs, d, name);
    TakenIsEntry(v0, g0, d, name);
    if size >= WORD || (found && directory) {
      return NotRun;
    }
    InvUnique(v0, g0);
    var status;
    status, j := Truncate(fs, d, name, size);
    reply := Answer(status);
    if status == FileNotFound {
      return;
    }
    MountedShape(fs);
    NamesIsNamed(v0, g0, d, name, j);
    OneName(Abs(v0, g0), d, name, j);
    FileIsNoDir(v0, g0, k);
    TotalStays(v0, g0, fs.vol, fs.layout, k, env.b);
    ResizedExactly(env, Abs(v0, g0), Abs(fs.vol, fs.layout), k, |fs.layout.chains[k]|, |AllocSet(fs.vol)|, status,
                   size);
  }

  lemma ResizedExactly(env: Env, abs: Table, abs': Table, k: nat, len: nat, left: nat, status: Status, size: nat)
    requires env.Ok() && k in abs && k in abs' && abs' == abs[k := abs'[k]]
    requires |abs'[k].bytes| == Times(len, env.b)
    requires len + left == Holds(abs[k], env.b) + env.free
    requires status == Success || status == Error
    requires status == Success ==> abs'[k] == TruncatedNode(abs[k], size, env.b)
    requires status == Error ==>
               && left == 0 && len < ClustersFor(size, env.b)
               && abs'[k] == abs[k].(bytes := Fit(abs[k].bytes, Times(len, env.b)))
    ensures Resized(env, abs, abs', Answer(status), k, size)
  {
    hide Times, ClustersFor, Holds, Fit;
    if status == Success {
      TimesOrder(len, ClustersFor(size, env.b), env.b);
    }
  }

  lemma WithoutRunnable(g: Layout, g': Layout, gone: set<nat>)
    requires Without(g, g', gone) && g'.root == g.root
    ensures FirstSpare(g) ==> FirstSpare(g')
    ensures SingleDirs(g) ==> SingleDirs(g')
  {
  }

  lemma RemovedWithout(g: Layout, k: nat)
    ensures Without(g, RemovedLayout(g, k), {k})
  {
  }

  method ExecRemove(fs: Fs, d: nat, name: seq<byte>) returns (reply: Reply)
    requires Runnable(fs) && d in fs.layout.dirs
    modifies fs
    ensures Runnable(fs) && (old(SingleDirs(fs.layout)) ==> SingleDirs(fs.layout))
    ensures RemoveStep(old(Abs(fs.vol, fs.layout)), Abs(fs.vol, fs.layout), reply, d, name)
  {
    hide Rep, Framed, InvBut, Abs, SingleDirs, NoEntry, NamesRemovable, Inv, UniqueNames, NothingIn, Without, Removed,
         Named, FirstSpare;
    ghost var v0, g0 := fs.vol, fs.layout;
    MountedShape(fs);
    TakenIsEntry(v0, g0, d, name);
    NamedInTable(Abs(v0, g0), d, name);
    InvUnique(v0, g0);
    var removable := CheckRemovable(fs, d, name);
    if !removable {
      ghost var k :| Named(Abs(v0, g0), d, name, k) && !NothingIn(Abs(v0, g0), k);
      return NotRun;
    }
    var status;
    ghost var k;
    status, k := Unlink(fs, d, name);
    reply := Answer(status);
    if status == Success {
      NamesIsNamed(v0, g0, d, name, k);
      RemovedWithout(g0, k);
      MountedShape(fs);
      WithoutRunnable(g0, fs.layout, {k});
    }
  }

  method ExecRemoveDir(fs: Fs, d: nat, name: seq<byte>) returns (reply: Reply)
    requires Runnable(fs) && d in fs.layout.dirs
    modifies fs
    ensures Runnable(fs) && (old(SingleDirs(fs.layout)) ==> SingleDirs(fs.layout))
    ensures RemoveDirStep(old(Abs(fs.vol, fs.layout)), Abs(fs.vol, fs.layout), reply, d, name)
  {
    hide Rep, Framed, InvBut, Abs, SingleDirs, NoEntry, NamesRemovable, Inv, UniqueNames, NothingIn, Without, Named,
         Names, FirstSpare;
    ghost var v0, g0 := fs.vol, fs.layout;
    MountedShape(fs);
    NamedInTable(Abs(v0, g0), d, name);
    var status;
    ghost var k;
    status, k := Rmdir(fs, d, name);
    reply := Answer(status);
    forall j ensures Names(v0, g0, d, name, j) <==> Named(Abs(v0, g0), d, name, j) {
      NamesIsNamed(v0, g0, d, name, j);
    }
    NothingInside(Abs(v0, g0), k);
    if status == Success {
      RemovedWithout(g0, k);
      MountedShape(fs);
      WithoutRunnable(g0, fs.layout, {k});
    }
  }

  lemma MovableIsRenamable(v: Volume, g: Layout, env: Env, d1: nat, d2: nat, to: seq<byte>, exchange: bool,
      noReplace: bool)
    requires Inv(v, g) && env.roomy == RoomyDirs(v, g) && |v.fat| == |v.clusters| + 1
    requires NamesRemovable(v, g, d2, to) || exchange || noReplace
    requires Movable(env, Abs(v, g), d1, d2, to, exchange, noReplace)
    ensures Renamable(v, g, d1, d2, to, exchange, noReplace)
  {
    hide InvBut, Abs, NoEntry, NamesRemovable, Inv, RoomyDirs, HasRoom;
    TakenIsEntry(v, g, d2, to);
    if d2 in env.roomy {
      RoomyIn(v, g, d2, false);
    }
  }

  lemma MovedOne(abs: Table, abs': Table, d1: nat, from: seq<byte>, d2: nat, to: seq<byte>, exchange: bool, kf: nat,
      kt: nat)
    requires Named(abs, d1, from, kf) && (Taken(abs, d2, to) ==> Named(abs, d2, to, kt))
    requires Renamed(abs, abs', kf, kt, d2, to, Taken(abs, d2, to), exchange)
    ensures MovedBetween(abs, abs', d1, from, d2, to, exchange)
  {
    hide Renamed, Taken;
  }

  method ExecMove(fs: Fs, d1: nat, from: seq<byte>, d2: nat, to: seq<byte>, exchange: bool, noReplace: bool, now: Ts)
    returns (reply: Reply)
    requires Runnable(fs) && d1 in fs.layout.dirs && d2 in fs.layout.dirs
    modifies fs
    ensures Runnable(fs) && old(EnvOf(fs)).Ok() && (old(SingleDirs(fs.layout)) ==> SingleDirs(fs.layout))
    ensures MoveStep(old(EnvOf(fs)), old(Abs(fs.vol, fs.layout)), Abs(fs.vol, fs.layout), reply, d1, from, d2, to,
                     exchange, noReplace)
  {
    hide Rep, Framed, InvBut, Abs, SingleDirs, NoEntry, NamesRemovable, Inv, NothingIn, Without, Names, Named,
         Renamable, Renamed, RenameStatus, NoneFree, Freed, Readable, Taken, MovedBetween, UniqueNames, FirstSpare,
         AllocSet, RoomyDirs, EnvOf, MoveStep;
    RunShape(fs);
    EnvParts(fs);
    ghost var v0, g0, env := fs.vol, fs.layout, EnvOf(fs);
    ghost var abs := Abs(v0, g0);
    TakenIsEntry(v0, g0, d1, from);
    TakenIsEntry(v0, g0, d2, to);
    var removable := CheckRemovable(fs, d2, to);
    var found, directory;
    ghost var k;
    found, directory, k := CheckName(fs, d2, to);
    var room := CheckRoom(fs, d2);
    if !ProperName(to) || (!exchange && !noReplace && !removable) || (!exchange && d1 != d2 && !found && !room) {
      NotMoved(env, abs, d1, from, d2, to, exchange, noReplace);
      return NotRun;
    }
    MovableIsRenamable(v0, g0, env, d1, d2, to, exchange, noReplace);
    var status;
    ghost var kf, kt;
    status, kf, kt := Rename(fs, d1, from, d2, to, exchange, noReplace, now);
    reply := Answer(status);
    NamesIsNamed(v0, g0, d1, from, kf);
    NamesIsNamed(v0, g0, d2, to, kt);
    NamedInTable(abs, d1, from);
    NamedInTable(abs, d2, to);
    MountedShape(fs);
    WithoutRunnable(g0, fs.layout,
                    if status == Success && !exchange && !NoEntry(v0, g0, d2, to) then {kt}
                    else if status == FileNotFound && !NoEntry(v0, g0, d1, from) then {kf} else {});
    if status == Success {
      MovedOne(abs, Abs(fs.vol, fs.layout), d1, from, d2, to, exchange, kf, kt);
    }
    Moved(env, abs, Abs(fs.vol, fs.layout), status, d1, from, d2, to, exchange, noReplace, kf);
  }

  lemma NotMoved(env: Env, abs: Table, d1: nat, from: seq<byte>, d2: nat, to: seq<byte>, exchange: bool,
      noReplace: bool)
    requires env.Ok() && (!ProperName(to) || !Movable(env, abs, d1, d2, to, exchange, noReplace))
    ensures MoveStep(env, abs, abs, NotRun, d1, from, d2, to, exchange, noReplace)
  {
    hide Movable;
  }

  lemma Moved(env: Env, abs: Table, abs': Table, status: Status, d1: nat, from: seq<byte>, d2: nat, to: seq<byte>,
      exchange: bool, noReplace: bool, kf: nat)
    requires env.Ok() && ProperName(to) && Movable(env, abs, d1, d2, to, exchange, noReplace)
    requires status == RenameStatus(!Taken(abs, d1, from), !Taken(abs, d2, to), env.free == 0,
                                    d1 == d2, from, to, exchange, noReplace)
    requires if status == Success then MovedBetween(abs, abs', d1, from, d2, to, exchange)
             else if status == FileNotFound && Taken(abs, d1, from) then Named(abs, d1, from, kf) && abs' == abs - {kf}
             else abs' == abs
    ensures MoveStep(env, abs, abs', Answer(status), d1, from, d2, to, exchange, noReplace)
  {
    hide Movable, Taken, MovedBetween, RenameStatus;
  }

  // A move whose target directory is still to be found.
  method ExecMoveTo(fs: Fs, d: nat, cmd: Command) returns (reply: Reply)
    requires Runnable(fs) && d in fs.layout.dirs && cmd.Move?
    modifies fs
    ensures Runnable(fs) && old(EnvOf(fs)).Ok() && (old(SingleDirs(fs.layout)) ==> SingleDirs(fs.layout))
    ensures StepIn(old(EnvOf(fs)), old(Abs(fs.vol, fs.layout)), Abs(fs.vol, fs.layout), reply, d, cmd)
  {
    hide Runnable, Abs, Leads, MoveStep, SingleDirs, EnvOf, StepIn;
    RunShape(fs);
    EnvParts(fs);
    ghost var env, abs := EnvOf(fs), Abs(fs.vol, fs.layout);
    var ok, d2 := OpenPath(fs, cmd.dir2);
    if !ok {
      NoMove(env, abs, d, cmd);
      return NotRun;
    }
    reply := ExecMove(fs, d, cmd.name, d2, cmd.name2, cmd.exchange, cmd.noReplace, cmd.now);
    MoveThere(env, abs, d, cmd, d2, Abs(fs.vol, fs.layout), reply);
  }

  lemma NoMove(env: Env, abs: Table, d: nat, cmd: Command)
    requires env.Ok() && cmd.Move? && forall e :: !Leads(abs, env.root, cmd.dir2, e)
    ensures StepIn(env, abs, abs, NotRun, d, cmd)
  {
    hide Leads, MoveStep;
  }

  lemma MoveThere(env: Env, abs: Table, d: nat, cmd: Command, d2: nat, abs': Table, reply: Reply)
    requires env.Ok() && cmd.Move? && Leads(abs, env.root, cmd.dir2, d2)
    requires MoveStep(env, abs, abs', reply, d, cmd.name, d2, cmd.name2, cmd.exchange, cmd.noReplace)
    ensures StepIn(env, abs, abs', reply, d, cmd)
  {
    hide Leads, MoveStep;
  }

  // A command about the contents of a file.
  method ExecOnFile(fs: Fs, d: nat, cmd: Command) returns (reply: Reply)
    requires Runnable(fs) && d in fs.layout.dirs && (cmd.ReadFrom? || cmd.WriteTo? || cmd.Resize?)
    modifies fs
    ensures Runnable(fs) && old(EnvOf(fs)).Ok() && (old(SingleDirs(fs.layout)) ==> SingleDirs(fs.layout))
    ensures StepIn(old(EnvOf(fs)), old(Abs(fs.vol, fs.layout)), Abs(fs.vol, fs.layout), reply, d, cmd)
  {
    hide Runnable, Abs, Leads, ReadStep, WriteStep, ResizeStep, SingleDirs, EnvOf, StepIn;
    RunShape(fs);
    ghost var env, abs := EnvOf(fs), Abs(fs.vol, fs.layout);
    if cmd.ReadFrom? {
      reply := ExecRead(fs, d, cmd.name, cmd.offset, cmd.size);
      FileCommand(env, abs, Abs(fs.vol, fs.layout), reply, d, cmd);
    } else if cmd.WriteTo? {
      reply := ExecWrite(fs, d, cmd.name, cmd.offset, cmd.data);
      FileCommand(env, abs, Abs(fs.vol, fs.layout), reply, d, cmd);
    } else {
      reply := ExecResize(fs, d, cmd.name, cmd.size);
      FileCommand(env, abs, Abs(fs.vol, fs.layout), reply, d, cmd);
    }
  }

  lemma FileCommand(env: Env, abs: Table, abs': Table, reply: Reply, d: nat, cmd: Command)
    requires env.Ok() && (cmd.ReadFrom? || cmd.WriteTo? || cmd.Resize?)
    requires cmd.ReadFrom? ==> ReadStep(abs, abs', reply, d, cmd.name, cmd.offset, cmd.size)
    requires cmd.WriteTo? ==> WriteStep(env, abs, abs', reply, d, cmd.name, cmd.offset, cmd.data)
    requires cmd.Resize? ==> ResizeStep(env, abs, abs', reply, d, cmd.name, cmd.size)
    ensures StepIn(env, abs, abs', reply, d, cmd)
  {
    hide ReadStep, WriteStep, ResizeStep, Leads, MoveStep;
  }

  // A command in the directory that it names.
  method ExecIn(fs: Fs, d: nat, cmd: Command) returns (reply: Reply)
    requires Runnable(fs) && d in fs.layout.dirs
    modifies fs
    ensures Runnable(fs) && old(EnvOf(fs)).Ok() && (old(SingleDirs(fs.layout)) ==> SingleDirs(fs.layout))
    ensures StepIn(old(EnvOf(fs)), old(Abs(fs.vol, fs.layout)), Abs(fs.vol, fs.layout), reply, d, cmd)
  {
    hide Runnable, Abs, Leads, MakeStep, RemoveStep, RemoveDirStep, SingleDirs, EnvOf, StepIn;
    RunShape(fs);
    ghost var env, abs := EnvOf(fs), Abs(fs.vol, fs.layout);
    if cmd.MakeFile? || cmd.MakeDir? {
      reply := ExecMake(fs, d, cmd.name, cmd.MakeDir?, cmd.now);
      EntryCommand(env, abs, Abs(fs.vol, fs.layout), reply, d, cmd);
    } else if cmd.Remove? {
      reply := ExecRemove(fs, d, cmd.name);
      EntryCommand(env, abs, Abs(fs.vol, fs.layout), reply, d, cmd);
    } else if cmd.RemoveDir? {
      reply := ExecRemoveDir(fs, d, cmd.name);
      EntryCommand(env, abs, Abs(fs.vol, fs.layout), reply, d, cmd);
    } else if cmd.Move? {
      reply := ExecMoveTo(fs, d, cmd);
    } else {
      reply := ExecOnFile(fs, d, cmd);
    }
  }

  lemma EntryCommand(env: Env, abs: Table, abs': Table, reply: Reply, d: nat, cmd: Command)
    requires env.Ok() && (cmd.MakeFile? || cmd.MakeDir? || cmd.Remove? || cmd.RemoveDir?)
    requires cmd.MakeFile? || cmd.MakeDir? ==>
               MakeStep(env, abs, abs', reply, d, cmd.name, if cmd.MakeDir? then ATTR_DIRECTORY else 0, cmd.now)
    requires cmd.Remove? ==> RemoveStep(abs, abs', reply, d, cmd.name)
    requires cmd.RemoveDir? ==> RemoveDirStep(abs, abs', reply, d, cmd.name)
    ensures StepIn(env, abs, abs', reply, d, cmd)
  {
    hide MakeStep, RemoveStep, RemoveDirStep, Leads, MoveStep;
  }

  // One command, with the checks that its caller owes: handles of directories that are
  // there, proper names, a slot for a new entry, files where files are due, nothing lost
  // with a replaced or removed directory, non-empty writes, sizes below 4 GiB.  It is
  // exactly a step of the machine.
  method Execute(fs: Fs, cmd: Command) returns (reply: Reply)
    requires Runnable(fs)
    modifies fs
    ensures Runnable(fs) && old(EnvOf(fs)).Ok() && (old(SingleDirs(fs.layout)) ==> SingleDirs(fs.layout))
    ensures Step(old(EnvOf(fs)), old(Abs(fs.vol, fs.layout)), cmd, Abs(fs.vol, fs.layout), reply)
    // and no cluster is lost: those that can be allocated and the chains stay as many
    ensures |AllocSet(fs.vol)| + TotalLength(fs.layout.chains)
            == old(|AllocSet(fs.vol)| + TotalLength(fs.layout.chains))
  {
    hide Runnable, Abs, Leads, StepIn, Step, SingleDirs, EnvOf, AllocSet, TotalLength;
    RunShape(fs);
    AllClusters(fs);
    ghost var env, abs := EnvOf(fs), Abs(fs.vol, fs.layout);
    EnvParts(fs);
    var ok, d := OpenPath(fs, cmd.dir);
    if !ok {
      NoStep(env, abs, cmd);
      AllClusters(fs);
      return NotRun;
    }
    reply := ExecIn(fs, d, cmd);
    StepThere(env, abs, cmd, d, Abs(fs.vol, fs.layout), reply);
    AllClusters(fs);
  }

  lemma AllClusters(fs: Fs)
    requires Runnable(fs)
    ensures |AllocSet(fs.vol)| + TotalLength(fs.layout.chains) + (if fs.geo.rootCluster == 1 then 1 else 2)
            == fs.geo.numClusters
  {
    hide Rep, Framed, Inv, AllocSet, TotalLength, FirstSpare;
    RunShape(fs);
    AllocConserved(fs.vol, fs.layout);
  }

  lemma NoStep(env: Env, abs: Table, cmd: Command)
    requires env.Ok() && forall d :: !Leads(abs, env.root, cmd.dir, d)
    ensures Step(env, abs, cmd, abs, NotRun)
  {
    hide Leads, StepIn;
  }

  lemma StepThere(env: Env, abs: Table, cmd: Command, d: nat, abs': Table, reply: Reply)
    requires env.Ok() && Leads(abs, env.root, cmd.dir, d) && StepIn(env, abs, abs', reply, d, cmd)
    ensures Step(env, abs, cmd, abs', reply)
  {
    hide Leads, StepIn;
  }

  // ---- runs ----

  // trace and replies are a run of the machine on script, envs saying what space there was.
  ghost predicate RunOf(envs: seq<Env>, script: seq<Command>, trace: seq<Table>, replies: seq<Reply>) {
    && |envs| == |trace| == |replies| + 1 && |replies| <= |script|
    && (forall i :: 0 <= i < |envs| ==> envs[i].Ok() && SameFs(envs[0], envs[i]))
    && forall i :: 0 <= i < |replies| ==> Step(envs[i], trace[i], script[i], trace[i + 1], replies[i])
  }

  // The space follows from the tables.
  ghost predicate NativeRun(envs: seq<Env>, trace: seq<Table>) {
    |envs| == |trace| && forall i :: 0 <= i < |envs| ==> envs[i].Ok() && Native(envs[i], trace[i])
  }

  lemma InvProper(v: Volume, g: Layout)
    requires Inv(v, g)
    ensures ProperTable(Abs(v, g))
  {
    hide InvBut, Abs, UniqueNames, Sized;
    InvUnique(v, g);
    forall k | k in Abs(v, g) && !Abs(v, g)[k].attr.IsDirectory() ensures Sized(Abs(v, g)[k]) {
      NodeSized(v, g, k);
    }
  }

  // Names are unique, sizes fit, and chains are whole clusters.
  ghost predicate WellMade(trace: seq<Table>, b: nat)
    requires b > 0
  {
    forall i :: 0 <= i < |trace| ==> ProperTable(trace[i]) && AllWhole(trace[i], b)
  }

  lemma InvWhole(v: Volume, g: Layout)
    requires Inv(v, g) && v.bpc > 0
    ensures AllWhole(Abs(v, g), v.bpc)
  {
    hide InvBut, Abs, Holds, Times;
    forall k | k in Abs(v, g) && !Abs(v, g)[k].attr.IsDirectory()
      ensures |Abs(v, g)[k].bytes| == Times(Holds(Abs(v, g)[k], v.bpc), v.bpc)
    {
      HoldsChain(v, g, k);
      NodeSized(v, g, k);
    }
  }

  lemma WellMadeMore(trace: seq<Table>, abs: Table, b: nat)
    requires b > 0 && WellMade(trace, b) && ProperTable(abs) && AllWhole(abs, b)
    ensures WellMade(trace + [abs], b)
  {
    hide ProperTable, AllWhole;
  }

  lemma RunGrows(envs: seq<Env>, script: seq<Command>, trace: seq<Table>, replies: seq<Reply>, env: Env, abs: Table,
      reply: Reply)
    requires RunOf(envs, script, trace, replies) && |replies| < |script|
    requires env.Ok() && SameFs(envs[0], env)
    requires Step(envs[|replies|], trace[|replies|], script[|replies|], abs, reply)
    ensures RunOf(envs + [env], script, trace + [abs], replies + [reply])
    ensures NativeRun(envs, trace) && Native(env, abs) ==> NativeRun(envs + [env], trace + [abs])
  {
    hide Step, Native;
  }

  // Every script of commands is executed as the machine does it, from the first to the
  // last, full or not: the same tables one after the other, the same answers and the same
  // bytes read; the volume stays mounted.  Where all directories have one cluster, the
  // space is always what the table leaves.
  method Run(fs: Fs, script: seq<Command>)
    returns (replies: seq<Reply>, ghost trace: seq<Table>, ghost envs: seq<Env>)
    requires Runnable(fs)
    modifies fs
    ensures Runnable(fs) && |replies| == |script| && RunOf(envs, script, trace, replies)
    ensures trace[0] == old(Abs(fs.vol, fs.layout)) && trace[|script|] == Abs(fs.vol, fs.layout)
    ensures envs[0] == old(EnvOf(fs)) && envs[|script|] == EnvOf(fs)
    ensures fs.geo.bytesPerCluster > 0 && WellMade(trace, fs.geo.bytesPerCluster)
    ensures old(SingleDirs(fs.layout)) ==> SingleDirs(fs.layout) && NativeRun(envs, trace)
  {
    hide Rep, Framed, InvBut, Abs, Step, SingleDirs, RunOf, NativeRun, ProperTable, FirstSpare, AllocSet, RoomyDirs,
         Native, AllWhole, WellMade;
    replies := [];
    trace, envs := [Abs(fs.vol, fs.layout)], [EnvOf(fs)];
    RunShape(fs);
    if SingleDirs(fs.layout) { SingleIsNative(fs); }
    RunStarts(EnvOf(fs), script, Abs(fs.vol, fs.layout));
    EnvParts(fs);
    InvProper(fs.vol, fs.layout);
    InvWhole(fs.vol, fs.layout);
    WellMadeFirst(Abs(fs.vol, fs.layout), fs.geo.bytesPerCluster);
    while |replies| < |script|
      invariant Runnable(fs) && |replies| <= |script| && |trace| == |envs| == |replies| + 1
      invariant RunOf(envs, script, trace, replies)
      invariant trace[0] == old(Abs(fs.vol, fs.layout)) && trace[|replies|] == Abs(fs.vol, fs.layout)
      invariant envs[0] == old(EnvOf(fs)) && envs[|replies|] == EnvOf(fs) && EnvOf(fs).Ok()
      invariant fs.geo.bytesPerCluster > 0 && WellMade(trace, fs.geo.bytesPerCluster)
      invariant old(SingleDirs(fs.layout)) ==> SingleDirs(fs.layout) && NativeRun(envs, trace)
      decreases |script| - |replies|
    {
      var reply := Execute(fs, script[|replies|]);
      RunShape(fs);
      if SingleDirs(fs.layout) { SingleIsNative(fs); }
      RunGrows(envs, script, trace, replies, EnvOf(fs), Abs(fs.vol, fs.layout), reply);
      InvProper(fs.vol, fs.layout);
      InvWhole(fs.vol, fs.layout);
      WellMadeMore(trace, Abs(fs.vol, fs.layout), fs.geo.bytesPerCluster);
      trace, envs := trace + [Abs(fs.vol, fs.layout)], envs + [EnvOf(fs)];
      replies := replies + [reply];
    }
  }

  lemma WellMadeFirst(abs: Table, b: nat)
    requires b > 0 && ProperTable(abs) && AllWhole(abs, b)
    ensures WellMade([abs], b)
  {
    hide ProperTable, AllWhole;
  }

  lemma RunStarts(env: Env, script: seq<Command>, abs: Table)
    requires env.Ok()
    ensures RunOf([env], script, [abs], [])
    ensures Native(env, abs) ==> NativeRun([env], [abs])
  {
    hide Native;
  }

  // As long as no command runs out of space every chain is as long as its file needs.
  lemma {:induction false} RunKeepsTight(envs: seq<Env>, script: seq<Command>, trace: seq<Table>, replies: seq<Reply>,
      i: nat)
    requires RunOf(envs, script, trace, replies) && i < |trace| && envs[0].b > 0 && AllTight(trace[0], envs[0].b)
    requires WellMade(trace, envs[0].b)
    requires forall j :: 0 <= j < i ==> !RanOut(script[j], replies[j])
    ensures AllTight(trace[i], envs[0].b)
  {
    hide Step, AllTight, ProperTable, RanOut;
    if i > 0 {
      RunKeepsTight(envs, script, trace, replies, i - 1);
      StepKeepsTight(envs[i - 1], trace[i - 1], script[i - 1], trace[i], replies[i - 1]);
    }
  }

  // As long as no directory is moved below itself everything stays reachable.
  lemma {:induction false} RunKeepsRooted(envs: seq<Env>, script: seq<Command>, trace: seq<Table>, replies: seq<Reply>,
      i: nat)
    requires RunOf(envs, script, trace, replies) && i < |trace| && Rooted(trace[0], envs[0].root)
    requires envs[0].b > 0 && WellMade(trace, envs[0].b)
    requires forall j :: 0 <= j < i ==> !DetachingMove(trace[j], envs[0].root, script[j])
    ensures Rooted(trace[i], envs[0].root)
  {
    hide Step, Rooted, UniqueNames, DetachingMove;
    if i > 0 {
      RunKeepsRooted(envs, script, trace, replies, i - 1);
      StepKeepsRooted(envs[i - 1], trace[i - 1], script[i - 1], trace[i], replies[i - 1]);
    }
  }

  // No command of the run leaves data behind the end of a file.
  ghost predicate Unspoiled(envs: seq<Env>, script: seq<Command>, trace: seq<Table>, i: nat) {
    && i <= |envs| && i <= |script| && i <= |trace|
    && forall j :: 0 <= j < i ==> envs[j].Ok() && !Spoils(envs[j], trace[j], script[j])
  }

  // As long as none does, the slack of all files stays zero.
  lemma {:induction false} RunKeepsSlack(envs: seq<Env>, script: seq<Command>, trace: seq<Table>, replies: seq<Reply>,
      i: nat)
    requires RunOf(envs, script, trace, replies) && i < |trace| && AllClean(trace[0])
    requires envs[0].b > 0 && WellMade(trace, envs[0].b) && Unspoiled(envs, script, trace, i)
    ensures AllClean(trace[i])
  {
    hide Step, AllClean, AllWhole, ProperTable, Spoils;
    if i > 0 {
      RunKeepsSlack(envs, script, trace, replies, i - 1);
      StepKeepsSlack(envs[i - 1], trace[i - 1], script[i - 1], trace[i], replies[i - 1]);
    }
  }

  // And every command that does not run out of space does to the contents what one expects:
  // writes lay their data over them, truncations cut them or pad them with zeros.
  lemma RunContents(envs: seq<Env>, script: seq<Command>, trace: seq<Table>, replies: seq<Reply>, i: nat)
    requires RunOf(envs, script, trace, replies) && i < |replies| && AllClean(trace[0])
    requires envs[0].b > 0 && WellMade(trace, envs[0].b) && Unspoiled(envs, script, trace, i)
    requires !RanOut(script[i], replies[i])
    ensures ContentStep(envs[i], trace[i], script[i], trace[i + 1], replies[i])
  {
    hide Step, AllClean, AllWhole, Unspoiled, ContentStep, RanOut;
    RunKeepsSlack(envs, script, trace, replies, i);
    StepContents(envs[i], trace[i], script[i], trace[i + 1], replies[i]);
  }

  // From formatting on: the run starts with the empty table, and the space is always what
  // the table leaves.  Where nothing ran out of space, the free clusters are all but number
  // 0, number 1 if it is not the root's, one for each directory, the root included, and
  // max(1, ceil(size / bytesPerCluster)) for each file.  Where no directory was moved below
  // itself, everything can be reached from the root.  Where nothing left data behind the
  // end of a file, commands do to the contents what one expects.  And of the device only
  // the superblock, the FAT and the clusters have changed.
  method FormatAndRun(device: seq<byte>, offset: nat, size: nat, sectorSize: nat, sectorsPerCluster: u32, id: u32,
      hint: nat, script: seq<Command>)
    returns (ok: bool, fs: Fs?, ghost sb: Superblock, replies: seq<Reply>, ghost trace: seq<Table>,
             ghost envs: seq<Env>)
    requires Formattable(device, offset, size, sectorSize, sectorsPerCluster, id, hint)
    requires RootReady(device, offset, size, sectorSize, sectorsPerCluster, id)
    ensures ok <==> Opens(device, offset, size, sectorSize, sectorsPerCluster, Auto, id)
    ensures ok ==>
              && fs != null && fresh(fs) && Runnable(fs) && SingleDirs(fs.layout) && SectorSizeOk(sectorSize)
              && ChosenSize(|device|, offset, size, sectorSize).Some? && fs.geo.partitionOffset == offset
              && ChosenSuperblock(device, offset, Auto, sectorsPerCluster, id) == Some((fs.variant, sb))
              && PartitionOf(fs, ChosenSize(|device|, offset, size, sectorSize).value, sectorSize, sb)
    ensures ok ==>
              && |replies| == |script| && RunOf(envs, script, trace, replies) && NativeRun(envs, trace)
              && trace[0] == map[] && trace[|script|] == Abs(fs.vol, fs.layout) && envs[|script|] == EnvOf(fs)
    ensures ok && (forall j :: 0 <= j < |script| ==> !RanOut(script[j], replies[j])) ==>
              |AllocSet(fs.vol)| + TotalNeed(Abs(fs.vol, fs.layout), fs.geo.bytesPerCluster)
                + (if fs.geo.rootCluster == 1 then 2 else 3) == fs.geo.numClusters
    ensures ok && |trace| == |script| + 1
            && (forall j :: 0 <= j < |script| ==> !DetachingMove(trace[j], fs.geo.rootCluster, script[j])) ==>
              Rooted(Abs(fs.vol, fs.layout), fs.geo.rootCluster)
    ensures ok && |envs| == |trace| == |script| + 1 && Unspoiled(envs, script, trace, |script|) ==>
              forall i :: 0 <= i < |script| && !RanOut(script[i], replies[i]) ==>
                ContentStep(envs[i], trace[i], script[i], trace[i + 1], replies[i])
    ensures ok ==>
              && |fs.disk| == |device|
              && forall i :: 0 <= i < |device| && (i < offset || fs.geo.ClustersEnd() <= i) ==> fs.disk[i] == device[i]
  {
    hide Rep, InvBut, Abs, VolumeOf, RunOf, AllTight, Rooted, DetachingMove, RanOut, ProperTable, TotalNeed, Inv,
         SingleDirs, Formattable, ChosenSuperblock, SuperblockBytes, PartitionOf, Accepted, ChosenSize, NativeRun,
         Elsewhere, ReadyRoot, AllocSet, RoomyDirs, FirstSpare, WellMade, Unspoiled, ContentStep, AllClean;
    replies, trace, envs := [], [], [];
    ok, fs, sb := FormatPartition(device, offset, size, sectorSize, sectorsPerCluster, id, hint);
    if !ok {
      return;
    }
    ReadyThere(fs, device, offset, size, sectorSize, sectorsPerCluster, id, sb);
    EmptySpare(fs.layout);
    RunShape(fs);
    EmptyTable(EnvOf(fs));
    replies, trace, envs := Run(fs, script);
    RunEnds(envs, script, trace, replies);
    OutsideSame(fs, device);
    if forall j :: 0 <= j < |script| ==> !RanOut(script[j], replies[j]) {
      RunKeepsTight(envs, script, trace, replies, |script|);
      NativeEnd(envs, trace);
      TightFree(EnvOf(fs), trace[|script|]);
    }
    if forall j :: 0 <= j < |script| ==> !DetachingMove(trace[j], fs.geo.rootCluster, script[j]) {
      RunKeepsRooted(envs, script, trace, replies, |script|);
    }
    if Unspoiled(envs, script, trace, |script|) {
      forall i | 0 <= i < |script| && !RanOut(script[i], replies[i])
        ensures ContentStep(envs[i], trace[i], script[i], trace[i + 1], replies[i])
      {
        UnspoiledBefore(envs, script, trace, |script|, i);
        RunContents(envs, script, trace, replies, i);
      }
    }
  }

  lemma UnspoiledBefore(envs: seq<Env>, script: seq<Command>, trace: seq<Table>, i: nat, j: nat)
    requires Unspoiled(envs, script, trace, i) && j <= i
    ensures Unspoiled(envs, script, trace, j)
  {
    hide Spoils;
  }

  lemma ReadyThere(fs: Fs, device: seq<byte>, offset: nat, size: nat, sectorSize: nat, sectorsPerCluster: u32, id: u32,
      sb: Superblock)
    requires SectorSizeOk(sectorSize) && ChosenSize(|device|, offset, size, sectorSize).Some?
    requires ChosenSuperblock(device, offset, Auto, sectorsPerCluster, id) == Some((fs.variant, sb))
    requires PartitionOf(fs, ChosenSize(|device|, offset, size, sectorSize).value, sectorSize, sb)
    requires fs.geo.partitionOffset == offset && RootReady(device, offset, size, sectorSize, sectorsPerCluster, id)
    ensures ReadyRoot(VolumeOf(fs.geo, fs.variant, device), fs.geo.rootCluster)
  {
    hide ReadyRoot, VolumeOf, ChosenSuperblock, ChosenSize, Carries, LibGeometry;
  }

  lemma EmptySpare(g: Layout)
    requires exists e :: g == EmptyLayout(g.root, e)
    ensures FirstSpare(g) && SingleDirs(g)
  {
  }

  // Before the superblock and behind the clusters the device is as it was.
  lemma OutsideSame(fs: Fs, device: seq<byte>)
    requires fs.Mounted() && fs.geo.partitionOffset + SUPERBLOCK_SIZE <= |device|
    requires Elsewhere(device, fs.origin, fs.geo.partitionOffset)
    ensures |fs.disk| == |device|
    ensures forall i :: 0 <= i < |device| && (i < fs.geo.partitionOffset || fs.geo.ClustersEnd() <= i) ==>
            fs.disk[i] == device[i]
  {
    hide Rep, Inv, Times;
    fs.Bounds();
    TimesStep(0, fs.geo.bytesPerCluster);
    InsideClusters(fs.geo, 1);
  }

  lemma RunEnds(envs: seq<Env>, script: seq<Command>, trace: seq<Table>, replies: seq<Reply>)
    requires RunOf(envs, script, trace, replies)
    ensures |envs| == |trace| == |replies| + 1 && SameFs(envs[0], envs[|replies|]) && envs[|replies|].Ok()
  {
    hide Step;
  }

  lemma NativeEnd(envs: seq<Env>, trace: seq<Table>)
    requires NativeRun(envs, trace) && |trace| > 0
    ensures envs[|trace| - 1].Ok() && Native(envs[|trace| - 1], trace[|trace| - 1])
  {
    hide Native;
  }

  lemma EmptyTable(env: Env)
    requires env.Ok()
    ensures AllTight(map[], env.b) && Rooted(map[], env.root) && AllClean(map[])
  {
  }
}
