// Inputs on which the code does what one would not expect: for each exact condition that is
// proved elsewhere, a case in which it fails.

module Witnesses {
  import opened Bytes
  import opened Endian
  import opened Codec
  import opened Geometry
  import opened Volumes
  import opened Streams
  import opened Layouts
  import opened Entries
  import opened FatxFs
  import opened Dirs
  import opened FileOps
  import opened Contents
  import opened Spaces
  import opened Rooms
  import opened Relayouts
  import opened Overflows
  import opened Renames
  import opened Partitions
  import opened Superblocks
  import opened Formats
  import opened Machine
  import opened Trees
  import opened Runs

  const EPOCH := Ts(2000, 1, 1, 0, 0, 0)

  function FileNode(d: nat, name: seq<byte>, first: nat, size: nat, bytes: seq<byte>): Node {
    Node(d, Attr(name, 0, first, size, EPOCH, EPOCH, EPOCH), bytes)
  }

  function DirNode(d: nat, name: seq<byte>, first: nat): Node {
    Node(d, Attr(name, ATTR_DIRECTORY, first, 0, EPOCH, EPOCH, EPOCH), [])
  }

  // ---- partitions ----

  // 32767.8 KiB in clusters of 16 KiB: 2047 of them, and a table of 2048 entries that fills
  // its page.  The library accepts an index that has no entry.
  lemma UnsoundPartition(geo: Geometry)
    requires CutUp(geo, 0, 33546240, 16384, 1, Capacity(33546240, 16384) + RESERVED_ENTRIES)
    ensures Accepted(0, 33546240, 512, 32, 1) && BytesPerCluster(32, 512) == 16384
    ensures LargeEnough(geo, 2048) && geo.numClusters == 2048 && PageExact(geo, 2048)
    ensures geo.EntryOffset(geo.numClusters + 1) > geo.fatSize && !geo.Sound()
  {
    hide Times;
    assert Capacity(33546240, 16384) == 2047;
    assert geo.fatSize == 4096;
  }

  // 32 MiB in clusters of 16 KiB: 2048 entries for the Rust reader, 2049 for libfatx, which
  // therefore has its clusters one page further on.
  lemma LayoutsDiffer(lib: Geometry, rust: Geometry)
    requires CutUp(lib, 0, 2048 * 16384, 16384, 1, Capacity(2048 * 16384, 16384) + RESERVED_ENTRIES)
    requires CutUp(rust, 0, 2048 * 16384, 16384, 1, Capacity(2048 * 16384, 16384) % 0x1_0000_0000)
    ensures lib.clusterOffset == rust.clusterOffset + 4096 && lib != rust
            && !BothAlike(lib, 2048 * 16384, 512, Superblock(0, 32, 1))
  {
    assert Capacity(2048 * 16384, 16384) == 2048;
    assert lib.fatSize == 8192 && rust.fatSize == 4096;
  }

  // 0xffef clusters: 16-bit entries for the Rust reader, 32-bit ones for libfatx.
  lemma WidthsDiffer(lib: Geometry, rust: Geometry)
    requires CutUp(lib, 0, 0xffef * 16384, 16384, 1, Capacity(0xffef * 16384, 16384) + RESERVED_ENTRIES)
    requires CutUp(rust, 0, 0xffef * 16384, 16384, 1, Capacity(0xffef * 16384, 16384) % 0x1_0000_0000)
    ensures lib.fat32 && !rust.fat32
  {
    assert Capacity(0xffef * 16384, 16384) == 0xffef;
  }

  // A hint left behind by a larger file system is never probed again.
  lemma HintOutside()
    ensures forall k: nat :: k > 0 ==> Volumes.Probed(5, 9, k) != 9
  {
    SearchEndsIff(5, 9);
  }

  // ---- files ----

  // Two bytes written, one cut off, the file grown again: the byte is back.
  lemma SlackComesBack()
    ensures var n := FileNode(1, [65], 2, 2, [7, 7] + Zeros(510));
      var cut := TruncatedNode(n, 1, 512);
      && Sized(n) && SlackZero(n) && !SlackZero(cut)
      && Content(TruncatedNode(cut, 2, 512)) == [7, 7] != Fit(Content(cut), 2)
      && Content(WrittenNode(cut, 2, [9], 512)) == [7, 7, 9] != Overlay(Content(cut), 2, [9])
  {
    var n := FileNode(1, [65], 2, 2, [7, 7] + Zeros(510));
    OneCluster(1);
    OneCluster(2);
    OneCluster(3);
    var cut := TruncatedNode(n, 1, 512);
    assert cut.bytes == n.bytes && cut.attr.size == 1;
    assert cut.bytes[1] == 7;
    var grown := TruncatedNode(cut, 2, 512);
    assert grown.bytes == n.bytes;
    assert Content(grown) == [7, 7];
    assert Fit(Content(cut), 2)[1] == 0;
    var gap := TruncatedNode(cut, 3, 512);
    assert gap.bytes == n.bytes && gap.attr.size == 3;
    var w := WrittenNode(cut, 2, [9], 512);
    assert Content(w) == [7, 7, 9];
    assert Overlay(Content(cut), 2, [9])[1] == 0;
  }

  lemma OneCluster(size: nat)
    requires size <= 512
    ensures Times(ClustersFor(size, 512), 512) == 512
  {
    TimesStep(0, 512);
    ClustersForUnique(size, 512, 1);
  }

  // An empty write behind the end makes the file longer.
  lemma EmptyWriteGrows()
    ensures var n := FileNode(1, [65], 2, 0, Zeros(512));
      Sized(n) && SlackZero(n) && |Content(WrittenNode(n, 4, [], 512))| == 5 && Overlay(Content(n), 4, []) == []
  {
    OneCluster(0);
    OneCluster(5);
  }

  // An empty write at the end of a file that fills its cluster takes another cluster.
  lemma EmptyWriteTakesCluster()
    ensures var n := FileNode(1, [65], 2, 512, Zeros(512)); var w := WrittenNode(n, 512, [], 512);
      Sized(n) && Tight(n, 512) && Content(w) == Content(n) && |w.bytes| == 1024 && !Tight(w, 512)
  {
    OneCluster(512);
    TimesStep(0, 512);
    TimesStep(1, 512);
    ClustersForUnique(513, 512, 2);
    var n := FileNode(1, [65], 2, 512, Zeros(512));
    var w := WrittenNode(n, 512, [], 512);
    assert Content(w) == Content(n);
  }

  // ---- renaming ----

  // Renaming a file to itself removes it.
  lemma SelfRenameRemoves(env: Env, abs: Table, name: seq<byte>, k: nat, now: Ts)
    requires env.Ok() && ProperTable(abs) && Named(abs, env.root, name, k) && NothingIn(abs, k)
    requires ProperName(name) && |name| < MAX_NAME
    ensures Step(env, abs, Move([], name, [], name, false, false, now), abs - {k}, Answer(FileNotFound)) && k in abs
  {
    hide NothingIn;
    LeadsNowhere(abs, env.root);
    OneName(abs, env.root, name, k);
    var cmd := Move([], name, [], name, false, false, now);
    assert MoveStep(env, abs, abs - {k}, Answer(FileNotFound), env.root, name, env.root, name, false, false);
    assert StepIn(env, abs, abs - {k}, Answer(FileNotFound), env.root, cmd);
  }

  // A directory alone in the root directory, and what moving it into itself leaves.
  const ALONE: Table := map[2 := DirNode(1, [65], 2)]
  const DETACHED: Table := map[2 := DirNode(2, [66], 2)]
  const INTO_ITSELF := Move([], [65], [[65]], [66], false, false, EPOCH)

  // Moving a directory into itself detaches it.
  lemma MovedIntoItself()
    ensures var env := Env(Xbox, 512, 10, 1, 7, {1, 2});
      && env.Ok() && Native(env, ALONE) && ProperTable(ALONE) && Rooted(ALONE, 1)
      && Step(env, ALONE, INTO_ITSELF, DETACHED, Answer(Success)) && !Rooted(DETACHED, 1)
  {
    hide Rooted, Step, Leads, ProperTable, Native;
    var env := Env(Xbox, 512, 10, 1, 7, {1, 2});
    OneDirectory();
    AloneIsNative();
    MovedIn(env);
    StepKeepsRooted(env, ALONE, INTO_ITSELF, DETACHED, Answer(Success));
    assert DetachingMove(ALONE, 1, INTO_ITSELF) by {
      LeadsIn();
      DetachesItself();
      assert Leads(ALONE, 1, [], 1);
    }
  }

  lemma OneDirectory()
    ensures ProperTable(ALONE) && Rooted(ALONE, 1) && UniqueNames(ALONE)
  {
    UnderSelf(ALONE, 1);
  }

  lemma LeadsIn()
    ensures Leads(ALONE, 1, [], 1) && Leads(ALONE, 1, [[65]], 2)
  {
    LeadsNowhere(ALONE, 1);
    LeadsNowhere(ALONE, 2);
    assert Named(ALONE, 1, [65], 2);
    assert [[65 as byte]][1..] == [];
  }

  lemma DetachesItself()
    ensures Detaches(ALONE, 1, [65], 2, [66], false)
  {
    UnderSelf(ALONE, 2);
    assert Named(ALONE, 1, [65], 2);
  }

  lemma MovedIn(env: Env)
    requires env == Env(Xbox, 512, 10, 1, 7, {1, 2})
    ensures Step(env, ALONE, INTO_ITSELF, DETACHED, Answer(Success))
  {
    hide Leads, Used;
    LeadsIn();
    assert Named(ALONE, 1, [65], 2);
    assert DETACHED == ALONE[2 := MovedTo(ALONE[2], 2, [66])];
    assert Renamed(ALONE, DETACHED, 2, 0, 2, [66], false, false);
    assert MoveStep(env, ALONE, DETACHED, Answer(Success), 1, [65], 2, [66], false, false);
    assert StepIn(env, ALONE, DETACHED, Answer(Success), 1, INTO_ITSELF);
  }

  lemma AloneIsNative()
    ensures Native(Env(Xbox, 512, 10, 1, 7, {1, 2}), ALONE)
  {
    hide Holds;
    UsedWithout(ALONE, 2, 512);
    assert ALONE - {2} == map[];
    assert Used(map[], 512) == 0 by { NothingUsed(); }
    assert Holds(ALONE[2], 512) == 1 by { DirectoryHolds(ALONE[2], 512); }
    assert Children(ALONE, 2) == {};
    assert Children(ALONE, 1) == {2};
  }

  lemma NothingUsed()
    ensures Used(map[], 512) == 0
  {
  }

  // ---- directories ----

  const ROOT := 1

  // A volume of 512-byte clusters as libfatx makes them.
  ghost predicate Made(v: Volume, g: Layout) {
    && Inv(v, g) && SingleDirs(g) && g.root == ROOT && |v.fat| == |v.clusters| + 1 && |v.clusters| < WORD
    && v.bpc == 512 && v.variant == Xbox
  }

  ghost predicate AddedTo(g: Layout, g': Layout, d: nat, c: nat, attributes: byte) {
    && g'.dirs.Keys == g.dirs.Keys + (if attributes / 16 % 2 == 1 then {c} else {})
    && c in g'.owner && g'.owner[c].dir == d
  }

  lemma FreeIsNew(v: Volume, g: Layout, c: nat)
    requires Inv(v, g) && v.InRange(c) && v.fat[c] == Available
    ensures c !in Abs(v, g) && c !in g.owner && c !in g.chains
  {
    hide InvBut;
    FreshCluster(v, g, c);
  }

  // A file or directory more, in a directory that has room.
  lemma AddOne(v: Volume, g: Layout, d: nat, name: seq<byte>, attributes: byte)
    returns (v': Volume, g': Layout, c: nat)
    requires Made(v, g) && d in g.dirs && GoodName(name)
    requires Room(Abs(v, g), d, 512) && !Taken(Abs(v, g), d, name) && |AllocSet(v)| > 0
    ensures Made(v', g') && |v'.clusters| == |v.clusters| && c !in Abs(v, g) && c >= 2
            && |AllocSet(v')| == |AllocSet(v)| - 1
    ensures Abs(v', g') == Abs(v, g)[c := NewNode(Xbox, d, NewAttr(name, attributes, c, EPOCH), 512)]
    ensures AddedTo(g, g', d, c, attributes)
  {
    hide AttrOf, SlotAt, InvBut, Inv, Abs, RoomFor, ScanStops, CreatedVolume, Readable, StopAt, NoEntry, Taken, Room,
         NewNode;
    InvIsInvBut(v, g, {});
    var t := StopInDir(v, g, d);
    var p := Place(d, t.k, t.e);
    RoomIsRoom(v, g, p, 512);
    TakenIsEntry(v, g, d, name);
    var taken: int :| taken in AllocSet(v);
    c := taken;
    var a := NewAttr(name, attributes, c, EPOCH);
    WfBound(v, g);
    FreeIsNew(v, g, c);
    g' := CreatedKeepsInv(v, g, p, c, a);
    v' := CreatedVolume(v, g, p, c, a);
    CreatedFat(v, g, p, c, a);
    GrewRunnable(v, g, g', p, c, a.IsDirectory());
    assert AllocSet(v') == AllocSet(v) - {c};
  }

  // A blank table and that many clusters of 512 bytes x.
  function Blank(n: nat, x: byte): Volume {
    Volume(512, Xbox, seq(n + 1, _ => Available), seq(n, _ => Repeated(x)))
  }

  function Repeated(x: byte): (s: seq<byte>)
    ensures |s| == 512
  {
    seq(512, _ => x)
  }

  lemma BlankIsProper(n: nat, x: byte)
    requires n >= 3
    ensures var v := Blank(n, x); v.Wf() && v.InRange(1) && forall i :: 0 <= i < |v.fat| ==> v.fat[i] == Available
  {
  }

  lemma MadeEmpty(n: nat) returns (g: Layout)
    requires 3 <= n < WORD
    ensures var v := EmptyVolume(Blank(n, 0), ROOT);
      Made(v, g) && Abs(v, g) == map[] && |AllocSet(v)| == n - 2 && ROOT in g.dirs
  {
    hide InvBut, Abs;
    BlankIsProper(n, 0);
    var e := EmptyIsInv(Blank(n, 0), ROOT);
    var v := EmptyVolume(Blank(n, 0), ROOT);
    g := EmptyLayout(ROOT, e);
    RootIsDir(v, g);
    FreeIsFree(v, g, 512);
  }

  predicate LetterBelow(name: seq<byte>, k: nat) {
    |name| == 1 && 65 <= name[0] as int < 65 + k
  }

  // The first k letters from A on are the files of the root directory.
  ghost predicate Lettered(abs: Table, k: nat) {
    && |Children(abs, ROOT)| == k
    && forall j :: j in abs ==> abs[j].dir == ROOT && LetterBelow(abs[j].attr.name, k)
  }

  // A root directory of one cluster with k files.
  lemma {:induction false} Fill(n: nat, k: nat) returns (v: Volume, g: Layout)
    requires 12 <= n < WORD && k <= 7
    ensures Made(v, g) && Lettered(Abs(v, g), k) && |AllocSet(v)| == n - 2 - k && |v.clusters| == n
  {
    hide Abs, InvBut, Inv, SingleDirs, Lettered, EmptyVolume, AllocSet;
    if k == 0 {
      v := EmptyVolume(Blank(n, 0), ROOT);
      g := MadeEmpty(n);
      assert Lettered(map[], 0) by { NoLetters(); }
      BlankSize(n);
    } else {
      var v0, g0 := Fill(n, k - 1);
      NextLetter(Abs(v0, g0), k - 1);
      RootIsDir(v0, g0);
      var c;
      v, g, c := AddOne(v0, g0, ROOT, [64 + k as byte], 0);
      OneLetterMore(Abs(v0, g0), c, NewNode(Xbox, ROOT, NewAttr([64 + k as byte], 0, c, EPOCH), 512), k - 1);
    }
  }

  lemma BlankSize(n: nat)
    requires n >= 3
    ensures |EmptyVolume(Blank(n, 0), ROOT).clusters| == n
  {
  }

  lemma NoLetters()
    ensures Lettered(map[], 0)
  {
    assert Children(map[], ROOT) == {};
  }

  lemma NextLetter(abs: Table, k: nat)
    requires Lettered(abs, k) && k < 7
    ensures Room(abs, ROOT, 512) && !Taken(abs, ROOT, [65 + k as byte])
  {
  }

  lemma OneLetterMore(abs: Table, c: nat, n: Node, k: nat)
    requires Lettered(abs, k) && c !in abs && n.dir == ROOT && k < 7 && n.attr.name == [65 + k as byte]
    ensures Lettered(abs[c := n], k + 1)
  {
    assert Children(abs[c := n], ROOT) == Children(abs, ROOT) + {c};
    assert c !in Children(abs, ROOT);
  }

  // The eighth file in a root directory of eight slots: there is a free cluster and no
  // other name like it, and creating it leaves a volume that has no layout at all.
  lemma FullRoot(n: nat) returns (v: Volume, g: Layout, p: Place, c: nat)
    requires 12 <= n < WORD
    ensures Made(v, g) && |v.clusters| == n && ScanStops(v, g, p) && !RoomFor(v, g, p) && p == Place(ROOT, 0, 7)
    ensures v.InRange(c) && v.fat[c] == Available && NoEntry(v, g, ROOT, [72]) && |v.clusters[c]| == v.bpc
    ensures forall g' :: Relayout(g, g', {c}) ==> !Inv(CreatedVolume(v, g, p, c, NewAttr([72], 0, c, EPOCH)), g')
  {
    hide AttrOf, SlotAt, InvBut, Inv, Abs, RoomFor, ScanStops, CreatedVolume, Readable, StopAt, NoEntry, Relayout;
    v, g := Fill(n, 7);
    InvIsInvBut(v, g, {});
    RootIsDir(v, g);
    var t := StopInDir(v, g, ROOT);
    p := Place(ROOT, t.k, t.e);
    RoomIsRoom(v, g, p, 512);
    TakenIsEntry(v, g, ROOT, [72]);
    NoRoomIsTerm(v, g, p);
    var taken: int :| taken in AllocSet(v);
    c := taken;
    LastSlotLoses(v, g, p, c, NewAttr([72], 0, c, EPOCH));
  }

  lemma OwnerUnlinkable(v: Volume, g: Layout, k: nat, c: nat)
    requires Inv(v, g) && k in Abs(v, g) && Abs(v, g)[k].dir == ROOT && k != ROOT && c in g.owner && g.owner[c].dir == k
    ensures k in g.owner && Unlinkable(v, g, g.owner[k], k) && g.owner[k].dir == ROOT && !EmptyDir(v, g, k)
  {
    hide AttrOf, SlotAt, LiveOk, NamesDistinct, DirOk, ChainsOk, Live, AttrAt;
    assert Live(v, g, g.owner[c]);
  }

  lemma NothingThere(abs: Table, d: nat)
    requires forall k :: k in abs ==> abs[k].dir != d
    ensures Room(abs, d, 512) && forall name :: !Taken(abs, d, name)
  {
    assert Children(abs, d) == {};
  }

  lemma RootNode(variant: Variant, d: nat, a: Attr, b: nat)
    ensures NewNode(variant, d, a, b).dir == d
  {
  }

  // A file in a directory: unlinking the directory leaves a volume that has no layout.
  lemma UnlinkedFull(n: nat) returns (v: Volume, g: Layout, p: Place, k: nat)
    requires 12 <= n < WORD
    ensures Made(v, g) && Unlinkable(v, g, p, k) && p.dir == ROOT && k in g.dirs
    ensures forall g' :: Relayout(g, g', {}) ==> !Inv(Removed(v, g, p, k), g')
  {
    hide AttrOf, SlotAt, InvBut, Inv, Abs, Live, AttrAt, Removed, Relayout, SingleDirs, NewNode, Taken, Room,
         EmptyVolume, Unlinkable, EmptyDir, AllocSet;
    v := EmptyVolume(Blank(n, 0), ROOT);
    g := MadeEmpty(n);
    NothingThere(map[], ROOT);
    v, g, k := AddOne(v, g, ROOT, [65], ATTR_DIRECTORY);
    ghost var n1 := NewNode(Xbox, ROOT, NewAttr([65], ATTR_DIRECTORY, k, EPOCH), 512);
    RootNode(Xbox, ROOT, NewAttr([65], ATTR_DIRECTORY, k, EPOCH), 512);
    NothingThere(map[k := n1], k);
    var c;
    v, g, c := AddOne(v, g, k, [66], 0);
    OwnerUnlinkable(v, g, k, c);
    p := g.owner[k];
    RemoveNeedsEmpty(v, g, p, k);
  }

  // A root directory full of entries, without end marker, and all other clusters free: the
  // file takes cluster 2 and the directory cluster 3, so the entry, which goes to cluster 2,
  // is not listed.
  lemma UnmarkedRoot(n: nat) returns (v: Volume, w: Volume, a: Attr)
    requires 4 <= n < WORD
    ensures v.Wf() && IsChain(v, [1]) && Unmarked(v, [1]) && NextFree(v.fat, n, 2, 2) && |v.clusters| == n
    ensures |v.clusters[2]| == v.bpc && w == Allocated(v, 2, true) && NextFree(w.fat, n, 2, 3)
    ensures |w.clusters| == n && |w.clusters[3]| == w.bpc && |w.fat| == n + 1 && a == NewAttr([65], 0, 2, EPOCH)
    ensures !Appends(w, [1], Overflowed(w, [1], 3, a), [1, 3], a)
  {
    hide Unmarked, Appends, Overflowed, AttrOf;
    BlankIsProper(n, 1);
    v := Blank(n, 1);
    v := v.(fat := v.fat[1 := End]);
    a := NewAttr([65], 0, 2, EPOCH);
    assert IsChain(v, [1]) by {
      assert v.fat[[1 as nat][0]] == Link([1], 0);
    }
    FullOfOnes(v);
    UnmarkedStays(v, [1], 2);
    w := Allocated(v, 2, true);
    assert w.fat[3] == Available && w.InRange(3) && GoodName(a.name);
    assert [1] + [3] == [1, 3];
    hide Allocated, IsChain;
    OverflowLists(w, [1], 3, a);
  }

  lemma FullOfOnes(v: Volume)
    requires v.Wf() && v.InRange(1) && v.clusters[1] == Repeated(1) && v.bpc == 512
    ensures Unmarked(v, [1])
  {
    forall e: nat | e < 8 ensures var b := SlotBytes(v, 1, e); GoodSlot(v.variant, b) && !IsDeleted(b) {
      assert Repeated(1)[DIRENT_SIZE * e] == 1 && Repeated(1)[DIRENT_SIZE * e + 2] == 1;
      assert SlotBytes(v, 1, e) == Repeated(1)[DIRENT_SIZE * e..DIRENT_SIZE * e + DIRENT_SIZE];
      OnesAreGood(v.variant, SlotBytes(v, 1, e));
    }
    hide GoodSlot, SlotBytes;
  }

  lemma OnesAreGood(variant: Variant, b: seq<byte>)
    requires |b| == DIRENT_SIZE && b[0] == 1 && b[2] == 1
    ensures GoodSlot(variant, b) && !IsDeleted(b)
  {
  }

  // ---- formatting ----

  // A superblock with the root in cluster 2, where a file's bytes still are: formatting
  // leaves no file system, in whatever layout.
  lemma RootElsewhere(n: nat)
    requires 4 <= n < WORD
    ensures var v := Blank(n, 1);
      && v.Wf() && v.InRange(2) && (forall i :: 0 <= i < |v.fat| ==> v.fat[i] == Available) && !ReadyRoot(v, 2)
      && forall g: Layout :: g.root == 2 ==> !Inv(EmptyVolume(v, 2), g)
  {
    hide Inv;
    var v := Blank(n, 1);
    BlankIsProper(n, 1);
    forall e: nat ensures !EndsEmpty(v, 2, e) {
      assert e < SlotsPerCluster(v.bpc) ==> SlotBytes(v, 2, e)[0] == 1;
    }
    EmptyIsExact(v, 2);
  }
}
