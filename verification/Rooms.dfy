// Room for a new entry: where fatx_alloc_dir_entry puts it and the end marker, and when
// that leaves a proper volume.

module Rooms {
  import opened Bytes
  import opened Endian
  import opened Codec
  import opened Volumes
  import opened Layouts
  import opened Entries
  import opened Dirs
  import opened FileOps

  // p is where the scan of its directory stops: the first slot that is deleted or the
  // terminator.
  ghost predicate ScanStops(v: Volume, g: Layout, p: Place) {
    && InDir(v, g, p)
    && (if IsDeleted(SlotAt(v, g, p)) then Before(p.k, p.e, g.dirs[p.dir]) else Term(p.k, p.e) == g.dirs[p.dir])
    && forall q :: InDir(v, g, q) && q.dir == p.dir && Before(q.k, q.e, Term(p.k, p.e)) ==> !IsDeleted(SlotAt(v, g, q))
  }

  // The slot is free, or the end marker can move on within its cluster.
  ghost predicate RoomFor(v: Volume, g: Layout, p: Place) {
    IsDeleted(SlotAt(v, g, p)) || p.e + 1 < SlotsPerCluster(v.bpc)
  }

  // With the terminator p in its cluster's last slot the marker goes to the first slot of
  // the cluster that follows on the device.  q is that slot.
  predicate MarkFalls(g: Layout, p: Place, q: Place) {
    q.e == 0 && ClusterAt(g, q) == ClusterAt(g, p) + 1
  }

  // From the j-th cluster of directory d on there is no entry.
  ghost predicate NoneLiveFrom(v: Volume, g: Layout, d: nat, j: nat) {
    forall q :: Live(v, g, q) && q.dir == d ==> q.k < j
  }

  ghost predicate DirCluster(g: Layout, d: nat, j: nat, s: nat) {
    d in g.dirs && d in g.chains && j < |g.chains[d]| && g.chains[d][j] == s
  }

  // An end marker in the first slot of cluster s does no harm, c being the cluster taken
  // for the new entry: s is no cluster, or free, or the new directory's own, or has the
  // marker already, or belongs to a directory that has no entries there.
  ghost predicate MarkerHarmless(v: Volume, g: Layout, s: nat, c: nat, directory: bool)
    requires |v.fat| == |v.clusters| + 1
  {
    || s >= |v.clusters|
    || (if s == c then directory
        else v.fat[s] == Available || (v.clusters[s] != [] && v.clusters[s][0] == END_OF_DIR))
    || exists d, j :: DirCluster(g, d, j, s) && NoneLiveFrom(v, g, d, j)
  }

  // Behind the terminator p its directory has an end marker again, old or new, with only
  // deleted slots in between.
  ghost predicate EndsOverDeleted(v: Volume, g: Layout, p: Place, t: Term) {
    && InDir(v, g, Place(p.dir, t.k, t.e)) && Before(p.k, p.e, t)
    && (IsEnd(SlotAt(v, g, Place(p.dir, t.k, t.e))) || MarkFalls(g, p, Place(p.dir, t.k, t.e)))
    && forall q :: InDir(v, g, q) && q.dir == p.dir && Before(p.k, p.e, Term(q.k, q.e)) && Before(q.k, q.e, t) ==>
         IsDeleted(SlotAt(v, g, q)) && !MarkFalls(g, p, q)
  }

  ghost predicate EndsBehind(v: Volume, g: Layout, p: Place) {
    exists t :: EndsOverDeleted(v, g, p, t)
  }

  // Creating an entry at p with cluster c works.
  ghost predicate CreateWorks(v: Volume, g: Layout, p: Place, c: nat, directory: bool)
    requires |v.fat| == |v.clusters| + 1
  {
    RoomFor(v, g, p) || (MarkerHarmless(v, g, ClusterAt(g, p) + 1, c, directory) && EndsBehind(v, g, p))
  }

  // It works in directory d whichever free cluster is taken, and writes nothing outside
  // the clusters.
  ghost predicate HasRoom(v: Volume, g: Layout, d: nat, directory: bool)
    requires |v.fat| == |v.clusters| + 1
  {
    exists p :: ScanStops(v, g, p) && p.dir == d && RoomThere(v, g, p, directory)
  }

  ghost predicate RoomThere(v: Volume, g: Layout, p: Place, directory: bool)
    requires |v.fat| == |v.clusters| + 1
  {
    || RoomFor(v, g, p)
    || (ClusterAt(g, p) + 1 < |v.clusters|
        && forall c :: 2 <= c < |v.clusters| && v.fat[c] == Available ==> CreateWorks(v, g, p, c, directory))
  }

  lemma StopUnique(v: Volume, g: Layout, p: Place, q: Place)
    requires ScanStops(v, g, p) && ScanStops(v, g, q) && p.dir == q.dir
    ensures p == q
  {
    hide SlotAt;
  }

  lemma RoomThereWorks(v: Volume, g: Layout, p: Place, c: nat, directory: bool)
    requires |v.fat| == |v.clusters| + 1 && HasRoom(v, g, p.dir, directory) && ScanStops(v, g, p)
    requires 2 <= c < |v.clusters| && v.fat[c] == Available
    ensures CreateWorks(v, g, p, c, directory)
    ensures RoomFor(v, g, p) || ClusterAt(g, p) + 1 < |v.clusters|
  {
    hide ScanStops, MarkerHarmless, EndsBehind, RoomFor;
    var q :| ScanStops(v, g, q) && q.dir == p.dir && RoomThere(v, g, q, directory);
    StopUnique(v, g, p, q);
  }

  // The scan of a directory stops where fatx_alloc_dir_entry does.
  lemma StopInDir(v: Volume, g: Layout, d: nat) returns (t: Term)
    requires Readable(v, g) && d in g.dirs
    ensures d in g.chains && StopAt(v, g.chains[d], t) && t.k < |g.chains[d]| && ScanStops(v, g, Place(d, t.k, t.e))
    ensures SlotAt(v, g, Place(d, t.k, t.e)) == SlotBytes(v, g.chains[d][t.k], t.e)
    ensures IsDeleted(SlotAt(v, g, Place(d, t.k, t.e))) || IsEnd(SlotAt(v, g, Place(d, t.k, t.e)))
  {
    hide AttrOf, SlotBytes, IsChain, GoodSlot;
    assert DirOk(v, g, d);
    var epc := SlotsPerCluster(v.bpc);
    t := Term(0, 0);
    while t != g.dirs[d] && !IsDeleted(SlotAt(v, g, Place(d, t.k, t.e)))
      invariant t.k < |g.chains[d]| && t.e < epc && (Before(t.k, t.e, g.dirs[d]) || t == g.dirs[d])
      invariant forall k, e :: 0 <= k < |g.chains[d]| && 0 <= e < epc && Before(k, e, t) ==>
                  var b := SlotBytes(v, g.chains[d][k], e); GoodSlot(v.variant, b) && !IsDeleted(b)
      decreases |g.chains[d]| - t.k, epc - t.e
    {
      assert SlotAt(v, g, Place(d, t.k, t.e)) == SlotBytes(v, g.chains[d][t.k], t.e);
      assert GoodSlot(v.variant, SlotAt(v, g, Place(d, t.k, t.e)));
      t := if t.e + 1 < epc then Term(t.k, t.e + 1) else Term(t.k + 1, 0);
    }
    assert SlotAt(v, g, Place(d, t.k, t.e)) == SlotBytes(v, g.chains[d][t.k], t.e);
    if t != g.dirs[d] {
      GoodIsNotEnd(v.variant, SlotAt(v, g, Place(d, t.k, t.e)));
    }
    forall q | InDir(v, g, q) && q.dir == d && Before(q.k, q.e, t) ensures !IsDeleted(SlotAt(v, g, q)) {
      assert SlotAt(v, g, q) == SlotBytes(v, g.chains[d][q.k], q.e);
    }
  }

  // A deleted slot is room.
  lemma DeletedHasRoom(v: Volume, g: Layout, p: Place, directory: bool)
    requires Readable(v, g) && |v.fat| == |v.clusters| + 1
    requires InDir(v, g, p) && Before(p.k, p.e, g.dirs[p.dir]) && IsDeleted(SlotAt(v, g, p))
    ensures HasRoom(v, g, p.dir, directory)
  {
    hide SlotAt, Readable, IsDeleted;
    var t := StopInDir(v, g, p.dir);
    var q := Place(p.dir, t.k, t.e);
    assert RoomFor(v, g, q);
    assert RoomThere(v, g, q, directory);
  }

  // So there is room where an entry has been removed.
  lemma RemovedHasRoom(v: Volume, g: Layout, p: Place, k: nat, directory: bool)
    requires Removable(v, g, p, k) && |v.fat| == |v.clusters| + 1
    ensures var v', g' := Removed(v, g, p, k), RemovedLayout(g, k);
      |v'.fat| == |v'.clusters| + 1 && HasRoom(v', g', p.dir, directory)
  {
    hide AttrOf, SlotAt, InvBut, AttrAt, EmptyDir, Removed, FreeChain, Inv;
    RemovedAt(v, g, p, k, p);
    RemoveEntry(v, g, p, k);
    FreedLength(v, g, p, k);
    InvIsInvBut(Removed(v, g, p, k), RemovedLayout(g, k), {});
    DeletedHasRoom(Removed(v, g, p, k), RemovedLayout(g, k), p, directory);
  }

  lemma FreedLength(v: Volume, g: Layout, p: Place, k: nat)
    requires Unlinkable(v, g, p, k)
    ensures |FreeChain(v.fat, k)| == |v.fat|
  {
    hide AttrOf, SlotAt, DirOk, LiveOk, NamesDistinct, Live, FreeChain;
    FreedChains(v, g, p, k);
    FreedFat(v, g, k);
  }

  lemma GoodIsNotEnd(variant: Variant, b: seq<byte>)
    requires |b| == DIRENT_SIZE && GoodSlot(variant, b)
    ensures !IsEnd(b)
  {
  }

  // ---- what creating an entry writes ----

  // The attributes fatx_create_dirent gives a new entry.
  function NewAttr(name: seq<byte>, attributes: byte, c: nat, now: Ts): Attr {
    Attr(name, attributes, c, 0, now, now, now)
  }

  function NewNode(variant: Variant, d: nat, a: Attr, b: nat): Node {
    Node(d, Stored(variant, a), if a.IsDirectory() then [] else Zeros(b))
  }

  // The volume as the entry's bytes reach the device, marker first.
  function Marked(v: Volume, g: Layout, p: Place): Volume {
    if IsDeleted(SlotAt(v, g, p)) then v else MarkAt(v, ClusterAt(g, p), p.e + 1, END_OF_DIR)
  }

  // What fatx_create_dirent leaves on the volume for the slot p its scan stopped at and
  // the cluster c it allocated, whether or not there was room.
  function CreatedVolume(v: Volume, g: Layout, p: Place, c: nat, a: Attr): Volume
    requires v.InRange(c) && c < |v.fat| && |v.clusters[c]| == v.bpc && |a.name| <= MAX_NAME
  {
    PutAt(Marked(Allocated(v, c, true), g, p), ClusterAt(g, p), p.e, Encode(v.variant, a))
  }

  // The volumes that come into being on the way, one device write after the other.
  function CreateSteps(v: Volume, g: Layout, p: Place, c: nat, a: Attr): seq<Volume>
    requires v.InRange(c) && c < |v.fat| && |v.clusters[c]| == v.bpc && |a.name| <= MAX_NAME
  {
    [v, Allocated(v, c, true), Marked(Allocated(v, c, true), g, p), CreatedVolume(v, g, p, c, a)]
  }

  lemma MarkedShape(v: Volume, g: Layout, p: Place)
    ensures Marked(v, g, p).bpc == v.bpc && Marked(v, g, p).fat == v.fat && Marked(v, g, p).variant == v.variant
    ensures |Marked(v, g, p).clusters| == |v.clusters|
  {
  }

  lemma MarkIsPut(v: Volume, g: Layout, p: Place)
    requires p.e + 1 < SlotsPerCluster(v.bpc) && v.Wf() && v.InRange(ClusterAt(g, p))
    ensures var q := p.(e := p.e + 1);
      MarkAt(v, ClusterAt(g, p), p.e + 1, END_OF_DIR) == SlotPlaceWrite(v, g, q, SlotAt(v, g, q)[0 := END_OF_DIR])
  {
  }

  lemma TermNotDeleted(u: Volume, g: Layout, d: nat)
    requires Inv(u, g) && d in g.dirs
    ensures var t := g.dirs[d]; IsEnd(SlotAt(u, g, Place(d, t.k, t.e))) && !IsDeleted(SlotAt(u, g, Place(d, t.k, t.e)))
  {
    hide AttrOf, SlotBytes, NamesDistinct, LiveOk, Live, AttrAt, IsChain;
    assert DirOk(u, g, d);
  }

  // The marker moves on within its cluster: the directory is as it was, with space at p.
  lemma MarkInCluster(u: Volume, g: Layout, p: Place) returns (t: Term)
    requires Inv(u, g) && ScanStops(u, g, p) && RoomFor(u, g, p)
    ensures Inv(Marked(u, g, p), g) && Abs(Marked(u, g, p), g) == Abs(u, g)
    ensures RoomAt(Marked(u, g, p), g, p, t)
  {
    hide AttrOf, SlotBytes, DirOk, NamesDistinct, LiveOk, Live, AttrAt, IsChain, NodeOf, MarkAt;
    t := if IsDeleted(SlotAt(u, g, p)) then g.dirs[p.dir] else Term(p.k, p.e + 1);
    if !IsDeleted(SlotAt(u, g, p)) {
      SlotInCluster(u, g, p);
      MarkIsPut(u, g, p);
      var q := p.(e := p.e + 1);
      var b := SlotAt(u, g, q)[0 := END_OF_DIR];
      PutBehindTerm(u, g, q, b);
      PutPlace(u, g, q, b);
    }
    TermNotDeleted(u, g, p.dir);
  }

  // ---- the marker that falls into another cluster ----

  // The volume with the first slot of cluster s marked.
  function FirstMarked(v: Volume, s: nat): Volume {
    if s < |v.clusters| && DIRENT_SIZE <= |v.clusters[s]| then v.Write(s, 0, SlotBytes(v, s, 0)[0 := END_OF_DIR]) else v
  }

  lemma MarkedIsFirst(v: Volume, g: Layout, p: Place)
    requires v.Wf() && !IsDeleted(SlotAt(v, g, p)) && p.e + 1 == SlotsPerCluster(v.bpc)
    ensures Marked(v, g, p) == FirstMarked(v, ClusterAt(g, p) + 1)
  {
    hide SlotBytes;
  }

  // Where directory d ends after a marker in the first slot of its j-th cluster.
  function CutLayout(g: Layout, d: nat, j: nat): Layout {
    if d in g.dirs && Before(j, 0, g.dirs[d]) then g.(dirs := g.dirs[d := Term(j, 0)]) else g
  }

  lemma SameByte(v: Volume, s: nat)
    requires s < |v.clusters| && v.clusters[s] != [] && v.clusters[s][0] == END_OF_DIR
    ensures FirstMarked(v, s) == v
  {
    if DIRENT_SIZE <= |v.clusters[s]| {
      var b := SlotBytes(v, s, 0)[0 := END_OF_DIR];
      assert Splice(v.clusters[s], 0, b) == v.clusters[s];
    }
  }

  // ---- ending a directory early ----

  // An end marker in a slot with no entry at it or behind it.
  ghost predicate Cuttable(v: Volume, g: Layout, p: Place, b: seq<byte>)
    requires |b| == DIRENT_SIZE
  {
    && Inv(v, g) && InDir(v, g, p) && p.e == 0 && IsEnd(b)
    && Before(p.k, p.e, g.dirs[p.dir]) && NoneLiveFrom(v, g, p.dir, p.k)
  }

  lemma CutLive(v: Volume, v': Volume, g: Layout, p: Place, b: seq<byte>, q: Place)
    requires |b| == DIRENT_SIZE && Cuttable(v, g, p, b) && SlotPut(v, v', g, p, b)
    ensures var g' := CutLayout(g, p.dir, p.k);
      (Live(v', g', q) <==> Live(v, g, q)) && (Live(v, g, q) ==> AttrAt(v', g', q) == AttrAt(v, g, q))
  {
    hide AttrOf, SlotBytes, InvBut, IsEnd;
    var g' := CutLayout(g, p.dir, p.k);
    assert SlotAt(v', g', q) == SlotAt(v', g, q);
    if Live(v, g, q) {
      assert q.dir == p.dir ==> q.k < p.k;
    }
  }

  lemma CutDir(v: Volume, v': Volume, g: Layout, p: Place, b: seq<byte>, d: nat)
    requires |b| == DIRENT_SIZE && Cuttable(v, g, p, b) && SlotPut(v, v', g, p, b) && d in g.dirs
    ensures DirOk(v', CutLayout(g, p.dir, p.k), d)
  {
    hide AttrOf, SlotBytes, InvBut, IsEnd, GoodSlot;
    var g' := CutLayout(g, p.dir, p.k);
    assert DirOk(v, g, d) by { InvDir(v, g, d); }
    var t := g'.dirs[d];
    assert InDir(v, g, Place(d, t.k, t.e));
    assert SlotAt(v', g', Place(d, t.k, t.e)) == SlotAt(v', g, Place(d, t.k, t.e));
    forall k, e | 0 <= k && 0 <= e < SlotsPerCluster(v'.bpc) && Before(k, e, t)
      ensures GoodSlot(v'.variant, SlotAt(v', g', Place(d, k, e)))
    {
      assert InDir(v, g, Place(d, k, e));
      assert SlotAt(v', g', Place(d, k, e)) == SlotAt(v', g, Place(d, k, e));
    }
  }

  lemma InvDir(v: Volume, g: Layout, d: nat)
    requires Inv(v, g) && d in g.dirs
    ensures DirOk(v, g, d)
  {
  }

  lemma NamesCarry(v: Volume, g: Layout, v': Volume, g': Layout)
    requires NamesDistinct(v, g)
    requires forall q :: Live(v', g', q) ==> Live(v, g, q) && AttrAt(v', g', q) == AttrAt(v, g, q)
    ensures NamesDistinct(v', g')
  {
    hide AttrAt, Live;
    forall q, r | Live(v', g', q) && Live(v', g', r) && q.dir == r.dir
      && AttrAt(v', g', q).name == AttrAt(v', g', r).name
      ensures q == r
    {
    }
  }

  lemma CutLiveOk(v: Volume, g: Layout, v': Volume, g': Layout, q: Place)
    requires LiveOk(v, g, q, {}) && AttrAt(v', g', q) == AttrAt(v, g, q) && v'.bpc == v.bpc
    requires g'.root == g.root && g'.chains == g.chains && g'.owner == g.owner && g'.dirs.Keys == g.dirs.Keys
    ensures LiveOk(v', g', q, {})
  {
    hide AttrAt;
  }

  lemma CutNode(v: Volume, g: Layout, p: Place, b: seq<byte>, j: nat)
    requires |b| == DIRENT_SIZE && Cuttable(v, g, p, b) && j in g.owner
    ensures NodeOf(SlotPlaceWrite(v, g, p, b), CutLayout(g, p.dir, p.k), j) == NodeOf(v, g, j)
  {
    hide AttrOf, SlotAt, AttrAt, ChainsOk, Live, LiveOk, DirOk, NamesDistinct, SlotPut, IsEnd;
    PutPlace(v, g, p, b);
    OwnerPlace(v, g, {}, j);
    CutLive(v, SlotPlaceWrite(v, g, p, b), g, p, b, g.owner[j]);
    if j !in g.dirs {
      PutSlotStream(v, g, p, b, j);
    }
  }

  lemma CutKeepsInv(v: Volume, g: Layout, p: Place, b: seq<byte>)
    requires |b| == DIRENT_SIZE && Cuttable(v, g, p, b)
    ensures var v', g' := SlotPlaceWrite(v, g, p, b), CutLayout(g, p.dir, p.k); Inv(v', g') && Abs(v', g') == Abs(v, g)
  {
    hide ChainsOk, SlotPut, AttrOf, SlotAt, AttrAt, DirOk, LiveOk, Live, NamesDistinct, NodeOf, InDir, SlotPlaceWrite,
         IsEnd;
    PutPlace(v, g, p, b);
    var v', g' := SlotPlaceWrite(v, g, p, b), CutLayout(g, p.dir, p.k);
    assert g'.dirs.Keys == g.dirs.Keys;
    forall d | d in g'.dirs ensures DirOk(v', g', d) {
      CutDir(v, v', g, p, b, d);
    }
    forall q | Live(v', g', q) ensures LiveOk(v', g', q, {}) && Live(v, g, q) && AttrAt(v', g', q) == AttrAt(v, g, q) {
      CutLive(v, v', g, p, b, q);
      CutLiveOk(v, g, v', g', q);
    }
    NamesCarry(v, g, v', g');
    forall j | j in g.owner
      ensures Live(v', g', g'.owner[j]) && AttrAt(v', g', g'.owner[j]).first == j
              && NodeOf(v', g', j) == NodeOf(v, g, j)
    {
      CutLive(v, v', g, p, b, g.owner[j]);
      CutNode(v, g, p, b, j);
    }
  }

  // ---- creating without room in the cluster ----

  lemma FirstMarkedSlot(u: Volume, g: Layout, s: nat, q: Place)
    requires u.Wf() && ChainsOk(u, g.chains) && InDir(u, g, q) && s >= 1
    ensures SlotAt(FirstMarked(u, s), g, q)
         == if q.e == 0 && ClusterAt(g, q) == s then SlotAt(u, g, q)[0 := END_OF_DIR] else SlotAt(u, g, q)
  {
    hide SlotBytes, IsChain;
    SlotInCluster(u, g, q);
    if s < |u.clusters| {
      PutSlotBytes(u, s, 0, SlotBytes(u, s, 0)[0 := END_OF_DIR], ClusterAt(g, q), q.e);
    }
  }

  // The same layout up to where its directories end.
  ghost predicate SameBut(g: Layout, g': Layout, d: nat) {
    && g'.root == g.root && g'.chains == g.chains && g'.owner == g.owner && g'.dirs.Keys == g.dirs.Keys
    && (d in g.dirs ==> g'.dirs[d] == g.dirs[d])
  }

  lemma HarmlessKeepsInv(u: Volume, g: Layout, p: Place, c: nat, directory: bool) returns (g': Layout)
    requires Inv(u, g) && ScanStops(u, g, p) && !RoomFor(u, g, p) && u.InRange(c) && u.fat[c] == Available
    requires MarkerHarmless(u, g, ClusterAt(g, p) + 1, c, directory)
    ensures var u' := FirstMarked(u, ClusterAt(g, p) + 1); Inv(u', g') && Abs(u', g') == Abs(u, g)
    ensures SameBut(g, g', p.dir)
  {
    hide AttrOf, InvBut, Live, SlotBytes, NoneLiveFrom, ScanStops, ClusterAt, Inv, Abs, FirstMarked, IsDeleted;
    var s := ClusterAt(g, p) + 1;
    g' := g;
    WfBound(u, g);
    if s >= |u.clusters| {
      FirstMarkedOutside(u, s);
    } else if s != c && u.fat[s] != Available && u.clusters[s] != [] && u.clusters[s][0] == END_OF_DIR {
      SameByte(u, s);
    } else if u.fat[s] == Available {
      WriteFresh(u, g, s, 0, SlotBytes(u, s, 0)[0 := END_OF_DIR]);
      FirstMarkedInside(u, g, s);
    } else {
      var d, j :| DirCluster(g, d, j, s) && NoneLiveFrom(u, g, d, j);
      g' := HarmlessInDir(u, g, p, d, j);
    }
  }

  lemma WfBound(u: Volume, g: Layout)
    requires Inv(u, g)
    ensures u.Wf() && u.bpc >= DIRENT_SIZE
  {
  }

  lemma FirstMarkedOutside(u: Volume, s: nat)
    requires s >= |u.clusters|
    ensures FirstMarked(u, s) == u
  {
  }

  lemma FirstMarkedInside(u: Volume, g: Layout, s: nat)
    requires Inv(u, g) && u.InRange(s)
    ensures |u.clusters[s]| == u.bpc && u.bpc >= DIRENT_SIZE
    ensures FirstMarked(u, s) == u.Write(s, 0, SlotBytes(u, s, 0)[0 := END_OF_DIR])
  {
    hide SlotBytes;
  }

  lemma HarmlessInDir(u: Volume, g: Layout, p: Place, d: nat, j: nat) returns (g': Layout)
    requires Inv(u, g) && ScanStops(u, g, p) && !RoomFor(u, g, p)
    requires DirCluster(g, d, j, ClusterAt(g, p) + 1) && NoneLiveFrom(u, g, d, j)
    ensures var u' := FirstMarked(u, ClusterAt(g, p) + 1); Inv(u', g') && Abs(u', g') == Abs(u, g)
    ensures SameBut(g, g', p.dir)
  {
    hide AttrOf, InvBut, SlotBytes, Inv, Abs, FirstMarked, IsDeleted, PutAt;
    var q := Place(d, j, 0);
    var b := SlotAt(u, g, q)[0 := END_OF_DIR];
    WfBound(u, g);
    FirstMarkedPlace(u, g, q);
    if Before(j, 0, g.dirs[d]) {
      StopIsFirst(u, g, p, d, j);
      CutKeepsInv(u, g, q, b);
      g' := CutLayout(g, d, j);
    } else {
      PutBehindTerm(u, g, q, b);
      g' := g;
    }
  }

  // Before the place where the scan stops every slot holds an entry.
  lemma StopIsFirst(u: Volume, g: Layout, p: Place, d: nat, j: nat)
    requires ScanStops(u, g, p) && !RoomFor(u, g, p) && u.bpc >= DIRENT_SIZE
    requires d in g.dirs && d in g.chains && j < |g.chains[d]| && NoneLiveFrom(u, g, d, j)
    ensures Before(j, 0, g.dirs[d]) ==> d != p.dir
  {
    hide SlotBytes, AttrOf;
    assert d == p.dir && Before(j, 0, g.dirs[d]) ==> Live(u, g, Place(d, j, 0));
  }

  lemma FirstMarkedPlace(u: Volume, g: Layout, q: Place)
    requires Inv(u, g) && DirCluster(g, q.dir, q.k, ClusterAt(g, q)) && q.e == 0
    ensures InDir(u, g, q) && SlotPlaceWrite(u, g, q, SlotAt(u, g, q)[0 := END_OF_DIR])
            == FirstMarked(u, ClusterAt(g, q))
  {
    hide SlotBytes, InvBut;
    WfBound(u, g);
  }

  // With the end marker behind p the entry fits.
  lemma EndsInMarked(u: Volume, g: Layout, g': Layout, p: Place, t: Term)
    requires u.Wf() && ChainsOk(u, g.chains) && InDir(u, g, p) && SameBut(g, g', p.dir)
    requires Term(p.k, p.e) == g.dirs[p.dir] && EndsOverDeleted(u, g, p, t)
    ensures RoomAt(FirstMarked(u, ClusterAt(g, p) + 1), g', p, t)
  {
    hide SlotBytes, AttrOf, ChainsOk;
    var u' := FirstMarked(u, ClusterAt(g, p) + 1);
    FirstMarkedSlot(u, g, ClusterAt(g, p) + 1, Place(p.dir, t.k, t.e));
    forall q | InDir(u', g', q) && q.dir == p.dir && Before(p.k, p.e, Term(q.k, q.e)) && Before(q.k, q.e, t)
      ensures IsDeleted(SlotAt(u', g', q))
    {
      FirstMarkedSlot(u, g, ClusterAt(g, p) + 1, q);
    }
  }

  // Zeroing a free cluster is not seen in any directory.
  lemma FreshSlot(v: Volume, g: Layout, c: nat, q: Place)
    requires Inv(v, g) && v.InRange(c) && v.fat[c] == Available
    ensures |v.clusters[c]| == v.bpc
    ensures var u := v.Write(c, 0, Zeros(v.bpc));
      && (InDir(u, g, q) <==> InDir(v, g, q)) && (Live(u, g, q) <==> Live(v, g, q))
      && (InDir(v, g, q) ==> SlotAt(u, g, q) == SlotAt(v, g, q) && ClusterAt(g, q) != c && v.InRange(ClusterAt(g, q)))
  {
    hide AttrOf, SlotBytes, DirOk, NamesDistinct, LiveOk, AttrAt, IsChain;
    FreshCluster(v, g, c);
    if InDir(v, g, q) {
      SlotInCluster(v, g, q);
      InDirCluster(v, g, q);
      OtherClusterSlot(v, c, 0, Zeros(v.bpc), ClusterAt(g, q), q.e);
    }
  }

  lemma FreshScan(v: Volume, g: Layout, p: Place, c: nat)
    requires Inv(v, g) && v.InRange(c) && v.fat[c] == Available && ScanStops(v, g, p)
    ensures |v.clusters[c]| == v.bpc
    ensures var u := v.Write(c, 0, Zeros(v.bpc));
      && ScanStops(u, g, p) && SlotAt(u, g, p) == SlotAt(v, g, p) && (RoomFor(u, g, p) <==> RoomFor(v, g, p))
      && v.InRange(ClusterAt(g, p)) && ClusterAt(g, p) != c
  {
    hide AttrOf, SlotAt, InvBut, Live, AttrAt;
    FreshSlot(v, g, c, p);
    var u := v.Write(c, 0, Zeros(v.bpc));
    forall q | InDir(u, g, q) && q.dir == p.dir && Before(q.k, q.e, Term(p.k, p.e))
      ensures !IsDeleted(SlotAt(u, g, q)) {
      FreshSlot(v, g, c, q);
    }
  }

  lemma FreshHarmless(v: Volume, g: Layout, s: nat, c: nat, directory: bool)
    requires Inv(v, g) && v.InRange(c) && v.fat[c] == Available && |v.fat| == |v.clusters| + 1
    requires MarkerHarmless(v, g, s, c, directory)
    ensures |v.clusters[c]| == v.bpc && MarkerHarmless(v.Write(c, 0, Zeros(v.bpc)), g, s, c, directory)
  {
    hide AttrOf, SlotAt, InvBut, Live, AttrAt, InDir;
    FreshSlot(v, g, c, Place(0, 0, 0));
    var u := v.Write(c, 0, Zeros(v.bpc));
    forall d, j | DirCluster(g, d, j, s) && NoneLiveFrom(v, g, d, j) ensures NoneLiveFrom(u, g, d, j) {
      forall q | Live(u, g, q) && q.dir == d ensures q.k < j {
        FreshSlot(v, g, c, q);
      }
    }
  }

  lemma FreshEnds(v: Volume, g: Layout, p: Place, t: Term, c: nat)
    requires Inv(v, g) && v.InRange(c) && v.fat[c] == Available && EndsOverDeleted(v, g, p, t)
    ensures |v.clusters[c]| == v.bpc && EndsOverDeleted(v.Write(c, 0, Zeros(v.bpc)), g, p, t)
  {
    hide AttrOf, SlotAt, InvBut, Live, AttrAt, MarkFalls;
    FreshSlot(v, g, c, Place(p.dir, t.k, t.e));
    var u := v.Write(c, 0, Zeros(v.bpc));
    forall q | InDir(u, g, q) && q.dir == p.dir && Before(p.k, p.e, Term(q.k, q.e)) && Before(q.k, q.e, t)
      ensures IsDeleted(SlotAt(u, g, q)) && !MarkFalls(g, p, q)
    {
      FreshSlot(v, g, c, q);
    }
  }

  // The marker write leaves the inode table alone and makes space at p.
  lemma MarkedKeepsInv(v: Volume, g: Layout, p: Place, c: nat, directory: bool) returns (g': Layout, t: Term)
    requires Inv(v, g) && ScanStops(v, g, p) && v.InRange(c) && v.fat[c] == Available && |v.fat| == |v.clusters| + 1
    requires CreateWorks(v, g, p, c, directory)
    ensures |v.clusters[c]| == v.bpc
    ensures var u := Marked(v.Write(c, 0, Zeros(v.bpc)), g, p);
      && Inv(u, g') && Abs(u, g') == Abs(v, g) && SameBut(g, g', p.dir) && RoomAt(u, g', p, t)
  {
    hide AttrOf, InvBut, Live, SlotBytes, ScanStops, Inv, Abs, MarkAt, RoomFor, MarkerHarmless, EndsOverDeleted,
         RoomAt, SlotAt;
    var z := Zeros(v.bpc);
    WriteFresh(v, g, c, 0, z) by { WfBound(v, g); }
    FreshScan(v, g, p, c);
    var u := v.Write(c, 0, z);
    if RoomFor(v, g, p) {
      t := MarkInCluster(u, g, p);
      g' := g;
    } else {
      FreshHarmless(v, g, ClusterAt(g, p) + 1, c, directory);
      t :| EndsOverDeleted(v, g, p, t);
      FreshEnds(v, g, p, t, c);
      NoRoomIsTerm(u, g, p);
      MarkedIsFirst(u, g, p);
      g' := HarmlessKeepsInv(u, g, p, c, directory);
      EndsInMarked(u, g, g', p, t);
    }
  }

  lemma NoRoomIsTerm(u: Volume, g: Layout, p: Place)
    requires Inv(u, g) && ScanStops(u, g, p) && !RoomFor(u, g, p)
    ensures InDir(u, g, p) && Term(p.k, p.e) == g.dirs[p.dir] && !IsDeleted(SlotAt(u, g, p))
    ensures p.e + 1 == SlotsPerCluster(u.bpc) && u.Wf() && ChainsOk(u, g.chains)
  {
    hide SlotAt;
  }

  // ---- creating as a whole ----

  lemma PutIgnoresFat(v: Volume, g: Layout, p: Place, b: seq<byte>, fat: seq<FatEntry>)
    requires |b| == DIRENT_SIZE && p.e < SlotsPerCluster(v.bpc)
    ensures PutAt(v.(fat := fat), ClusterAt(g, p), p.e, b) == SlotPlaceWrite(v, g, p, b).(fat := fat)
  {
  }

  lemma MarkedIgnoresFat(v: Volume, g: Layout, p: Place, fat: seq<FatEntry>)
    ensures Marked(v.(fat := fat), g, p) == Marked(v, g, p).(fat := fat)
  {
  }

  lemma CreatedIsAdded(v: Volume, g: Layout, p: Place, c: nat, a: Attr)
    requires v.InRange(c) && c < |v.fat| && |v.clusters[c]| == v.bpc && |a.name| <= MAX_NAME
    requires p.e < SlotsPerCluster(v.bpc)
    ensures CreatedVolume(v, g, p, c, a) == Added(Marked(v.Write(c, 0, Zeros(v.bpc)), g, p), g, p,
            Encode(v.variant, a), c)
  {
    hide Marked, PutAt, SlotPlaceWrite, Encode;
    var u, fat := v.Write(c, 0, Zeros(v.bpc)), v.fat[c := End];
    assert Allocated(v, c, true) == u.(fat := fat);
    MarkedIgnoresFat(u, g, p, fat);
    MarkedShape(u, g, p);
    PutIgnoresFat(Marked(u, g, p), g, p, Encode(v.variant, a), fat);
  }

  lemma CreatedFat(v: Volume, g: Layout, p: Place, c: nat, a: Attr)
    requires v.InRange(c) && c < |v.fat| && |v.clusters[c]| == v.bpc && |a.name| <= MAX_NAME
    ensures CreatedVolume(v, g, p, c, a).fat == v.fat[c := End] && CreatedVolume(v, g, p, c, a).bpc == v.bpc
    ensures |CreatedVolume(v, g, p, c, a).clusters| == |v.clusters| && CreatedVolume(v, g, p, c, a).variant == v.variant
  {
  }

  lemma StoredShape(variant: Variant, a: Attr)
    requires a.first < 0x1_0000_0000 && a.size == 0
    ensures var s := Stored(variant, a);
      s.first == a.first && s.size == 0 && s.name == a.name && s.IsDirectory() == a.IsDirectory()
  {
  }

  // What the new entry's cluster holds when the entry is written.
  lemma MarkedFresh(v: Volume, g: Layout, p: Place, c: nat, directory: bool)
    requires Inv(v, g) && ScanStops(v, g, p) && v.InRange(c) && v.fat[c] == Available && |v.fat| == |v.clusters| + 1
    requires CreateWorks(v, g, p, c, directory)
    ensures |v.clusters[c]| == v.bpc
    ensures var u := Marked(v.Write(c, 0, Zeros(v.bpc)), g, p);
      && c < |u.clusters| && (directory ==> IsEnd(SlotBytes(u, c, 0))) && (!directory ==> u.clusters[c] == Zeros(v.bpc))
  {
    hide AttrOf, InvBut, Live, ScanStops, Abs, MarkerHarmless, EndsOverDeleted, RoomAt, SlotAt;
    WfBound(v, g);
    WriteFresh(v, g, c, 0, Zeros(v.bpc));
    FreshScan(v, g, p, c);
    var u := v.Write(c, 0, Zeros(v.bpc));
    assert u.clusters[c] == Zeros(v.bpc);
    if !RoomFor(v, g, p) {
      NoRoomIsTerm(u, g, p);
      MarkedIsFirst(u, g, p);
      FreeIsInNoDir(v, g, c, ClusterAt(g, p) + 1, directory);
    } else if !IsDeleted(SlotAt(u, g, p)) {
      assert Marked(u, g, p).clusters[c] == u.clusters[c];
    }
  }

  // The marker falls into the new entry's own cluster only if that is a directory.
  lemma FreeIsInNoDir(v: Volume, g: Layout, c: nat, s: nat, directory: bool)
    requires Inv(v, g) && v.InRange(c) && v.fat[c] == Available && |v.fat| == |v.clusters| + 1
    requires MarkerHarmless(v, g, s, c, directory)
    ensures s == c ==> directory
  {
    hide InvBut, Live;
    FreshCluster(v, g, c);
    DirClusters(g, c);
  }

  lemma DirClusters(g: Layout, s: nat)
    ensures forall d, j :: DirCluster(g, d, j, s) ==> d in g.chains && s in g.chains[d]
  {
  }

  // The layout with the new entry at p, wherever directories end now.
  ghost predicate Grew(g: Layout, g': Layout, p: Place, c: nat, directory: bool) {
    && g'.root == g.root && g'.chains == g.chains[c := [c]] && g'.owner == g.owner[c := p]
    && g'.dirs.Keys == g.dirs.Keys + (if directory then {c} else {})
    && (directory ==> g'.dirs[c] == Term(0, 0))
  }

  // Where it works, creating keeps the volume proper and adds one node.
  lemma CreatedKeepsInv(v: Volume, g: Layout, p: Place, c: nat, a: Attr) returns (g': Layout)
    requires Inv(v, g) && ScanStops(v, g, p) && v.InRange(c) && v.fat[c] == Available && |v.fat| == |v.clusters| + 1
    requires CreateWorks(v, g, p, c, a.IsDirectory()) && NoEntry(v, g, p.dir, a.name) && GoodName(a.name)
    requires a.first == c && a.size == 0 && c < 0x1_0000_0000
    ensures |v.clusters[c]| == v.bpc
    ensures var v' := CreatedVolume(v, g, p, c, a);
      Inv(v', g') && Abs(v', g') == Abs(v, g)[c := NewNode(v.variant, p.dir, a, v.bpc)]
    ensures Grew(g, g', p, c, a.IsDirectory())
  {
    hide AttrOf, SlotBytes, InvBut, Live, AttrAt, NodeOf, MarkAt, Encode, Stored, GoodSlot, SlotAt, Marked, RoomAt,
         PutAt, SlotPlaceWrite, Added, CreateWorks, NoEntry, RoomFor, Abs, Inv;
    var t;
    var directory := a.IsDirectory();
    var g1;
    g1, t := MarkedKeepsInv(v, g, p, c, directory);
    MarkedFresh(v, g, p, c, directory);
    var u := v.Write(c, 0, Zeros(v.bpc));
    var u2, b := Marked(u, g, p), Encode(v.variant, a);
    MarkedShape(u, g, p);
    NoEntrySame(v, g, u2, g1, p.dir, a.name);
    EncodedSlot(v.variant, a);
    StoredShape(v.variant, a);
    AddEntry(u2, g1, p, b, c, t);
    CreatedIsAdded(v, g, p, c, a);
    SamePlaces(u2, g, g1, p, b, c);
    g' := AddedLayout(g1, p, c, directory, t);
    NewDirKeys(v, g, c);
  }

  lemma SamePlaces(u: Volume, g: Layout, g': Layout, p: Place, b: seq<byte>, c: nat)
    requires |b| == DIRENT_SIZE && c < |u.fat| && g'.chains == g.chains
    ensures Added(u, g', p, b, c) == Added(u, g, p, b, c)
  {
  }

  lemma NewDirKeys(v: Volume, g: Layout, c: nat)
    requires Inv(v, g) && v.InRange(c) && v.fat[c] == Available
    ensures c !in g.dirs
  {
    hide InvBut;
    FreshCluster(v, g, c);
  }
}
