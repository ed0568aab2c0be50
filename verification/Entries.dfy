// Adding, removing and exchanging directory entries: what each sequence of slot writes
// does to the invariant and to the inode table.

module Entries {
  import opened Bytes
  import opened Endian
  import opened Codec
  import opened Volumes
  import opened Streams
  import opened Layouts

  function SlotPlaceWrite(v: Volume, g: Layout, p: Place, b: seq<byte>): Volume
    requires |b| == DIRENT_SIZE
  {
    var c := ClusterAt(g, p);
    if c < |v.clusters| && DIRENT_SIZE * p.e + DIRENT_SIZE <= |v.clusters[c]| then v.Write(c, DIRENT_SIZE * p.e, b)
       else v
  }

  lemma PutPlace(v: Volume, g: Layout, p: Place, b: seq<byte>)
    requires v.Wf() && ChainsOk(v, g.chains) && InDir(v, g, p) && |b| == DIRENT_SIZE
    ensures var v' := SlotPlaceWrite(v, g, p, b);
      && v.InRange(ClusterAt(g, p)) && |v.clusters[ClusterAt(g, p)]| == v.bpc
         && DIRENT_SIZE * p.e + DIRENT_SIZE <= v.bpc
      && v' == v.Write(ClusterAt(g, p), DIRENT_SIZE * p.e, b)
      && v'.Wf() && v'.fat == v.fat && |v'.clusters| == |v.clusters| && ChainsOk(v', g.chains)
         && SlotPut(v, v', g, p, b)
  {
    hide ChainsOk, IsChain, SlotPut, AttrOf;
    PutSlot(v, g, p, b);
  }

  // ---- a write at or behind the terminator ----

  // A slot behind its directory's terminator can hold anything, the terminator itself
  // any end marker.
  lemma PutBehindTerm(v: Volume, g: Layout, p: Place, b: seq<byte>)
    requires Inv(v, g) && InDir(v, g, p) && |b| == DIRENT_SIZE
    requires !Before(p.k, p.e, g.dirs[p.dir]) && (Term(p.k, p.e) == g.dirs[p.dir] ==> IsEnd(b))
    ensures var v' := SlotPlaceWrite(v, g, p, b); Inv(v', g) && Abs(v', g) == Abs(v, g)
  {
    hide ChainsOk, SlotPut, AttrOf, SlotAt, AttrAt, DirOk, LiveOk, Live, NamesDistinct, NodeOf, InDir;
    PutPlace(v, g, p, b);
    var v' := SlotPlaceWrite(v, g, p, b);
    forall d | d in g.dirs ensures DirOk(v', g, d) {
      BehindTermDir(v, v', g, p, b, d);
    }
    forall q | Live(v', g, q) ensures LiveOk(v', g, q, {}) {
      BehindTermAt(v, v', g, p, b, q);
      BehindTermLiveOk(v, v', g, q);
    }
    forall j | j in g.owner ensures Live(v', g, g.owner[j]) && AttrAt(v', g, g.owner[j]).first == j {
      BehindTermAt(v, v', g, p, b, g.owner[j]);
    }
    forall q, r | Live(v', g, q) && Live(v', g, r)
      ensures Live(v, g, q) && Live(v, g, r)
      ensures AttrAt(v', g, q) == AttrAt(v, g, q) && AttrAt(v', g, r) == AttrAt(v, g, r)
    {
      BehindTermAt(v, v', g, p, b, q);
      BehindTermAt(v, v', g, p, b, r);
    }
    assert NamesDistinct(v', g) by { BehindTermNames(v, v', g); }
    forall j | j in g.owner ensures NodeOf(v', g, j) == NodeOf(v, g, j) {
      OwnerPlace(v, g, {}, j);
      BehindTermAt(v, v', g, p, b, g.owner[j]);
      BehindTermNode(v, g, p, b, j);
    }
  }

  lemma BehindTermAt(v: Volume, v': Volume, g: Layout, p: Place, b: seq<byte>, q: Place)
    requires |b| == DIRENT_SIZE && SlotPut(v, v', g, p, b) && InDir(v, g, p)
    requires !Before(p.k, p.e, g.dirs[p.dir])
    ensures Live(v', g, q) <==> Live(v, g, q)
    ensures Live(v, g, q) ==> AttrAt(v', g, q) == AttrAt(v, g, q)
    ensures v'.bpc == v.bpc
  {
    hide AttrOf, SlotAt;
  }

  lemma BehindTermDir(v: Volume, v': Volume, g: Layout, p: Place, b: seq<byte>, d: nat)
    requires |b| == DIRENT_SIZE && SlotPut(v, v', g, p, b) && InDir(v, g, p) && DirOk(v, g, d)
    requires !Before(p.k, p.e, g.dirs[p.dir]) && (Term(p.k, p.e) == g.dirs[p.dir] ==> IsEnd(b))
    ensures DirOk(v', g, d)
  {
    hide AttrOf, SlotAt, GoodSlot;
    var t := g.dirs[d];
    assert InDir(v, g, Place(d, t.k, t.e));
    forall k, e | 0 <= k && 0 <= e < SlotsPerCluster(v'.bpc) && Before(k, e, t)
      ensures GoodSlot(v'.variant, SlotAt(v', g, Place(d, k, e)))
    {
      assert InDir(v, g, Place(d, k, e));
    }
  }

  lemma BehindTermLiveOk(v: Volume, v': Volume, g: Layout, q: Place)
    requires LiveOk(v, g, q, {}) && AttrAt(v', g, q) == AttrAt(v, g, q) && v'.bpc == v.bpc
    ensures LiveOk(v', g, q, {})
  {
    hide AttrOf, SlotAt, AttrAt;
  }

  lemma BehindTermNames(v: Volume, v': Volume, g: Layout)
    requires NamesDistinct(v, g)
    requires forall q, r :: Live(v', g, q) && Live(v', g, r) ==>
               Live(v, g, q) && Live(v, g, r) && AttrAt(v', g, q) == AttrAt(v, g, q)
                 && AttrAt(v', g, r) == AttrAt(v, g, r)
    ensures NamesDistinct(v', g)
  {
    hide AttrOf, SlotAt, AttrAt, Live;
  }

  lemma BehindTermNode(v: Volume, g: Layout, p: Place, b: seq<byte>, j: nat)
    requires Inv(v, g) && InDir(v, g, p) && |b| == DIRENT_SIZE && j in g.owner
    requires AttrAt(SlotPlaceWrite(v, g, p, b), g, g.owner[j]) == AttrAt(v, g, g.owner[j])
    ensures NodeOf(SlotPlaceWrite(v, g, p, b), g, j) == NodeOf(v, g, j)
  {
    hide AttrOf, SlotAt, AttrAt, ChainsOk, Live, LiveOk, DirOk, NamesDistinct;
    OwnerPlace(v, g, {}, j);
    if j !in g.dirs {
      PutSlotStream(v, g, p, b, j);
    }
  }

  // ---- a new entry ----

  // p holds the entry of a new chain of one cluster, t is where its directory ends now.
  function AddedLayout(g: Layout, p: Place, c: nat, directory: bool, t: Term): Layout {
    var dirs := g.dirs[p.dir := t];
    g.(chains := g.chains[c := [c]], owner := g.owner[c := p], dirs := if directory then dirs[c := Term(0, 0)]
      else dirs)
  }

  // The volume after cluster c became a chain of its own and p an entry for it.
  function Added(u: Volume, g: Layout, p: Place, b: seq<byte>, c: nat): Volume
    requires |b| == DIRENT_SIZE && c < |u.fat|
  {
    SlotPlaceWrite(u, g, p, b).(fat := u.fat[c := End])
  }

  // Behind p the next slot that is not deleted is t, and it holds an end marker.
  ghost predicate EndsNextAt(u: Volume, g: Layout, p: Place, t: Term) {
    && InDir(u, g, Place(p.dir, t.k, t.e)) && Before(p.k, p.e, t) && IsEnd(SlotAt(u, g, Place(p.dir, t.k, t.e)))
    && forall q :: InDir(u, g, q) && q.dir == p.dir && Before(p.k, p.e, Term(q.k, q.e)) && Before(q.k, q.e, t) ==>
         IsDeleted(SlotAt(u, g, q))
  }

  // p is a deleted slot, or the terminator with another end marker behind it; t is where
  // the directory ends once p holds an entry.
  ghost predicate RoomAt(u: Volume, g: Layout, p: Place, t: Term) {
    && InDir(u, g, p)
    && if Term(p.k, p.e) == g.dirs[p.dir] then EndsNextAt(u, g, p, t)
       else t == g.dirs[p.dir] && Before(p.k, p.e, t) && IsDeleted(SlotAt(u, g, p))
  }

  ghost predicate Addable(u: Volume, g: Layout, p: Place, b: seq<byte>, c: nat, t: Term)
    requires |b| == DIRENT_SIZE
  {
    && Inv(u, g) && RoomAt(u, g, p, t)
    && u.InRange(c) && c < |u.fat| && u.fat[c] == Available
    && GoodSlot(u.variant, b) && !IsDeleted(b)
    && var a := AttrOf(u.variant, b);
      && a.first == c && a.size == 0 && NoEntry(u, g, p.dir, a.name)
      && (a.IsDirectory() ==> IsEnd(SlotBytes(u, c, 0)))
  }

  lemma FreshCluster(u: Volume, g: Layout, c: nat)
    requires Inv(u, g) && u.InRange(c) && u.fat[c] == Available
    ensures c !in g.chains && c !in g.dirs && c !in g.owner && forall k :: k in g.chains ==> c !in g.chains[k]
  {
    hide AttrOf, SlotAt, DirOk, LiveOk, Live, NamesDistinct;
    forall k | k in g.chains ensures c !in g.chains[k] && k != c {
      assert IsChain(u, g.chains[k]);
      ChainEntryInUse(u, g.chains[k], g.chains[k][0]);
      AvailableIsOutside(u, g.chains[k], c);
    }
  }

  lemma AddedChains(u: Volume, g: Layout, p: Place, b: seq<byte>, c: nat, t: Term)
    requires |b| == DIRENT_SIZE && Addable(u, g, p, b, c, t)
    ensures var v := Added(u, g, p, b, c);
      && v.Wf() && v.bpc == u.bpc && v.variant == u.variant && |v.clusters| == |u.clusters|
      && ChainsOk(v, g.chains[c := [c]])
  {
    hide AttrOf, SlotAt, DirOk, LiveOk, Live, NamesDistinct, SlotPut, NoEntry, GoodSlot, AttrAt;
    PutPlace(u, g, p, b);
    FreshCluster(u, g, c);
    var v := Added(u, g, p, b, c);
    assert IsChain(v, [c]) by {
      assert v.fat[[c][0]] == Link([c], 0);
    }
    ReshapeKeepsChains(u, v, g.chains, c, [], [c]);
  }

  // Slot by slot, the new directories: p holds the new entry, the rest is as before.
  lemma AddedAt(u: Volume, g: Layout, p: Place, b: seq<byte>, c: nat, q: Place, t: Term)
    requires |b| == DIRENT_SIZE && Addable(u, g, p, b, c, t)
    ensures var v, g' := Added(u, g, p, b, c), AddedLayout(g, p, c, AttrOf(u.variant, b).IsDirectory(), t);
      && (Live(v, g', q) <==> q == p || Live(u, g, q))
      && (InDir(u, g, q) ==> SlotAt(v, g', q) == (if q == p then b else SlotAt(u, g, q)) && q.dir != c)
  {
    hide AttrOf, DirOk, LiveOk, NamesDistinct, NoEntry, GoodSlot, AttrAt, ChainsOk, SlotBytes;
    PutPlace(u, g, p, b);
    FreshCluster(u, g, c);
    var v, g' := Added(u, g, p, b, c), AddedLayout(g, p, c, AttrOf(u.variant, b).IsDirectory(), t);
    if InDir(u, g, q) {
      AddedSlot(u, g, p, b, c, q, SlotPlaceWrite(u, g, p, b), AttrOf(u.variant, b).IsDirectory(), t);
    }
  }

  lemma AddedSlot(u: Volume, g: Layout, p: Place, b: seq<byte>, c: nat, q: Place, w: Volume, directory: bool, t: Term)
    requires |b| == DIRENT_SIZE && SlotPut(u, w, g, p, b) && InDir(u, g, q)
    requires c !in g.chains && c < |u.fat|
    ensures SlotAt(w.(fat := u.fat[c := End]), AddedLayout(g, p, c, directory, t), q) == if q == p then b
            else SlotAt(u, g, q)
  {
    var v := w.(fat := u.fat[c := End]);
    assert SlotAt(v, AddedLayout(g, p, c, directory, t), q) == SlotAt(w, g, q);
  }

  lemma RoomEnd(u: Volume, g: Layout, p: Place, t: Term)
    requires RoomAt(u, g, p, t) && DirOk(u, g, p.dir)
    ensures InDir(u, g, p) && InDir(u, g, Place(p.dir, t.k, t.e)) && IsEnd(SlotAt(u, g, Place(p.dir, t.k, t.e)))
    ensures p != Place(p.dir, t.k, t.e)
  {
    hide AttrOf, SlotAt, GoodSlot, IsEnd;
  }

  // Up to its new end a directory holds the new entry and what was good before.
  lemma SlotBeforeEnd(u: Volume, g: Layout, p: Place, t: Term, d: nat, k: nat, e: nat)
    requires RoomAt(u, g, p, t) && DirOk(u, g, d) && e < SlotsPerCluster(u.bpc)
    requires Before(k, e, if d == p.dir then t else g.dirs[d])
    ensures InDir(u, g, Place(d, k, e))
    ensures Place(d, k, e) == p || GoodSlot(u.variant, SlotAt(u, g, Place(d, k, e)))
  {
    hide AttrOf, SlotAt;
    assert InDir(u, g, Place(d, k, e));
  }

  lemma AddedDir(u: Volume, g: Layout, p: Place, b: seq<byte>, c: nat, d: nat, t: Term)
    requires |b| == DIRENT_SIZE && Addable(u, g, p, b, c, t) && d in g.dirs
    ensures DirOk(Added(u, g, p, b, c), AddedLayout(g, p, c, AttrOf(u.variant, b).IsDirectory(), t), d)
  {
    hide AttrOf, SlotAt, GoodSlot, ChainsOk, NoEntry, NamesDistinct, LiveOk, AttrAt, Live, SlotBytes, IsEnd, RoomAt;
    var v, g' := Added(u, g, p, b, c), AddedLayout(g, p, c, AttrOf(u.variant, b).IsDirectory(), t);
    assert DirOk(u, g, d);
    AddedChains(u, g, p, b, c, t);
    FreshCluster(u, g, c);
    var end := g'.dirs[d];
    RoomInDir(u, g, p, t);
    RoomEnd(u, g, p, t);
    AddedAt(u, g, p, b, c, Place(d, end.k, end.e), t);
    assert InDir(u, g, Place(d, end.k, end.e));
    forall k, e | 0 <= k && 0 <= e < SlotsPerCluster(v.bpc) && Before(k, e, end)
      ensures GoodSlot(v.variant, SlotAt(v, g', Place(d, k, e)))
    {
      SlotBeforeEnd(u, g, p, t, d, k, e);
      AddedAt(u, g, p, b, c, Place(d, k, e), t);
    }
  }

  lemma AddedNewDir(u: Volume, g: Layout, p: Place, b: seq<byte>, c: nat, t: Term)
    requires |b| == DIRENT_SIZE && Addable(u, g, p, b, c, t) && AttrOf(u.variant, b).IsDirectory()
    ensures DirOk(Added(u, g, p, b, c), AddedLayout(g, p, c, true, t), c)
  {
    hide AttrOf, GoodSlot, ChainsOk, NoEntry, NamesDistinct, LiveOk, AttrAt, Live, SlotBytes, DirOk, SlotPut;
    PutPlace(u, g, p, b);
    FreshCluster(u, g, c);
    InDirCluster(u, g, p);
    var v, g' := Added(u, g, p, b, c), AddedLayout(g, p, c, true, t);
    OtherClusterSlot(u, ClusterAt(g, p), DIRENT_SIZE * p.e, b, c, 0);
    SlotIgnoresFat(SlotPlaceWrite(u, g, p, b), v, c, 0);
    NewDirOk(v, g', c);
  }

  lemma SlotIgnoresFat(v: Volume, v': Volume, c: nat, e: nat)
    requires v'.clusters == v.clusters
    ensures SlotBytes(v', c, e) == SlotBytes(v, c, e)
  {
  }

  lemma InDirCluster(u: Volume, g: Layout, p: Place)
    requires InDir(u, g, p)
    ensures ClusterAt(g, p) in g.chains[p.dir] && p.dir in g.chains
  {
  }

  lemma OtherClusterSlot(v: Volume, c: nat, off: nat, b: seq<byte>, c': nat, e: nat)
    requires c < |v.clusters| && off + |b| <= |v.clusters[c]| && c' != c
    ensures SlotBytes(v.Write(c, off, b), c', e) == SlotBytes(v, c', e)
  {
  }

  lemma NewDirOk(v: Volume, g: Layout, c: nat)
    requires v.Wf() && c in g.chains && g.chains[c] == [c] && c in g.dirs && g.dirs[c] == Term(0, 0)
    requires IsEnd(SlotBytes(v, c, 0))
    ensures DirOk(v, g, c)
  {
    hide GoodSlot, SlotBytes;
  }

  lemma AddedLiveOk(u: Volume, g: Layout, p: Place, b: seq<byte>, c: nat, q: Place, t: Term)
    requires |b| == DIRENT_SIZE && Addable(u, g, p, b, c, t)
    requires Live(Added(u, g, p, b, c), AddedLayout(g, p, c, AttrOf(u.variant, b).IsDirectory(), t), q)
    ensures LiveOk(Added(u, g, p, b, c), AddedLayout(g, p, c, AttrOf(u.variant, b).IsDirectory(), t), q, {})
  {
    hide AttrOf, SlotAt, GoodSlot, ChainsOk, NoEntry, NamesDistinct, Live, SlotBytes, IsEnd, DirOk;
    var v, g' := Added(u, g, p, b, c), AddedLayout(g, p, c, AttrOf(u.variant, b).IsDirectory(), t);
    AddedChains(u, g, p, b, c, t);
    FreshCluster(u, g, c);
    AddedAt(u, g, p, b, c, q, t);
    if q != p {
      LiveInDir(u, g, q);
      assert LiveOk(u, g, q, {});
    }
  }

  lemma AddedNames(u: Volume, g: Layout, p: Place, b: seq<byte>, c: nat, t: Term)
    requires |b| == DIRENT_SIZE && Addable(u, g, p, b, c, t)
    ensures NamesDistinct(Added(u, g, p, b, c), AddedLayout(g, p, c, AttrOf(u.variant, b).IsDirectory(), t))
  {
    hide AttrOf, SlotAt, GoodSlot, ChainsOk, Live, SlotBytes, IsEnd, DirOk, LiveOk, InDir;
    var v, g' := Added(u, g, p, b, c), AddedLayout(g, p, c, AttrOf(u.variant, b).IsDirectory(), t);
    AddedChains(u, g, p, b, c, t);
    forall q, r | Live(v, g', q) && Live(v, g', r) && q.dir == r.dir && AttrAt(v, g', q).name == AttrAt(v, g', r).name
      ensures q == r
    {
      AddedAt(u, g, p, b, c, q, t);
      AddedAt(u, g, p, b, c, r, t);
      if q != p { LiveInDir(u, g, q); }
      if r != p { LiveInDir(u, g, r); }
      RoomInDir(u, g, p, t);
    }
  }

  lemma RoomInDir(u: Volume, g: Layout, p: Place, t: Term)
    requires RoomAt(u, g, p, t)
    ensures InDir(u, g, p) && !Live(u, g, p)
  {
  }

  lemma AddedOwner(u: Volume, g: Layout, p: Place, b: seq<byte>, c: nat, j: nat, t: Term)
    requires |b| == DIRENT_SIZE && Addable(u, g, p, b, c, t) && (j == c || j in g.owner)
    ensures var v, g' := Added(u, g, p, b, c), AddedLayout(g, p, c, AttrOf(u.variant, b).IsDirectory(), t);
      && Live(v, g', g'.owner[j]) && AttrAt(v, g', g'.owner[j]).first == j
      && NodeOf(v, g', j) ==
           if j == c then Node(p.dir, AttrOf(u.variant, b), if AttrOf(u.variant, b).IsDirectory() then []
              else u.clusters[c])
                             else NodeOf(u, g, j)
  {
    hide AttrOf, SlotAt, GoodSlot, ChainsOk, NoEntry, NamesDistinct, Live, SlotBytes, IsEnd, DirOk, LiveOk, SlotPut,
         Stream;
    var v, g' := Added(u, g, p, b, c), AddedLayout(g, p, c, AttrOf(u.variant, b).IsDirectory(), t);
    AddedChains(u, g, p, b, c, t);
    FreshCluster(u, g, c);
    AddedAt(u, g, p, b, c, g'.owner[j], t);
    RoomInDir(u, g, p, t);
    PutPlace(u, g, p, b);
    InDirCluster(u, g, p);
    if j == c {
      StreamLast(v, [c]);
      assert [c][..0] == [];
      StreamNil(v);
    } else {
      OwnerPlace(u, g, {}, j);
      LiveInDir(u, g, g.owner[j]);
      if j !in g.dirs {
        PutSlotStream(u, g, p, b, j);
        StreamFrame(SlotPlaceWrite(u, g, p, b), v, g.chains[j]);
      }
    }
  }

  lemma StreamNil(v: Volume)
    ensures Stream(v, []) == []
  {
  }

  // Adding an entry keeps the invariant and adds one node to the inode table.
  lemma AddEntry(u: Volume, g: Layout, p: Place, b: seq<byte>, c: nat, t: Term)
    requires |b| == DIRENT_SIZE && Addable(u, g, p, b, c, t)
    ensures var v, g', a := Added(u, g, p, b, c), AddedLayout(g, p, c, AttrOf(u.variant, b).IsDirectory(), t),
            AttrOf(u.variant, b);
      Inv(v, g') && Abs(v, g') == Abs(u, g)[c := Node(p.dir, a, if a.IsDirectory() then [] else u.clusters[c])]
  {
    hide AttrOf, SlotAt, GoodSlot, ChainsOk, NoEntry, NamesDistinct, Live, SlotBytes, IsEnd, DirOk, LiveOk, AttrAt,
         NodeOf, RoomAt, Added;
    var v, g' := Added(u, g, p, b, c), AddedLayout(g, p, c, AttrOf(u.variant, b).IsDirectory(), t);
    AddedChains(u, g, p, b, c, t);
    AddedNames(u, g, p, b, c, t);
    FreshCluster(u, g, c);
    RoomInDir(u, g, p, t);
    forall d | d in g'.dirs ensures DirOk(v, g', d) {
      if d == c { AddedNewDir(u, g, p, b, c, t); } else { AddedDir(u, g, p, b, c, d, t); }
    }
    forall q | Live(v, g', q) ensures LiveOk(v, g', q, {}) {
      AddedLiveOk(u, g, p, b, c, q, t);
    }
    forall j | j in g'.owner
      ensures Live(v, g', g'.owner[j]) && AttrAt(v, g', g'.owner[j]).first == j
      ensures NodeOf(v, g', j) ==
                if j == c then Node(p.dir, AttrOf(u.variant, b), if AttrOf(u.variant, b).IsDirectory() then []
                   else u.clusters[c])
                                  else NodeOf(u, g, j)
    {
      AddedOwner(u, g, p, b, c, j, t);
    }
  }

  // ---- removing an entry ----

  ghost predicate EmptyDir(v: Volume, g: Layout, d: nat) {
    forall q :: Live(v, g, q) ==> q.dir != d
  }

  function RemovedLayout(g: Layout, k: nat): Layout {
    g.(chains := g.chains - {k}, owner := g.owner - {k}, dirs := g.dirs - {k})
  }

  // The volume after chain k was freed and the slot at p marked deleted.
  function Removed(v: Volume, g: Layout, p: Place, k: nat): Volume {
    SlotPlaceWrite(v.(fat := FreeChain(v.fat, k)), g, p, SlotAt(v, g, p)[0 := DELETED])
  }

  // p holds the entry of chain k, and is not itself in there.
  ghost predicate Unlinkable(v: Volume, g: Layout, p: Place, k: nat) {
    Inv(v, g) && Live(v, g, p) && AttrAt(v, g, p).first == k && p.dir != k
  }

  // In addition k is a file or an empty directory.
  ghost predicate Removable(v: Volume, g: Layout, p: Place, k: nat) {
    Unlinkable(v, g, p, k) && EmptyDir(v, g, k)
  }

  // Freeing chain k makes exactly its clusters available.
  lemma FreedFat(v: Volume, g: Layout, k: nat)
    requires v.Wf() && ChainsOk(v, g.chains) && k in g.chains
    ensures k < |v.fat| && |FreeChain(v.fat, k)| == |v.fat|
    ensures forall i :: 0 <= i < |v.fat| ==> FreeChain(v.fat, k)[i] == if i in g.chains[k] then Available else v.fat[i]
  {
    var ch := g.chains[k];
    assert IsChain(v, ch) && ch[0] == k;
    FreeChainTail(v.fat, ch, 0);
    assert ch[0..] == ch;
  }

  lemma FreedChains(v: Volume, g: Layout, p: Place, k: nat)
    requires Unlinkable(v, g, p, k)
    ensures k in g.owner && g.owner[k] == p && k != g.root
    ensures var v1 := v.(fat := FreeChain(v.fat, k)); v1.Wf() && ChainsOk(v1, g.chains - {k})
    ensures k in g.chains && k < |v.fat| && forall i :: 0 <= i < |v.fat| ==>
              FreeChain(v.fat, k)[i] == if i in g.chains[k] then Available else v.fat[i]
  {
    hide AttrOf, SlotAt, GoodSlot, DirOk, LiveOk, NamesDistinct, Live;
    LiveOwner(v, g, {}, p);
    var ch := g.chains[k];
    assert IsChain(v, ch) && ch[0] == k;
    FreedFat(v, g, k);
    ReshapeKeepsChains(v, v.(fat := FreeChain(v.fat, k)), g.chains, k, ch, []);
  }

  lemma RemovedAt(v: Volume, g: Layout, p: Place, k: nat, q: Place)
    requires Unlinkable(v, g, p, k)
    ensures var v', g' := Removed(v, g, p, k), RemovedLayout(g, k);
      && v'.Wf() && v'.bpc == v.bpc && v'.variant == v.variant && |v'.clusters| == |v.clusters|
         && ChainsOk(v', g'.chains)
      && v'.fat == FreeChain(v.fat, k)
      && (InDir(v', g', q) <==> InDir(v, g, q) && q.dir != k)
      && (InDir(v', g', q) ==> SlotAt(v', g', q) == if q == p then SlotAt(v, g, p)[0 := DELETED] else SlotAt(v, g, q))
      && (Live(v', g', q) <==> Live(v, g, q) && q != p && q.dir != k)
  {
    hide AttrOf, GoodSlot, DirOk, LiveOk, NamesDistinct, ChainsOk, SlotBytes, FreeChain;
    FreedChains(v, g, p, k);
    var v1, g' := v.(fat := FreeChain(v.fat, k)), RemovedLayout(g, k);
    PutPlace(v1, g', p, SlotAt(v, g, p)[0 := DELETED]);
    if InDir(v, g, q) && q.dir != k {
      SlotIgnoresFat(v, v1, ClusterAt(g, q), q.e);
    }
  }

  lemma RemovedDir(v: Volume, g: Layout, p: Place, k: nat, d: nat)
    requires Removable(v, g, p, k) && d in g.dirs && d != k
    ensures DirOk(Removed(v, g, p, k), RemovedLayout(g, k), d)
  {
    hide AttrOf, SlotAt, GoodSlot, LiveOk, NamesDistinct, ChainsOk, SlotBytes, Removed, Live, EmptyDir;
    assert DirOk(v, g, d);
    var t := g.dirs[d];
    var v', g' := Removed(v, g, p, k), RemovedLayout(g, k);
    RemovedAt(v, g, p, k, Place(d, t.k, t.e));
    LiveBefore(v, g, p);
    forall i, e | 0 <= i && 0 <= e < SlotsPerCluster(v'.bpc) && Before(i, e, t)
      ensures GoodSlot(v'.variant, SlotAt(v', g', Place(d, i, e)))
    {
      RemovedAt(v, g, p, k, Place(d, i, e));
      DeletedIsGood(v.variant, SlotAt(v, g, p));
    }
  }

  lemma LiveBefore(v: Volume, g: Layout, p: Place)
    requires Live(v, g, p)
    ensures InDir(v, g, p) && Before(p.k, p.e, g.dirs[p.dir])
  {
  }

  lemma DeletedIsGood(variant: Variant, b: seq<byte>)
    requires |b| == DIRENT_SIZE
    ensures GoodSlot(variant, b[0 := DELETED])
  {
  }

  lemma RemovedNode(v: Volume, g: Layout, p: Place, k: nat, j: nat)
    requires Removable(v, g, p, k) && j in g.owner && j != k
    ensures var v', g' := Removed(v, g, p, k), RemovedLayout(g, k);
      && Live(v', g', g'.owner[j]) && AttrAt(v', g', g'.owner[j]).first == j && NodeOf(v', g', j) == NodeOf(v, g, j)
  {
    hide AttrOf, SlotAt, GoodSlot, LiveOk, NamesDistinct, ChainsOk, SlotBytes, Live, DirOk, FreeChain, Stream;
    OwnerPlace(v, g, {}, j);
    LiveInDir(v, g, g.owner[j]);
    FreedChains(v, g, p, k);
    RemovedAt(v, g, p, k, g.owner[j]);
    if j !in g.dirs {
      var v1, g' := v.(fat := FreeChain(v.fat, k)), RemovedLayout(g, k);
      RemovedAt(v, g, p, k, p);
      LiveInDir(v, g, p);
      PutSlotStream(v1, g', p, SlotAt(v, g, p)[0 := DELETED], j);
      PutPlace(v1, g', p, SlotAt(v, g, p)[0 := DELETED]);
      StreamFrame(v, v1, g.chains[j]);
    }
  }

  lemma RemovedLiveOk(v: Volume, g: Layout, p: Place, k: nat, q: Place)
    requires Removable(v, g, p, k) && Live(v, g, q) && q != p
    ensures LiveOk(Removed(v, g, p, k), RemovedLayout(g, k), q, {})
  {
    hide AttrOf, SlotAt, GoodSlot, NamesDistinct, ChainsOk, SlotBytes, Live, DirOk, FreeChain, Removed;
    FreedChains(v, g, p, k);
    RemovedAt(v, g, p, k, q);
    LiveInDir(v, g, q);
    assert LiveOk(v, g, q, {});
  }

  // Removing an entry keeps the invariant, takes one node out of the inode table and
  // makes exactly the clusters of its chain available.
  lemma RemoveEntry(v: Volume, g: Layout, p: Place, k: nat)
    requires Removable(v, g, p, k)
    ensures Inv(Removed(v, g, p, k), RemovedLayout(g, k))
    ensures Abs(Removed(v, g, p, k), RemovedLayout(g, k)) == Abs(v, g) - {k}
  {
    hide AttrOf, SlotAt, GoodSlot, ChainsOk, NamesDistinct, Live, SlotBytes, DirOk, LiveOk, AttrAt, NodeOf, Removed,
         FreeChain, Removable;
    RemovableInv(v, g, p, k);
    FreedChains(v, g, p, k);
    var v', g' := Removed(v, g, p, k), RemovedLayout(g, k);
    RemovedAt(v, g, p, k, p);
    RemovedNames(v, g, p, k);
    forall d | d in g'.dirs ensures DirOk(v', g', d) {
      RemovedDir(v, g, p, k, d);
    }
    forall q | Live(v', g', q) ensures LiveOk(v', g', q, {}) {
      RemovedAt(v, g, p, k, q);
      RemovedLiveOk(v, g, p, k, q);
    }
    forall j | j in g'.owner
      ensures Live(v', g', g'.owner[j]) && AttrAt(v', g', g'.owner[j]).first == j
              && NodeOf(v', g', j) == NodeOf(v, g, j)
    {
      RemovedNode(v, g, p, k, j);
    }
  }

  lemma RemovableInv(v: Volume, g: Layout, p: Place, k: nat)
    requires Removable(v, g, p, k)
    ensures Inv(v, g) && Unlinkable(v, g, p, k) && EmptyDir(v, g, k)
  {
  }

  lemma RemovedNames(v: Volume, g: Layout, p: Place, k: nat)
    requires Removable(v, g, p, k)
    ensures NamesDistinct(Removed(v, g, p, k), RemovedLayout(g, k))
  {
    hide AttrOf, SlotAt, GoodSlot, ChainsOk, Live, SlotBytes, DirOk, LiveOk, Removed, FreeChain;
    var v', g' := Removed(v, g, p, k), RemovedLayout(g, k);
    forall q, r | Live(v', g', q) && Live(v', g', r) && q.dir == r.dir
      && AttrAt(v', g', q).name == AttrAt(v', g', r).name
      ensures q == r
    {
      RemovedAt(v, g, p, k, q);
      RemovedAt(v, g, p, k, r);
      LiveInDir(v', g', q);
      LiveInDir(v', g', r);
    }
  }

  // ---- exchanging two entries ----

  // p and q are two live entries; bp and bq are to replace them, each naming the
  // other's chain under the name that is already there.
  ghost predicate Swappable(v: Volume, g: Layout, p: Place, q: Place, bp: seq<byte>, bq: seq<byte>)
    requires |bp| == DIRENT_SIZE && |bq| == DIRENT_SIZE
  {
    && Inv(v, g) && Live(v, g, p) && Live(v, g, q) && p != q
    && GoodSlot(v.variant, bp) && !IsDeleted(bp) && GoodSlot(v.variant, bq) && !IsDeleted(bq)
    && AttrOf(v.variant, bp) == AttrAt(v, g, q).(name := AttrAt(v, g, p).name)
    && AttrOf(v.variant, bq) == AttrAt(v, g, p).(name := AttrAt(v, g, q).name)
  }

  // First the entry at q is overwritten, then the one at p.
  function Swapped(v: Volume, g: Layout, p: Place, q: Place, bp: seq<byte>, bq: seq<byte>): Volume
    requires |bp| == DIRENT_SIZE && |bq| == DIRENT_SIZE
  {
    SlotPlaceWrite(SlotPlaceWrite(v, g, q, bq), g, p, bp)
  }

  function SwappedLayout(v: Volume, g: Layout, p: Place, q: Place): Layout {
    g.(owner := g.owner[AttrAt(v, g, p).first := q][AttrAt(v, g, q).first := p])
  }

  lemma SwappedAt(v: Volume, g: Layout, p: Place, q: Place, bp: seq<byte>, bq: seq<byte>, r: Place)
    requires |bp| == DIRENT_SIZE && |bq| == DIRENT_SIZE && Swappable(v, g, p, q, bp, bq)
    ensures var v', g' := Swapped(v, g, p, q, bp, bq), SwappedLayout(v, g, p, q);
      && v'.Wf() && v'.bpc == v.bpc && v'.variant == v.variant && |v'.clusters| == |v.clusters| && v'.fat == v.fat
      && ChainsOk(v', g.chains)
      && (InDir(v, g, r) ==> SlotAt(v', g', r) == if r == p then bp else if r == q then bq else SlotAt(v, g, r))
      && (Live(v', g', r) <==> Live(v, g, r))
      && (Live(v, g, r) ==>
            AttrAt(v', g', r) == if r == p then AttrOf(v.variant, bp) else if r == q then AttrOf(v.variant, bq)
              else AttrAt(v, g, r))
  {
    hide AttrOf, GoodSlot, DirOk, LiveOk, NamesDistinct, ChainsOk, SlotBytes;
    PutPlace(v, g, q, bq);
    var v1, g' := SlotPlaceWrite(v, g, q, bq), SwappedLayout(v, g, p, q);
    PutPlace(v1, g, p, bp);
    if InDir(v, g, r) {
      assert SlotAt(SlotPlaceWrite(v1, g, p, bp), g', r) == SlotAt(SlotPlaceWrite(v1, g, p, bp), g, r);
    }
  }

  lemma SwappedDir(v: Volume, g: Layout, p: Place, q: Place, bp: seq<byte>, bq: seq<byte>, d: nat)
    requires |bp| == DIRENT_SIZE && |bq| == DIRENT_SIZE && Swappable(v, g, p, q, bp, bq) && d in g.dirs
    ensures DirOk(Swapped(v, g, p, q, bp, bq), SwappedLayout(v, g, p, q), d)
  {
    hide AttrOf, SlotAt, GoodSlot, LiveOk, NamesDistinct, ChainsOk, SlotBytes, Swapped, AttrAt;
    assert DirOk(v, g, d);
    var t := g.dirs[d];
    var v', g' := Swapped(v, g, p, q, bp, bq), SwappedLayout(v, g, p, q);
    SwappedAt(v, g, p, q, bp, bq, Place(d, t.k, t.e));
    LiveBefore(v, g, p);
    LiveBefore(v, g, q);
    forall i, e | 0 <= i && 0 <= e < SlotsPerCluster(v'.bpc) && Before(i, e, t)
      ensures GoodSlot(v'.variant, SlotAt(v', g', Place(d, i, e)))
    {
      SwappedAt(v, g, p, q, bp, bq, Place(d, i, e));
    }
  }

  lemma SwappedKeys(v: Volume, g: Layout, p: Place, q: Place)
    requires Inv(v, g) && Live(v, g, p) && Live(v, g, q) && p != q
    ensures var kp, kq := AttrAt(v, g, p).first, AttrAt(v, g, q).first;
      && kp != kq && kp in g.owner && kq in g.owner && g.owner[kp] == p && g.owner[kq] == q
      && kp in g.chains && kq in g.chains
    ensures LiveOk(v, g, p, {}) && LiveOk(v, g, q, {})
  {
    hide AttrOf, SlotAt, GoodSlot, NamesDistinct, ChainsOk, SlotBytes, AttrAt, Live, DirOk, LiveOk;
    LiveOwner(v, g, {}, p);
    LiveOwner(v, g, {}, q);
  }

  lemma SwappedLiveOk(v: Volume, g: Layout, p: Place, q: Place, bp: seq<byte>, bq: seq<byte>, r: Place)
    requires |bp| == DIRENT_SIZE && |bq| == DIRENT_SIZE && Swappable(v, g, p, q, bp, bq) && Live(v, g, r)
    ensures LiveOk(Swapped(v, g, p, q, bp, bq), SwappedLayout(v, g, p, q), r, {})
  {
    hide AttrOf, SlotAt, GoodSlot, NamesDistinct, ChainsOk, SlotBytes, Swapped, AttrAt, Live, DirOk;
    SwappedKeys(v, g, p, q);
    SwappedAt(v, g, p, q, bp, bq, r);
    assert LiveOk(v, g, r, {});
  }

  lemma SwappedNames(v: Volume, g: Layout, p: Place, q: Place, bp: seq<byte>, bq: seq<byte>)
    requires |bp| == DIRENT_SIZE && |bq| == DIRENT_SIZE && Swappable(v, g, p, q, bp, bq)
    ensures NamesDistinct(Swapped(v, g, p, q, bp, bq), SwappedLayout(v, g, p, q))
  {
    hide AttrOf, SlotAt, GoodSlot, ChainsOk, Live, SlotBytes, DirOk, LiveOk, Swapped, AttrAt, SwappedLayout;
    var v', g' := Swapped(v, g, p, q, bp, bq), SwappedLayout(v, g, p, q);
    forall r, s | Live(v', g', r) && Live(v', g', s) && r.dir == s.dir
      && AttrAt(v', g', r).name == AttrAt(v', g', s).name
      ensures r == s
    {
      SwappedAt(v, g, p, q, bp, bq, r);
      SwappedAt(v, g, p, q, bp, bq, s);
    }
  }

  lemma SwappedNode(v: Volume, g: Layout, p: Place, q: Place, bp: seq<byte>, bq: seq<byte>, j: nat)
    requires |bp| == DIRENT_SIZE && |bq| == DIRENT_SIZE && Swappable(v, g, p, q, bp, bq) && j in g.owner
    ensures var v', g' := Swapped(v, g, p, q, bp, bq), SwappedLayout(v, g, p, q);
      var kp, kq := AttrAt(v, g, p).first, AttrAt(v, g, q).first;
      && kp in g.owner && kq in g.owner && j in g'.owner
      && Live(v', g', g'.owner[j]) && AttrAt(v', g', g'.owner[j]).first == j
      && NodeOf(v', g', j) ==
           if j == kp then NodeOf(v, g, kp).(dir := q.dir, attr := AttrAt(v, g, p).(name := AttrAt(v, g, q).name))
           else if j == kq then NodeOf(v, g, kq).(dir := p.dir, attr := AttrAt(v, g, q).(name := AttrAt(v, g, p).name))
           else NodeOf(v, g, j)
  {
    hide AttrOf, SlotAt, GoodSlot, LiveOk, NamesDistinct, ChainsOk, SlotBytes, Live, DirOk, Stream, AttrAt, Swapped;
    SwappedKeys(v, g, p, q);
    OwnerPlace(v, g, {}, j);
    var g' := SwappedLayout(v, g, p, q);
    SwappedAt(v, g, p, q, bp, bq, g'.owner[j]);
    if j !in g.dirs {
      SwappedStream(v, g, p, q, bp, bq, j);
    }
  }

  lemma SwappedStream(v: Volume, g: Layout, p: Place, q: Place, bp: seq<byte>, bq: seq<byte>, j: nat)
    requires |bp| == DIRENT_SIZE && |bq| == DIRENT_SIZE && Swappable(v, g, p, q, bp, bq)
    requires j in g.chains && j !in g.dirs
    ensures Stream(Swapped(v, g, p, q, bp, bq), g.chains[j]) == Stream(v, g.chains[j])
  {
    hide AttrOf, SlotAt, GoodSlot, LiveOk, NamesDistinct, ChainsOk, SlotBytes, DirOk, Stream, AttrAt, SlotPut;
    LiveInDir(v, g, p);
    LiveInDir(v, g, q);
    PutPlace(v, g, q, bq);
    PutSlotStream(v, g, q, bq, j);
    var v1 := SlotPlaceWrite(v, g, q, bq);
    assert v1.bpc == v.bpc;
    PutPlace(v1, g, p, bp);
    PutSlotStream(v1, g, p, bp, j);
  }

  // The swap keeps the invariant and exchanges the two chains' directories and names.
  lemma SwapEntries(v: Volume, g: Layout, p: Place, q: Place, bp: seq<byte>, bq: seq<byte>)
    requires |bp| == DIRENT_SIZE && |bq| == DIRENT_SIZE && Swappable(v, g, p, q, bp, bq)
    ensures var v', g' := Swapped(v, g, p, q, bp, bq), SwappedLayout(v, g, p, q);
      var kp, kq := AttrAt(v, g, p).first, AttrAt(v, g, q).first;
      && Inv(v', g') && kp in g.owner && kq in g.owner && kp != kq
      && Abs(v', g') == Abs(v, g)
           [kp := NodeOf(v, g, kp).(dir := q.dir, attr := AttrAt(v, g, p).(name := AttrAt(v, g, q).name))]
           [kq := NodeOf(v, g, kq).(dir := p.dir, attr := AttrAt(v, g, q).(name := AttrAt(v, g, p).name))]
  {
    hide AttrOf, SlotAt, GoodSlot, ChainsOk, NamesDistinct, Live, SlotBytes, DirOk, LiveOk, AttrAt, NodeOf, Swapped;
    SwappedKeys(v, g, p, q);
    var v', g' := Swapped(v, g, p, q, bp, bq), SwappedLayout(v, g, p, q);
    SwappedAt(v, g, p, q, bp, bq, p);
    SwappedNames(v, g, p, q, bp, bq);
    forall d | d in g'.dirs ensures DirOk(v', g', d) {
      SwappedDir(v, g, p, q, bp, bq, d);
    }
    forall r | Live(v', g', r) ensures LiveOk(v', g', r, {}) {
      SwappedAt(v, g, p, q, bp, bq, r);
      SwappedLiveOk(v, g, p, q, bp, bq, r);
    }
    var kp, kq := AttrAt(v, g, p).first, AttrAt(v, g, q).first;
    forall j | j in g'.owner
      ensures Live(v', g', g'.owner[j]) && AttrAt(v', g', g'.owner[j]).first == j
      ensures NodeOf(v', g', j) ==
           if j == kp then NodeOf(v, g, kp).(dir := q.dir, attr := AttrAt(v, g, p).(name := AttrAt(v, g, q).name))
           else if j == kq then NodeOf(v, g, kq).(dir := p.dir, attr := AttrAt(v, g, q).(name := AttrAt(v, g, p).name))
           else NodeOf(v, g, j)
    {
      SwappedNode(v, g, p, q, bp, bq, j);
    }
  }

  // A second write to the same slot leaves no trace of the first.
  lemma PutTwice(v: Volume, g: Layout, p: Place, b: seq<byte>, b': seq<byte>)
    requires |b| == DIRENT_SIZE && |b'| == DIRENT_SIZE
    ensures SlotPlaceWrite(SlotPlaceWrite(v, g, p, b), g, p, b') == SlotPlaceWrite(v, g, p, b')
  {
    var c := ClusterAt(g, p);
    if c < |v.clusters| && DIRENT_SIZE * p.e + DIRENT_SIZE <= |v.clusters[c]| {
      assert Splice(Splice(v.clusters[c], DIRENT_SIZE * p.e, b), DIRENT_SIZE * p.e, b')
             == Splice(v.clusters[c], DIRENT_SIZE * p.e, b');
    }
  }

  // ---- a cluster nobody owns ----

  lemma WriteFresh(v: Volume, g: Layout, c: nat, off: nat, b: seq<byte>)
    requires Inv(v, g) && v.InRange(c) && v.fat[c] == Available && off + |b| <= v.bpc
    ensures |v.clusters[c]| == v.bpc
    ensures Inv(v.Write(c, off, b), g) && Abs(v.Write(c, off, b), g) == Abs(v, g)
  {
    hide AttrOf, SlotAt, SameSlots, DirOk, NamesDistinct, ChainsOk, LiveOk, Live, AttrAt, NodeOf;
    FreshCluster(v, g, c);
    var v' := v.Write(c, off, b);
    SameFatSameChains(v, v', g.chains);
    forall d | d in g.dirs ensures d in g.chains {}
    SameClustersSameSlots(v, g, v', g);
    SameSlotsNames(v, g, v', g);
    forall d | d in g.dirs ensures DirOk(v', g, d) {
      SameSlotsDir(v, g, v', g, d);
    }
    forall p | Live(v', g, p) ensures LiveOk(v', g, p, {}) {
      SameSlotsAt(v, g, v', g, p);
      LiveInDir(v, g, p);
      BehindTermLiveOk(v, v', g, p);
    }
    forall j | j in g.owner
      ensures Live(v', g, g.owner[j]) && AttrAt(v', g, g.owner[j]).first == j && NodeOf(v', g, j) == NodeOf(v, g, j)
    {
      SameSlotsAt(v, g, v', g, g.owner[j]);
      LiveInDir(v, g, g.owner[j]);
      WriteFreshNode(v, g, c, off, b, j);
    }
  }

  lemma WriteFreshNode(v: Volume, g: Layout, c: nat, off: nat, b: seq<byte>, j: nat)
    requires c < |v.clusters| && off + |b| <= |v.clusters[c]| && j in g.owner
    requires forall k :: k in g.chains ==> c !in g.chains[k]
    requires AttrAt(v.Write(c, off, b), g, g.owner[j]) == AttrAt(v, g, g.owner[j])
    ensures NodeOf(v.Write(c, off, b), g, j) == NodeOf(v, g, j)
  {
    hide AttrAt, Stream;
    if j in g.chains { StreamFrame(v, v.Write(c, off, b), g.chains[j]); }
  }
}
