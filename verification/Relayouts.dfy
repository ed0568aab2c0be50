// What holds of every layout that fits a changed volume: its chains are those of the
// table, and the entries it has are among those that were there.

module Relayouts {
  import opened Bytes
  import opened Codec
  import opened Geometry
  import opened Volumes
  import opened Streams
  import opened Layouts
  import opened Entries
  import opened Dirs
  import opened Rooms

  // g' has the root of g and no directories but those of g and extra.
  ghost predicate Relayout(g: Layout, g': Layout, extra: set<nat>) {
    g'.root == g.root && g'.dirs.Keys <= g.dirs.Keys + extra
  }

  lemma {:induction false} SameSteps(v: Volume, a: seq<nat>, b: seq<nat>, j: nat)
    requires |v.fat| == |v.clusters| + 1 && IsChain(v, a) && IsChain(v, b) && a[0] == b[0]
    requires j < |a| && j < |b|
    ensures a[j] == b[j]
  {
    if j > 0 {
      SameSteps(v, a, b, j - 1);
      assert v.fat[a[j - 1]] == Link(a, j - 1) && v.fat[b[j - 1]] == Link(b, j - 1);
    }
  }

  // The table alone determines the chain that starts at a cluster.
  lemma ChainDetermined(v: Volume, a: seq<nat>, b: seq<nat>)
    requires |v.fat| == |v.clusters| + 1 && IsChain(v, a) && IsChain(v, b) && a[0] == b[0]
    ensures a == b
  {
    forall j: nat | j < |a| && j < |b| ensures a[j] == b[j] {
      SameSteps(v, a, b, j);
    }
    var m: nat := if |a| <= |b| then |a| else |b|;
    assert v.fat[a[m - 1]] == Link(a, m - 1) && v.fat[b[m - 1]] == Link(b, m - 1);
  }

  lemma HeadsInChains(v: Volume, chains: map<nat, seq<nat>>)
    requires v.Wf() && ChainsOk(v, chains)
    ensures forall k :: k in chains ==> k in chains[k]
  {
    forall k | k in chains ensures k in chains[k] {
      assert chains[k][0] in chains[k];
    }
  }

  // What a data entry points to is no chain's first cluster.
  lemma SuccessorIsNoHead(v: Volume, chains: map<nat, seq<nat>>, x: nat)
    requires v.Wf() && ChainsOk(v, chains) && v.InRange(x)
    ensures v.fat[x].Data? ==> v.fat[x].next !in chains
  {
    HeadsInChains(v, chains);
    if v.fat[x].Data? {
      assert Owned(chains, x);
      var l :| l in chains && x in chains[l];
      var i :| 0 <= i < |chains[l]| && chains[l][i] == x;
      assert v.fat[chains[l][i]] == Link(chains[l], i);
      var n := chains[l][i + 1];
      assert n in chains[l] && n != l;
    }
  }

  // A chain that stays in use and gains no predecessor stays a chain of its own.
  lemma HeadStays(v: Volume, chains: map<nat, seq<nat>>, v': Volume, chains': map<nat, seq<nat>>, j: nat)
    requires v.Wf() && v'.Wf() && ChainsOk(v, chains) && ChainsOk(v', chains') && |v'.fat| == |v.fat|
    requires j in chains && v'.fat[j] != Available
    requires forall x :: v.InRange(x) && v'.fat[x] == Data(j) ==> v.fat[x] == Data(j)
    ensures j in chains'
  {
    assert IsChain(v, chains[j]);
    assert v.InRange(chains[j][0]);
    assert Owned(chains', j);
    var l :| l in chains' && j in chains'[l];
    var i :| 0 <= i < |chains'[l]| && chains'[l][i] == j;
    assert IsChain(v', chains'[l]);
    if i > 0 {
      var x := chains'[l][i - 1];
      assert v'.fat[chains'[l][i - 1]] == Link(chains'[l], i - 1);
      assert v'.InRange(x);
      SuccessorIsNoHead(v, chains, x);
    }
  }

  // No directory goes on behind an end marker, nor ends before its first one.
  lemma EndsByMarker(v: Volume, g: Layout, d: nat, t: Term)
    requires DirOk(v, g, d) && InDir(v, g, Place(d, t.k, t.e)) && IsEnd(SlotAt(v, g, Place(d, t.k, t.e)))
    ensures !Before(t.k, t.e, g.dirs[d])
  {
    hide AttrOf, SlotAt;
  }

  lemma SameChainSlot(v: Volume, g: Layout, g': Layout, q: Place)
    requires q.dir in g.chains && q.dir in g'.chains && g'.chains[q.dir] == g.chains[q.dir]
    ensures SlotAt(v, g', q) == SlotAt(v, g, q)
  {
  }

  // ---- after an unlink ----

  // A directory of the unlinked volume has the chain and the slots it had, but for p.
  lemma UnlinkedDir(v: Volume, g: Layout, p: Place, k: nat, g': Layout, d: nat)
    requires Unlinkable(v, g, p, k) && Inv(Removed(v, g, p, k), g') && Relayout(g, g', {}) && d in g'.dirs
    ensures d != k && d in g.dirs && d in g.chains && d in g'.chains && g'.chains[d] == g.chains[d]
  {
    hide AttrOf, SlotAt, DirOk, LiveOk, Live, NamesDistinct, FreeChain;
    var v', g1 := Removed(v, g, p, k), RemovedLayout(g, k);
    RemovedAt(v, g, p, k, p);
    FreedChains(v, g, p, k);
    assert IsChain(v', g'.chains[d]);
    ChainEntryInUse(v', g'.chains[d], g'.chains[d][0]);
    assert d in g1.chains && IsChain(v', g1.chains[d]);
    ChainDetermined(v', g'.chains[d], g1.chains[d]);
  }

  // Its entries were entries before.
  lemma UnlinkedLive(v: Volume, g: Layout, p: Place, k: nat, g': Layout, q: Place)
    requires Unlinkable(v, g, p, k) && Inv(Removed(v, g, p, k), g') && Relayout(g, g', {})
    requires Live(Removed(v, g, p, k), g', q)
    ensures Live(v, g, q) && q != p && AttrAt(Removed(v, g, p, k), g', q) == AttrAt(v, g, q)
  {
    hide AttrOf, LiveOk, NamesDistinct, ChainsOk, FreeChain, SlotAt, GoodSlot, IsEnd, Removed;
    var v', g1, d := Removed(v, g, p, k), RemovedLayout(g, k), q.dir;
    LiveInDir(v', g', q);
    UnlinkedDir(v, g, p, k, g', d);
    assert DirOk(v, g, d) && DirOk(v', g', d);
    var t := g.dirs[d];
    RemovedAt(v, g, p, k, q);
    RemovedAt(v, g, p, k, Place(d, t.k, t.e));
    SameChainSlot(v', g1, g', q);
    SameChainSlot(v', g1, g', Place(d, t.k, t.e));
    LiveBefore(v, g, p);
    EndsByMarker(v', g', d, t);
  }

  lemma InvShape(v: Volume, g: Layout)
    requires Inv(v, g)
    ensures v.Wf() && ChainsOk(v, g.chains) && g.owner.Keys == g.chains.Keys - {g.root}
    ensures g.root in g.dirs && g.dirs.Keys <= g.chains.Keys
  {
  }

  // Every other chain stays a chain.
  lemma UnlinkedHead(v: Volume, g: Layout, p: Place, k: nat, g': Layout, j: nat)
    requires Unlinkable(v, g, p, k) && Inv(Removed(v, g, p, k), g') && j in g.chains && j != k
    ensures j in g'.chains
  {
    hide AttrOf, SlotAt, InvBut, FreeChain, Removed, AttrAt, Live, IsChain, Disjoint;
    var v' := Removed(v, g, p, k);
    InvShape(v, g);
    InvShape(v', g');
    RemovedAt(v, g, p, k, p);
    FreedChains(v, g, p, k);
    HeadsInChains(v, g.chains);
    ChainEntryInUse(v, g.chains[j], j);
    assert j !in g.chains[k] by { DisjointHeads(g.chains, j, k); }
    HeadStays(v, g.chains, v', g'.chains, j);
  }

  lemma DisjointHeads(chains: map<nat, seq<nat>>, j: nat, k: nat)
    requires Disjoint(chains) && j in chains && k in chains && j != k && j in chains[j]
    ensures j !in chains[k]
  {
  }

  // The entries that were not unlinked are still there, in directories that are.
  lemma UnlinkedKeeps(v: Volume, g: Layout, p: Place, k: nat, g': Layout, q: Place)
    requires Unlinkable(v, g, p, k) && Inv(Removed(v, g, p, k), g') && Relayout(g, g', {})
    requires Live(v, g, q) && q != p
    ensures q.dir in g'.dirs
  {
    hide AttrOf, SlotAt, InvBut, Live, FreeChain, Removed, AttrAt, ChainsOk;
    var v', j := Removed(v, g, p, k), AttrAt(v, g, q).first;
    LiveOwner(v, g, {}, p);
    LiveOwner(v, g, {}, q);
    UnlinkedHead(v, g, p, k, g', j);
    InvShape(v', g');
    var q' := g'.owner[j];
    OwnerPlace(v', g', {}, j);
    UnlinkedLive(v, g, p, k, g', q');
    LiveOwner(v, g, {}, q');
  }

  // Unlinking does not look into a directory.  Where there was something in it, nothing
  // can be said to be the layout of the volume any more: the entries' chains stay in use
  // and no directory names them.
  lemma RemoveNeedsEmpty(v: Volume, g: Layout, p: Place, k: nat)
    requires Unlinkable(v, g, p, k)
    ensures EmptyDir(v, g, k) <==> exists g' :: Relayout(g, g', {}) && Inv(Removed(v, g, p, k), g')
  {
    hide AttrOf, SlotAt, InvBut, AttrAt, Removed, FreeChain, Live, Inv;
    if EmptyDir(v, g, k) {
      RemoveEntry(v, g, p, k);
      assert Relayout(g, RemovedLayout(g, k), {});
    }
    if exists g' :: Relayout(g, g', {}) && Inv(Removed(v, g, p, k), g') {
      var g' :| Relayout(g, g', {}) && Inv(Removed(v, g, p, k), g');
      forall q | Live(v, g, q) ensures q.dir != k {
        if q != p {
          UnlinkedKeeps(v, g, p, k, g', q);
          UnlinkedDir(v, g, p, k, g', q.dir);
        }
      }
    }
  }

  // ---- after creating an entry without room ----

  // The scan stops at p, an end marker in its cluster's last slot, and c is free.
  ghost predicate Cramped(v: Volume, g: Layout, p: Place, c: nat, a: Attr) {
    && Inv(v, g) && ScanStops(v, g, p) && !RoomFor(v, g, p)
    && v.InRange(c) && c < |v.fat| && v.fat[c] == Available && |v.clusters[c]| == v.bpc
    && GoodName(a.name) && a.first == c && a.size == 0 && c < 0x1_0000_0000
  }

  // Slot by slot: p holds the entry, the first slot of the next cluster on the device is
  // marked, the rest is as it was.
  lemma CreatedSlot(v: Volume, g: Layout, p: Place, c: nat, a: Attr, q: Place)
    requires Cramped(v, g, p, c, a) && InDir(v, g, q)
    ensures SlotAt(CreatedVolume(v, g, p, c, a), g, q)
         == if q == p then Encode(v.variant, a)
            else if MarkFalls(g, p, q) then SlotAt(v, g, q)[0 := END_OF_DIR] else SlotAt(v, g, q)
  {
    hide AttrOf, SlotBytes, InvBut, ScanStops, Encode, Marked, PutAt, SlotPlaceWrite, FirstMarked, Inv, SlotPut;
    WfBound(v, g);
    FreshSlot(v, g, c, q);
    FreshScan(v, g, p, c);
    WriteFresh(v, g, c, 0, Zeros(v.bpc));
    var u := v.Write(c, 0, Zeros(v.bpc));
    NoRoomIsTerm(u, g, p);
    MarkedIsFirst(u, g, p);
    MarkedShape(u, g, p);
    var u2 := Marked(u, g, p);
    assert u2.Wf() by { FirstMarkedWf(u, ClusterAt(g, p) + 1); }
    SameFatSameChains(u, u2, g.chains);
    FirstMarkedSlot(u, g, ClusterAt(g, p) + 1, q);
    PutPlace(u2, g, p, Encode(v.variant, a));
    SlotPutAt(u2, SlotPlaceWrite(u2, g, p, Encode(v.variant, a)), g, p, Encode(v.variant, a), q);
    CreatedIsAdded(v, g, p, c, a);
    SlotIgnoresFat(SlotPlaceWrite(u2, g, p, Encode(v.variant, a)), CreatedVolume(v, g, p, c, a), ClusterAt(g, q), q.e);
  }

  lemma FirstMarkedWf(u: Volume, s: nat)
    requires u.Wf()
    ensures FirstMarked(u, s).Wf()
  {
  }

  lemma SlotPutAt(v: Volume, v': Volume, g: Layout, p: Place, b: seq<byte>, q: Place)
    requires |b| == DIRENT_SIZE && SlotPut(v, v', g, p, b) && InDir(v, g, q)
    ensures SlotAt(v', g, q) == if q == p then b else SlotAt(v, g, q)
  {
  }

  // The chains of g are chains still, and so those of any layout that fits.
  lemma CreatedChain(v: Volume, g: Layout, p: Place, c: nat, a: Attr, g': Layout, j: nat)
    requires Cramped(v, g, p, c, a) && Inv(CreatedVolume(v, g, p, c, a), g') && j in g.chains && j in g'.chains
    ensures g'.chains[j] == g.chains[j] && j != c
  {
    hide AttrOf, SlotBytes, InvBut, ScanStops, RoomFor, CreatedVolume;
    var v' := CreatedVolume(v, g, p, c, a);
    CreatedFat(v, g, p, c, a);
    InvShape(v, g);
    InvShape(v', g');
    FreshCluster(v, g, c);
    ChainUntouched(v, v', g.chains[j]);
    ChainDetermined(v', g'.chains[j], g.chains[j]);
  }

  lemma CreatedNewChain(v: Volume, g: Layout, p: Place, c: nat, a: Attr, g': Layout)
    requires Cramped(v, g, p, c, a) && Inv(CreatedVolume(v, g, p, c, a), g') && c in g'.chains
    ensures g'.chains[c] == [c]
  {
    hide AttrOf, SlotBytes, InvBut, ScanStops, RoomFor, CreatedVolume;
    var v' := CreatedVolume(v, g, p, c, a);
    CreatedFat(v, g, p, c, a);
    InvShape(v', g');
    assert v'.fat[[c][0]] == Link([c], 0);
    ChainDetermined(v', g'.chains[c], [c]);
  }

  // A directory that had its end elsewhere has it no later now.
  lemma CreatedEnd(v: Volume, g: Layout, p: Place, c: nat, a: Attr, g': Layout, d: nat)
    requires Cramped(v, g, p, c, a) && Inv(CreatedVolume(v, g, p, c, a), g')
    requires d in g.dirs && d in g'.dirs && d != p.dir
    ensures !Before(g.dirs[d].k, g.dirs[d].e, g'.dirs[d])
  {
    hide AttrOf, SlotAt, InvBut, ScanStops, RoomFor, CreatedVolume, Encode;
    var v', t := CreatedVolume(v, g, p, c, a), g.dirs[d];
    CreatedFat(v, g, p, c, a);
    InvShape(v, g);
    InvShape(v', g');
    CreatedChain(v, g, p, c, a, g', d);
    InvDir(v, g, d);
    InvDir(v', g', d);
    CreatedSlot(v, g, p, c, a, Place(d, t.k, t.e));
    SameChainSlot(v', g, g', Place(d, t.k, t.e));
    EndsByMarker(v', g', d, t);
  }

  // An entry before the old end of its directory is an old one.
  lemma CreatedLive(v: Volume, g: Layout, p: Place, c: nat, a: Attr, g': Layout, q: Place)
    requires Cramped(v, g, p, c, a) && Inv(CreatedVolume(v, g, p, c, a), g')
    requires Live(CreatedVolume(v, g, p, c, a), g', q) && q.dir in g.dirs && Before(q.k, q.e, g.dirs[q.dir])
    ensures Live(v, g, q) && AttrAt(CreatedVolume(v, g, p, c, a), g', q) == AttrAt(v, g, q)
  {
    hide AttrOf, SlotAt, InvBut, RoomFor, CreatedVolume, Encode, GoodSlot;
    var v' := CreatedVolume(v, g, p, c, a);
    CreatedFat(v, g, p, c, a);
    LiveInDir(v', g', q);
    InvShape(v, g);
    InvShape(v', g');
    CreatedChain(v, g, p, c, a, g', q.dir);
    CreatedSlot(v, g, p, c, a, q);
    SameChainSlot(v', g, g', q);
    InvDir(v', g', q.dir);
    NoRoomIsTerm(v, g, p);
    LiveIsGood(v', g', q);
  }

  lemma LiveIsGood(v: Volume, g: Layout, q: Place)
    requires DirOk(v, g, q.dir) && Live(v, g, q)
    ensures GoodSlot(v.variant, SlotAt(v, g, q)) && !IsEnd(SlotAt(v, g, q))
  {
    hide AttrOf, SlotAt;
  }

  // The new entry's cluster starts with an end marker.
  lemma CreatedNewSlot(v: Volume, g: Layout, p: Place, c: nat, a: Attr)
    requires Cramped(v, g, p, c, a)
    ensures IsEnd(SlotBytes(CreatedVolume(v, g, p, c, a), c, 0))
  {
    hide AttrOf, InvBut, ScanStops, Encode, Inv, SlotAt;
    WfBound(v, g);
    FreshScan(v, g, p, c);
    WriteFresh(v, g, c, 0, Zeros(v.bpc));
    var u, s := v.Write(c, 0, Zeros(v.bpc)), ClusterAt(g, p) + 1;
    NoRoomIsTerm(u, g, p);
    MarkedIsFirst(u, g, p);
    var u2 := Marked(u, g, p);
    assert u.clusters[c] == Zeros(v.bpc);
    assert IsEnd(SlotBytes(u2, c, 0));
    CreatedIsAdded(v, g, p, c, a);
  }

  // A new directory in that cluster has no entries.
  lemma CreatedNewDir(v: Volume, g: Layout, p: Place, c: nat, a: Attr, g': Layout, q: Place)
    requires Cramped(v, g, p, c, a) && Inv(CreatedVolume(v, g, p, c, a), g')
    requires Live(CreatedVolume(v, g, p, c, a), g', q)
    ensures q.dir != c
  {
    hide AttrOf, SlotBytes, InvBut, ScanStops, RoomFor, CreatedVolume, GoodSlot, IsEnd;
    var v' := CreatedVolume(v, g, p, c, a);
    LiveInDir(v', g', q);
    InvShape(v', g');
    InvDir(v', g', q.dir);
    if q.dir == c {
      CreatedNewChain(v, g, p, c, a, g');
      CreatedNewSlot(v, g, p, c, a);
      EndsByMarker(v', g', c, Term(0, 0));
    }
  }

  // Chains with entries stay chains.
  lemma CreatedHead(v: Volume, g: Layout, p: Place, c: nat, a: Attr, g': Layout, j: nat)
    requires Cramped(v, g, p, c, a) && Inv(CreatedVolume(v, g, p, c, a), g') && j in g.chains
    ensures j in g'.chains && j != c
  {
    hide AttrOf, SlotBytes, InvBut, ScanStops, RoomFor, CreatedVolume, Live, IsChain, Disjoint;
    var v' := CreatedVolume(v, g, p, c, a);
    CreatedFat(v, g, p, c, a);
    InvShape(v, g);
    InvShape(v', g');
    FreshCluster(v, g, c);
    HeadsInChains(v, g.chains);
    ChainEntryInUse(v, g.chains[j], j);
    HeadStays(v, g.chains, v', g'.chains, j);
  }

  // With the end marker in the last slot of the directory's last cluster, every entry
  // stays where it was in any layout there may be.
  lemma LastSlotKeeps(v: Volume, g: Layout, p: Place, c: nat, a: Attr, g': Layout, q: Place)
    requires Cramped(v, g, p, c, a) && p.k + 1 == |g.chains[p.dir]| && Relayout(g, g', {c})
    requires Inv(CreatedVolume(v, g, p, c, a), g') && Live(v, g, q)
    ensures Live(CreatedVolume(v, g, p, c, a), g', q)
    ensures AttrAt(CreatedVolume(v, g, p, c, a), g', q) == AttrAt(v, g, q)
  {
    hide AttrOf, SlotAt, InvBut, RoomFor, CreatedVolume, Live, AttrAt, ChainsOk;
    var v', j := CreatedVolume(v, g, p, c, a), AttrAt(v, g, q).first;
    LiveOwner(v, g, {}, q);
    CreatedHead(v, g, p, c, a, g', j);
    InvShape(v', g');
    var q' := g'.owner[j];
    OwnerPlace(v', g', {}, j);
    CreatedNewDir(v, g, p, c, a, g', q');
    LastSlotOrder(v, g, p, c, a, g', q');
    CreatedLive(v, g, p, c, a, g', q');
    LiveOwner(v, g, {}, q');
  }

  lemma LastSlotOrder(v: Volume, g: Layout, p: Place, c: nat, a: Attr, g': Layout, q: Place)
    requires Cramped(v, g, p, c, a) && p.k + 1 == |g.chains[p.dir]| && Relayout(g, g', {c})
    requires Inv(CreatedVolume(v, g, p, c, a), g') && Live(CreatedVolume(v, g, p, c, a), g', q)
    requires q.dir != c && AttrAt(CreatedVolume(v, g, p, c, a), g', q).first != c
    ensures q.dir in g.dirs && Before(q.k, q.e, g.dirs[q.dir])
  {
    hide AttrOf, SlotAt, InvBut, RoomFor, CreatedVolume, AttrAt, Encode;
    var v' := CreatedVolume(v, g, p, c, a);
    LiveInDir(v', g', q);
    CreatedFat(v, g, p, c, a);
    InvShape(v, g);
    InvShape(v', g');
    NoRoomIsTerm(v, g, p);
    LiveBefore(v', g', q);
    CreatedChain(v, g, p, c, a, g', q.dir);
    if q.dir != p.dir {
      CreatedEnd(v, g, p, c, a, g', q.dir);
    } else {
      CreatedEntry(v, g, p, c, a, g');
    }
  }

  // The entry at p names the new cluster.
  lemma CreatedEntry(v: Volume, g: Layout, p: Place, c: nat, a: Attr, g': Layout)
    requires Cramped(v, g, p, c, a) && p.dir in g.chains && p.dir in g'.chains && g'.chains[p.dir] == g.chains[p.dir]
    ensures AttrAt(CreatedVolume(v, g, p, c, a), g', p).first == c
    ensures !IsEnd(SlotAt(CreatedVolume(v, g, p, c, a), g', p))
    ensures !IsDeleted(SlotAt(CreatedVolume(v, g, p, c, a), g', p))
  {
    hide AttrOf, SlotAt, InvBut, RoomFor, CreatedVolume, Encode, GoodSlot, Stored;
    CreatedFat(v, g, p, c, a);
    CreatedSlot(v, g, p, c, a, p);
    SameChainSlot(CreatedVolume(v, g, p, c, a), g, g', p);
    EncodedSlot(v.variant, a);
    GoodIsNotEnd(v.variant, Encode(v.variant, a));
    StoredShape(v.variant, a);
  }

  lemma LastSlotDir(v: Volume, g: Layout, p: Place, c: nat, a: Attr, g': Layout)
    requires Cramped(v, g, p, c, a) && p.k + 1 == |g.chains[p.dir]| && Relayout(g, g', {c})
    requires Inv(CreatedVolume(v, g, p, c, a), g')
    ensures p.dir in g'.dirs
  {
    hide AttrOf, SlotAt, InvBut, RoomFor, CreatedVolume, Live, AttrAt, ChainsOk;
    var v' := CreatedVolume(v, g, p, c, a);
    InvShape(v, g);
    InvShape(v', g');
    if p.dir != g.root {
      var q := g.owner[p.dir];
      OwnerPlace(v, g, {}, p.dir);
      LastSlotKeeps(v, g, p, c, a, g', q);
      LiveOwner(v', g', {}, q);
      OwnerPlace(v', g', {}, p.dir);
    }
  }

  lemma LastSlotFails(v: Volume, g: Layout, p: Place, c: nat, a: Attr, g': Layout)
    requires Cramped(v, g, p, c, a) && p.k + 1 == |g.chains[p.dir]| && Relayout(g, g', {c})
    ensures !Inv(CreatedVolume(v, g, p, c, a), g')
  {
    hide AttrOf, SlotAt, InvBut, RoomFor, CreatedVolume, AttrAt, ChainsOk, Encode, GoodSlot, IsEnd, IsDeleted;
    var v' := CreatedVolume(v, g, p, c, a);
    if Inv(v', g') {
      CreatedFat(v, g, p, c, a);
      LastSlotDir(v, g, p, c, a, g');
      InvShape(v', g');
      InvDir(v', g', p.dir);
      CreatedChain(v, g, p, c, a, g', p.dir);
      CreatedEntry(v, g, p, c, a, g');
      NoRoomIsTerm(v, g, p);
      var t := g'.dirs[p.dir];
      LastSlotKeeps(v, g, p, c, a, g', Place(p.dir, t.k, t.e));
    }
  }

  // The end marker being in the last slot of its directory's last cluster, the new entry
  // replaces it, and nothing can be said to be the layout of the volume any more.
  lemma LastSlotLoses(v: Volume, g: Layout, p: Place, c: nat, a: Attr)
    requires Inv(v, g) && ScanStops(v, g, p) && !RoomFor(v, g, p) && p.dir in g.chains && p.k + 1 == |g.chains[p.dir]|
    requires v.InRange(c) && v.fat[c] == Available
    requires GoodName(a.name) && a.first == c && a.size == 0 && c < 0x1_0000_0000
    ensures |v.clusters[c]| == v.bpc
    ensures forall g' :: Relayout(g, g', {c}) ==> !Inv(CreatedVolume(v, g, p, c, a), g')
  {
    hide AttrOf, SlotAt, InvBut, RoomFor, CreatedVolume, Inv, ScanStops, Relayout;
    WfBound(v, g);
    forall g' | Relayout(g, g', {c}) ensures !Inv(CreatedVolume(v, g, p, c, a), g') {
      LastSlotFails(v, g, p, c, a, g');
    }
  }

  // ---- exactly when creating works ----

  // In layout g' the created volume is proper and has the old nodes and the new one.
  ghost predicate CreatedTable(v: Volume, g: Layout, p: Place, c: nat, a: Attr, g': Layout)
    requires v.InRange(c) && c < |v.fat| && |v.clusters[c]| == v.bpc && |a.name| <= MAX_NAME
  {
    && g'.root == g.root && Inv(CreatedVolume(v, g, p, c, a), g')
    && Abs(CreatedVolume(v, g, p, c, a), g') == Abs(v, g)[c := NewNode(v.variant, p.dir, a, v.bpc)]
  }

  // Every old node has its entry in the same directory, with the same attributes.
  lemma TableOwner(v: Volume, g: Layout, p: Place, c: nat, a: Attr, g': Layout, j: nat)
    requires Cramped(v, g, p, c, a) && CreatedTable(v, g, p, c, a, g') && (j in g.owner || j == c)
    ensures j in g'.owner && (j == c <==> j !in g.owner)
    ensures g'.owner[j].dir == if j == c then p.dir else g.owner[j].dir
    ensures j != c ==> AttrAt(CreatedVolume(v, g, p, c, a), g', g'.owner[j]) == AttrAt(v, g, g.owner[j])
    ensures j != c ==> NodeOf(CreatedVolume(v, g, p, c, a), g', j) == NodeOf(v, g, j)
    ensures j == c ==> NodeOf(CreatedVolume(v, g, p, c, a), g', j) == NewNode(v.variant, p.dir, a, v.bpc)
  {
    hide AttrOf, SlotAt, InvBut, RoomFor, CreatedVolume, AttrAt, ScanStops, Stream;
    FreshCluster(v, g, c);
    var abs, abs' := Abs(v, g), Abs(CreatedVolume(v, g, p, c, a), g');
    assert j in abs' && (j != c ==> j in abs && abs'[j] == abs[j]);
  }

  lemma TableDir(v: Volume, g: Layout, p: Place, c: nat, a: Attr, g': Layout, d: nat)
    requires Cramped(v, g, p, c, a) && CreatedTable(v, g, p, c, a, g') && d in g.dirs
    ensures d in g'.dirs && d in g.chains && d in g'.chains && g'.chains[d] == g.chains[d]
    ensures DirOk(CreatedVolume(v, g, p, c, a), g', d)
  {
    hide AttrOf, SlotAt, InvBut, RoomFor, CreatedVolume, AttrAt, ScanStops, Live, ChainsOk, Abs, DirOk;
    var v' := CreatedVolume(v, g, p, c, a);
    InvShape(v, g);
    InvShape(v', g');
    if d != g.root {
      TableOwner(v, g, p, c, a, g', d);
      OwnerPlace(v, g, {}, d);
      OwnerPlace(v', g', {}, d);
    }
    CreatedChain(v, g, p, c, a, g', d);
    InvDir(v', g', d);
  }

  // The new entry is before its directory's end.
  lemma TableEntry(v: Volume, g: Layout, p: Place, c: nat, a: Attr, g': Layout)
    requires Cramped(v, g, p, c, a) && CreatedTable(v, g, p, c, a, g')
    ensures p.dir in g'.dirs && Before(p.k, p.e, g'.dirs[p.dir])
  {
    hide AttrOf, SlotAt, InvBut, RoomFor, CreatedVolume, AttrAt, ChainsOk, Abs, DirOk;
    var v' := CreatedVolume(v, g, p, c, a);
    NoRoomIsTerm(v, g, p);
    TableDir(v, g, p, c, a, g', p.dir);
    TableOwner(v, g, p, c, a, g', c);
    FreshCluster(v, g, c);
    var q := g'.owner[c];
    OwnerPlace(v', g', {}, c);
    LiveBefore(v', g', q);
    if !Before(p.k, p.e, g'.dirs[p.dir]) {
      CreatedLive(v, g, p, c, a, g', q);
      LiveOwner(v, g, {}, q);
    }
  }

  // The old entries of its directory are where they were.
  lemma TableKeeps(v: Volume, g: Layout, p: Place, c: nat, a: Attr, g': Layout, q: Place)
    requires Cramped(v, g, p, c, a) && CreatedTable(v, g, p, c, a, g') && Live(v, g, q) && q.dir == p.dir
    ensures Live(CreatedVolume(v, g, p, c, a), g', q)
    ensures AttrAt(CreatedVolume(v, g, p, c, a), g', q) == AttrAt(v, g, q)
  {
    hide AttrOf, SlotAt, InvBut, RoomFor, CreatedVolume, ChainsOk, Abs, GoodSlot, Encode;
    var v' := CreatedVolume(v, g, p, c, a);
    CreatedFat(v, g, p, c, a);
    NoRoomIsTerm(v, g, p);
    TableDir(v, g, p, c, a, g', p.dir);
    TableEntry(v, g, p, c, a, g');
    CreatedSlot(v, g, p, c, a, q);
    SameChainSlot(v', g, g', q);
    SlotIsGood(v', g', q);
  }

  lemma SlotIsGood(v: Volume, g: Layout, q: Place)
    requires DirOk(v, g, q.dir) && Before(q.k, q.e, g.dirs[q.dir]) && q.e < SlotsPerCluster(v.bpc)
    ensures GoodSlot(v.variant, SlotAt(v, g, q)) && !IsEnd(SlotAt(v, g, q))
  {
    hide AttrOf, SlotAt;
  }

  // No slot behind the new entry came to life.
  lemma NoNewcomer(v: Volume, g: Layout, p: Place, c: nat, a: Attr, g': Layout, q: Place)
    requires Cramped(v, g, p, c, a) && CreatedTable(v, g, p, c, a, g')
    requires q.dir == p.dir && Before(p.k, p.e, Term(q.k, q.e))
    ensures !Live(CreatedVolume(v, g, p, c, a), g', q)
  {
    hide AttrOf, SlotAt, InvBut, RoomFor, CreatedVolume, AttrAt, ChainsOk, Abs, DirOk, IsDeleted;
    var v' := CreatedVolume(v, g, p, c, a);
    CreatedFat(v, g, p, c, a);
    NoRoomIsTerm(v, g, p);
    TableDir(v, g, p, c, a, g', p.dir);
    TableEntry(v, g, p, c, a, g');
    CreatedEntry(v, g, p, c, a, g');
    assert Live(v', g', p);
    LiveOwner(v', g', {}, p);
    if Live(v', g', q) {
      LiveOwner(v', g', {}, q);
      var j := AttrAt(v', g', q).first;
      TableKeys(v, g, p, c, a, g', j);
      TableOwner(v, g, p, c, a, g', j);
      OwnerPlace(v, g, {}, j);
      LiveBefore(v, g, g.owner[j]);
      TableKeeps(v, g, p, c, a, g', g.owner[j]);
      LiveOwner(v', g', {}, g.owner[j]);
    }
  }

  lemma TableKeys(v: Volume, g: Layout, p: Place, c: nat, a: Attr, g': Layout, j: nat)
    requires Cramped(v, g, p, c, a) && CreatedTable(v, g, p, c, a, g') && j in g'.owner
    ensures j in g.owner || j == c
  {
    hide AttrOf, SlotAt, InvBut, RoomFor, CreatedVolume, NodeOf, ScanStops;
    assert j in Abs(CreatedVolume(v, g, p, c, a), g');
  }

  lemma TableEnds(v: Volume, g: Layout, p: Place, c: nat, a: Attr, g': Layout)
    requires Cramped(v, g, p, c, a) && CreatedTable(v, g, p, c, a, g')
    ensures EndsBehind(v, g, p)
  {
    hide AttrOf, SlotAt, InvBut, RoomFor, CreatedVolume, AttrAt, ChainsOk, Abs, Encode, GoodSlot;
    var v' := CreatedVolume(v, g, p, c, a);
    CreatedFat(v, g, p, c, a);
    TableDir(v, g, p, c, a, g', p.dir);
    TableEntry(v, g, p, c, a, g');
    var t := g'.dirs[p.dir];
    var e := Place(p.dir, t.k, t.e);
    CreatedSlot(v, g, p, c, a, e);
    SameChainSlot(v', g, g', e);
    forall q | InDir(v, g, q) && q.dir == p.dir && Before(p.k, p.e, Term(q.k, q.e)) && Before(q.k, q.e, t)
      ensures IsDeleted(SlotAt(v, g, q)) && !MarkFalls(g, p, q)
    {
      CreatedSlot(v, g, p, c, a, q);
      SameChainSlot(v', g, g', q);
      SlotIsGood(v', g', q);
      NoNewcomer(v, g, p, c, a, g', q);
    }
    assert EndsOverDeleted(v, g, p, t);
  }

  // The marker is on the volume.
  lemma CreatedFirstByte(v: Volume, g: Layout, p: Place, c: nat, a: Attr)
    requires Cramped(v, g, p, c, a) && ClusterAt(g, p) + 1 < |v.clusters|
    ensures var v', s := CreatedVolume(v, g, p, c, a), ClusterAt(g, p) + 1;
      s < |v'.clusters| && |v'.clusters[s]| == v.bpc && v.bpc > 0 && v'.clusters[s][0] == END_OF_DIR
  {
    hide AttrOf, InvBut, ScanStops, Encode, Inv, SlotAt;
    WfBound(v, g);
    FreshScan(v, g, p, c);
    WriteFresh(v, g, c, 0, Zeros(v.bpc));
    var u, s := v.Write(c, 0, Zeros(v.bpc)), ClusterAt(g, p) + 1;
    NoRoomIsTerm(u, g, p);
    MarkedIsFirst(u, g, p);
    var u2 := Marked(u, g, p);
    assert u2.clusters[s][0] == END_OF_DIR && |u2.clusters[s]| == v.bpc;
    CreatedIsAdded(v, g, p, c, a);
  }

  lemma StreamFirst(v: Volume, v': Volume, ch: seq<nat>, i: nat)
    requires v.Wf() && v'.Wf() && v'.bpc == v.bpc && AllInRange(v, ch) && AllInRange(v', ch) && i < |ch|
    requires Stream(v', ch) == Stream(v, ch)
    ensures v.InRange(ch[i]) && v'.InRange(ch[i]) && |v.clusters[ch[i]]| == v.bpc == |v'.clusters[ch[i]]| && v.bpc > 0
    ensures v'.clusters[ch[i]][0] == v.clusters[ch[i]][0]
  {
    hide Stream, Times;
    StreamAt(v, ch, i, 0, 1);
    StreamAt(v', ch, i, 0, 1);
    assert v'.clusters[ch[i]][0..1][0] == v.clusters[ch[i]][0..1][0];
  }

  // A file keeps its bytes, so the marker cannot have changed one of them.
  lemma TableFile(v: Volume, g: Layout, p: Place, c: nat, a: Attr, g': Layout, j: nat, i: nat)
    requires Cramped(v, g, p, c, a) && CreatedTable(v, g, p, c, a, g')
    requires j in g.chains && j !in g.dirs && i < |g.chains[j]| && g.chains[j][i] == ClusterAt(g, p) + 1 < |v.clusters|
    ensures v.clusters[ClusterAt(g, p) + 1] != [] && v.clusters[ClusterAt(g, p) + 1][0] == END_OF_DIR
  {
    hide AttrOf, SlotAt, InvBut, RoomFor, CreatedVolume, AttrAt, Abs, Stream, IsChain, ScanStops, Live;
    var v' := CreatedVolume(v, g, p, c, a);
    CreatedFat(v, g, p, c, a);
    InvShape(v, g);
    InvShape(v', g');
    TableOwner(v, g, p, c, a, g', j);
    OwnerPlace(v, g, {}, j);
    CreatedChain(v, g, p, c, a, g', j);
    ChainInRange(v, g.chains[j]);
    ChainInRange(v', g'.chains[j]);
    StreamFirst(v, v', g.chains[j], i);
    CreatedFirstByte(v, g, p, c, a);
  }

  // Nor can it lie in a new file.
  lemma TableNewFile(v: Volume, g: Layout, p: Place, c: nat, a: Attr, g': Layout)
    requires Cramped(v, g, p, c, a) && CreatedTable(v, g, p, c, a, g') && ClusterAt(g, p) + 1 == c
    ensures a.IsDirectory()
  {
    hide AttrOf, SlotAt, InvBut, RoomFor, CreatedVolume, AttrAt, Abs, IsChain, ScanStops, Live, Stored;
    var v' := CreatedVolume(v, g, p, c, a);
    InvShape(v', g');
    TableOwner(v, g, p, c, a, g', c);
    CreatedNewChain(v, g, p, c, a, g');
    StoredShape(v.variant, a);
    CreatedFirstByte(v, g, p, c, a);
    StreamOne(v', c);
  }

  lemma StreamOne(v: Volume, c: nat)
    requires c < |v.clusters|
    ensures Stream(v, [c]) == v.clusters[c]
  {
    StreamLast(v, [c]);
    assert [c][..0] == [];
    StreamNil(v);
  }

  // In a directory it lies behind all entries.
  lemma TableNoneLive(v: Volume, g: Layout, p: Place, c: nat, a: Attr, g': Layout, d: nat, i: nat, q: Place)
    requires Cramped(v, g, p, c, a) && CreatedTable(v, g, p, c, a, g')
    requires DirCluster(g, d, i, ClusterAt(g, p) + 1) && Live(v, g, q) && q.dir == d
    ensures q.k < i
  {
    hide AttrOf, SlotAt, InvBut, RoomFor, CreatedVolume, AttrAt, ChainsOk, Abs, Encode, GoodSlot, DirOk, IsEnd;
    var v' := CreatedVolume(v, g, p, c, a);
    CreatedFat(v, g, p, c, a);
    NoRoomIsTerm(v, g, p);
    TableDir(v, g, p, c, a, g', d);
    TableMarker(v, g, p, c, a, g', d, i);
    LiveBefore(v, g, q);
    if d == p.dir {
      TableEntry(v, g, p, c, a, g');
    } else {
      var j := AttrAt(v, g, q).first;
      LiveOwner(v, g, {}, q);
      TableOwner(v, g, p, c, a, g', j);
      var q' := g'.owner[j];
      OwnerPlace(v', g', {}, j);
      LiveBefore(v', g', q');
      CreatedEnd(v, g, p, c, a, g', d);
      CreatedLive(v, g, p, c, a, g', q');
      LiveOwner(v, g, {}, q');
    }
  }

  lemma TableMarker(v: Volume, g: Layout, p: Place, c: nat, a: Attr, g': Layout, d: nat, i: nat)
    requires Cramped(v, g, p, c, a) && CreatedTable(v, g, p, c, a, g')
    requires DirCluster(g, d, i, ClusterAt(g, p) + 1)
    ensures d in g'.dirs && !Before(i, 0, g'.dirs[d])
  {
    hide AttrOf, SlotAt, InvBut, RoomFor, CreatedVolume, AttrAt, ChainsOk, Abs, Encode, GoodSlot, DirOk, Live;
    var v', q := CreatedVolume(v, g, p, c, a), Place(d, i, 0);
    CreatedFat(v, g, p, c, a);
    NoRoomIsTerm(v, g, p);
    TableDir(v, g, p, c, a, g', d);
    CreatedSlot(v, g, p, c, a, q);
    SameChainSlot(v', g, g', q);
    EndsByMarker(v', g', d, Term(i, 0));
  }

  lemma TableHarmless(v: Volume, g: Layout, p: Place, c: nat, a: Attr, g': Layout)
    requires Cramped(v, g, p, c, a) && CreatedTable(v, g, p, c, a, g') && |v.fat| == |v.clusters| + 1
    ensures MarkerHarmless(v, g, ClusterAt(g, p) + 1, c, a.IsDirectory())
  {
    hide AttrOf, SlotAt, InvBut, RoomFor, CreatedVolume, AttrAt, Abs, Live, ScanStops, CreatedTable, ClusterAt,
         IsChain, Disjoint, Inv;
    var s := ClusterAt(g, p) + 1;
    InvShape(v, g);
    if s < |v.clusters| && s == c {
      TableNewFile(v, g, p, c, a, g');
    } else if s < |v.clusters| && v.fat[s] != Available {
      assert Owned(g.chains, s);
      var j :| j in g.chains && s in g.chains[j];
      var i :| 0 <= i < |g.chains[j]| && g.chains[j][i] == s;
      if j in g.dirs {
        assert DirCluster(g, j, i, s);
        forall q | Live(v, g, q) && q.dir == j ensures q.k < i {
          TableNoneLive(v, g, p, c, a, g', j, i, q);
        }
      } else {
        TableFile(v, g, p, c, a, g', j, i);
      }
    }
  }

  // Exactly when creating an entry works, for directories of any number of clusters and
  // end markers anywhere: the slot is free, or the marker moves on within its cluster, or
  // it does no harm where it falls and the directory has an end behind the new entry.
  lemma RoomIsExact(v: Volume, g: Layout, p: Place, c: nat, a: Attr)
    requires Inv(v, g) && ScanStops(v, g, p) && NoEntry(v, g, p.dir, a.name) && GoodName(a.name)
    requires v.InRange(c) && v.fat[c] == Available && |v.fat| == |v.clusters| + 1
    requires a.first == c && a.size == 0 && c < 0x1_0000_0000
    ensures |v.clusters[c]| == v.bpc
    ensures CreateWorks(v, g, p, c, a.IsDirectory()) <==> exists g' :: CreatedTable(v, g, p, c, a, g')
  {
    hide AttrOf, SlotAt, InvBut, CreatedVolume, ScanStops, RoomFor, MarkerHarmless, EndsBehind, NoEntry, Abs, NewNode;
    WfBound(v, g);
    if CreateWorks(v, g, p, c, a.IsDirectory()) {
      var g' := CreatedKeepsInv(v, g, p, c, a);
      assert CreatedTable(v, g, p, c, a, g');
    }
    if !RoomFor(v, g, p) && exists g' :: CreatedTable(v, g, p, c, a, g') {
      var g' :| CreatedTable(v, g, p, c, a, g');
      TableHarmless(v, g, p, c, a, g');
      TableEnds(v, g, p, c, a, g');
    }
  }
}
