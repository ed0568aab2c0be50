// A directory as a list: what a scan of its slots lists, and what each device write of
// creating, removing and rewriting an entry does to that list.

module Listings {
  import opened Bytes
  import opened Endian
  import opened Codec
  import opened Geometry
  import opened Volumes
  import opened Streams
  import opened Layouts
  import opened Entries
  import opened FatxFs
  import opened Dirs
  import opened FileOps
  import opened Rooms

  type Slot = b: seq<byte> | |b| == DIRENT_SIZE witness Padding(DIRENT_SIZE)

  function ClusterSlots(v: Volume, c: nat): (s: seq<Slot>)
    ensures |s| == SlotsPerCluster(v.bpc)
  {
    seq(SlotsPerCluster(v.bpc), e requires 0 <= e => SlotBytes(v, c, e))
  }

  // All slots of a directory in the order of its chain.
  function DirSlots(v: Volume, ch: seq<nat>): seq<Slot> {
    if ch == [] then [] else DirSlots(v, ch[..|ch| - 1]) + ClusterSlots(v, ch[|ch| - 1])
  }

  lemma {:induction false} DirSlotsLength(v: Volume, ch: seq<nat>)
    ensures |DirSlots(v, ch)| == Times(|ch|, SlotsPerCluster(v.bpc))
  {
    if ch != [] { DirSlotsLength(v, ch[..|ch| - 1]); }
  }

  lemma {:induction false} DirSlotAt(v: Volume, ch: seq<nat>, k: nat, e: nat)
    requires k < |ch| && e < SlotsPerCluster(v.bpc)
    ensures Times(k, SlotsPerCluster(v.bpc)) + e < |DirSlots(v, ch)|
    ensures DirSlots(v, ch)[Times(k, SlotsPerCluster(v.bpc)) + e] == SlotBytes(v, ch[k], e)
  {
    hide SlotBytes;
    DirSlotsLength(v, ch[..|ch| - 1]);
    if k < |ch| - 1 { DirSlotAt(v, ch[..|ch| - 1], k, e); }
  }

  // Every index of the list of slots is some slot of some cluster.
  lemma {:induction false} SlotPlace(n: nat, epc: nat, i: nat) returns (k: nat, e: nat)
    requires epc > 0 && i < Times(n, epc)
    ensures k < n && e < epc && i == Times(k, epc) + e
  {
    if i >= Times(n - 1, epc) {
      k, e := n - 1, i - Times(n - 1, epc);
    } else {
      k, e := SlotPlace(n - 1, epc, i);
    }
  }

  lemma PlaceOrder(k: nat, e: nat, t: Term, epc: nat)
    requires e < epc && t.e < epc
    ensures Before(k, e, t) <==> Times(k, epc) + e < Times(t.k, epc) + t.e
    ensures Term(k, e) == t <==> Times(k, epc) + e == Times(t.k, epc) + t.e
  {
    if k < t.k { TimesMonotone(k, t.k, epc); }
    if t.k < k { TimesMonotone(t.k, k, epc); }
  }

  // ---- what a scan lists ----

  // The position of the first end marker.
  function FirstEnd(s: seq<Slot>): (i: nat)
    ensures i <= |s| && (i < |s| ==> IsEnd(s[i])) && forall j :: 0 <= j < i ==> !IsEnd(s[j])
  {
    if s == [] || IsEnd(s[0]) then 0 else 1 + FirstEnd(s[1..])
  }

  lemma FirstEndIs(s: seq<Slot>, i: nat)
    requires i <= |s| && (i < |s| ==> IsEnd(s[i])) && forall j :: 0 <= j < i ==> !IsEnd(s[j])
    ensures FirstEnd(s) == i
  {
    hide IsEnd;
  }

  // The entries in slots that are not deleted.
  function LiveEntries(variant: Variant, s: seq<Slot>): seq<Attr> {
    if s == [] then []
    else
      var last := s[|s| - 1];
      LiveEntries(variant, s[..|s| - 1]) + if IsDeleted(last) then [] else [AttrOf(variant, last)]
  }

  function Listing(variant: Variant, s: seq<Slot>): seq<Attr> {
    LiveEntries(variant, s[..FirstEnd(s)])
  }

  lemma {:induction false} LiveEntriesConcat(variant: Variant, s: seq<Slot>, t: seq<Slot>)
    ensures LiveEntries(variant, s + t) == LiveEntries(variant, s) + LiveEntries(variant, t)
  {
    hide AttrOf;
    if t == [] {
      assert s + t == s;
    } else {
      assert (s + t)[..|s + t| - 1] == s + t[..|t| - 1];
      LiveEntriesConcat(variant, s, t[..|t| - 1]);
    }
  }

  lemma LiveEntriesAround(variant: Variant, s: seq<Slot>, i: nat, n: nat)
    requires i < n <= |s|
    ensures LiveEntries(variant, s[..n]) ==
            LiveEntries(variant, s[..i]) + (if IsDeleted(s[i]) then [] else [AttrOf(variant, s[i])])
              + LiveEntries(variant, s[i + 1..n])
  {
    hide AttrOf;
    assert s[..n] == s[..i] + ([s[i]] + s[i + 1..n]);
    LiveEntriesConcat(variant, s[..i], [s[i]] + s[i + 1..n]);
    LiveEntriesConcat(variant, [s[i]], s[i + 1..n]);
    assert [s[i]][..0] == [];
    assert LiveEntries(variant, [s[i]]) == if IsDeleted(s[i]) then [] else [AttrOf(variant, s[i])];
  }

  // ---- single slot writes ----

  // A write behind the first end marker, or of another end marker over it, is not seen.
  lemma WriteBehindEnd(variant: Variant, s: seq<Slot>, i: nat, b: Slot)
    requires FirstEnd(s) <= i < |s| && (i == FirstEnd(s) ==> IsEnd(b))
    ensures FirstEnd(s[i := b]) == FirstEnd(s) && Listing(variant, s[i := b]) == Listing(variant, s)
  {
    hide AttrOf, IsEnd;
    FirstEndIs(s[i := b], FirstEnd(s));
    assert s[i := b][..FirstEnd(s)] == s[..FirstEnd(s)];
  }

  // A write before it that is no end marker changes what is listed there and nothing else.
  lemma WriteBeforeEnd(variant: Variant, s: seq<Slot>, i: nat, b: Slot)
    requires i < FirstEnd(s) && !IsEnd(b)
    ensures FirstEnd(s[i := b]) == FirstEnd(s)
    ensures var before, behind := LiveEntries(variant, s[..i]), LiveEntries(variant, s[i + 1..FirstEnd(s)]);
      && Listing(variant, s) == before + (if IsDeleted(s[i]) then [] else [AttrOf(variant, s[i])]) + behind
      && Listing(variant, s[i := b]) == before + (if IsDeleted(b) then [] else [AttrOf(variant, b)]) + behind
  {
    hide AttrOf, IsEnd;
    var s', n := s[i := b], FirstEnd(s);
    FirstEndIs(s', n);
    LiveEntriesAround(variant, s, i, n);
    LiveEntriesAround(variant, s', i, n);
    assert s'[..i] == s[..i] && s'[i + 1..n] == s[i + 1..n];
  }

  // Deleted slots are not listed.
  lemma {:induction false} NoneListed(variant: Variant, s: seq<Slot>)
    requires forall i :: 0 <= i < |s| ==> IsDeleted(s[i])
    ensures LiveEntries(variant, s) == []
  {
    hide AttrOf, IsDeleted;
    if s != [] { NoneListed(variant, s[..|s| - 1]); }
  }

  // An entry written over the end marker, another one being behind it and nothing but
  // deleted slots in between.
  lemma WriteAtEnd(variant: Variant, s: seq<Slot>, m: nat, b: Slot)
    requires FirstEnd(s) < m < |s| && IsEnd(s[m]) && !IsEnd(b) && !IsDeleted(b)
    requires forall i :: FirstEnd(s) < i < m ==> IsDeleted(s[i]) && !IsEnd(s[i])
    ensures Listing(variant, s[FirstEnd(s) := b]) == Listing(variant, s) + [AttrOf(variant, b)]
  {
    hide AttrOf, IsEnd, IsDeleted, LiveEntries;
    var n := FirstEnd(s);
    var s' := s[n := b];
    FirstEndIs(s', m);
    LiveEntriesAround(variant, s', n, m);
    assert s'[..n] == s[..n];
    NoneListed(variant, s'[n + 1..m]);
  }

  // An end marker in front of deleted slots only.
  lemma WriteEarlyEnd(variant: Variant, s: seq<Slot>, i: nat, b: Slot)
    requires i < FirstEnd(s) && IsEnd(b) && forall j :: i <= j < FirstEnd(s) ==> IsDeleted(s[j])
    ensures Listing(variant, s[i := b]) == Listing(variant, s)
  {
    hide AttrOf, IsEnd, IsDeleted, LiveEntries;
    var s', n := s[i := b], FirstEnd(s);
    FirstEndIs(s', i);
    assert s'[..i] == s[..i];
    assert s[..n] == s[..i] + s[i..n];
    LiveEntriesConcat(variant, s[..i], s[i..n]);
    NoneListed(variant, s[i..n]);
  }

  // ---- directories of a volume ----

  // The listing of directory d.
  function ListDir(v: Volume, g: Layout, d: nat): seq<Attr>
    requires d in g.chains
  {
    Listing(v.variant, DirSlots(v, g.chains[d]))
  }

  function Position(p: Place, epc: nat): nat {
    Times(p.k, epc) + p.e
  }

  lemma SlotOfDir(v: Volume, g: Layout, p: Place)
    requires InDir(v, g, p)
    ensures Position(p, SlotsPerCluster(v.bpc)) < |DirSlots(v, g.chains[p.dir])|
    ensures DirSlots(v, g.chains[p.dir])[Position(p, SlotsPerCluster(v.bpc))] == SlotAt(v, g, p)
  {
    hide SlotBytes;
    DirSlotAt(v, g.chains[p.dir], p.k, p.e);
  }

  // A volume that differs from another in slot p at most.
  lemma PutSlotList(v: Volume, v': Volume, g: Layout, g': Layout, p: Place, b: Slot, d: nat)
    requires d in g.dirs && d in g.chains && d in g'.chains && g'.chains[d] == g.chains[d] && d in g'.dirs
    requires v'.bpc == v.bpc && SlotsPerCluster(v.bpc) > 0 && InDir(v, g, p)
    requires forall q :: InDir(v, g, q) && q.dir == d ==> SlotAt(v', g', q) == if q == p then b else SlotAt(v, g, q)
    ensures var s, s' := DirSlots(v, g.chains[d]), DirSlots(v', g'.chains[d]);
      && Position(p, SlotsPerCluster(v.bpc)) < |DirSlots(v, g.chains[p.dir])|
      && s' == if d == p.dir then s[Position(p, SlotsPerCluster(v.bpc)) := b] else s
  {
    hide SlotBytes, SlotAt, Times, DirSlots;
    var s, s', epc := DirSlots(v, g.chains[d]), DirSlots(v', g'.chains[d]), SlotsPerCluster(v.bpc);
    DirSlotsLength(v, g.chains[d]);
    DirSlotsLength(v', g'.chains[d]);
    SlotOfDir(v, g, p);
    forall i | 0 <= i < |s|
      ensures s'[i] == if d == p.dir && i == Position(p, epc) then b else s[i]
    {
      var q := SlotInDir(v, g, d, i);
      assert InDir(v', g', q);
      SlotOfDir(v, g, q);
      SlotOfDir(v', g', q);
      PlaceOrder(q.k, q.e, Term(p.k, p.e), epc);
    }
  }

  // The place of the i-th slot of a directory.
  lemma SlotInDir(v: Volume, g: Layout, d: nat, i: nat) returns (q: Place)
    requires d in g.dirs && d in g.chains && SlotsPerCluster(v.bpc) > 0 && i < |DirSlots(v, g.chains[d])|
    ensures InDir(v, g, q) && q.dir == d && i == Position(q, SlotsPerCluster(v.bpc))
  {
    hide Times, DirSlots;
    DirSlotsLength(v, g.chains[d]);
    var k, e := SlotPlace(|g.chains[d]|, SlotsPerCluster(v.bpc), i);
    q := Place(d, k, e);
  }

  lemma SameSlotList(v: Volume, v': Volume, g: Layout, g': Layout, d: nat)
    requires d in g.dirs && d in g.chains && d in g'.chains && g'.chains[d] == g.chains[d] && d in g'.dirs
    requires v'.bpc == v.bpc && SlotsPerCluster(v.bpc) > 0
    requires forall q :: InDir(v, g, q) && q.dir == d ==> SlotAt(v', g', q) == SlotAt(v, g, q)
    ensures DirSlots(v', g'.chains[d]) == DirSlots(v, g.chains[d])
  {
    hide SlotBytes, SlotAt, Times;
    var s, s', epc := DirSlots(v, g.chains[d]), DirSlots(v', g'.chains[d]), SlotsPerCluster(v.bpc);
    DirSlotsLength(v, g.chains[d]);
    DirSlotsLength(v', g'.chains[d]);
    forall i | 0 <= i < |s| ensures s'[i] == s[i] {
      var k, e := SlotPlace(|g.chains[d]|, epc, i);
      var q := Place(d, k, e);
      assert InDir(v, g, q) && InDir(v', g', q);
      SlotOfDir(v, g, q);
      SlotOfDir(v', g', q);
    }
  }

  // The scan of a directory stops at its terminator.
  lemma FirstEndIsTerm(v: Volume, g: Layout, d: nat)
    requires DirOk(v, g, d)
    ensures var t, epc := g.dirs[d], SlotsPerCluster(v.bpc);
      FirstEnd(DirSlots(v, g.chains[d])) == Times(t.k, epc) + t.e < |DirSlots(v, g.chains[d])|
  {
    hide SlotAt, AttrOf, Times, IsEnd;
    var t, s, epc := g.dirs[d], DirSlots(v, g.chains[d]), SlotsPerCluster(v.bpc);
    SlotOfDir(v, g, Place(d, t.k, t.e));
    DirSlotsLength(v, g.chains[d]);
    forall i | 0 <= i < Times(t.k, epc) + t.e ensures !IsEnd(s[i]) {
      var k, e := SlotPlace(|g.chains[d]|, epc, i);
      PlaceOrder(k, e, t, epc);
      SlotOfDir(v, g, Place(d, k, e));
      assert GoodSlot(v.variant, SlotAt(v, g, Place(d, k, e)));
    }
    FirstEndIs(s, Times(t.k, epc) + t.e);
  }

  // ---- the listing and the inode table ----

  lemma {:induction false} LiveEntriesHas(variant: Variant, s: seq<Slot>, a: Attr)
    ensures a in LiveEntries(variant, s) <==> exists i :: 0 <= i < |s| && !IsDeleted(s[i]) && a == AttrOf(variant, s[i])
  {
    hide AttrOf, IsDeleted;
    if s != [] {
      var init, last := s[..|s| - 1], s[|s| - 1];
      LiveEntriesHas(variant, init, a);
      if exists i :: 0 <= i < |init| && !IsDeleted(init[i]) && a == AttrOf(variant, init[i]) {
        var i :| 0 <= i < |init| && !IsDeleted(init[i]) && a == AttrOf(variant, init[i]);
        assert !IsDeleted(s[i]) && a == AttrOf(variant, s[i]);
      }
      if exists i :: 0 <= i < |s| && !IsDeleted(s[i]) && a == AttrOf(variant, s[i]) {
        var i :| 0 <= i < |s| && !IsDeleted(s[i]) && a == AttrOf(variant, s[i]);
        if i < |init| { assert !IsDeleted(init[i]) && a == AttrOf(variant, init[i]); }
      }
    }
  }

  lemma ListedIsNamed(v: Volume, g: Layout, d: nat, a: Attr)
    requires Inv(v, g) && d in g.dirs && d in g.chains && a in ListDir(v, g, d)
    ensures Names(v, g, d, a.name, a.first) && Abs(v, g)[a.first].attr == a
  {
    hide AttrOf, SlotAt, InvBut, Live, Abs, Times, Names, DirSlots, FirstEnd, AttrAt;
    DirHasChain(v, g, d);
    var s, epc := DirSlots(v, g.chains[d]), SlotsPerCluster(v.bpc);
    FirstEndIsTerm(v, g, d);
    LiveEntriesHas(v.variant, s[..FirstEnd(s)], a);
    var i :| 0 <= i < FirstEnd(s) && !IsDeleted(s[i]) && a == AttrOf(v.variant, s[i]);
    DirSlotsLength(v, g.chains[d]);
    var k, e := SlotPlace(|g.chains[d]|, epc, i);
    var p := Place(d, k, e);
    SlotOfDir(v, g, p);
    PlaceOrder(k, e, g.dirs[d], epc);
    LivePlace(v, g, p);
    LiveNames(v, g, p);
    AttrAtSlot(v, g, p);
  }

  lemma AttrAtSlot(v: Volume, g: Layout, p: Place)
    ensures AttrAt(v, g, p) == AttrOf(v.variant, SlotAt(v, g, p))
  {
  }

  lemma NamedIsListed(v: Volume, g: Layout, d: nat, a: Attr)
    requires Inv(v, g) && d in g.dirs && d in g.chains
    requires Names(v, g, d, a.name, a.first) && Abs(v, g)[a.first].attr == a
    ensures a in ListDir(v, g, d)
  {
    hide AttrOf, SlotAt, InvBut, Live, Abs, Times, Names, DirSlots, FirstEnd, AttrAt;
    DirHasChain(v, g, d);
    var s, epc := DirSlots(v, g.chains[d]), SlotsPerCluster(v.bpc);
    FirstEndIsTerm(v, g, d);
    NamesLive(v, g, d, a.name, a.first);
    var p := g.owner[a.first];
    LiveBefore(v, g, p);
    LivePlace(v, g, p);
    SlotOfDir(v, g, p);
    AttrAtSlot(v, g, p);
    PlaceOrder(p.k, p.e, g.dirs[d], epc);
    assert s[..FirstEnd(s)][Position(p, epc)] == s[Position(p, epc)];
    LiveEntriesHas(v.variant, s[..FirstEnd(s)], a);
  }

  // A directory lists exactly its entries in the inode table.
  lemma ListingIsTable(v: Volume, g: Layout, d: nat, a: Attr)
    requires Inv(v, g) && d in g.dirs
    ensures d in g.chains
    ensures a in ListDir(v, g, d) <==>
            a.first in Abs(v, g) && Abs(v, g)[a.first].dir == d && Abs(v, g)[a.first].attr == a
  {
    hide InvBut, Abs, ListDir, Names;
    DirHasChain(v, g, d);
    if a in ListDir(v, g, d) {
      ListedIsNamed(v, g, d, a);
      NamesAttr(v, g, d, a.name, a.first);
    }
    if a.first in Abs(v, g) && Abs(v, g)[a.first].dir == d && Abs(v, g)[a.first].attr == a {
      IsNamed(v, g, d, a);
      NamedIsListed(v, g, d, a);
    }
  }

  lemma DirHasChain(v: Volume, g: Layout, d: nat)
    requires Inv(v, g) && d in g.dirs
    ensures d in g.chains && DirOk(v, g, d) && SlotsPerCluster(v.bpc) > 0 && v.Wf() && ChainsOk(v, g.chains)
  {
  }

  lemma LivePlace(v: Volume, g: Layout, p: Place)
    ensures Live(v, g, p) <==> InDir(v, g, p) && Before(p.k, p.e, g.dirs[p.dir]) && !IsDeleted(SlotAt(v, g, p))
  {
  }

  lemma IsNamed(v: Volume, g: Layout, d: nat, a: Attr)
    requires a.first in Abs(v, g) && Abs(v, g)[a.first].dir == d && Abs(v, g)[a.first].attr == a
    ensures Names(v, g, d, a.name, a.first)
  {
  }

  // ---- the device writes of creating an entry ----

  // Freshly taken cluster c is in no directory.
  lemma AllocatedListing(v: Volume, g: Layout, c: nat, d: nat)
    requires Inv(v, g) && v.InRange(c) && v.fat[c] == Available && d in g.dirs
    ensures d in g.chains && |v.clusters[c]| == v.bpc
    ensures DirSlots(v.Write(c, 0, Zeros(v.bpc)), g.chains[d]) == DirSlots(v, g.chains[d])
  {
    hide AttrOf, InvBut, SlotBytes;
    DirHasChain(v, g, d);
    FreshCluster(v, g, c);
    forall q | InDir(v, g, q) && q.dir == d ensures SlotAt(v.Write(c, 0, Zeros(v.bpc)), g, q) == SlotAt(v, g, q) {
      InDirCluster(v, g, q);
      OtherClusterSlot(v, c, 0, Zeros(v.bpc), ClusterAt(g, q), q.e);
    }
    SameSlotList(v, v.Write(c, 0, Zeros(v.bpc)), g, g, d);
  }

  // First write: the marker.  No directory lists anything else.
  lemma MarkerStep(u: Volume, g: Layout, p: Place, c: nat, directory: bool, d: nat)
    requires Inv(u, g) && ScanStops(u, g, p) && d in g.dirs && u.InRange(c) && u.fat[c] == Available
    requires |u.fat| == |u.clusters| + 1 && CreateWorks(u, g, p, c, directory)
    ensures d in g.chains && ListDir(Marked(u, g, p), g, d) == ListDir(u, g, d)
  {
    hide AttrOf, SlotBytes, InvBut, SlotAt, MarkAt, IsDeleted, Inv, ListDir, MarkerHarmless, EndsBehind, ScanStops;
    DirHasChain(u, g, d);
    if RoomFor(u, g, p) {
      MarkerInCluster(u, g, p, d);
    } else {
      NoRoomIsTerm(u, g, p);
      MarkedIsFirst(u, g, p);
      MarkerElsewhere(u, g, ClusterAt(g, p) + 1, c, directory, d);
    }
  }

  lemma MarkerInCluster(u: Volume, g: Layout, p: Place, d: nat)
    requires Inv(u, g) && ScanStops(u, g, p) && RoomFor(u, g, p) && d in g.dirs
    ensures d in g.chains && ListDir(Marked(u, g, p), g, d) == ListDir(u, g, d)
  {
    hide AttrOf, SlotBytes, DirOk, NamesDistinct, LiveOk, Live, AttrAt, MarkAt, Listing, InvBut, SlotPut, ChainsOk,
         DirSlots, SlotAt, IsEnd, Times, Inv, SlotPlaceWrite;
    DirHasChain(u, g, d);
    DirHasChain(u, g, p.dir);
    if !IsDeleted(SlotAt(u, g, p)) {
      var q := p.(e := p.e + 1);
      var b := SlotAt(u, g, q)[0 := END_OF_DIR];
      SlotInCluster(u, g, p);
      MarkIsPut(u, g, p);
      PutPlace(u, g, q, b);
      PutIsSeen(u, g, q, b, d);
      FirstEndIsTerm(u, g, p.dir);
      SlotOfDir(u, g, q);
      if d == p.dir {
        WriteBehindEnd(u.variant, DirSlots(u, g.chains[d]), Position(q, SlotsPerCluster(u.bpc)), b);
      }
    }
  }

  // The marker in the first slot of cluster s, where it does no harm.
  lemma MarkerElsewhere(u: Volume, g: Layout, s: nat, c: nat, directory: bool, d: nat)
    requires Inv(u, g) && s >= 1 && u.InRange(c) && u.fat[c] == Available && |u.fat| == |u.clusters| + 1
    requires MarkerHarmless(u, g, s, c, directory) && d in g.dirs
    ensures d in g.chains && ListDir(FirstMarked(u, s), g, d) == ListDir(u, g, d)
  {
    hide AttrOf, SlotBytes, InvBut, SlotAt, Inv, ListDir, FirstMarked, DirSlots, ChainsOk, MarkerHarmless;
    DirHasChain(u, g, d);
    FirstMarkedSame(u, s);
    if j: nat :| j < |g.chains[d]| && g.chains[d][j] == s {
      MarkerInDir(u, g, s, c, directory, d, j);
    } else {
      forall q | InDir(u, g, q) && q.dir == d ensures SlotAt(FirstMarked(u, s), g, q) == SlotAt(u, g, q) {
        FirstMarkedSlot(u, g, s, q);
      }
      SameSlotList(u, FirstMarked(u, s), g, g, d);
      SameSlotsSameList(u, FirstMarked(u, s), g, d);
    }
  }

  lemma FirstMarkedSame(u: Volume, s: nat)
    ensures FirstMarked(u, s).bpc == u.bpc && FirstMarked(u, s).variant == u.variant && FirstMarked(u, s).fat == u.fat
  {
  }

  lemma MarkerInDir(u: Volume, g: Layout, s: nat, c: nat, directory: bool, d: nat, j: nat)
    requires Inv(u, g) && u.InRange(c) && u.fat[c] == Available && |u.fat| == |u.clusters| + 1
    requires MarkerHarmless(u, g, s, c, directory) && DirCluster(g, d, j, s)
    ensures ListDir(FirstMarked(u, s), g, d) == ListDir(u, g, d)
  {
    hide AttrOf, SlotBytes, InvBut, SlotAt, Inv, FirstMarked, DirSlots, ChainsOk, Listing, Times, FirstEnd, IsEnd,
         IsDeleted, SlotPlaceWrite, MarkerHarmless;
    var q, epc := Place(d, j, 0), SlotsPerCluster(u.bpc);
    var b := SlotAt(u, g, q)[0 := END_OF_DIR];
    DirHasChain(u, g, d);
    FirstMarkedPlace(u, g, q);
    PutIsSeen(u, g, q, b, d);
    FirstMarkedSame(u, s);
    var l, i := DirSlots(u, g.chains[d]), Position(q, epc);
    assert IsEnd(b) by { EndMarked(SlotAt(u, g, q)); }
    FirstEndIsTerm(u, g, d);
    SlotOfDir(u, g, q);
    PlaceOrder(j, 0, g.dirs[d], epc);
    if FirstEnd(l) <= i {
      WriteBehindEnd(u.variant, l, i, b);
    } else {
      forall m | i <= m < FirstEnd(l) ensures IsDeleted(l[m]) {
        DeletedBehind(u, g, s, c, directory, d, j, m);
      }
      WriteEarlyEnd(u.variant, l, i, b);
    }
  }

  lemma EndMarked(b: Slot)
    ensures IsEnd(b[0 := END_OF_DIR])
  {
  }

  lemma DeletedBehind(u: Volume, g: Layout, s: nat, c: nat, directory: bool, d: nat, j: nat, m: nat)
    requires Inv(u, g) && u.InRange(c) && u.fat[c] == Available && |u.fat| == |u.clusters| + 1
    requires MarkerHarmless(u, g, s, c, directory) && DirCluster(g, d, j, s) && SlotsPerCluster(u.bpc) > 0
    requires Position(Place(d, j, 0), SlotsPerCluster(u.bpc)) <= m < FirstEnd(DirSlots(u, g.chains[d]))
    ensures IsDeleted(DirSlots(u, g.chains[d])[m])
  {
    hide AttrOf, SlotBytes, InvBut, SlotAt, Inv, DirSlots, ChainsOk, Times, IsEnd, IsDeleted, FirstEnd, MarkerHarmless;
    var epc := SlotsPerCluster(u.bpc);
    DirHasChain(u, g, d);
    FirstEndIsTerm(u, g, d);
    DirSlotsLength(u, g.chains[d]);
    HarmlessIsBehind(u, g, s, c, directory, d, j);
    var k, e := SlotPlace(|g.chains[d]|, epc, m);
    var q := Place(d, k, e);
    SlotOfDir(u, g, q);
    PlaceOrder(k, e, g.dirs[d], epc);
    PlaceOrder(k, e, Term(j, 0), epc);
    PlaceOrder(j, 0, g.dirs[d], epc);
    LivePlace(u, g, q);
  }

  // In a directory that goes on behind it, the marker does no harm only where no entry
  // follows.
  lemma HarmlessIsBehind(u: Volume, g: Layout, s: nat, c: nat, directory: bool, d: nat, j: nat)
    requires Inv(u, g) && u.InRange(c) && u.fat[c] == Available && |u.fat| == |u.clusters| + 1
    requires MarkerHarmless(u, g, s, c, directory) && DirCluster(g, d, j, s)
    ensures Before(j, 0, g.dirs[d]) ==> NoneLiveFrom(u, g, d, j)
  {
    hide AttrOf, InvBut, Live, NoneLiveFrom;
    DirHasChain(u, g, d);
    FreshCluster(u, g, c);
    var q := Place(d, j, 0);
    assert s in g.chains[d] && IsChain(u, g.chains[d]);
    ChainEntryInUse(u, g.chains[d], s);
    if u.clusters[s] != [] && u.clusters[s][0] == END_OF_DIR {
      FirstSlotEnds(u, g, d, j);
    } else {
      var d', j' :| DirCluster(g, d', j', s) && NoneLiveFrom(u, g, d', j');
      assert s in g.chains[d'];
    }
  }

  lemma FirstSlotEnds(u: Volume, g: Layout, d: nat, j: nat)
    requires DirOk(u, g, d) && u.bpc >= DIRENT_SIZE && j < |g.chains[d]|
    requires u.InRange(g.chains[d][j]) && |u.clusters[g.chains[d][j]]| == u.bpc
             && u.clusters[g.chains[d][j]][0] == END_OF_DIR
    ensures !Before(j, 0, g.dirs[d])
  {
    hide AttrOf;
    assert IsEnd(SlotAt(u, g, Place(d, j, 0)));
  }

  // One slot write in terms of the lists of slots.
  lemma PutIsSeen(u: Volume, g: Layout, p: Place, b: Slot, d: nat)
    requires u.Wf() && ChainsOk(u, g.chains) && InDir(u, g, p) && d in g.dirs && d in g.chains
    ensures Position(p, SlotsPerCluster(u.bpc)) < |DirSlots(u, g.chains[p.dir])|
    ensures var u' := SlotPlaceWrite(u, g, p, b);
      && u'.bpc == u.bpc && u'.variant == u.variant
      && DirSlots(u', g.chains[d]) ==
           if d == p.dir then DirSlots(u, g.chains[d])[Position(p, SlotsPerCluster(u.bpc)) := b]
              else DirSlots(u, g.chains[d])
  {
    hide AttrOf, SlotAt, ChainsOk, Times;
    PutPlace(u, g, p, b);
    PutSlotList(u, SlotPlaceWrite(u, g, p, b), g, g, p, b, d);
  }

  // The list before and behind slot p.
  function ListedBefore(v: Volume, g: Layout, p: Place): seq<Attr>
    requires p.dir in g.chains
  {
    var s, i := DirSlots(v, g.chains[p.dir]), Position(p, SlotsPerCluster(v.bpc));
    LiveEntries(v.variant, if i <= |s| then s[..i] else [])
  }

  function ListedBehind(v: Volume, g: Layout, p: Place): seq<Attr>
    requires p.dir in g.chains
  {
    var s, i := DirSlots(v, g.chains[p.dir]), Position(p, SlotsPerCluster(v.bpc));
    LiveEntries(v.variant, if i + 1 <= FirstEnd(s) then s[i + 1..FirstEnd(s)] else [])
  }

  lemma EntryElsewhere(u: Volume, g: Layout, p: Place, b: Slot, d: nat)
    requires Inv(u, g) && InDir(u, g, p) && d in g.dirs && d != p.dir
    ensures d in g.chains && ListDir(SlotPlaceWrite(u, g, p, b), g, d) == ListDir(u, g, d)
  {
    hide AttrOf, SlotAt, DirOk, ChainsOk, Times, InvBut, Inv, Listing, DirSlots, SlotPlaceWrite;
    DirHasChain(u, g, d);
    PutIsSeen(u, g, p, b, d);
  }

  lemma EntryAtTerm(u: Volume, g: Layout, p: Place, b: Slot, t: Term)
    requires Inv(u, g) && RoomAt(u, g, p, t) && Term(p.k, p.e) == g.dirs[p.dir] && !IsEnd(b) && !IsDeleted(b)
    ensures p.dir in g.chains
    ensures ListDir(u, g, p.dir) == ListedBefore(u, g, p) && ListedBehind(u, g, p) == []
    ensures ListDir(SlotPlaceWrite(u, g, p, b), g, p.dir) == ListedBefore(u, g, p) + [AttrOf(u.variant, b)]
  {
    hide AttrOf, SlotAt, DirOk, ChainsOk, Times, InvBut, Inv, IsEnd, IsDeleted, LiveEntries, DirSlots, SlotPlaceWrite;
    DirHasChain(u, g, p.dir);
    PutIsSeen(u, g, p, b, p.dir);
    FirstEndIsTerm(u, g, p.dir);
    var s, epc := DirSlots(u, g.chains[p.dir]), SlotsPerCluster(u.bpc);
    var m := Position(Place(p.dir, t.k, t.e), epc);
    SlotOfDir(u, g, Place(p.dir, t.k, t.e));
    PlaceOrder(p.k, p.e, t, epc);
    forall i | FirstEnd(s) < i < m ensures IsDeleted(s[i]) && !IsEnd(s[i]) {
      DeletedBetween(u, g, p, t, i);
    }
    WriteAtEnd(u.variant, s, m, b);
    NothingListed(u.variant);
  }

  lemma DeletedBetween(u: Volume, g: Layout, p: Place, t: Term, i: nat)
    requires DirOk(u, g, p.dir) && EndsNextAt(u, g, p, t) && SlotsPerCluster(u.bpc) > 0 && InDir(u, g, p)
    requires var epc := SlotsPerCluster(u.bpc);
      Position(p, epc) < i < Position(Place(p.dir, t.k, t.e), epc) && i < |DirSlots(u, g.chains[p.dir])|
    ensures IsDeleted(DirSlots(u, g.chains[p.dir])[i]) && !IsEnd(DirSlots(u, g.chains[p.dir])[i])
  {
    hide AttrOf, SlotAt, GoodSlot, DirSlots, Times;
    var epc := SlotsPerCluster(u.bpc);
    DirSlotsLength(u, g.chains[p.dir]);
    var k, e := SlotPlace(|g.chains[p.dir]|, epc, i);
    SlotOfDir(u, g, Place(p.dir, k, e));
    PlaceOrder(k, e, t, epc);
    PlaceOrder(p.k, p.e, Term(k, e), epc);
  }

  lemma EntryAtDeleted(u: Volume, g: Layout, p: Place, b: Slot, t: Term)
    requires Inv(u, g) && RoomAt(u, g, p, t) && Term(p.k, p.e) != g.dirs[p.dir] && !IsEnd(b) && !IsDeleted(b)
    ensures p.dir in g.chains
    ensures ListDir(u, g, p.dir) == ListedBefore(u, g, p) + ListedBehind(u, g, p)
    ensures ListDir(SlotPlaceWrite(u, g, p, b), g, p.dir)
         == ListedBefore(u, g, p) + [AttrOf(u.variant, b)] + ListedBehind(u, g, p)
  {
    hide AttrOf, SlotAt, DirOk, ChainsOk, Times, InvBut, Inv, IsEnd, IsDeleted, LiveEntries, DirSlots, SlotPlaceWrite;
    DirHasChain(u, g, p.dir);
    PutIsSeen(u, g, p, b, p.dir);
    FirstEndIsTerm(u, g, p.dir);
    SlotOfDir(u, g, p);
    PlaceOrder(p.k, p.e, g.dirs[p.dir], SlotsPerCluster(u.bpc));
    SlotFlags(u, g, p, t);
    var s, i := DirSlots(u, g.chains[p.dir]), Position(p, SlotsPerCluster(u.bpc));
    WriteBeforeEnd(u.variant, s, i, b);
    assert LiveEntries(u.variant, s[..i]) + [] == LiveEntries(u.variant, s[..i]);
  }

  // Second write: the entry.  Its directory lists it in addition, in its place.
  lemma EntryStep(u: Volume, g: Layout, p: Place, b: Slot, d: nat, t: Term)
    requires Inv(u, g) && RoomAt(u, g, p, t) && d in g.dirs && !IsEnd(b) && !IsDeleted(b)
    ensures d in g.chains && p.dir in g.chains
    ensures d != p.dir ==> ListDir(SlotPlaceWrite(u, g, p, b), g, d) == ListDir(u, g, d)
    ensures d == p.dir ==>
              && ListDir(u, g, d) == ListedBefore(u, g, p) + ListedBehind(u, g, p)
              && ListDir(SlotPlaceWrite(u, g, p, b), g, d)
                 == ListedBefore(u, g, p) + [AttrOf(u.variant, b)] + ListedBehind(u, g, p)
  {
    hide AttrOf, SlotAt, DirOk, ChainsOk, Times, InvBut, Inv, IsEnd, IsDeleted, ListDir, ListedBefore, ListedBehind,
         SlotPlaceWrite;
    DirHasChain(u, g, d);
    if d != p.dir {
      EntryElsewhere(u, g, p, b, d);
    } else if Term(p.k, p.e) == g.dirs[p.dir] {
      EntryAtTerm(u, g, p, b, t);
    } else {
      EntryAtDeleted(u, g, p, b, t);
    }
  }

  lemma NothingListed(variant: Variant)
    ensures LiveEntries(variant, []) == []
  {
  }

  lemma SlotFlags(u: Volume, g: Layout, p: Place, t: Term)
    requires RoomAt(u, g, p, t) && Term(p.k, p.e) != g.dirs[p.dir]
    ensures IsDeleted(SlotAt(u, g, p)) && !IsEnd(SlotAt(u, g, p))
  {
    hide SlotAt;
  }

  lemma {:induction false} DirSlotsIgnoreFat(v: Volume, v': Volume, ch: seq<nat>)
    requires v'.clusters == v.clusters && v'.bpc == v.bpc
    ensures DirSlots(v', ch) == DirSlots(v, ch)
  {
    hide SlotBytes;
    if ch != [] {
      DirSlotsIgnoreFat(v, v', ch[..|ch| - 1]);
      var c := ch[|ch| - 1];
      forall e: nat ensures SlotBytes(v', c, e) == SlotBytes(v, c, e) {
        SlotIgnoresFat(v, v', c, e);
      }
      assert ClusterSlots(v', c) == ClusterSlots(v, c);
    }
  }

  lemma ListDirIgnoresFat(v: Volume, v': Volume, g: Layout, d: nat)
    requires v'.clusters == v.clusters && v'.bpc == v.bpc && v'.variant == v.variant && d in g.chains
    ensures ListDir(v', g, d) == ListDir(v, g, d)
    ensures d in g.chains ==> forall p: Place :: p.dir == d ==>
              ListedBefore(v', g, p) == ListedBefore(v, g, p) && ListedBehind(v', g, p) == ListedBehind(v, g, p)
  {
    DirSlotsIgnoreFat(v, v', g.chains[d]);
  }

  // Zeroing the cluster first changes nothing about whether creating works.
  lemma FreshWorks(v: Volume, g: Layout, p: Place, c: nat, directory: bool)
    requires Inv(v, g) && ScanStops(v, g, p) && v.InRange(c) && v.fat[c] == Available && |v.fat| == |v.clusters| + 1
    requires CreateWorks(v, g, p, c, directory)
    ensures |v.clusters[c]| == v.bpc
    ensures CreateWorks(v.Write(c, 0, Zeros(v.bpc)), g, p, c, directory)
  {
    hide AttrOf, SlotAt, InvBut, MarkerHarmless, EndsOverDeleted, RoomFor, ScanStops, Inv;
    FreshScan(v, g, p, c);
    if !RoomFor(v, g, p) {
      FreshHarmless(v, g, ClusterAt(g, p) + 1, c, directory);
      var t :| EndsOverDeleted(v, g, p, t);
      FreshEnds(v, g, p, t, c);
    }
  }

  lemma SameChainList(v: Volume, g: Layout, g': Layout, d: nat)
    requires d in g.chains && g'.chains == g.chains
    ensures ListDir(v, g', d) == ListDir(v, g, d)
  {
  }

  // The volume with the marker, as MarkerStep and EntryStep see it.
  lemma MarkedList(v: Volume, g: Layout, p: Place, c: nat, d: nat)
    requires v.InRange(c) && c < |v.fat| && |v.clusters[c]| == v.bpc && d in g.chains
    ensures var u, v0 := v.Write(c, 0, Zeros(v.bpc)), Allocated(v, c, true);
      && ListDir(v0, g, d) == ListDir(u, g, d) && ListDir(Marked(v0, g, p), g, d) == ListDir(Marked(u, g, p), g, d)
  {
    hide Marked, ListDir;
    var u, v0 := v.Write(c, 0, Zeros(v.bpc)), Allocated(v, c, true);
    ListDirIgnoresFat(u, v0, g, d);
    MarkedIgnoresFat(u, g, p, v.fat[c := End]);
    MarkedShape(u, g, p);
    assert v0 == u.(fat := v.fat[c := End]);
    ListDirIgnoresFat(Marked(u, g, p), Marked(v0, g, p), g, d);
  }

  // Creating an entry where it works, device write by device write: a cluster is zeroed,
  // the end marker is moved on, the entry is written.  Until the last write every
  // directory lists what it did; then p's directory lists the new entry in addition.
  lemma CreateStepwise(v: Volume, g: Layout, p: Place, c: nat, a: Attr, d: nat)
    requires Inv(v, g) && ScanStops(v, g, p) && d in g.dirs && |v.fat| == |v.clusters| + 1
    requires v.InRange(c) && v.fat[c] == Available && GoodName(a.name)
    requires CreateWorks(v, g, p, c, a.IsDirectory())
    ensures d in g.chains && p.dir in g.chains && |v.clusters[c]| == v.bpc
    ensures var steps := CreateSteps(v, g, p, c, a);
      && ListDir(steps[0], g, d) == ListDir(steps[1], g, d) == ListDir(steps[2], g, d) == ListDir(v, g, d)
      && (d != p.dir ==> ListDir(steps[3], g, d) == ListDir(v, g, d))
      && (d == p.dir ==> exists l, r ::
            ListDir(v, g, d) == l + r && ListDir(steps[3], g, d) == l + [Stored(v.variant, a)] + r)
  {
    hide AttrOf, SlotBytes, InvBut, Inv, IsEnd, IsDeleted, LiveEntries, ListDir, Marked, RoomAt, ListedBefore,
         ListedBehind, PutAt, SlotPlaceWrite, Encode, Stored, GoodSlot, DirSlots, SlotAt, ScanStops, CreateWorks, Abs,
         Allocated;
    DirHasChain(v, g, d);
    ScanInDir(v, g, p);
    DirHasChain(v, g, p.dir);
    AllocatedListing(v, g, c, d);
    var u := v.Write(c, 0, Zeros(v.bpc));
    WriteFresh(v, g, c, 0, Zeros(v.bpc));
    SameSlotsSameList(v, u, g, d);
    FreshScan(v, g, p, c);
    FreshWorks(v, g, p, c, a.IsDirectory());
    MarkerStep(u, g, p, c, a.IsDirectory(), d);
    MarkedList(v, g, p, c, d);
    var u2, b := Marked(u, g, p), Encode(v.variant, a);
    MarkedShape(u, g, p);
    var g1, t := MarkedKeepsInv(v, g, p, c, a.IsDirectory());
    EncodedSlot(v.variant, a);
    GoodIsNotEnd(v.variant, b);
    EntryStep(u2, g1, p, b, d, t);
    SamePlacePut(u2, g, g1, p, b);
    SameChainList(u2, g, g1, d);
    SameChainList(SlotPlaceWrite(u2, g, p, b), g, g1, d);
    CreatedIsAdded(v, g, p, c, a);
    AddedClusters(u2, g, p, b, c);
    ListDirIgnoresFat(SlotPlaceWrite(u2, g, p, b), CreatedVolume(v, g, p, c, a), g, d);
  }

  lemma ScanInDir(v: Volume, g: Layout, p: Place)
    requires ScanStops(v, g, p)
    ensures InDir(v, g, p) && p.dir in g.dirs
  {
  }

  lemma SamePlacePut(v: Volume, g: Layout, g': Layout, p: Place, b: Slot)
    requires g'.chains == g.chains
    ensures SlotPlaceWrite(v, g', p, b) == SlotPlaceWrite(v, g, p, b)
  {
  }

  lemma AddedClusters(u: Volume, g: Layout, p: Place, b: seq<byte>, c: nat)
    requires |b| == DIRENT_SIZE && c < |u.fat|
    ensures var w, v := SlotPlaceWrite(u, g, p, b), Added(u, g, p, b, c);
      v.clusters == w.clusters && v.bpc == w.bpc && v.variant == w.variant == u.variant
  {
  }

  lemma SameSlotsSameList(v: Volume, u: Volume, g: Layout, d: nat)
    requires d in g.chains && DirSlots(u, g.chains[d]) == DirSlots(v, g.chains[d]) && u.variant == v.variant
    ensures ListDir(u, g, d) == ListDir(v, g, d)
  {
  }

  // Overwriting a live entry changes that one item of its directory's list.
  lemma RewriteStep(v: Volume, g: Layout, p: Place, b: Slot, d: nat)
    requires Inv(v, g) && Live(v, g, p) && d in g.dirs && !IsEnd(b)
    ensures d in g.chains && p.dir in g.chains
    ensures d != p.dir ==> ListDir(SlotPlaceWrite(v, g, p, b), g, d) == ListDir(v, g, d)
    ensures d == p.dir ==>
              && ListDir(v, g, d) == ListedBefore(v, g, p) + [AttrAt(v, g, p)] + ListedBehind(v, g, p)
              && ListDir(SlotPlaceWrite(v, g, p, b), g, d)
                 == ListedBefore(v, g, p) + (if IsDeleted(b) then [] else [AttrOf(v.variant, b)])
                   + ListedBehind(v, g, p)
  {
    hide AttrOf, SlotAt, DirOk, ChainsOk, Times, InvBut, IsEnd, IsDeleted, LiveEntries;
    DirHasChain(v, g, d);
    LiveBefore(v, g, p);
    LivePlace(v, g, p);
    DirHasChain(v, g, p.dir);
    PutIsSeen(v, g, p, b, d);
    FirstEndIsTerm(v, g, p.dir);
    SlotOfDir(v, g, p);
    PlaceOrder(p.k, p.e, g.dirs[p.dir], SlotsPerCluster(v.bpc));
    WriteBeforeEnd(v.variant, DirSlots(v, g.chains[p.dir]), Position(p, SlotsPerCluster(v.bpc)), b);
  }

  // Unlinking: freeing the chain changes no listing, the deletion mark takes exactly one
  // entry out.
  lemma UnlinkStepwise(v: Volume, g: Layout, p: Place, k: nat, d: nat)
    requires Removable(v, g, p, k) && d in g.dirs && d != k
    ensures d in g.chains && p.dir in g.chains
    ensures ListDir(v.(fat := FreeChain(v.fat, k)), g, d) == ListDir(v, g, d)
    ensures d != p.dir ==> ListDir(Removed(v, g, p, k), g, d) == ListDir(v, g, d)
    ensures d == p.dir ==> exists l, r ::
              ListDir(v, g, d) == l + [AttrAt(v, g, p)] + r && ListDir(Removed(v, g, p, k), g, d) == l + r
  {
    hide AttrOf, SlotBytes, DirOk, ChainsOk, Times, InvBut, LiveEntries, ListDir, ListedBefore, ListedBehind, SlotAt,
         AttrAt, FreeChain, Live, EmptyDir;
    DirHasChain(v, g, d);
    LiveBefore(v, g, p);
    var v1, b := v.(fat := FreeChain(v.fat, k)), SlotAt(v, g, p)[0 := DELETED];
    ListDirIgnoresFat(v, v1, g, d);
    RewriteStep(v, g, p, b, d);
    ListDirIgnoresFat(SlotPlaceWrite(v, g, p, b), SlotPlaceWrite(v1, g, p, b), g, d);
    if d == p.dir {
      var l, r := ListedBefore(v, g, p), ListedBehind(v, g, p);
      assert l + [] + r == l + r;
    }
  }

  // ---- reading a directory through ----

  // The slots up to a scan's end: what a scan relies on.
  ghost predicate Scannable(v: Volume, ch: seq<nat>) {
    var s := DirSlots(v, ch);
    forall i :: 0 <= i < FirstEnd(s) ==> GoodSlot(v.variant, s[i])
  }

  lemma SlotsPositive(v: Volume)
    requires v.Wf()
    ensures SlotsPerCluster(v.bpc) > 0
  {
  }

  // fatx_open_dir, then fatx_read_dir and fatx_next_dir_entry until they end: the
  // entries, and whether an end marker was met.
  method ReadAll(fs: Fs, first: nat, ghost ch: seq<nat>) returns (status: Status, entries: seq<Attr>)
    requires fs.Valid() && |fs.vol.fat| == |fs.vol.clusters| + 1 && IsChain(fs.vol, ch) && ch[0] == first
    requires Scannable(fs.vol, ch)
    modifies fs`cursor, fs`disk, fs`cache
    ensures fs.Valid()
    ensures entries == Listing(fs.variant, DirSlots(fs.vol, ch))
    ensures status == if FirstEnd(DirSlots(fs.vol, ch)) < |DirSlots(fs.vol, ch)| then EndOfDir else Error
  {
    hide Rep, Framed, Times, IsChain, AttrOf, SlotBytes, GoodSlot, IsEnd, IsDeleted, LiveEntries, Classify, DirSlots,
         SlotsPerCluster, AllInRange, NoDup;
    fs.Bounds();
    ghost var s, epc := DirSlots(fs.vol, ch), SlotsPerCluster(fs.vol.bpc);
    entries := [];
    var dir := new Dir(first, 0);
    ghost var k: nat, i: nat := 0, 0;
    ChainInRange(fs.vol, ch);
    TimesStep(0, epc);
    SlotsPositive(fs.vol);
    DirSlotAt(fs.vol, ch, 0, 0);
    DirSlotsLength(fs.vol, ch);
    assert s[..0] == [];
    NothingListed(fs.variant);
    while true
      invariant fs.Valid() && fresh(dir)
      invariant k < |ch| && dir.cluster == ch[k] && dir.entry < epc
      invariant i == Times(k, epc) + dir.entry && i <= FirstEnd(s) && i < |s|
      invariant entries == LiveEntries(fs.variant, s[..i])
      decreases |ch| - k, epc - dir.entry
    {
      fs.Bounds();
      var attr;
      ChainEntry(fs.vol, ch, k);
      DirSlotAt(fs.vol, ch, k, dir.entry);
      status, attr := ReadDir(fs, dir);
      if status == EndOfDir {
        return;
      }
      ListOneMore(fs.variant, s, i);
      if status == Success {
        entries := entries + [attr];
      }
      assert entries == LiveEntries(fs.variant, s[..i + 1]);
      TimesStep(k, epc);
      status, k := NextDirEntry(fs, dir, ch, k);
      i := i + 1;
      if status != Success {
        return;
      }
      DirSlotAt(fs.vol, ch, k, dir.entry);
    }
  }

  lemma ListOneMore(variant: Variant, s: seq<Slot>, i: nat)
    requires i < |s|
    ensures LiveEntries(variant, s[..i + 1]) == LiveEntries(variant, s[..i]) + if IsDeleted(s[i]) then []
            else [AttrOf(variant, s[i])]
  {
    hide AttrOf;
    assert s[..i + 1][..i] == s[..i];
  }
}
