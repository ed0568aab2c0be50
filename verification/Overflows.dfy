// Directories that are full and have no end marker: fatx_alloc_dir_entry adds a cluster, but
// the entry goes to the slot past the old end, which is in whatever cluster follows on the
// device.

module Overflows {
  import opened Bytes
  import opened Endian
  import opened Codec
  import opened Geometry
  import opened Volumes
  import opened Streams
  import opened Layouts
  import opened Entries
  import opened FatxFs
  import opened Dirs
  import opened Rooms
  import opened Listings

  // The chain has entries in all its slots, and no end marker.
  ghost predicate Unmarked(v: Volume, ch: seq<nat>) {
    |ch| > 0 && StopAt(v, ch, Term(|ch|, 0))
  }

  // Cluster c is taken, attached and marked.
  function Extended(v: Volume, ch: seq<nat>, c: nat): Volume
    requires ch != [] && ch[|ch| - 1] < |v.fat| && c < |v.fat| && c < |v.clusters| && |v.clusters[c]| == v.bpc
  {
    MarkAt(Attached(Allocated(v, c, true), ch[|ch| - 1], c), c, 0, END_OF_DIR)
  }

  // Then the entry is written at the slot past the last one of the old chain.
  function Overflowed(v: Volume, ch: seq<nat>, c: nat, a: Attr): Volume
    requires ch != [] && ch[|ch| - 1] < |v.fat| && c < |v.fat| && c < |v.clusters| && |v.clusters[c]| == v.bpc
    requires |a.name| <= MAX_NAME
  {
    PutAt(Extended(v, ch, c), ch[|ch| - 1], SlotsPerCluster(v.bpc), Encode(v.variant, a))
  }

  // ---- slots ----

  // The cluster that joined is end markers all over, one of 0xff before those of 0x00.
  lemma ExtendedSlots(v: Volume, ch: seq<nat>, c: nat, x: nat, e: nat)
    requires v.Wf() && v.InRange(c) && v.InRange(x) && e < SlotsPerCluster(v.bpc)
    requires ch != [] && ch[|ch| - 1] < |v.fat|
    ensures |v.clusters[c]| == v.bpc
    ensures x == c ==> IsEnd(SlotBytes(Extended(v, ch, c), x, e))
    ensures x != c ==> SlotBytes(Extended(v, ch, c), x, e) == SlotBytes(v, x, e)
    ensures var w := Extended(v, ch, c);
      w.Wf() && w.bpc == v.bpc && w.variant == v.variant && |w.clusters| == |v.clusters|
  {
    var u := v.Write(c, 0, Zeros(v.bpc));
    var w := Attached(Allocated(v, c, true), ch[|ch| - 1], c);
    assert w == u.(fat := w.fat);
    ZeroSlot(v, c, e);
    ZeroSlot(v, c, 0);
    var b := SlotBytes(w, c, 0)[0 := END_OF_DIR];
    assert w.Wf();
    PutSlotBytes(w, c, 0, b, x, e);
    if x != c { OtherClusterSlot(v, c, 0, Zeros(v.bpc), x, e); }
    SlotIgnoresFat(u, w, x, e);
  }

  lemma ZeroSlot(v: Volume, c: nat, e: nat)
    requires v.Wf() && v.InRange(c) && e < SlotsPerCluster(v.bpc)
    ensures |v.clusters[c]| == v.bpc && SlotBytes(v.Write(c, 0, Zeros(v.bpc)), c, e) == Zeros(DIRENT_SIZE)
  {
    WholeSplice(v.clusters[c], Zeros(v.bpc));
  }

  // The entry changes the first slot of the cluster behind the tail, if there is one.
  lemma OverflowedSlots(v: Volume, ch: seq<nat>, c: nat, a: Attr, x: nat, e: nat)
    requires v.Wf() && v.InRange(c) && v.InRange(x) && e < SlotsPerCluster(v.bpc) && |a.name| <= MAX_NAME
    requires ch != [] && v.InRange(ch[|ch| - 1])
    ensures |v.clusters[c]| == v.bpc && ch[|ch| - 1] < |v.fat|
    ensures SlotBytes(Overflowed(v, ch, c, a), x, e)
         == if x == ch[|ch| - 1] + 1 && e == 0 then Encode(v.variant, a) else SlotBytes(Extended(v, ch, c), x, e)
    ensures Overflowed(v, ch, c, a).bpc == v.bpc && Overflowed(v, ch, c, a).variant == v.variant
  {
    hide SlotBytes, Encode, Extended;
    ExtendedSlots(v, ch, c, x, e);
    var w, h := Extended(v, ch, c), ch[|ch| - 1] + 1;
    if h < |v.clusters| {
      PutSlotBytes(w, h, 0, Encode(v.variant, a), x, e);
    }
  }

  // ---- the listing ----

  lemma {:induction false} AtMostSlots(variant: Variant, s: seq<Slot>)
    ensures |LiveEntries(variant, s)| <= |s|
    ensures (forall i :: 0 <= i < |s| ==> !IsDeleted(s[i])) ==> |LiveEntries(variant, s)| == |s|
  {
    hide AttrOf, IsDeleted;
    if s != [] {
      AtMostSlots(variant, s[..|s| - 1]);
    }
  }

  // Every slot of the chain is listed.
  lemma UnmarkedLists(v: Volume, ch: seq<nat>)
    requires Unmarked(v, ch)
    ensures var s := DirSlots(v, ch);
      && (forall i :: 0 <= i < |s| ==> !IsEnd(s[i]) && !IsDeleted(s[i])) && FirstEnd(s) == |s|
      && Listing(v.variant, s) == LiveEntries(v.variant, s) && |Listing(v.variant, s)| == |s|
  {
    hide AttrOf, SlotBytes, Times, IsEnd, IsDeleted, GoodSlot, LiveEntries, DirSlots;
    var s, epc := DirSlots(v, ch), SlotsPerCluster(v.bpc);
    DirSlotsLength(v, ch);
    forall i | 0 <= i < |s| ensures !IsEnd(s[i]) && !IsDeleted(s[i]) {
      var k, e := SlotPlace(|ch|, epc, i);
      DirSlotAt(v, ch, k, e);
      StopSlot(v, ch, Term(|ch|, 0), k, e);
    }
    FirstEndIs(s, |s|);
    assert s[..|s|] == s;
    AtMostSlots(v.variant, s);
  }

  lemma ChainClusters(v: Volume, ch: seq<nat>, c: nat)
    requires v.Wf() && IsChain(v, ch) && v.InRange(c) && v.fat[c] == Available
    ensures c !in ch && AllInRange(v, ch) && |ch| > 0 && v.InRange(ch[|ch| - 1])
  {
    AvailableIsOutside(v, ch, c);
    ChainInRange(v, ch);
  }

  // With the new cluster right behind the old tail the slots are the old ones, the entry,
  // and end markers.
  lemma AdjacentSlots(v: Volume, ch: seq<nat>, c: nat, a: Attr)
    requires v.Wf() && IsChain(v, ch) && v.InRange(c) && v.fat[c] == Available && |a.name| <= MAX_NAME
    requires c == ch[|ch| - 1] + 1
    ensures |v.clusters[c]| == v.bpc && ch[|ch| - 1] < |v.fat|
    ensures var s, s' := DirSlots(v, ch), DirSlots(Overflowed(v, ch, c, a), ch + [c]);
      && |s'| >= |s| + 2 && s'[..|s|] == s && s'[|s|] == Encode(v.variant, a) && IsEnd(s'[|s| + 1])
  {
    hide SlotBytes, Times, IsEnd, IsChain, Encode, Overflowed, Extended, AllInRange, DirSlots;
    ChainClusters(v, ch, c);
    var w, epc := Overflowed(v, ch, c, a), SlotsPerCluster(v.bpc);
    OverflowedSlots(v, ch, c, a, c, 0);
    OverflowedSlots(v, ch, c, a, c, 1);
    ExtendedSlots(v, ch, c, c, 1);
    var s, s' := DirSlots(v, ch), DirSlots(w, ch + [c]);
    DirSlotsLength(v, ch);
    DirSlotsLength(w, ch + [c]);
    DirSlotAt(w, ch + [c], |ch|, 0);
    DirSlotAt(w, ch + [c], |ch|, 1);
    forall i | 0 <= i < |s| ensures s'[i] == s[i] {
      var k, e := SlotPlace(|ch|, epc, i);
      DirSlotAt(v, ch, k, e);
      DirSlotAt(w, ch + [c], k, e);
      InChain(v, ch, c, k);
      OverflowedSlots(v, ch, c, a, ch[k], e);
      ExtendedSlots(v, ch, c, ch[k], e);
    }
  }

  lemma InChain(v: Volume, ch: seq<nat>, c: nat, k: nat)
    requires AllInRange(v, ch) && c !in ch && k < |ch|
    ensures v.InRange(ch[k]) && ch[k] != c
  {
  }

  // With any other the first slot behind the old ones is an end marker.
  lemma DistantSlots(v: Volume, ch: seq<nat>, c: nat, a: Attr)
    requires v.Wf() && IsChain(v, ch) && v.InRange(c) && v.fat[c] == Available && |a.name| <= MAX_NAME
    requires c != ch[|ch| - 1] + 1
    ensures |v.clusters[c]| == v.bpc && ch[|ch| - 1] < |v.fat|
    ensures var s, s' := DirSlots(v, ch), DirSlots(Overflowed(v, ch, c, a), ch + [c]);
      |s'| > |s| && IsEnd(s'[|s|])
  {
    hide SlotBytes, Times, IsEnd, IsChain, Encode, Overflowed, Extended, AllInRange, DirSlots;
    ChainClusters(v, ch, c);
    var w := Overflowed(v, ch, c, a);
    OverflowedSlots(v, ch, c, a, c, 0);
    ExtendedSlots(v, ch, c, c, 0);
    DirSlotsLength(v, ch);
    DirSlotAt(w, ch + [c], |ch|, 0);
  }

  lemma GoodIsShort(name: seq<byte>)
    requires GoodName(name)
    ensures |name| <= MAX_NAME
  {
  }

  // The directory with chain ch' lists what the one with chain ch did, and then a.
  ghost predicate Appends(v: Volume, ch: seq<nat>, v': Volume, ch': seq<nat>, a: Attr) {
    Listing(v.variant, DirSlots(v', ch')) == Listing(v.variant, DirSlots(v, ch)) + [Stored(v.variant, a)]
  }

  // The directory lists the old entries and the new one if and only if the cluster that was
  // taken follows its last one on the device.
  lemma OverflowLists(v: Volume, ch: seq<nat>, c: nat, a: Attr)
    requires v.Wf() && IsChain(v, ch) && Unmarked(v, ch) && v.InRange(c) && v.fat[c] == Available && GoodName(a.name)
    ensures |v.clusters[c]| == v.bpc && ch[|ch| - 1] < |v.fat|
    ensures Appends(v, ch, Overflowed(v, ch, c, a), ch + [c], a) <==> c == ch[|ch| - 1] + 1
  {
    hide AttrOf, SlotBytes, Times, IsEnd, IsDeleted, IsChain, Encode, Overflowed, LiveEntries, DirSlots, Stored,
         GoodSlot, StopAt, GoodName;
    ChainClusters(v, ch, c);
    GoodIsShort(a.name);
    var s, s' := DirSlots(v, ch), DirSlots(Overflowed(v, ch, c, a), ch + [c]);
    UnmarkedLists(v, ch);
    EncodedSlot(v.variant, a);
    if c == ch[|ch| - 1] + 1 {
      AdjacentSlots(v, ch, c, a);
      GoodIsNotEnd(v.variant, Encode(v.variant, a));
      FirstEndIs(s', |s| + 1);
      var b := Encode(v.variant, a);
      LiveEntriesAround(v.variant, s', |s|, |s| + 1);
      assert s'[|s| + 1..|s| + 1] == [];
      NoneListed(v.variant, []);
    } else {
      DistantSlots(v, ch, c, a);
      assert FirstEnd(s') <= |s|;
      AtMostSlots(v.variant, s'[..FirstEnd(s')]);
    }
  }

  // ---- creating ----

  // Taking a cluster for the new entry leaves the directory as it is.
  lemma UnmarkedStays(v: Volume, ch: seq<nat>, c: nat)
    requires v.Wf() && IsChain(v, ch) && Unmarked(v, ch) && v.InRange(c) && v.fat[c] == Available
    ensures |v.clusters[c]| == v.bpc
    ensures var w := Allocated(v, c, true);
      && w.Wf() && IsChain(w, ch) && Unmarked(w, ch) && w.bpc == v.bpc && w.variant == v.variant
      && DirSlots(w, ch) == DirSlots(v, ch) && |w.clusters| == |v.clusters|
  {
    hide SlotBytes, AttrOf, IsEnd, IsDeleted, GoodSlot, DirSlots, Times;
    ChainClusters(v, ch, c);
    var w := Allocated(v, c, true);
    ChainUntouched(v, w, ch);
    forall k, e: nat | 0 <= k < |ch| ensures SlotBytes(w, ch[k], e) == SlotBytes(v, ch[k], e) {
      InChain(v, ch, c, k);
      OtherClusterSlot(v, c, 0, Zeros(v.bpc), ch[k], e);
      SlotIgnoresFat(v.Write(c, 0, Zeros(v.bpc)), w, ch[k], e);
    }
    SameDirSlots(v, w, ch);
  }

  lemma SameDirSlots(v: Volume, w: Volume, ch: seq<nat>)
    requires w.bpc == v.bpc && SlotsPerCluster(v.bpc) > 0
    requires forall k, e: nat :: 0 <= k < |ch| ==> SlotBytes(w, ch[k], e) == SlotBytes(v, ch[k], e)
    ensures DirSlots(w, ch) == DirSlots(v, ch)
  {
    hide SlotBytes, DirSlots, Times;
    DirSlotsLength(v, ch);
    DirSlotsLength(w, ch);
    forall i | 0 <= i < |DirSlots(v, ch)| ensures DirSlots(w, ch)[i] == DirSlots(v, ch)[i] {
      var k, e := SlotPlace(|ch|, SlotsPerCluster(v.bpc), i);
      DirSlotAt(v, ch, k, e);
      DirSlotAt(w, ch, k, e);
    }
  }

  // fatx_create_dirent in a directory that is full and has no end marker.  c1 and c2 are the
  // clusters taken, the first two that are free from the hint on; what becomes of the
  // directory is settled by where the second one is.
  method CreateUnmarked(fs: Fs, d: nat, name: seq<byte>, attributes: byte, now: Ts, ghost ch: seq<nat>)
    returns (status: Status, ghost c1: nat, ghost c2: nat)
    requires fs.Valid() && fs.HintOk() && |fs.vol.fat| == |fs.vol.clusters| + 1
    requires IsChain(fs.vol, ch) && ch[0] == d && Unmarked(fs.vol, ch) && name != [] && 0 !in name
    modifies fs
    ensures fs.Valid() && fs.HintOk()
    ensures status == Success || status == Error
    ensures status == Success ==>
              var v, a := old(fs.vol), NewAttr(name, attributes, c1, now);
              && NextFree(v.fat, fs.geo.numClusters, old(fs.hint), c1) && v.InRange(c1) && |v.clusters[c1]| == v.bpc
              && |name| < MAX_NAME
              && var w := Allocated(v, c1, true);
                 && NextFree(w.fat, fs.geo.numClusters, c1, c2) && w.InRange(c2) && |w.clusters[c2]| == w.bpc
                 && ch[|ch| - 1] < |w.fat| && fs.vol == Overflowed(w, ch, c2, a)
                 && (Appends(v, ch, fs.vol, ch + [c2], a) <==> c2 == ch[|ch| - 1] + 1)
    ensures status == Error ==>
              || |name| >= MAX_NAME || ch[|ch| - 1] + 1 >= fs.geo.numClusters
              || OneFree(old(fs.vol).fat, fs.geo.numClusters)
  {
    hide Rep, Framed, Times, AttrOf, SlotBytes, NoneFree, IsChain, Unmarked, Allocated, NextFree, MarkAt, PutAt,
         Encode, FreeChain, Appends, OneFree;
    fs.Bounds();
    ghost var v := fs.vol;
    c1, c2 := 0, 0;
    if |name| >= MAX_NAME {
      return Error, 0, 0;
    }
    var cluster;
    ghost var probes;
    status, cluster, probes := fs.AllocCluster(true);
    if status != Success {
      NoneIsOne(v.fat, fs.geo.numClusters);
      return;
    }
    c1 := cluster;
    NextIsFree(v.fat, fs.geo.numClusters, old(fs.hint), c1);
    UnmarkedStays(v, ch, c1);
    fs.Bounds();
    ghost var w := fs.vol;
    UnmarkedStops(w, ch);
    var dir := new Dir(d, 0);
    status, c2 := AllocDirEntry(fs, dir, ch, Term(|ch|, 0));
    if status != Success {
      OnlyOne(v, c1, fs.geo.numClusters);
      fs.FreeClusterChain(cluster);
      return;
    }
    fs.Bounds();
    ChainClusters(w, ch, c2);
    ExtendedSlots(w, ch, c2, c2, 0);
    var attr := NewAttr(name, attributes, cluster, now);
    status := WriteDir(fs, dir, attr);
    if status != Success {
      fs.FreeClusterChain(cluster);
      return;
    }
    OverflowLists(w, ch, c2, attr);
    SameBefore(v, w, ch, fs.vol, ch + [c2], attr);
  }

  lemma SameBefore(v: Volume, w: Volume, ch: seq<nat>, v': Volume, ch': seq<nat>, a: Attr)
    requires DirSlots(w, ch) == DirSlots(v, ch) && w.variant == v.variant
    ensures Appends(v, ch, v', ch', a) <==> Appends(w, ch, v', ch', a)
  {
    hide Listing, DirSlots, Stored;
  }

  // There are no two clusters to be allocated.
  ghost predicate OneFree(fat: seq<FatEntry>, n: nat) {
    forall i, j :: 2 <= i < j < n && j < |fat| ==> fat[i] != Available || fat[j] != Available
  }

  lemma NoneIsOne(fat: seq<FatEntry>, n: nat)
    requires NoneFree(fat, 2, n)
    ensures OneFree(fat, n)
  {
  }

  lemma OnlyOne(v: Volume, c: nat, n: nat)
    requires c < |v.fat| && c < |v.clusters| && |v.clusters[c]| == v.bpc && NoneFree(Allocated(v, c, true).fat, 2, n)
    ensures OneFree(v.fat, n)
  {
    forall j | 2 <= j < n && j < |v.fat| && j != c ensures v.fat[j] != Available {
      assert Allocated(v, c, true).fat[j] == v.fat[j];
    }
  }

  lemma UnmarkedStops(v: Volume, ch: seq<nat>)
    requires Unmarked(v, ch)
    ensures ch != [] && StopAt(v, ch, Term(|ch|, 0))
  {
  }
}
