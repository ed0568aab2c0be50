// Space accounting: the free clusters of a volume and the chains of its layout add up.

module Spaces {
  import opened Codec
  import opened Geometry
  import opened Volumes
  import opened Streams
  import opened Layouts
  import opened Contents

  // The data clusters that are available, and those that belong to a chain.
  ghost function FreeSet(v: Volume): set<int>
    requires |v.fat| == |v.clusters| + 1
  {
    set c: int | 1 <= c < |v.clusters| && v.fat[c] == Available
  }

  // Those that the allocator looks at.
  ghost function AllocSet(v: Volume): set<int> {
    set c: int | 2 <= c < |v.clusters| && c < |v.fat| && v.fat[c] == Available
  }

  ghost function Elements(ch: seq<nat>): set<int> {
    set c: int | c in ch
  }

  ghost function UsedSet(chains: map<nat, seq<nat>>): set<int> {
    set k: nat, c: int | k in chains && c in chains[k] :: c
  }

  // The lengths of all chains, added up.
  ghost function TotalLength(chains: map<nat, seq<nat>>): nat
    decreases |chains|
  {
    if chains == map[] then 0
    else
      var k :| k in chains;
      |chains[k]| + TotalLength(chains - {k})
  }

  lemma {:induction false} DistinctElements(ch: seq<nat>)
    requires NoDup(ch)
    ensures |Elements(ch)| == |ch|
  {
    if ch == [] {
      assert Elements(ch) == {};
    } else {
      var init, last := ch[..|ch| - 1], ch[|ch| - 1];
      DistinctElements(init);
      assert Elements(ch) == Elements(init) + {last};
      assert last !in Elements(init);
    }
  }

  lemma {:induction false} DisjointLengths(chains: map<nat, seq<nat>>)
    requires Disjoint(chains) && forall k :: k in chains ==> NoDup(chains[k])
    ensures |UsedSet(chains)| == TotalLength(chains)
    decreases |chains|
  {
    hide Disjoint, Elements;
    if chains == map[] {
      assert UsedSet(chains) == {};
    } else {
      var k :| k in chains && TotalLength(chains) == |chains[k]| + TotalLength(chains - {k});
      UsedSetWithout(chains, k);
      DisjointLengths(chains - {k});
      DistinctElements(chains[k]);
    }
  }

  lemma UsedSetWithout(chains: map<nat, seq<nat>>, k: nat)
    requires Disjoint(chains) && k in chains
    ensures UsedSet(chains) == UsedSet(chains - {k}) + Elements(chains[k])
    ensures UsedSet(chains - {k}) !! Elements(chains[k])
    ensures Disjoint(chains - {k})
  {
    forall c | c in UsedSet(chains - {k}) ensures c !in Elements(chains[k]) {
      var l :| l in chains - {k} && c in chains[l];
      assert c in chains[k] ==> l == k;
    }
    forall c | c in UsedSet(chains) ensures c in UsedSet(chains - {k}) || c in Elements(chains[k]) {
      var l :| l in chains && c in chains[l];
      if l != k { assert l in chains - {k} && c in (chains - {k})[l]; } else { assert c in chains[k]; }
    }
  }

  ghost function DataClusters(n: nat): (r: set<int>)
    ensures forall c :: c in r <==> 1 <= c < n
    ensures n >= 1 ==> |r| == n - 1
  {
    if n <= 1 then {} else DataClusters(n - 1) + {n - 1}
  }

  // Conservation: free clusters and chain lengths together are always all data clusters.
  lemma SpaceConserved(v: Volume, g: Layout)
    requires Inv(v, g)
    ensures |v.fat| == |v.clusters| + 1 && |FreeSet(v)| + TotalLength(g.chains) == |v.clusters| - 1
  {
    hide DirOk, LiveOk, Live, NamesDistinct, AttrAt, Link;
    var n: nat := |v.clusters|;
    forall k | k in g.chains ensures NoDup(g.chains[k]) && AllInRange(v, g.chains[k]) {
      ChainInRange(v, g.chains[k]);
    }
    DisjointLengths(g.chains);
    var all := DataClusters(n);
    forall c | c in all ensures c in FreeSet(v) || c in UsedSet(g.chains) {
      if v.fat[c] != Available { assert Owned(g.chains, c); }
    }
    forall c | c in UsedSet(g.chains) ensures c in all && c !in FreeSet(v) {
      var k :| k in g.chains && c in g.chains[k];
      ChainEntryInUse(v, g.chains[k], c);
    }
    assert all == FreeSet(v) + UsedSet(g.chains);
  }

  lemma NoneToAlloc(v: Volume)
    requires |v.fat| == |v.clusters| + 1
    ensures NoneFree(v.fat, 2, |v.clusters|) <==> |AllocSet(v)| == 0
  {
    if NoneFree(v.fat, 2, |v.clusters|) {
      assert AllocSet(v) == {};
    }
    if AllocSet(v) == {} {
      forall j | 2 <= j < |v.clusters| && j < |v.fat| ensures v.fat[j] != Available {
        assert j !in AllocSet(v);
      }
    }
  }

  // The first cluster is the root directory's or nobody's.
  ghost predicate FirstSpare(g: Layout) {
    g.root == 1 || !Owned(g.chains, 1)
  }

  // There the clusters that can be allocated and the chains add up to all but number 0, and
  // number 1 where it is not the root's.
  lemma AllocConserved(v: Volume, g: Layout)
    requires Inv(v, g) && FirstSpare(g)
    ensures |v.fat| == |v.clusters| + 1
    ensures |AllocSet(v)| + TotalLength(g.chains) + (if g.root == 1 then 1 else 2) == |v.clusters|
  {
    hide DirOk, LiveOk, Live, NamesDistinct, AttrAt, Link, TotalLength;
    SpaceConserved(v, g);
    FirstAvailable(v, g);
    if g.root == 1 {
      assert AllocSet(v) == FreeSet(v);
    } else {
      assert FreeSet(v) == AllocSet(v) + {1};
    }
  }

  lemma FirstAvailable(v: Volume, g: Layout)
    requires Inv(v, g) && FirstSpare(g)
    ensures |v.fat| == |v.clusters| + 1 && |v.clusters| > 1 && (v.fat[1] == Available <==> g.root != 1)
  {
    hide DirOk, LiveOk, Live, NamesDistinct, AttrAt, Link;
    assert IsChain(v, g.chains[g.root]) && g.root in g.chains[g.root];
    ChainEntryInUse(v, g.chains[g.root], g.root);
  }

  // ---- in terms of the inode table ----

  // The clusters an entry is entitled to.
  function Need(n: Node, b: nat): nat
    requires b > 0
  {
    if n.attr.IsDirectory() then 1 else ClustersFor(n.attr.size, b)
  }

  ghost function TotalNeed(abs: map<nat, Node>, b: nat): nat
    requires b > 0
    decreases |abs|
  {
    if abs == map[] then 0
    else
      var k :| k in abs;
      Need(abs[k], b) + TotalNeed(abs - {k}, b)
  }

  ghost predicate AllTight(abs: map<nat, Node>, b: nat)
    requires b > 0
  {
    forall k :: k in abs && !abs[k].attr.IsDirectory() ==> Tight(abs[k], b)
  }

  // Every directory has a single cluster.
  ghost predicate SingleDirs(g: Layout) {
    forall d :: d in g.dirs && d in g.chains ==> |g.chains[d]| == 1
  }

  ghost predicate Accounted(v: Volume, g: Layout)
    requires v.bpc > 0
  {
    AllTight(Abs(v, g), v.bpc) && SingleDirs(g)
  }

  lemma NodeSized(v: Volume, g: Layout, k: nat)
    requires Inv(v, g) && k in Abs(v, g)
    ensures var n := Abs(v, g)[k];
      && k in g.chains && (n.attr.IsDirectory() <==> k in g.dirs) && k != g.root
      && (!n.attr.IsDirectory() ==> Sized(n) && |n.bytes| == Times(|g.chains[k]|, v.bpc))
  {
    hide AttrOf, SlotAt, DirOk, NamesDistinct, Times, Live, IsChain, Stream;
    OwnerPlace(v, g, {}, k);
    assert LiveOk(v, g, g.owner[k], {});
    Size32(v, g, g.owner[k]);
    ChainInRange(v, g.chains[k]);
    StreamLength(v, g.chains[k]);
  }

  lemma Size32(v: Volume, g: Layout, p: Place)
    ensures AttrAt(v, g, p).size < WORD
  {
    hide Decode;
  }

  lemma TimesInjective(m: nat, n: nat, b: nat)
    requires b > 0 && Times(m, b) == Times(n, b)
    ensures m == n
  {
    TimesOrder(m, n, b);
    TimesOrder(n, m, b);
  }

  lemma ChainIsNeed(v: Volume, g: Layout, k: nat)
    requires v.bpc > 0 && Inv(v, g) && Accounted(v, g) && k in Abs(v, g)
    ensures k in g.chains && |g.chains[k]| == Need(Abs(v, g)[k], v.bpc)
  {
    hide InvBut, Abs, Times, ClustersFor;
    NodeSized(v, g, k);
    var n := Abs(v, g)[k];
    if !n.attr.IsDirectory() {
      assert Tight(n, v.bpc);
      TimesInjective(|g.chains[k]|, ClustersFor(n.attr.size, v.bpc), v.bpc);
    }
  }

  // Sums over the same keys with the same summands agree.
  lemma {:induction false} SameTotals(abs: map<nat, Node>, chains: map<nat, seq<nat>>, b: nat)
    requires b > 0 && abs.Keys == chains.Keys && forall k :: k in abs ==> |chains[k]| == Need(abs[k], b)
    ensures TotalLength(chains) == TotalNeed(abs, b)
    decreases |abs|
  {
    hide Need;
    if abs != map[] {
      var k :| k in abs && TotalNeed(abs, b) == Need(abs[k], b) + TotalNeed(abs - {k}, b);
      SameTotals(abs - {k}, chains - {k}, b);
      TotalWithout(chains, k);
    } else {
      assert chains == map[];
    }
  }

  // The total does not depend on the order of summation.
  lemma {:induction false} TotalWithout(chains: map<nat, seq<nat>>, k: nat)
    requires k in chains
    ensures TotalLength(chains) == |chains[k]| + TotalLength(chains - {k})
    decreases |chains|
  {
    var l :| l in chains && TotalLength(chains) == |chains[l]| + TotalLength(chains - {l});
    if l != k {
      TotalWithout(chains - {l}, k);
      TotalWithout(chains - {k}, l);
      assert chains - {l} - {k} == chains - {k} - {l};
    }
  }

  // The free space is what the inode table leaves: each file has max(1, ceil(size / bpc))
  // clusters, each directory one, the root included.
  lemma FreeSpace(v: Volume, g: Layout)
    requires Inv(v, g) && Accounted(v, g)
    ensures |v.fat| == |v.clusters| + 1
    ensures |FreeSet(v)| + 1 + TotalNeed(Abs(v, g), v.bpc) == |v.clusters| - 1
  {
    hide InvBut, Accounted, Abs, Need;
    SpaceConserved(v, g);
    RootChain(v, g);
    forall k | k in Abs(v, g) ensures k in g.chains && |g.chains[k]| == Need(Abs(v, g)[k], v.bpc) {
      ChainIsNeed(v, g, k);
    }
    TotalWithout(g.chains, g.root);
    SameTotals(Abs(v, g), g.chains - {g.root}, v.bpc);
  }

  lemma RootChain(v: Volume, g: Layout)
    requires Inv(v, g) && Accounted(v, g)
    ensures v.bpc > 0 && g.root in g.chains && |g.chains[g.root]| == 1 && Abs(v, g).Keys == (g.chains - {g.root}).Keys
  {
    hide DirOk, LiveOk, Live, NamesDistinct, ChainsOk, AttrAt, NodeOf;
  }
}
