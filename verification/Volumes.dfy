// The volume as the storage engine sees it, one level above bytes: a table of
// classified FAT entries and the contents of every cluster.  Cluster chains, and
// the invariant that all live chains share the table without overlapping.

module Volumes {
  import opened Bytes
  import opened Endian

  datatype FatEntry = Available | Data(next: nat) | Reserved | Bad | Media | End | Invalid

  function SignExtend16(x: u32): (y: u32)
  {
    var h := x % 0x1_0000;
    if h < 0x8000 then h else h + 0xffff_0000
  }

  // fatx_get_fat_entry_type, with the link kept for data entries.
  function Classify(fat32: bool, entry: u32): (t: FatEntry)
    ensures t.Data? ==> t.next == entry && entry != 0
  {
    var e := if fat32 then entry else SignExtend16(entry);
    if e == 0x0000_0000 then Available
    else if e == 0xffff_fff0 then Reserved
    else if e == 0xffff_fff7 then Bad
    else if e == 0xffff_fff8 then Media
    else if e == 0xffff_ffff then End
    else if e < 0xffff_fff0 then Data(entry)
    else Invalid
  }

  // bytesPerCluster, byte order, one entry per FAT index 0..numClusters, one content per
  // cluster number 0..numClusters-1 (number 0 is reserved and has no content).
  datatype Volume = Volume(bpc: nat, variant: Variant, fat: seq<FatEntry>, clusters: seq<seq<byte>>) {

    ghost predicate Wf() {
      && bpc >= 512 && bpc % 64 == 0
      && |clusters| >= 3
      && |fat| == |clusters| + 1
      && forall c :: 1 <= c < |clusters| ==> |clusters[c]| == bpc
    }

    predicate InRange(c: int) {
      1 <= c < |clusters|
    }

    // Overwriting part of one cluster.
    function Write(c: nat, off: nat, d: seq<byte>): Volume
      requires c < |clusters| && off + |d| <= |clusters[c]|
    {
      this.(clusters := clusters[c := Splice(clusters[c], off, d)])
    }
  }

  ghost predicate NoDup<T>(s: seq<T>) {
    forall i, j :: 0 <= i < j < |s| ==> s[i] != s[j]
  }

  // What the entry of the j-th cluster of a chain must say.
  function Link(ch: seq<nat>, j: nat): FatEntry
    requires j < |ch|
  {
    if j + 1 < |ch| then Data(ch[j + 1]) else End
  }

  // ch is an END-terminated run of data links through distinct clusters.
  ghost predicate IsChain(v: Volume, ch: seq<nat>)
    requires |v.fat| == |v.clusters| + 1
  {
    && |ch| >= 1
    && (forall j :: 0 <= j < |ch| ==> v.InRange(ch[j]))
    && (forall j {:trigger v.fat[ch[j]]} :: 0 <= j < |ch| ==> v.fat[ch[j]] == Link(ch, j))
    && NoDup(ch)
  }

  ghost predicate Owned(chains: map<nat, seq<nat>>, c: nat) {
    exists k :: k in chains && c in chains[k]
  }

  ghost predicate Disjoint(chains: map<nat, seq<nat>>) {
    forall k, l, c :: k in chains && l in chains && c in chains[k] && c in chains[l] ==> k == l
  }

  // The chains, keyed by first cluster, partition the entries in use.
  ghost predicate ChainsOk(v: Volume, chains: map<nat, seq<nat>>)
    requires |v.fat| == |v.clusters| + 1
  {
    && (forall k :: k in chains ==> IsChain(v, chains[k]) && chains[k][0] == k)
    && Disjoint(chains)
    && (forall c :: 1 <= c < |v.fat| && v.fat[c] != Available ==> Owned(chains, c))
  }

  // The table changed from v to v' only where chain ch became ch'; clusters that
  // left are available again and clusters that joined were available before.
  ghost predicate Reshaped(v: Volume, v': Volume, ch: seq<nat>, ch': seq<nat>)
    requires |v.fat| == |v.clusters| + 1
  {
    && |v'.fat| == |v.fat| && |v'.clusters| == |v.clusters| && v'.bpc == v.bpc && v'.variant == v.variant
    && (ch' != [] ==> IsChain(v', ch'))
    && (forall c :: 0 <= c < |v.fat| && c !in ch && c !in ch' ==> v'.fat[c] == v.fat[c])
    && (forall c :: c in ch && c !in ch' ==> c < |v'.fat| && v'.fat[c] == Available)
    && (forall c :: c in ch' && c !in ch ==> c < |v.fat| && v.fat[c] == Available)
  }

  lemma ChainEntryInUse(v: Volume, ch: seq<nat>, c: nat)
    requires |v.fat| == |v.clusters| + 1 && IsChain(v, ch) && c in ch
    ensures v.InRange(c) && v.fat[c] != Available
  {
    var j :| 0 <= j < |ch| && ch[j] == c;
    assert v.fat[ch[j]] == Link(ch, j);
  }

  lemma AvailableIsOutside(v: Volume, ch: seq<nat>, c: nat)
    requires |v.fat| == |v.clusters| + 1 && IsChain(v, ch) && c < |v.fat| && v.fat[c] == Available
    ensures c !in ch
  {
    hide IsChain;
    forall d | d in ch ensures d < |v.fat| && v.fat[d] != Available {
      ChainEntryInUse(v, ch, d);
    }
  }

  lemma ChainUntouched(v: Volume, v': Volume, ch: seq<nat>)
    requires |v.fat| == |v.clusters| + 1 && |v'.fat| == |v'.clusters| + 1
    requires |v'.clusters| == |v.clusters| && IsChain(v, ch)
    requires forall c :: c in ch && v.InRange(c) ==> v'.fat[c] == v.fat[c]
    ensures IsChain(v', ch)
  {
    forall j | 0 <= j < |ch| ensures v'.fat[ch[j]] == v.fat[ch[j]] {
      assert ch[j] in ch;
    }
  }

  // Growing, cutting, creating (ch = []) and freeing (ch' = []) one chain keeps
  // every other chain and the partition.
  lemma ReshapeKeepsChains(v: Volume, v': Volume, chains: map<nat, seq<nat>>, k: nat, ch: seq<nat>, ch': seq<nat>)
    requires v.Wf() && ChainsOk(v, chains)
    requires if k in chains then ch == chains[k] else ch == []
    requires Reshaped(v, v', ch, ch')
    requires ch' != [] ==> ch'[0] == k
    ensures ChainsOk(v', if ch' == [] then chains - {k} else chains[k := ch'])
  {
    var chains' := if ch' == [] then chains - {k} else chains[k := ch'];
    forall l | l in chains && l != k
      ensures IsChain(v', chains[l]) && chains[l][0] == l && forall c :: c in chains[l] ==> c !in ch'
    {
      ReshapeKeepsOther(v, v', chains, k, ch, ch', l);
    }
    ReshapeKeepsDisjoint(chains, k, ch', chains');
    ReshapeKeepsCover(v, v', chains, k, ch, ch', chains');
  }

  lemma ReshapeKeepsOther(v: Volume, v': Volume, chains: map<nat, seq<nat>>, k: nat, ch: seq<nat>, ch': seq<nat>,
      l: nat)
    requires v.Wf() && ChainsOk(v, chains)
    requires if k in chains then ch == chains[k] else ch == []
    requires Reshaped(v, v', ch, ch')
    requires l in chains && l != k
    ensures IsChain(v', chains[l]) && chains[l][0] == l
    ensures forall c :: c in chains[l] ==> c !in ch && c !in ch'
  {
    forall c | c in chains[l]
      ensures c !in ch && c !in ch'
    {
      ChainEntryInUse(v, chains[l], c);
    }
    ChainUntouched(v, v', chains[l]);
  }

  lemma ReshapeKeepsDisjoint(chains: map<nat, seq<nat>>, k: nat, ch': seq<nat>, chains': map<nat, seq<nat>>)
    requires Disjoint(chains)
    requires chains' == if ch' == [] then chains - {k} else chains[k := ch']
    requires forall l, c :: l in chains && l != k && c in chains[l] ==> c !in ch'
    ensures Disjoint(chains')
  {
    forall l, m, c | l in chains' && m in chains' && c in chains'[l] && c in chains'[m]
      ensures l == m
    {
      if l != k && m != k {
        assert c in chains[l] && c in chains[m];
      }
    }
  }

  lemma ReshapeKeepsCover(v: Volume, v': Volume, chains: map<nat, seq<nat>>, k: nat, ch: seq<nat>, ch': seq<nat>,
      chains': map<nat, seq<nat>>)
    requires v.Wf() && ChainsOk(v, chains)
    requires if k in chains then ch == chains[k] else ch == []
    requires Reshaped(v, v', ch, ch')
    requires chains' == if ch' == [] then chains - {k} else chains[k := ch']
    ensures forall c :: 1 <= c < |v'.fat| && v'.fat[c] != Available ==> Owned(chains', c)
  {
    forall c | 1 <= c < |v'.fat| && v'.fat[c] != Available
      ensures Owned(chains', c)
    {
      if c in ch' {
        assert c in chains'[k];
      } else {
        assert c !in ch;
        assert v.fat[c] != Available;
        assert Owned(chains, c);
        var l :| l in chains && c in chains[l];
        assert l in chains' && c in chains'[l];
      }
    }
  }

  // ---- allocation ----

  ghost predicate NoneFree(fat: seq<FatEntry>, lo: nat, hi: nat) {
    forall j :: lo <= j < hi && j < |fat| ==> fat[j] != Available
  }

  // c is the first available index met going round 2..n-1 from start.
  ghost predicate NextFree(fat: seq<FatEntry>, n: nat, start: nat, c: nat) {
    && 2 <= c < n && c < |fat| && fat[c] == Available
    && if start <= c then NoneFree(fat, start, c) else NoneFree(fat, start, n) && NoneFree(fat, 2, c)
  }

  // How many steps it is from start to c, 2 coming after n - 1.
  function Distance(n: nat, start: nat, c: nat): nat
    requires 2 <= start < n && 2 <= c
  {
    if start <= c then c - start else (n - start) + (c - 2)
  }

  // The next free index is the nearest of all that are available, and there is one only.
  lemma NextFreeIsNearest(fat: seq<FatEntry>, n: nat, start: nat, c: nat)
    requires 2 <= start < n <= |fat|
    ensures NextFree(fat, n, start, c) <==>
            && 2 <= c < n && fat[c] == Available
            && forall j :: 2 <= j < n && fat[j] == Available ==> Distance(n, start, c) <= Distance(n, start, j)
    ensures NextFree(fat, n, start, c) ==> forall j: nat :: NextFree(fat, n, start, j) ==> j == c
  {
    if !NextFree(fat, n, start, c) && 2 <= c < n && fat[c] == Available {
      var j :| 2 <= j < n && fat[j] == Available && if start <= c then start <= j < c else start <= j || j < c;
      assert Distance(n, start, j) < Distance(n, start, c);
    }
  }

  lemma NextIsFree(fat: seq<FatEntry>, n: nat, start: nat, c: nat)
    requires NextFree(fat, n, start, c)
    ensures 2 <= c < n && c < |fat| && fat[c] == Available
  {
  }

  // The volume after cluster c was taken as a chain of its own.
  function Allocated(v: Volume, c: nat, zero: bool): Volume
    requires c < |v.fat| && c < |v.clusters| && |v.clusters[c]| == v.bpc
  {
    var w := v.(fat := v.fat[c := End]);
    if zero then w.Write(c, 0, Zeros(v.bpc)) else w
  }

  // ---- why the hint has to be in range ----

  // The index probed in round k + 1 of the search when nothing is available.
  function Probed(n: nat, start: nat, k: nat): nat
    requires n >= 3
  {
    if k == 0 then (if start >= n then 2 else start)
    else var i := Probed(n, start, k - 1) + 1; if i >= n then 2 else i
  }

  lemma {:induction false} ProbedFrom(n: nat, start: nat, k: nat)
    requires n >= 3
    ensures 2 <= start < n && k <= n - start - 1 ==> Probed(n, start, k) == start + k
    ensures k >= n - start && 2 <= start < n && k - (n - start) < n - 2 ==> Probed(n, start, k) == 2 + k - (n - start)
    ensures k > 0 && !(2 <= start < n) ==> Probed(n, start, k) == 1 || 2 <= Probed(n, start, k) < n
    ensures k > 0 && start == 1 ==> Probed(n, start, k) != 1
  {
    if k > 0 {
      ProbedFrom(n, start, k - 1);
    }
  }

  // A search that finds nothing comes back to where it started, and so ends, if and only
  // if it started at an index that it probes on its way round.
  lemma SearchEndsIff(n: nat, start: nat)
    requires n >= 3
    ensures (exists k: nat :: k > 0 && Probed(n, start, k) == start) <==> 2 <= start < n
  {
    if 2 <= start < n {
      ProbedFrom(n, start, n - 2);
      ProbedFrom(n, start, n - 3);
      assert Probed(n, start, n - 2) == start;
    } else {
      forall k: nat | k > 0 ensures Probed(n, start, k) != start {
        ProbedFrom(n, start, k);
      }
    }
  }

  // ---- freeing ----

  function CountData(fat: seq<FatEntry>): nat {
    if fat == [] then 0 else CountData(fat[..|fat| - 1]) + if fat[|fat| - 1].Data? then 1 else 0
  }

  lemma {:induction false} CountDataUpdate(fat: seq<FatEntry>, c: nat)
    requires c < |fat|
    ensures CountData(fat[c := Available]) == CountData(fat) - if fat[c].Data? then 1 else 0
  {
    var last := |fat| - 1;
    if c == last {
      assert fat[c := Available][..last] == fat[..last];
    } else {
      assert fat[c := Available][..last] == fat[..last][c := Available];
      CountDataUpdate(fat[..last], c);
    }
  }

  // The table after fatx_free_cluster_chain from c.
  function FreeChain(fat: seq<FatEntry>, c: nat): (r: seq<FatEntry>)
    ensures |r| == |fat|
    decreases CountData(fat)
  {
    if c >= |fat| then fat
    else
      CountDataUpdate(fat, c);
      var fat' := fat[c := Available];
      if fat[c].Data? && fat[c].next != 0 then FreeChain(fat', fat[c].next) else fat'
  }

  // Following data links from c reaches i in k steps.
  ghost predicate Reaches(fat: seq<FatEntry>, c: nat, i: nat, k: nat)
    decreases k
  {
    if k == 0 then c == i
    else c < |fat| && fat[c].Data? && fat[c].next != 0 && Reaches(fat, fat[c].next, i, k - 1)
  }

  ghost predicate Reachable(fat: seq<FatEntry>, c: nat, i: nat) {
    exists k: nat :: Reaches(fat, c, i, k)
  }

  // Whatever the table holds, cycles and wild links included, freeing from c makes
  // exactly the indices reachable from c available.
  lemma {:induction false} FreeChainFreesReachable(fat: seq<FatEntry>, c: nat, i: nat)
    requires i < |fat|
    ensures FreeChain(fat, c)[i] == if Reachable(fat, c, i) then Available else fat[i]
    decreases CountData(fat)
  {
    assert Reaches(fat, c, c, 0);
    if c >= |fat| || !fat[c].Data? || fat[c].next == 0 {
      if Reachable(fat, c, i) {
        var k: nat :| Reaches(fat, c, i, k);
        assert k == 0;
      }
    } else {
      var next, fat' := fat[c].next, fat[c := Available];
      CountDataUpdate(fat, c);
      FreeChainFreesReachable(fat', next, i);
      if Reachable(fat', next, i) {
        var k: nat :| Reaches(fat', next, i, k);
        ReachesInMore(fat, c, next, i, k);
        assert Reaches(fat, c, i, k + 1);
      }
      if Reachable(fat, c, i) && i != c {
        var k: nat :| Reaches(fat, c, i, k);
        var k' := ReachesAvoiding(fat, c, i, k - 1);
      }
    }
  }

  lemma {:induction false} ReachesInMore(fat: seq<FatEntry>, c: nat, d: nat, i: nat, k: nat)
    requires c < |fat| && Reaches(fat[c := Available], d, i, k)
    ensures Reaches(fat, d, i, k)
    decreases k
  {
    if k > 0 { ReachesInMore(fat, c, fat[d].next, i, k - 1); }
  }

  ghost predicate ReachesWithin(fat: seq<FatEntry>, c: nat, i: nat, k: nat) {
    exists j: nat :: 0 < j <= k && Reaches(fat, c, i, j)
  }

  // A walk either survives the removal of c or goes through c.
  lemma {:induction false} ReachesSplit(fat: seq<FatEntry>, c: nat, d: nat, i: nat, k: nat)
    requires c < |fat| && i != c && Reaches(fat, d, i, k)
    ensures Reaches(fat[c := Available], d, i, k) || ReachesWithin(fat, c, i, k)
    decreases k
  {
    if d == c {
      assert k != 0;
      assert Reaches(fat, c, i, k);
    } else if k > 0 {
      ReachesSplit(fat, c, fat[d].next, i, k - 1);
      if !Reaches(fat[c := Available], fat[d].next, i, k - 1) {
        var j: nat :| 0 < j <= k - 1 && Reaches(fat, c, i, j);
        assert Reaches(fat, c, i, j);
      }
    }
  }

  lemma {:induction false} ReachesAvoiding(fat: seq<FatEntry>, c: nat, i: nat, k: nat) returns (k': nat)
    requires c < |fat| && fat[c].Data? && i != c && Reaches(fat, fat[c].next, i, k)
    ensures Reaches(fat[c := Available], fat[c].next, i, k')
    decreases k
  {
    ReachesSplit(fat, c, fat[c].next, i, k);
    if Reaches(fat[c := Available], fat[c].next, i, k) {
      k' := k;
    } else {
      var j: nat :| 0 < j <= k && Reaches(fat, c, i, j);
      k' := ReachesAvoiding(fat, c, i, j - 1);
    }
  }

  // On a proper chain, freeing from its m-th cluster frees exactly the rest of it.
  lemma {:induction false} FreeChainTail(fat: seq<FatEntry>, ch: seq<nat>, m: nat)
    requires m < |ch| && NoDup(ch)
    requires forall j :: m <= j < |ch| ==> 1 <= ch[j] < |fat|
    requires forall j {:trigger fat[ch[j]]} :: m <= j < |ch| ==> fat[ch[j]] == Link(ch, j)
    ensures forall i :: 0 <= i < |fat| ==> FreeChain(fat, ch[m])[i] == if i in ch[m..] then Available else fat[i]
    decreases |ch| - m
  {
    var fat' := fat[ch[m] := Available];
    assert fat[ch[m]] == Link(ch, m);
    assert ch[m..] == [ch[m]] + ch[m + 1..];
    if m + 1 < |ch| {
      forall j | m + 1 <= j < |ch| ensures fat'[ch[j]] == Link(ch, j) {
        assert fat[ch[j]] == Link(ch, j);
      }
      FreeChainTail(fat', ch, m + 1);
    }
  }
}
