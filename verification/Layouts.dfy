// Directories and files over cluster chains: which slots are live, which chain each
// live entry owns, and the inode table a volume stands for.

module Layouts {
  import opened Bytes
  import opened Endian
  import opened Codec
  import opened Geometry
  import opened Volumes
  import opened Streams

  // Slot e of the k-th cluster of directory dir.
  datatype Place = Place(dir: nat, k: nat, e: nat)

  // Where a directory's scan ends: an end marker in slot e of its k-th cluster.
  datatype Term = Term(k: nat, e: nat)

  // Directories and files go by their first cluster.  Every chain is recorded, every
  // directory has its terminator, every chain but the root's has the entry owning it.
  datatype Layout = Layout(root: nat, chains: map<nat, seq<nat>>, dirs: map<nat, Term>, owner: map<nat, Place>)

  function SlotsPerCluster(bpc: nat): nat {
    bpc / DIRENT_SIZE
  }

  function SlotBytes(v: Volume, c: nat, e: nat): (b: seq<byte>)
    ensures |b| == DIRENT_SIZE
  {
    if c < |v.clusters| && DIRENT_SIZE * e + DIRENT_SIZE <= |v.clusters[c]|
    then v.clusters[c][DIRENT_SIZE * e..DIRENT_SIZE * e + DIRENT_SIZE]
    else Padding(DIRENT_SIZE)
  }

  predicate IsEnd(b: seq<byte>)
    requires |b| == DIRENT_SIZE
  {
    b[0] == END_OF_DIR || b[0] == END_OF_DIR2
  }

  predicate IsDeleted(b: seq<byte>)
    requires |b| == DIRENT_SIZE
  {
    b[0] == DELETED
  }

  function AttrOf(variant: Variant, b: seq<byte>): (a: Attr)
    requires |b| == DIRENT_SIZE
  {
    if b[0] <= MAX_NAME then Decode(variant, b) else Decode(variant, b[0 := 0])
  }

  // A slot met before the terminator: deleted, or an entry with a proper name.
  predicate GoodSlot(variant: Variant, b: seq<byte>)
    requires |b| == DIRENT_SIZE
  {
    !IsEnd(b) && (IsDeleted(b) || (b[0] <= MAX_NAME && GoodName(AttrOf(variant, b).name)))
  }

  predicate Before(k: nat, e: nat, t: Term) {
    k < t.k || (k == t.k && e < t.e)
  }

  function ClusterAt(g: Layout, p: Place): nat {
    if p.dir in g.chains && p.k < |g.chains[p.dir]| then g.chains[p.dir][p.k] else 0
  }

  function SlotAt(v: Volume, g: Layout, p: Place): (b: seq<byte>)
    ensures |b| == DIRENT_SIZE
  {
    SlotBytes(v, ClusterAt(g, p), p.e)
  }

  function AttrAt(v: Volume, g: Layout, p: Place): Attr {
    AttrOf(v.variant, SlotAt(v, g, p))
  }

  ghost predicate InDir(v: Volume, g: Layout, p: Place) {
    && p.dir in g.dirs && p.dir in g.chains && p.k < |g.chains[p.dir]| && p.e < SlotsPerCluster(v.bpc)
  }

  // p holds an entry of its directory.
  ghost predicate Live(v: Volume, g: Layout, p: Place) {
    InDir(v, g, p) && Before(p.k, p.e, g.dirs[p.dir]) && !IsDeleted(SlotAt(v, g, p))
  }

  ghost predicate DirOk(v: Volume, g: Layout, d: nat) {
    && d in g.dirs && d in g.chains
    && var t := g.dirs[d];
      && t.k < |g.chains[d]| && t.e < SlotsPerCluster(v.bpc)
      && IsEnd(SlotAt(v, g, Place(d, t.k, t.e)))
      && forall k, e :: 0 <= k && 0 <= e < SlotsPerCluster(v.bpc) && Before(k, e, t) ==>
           GoodSlot(v.variant, SlotAt(v, g, Place(d, k, e)))
  }

  // The entry at p owns the chain it names; short says its size may be too large.
  ghost predicate LiveOk(v: Volume, g: Layout, p: Place, short: set<nat>) {
    var a := AttrAt(v, g, p);
    && a.first in g.chains && a.first != g.root
    && a.first in g.owner && g.owner[a.first] == p
    && (a.IsDirectory() <==> a.first in g.dirs)
    && (a.IsDirectory() || a.first in short || a.size <= Times(|g.chains[a.first]|, v.bpc))
  }

  ghost predicate NamesDistinct(v: Volume, g: Layout) {
    forall p, q :: Live(v, g, p) && Live(v, g, q) && p.dir == q.dir && AttrAt(v, g, p).name == AttrAt(v, g, q).name ==>
      p == q
  }

  ghost predicate NoEntry(v: Volume, g: Layout, d: nat, name: seq<byte>) {
    forall q :: Live(v, g, q) && q.dir == d ==> AttrAt(v, g, q).name != name
  }

  // The invariant of a volume, but for the sizes of the files in short.
  ghost predicate InvBut(v: Volume, g: Layout, short: set<nat>) {
    && v.Wf() && ChainsOk(v, g.chains)
    && g.root in g.dirs && g.dirs.Keys <= g.chains.Keys
    && g.owner.Keys == g.chains.Keys - {g.root}
    && (forall d :: d in g.dirs ==> DirOk(v, g, d))
    && (forall p :: Live(v, g, p) ==> LiveOk(v, g, p, short))
    && (forall k :: k in g.owner ==> Live(v, g, g.owner[k]) && AttrAt(v, g, g.owner[k]).first == k)
    && NamesDistinct(v, g)
  }

  ghost predicate Inv(v: Volume, g: Layout) {
    InvBut(v, g, {})
  }

  // What a directory scan relies on.
  ghost predicate Readable(v: Volume, g: Layout) {
    && v.Wf()
    && forall d :: d in g.dirs ==> DirOk(v, g, d) && IsChain(v, g.chains[d]) && g.chains[d][0] == d
  }

  // ---- the inode table ----

  // A live entry: the directory it is in, its attributes, and for a file all the bytes
  // of its chain, those past the end of the file included.
  datatype Node = Node(dir: nat, attr: Attr, bytes: seq<byte>)

  function NodeOf(v: Volume, g: Layout, k: nat): Node
    requires k in g.owner
  {
    var a := AttrAt(v, g, g.owner[k]);
    Node(g.owner[k].dir, a, if a.IsDirectory() || k !in g.chains then [] else Stream(v, g.chains[k]))
  }

  function Abs(v: Volume, g: Layout): map<nat, Node> {
    map k | k in g.owner.Keys :: NodeOf(v, g, k)
  }

  // ---- frames ----

  // The directories of (v, g), slot by slot, are those of (v', g').
  ghost predicate SameSlots(v: Volume, g: Layout, v': Volume, g': Layout) {
    && v'.bpc == v.bpc && v'.variant == v.variant
    && g'.root == g.root && g'.dirs == g.dirs
    && (forall d :: d in g.dirs ==> d in g.chains && d in g'.chains && g'.chains[d] == g.chains[d])
    && (forall p :: InDir(v, g, p) ==> SlotAt(v', g', p) == SlotAt(v, g, p))
  }

  lemma SameSlotsAt(v: Volume, g: Layout, v': Volume, g': Layout, p: Place)
    requires SameSlots(v, g, v', g')
    ensures InDir(v', g', p) <==> InDir(v, g, p)
    ensures Live(v', g', p) <==> Live(v, g, p)
    ensures InDir(v, g, p) ==> SlotAt(v', g', p) == SlotAt(v, g, p) && AttrAt(v', g', p) == AttrAt(v, g, p)
  {
    hide AttrOf, SlotAt;
  }

  lemma SameSlotsDir(v: Volume, g: Layout, v': Volume, g': Layout, d: nat)
    requires SameSlots(v, g, v', g') && DirOk(v, g, d)
    ensures DirOk(v', g', d)
  {
    hide AttrOf, SlotAt, GoodSlot;
    var t := g.dirs[d];
    SameSlotsAt(v, g, v', g', Place(d, t.k, t.e));
    forall k, e | 0 <= k && 0 <= e < SlotsPerCluster(v'.bpc) && Before(k, e, t)
      ensures GoodSlot(v'.variant, SlotAt(v', g', Place(d, k, e)))
    {
      SameSlotsAt(v, g, v', g', Place(d, k, e));
    }
  }

  lemma SameSlotsNames(v: Volume, g: Layout, v': Volume, g': Layout)
    requires SameSlots(v, g, v', g') && NamesDistinct(v, g)
    ensures NamesDistinct(v', g')
  {
    hide AttrOf, SlotAt, AttrAt, SameSlots, Live, InDir;
    forall p, q | Live(v', g', p) && Live(v', g', q) && p.dir == q.dir
      && AttrAt(v', g', p).name == AttrAt(v', g', q).name
      ensures p == q
    {
      SameSlotsAt(v, g, v', g', p);
      SameSlotsAt(v, g, v', g', q);
      LiveInDir(v, g, p);
      LiveInDir(v, g, q);
    }
  }

  lemma LiveInDir(v: Volume, g: Layout, p: Place)
    requires Live(v, g, p)
    ensures InDir(v, g, p) && p.dir in g.dirs
  {
  }

  // The clusters of directories keep their contents.
  ghost predicate SameDirClusters(v: Volume, v': Volume, g: Layout) {
    && v'.bpc == v.bpc && v'.variant == v.variant && |v'.clusters| == |v.clusters|
    && forall d, c :: d in g.dirs && d in g.chains && c in g.chains[d] && c < |v.clusters| ==>
       v'.clusters[c] == v.clusters[c]
  }

  lemma SameClustersSameSlots(v: Volume, g: Layout, v': Volume, g': Layout)
    requires SameDirClusters(v, v', g) && g'.root == g.root && g'.dirs == g.dirs
    requires forall d :: d in g.dirs ==> d in g.chains && d in g'.chains && g'.chains[d] == g.chains[d]
    ensures SameSlots(v, g, v', g')
  {
    forall p | InDir(v, g, p) ensures SlotAt(v', g', p) == SlotAt(v, g, p) {
      var c := g.chains[p.dir][p.k];
      assert c in g.chains[p.dir];
    }
  }

  // ---- resizing and rewriting a file's chain ----

  // Reshaping the chain of a file keeps everything but, perhaps, that file's size.
  lemma ReshapeFile(v: Volume, v': Volume, g: Layout, k: nat, ch': seq<nat>)
    requires Inv(v, g) && v'.Wf() && k in g.owner && k !in g.dirs
    requires Reshaped(v, v', g.chains[k], ch') && ch' != [] && ch'[0] == k
    requires forall c :: 0 <= c < |v.clusters| && c !in g.chains[k] && c !in ch' ==> v'.clusters[c] == v.clusters[c]
    ensures var g' := g.(chains := g.chains[k := ch']);
      SameSlots(v, g, v', g') && InvBut(v', g', {k})
  {
    hide AttrOf, SlotAt, AttrAt, SameSlots, Live, Reshaped, DirOk, NamesDistinct, ChainsOk, LiveOk;
    var g' := g.(chains := g.chains[k := ch']);
    ReshapeKeepsChains(v, v', g.chains, k, g.chains[k], ch');
    ReshapeFileClusters(v, v', g, k, ch');
    SameClustersSameSlots(v, g, v', g');
    SameSlotsNames(v, g, v', g');
    forall d | d in g'.dirs ensures DirOk(v', g', d) {
      SameSlotsDir(v, g, v', g', d);
    }
    forall p | Live(v', g', p) ensures LiveOk(v', g', p, {k}) {
      SameSlotsAt(v, g, v', g', p);
      LiveInDir(v, g, p);
      ReshapeLiveOk(v, v', g, k, ch', p);
    }
    forall j | j in g'.owner ensures Live(v', g', g'.owner[j]) && AttrAt(v', g', g'.owner[j]).first == j {
      SameSlotsAt(v, g, v', g', g.owner[j]);
      LiveInDir(v, g, g.owner[j]);
    }
  }

  lemma ReshapeLiveOk(v: Volume, v': Volume, g: Layout, k: nat, ch': seq<nat>, p: Place)
    requires LiveOk(v, g, p, {}) && v'.bpc == v.bpc && k in g.chains
    requires AttrAt(v', g.(chains := g.chains[k := ch']), p) == AttrAt(v, g, p)
    ensures LiveOk(v', g.(chains := g.chains[k := ch']), p, {k})
  {
    hide AttrOf, SlotAt, AttrAt;
  }

  lemma ReshapeFileClusters(v: Volume, v': Volume, g: Layout, k: nat, ch': seq<nat>)
    requires v.Wf() && v'.Wf() && ChainsOk(v, g.chains) && k in g.chains && k !in g.dirs
    requires Reshaped(v, v', g.chains[k], ch') && ch' != [] && ch'[0] == k
    requires forall c :: 0 <= c < |v.clusters| && c !in g.chains[k] && c !in ch' ==> v'.clusters[c] == v.clusters[c]
    ensures SameDirClusters(v, v', g)
  {
    forall d, c | d in g.dirs && d in g.chains && c in g.chains[d] && c < |v.clusters|
      ensures v'.clusters[c] == v.clusters[c]
    {
      ReshapeKeepsOther(v, v', g.chains, k, g.chains[k], ch', d);
    }
  }

  // ---- overwriting one directory slot ----

  // v' is v with slot p holding b; nothing else of any directory changed.
  ghost predicate SlotPut(v: Volume, v': Volume, g: Layout, p: Place, b: seq<byte>)
    requires |b| == DIRENT_SIZE
  {
    && v'.bpc == v.bpc && v'.variant == v.variant
    && (forall q :: InDir(v, g, q) ==> SlotAt(v', g, q) == if q == p then b else SlotAt(v, g, q))
  }

  lemma SlotInCluster(v: Volume, g: Layout, p: Place)
    requires v.Wf() && ChainsOk(v, g.chains) && InDir(v, g, p)
    ensures v.InRange(ClusterAt(g, p)) && |v.clusters[ClusterAt(g, p)]| == v.bpc
    ensures DIRENT_SIZE * p.e + DIRENT_SIZE <= v.bpc
  {
    assert IsChain(v, g.chains[p.dir]);
  }

  lemma SamePlace(v: Volume, g: Layout, p: Place, q: Place)
    requires v.Wf() && ChainsOk(v, g.chains) && InDir(v, g, p) && InDir(v, g, q)
    requires ClusterAt(g, p) == ClusterAt(g, q) && p.e == q.e
    ensures p == q
  {
    assert IsChain(v, g.chains[p.dir]);
    var c := ClusterAt(g, p);
    assert c in g.chains[p.dir] && c in g.chains[q.dir];
  }

  lemma PutSlot(v: Volume, g: Layout, p: Place, b: seq<byte>)
    requires v.Wf() && ChainsOk(v, g.chains) && InDir(v, g, p) && |b| == DIRENT_SIZE
    ensures v.InRange(ClusterAt(g, p)) && |v.clusters[ClusterAt(g, p)]| == v.bpc
            && DIRENT_SIZE * p.e + DIRENT_SIZE <= v.bpc
    ensures var v' := v.Write(ClusterAt(g, p), DIRENT_SIZE * p.e, b);
      v'.Wf() && v'.fat == v.fat && ChainsOk(v', g.chains) && SlotPut(v, v', g, p, b)
  {
    hide IsChain, AttrOf;
    SlotInCluster(v, g, p);
    var c := ClusterAt(g, p);
    var v' := v.Write(c, DIRENT_SIZE * p.e, b);
    SameFatSameChains(v, v', g.chains);
    forall q | InDir(v, g, q)
      ensures SlotAt(v', g, q) == if q == p then b else SlotAt(v, g, q)
    {
      SlotInCluster(v, g, q);
      if ClusterAt(g, q) == c && p.e == q.e { SamePlace(v, g, p, q); }
      PutSlotBytes(v, c, p.e, b, ClusterAt(g, q), q.e);
    }
  }

  lemma PutSlotBytes(v: Volume, c: nat, e: nat, b: seq<byte>, c': nat, e': nat)
    requires v.Wf() && v.InRange(c) && v.InRange(c') && |b| == DIRENT_SIZE
    requires DIRENT_SIZE * e + DIRENT_SIZE <= v.bpc && DIRENT_SIZE * e' + DIRENT_SIZE <= v.bpc
    ensures SlotBytes(v.Write(c, DIRENT_SIZE * e, b), c', e')
         == if c == c' && e == e' then b else SlotBytes(v, c', e')
  {
    var s := v.clusters[c];
    var t := Splice(s, DIRENT_SIZE * e, b);
    if c == c' {
      if e == e' {
        assert t[DIRENT_SIZE * e..DIRENT_SIZE * e + DIRENT_SIZE] == b;
      } else {
        SpliceOutside(s, DIRENT_SIZE * e, b, DIRENT_SIZE * e', DIRENT_SIZE * e' + DIRENT_SIZE);
      }
    }
  }

  lemma SameFatSameChains(v: Volume, v': Volume, chains: map<nat, seq<nat>>)
    requires |v.fat| == |v.clusters| + 1 && ChainsOk(v, chains)
    requires v'.fat == v.fat && |v'.clusters| == |v.clusters|
    ensures ChainsOk(v', chains)
  {
    forall k | k in chains ensures IsChain(v', chains[k]) && chains[k][0] == k {
      ChainUntouched(v, v', chains[k]);
    }
  }

  // A directory slot is no part of any other chain's bytes.
  lemma PutSlotStream(v: Volume, g: Layout, p: Place, b: seq<byte>, k: nat)
    requires v.Wf() && ChainsOk(v, g.chains) && InDir(v, g, p) && |b| == DIRENT_SIZE
    requires k in g.chains && k != p.dir
    ensures v.InRange(ClusterAt(g, p)) && |v.clusters[ClusterAt(g, p)]| == v.bpc
            && DIRENT_SIZE * p.e + DIRENT_SIZE <= v.bpc
    ensures Stream(v.Write(ClusterAt(g, p), DIRENT_SIZE * p.e, b), g.chains[k]) == Stream(v, g.chains[k])
  {
    SlotInCluster(v, g, p);
    var c := ClusterAt(g, p);
    assert c in g.chains[p.dir];
    StreamFrame(v, v.Write(c, DIRENT_SIZE * p.e, b), g.chains[k]);
  }

  // ---- rewriting a live entry ----

  // b is a proper entry for the chain that the entry at p owns.
  ghost predicate Rewritable(v: Volume, g: Layout, p: Place, b: seq<byte>)
    requires |b| == DIRENT_SIZE
  {
    && Live(v, g, p) && GoodSlot(v.variant, b) && !IsDeleted(b)
    && var old', a := AttrAt(v, g, p), AttrOf(v.variant, b);
      && a.first == old'.first && (a.IsDirectory() <==> old'.IsDirectory())
      && (a.IsDirectory() || a.first !in g.chains || a.size <= Times(|g.chains[a.first]|, v.bpc))
      && forall q :: Live(v, g, q) && q.dir == p.dir && q != p ==> AttrAt(v, g, q).name != a.name
  }

  lemma RewrittenAt(v: Volume, v': Volume, g: Layout, p: Place, b: seq<byte>, q: Place)
    requires |b| == DIRENT_SIZE && SlotPut(v, v', g, p, b) && Live(v, g, p) && !IsDeleted(b)
    ensures Live(v', g, q) <==> Live(v, g, q)
    ensures InDir(v, g, q) ==> AttrAt(v', g, q) == if q == p then AttrOf(v.variant, b) else AttrAt(v, g, q)
  {
    hide AttrOf, SlotAt;
  }

  lemma RewriteKeepsDir(v: Volume, v': Volume, g: Layout, p: Place, b: seq<byte>, d: nat)
    requires |b| == DIRENT_SIZE && SlotPut(v, v', g, p, b) && Live(v, g, p) && GoodSlot(v.variant, b)
    requires DirOk(v, g, d)
    ensures DirOk(v', g, d)
  {
    hide AttrOf, SlotAt, GoodSlot;
    var t := g.dirs[d];
    assert InDir(v, g, Place(d, t.k, t.e));
    forall k, e | 0 <= k && 0 <= e < SlotsPerCluster(v'.bpc) && Before(k, e, t)
      ensures GoodSlot(v'.variant, SlotAt(v', g, Place(d, k, e)))
    {
      assert InDir(v, g, Place(d, k, e));
    }
  }

  lemma RewriteKeepsLiveOk(v: Volume, v': Volume, g: Layout, p: Place, b: seq<byte>, k: nat, q: Place)
    requires |b| == DIRENT_SIZE && SlotPut(v, v', g, p, b) && Rewritable(v, g, p, b)
    requires AttrAt(v, g, p).first == k && LiveOk(v, g, p, {k}) && LiveOk(v, g, q, {k}) && Live(v, g, q)
    ensures LiveOk(v', g, q, {})
  {
    hide AttrOf, SlotAt, AttrAt, GoodSlot, SlotPut;
    RewrittenAt(v, v', g, p, b, q);
    assert v'.bpc == v.bpc by { SlotPutShape(v, v', g, p, b); }
  }

  lemma SlotPutShape(v: Volume, v': Volume, g: Layout, p: Place, b: seq<byte>)
    requires |b| == DIRENT_SIZE && SlotPut(v, v', g, p, b)
    ensures v'.bpc == v.bpc && v'.variant == v.variant
  {
  }

  lemma RewriteKeepsNames(v: Volume, v': Volume, g: Layout, p: Place, b: seq<byte>)
    requires |b| == DIRENT_SIZE && SlotPut(v, v', g, p, b) && Rewritable(v, g, p, b) && NamesDistinct(v, g)
    ensures NamesDistinct(v', g)
  {
    hide AttrOf, SlotAt, AttrAt, GoodSlot, SlotPut, InDir;
    forall q, r | Live(v', g, q) && Live(v', g, r) && q.dir == r.dir && AttrAt(v', g, q).name == AttrAt(v', g, r).name
      ensures q == r
    {
      RewrittenAt(v, v', g, p, b, q);
      RewrittenAt(v, v', g, p, b, r);
    }
  }

  lemma RewriteSlot(v: Volume, g: Layout, p: Place, b: seq<byte>, k: nat)
    requires |b| == DIRENT_SIZE && k == AttrAt(v, g, p).first
    requires InvBut(v, g, {k}) && Rewritable(v, g, p, b)
    ensures v.InRange(ClusterAt(g, p)) && |v.clusters[ClusterAt(g, p)]| == v.bpc
            && DIRENT_SIZE * p.e + DIRENT_SIZE <= v.bpc
    ensures Inv(v.Write(ClusterAt(g, p), DIRENT_SIZE * p.e, b), g)
  {
    hide AttrOf, SlotAt, AttrAt, GoodSlot, ChainsOk, SlotPut, Live, LiveOk, DirOk, NamesDistinct, Rewritable;
    assert Live(v, g, p) by { RewritableIsLive(v, g, p, b); }
    LiveInDir(v, g, p);
    PutSlot(v, g, p, b);
    var v' := v.Write(ClusterAt(g, p), DIRENT_SIZE * p.e, b);
    RewritableIsLive(v, g, p, b);
    RewriteKeepsNames(v, v', g, p, b);
    forall d | d in g.dirs ensures DirOk(v', g, d) {
      RewriteKeepsDir(v, v', g, p, b, d);
    }
    forall q | Live(v', g, q) ensures LiveOk(v', g, q, {}) {
      RewrittenAt(v, v', g, p, b, q);
      RewriteKeepsLiveOk(v, v', g, p, b, k, q);
    }
    forall j | j in g.owner ensures Live(v', g, g.owner[j]) && AttrAt(v', g, g.owner[j]).first == j {
      RewrittenAt(v, v', g, p, b, g.owner[j]);
      LiveInDir(v, g, g.owner[j]);
    }
  }

  lemma RewritableIsLive(v: Volume, g: Layout, p: Place, b: seq<byte>)
    requires |b| == DIRENT_SIZE && Rewritable(v, g, p, b)
    ensures Live(v, g, p) && GoodSlot(v.variant, b) && !IsDeleted(b)
    ensures AttrOf(v.variant, b).first == AttrAt(v, g, p).first
  {
  }

  // ---- what these steps do to the inode table ----

  lemma OwnerPlace(v: Volume, g: Layout, short: set<nat>, k: nat)
    requires InvBut(v, g, short) && k in g.owner
    ensures var p := g.owner[k];
      && Live(v, g, p) && AttrAt(v, g, p).first == k && p.dir in g.dirs && p.dir in g.chains
      && (AttrAt(v, g, p).IsDirectory() <==> k in g.dirs) && k in g.chains && k != g.root
  {
    hide AttrOf, SlotAt, DirOk, NamesDistinct, ChainsOk;
    assert Live(v, g, g.owner[k]);
    assert LiveOk(v, g, g.owner[k], short);
  }

  lemma LiveOwner(v: Volume, g: Layout, short: set<nat>, p: Place)
    requires InvBut(v, g, short) && Live(v, g, p)
    ensures var k := AttrAt(v, g, p).first; k in g.owner && g.owner[k] == p && k in g.chains && k != g.root
  {
    hide AttrOf, SlotAt, DirOk, NamesDistinct, ChainsOk;
    assert LiveOk(v, g, p, short);
  }

  lemma RewriteNode(v: Volume, g: Layout, p: Place, b: seq<byte>, k: nat, j: nat)
    requires |b| == DIRENT_SIZE && k == AttrAt(v, g, p).first
    requires InvBut(v, g, {k}) && Rewritable(v, g, p, b) && j in g.owner
    ensures v.InRange(ClusterAt(g, p)) && |v.clusters[ClusterAt(g, p)]| == v.bpc
            && DIRENT_SIZE * p.e + DIRENT_SIZE <= v.bpc
    ensures k in g.owner && NodeOf(v.Write(ClusterAt(g, p), DIRENT_SIZE * p.e, b), g, j)
         == if j == k then NodeOf(v, g, k).(attr := AttrOf(v.variant, b)) else NodeOf(v, g, j)
  {
    hide AttrOf, SlotAt, DirOk, NamesDistinct, ChainsOk, LiveOk, GoodSlot, Live, AttrAt;
    RewritableIsLive(v, g, p, b);
    LiveInDir(v, g, p);
    PutSlot(v, g, p, b);
    LiveOwner(v, g, {k}, p);
    OwnerPlace(v, g, {k}, j);
    LiveInDir(v, g, g.owner[j]);
    RewrittenAt(v, v.Write(ClusterAt(g, p), DIRENT_SIZE * p.e, b), g, p, b, g.owner[j]);
    if j !in g.dirs {
      PutSlotStream(v, g, p, b, j);
    }
  }

  lemma RewriteAbs(v: Volume, g: Layout, p: Place, b: seq<byte>, k: nat)
    requires |b| == DIRENT_SIZE && k == AttrAt(v, g, p).first
    requires InvBut(v, g, {k}) && Rewritable(v, g, p, b)
    ensures v.InRange(ClusterAt(g, p)) && |v.clusters[ClusterAt(g, p)]| == v.bpc
            && DIRENT_SIZE * p.e + DIRENT_SIZE <= v.bpc
    ensures k in g.owner && Abs(v.Write(ClusterAt(g, p), DIRENT_SIZE * p.e, b), g)
         == Abs(v, g)[k := NodeOf(v, g, k).(attr := AttrOf(v.variant, b))]
  {
    hide AttrOf, AttrAt, InvBut, Rewritable, NodeOf, SlotAt;
    RewriteSlot(v, g, p, b, k);
    assert k in g.owner by { RewritableIsLive(v, g, p, b); LiveOwner(v, g, {k}, p); }
    forall j | j in g.owner
      ensures NodeOf(v.Write(ClusterAt(g, p), DIRENT_SIZE * p.e, b), g, j)
           == if j == k then NodeOf(v, g, k).(attr := AttrOf(v.variant, b)) else NodeOf(v, g, j)
    {
      RewriteNode(v, g, p, b, k, j);
    }
  }

  // Storing attributes a over the live entry at p.
  ghost predicate Storable(v: Volume, g: Layout, p: Place, a: Attr) {
    && Live(v, g, p) && GoodName(a.name)
    && var was := AttrAt(v, g, p);
      && a.first == was.first && (a.IsDirectory() <==> was.IsDirectory())
      && (a.IsDirectory() || a.first !in g.chains || a.size % 0x1_0000_0000 <= Times(|g.chains[a.first]|, v.bpc))
      && forall q :: Live(v, g, q) && q.dir == p.dir && q != p ==> AttrAt(v, g, q).name != a.name
  }

  lemma EncodedSlot(variant: Variant, a: Attr)
    requires GoodName(a.name)
    ensures var b := Encode(variant, a);
      |b| == DIRENT_SIZE && GoodSlot(variant, b) && !IsDeleted(b) && AttrOf(variant, b) == Stored(variant, a)
  {
    hide Encode, Decode, Stored;
    DecodeAfterEncode(variant, a);
    assert Stored(variant, a).name == a.name by { StoredName(variant, a); }
  }

  lemma StoredName(variant: Variant, a: Attr)
    ensures Stored(variant, a).name == a.name && Stored(variant, a).attributes == a.attributes
  {
  }

  lemma StoreEntryAttr(v: Volume, g: Layout, p: Place, a: Attr, k: nat)
    requires k == AttrAt(v, g, p).first && k < 0x1_0000_0000
    requires InvBut(v, g, {k}) && Storable(v, g, p, a)
    ensures v.InRange(ClusterAt(g, p)) && |v.clusters[ClusterAt(g, p)]| == v.bpc
            && DIRENT_SIZE * p.e + DIRENT_SIZE <= v.bpc
    ensures var v' := v.Write(ClusterAt(g, p), DIRENT_SIZE * p.e, Encode(v.variant, a));
      && Inv(v', g) && k in g.owner
      && Abs(v', g) == Abs(v, g)[k := NodeOf(v, g, k).(attr := Stored(v.variant, a))]
  {
    hide Encode, AttrOf, SlotAt, AttrAt, InvBut, Live, GoodSlot, NodeOf, StoredTs;
    EncodedSlot(v.variant, a);
    RewriteSlot(v, g, p, Encode(v.variant, a), k);
    RewriteAbs(v, g, p, Encode(v.variant, a), k);
  }

  lemma ReshapeNode(v: Volume, v': Volume, g: Layout, k: nat, ch': seq<nat>, j: nat)
    requires Inv(v, g) && v'.Wf() && k in g.owner && k !in g.dirs && j in g.owner
    requires Reshaped(v, v', g.chains[k], ch') && ch' != [] && ch'[0] == k
    requires forall c :: 0 <= c < |v.clusters| && c !in g.chains[k] && c !in ch' ==> v'.clusters[c] == v.clusters[c]
    ensures NodeOf(v', g.(chains := g.chains[k := ch']), j)
         == if j == k then NodeOf(v, g, k).(bytes := Stream(v', ch')) else NodeOf(v, g, j)
  {
    hide AttrOf, SlotAt, DirOk, NamesDistinct, LiveOk, Live, AttrAt, SameSlots, IsChain, Stream, ChainsOk;
    var g' := g.(chains := g.chains[k := ch']);
    ReshapeFile(v, v', g, k, ch');
    OwnerPlace(v, g, {}, j);
    LiveInDir(v, g, g.owner[j]);
    SameSlotsAt(v, g, v', g', g.owner[j]);
    if j != k {
      ReshapeKeepsOther(v, v', g.chains, k, g.chains[k], ch', j);
      StreamFrame(v, v', g.chains[j]);
    }
  }

  lemma ReshapeAbs(v: Volume, v': Volume, g: Layout, k: nat, ch': seq<nat>)
    requires Inv(v, g) && v'.Wf() && k in g.owner && k !in g.dirs
    requires Reshaped(v, v', g.chains[k], ch') && ch' != [] && ch'[0] == k
    requires forall c :: 0 <= c < |v.clusters| && c !in g.chains[k] && c !in ch' ==> v'.clusters[c] == v.clusters[c]
    ensures Abs(v', g.(chains := g.chains[k := ch'])) == Abs(v, g)[k := NodeOf(v, g, k).(bytes := Stream(v', ch'))]
  {
    hide InvBut, NodeOf, Reshaped, Stream, IsChain;
    var g' := g.(chains := g.chains[k := ch']);
    forall j | j in g.owner
      ensures NodeOf(v', g', j) == if j == k then NodeOf(v, g, k).(bytes := Stream(v', ch')) else NodeOf(v, g, j)
    {
      ReshapeNode(v, v', g, k, ch', j);
    }
  }

  // With room for the recorded size the exception for k lapses.
  lemma SizeFits(v: Volume, g: Layout, k: nat)
    requires InvBut(v, g, {k}) && k in g.owner
    requires AttrAt(v, g, g.owner[k]).size <= Times(|g.chains[k]|, v.bpc)
    ensures Inv(v, g)
  {
    hide AttrOf, SlotAt, DirOk, NamesDistinct, ChainsOk;
    forall p | Live(v, g, p) ensures LiveOk(v, g, p, {}) {
      assert LiveOk(v, g, p, {k});
    }
  }

  lemma InvIsInvBut(v: Volume, g: Layout, short: set<nat>)
    requires Inv(v, g)
    ensures InvBut(v, g, short) && Readable(v, g)
  {
    hide AttrOf, SlotAt, DirOk, NamesDistinct, IsChain, AttrAt;
    forall p | Live(v, g, p) ensures LiveOk(v, g, p, short) {
      assert LiveOk(v, g, p, {});
    }
  }

  lemma InvButReadable(v: Volume, g: Layout, short: set<nat>)
    requires InvBut(v, g, short)
    ensures Readable(v, g)
  {
    hide DirOk, NamesDistinct, IsChain, LiveOk, Live;
    forall d | d in g.dirs ensures DirOk(v, g, d) && IsChain(v, g.chains[d]) && |g.chains[d]| > 0
      && g.chains[d][0] == d {
      ChainInRange(v, g.chains[d]);
    }
  }

  // A file's chain, as the file operations find it.
  lemma FileChain(v: Volume, g: Layout, p: Place)
    requires Inv(v, g) && Live(v, g, p) && !AttrAt(v, g, p).IsDirectory()
    ensures var k := AttrAt(v, g, p).first;
      && k in g.owner && g.owner[k] == p && k in g.chains && k !in g.dirs && k < 0x1_0000_0000
      && |v.fat| == |v.clusters| + 1 && IsChain(v, g.chains[k]) && g.chains[k][0] == k && v.Wf()
      && |Stream(v, g.chains[k])| == Times(|g.chains[k]|, v.bpc)
      && AttrAt(v, g, p).size <= Times(|g.chains[k]|, v.bpc)
      && k in Abs(v, g) && Abs(v, g)[k] == Node(p.dir, AttrAt(v, g, p), Stream(v, g.chains[k]))
  {
    hide SlotAt, DirOk, NamesDistinct, Times, Decode;
    assert LiveOk(v, g, p, {});
    var k := AttrAt(v, g, p).first;
    assert IsChain(v, g.chains[k]);
    StreamLength(v, g.chains[k]);
  }

  // Attributes read from a slot change in storing only by what was changed in them.
  lemma ResizedStored(variant: Variant, b: seq<byte>, n: nat)
    requires |b| == DIRENT_SIZE
    ensures Stored(variant, AttrOf(variant, b).(size := n)) == AttrOf(variant, b).(size := n % 0x1_0000_0000)
  {
    hide Decode, StoredTs;
    DecodedIsStored(variant, if b[0] <= MAX_NAME then b else b[0 := 0]);
  }

  lemma RenamedStored(variant: Variant, b: seq<byte>, name: seq<byte>)
    requires |b| == DIRENT_SIZE
    ensures Stored(variant, AttrOf(variant, b).(name := name)) == AttrOf(variant, b).(name := name)
  {
    hide Decode, StoredTs;
    DecodedIsStored(variant, if b[0] <= MAX_NAME then b else b[0 := 0]);
  }
}
