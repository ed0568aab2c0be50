// The file operations of libfatx/fatx_file.c, each tied to its effect on the inode table.

module FileOps {
  import opened Bytes
  import opened Codec
  import opened Geometry
  import opened Volumes
  import opened Streams
  import opened Layouts
  import opened FatxFs
  import opened Files
  import opened Dirs

  // The live entries of directory d called name are files.
  ghost predicate NamesFile(v: Volume, g: Layout, d: nat, name: seq<byte>) {
    forall p :: Live(v, g, p) && p.dir == d && AttrAt(v, g, p).name == name ==> !AttrAt(v, g, p).IsDirectory()
  }

  // The inode of the live entry of directory d called name.
  ghost predicate Names(v: Volume, g: Layout, d: nat, name: seq<byte>, k: nat) {
    k in Abs(v, g) && Abs(v, g)[k].dir == d && Abs(v, g)[k].attr.name == name
  }

  // ---- what truncating and writing do to a node ----

  function TruncatedNode(n: Node, size: nat, b: nat): Node
    requires b > 0
  {
    n.(attr := n.attr.(size := size % 0x1_0000_0000), bytes := Fit(n.bytes, Times(ClustersFor(size, b), b)))
  }

  // The node after d was written at offset: first the gap is closed by a truncation to
  // offset + 1, then the chain reaches to the end of the data.
  function GapClosed(n: Node, offset: nat, b: nat): Node
    requires b > 0
  {
    if offset > n.attr.size then TruncatedNode(n, offset + 1, b) else n
  }

  function Laid(n: Node, offset: nat, d: seq<byte>, b: nat): Node
    requires b > 0
  {
    var need := Times(ClustersFor(offset + Max(|d|, 1), b), b);
    n.(bytes := Splice(Fit(n.bytes, Max(|n.bytes|, need)), offset, d),
       attr := if offset + |d| > n.attr.size then n.attr.(size := (offset + |d|) % 0x1_0000_0000) else n.attr)
  }

  function WrittenNode(n: Node, offset: nat, d: seq<byte>, b: nat): Node
    requires b > 0
  {
    Laid(GapClosed(n, offset, b), offset, d, b)
  }

  // The node after a write that ran out of clusters with len bytes in its chain: the gap
  // could not be closed, or count bytes filled the chain up and the size was not updated.
  predicate PartlyWritten(n: Node, n': Node, len: nat, offset: nat, d: seq<byte>, count: nat, b: nat)
    requires b > 0
  {
    || (offset > n.attr.size && count == 0 && len < Times(ClustersFor(offset + 1, b), b)
      && n' == n.(bytes := Fit(n.bytes, len)))
    || (var m := GapClosed(n, offset, b);
        && 0 < count < |d| && offset + count == len
        && n' == m.(bytes := Splice(Fit(m.bytes, len), offset, d[..count])))
  }

  // What a reader of the file sees.
  function Content(n: Node): seq<byte> {
    Fit(n.bytes, n.attr.size)
  }

  function ReadBack(n: Node, offset: nat, size: nat): seq<byte> {
    if offset < n.attr.size then Content(n)[offset..Min(offset + size, n.attr.size)] else []
  }

  // ---- steps shared by truncating and writing ----

  // The volume after the chain of the file at p was reshaped to ch'.
  lemma AdoptChain(v0: Volume, v1: Volume, g: Layout, p: Place, k: nat, ch': seq<nat>)
    requires Inv(v0, g) && Live(v0, g, p) && k == AttrAt(v0, g, p).first && !AttrAt(v0, g, p).IsDirectory()
    requires k in g.chains && v1.Wf() && Reshaped(v0, v1, g.chains[k], ch') && ch' != [] && ch'[0] == g.chains[k][0]
    requires forall c :: 0 <= c < |v0.clusters| && c !in g.chains[k] && c !in ch' ==> v1.clusters[c] == v0.clusters[c]
    ensures var g1 := g.(chains := g.chains[k := ch']);
      && InvBut(v1, g1, {k}) && Readable(v1, g1)
      && Live(v1, g1, p) && AttrAt(v1, g1, p) == AttrAt(v0, g, p) && SlotAt(v1, g1, p) == SlotAt(v0, g, p)
      && k in Abs(v0, g) && Abs(v1, g1) == Abs(v0, g)[k := Abs(v0, g)[k].(bytes := Stream(v1, ch'))]
      && (|g.chains[k]| <= |ch'| ==> Inv(v1, g1))
  {
    hide AttrOf, SlotAt, DirOk, NamesDistinct, LiveOk, AttrAt, SameSlots, Reshaped, Stream, ChainsOk, Times, IsChain,
         NodeOf, InvBut, Live;
    var g1 := g.(chains := g.chains[k := ch']);
    FileChain(v0, g, p);
    ReshapeFile(v0, v1, g, k, ch');
    ReshapeAbs(v0, v1, g, k, ch');
    InvButReadable(v1, g1, {k});
    SameSlotsAt(v0, g, v1, g1, p);
    LiveInDir(v0, g, p);
    if |g.chains[k]| <= |ch'| {
      TimesGrows(|g.chains[k]|, |ch'|, v0.bpc);
      assert v1.bpc == v0.bpc by { ReshapedShape(v0, v1, g.chains[k], ch'); }
      SizeFits(v1, g1, k);
    }
  }

  lemma ReshapedShape(v: Volume, v': Volume, ch: seq<nat>, ch': seq<nat>)
    requires |v.fat| == |v.clusters| + 1 && Reshaped(v, v', ch, ch')
    ensures v'.bpc == v.bpc && v'.variant == v.variant && |v'.clusters| == |v.clusters|
  {
  }

  lemma SameName(v: Volume, g: Layout, short: set<nat>, p: Place, q: Place)
    requires InvBut(v, g, short) && Live(v, g, p) && Live(v, g, q)
    requires p.dir == q.dir && AttrAt(v, g, p).name == AttrAt(v, g, q).name
    ensures p == q
  {
    hide AttrOf, SlotAt, DirOk, ChainsOk, LiveOk, Live;
  }

  // Recording a new size in the entry at p.
  lemma AdoptSize(v: Volume, g: Layout, p: Place, k: nat, n: nat)
    requires InvBut(v, g, {k}) && Live(v, g, p) && k == AttrAt(v, g, p).first && k < 0x1_0000_0000
    requires k in g.chains && n % 0x1_0000_0000 <= Times(|g.chains[k]|, v.bpc)
    ensures v.InRange(ClusterAt(g, p)) && |v.clusters[ClusterAt(g, p)]| == v.bpc
            && DIRENT_SIZE * p.e + DIRENT_SIZE <= v.bpc
    ensures |AttrAt(v, g, p).name| <= MAX_NAME && k in Abs(v, g)
    ensures var v' := v.Write(ClusterAt(g, p), DIRENT_SIZE * p.e, Encode(v.variant, AttrAt(v, g, p).(size := n)));
      && Inv(v', g)
      && Abs(v', g) == Abs(v, g)[k := Abs(v, g)[k].(attr := AttrAt(v, g, p).(size := n % 0x1_0000_0000))]
  {
    hide Encode, AttrOf, SlotAt, InvBut, Live, NodeOf, Stored, Times;
    var a := AttrAt(v, g, p).(size := n);
    ResizedStored(v.variant, SlotAt(v, g, p), n);
    LiveName(v, g, {k}, p);
    LiveOwner(v, g, {k}, p);
    forall q | Live(v, g, q) && q.dir == p.dir && q != p ensures AttrAt(v, g, q).name != a.name {
      if AttrAt(v, g, q).name == a.name { SameName(v, g, {k}, p, q); }
    }
    StoreEntryAttr(v, g, p, a, k);
  }

  lemma LiveName(v: Volume, g: Layout, short: set<nat>, p: Place)
    requires InvBut(v, g, short) && Live(v, g, p)
    ensures GoodName(AttrAt(v, g, p).name)
  {
    hide AttrOf, SlotAt, ChainsOk, LiveOk, NamesDistinct;
    assert DirOk(v, g, p.dir);
  }

  // A chain whose new clusters are not the first does not take the first.
  lemma FirstNotTaken(g: Layout, k: nat, ch': seq<nat>)
    requires k in g.chains && (1 in ch' ==> 1 in g.chains[k])
    ensures Owned(g.chains[k := ch'], 1) ==> Owned(g.chains, 1)
  {
  }

  // fatx_truncate
  method Truncate(fs: Fs, d: nat, name: seq<byte>, size: nat) returns (status: Status, ghost k: nat)
    requires fs.Mounted() && d in fs.layout.dirs && NamesFile(fs.vol, fs.layout, d, name)
    modifies fs
    ensures fs.Mounted()
    ensures status == Success || status == Error || status == FileNotFound
    ensures status == FileNotFound ==>
              fs.vol == old(fs.vol) && fs.layout == old(fs.layout) && NoEntry(fs.vol, fs.layout, d, name)
    ensures status != FileNotFound ==>
              && Names(old(fs.vol), old(fs.layout), d, name, k)
              && k in fs.layout.chains
              && fs.layout == old(fs.layout).(chains := old(fs.layout).chains[k := fs.layout.chains[k]])
    ensures status == Success ==>
              Abs(fs.vol, fs.layout) ==
              var abs := old(Abs(fs.vol, fs.layout)); abs[k := TruncatedNode(abs[k], size, fs.geo.bytesPerCluster)]
    ensures status == Error ==>
              && NoneFree(fs.vol.fat, 2, fs.geo.numClusters)
              && var abs := old(Abs(fs.vol, fs.layout)); var len := |fs.layout.chains[k]|;
                 && len < ClustersFor(size, fs.geo.bytesPerCluster)
                 && |abs[k].bytes| <= Times(len, fs.geo.bytesPerCluster)
                 && Abs(fs.vol, fs.layout)
                    == abs[k := abs[k].(bytes := Fit(abs[k].bytes, Times(len, fs.geo.bytesPerCluster)))]
    ensures Owned(fs.layout.chains, 1) ==> old(Owned(fs.layout.chains, 1))
  {
    hide Rep, Framed, Times, AttrOf, SlotAt, InvBut, Live, NodeOf, Encode, ClustersFor, NoneFree, IsChain, Stream,
         Readable, Inv, ClusterAt, NoEntry, Reshaped, AttrAt, Owned;
    fs.Bounds();
    ghost var v0, g0 := fs.vol, fs.layout;
    InvIsInvBut(v0, g0, {});
    var dir, attr;
    ghost var p;
    status, dir, attr, p := Find(fs, d, name);
    if status != Success {
      return status, 0;
    }
    k := attr.first;
    FileChain(v0, g0, p);
    ghost var ch := g0.chains[k];
    ghost var ch';
    status, ch' := ResizeChain(fs, attr.first, size, ch);
    fs.Bounds();
    RefitShape(v0, fs.vol, ch, ch');
    AdoptChain(v0, fs.vol, g0, p, k, ch');
    FirstNotTaken(g0, k, ch');
    fs.layout := g0.(chains := g0.chains[k := ch']);
    if status != Success {
      TimesGrows(|ch|, |ch'|, fs.geo.bytesPerCluster);
      return;
    }
    ghost var v1 := fs.vol;
    attr := attr.(size := size);
    ghost var q;
    LiveName(v1, fs.layout, {k}, p);
    LiveHasEntry(v1, fs.layout, p);
    status, q := SetAttr(fs, d, name, attr);
    SameName(v1, fs.layout, {k}, p, q);
    SizeModulo(size, fs.geo.bytesPerCluster);
    AdoptSize(v1, fs.layout, p, k, size);
    fs.Bounds();
  }

  lemma RefitShape(v: Volume, v': Volume, ch: seq<nat>, ch': seq<nat>)
    requires Refit(v, v', ch, ch')
    ensures v'.Wf() && Reshaped(v, v', ch, ch') && ch' != [] && ch != [] && ch'[0] == ch[0] && (1 in ch' ==> 1 in ch)
    ensures Stream(v', ch') == Fit(Stream(v, ch), Times(|ch'|, v.bpc))
    ensures forall c :: 0 <= c < |v.clusters| && c !in ch && c !in ch' ==> v'.clusters[c] == v.clusters[c]
  {
  }

  lemma SizeModulo(size: nat, b: nat)
    requires b > 0
    ensures size % 0x1_0000_0000 <= size <= Times(ClustersFor(size, b), b)
  {
  }

  // fatx_read
  method Read(fs: Fs, d: nat, name: seq<byte>, offset: nat, size: nat, buf: array<byte>)
    returns (status: Status, count: nat, ghost k: nat)
    requires fs.Mounted() && d in fs.layout.dirs && NamesFile(fs.vol, fs.layout, d, name) && size <= buf.Length
    modifies fs`cursor, fs`disk, fs`cache, fs`raw, fs`vol, fs`hint, buf
    ensures fs.Mounted() && fs.vol == old(fs.vol)
    ensures status == Success || status == FileNotFound
    ensures status == FileNotFound ==> NoEntry(fs.vol, fs.layout, d, name) && buf[..] == old(buf[..])
    ensures status == Success ==>
              && Names(fs.vol, fs.layout, d, name, k)
              && var bytes := ReadBack(Abs(fs.vol, fs.layout)[k], offset, size);
                 count == |bytes| <= buf.Length && buf[..] == Splice(old(buf[..]), 0, bytes)
  {
    hide Rep, Framed, Times, AttrOf, SlotAt, InvBut, Live, NodeOf, IsChain, Stream, Splice;
    fs.Bounds();
    InvIsInvBut(fs.vol, fs.layout, {});
    var dir, attr;
    ghost var p;
    status, dir, attr, p := Find(fs, d, name);
    if status != Success {
      return status, 0, 0;
    }
    k := attr.first;
    FileChain(fs.vol, fs.layout, p);
    ghost var s := Stream(fs.vol, fs.layout.chains[k]);
    count := ReadChain(fs, attr.first, attr.size, offset, size, buf, fs.layout.chains[k]);
    if offset < attr.size {
      assert s[offset..Min(offset + size, attr.size)] == Fit(s, attr.size)[offset..Min(offset + size, attr.size)];
    }
  }

  lemma WrittenShape(v: Volume, v': Volume, ch: seq<nat>, ch': seq<nat>, offset: nat, d: seq<byte>)
    requires Written(v, v', ch, ch', offset, d)
    ensures v'.Wf() && Reshaped(v, v', ch, ch') && ch' != [] && ch != [] && ch'[0] == ch[0] && |ch| <= |ch'|
    ensures 1 in ch' ==> 1 in ch
    ensures offset + |d| <= Times(|ch'|, v.bpc)
    ensures Stream(v', ch') == Splice(Fit(Stream(v, ch), Times(|ch'|, v.bpc)), offset, d)
    ensures forall c :: 0 <= c < |v.clusters| && c !in ch && c !in ch' ==> v'.clusters[c] == v.clusters[c]
  {
  }

  lemma ZeroGrownShape(v: Volume, v': Volume, ch: seq<nat>, ch': seq<nat>)
    requires ZeroGrown(v, v', ch, ch')
    ensures v'.Wf() && Reshaped(v, v', ch, ch') && ch' != [] && ch != [] && ch'[0] == ch[0] && |ch| <= |ch'|
    ensures 1 in ch' ==> 1 in ch
    ensures Stream(v', ch') == Fit(Stream(v, ch), Times(|ch'|, v.bpc))
    ensures forall c :: 0 <= c < |v.clusters| && c !in ch && c !in ch' ==> v'.clusters[c] == v.clusters[c]
  {
  }

  lemma TimesOfMax(m: nat, n: nat, b: nat)
    ensures Times(Max(m, n), b) == Max(Times(m, b), Times(n, b))
  {
    TimesGrows(Min(m, n), Max(m, n), b);
  }

  // fatx_write from the point where the offset is inside the file or at its end.  stuck
  // says that the offset's cluster was not reached, which fatx_write reports as 0 bytes.
  method WriteInside(fs: Fs, d: nat, name: seq<byte>, attr: Attr, offset: nat, buf: seq<byte>, ghost p: Place)
    returns (status: Status, count: nat, ghost stuck: bool)
    requires fs.Mounted() && d in fs.layout.dirs && Live(fs.vol, fs.layout, p)
    requires p.dir == d && attr == AttrAt(fs.vol, fs.layout, p) && attr.name == name && !attr.IsDirectory()
    modifies fs
    ensures fs.Mounted()
    ensures attr.first in old(Abs(fs.vol, fs.layout)) && attr.first in fs.layout.chains
    ensures fs.layout == old(fs.layout).(chains := old(fs.layout).chains[attr.first := fs.layout.chains[attr.first]])
    ensures status == Success || status == Error
    ensures status == Success && !stuck ==> offset <= attr.size
    ensures status == Success && !stuck ==>
              && count == |buf|
              && Abs(fs.vol, fs.layout) == var abs := old(Abs(fs.vol, fs.layout));
                 abs[attr.first := Laid(abs[attr.first], offset, buf, fs.geo.bytesPerCluster)]
    ensures status == Success && stuck ==>
              && count == 0 && attr.size <= offset
              && (offset > attr.size
                  || (NoneFree(fs.vol.fat, 2, fs.geo.numClusters)
                      && Times(|fs.layout.chains[attr.first]|, fs.geo.bytesPerCluster) <= offset))
              && Abs(fs.vol, fs.layout) == var abs := old(Abs(fs.vol, fs.layout)); var n := abs[attr.first];
                 abs[attr.first := n.(bytes := Fit(n.bytes, Times(|fs.layout.chains[attr.first]|,
                   fs.geo.bytesPerCluster)))]
    ensures status == Error ==>
              && !stuck && 0 < count < |buf| && NoneFree(fs.vol.fat, 2, fs.geo.numClusters)
              && offset + count == Times(|fs.layout.chains[attr.first]|, fs.geo.bytesPerCluster)
              && Abs(fs.vol, fs.layout) == var abs := old(Abs(fs.vol, fs.layout)); var n := abs[attr.first];
                 var s := Fit(n.bytes, Times(|fs.layout.chains[attr.first]|, fs.geo.bytesPerCluster));
                 abs[attr.first := n.(bytes := Splice(s, offset, buf[..count]))]
    ensures Owned(fs.layout.chains, 1) ==> old(Owned(fs.layout.chains, 1))
  {
    hide Rep, Framed, Times, AttrOf, SlotAt, InvBut, Live, NodeOf, Encode, ClustersFor, NoneFree, IsChain, Stream,
         Written, ZeroGrown, Readable, Inv, ClusterAt, Reshaped, AttrAt, Owned;
    fs.Bounds();
    ghost var v0, g0, k := fs.vol, fs.layout, attr.first;
    FileChain(v0, g0, p);
    ghost var ch := g0.chains[k];
    ghost var ch';
    var reached;
    status, count, reached, ch' := WriteChain(fs, attr.first, attr.size, offset, buf, ch);
    fs.Bounds();
    if !reached {
      ZeroGrownShape(v0, fs.vol, ch, ch');
      TimesGrows(|ch|, |ch'|, fs.geo.bytesPerCluster);
      AdoptChain(v0, fs.vol, g0, p, k, ch');
      FirstNotTaken(g0, k, ch');
      fs.layout := g0.(chains := g0.chains[k := ch']);
      return Success, 0, true;
    }
    stuck := false;
    if status == Success { assert buf[..count] == buf; }
    WrittenShape(v0, fs.vol, ch, ch', offset, buf[..count]);
    AdoptChain(v0, fs.vol, g0, p, k, ch');
    FirstNotTaken(g0, k, ch');
    fs.layout := g0.(chains := g0.chains[k := ch']);
    if status != Success {
      return;
    }
    TimesOfMax(|ch|, ClustersFor(offset + Max(|buf|, 1), fs.geo.bytesPerCluster), fs.geo.bytesPerCluster);
    if offset + |buf| > attr.size {
      GrowSize(fs, d, name, attr, offset + |buf|, p);
    }
  }

  // Setting a file's size once its chain has room for it.
  method GrowSize(fs: Fs, d: nat, name: seq<byte>, attr: Attr, size: nat, ghost p: Place)
    requires fs.Mounted() && d in fs.layout.dirs && Live(fs.vol, fs.layout, p)
    requires p.dir == d && attr == AttrAt(fs.vol, fs.layout, p) && attr.name == name && !attr.IsDirectory()
    requires attr.first in fs.layout.chains && size <= Times(|fs.layout.chains[attr.first]|, fs.geo.bytesPerCluster)
    modifies fs`cursor, fs`disk, fs`cache, fs`vol, fs`strayed
    ensures fs.Mounted() && attr.first in old(Abs(fs.vol, fs.layout))
    ensures Abs(fs.vol, fs.layout) == var abs := old(Abs(fs.vol, fs.layout));
      abs[attr.first := abs[attr.first].(attr := attr.(size := size % 0x1_0000_0000))]
  {
    hide Rep, Framed, Times, AttrOf, SlotAt, InvBut, Live, NodeOf, Encode, IsChain, Stream;
    fs.Bounds();
    ghost var v0 := fs.vol;
    InvIsInvBut(v0, fs.layout, {attr.first});
    FileChain(v0, fs.layout, p);
    LiveName(v0, fs.layout, {}, p);
    var status;
    ghost var q;
    status, q := SetAttr(fs, d, name, attr.(size := size));
    SameName(v0, fs.layout, {}, p, q);
    AdoptSize(v0, fs.layout, p, attr.first, size);
    fs.Bounds();
  }

  // Entries and inode table agree on names.
  lemma LiveNames(v: Volume, g: Layout, p: Place)
    requires Inv(v, g) && Live(v, g, p)
    ensures var a := AttrAt(v, g, p);
            Names(v, g, p.dir, a.name, a.first) && Abs(v, g)[a.first].attr == a && g.owner[a.first] == p
  {
    hide AttrOf, SlotAt, Live, LiveOk, DirOk, ChainsOk, NamesDistinct, Stream;
    LiveOwner(v, g, {}, p);
  }

  lemma NamesLive(v: Volume, g: Layout, d: nat, name: seq<byte>, k: nat)
    requires Inv(v, g) && Names(v, g, d, name, k)
    ensures k in g.owner && Live(v, g, g.owner[k]) && g.owner[k].dir == d
    ensures AttrAt(v, g, g.owner[k]) == Abs(v, g)[k].attr && Abs(v, g)[k].attr.first == k
  {
    hide AttrOf, SlotAt, Live, LiveOk, DirOk, ChainsOk, NamesDistinct, Stream;
    OwnerPlace(v, g, {}, k);
  }

  lemma NoEntryNames(v: Volume, g: Layout, d: nat, name: seq<byte>)
    requires Inv(v, g)
    ensures NoEntry(v, g, d, name) <==> forall k :: k in Abs(v, g) ==> !Names(v, g, d, name, k)
  {
    hide AttrOf, SlotAt, Live, InvBut, AttrAt, Abs, Names;
    if NoEntry(v, g, d, name) {
      forall k | k in Abs(v, g) ensures !Names(v, g, d, name, k) {
        if Names(v, g, d, name, k) { NamesLive(v, g, d, name, k); NamesAttr(v, g, d, name, k); }
      }
    } else {
      var p :| Live(v, g, p) && p.dir == d && AttrAt(v, g, p).name == name;
      LiveNames(v, g, p);
      NamesAttr(v, g, d, name, AttrAt(v, g, p).first);
    }
  }

  lemma NamesAttr(v: Volume, g: Layout, d: nat, name: seq<byte>, k: nat)
    requires Names(v, g, d, name, k)
    ensures k in Abs(v, g) && Abs(v, g)[k].attr.name == name && Abs(v, g)[k].dir == d
  {
  }

  // Whether a name is taken can be read off the inode table.
  lemma NoEntrySame(v: Volume, g: Layout, v': Volume, g': Layout, d: nat, name: seq<byte>)
    requires Inv(v, g) && Inv(v', g') && Abs(v', g') == Abs(v, g)
    ensures NoEntry(v', g', d, name) <==> NoEntry(v, g, d, name)
  {
    hide InvBut, Abs, NoEntry;
    NoEntryNames(v, g, d, name);
    NoEntryNames(v', g', d, name);
  }

  lemma NamesUnique(v: Volume, g: Layout, d: nat, name: seq<byte>, k: nat, j: nat)
    requires Inv(v, g) && Names(v, g, d, name, k) && Names(v, g, d, name, j)
    ensures k == j
  {
    hide AttrOf, SlotAt, Live, InvBut, AttrAt, Abs;
    NamesLive(v, g, d, name, k);
    NamesLive(v, g, d, name, j);
    SameName(v, g, {}, g.owner[k], g.owner[j]);
  }

  // fatx_write
  method Write(fs: Fs, d: nat, name: seq<byte>, offset: nat, buf: seq<byte>)
    returns (status: Status, count: nat, ghost k: nat, ghost stuck: bool)
    requires fs.Mounted() && d in fs.layout.dirs && NamesFile(fs.vol, fs.layout, d, name)
    modifies fs
    ensures fs.Mounted()
    ensures status == Success || status == Error || status == FileNotFound
    ensures status == FileNotFound ==>
              fs.vol == old(fs.vol) && fs.layout == old(fs.layout) && NoEntry(fs.vol, fs.layout, d, name)
    ensures status != FileNotFound ==>
              && Names(old(fs.vol), old(fs.layout), d, name, k)
              && k in fs.layout.chains
              && fs.layout == old(fs.layout).(chains := old(fs.layout).chains[k := fs.layout.chains[k]])
    ensures status == Success && !stuck ==>
              && count == |buf|
              && Abs(fs.vol, fs.layout) == var abs := old(Abs(fs.vol, fs.layout));
                 abs[k := WrittenNode(abs[k], offset, buf, fs.geo.bytesPerCluster)]
    ensures status == Success && !stuck ==>
              offset <= old(Abs(fs.vol, fs.layout))[k].attr.size || offset + 1 < 0x1_0000_0000
    ensures status == Success && stuck ==>
              && count == 0 && k in Abs(fs.vol, fs.layout)
              && Abs(fs.vol, fs.layout)[k] == var m := GapClosed(old(Abs(fs.vol, fs.layout))[k], offset,
                 fs.geo.bytesPerCluster);
                 m.(bytes := Fit(m.bytes, Times(|fs.layout.chains[k]|, fs.geo.bytesPerCluster)))
    ensures status == Success && stuck && offset < 0xffff_ffff ==>
              && NoneFree(fs.vol.fat, 2, fs.geo.numClusters) && offset <= old(Abs(fs.vol, fs.layout))[k].attr.size
              && Times(|fs.layout.chains[k]|, fs.geo.bytesPerCluster) <= offset
    ensures status == Error ==>
              && NoneFree(fs.vol.fat, 2, fs.geo.numClusters)
              && k in Abs(fs.vol, fs.layout)
              && PartlyWritten(old(Abs(fs.vol, fs.layout))[k], Abs(fs.vol, fs.layout)[k],
                               Times(|fs.layout.chains[k]|, fs.geo.bytesPerCluster), offset, buf, count,
                                 fs.geo.bytesPerCluster)
    ensures status != FileNotFound ==>
              && k in Abs(fs.vol, fs.layout)
              && Abs(fs.vol, fs.layout) == old(Abs(fs.vol, fs.layout))[k := Abs(fs.vol, fs.layout)[k]]
    ensures Owned(fs.layout.chains, 1) ==> old(Owned(fs.layout.chains, 1))
  {
    hide Rep, Framed, Times, AttrOf, SlotAt, InvBut, Live, NodeOf, NoneFree, ClustersFor, AttrAt, Laid, Readable, Inv,
         ClusterAt, NoEntry, Abs, Splice, Fit, Owned;
    fs.Bounds();
    ghost var v0, g0 := fs.vol, fs.layout;
    InvIsInvBut(v0, g0, {});
    var dir, attr;
    ghost var p;
    status, dir, attr, p := Find(fs, d, name);
    if status != Success {
      return status, 0, 0, false;
    }
    k := attr.first;
    LiveNames(v0, g0, p);
    LiveHasEntry(v0, g0, p);
    if offset > attr.size {
      ghost var j;
      status, j := Truncate(fs, d, name, offset + 1);
      if status == FileNotFound {
        assert false;
      }
      NamesUnique(v0, g0, d, name, k, j);
      if status != Success {
        TimesOrder(|fs.layout.chains[k]|, ClustersFor(offset + 1, fs.geo.bytesPerCluster), fs.geo.bytesPerCluster);
        fs.Bounds();
        return status, 0, k, false;
      }
      InvIsInvBut(fs.vol, fs.layout, {});
      NamesLive(fs.vol, fs.layout, d, name, k);
      LiveHasEntry(fs.vol, fs.layout, fs.layout.owner[k]);
      status, dir, attr, p := Find(fs, d, name);
      LiveNames(fs.vol, fs.layout, p);
      NamesUnique(fs.vol, fs.layout, d, name, k, attr.first);
    }
    status, count, stuck := WriteInside(fs, d, name, attr, offset, buf, p);
  }
}
