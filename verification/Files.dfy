// libfatx/fatx_file.c below the directory layer: seeking, reading, writing and
// resizing a cluster chain.

module Files {
  import opened Bytes
  import opened Geometry
  import opened Volumes
  import opened Streams
  import opened FatxFs

  function Max(a: int, b: int): int {
    if a >= b then a else b
  }

  function Min(a: int, b: int): int {
    if a <= b then a else b
  }

  // fatx_alloc_cluster followed by fatx_attach_cluster to the last cluster of chain ch
  method ExtendChain(fs: Fs, tail: nat, zero: bool, ghost ch: seq<nat>) returns (status: Status, cluster: nat)
    requires fs.Valid() && fs.HintOk()
    requires |fs.vol.fat| == |fs.vol.clusters| + 1 && IsChain(fs.vol, ch) && tail == ch[|ch| - 1]
    modifies fs`cursor, fs`disk, fs`cache, fs`raw, fs`vol, fs`hint
    ensures fs.Valid() && fs.HintOk() && |fs.disk| == |old(fs.disk)|
    ensures status == Success || status == Error
    ensures status == Error ==> fs.vol == old(fs.vol) && NoneFree(fs.vol.fat, 2, fs.geo.numClusters)
    ensures status == Success ==>
              && 2 <= cluster < fs.geo.numClusters
              && Grown(old(fs.vol), fs.vol, ch, ch + [cluster])
              && old(fs.vol).InRange(cluster)
              && Stream(fs.vol, ch + [cluster])
                 == Stream(old(fs.vol), ch)
                    + if zero then Zeros(fs.geo.bytesPerCluster) else old(fs.vol).clusters[cluster]
  {
    hide Times, IsChain, Grown;
    fs.Bounds();
    ghost var probes;
    status, cluster, probes := fs.AllocCluster(zero);
    if status != Success {
      return;
    }
    AttachGrows(old(fs.vol), ch, cluster, zero);
    status := fs.AttachCluster(tail, cluster);
  }

  // fatx_find_cluster_for_file_offset_alloc
  method FindCluster(fs: Fs, first: nat, fileSize: nat, offset: nat, alloc: bool, ghost ch: seq<nat>)
    returns (status: Status, cluster: nat, ghost ch': seq<nat>, ghost k: nat)
    requires fs.Valid() && fs.HintOk()
    requires |fs.vol.fat| == |fs.vol.clusters| + 1 && IsChain(fs.vol, ch) && ch[0] == first
    modifies fs`cursor, fs`disk, fs`cache, fs`raw, fs`vol, fs`hint
    ensures fs.Valid() && fs.HintOk() && |fs.disk| == |old(fs.disk)|
    ensures ZeroGrown(old(fs.vol), fs.vol, ch, ch')
    ensures !alloc ==> fs.vol == old(fs.vol) && ch' == ch
    ensures status == Success || status == Error
    ensures status == Success ==>
              && offset <= fileSize && k < |ch'| && cluster == ch'[k] && |ch'| == Max(|ch|, k + 1)
              && Times(k, fs.geo.bytesPerCluster) <= offset < Times(k, fs.geo.bytesPerCluster) + fs.geo.bytesPerCluster
    ensures status == Error ==>
              offset > fileSize || (Times(|ch'|, fs.geo.bytesPerCluster) <= offset
                                    && (alloc ==> NoneFree(fs.vol.fat, 2, fs.geo.numClusters)))
  {
    hide Classify, IsChain, Grown, Stream, Times, ZeroGrown, NoneFree, Rep, Framed, AllInRange, NoDup;
    TimesStep(0, fs.geo.bytesPerCluster);
    ch', k := ch, 0;
    fs.Bounds();
    cluster := first;
    ChainInRange(fs.vol, ch);
    ZeroGrownStart(fs.vol, ch);
    if offset > fileSize {
      return Error, 0, ch, 0;
    }
    var rest: nat := offset;
    while rest >= fs.geo.bytesPerCluster
      invariant fs.Valid() && fs.HintOk() && |fs.disk| == |old(fs.disk)|
      invariant k < |ch'| && cluster == ch'[k] && |ch'| == Max(|ch|, k + 1)
      invariant offset == Times(k, fs.geo.bytesPerCluster) + rest
      invariant ZeroGrown(old(fs.vol), fs.vol, ch, ch') && ch' != []
      invariant |fs.vol.fat| == |fs.vol.clusters| + 1 && IsChain(fs.vol, ch')
      invariant !alloc ==> fs.vol == old(fs.vol) && ch' == ch
    {
      fs.Bounds();
      TimesStep(k, fs.geo.bytesPerCluster);
      ChainEntry(fs.vol, ch', k);
      var s, entry := fs.ReadFat(cluster);
      var t := Classify(fs.geo.fat32, entry);
      if t.Data? {
        cluster := entry;
      } else if alloc && t == End {
        var c;
        ghost var before := fs.vol;
        status, c := ExtendChain(fs, cluster, true, ch');
        if status != Success {
          return;
        }
        cluster := c;
        ZeroGrownStep(old(fs.vol), before, fs.vol, ch, ch', c);
        GrownChain(before, fs.vol, ch', ch' + [c]);
        ch' := ch' + [c];
      } else {
        return Error, 0, ch', k;
      }
      k := k + 1;
      rest := rest - fs.geo.bytesPerCluster;
    }
    status := Success;
  }

  // fatx_get_next_cluster followed by a seek to its start
  method StepCluster(fs: Fs, cluster: nat, ghost ch: seq<nat>, ghost k: nat) returns (status: Status, next: nat)
    requires fs.Valid() && |fs.vol.fat| == |fs.vol.clusters| + 1 && IsChain(fs.vol, ch)
    requires k < |ch| && cluster == ch[k]
    modifies fs`cursor, fs`disk, fs`cache
    ensures fs.Valid() && |fs.disk| == |old(fs.disk)|
    ensures status == if k + 1 < |ch| then Success else Error
    ensures status == Success ==> next == ch[k + 1] && fs.vol.InRange(next) && fs.cursor == fs.geo.ClusterStart(next)
  {
    hide IsChain, Times, Rep, Framed;
    fs.Bounds();
    ChainEntry(fs.vol, ch, k);
    status, next := fs.GetNextCluster(cluster);
    if status != Success {
      return;
    }
    status := fs.SeekCluster(next, 0);
  }

  // The part of the stream that fatx_read is to return.
  function Wanted(s: seq<byte>, fileSize: nat, offset: nat, size: nat): seq<byte>
    requires fileSize <= |s|
  {
    if offset < fileSize then s[offset..Min(offset + size, fileSize)] else []
  }

  // fatx_find_cluster_for_file_offset followed by the seek there
  method SeekOffset(fs: Fs, first: nat, fileSize: nat, offset: nat, ghost ch: seq<nat>)
    returns (status: Status, cluster: nat, clusterOffset: nat, ghost k: nat)
    requires fs.Valid() && fs.HintOk()
    requires |fs.vol.fat| == |fs.vol.clusters| + 1 && IsChain(fs.vol, ch) && ch[0] == first
    requires offset < fileSize <= |Stream(fs.vol, ch)|
    modifies fs`cursor, fs`disk, fs`cache, fs`raw, fs`vol, fs`hint
    ensures fs.Valid() && fs.HintOk() && fs.vol == old(fs.vol) && status == Success
    ensures k < |ch| && cluster == ch[k] && fs.vol.InRange(cluster) && clusterOffset < fs.geo.bytesPerCluster
    ensures Times(k, fs.geo.bytesPerCluster) + clusterOffset == offset
    ensures fs.cursor == fs.geo.ClusterStart(cluster) + clusterOffset
  {
    hide IsChain, Classify, Times, Stream, Rep, Framed, ZeroGrown, OffsetInCluster, AllInRange, NoDup;
    fs.Bounds();
    ChainInRange(fs.vol, ch);
    StreamLength(fs.vol, ch);
    ghost var ch';
    status, cluster, ch', k := FindCluster(fs, first, fileSize, offset, false, ch);
    clusterOffset := OffsetInCluster(offset, fs.geo.bytesPerCluster);
    RemainderOf(k, fs.geo.bytesPerCluster, offset);
    ChainEntry(fs.vol, ch, k);
    status := fs.SeekCluster(cluster, clusterOffset);
  }

  // One transfer of fatx_read's loop.
  method ReadTransfer(fs: Fs, cluster: nat, clusterOffset: nat, toRead: nat, buf: array<byte>, total: nat,
      ghost offset: nat, ghost was: seq<byte>, ghost got: seq<byte>, ghost ch: seq<nat>, ghost k: nat)
    returns (n: nat, ghost got': seq<byte>)
    requires fs.Valid() && fs.vol.Wf() && AllInRange(fs.vol, ch) && k < |ch| && cluster == ch[k]
             && fs.vol.InRange(cluster)
    requires 0 < toRead && clusterOffset + toRead <= fs.geo.bytesPerCluster && total + toRead <= buf.Length
    requires fs.cursor == fs.geo.ClusterStart(cluster) + clusterOffset
    requires Times(k, fs.geo.bytesPerCluster) + clusterOffset == offset + total && fs.vol.bpc == fs.geo.bytesPerCluster
    requires |got| == total && offset + total <= |Stream(fs.vol, ch)|
    requires got == Stream(fs.vol, ch)[offset..offset + total]
    requires |was| == buf.Length && buf[..] == Splice(was, 0, got)
    modifies fs`cursor, buf
    ensures fs.Valid() && 1 <= n <= toRead && fs.cursor == fs.geo.ClusterStart(cluster) + clusterOffset + n
    ensures |got'| == total + n && offset + total + n <= |Stream(fs.vol, ch)|
    ensures got' == Stream(fs.vol, ch)[offset..offset + total + n]
    ensures buf[..] == Splice(was, 0, got')
  {
    hide IsChain, Times, Stream, Rep, Framed, AllInRange, Splice;
    var data := fs.DevReadSomeCluster(toRead, cluster, clusterOffset);
    n := |data|;
    ReadPiece(fs.vol, ch, k, clusterOffset, offset, got, data);
    Store(buf, total, data);
    SpliceOn(was, got, data);
    got' := got + data;
  }

  // fatx_read once the attributes are known: the bytes reach the start of buf.
  method ReadChain(fs: Fs, first: nat, fileSize: nat, offset: nat, size: nat, buf: array<byte>, ghost ch: seq<nat>)
    returns (total: nat)
    requires fs.Valid() && fs.HintOk() && size <= buf.Length
    requires |fs.vol.fat| == |fs.vol.clusters| + 1 && IsChain(fs.vol, ch) && ch[0] == first
    requires fileSize <= |Stream(fs.vol, ch)|
    modifies fs`cursor, fs`disk, fs`cache, fs`raw, fs`vol, fs`hint, buf
    ensures fs.Valid() && fs.HintOk() && fs.vol == old(fs.vol)
    ensures var want := Wanted(Stream(fs.vol, ch), fileSize, offset, size);
      total == |want| && |want| <= buf.Length && buf[..] == Splice(old(buf[..]), 0, want)
  {
    hide IsChain, Classify, Times, Stream, Rep, Framed, ZeroGrown, OffsetInCluster, AllInRange, NoDup, Splice;
    fs.Bounds();
    ChainInRange(fs.vol, ch);
    StreamLength(fs.vol, ch);
    ghost var s, was, got := Stream(fs.vol, ch), buf[..], [];
    SpliceNothing(was);
    total := 0;
    if offset >= fileSize {
      return;
    }
    var status, cluster: nat, clusterOffset: nat;
    ghost var k: nat;
    status, cluster, clusterOffset, k := SeekOffset(fs, first, fileSize, offset, ch);
    var remaining: nat := fileSize - offset;
    while true
      invariant fs.Valid() && fs.vol == old(fs.vol) && fs.HintOk()
      invariant k < |ch| && cluster == ch[k] && fs.vol.InRange(cluster)
      invariant clusterOffset < fs.geo.bytesPerCluster
      invariant Times(k, fs.geo.bytesPerCluster) + clusterOffset == offset + total == fileSize - remaining
      invariant fs.cursor == fs.geo.ClusterStart(cluster) + clusterOffset
      invariant |got| == total <= size && offset + total <= |s| && got == s[offset..offset + total]
      invariant buf[..] == Splice(was, 0, got)
      decreases remaining
    {
      if remaining == 0 {
        break;
      }
      var toRead: nat := Min(fs.geo.bytesPerCluster - clusterOffset, size - total);
      toRead := Min(toRead, remaining);
      if toRead == 0 {
        break;
      }
      var n;
      n, got := ReadTransfer(fs, cluster, clusterOffset, toRead, buf, total, offset, was, got, ch, k);
      total := total + n;
      remaining := remaining - n;
      clusterOffset := clusterOffset + n;
      if remaining == 0 {
        break;
      }
      if clusterOffset >= fs.geo.bytesPerCluster {
        TimesStep(k, fs.geo.bytesPerCluster);
        status, cluster := StepCluster(fs, cluster, ch, k);
        if status != Success {
          return;
        }
        k := k + 1;
        clusterOffset := 0;
      }
    }
  }

  lemma SpliceNothing(s: seq<byte>)
    ensures Splice(s, 0, []) == s
  {
  }

  // The chain part of fatx_truncate.
  method ResizeChain(fs: Fs, first: nat, size: nat, ghost ch: seq<nat>) returns (status: Status, ghost ch': seq<nat>)
    requires fs.Valid() && fs.HintOk()
    requires |fs.vol.fat| == |fs.vol.clusters| + 1 && IsChain(fs.vol, ch) && ch[0] == first
    modifies fs`cursor, fs`disk, fs`cache, fs`raw, fs`vol, fs`hint
    ensures fs.Valid() && fs.HintOk() && |fs.disk| == |old(fs.disk)|
    ensures Refit(old(fs.vol), fs.vol, ch, ch')
    ensures status == Success || status == Error
    ensures status == Success ==> |ch'| == ClustersFor(size, fs.geo.bytesPerCluster)
    ensures status == Error ==> ch <= ch' && |ch'| < ClustersFor(size, fs.geo.bytesPerCluster)
                                && NoneFree(fs.vol.fat, 2, fs.geo.numClusters)
  {
    hide IsChain, Times, Rep, Framed, Classify, ZeroGrown, Grown, Refit, ClustersFor, NoneFree, AllInRange, NoDup,
         Stream;
    fs.Bounds();
    ChainInRange(fs.vol, ch);
    ZeroGrownStart(fs.vol, ch);
    TimesStep(0, fs.geo.bytesPerCluster);
    ch' := ch;
    var enc, cluster: nat := 1, first;
    while Times(enc, fs.geo.bytesPerCluster) < size
      invariant fs.Valid() && fs.HintOk() && |fs.disk| == |old(fs.disk)|
      invariant 1 <= enc <= |ch'| && cluster == ch'[enc - 1] && |ch'| == Max(|ch|, enc)
      invariant ZeroGrown(old(fs.vol), fs.vol, ch, ch') && ch <= ch'
      invariant enc <= |ch| ==> ch' == ch && fs.vol == old(fs.vol)
      invariant |fs.vol.fat| == |fs.vol.clusters| + 1 && IsChain(fs.vol, ch')
      invariant enc == 1 || Times(enc - 1, fs.geo.bytesPerCluster) < size
      decreases size - Times(enc, fs.geo.bytesPerCluster)
    {
      fs.Bounds();
      TimesStep(enc, fs.geo.bytesPerCluster);
      ChainEntry(fs.vol, ch', enc - 1);
      var next;
      status, next := fs.GetNextCluster(cluster);
      if status == Error {
        ghost var before := fs.vol;
        var c;
        status, c := ExtendChain(fs, cluster, true, ch');
        if status != Success {
          ZeroGrownIsRefit(old(fs.vol), fs.vol, ch, ch');
          EnoughClusters(size, fs.geo.bytesPerCluster, enc);
          return;
        }
        ZeroGrownStep(old(fs.vol), before, fs.vol, ch, ch', c);
        GrownChain(before, fs.vol, ch', ch' + [c]);
        ch' := ch' + [c];
        cluster := c;
      } else {
        cluster := next;
      }
      enc := enc + 1;
    }
    ClustersForUnique(size, fs.geo.bytesPerCluster, enc);
    ghost var grown := ch';
    ch' := CutAfter(fs, cluster, enc, ch');
    if enc > |ch| {
      assert grown[..enc] == grown;
      ZeroGrownIsRefit(old(fs.vol), fs.vol, ch, ch');
    }
    status := Success;
  }

  // Frees what follows the m-th cluster and marks that one as the end.
  method CutAfter(fs: Fs, cluster: nat, ghost m: nat, ghost ch: seq<nat>) returns (ghost ch': seq<nat>)
    requires fs.Valid() && |fs.vol.fat| == |fs.vol.clusters| + 1 && IsChain(fs.vol, ch)
    requires 1 <= m <= |ch| && cluster == ch[m - 1]
    modifies fs`cursor, fs`disk, fs`cache, fs`raw, fs`vol
    ensures fs.Valid() && |fs.disk| == |old(fs.disk)|
    ensures ch' == ch[..m] && Refit(old(fs.vol), fs.vol, ch, ch')
    ensures m == |ch| ==> fs.vol == old(fs.vol)
  {
    hide IsChain, Times, Rep, Framed, Classify, Refit;
    fs.Bounds();
    ChainEntry(fs.vol, ch, m - 1);
    ch' := ch[..m];
    var status, next := fs.GetNextCluster(cluster);
    if status == Success {
      CutIsRefit(fs.vol, ch, m);
      fs.FreeClusterChain(next);
    } else {
      ChainInRange(fs.vol, ch);
      ZeroGrownStart(fs.vol, ch);
      ZeroGrownIsRefit(fs.vol, fs.vol, ch, ch);
      assert ch' == ch && fs.vol.fat[cluster := End] == fs.vol.fat;
    }
    fs.MarkClusterEnd(cluster);
  }

  lemma EnoughClusters(size: nat, b: nat, enc: nat)
    requires b > 0 && Times(enc, b) < size
    ensures enc < ClustersFor(size, b)
  {
    TimesOrder(ClustersFor(size, b), enc, b);
  }

  // Moving on to the next cluster of the chain, or to a new one at its end.
  method NextOrNewCluster(fs: Fs, cluster: nat, zero: bool, ghost ch: seq<nat>, ghost k: nat)
    returns (status: Status, next: nat, ghost ch': seq<nat>)
    requires fs.Valid() && fs.HintOk() && |fs.vol.fat| == |fs.vol.clusters| + 1 && IsChain(fs.vol, ch)
    requires k < |ch| && cluster == ch[k]
    modifies fs`cursor, fs`disk, fs`cache, fs`raw, fs`vol, fs`hint
    ensures fs.Valid() && fs.HintOk() && |fs.disk| == |old(fs.disk)|
    ensures status == Success || status == Error
    ensures status == Error ==>
              && ch' == ch && k + 1 == |ch| && fs.vol == old(fs.vol)
              && NoneFree(fs.vol.fat, 2, fs.geo.numClusters)
    ensures status == Success ==>
              && k + 1 < |ch'| && next == ch'[k + 1] && fs.vol.InRange(next)
              && fs.cursor == fs.geo.ClusterStart(next)
              && if k + 1 < |ch| then ch' == ch && fs.vol == old(fs.vol)
                 else
                   && ch' == ch + [next] && Grown(old(fs.vol), fs.vol, ch, ch') && old(fs.vol).InRange(next)
                   && Stream(fs.vol, ch')
                      == Stream(old(fs.vol), ch)
                         + if zero then Zeros(fs.geo.bytesPerCluster) else old(fs.vol).clusters[next]
  {
    hide IsChain, Times, Rep, Framed, Grown, Stream, NoneFree;
    fs.Bounds();
    ch' := ch;
    ChainEntry(fs.vol, ch, k);
    status, next := fs.GetNextCluster(cluster);
    if status != Success {
      status, next := ExtendChain(fs, cluster, zero, ch);
      if status != Success {
        return;
      }
      ch' := ch + [next];
    }
    status := fs.SeekCluster(next, 0);
    fs.Bounds();
  }

  // One transfer of fatx_write's loop.
  method WritePiece(fs: Fs, cluster: nat, clusterOffset: nat, toWrite: nat, ghost offset: nat, buf: seq<byte>,
      written: nat, ghost v0: Volume, ghost ch: seq<nat>, ghost ch': seq<nat>, ghost k: nat, ghost limit: nat)
    returns (n: nat)
    requires fs.Valid() && Writing(v0, fs.vol, ch, ch', k, clusterOffset, offset, buf, written, limit)
    requires k < |ch'| && cluster == ch'[k] && fs.vol.InRange(cluster)
    requires 0 < toWrite && written + toWrite <= |buf| && clusterOffset + toWrite <= fs.geo.bytesPerCluster
    requires fs.cursor == fs.geo.ClusterStart(cluster) + clusterOffset
    modifies fs`cursor, fs`disk, fs`vol
    ensures fs.Valid() && |fs.disk| == |old(fs.disk)|
    ensures 1 <= n <= toWrite && fs.vol.InRange(cluster)
    ensures Writing(v0, fs.vol, ch, ch', k, clusterOffset + n, offset, buf, written + n, limit)
    ensures fs.cursor == fs.geo.ClusterStart(cluster) + clusterOffset + n
  {
    hide Times, Rep, Framed, Writing;
    fs.Bounds();
    ghost var before := fs.vol;
    n := fs.DevWriteSomeCluster(buf[written..written + toWrite], cluster, clusterOffset);
    assert buf[written..written + toWrite][..n] == buf[written..written + n];
    WritingPiece(v0, before, ch, ch', k, clusterOffset, offset, buf, written, limit, n);
  }

  // The step of fatx_write's loop from one cluster to the next.
  method WriteAdvance(fs: Fs, cluster: nat, ghost offset: nat, buf: seq<byte>, written: nat, ghost v0: Volume,
      ghost ch: seq<nat>, ghost ch0: seq<nat>, ghost k: nat, ghost limit: nat)
    returns (status: Status, next: nat, ghost ch': seq<nat>, ghost limit': nat)
    requires fs.Valid() && fs.HintOk() && Writing(v0, fs.vol, ch, ch0, k, fs.geo.bytesPerCluster, offset, buf, written,
             limit)
    requires k < |ch0| && cluster == ch0[k] && written < |buf|
    modifies fs`cursor, fs`disk, fs`cache, fs`raw, fs`vol, fs`hint
    ensures fs.Valid() && fs.HintOk() && |fs.disk| == |old(fs.disk)|
    ensures status == Success || status == Error
    ensures status == Error ==>
              && Written(v0, fs.vol, ch, ch', offset, buf[..written]) && NoneFree(fs.vol.fat, 2, fs.geo.numClusters)
              && offset + written == Times(|ch'|, fs.geo.bytesPerCluster)
    ensures status == Success ==>
              && Writing(v0, fs.vol, ch, ch', k + 1, 0, offset, buf, written, limit')
              && k + 1 < |ch'| && next == ch'[k + 1] && fs.vol.InRange(next) && fs.cursor == fs.geo.ClusterStart(next)
  {
    hide IsChain, Times, Rep, Framed, Writing, NoneFree, Stream, Grown;
    fs.Bounds();
    ghost var before := fs.vol;
    WritingBounds(v0, before, ch, ch0, k, before.bpc, offset, buf, written, limit);
    var zero := |buf| - written < fs.geo.bytesPerCluster;
    status, next, ch' := NextOrNewCluster(fs, cluster, zero, ch0, k);
    limit' := if k + 1 < |ch0| then limit else if zero then 0 else offset + written + before.bpc;
    if status != Success {
      WritingDone(v0, before, ch, ch0, k, before.bpc, offset, buf, written, limit);
      WritingFull(v0, before, ch, ch0, k, offset, buf, written, limit);
      return;
    }
    WritingNext(v0, before, fs.vol, ch, ch0, ch', k, offset, buf, written, limit, zero, next);
  }

  // fatx_write once the attributes are known: the bytes it wrote before it stopped.
  method WriteChain(fs: Fs, first: nat, fileSize: nat, offset: nat, buf: seq<byte>, ghost ch: seq<nat>)
    returns (status: Status, written: nat, reached: bool, ghost ch': seq<nat>)
    requires fs.Valid() && fs.HintOk()
    requires |fs.vol.fat| == |fs.vol.clusters| + 1 && IsChain(fs.vol, ch) && ch[0] == first
    modifies fs`cursor, fs`disk, fs`cache, fs`raw, fs`vol, fs`hint
    ensures fs.Valid() && fs.HintOk() && |fs.disk| == |old(fs.disk)|
    ensures status == Success || status == Error
    ensures reached ==> offset <= fileSize
    ensures status == Success && reached ==>
              && written == |buf| && Written(old(fs.vol), fs.vol, ch, ch', offset, buf)
              && |ch'| == Max(|ch|, ClustersFor(offset + Max(|buf|, 1), fs.geo.bytesPerCluster))
    ensures status == Error ==>
              && reached && 0 < written < |buf| && Written(old(fs.vol), fs.vol, ch, ch', offset, buf[..written])
              && NoneFree(fs.vol.fat, 2, fs.geo.numClusters) && offset + written == Times(|ch'|, fs.geo.bytesPerCluster)
    // the offset's cluster was not reached; fatx_write then reports 0 bytes written
    ensures !reached ==>
              && status == Success && written == 0 && ZeroGrown(old(fs.vol), fs.vol, ch, ch')
              && (offset > fileSize || (Times(|ch'|, fs.geo.bytesPerCluster) <= offset
                                        && NoneFree(fs.vol.fat, 2, fs.geo.numClusters)))
  {
    hide IsChain, Classify, Times, Rep, Framed, ZeroGrown, OffsetInCluster, ClustersFor, NoneFree, Writing;
    fs.Bounds();
    written := 0;
    ghost var v0, b := fs.vol, fs.geo.bytesPerCluster;
    var cluster: nat;
    ghost var k: nat;
    status, cluster, ch', k := FindCluster(fs, first, fileSize, offset, true, ch);
    reached := status == Success;
    if !reached {
      return Success, 0, false, ch';
    }
    var clusterOffset: nat := OffsetInCluster(offset, fs.geo.bytesPerCluster);
    RemainderOf(k, b, offset);
    ghost var limit: nat := 0;
    fs.Bounds();
    WritingStart(v0, fs.vol, ch, ch', k, clusterOffset, offset, buf);
    WritingBounds(v0, fs.vol, ch, ch', k, clusterOffset, offset, buf, 0, 0);
    status := fs.SeekCluster(cluster, clusterOffset);
    while true
      invariant fs.Valid() && fs.HintOk() && |fs.disk| == |old(fs.disk)|
      invariant Writing(v0, fs.vol, ch, ch', k, clusterOffset, offset, buf, written, limit)
      invariant k < |ch'| && cluster == ch'[k] && fs.vol.InRange(cluster) && clusterOffset < b && written <= |buf|
      invariant fs.cursor == fs.geo.ClusterStart(cluster) + clusterOffset && reached
      decreases |buf| - written
    {
      fs.Bounds();
      var toWrite: nat := Min(fs.geo.bytesPerCluster - clusterOffset, |buf| - written);
      if toWrite > 0 {
        var n := WritePiece(fs, cluster, clusterOffset, toWrite, offset, buf, written, v0, ch, ch', k, limit);
        written := written + n;
        clusterOffset := clusterOffset + n;
      }
      if |buf| - written == 0 {
        break;
      }
      if clusterOffset >= fs.geo.bytesPerCluster {
        var next;
        status, next, ch', limit := WriteAdvance(fs, cluster, offset, buf, written, v0, ch, ch', k, limit);
        if status != Success {
          return;
        }
        cluster := next;
        k := k + 1;
        clusterOffset := 0;
      }
    }
    WritingDone(v0, fs.vol, ch, ch', k, clusterOffset, offset, buf, written, limit);
    assert buf[..|buf|] == buf;
    status := Success;
  }

  // ---- the state of fatx_write's loop ----

  // w bytes of buf are on the volume and the position is clusterOffset into the
  // k-th cluster; a cluster taken without zeroing will be covered before the end.
  ghost predicate Writing(v0: Volume, v: Volume, ch: seq<nat>, ch': seq<nat>, k: nat, clusterOffset: nat, offset: nat,
      buf: seq<byte>, w: nat, limit: nat)
  {
    && ch != [] && Grown(v0, v, ch, ch')
    && k < |ch'| && |ch'| == Max(|ch|, k + 1)
    && w <= |buf| && clusterOffset <= v.bpc && Times(k, v.bpc) + clusterOffset == offset + w
    && Overlaid(Stream(v0, ch), Stream(v, ch'), offset, buf[..w], limit)
    && limit <= offset + |buf|
    && (buf != [] && w == |buf| ==> clusterOffset > 0)
    && (buf == [] ==> clusterOffset < v.bpc)
  }

  lemma WritingBounds(v0: Volume, v: Volume, ch: seq<nat>, ch': seq<nat>, k: nat, clusterOffset: nat, offset: nat,
      buf: seq<byte>, w: nat, limit: nat)
    requires Writing(v0, v, ch, ch', k, clusterOffset, offset, buf, w, limit)
    ensures |v.fat| == |v.clusters| + 1 && IsChain(v, ch') && k < |ch'| && v.InRange(ch'[k])
    ensures |v0.clusters| == |v.clusters| && v0.bpc == v.bpc && v.Wf()
  {
  }

  lemma WritingFull(v0: Volume, v: Volume, ch: seq<nat>, ch': seq<nat>, k: nat, offset: nat, buf: seq<byte>, w: nat,
      limit: nat)
    requires Writing(v0, v, ch, ch', k, v.bpc, offset, buf, w, limit) && k + 1 == |ch'|
    ensures offset + w == Times(|ch'|, v.bpc)
  {
    hide Grown, Overlaid, Stream;
    TimesStep(k, v.bpc);
  }

  lemma WritingStart(v0: Volume, v: Volume, ch: seq<nat>, ch': seq<nat>, k: nat, clusterOffset: nat, offset: nat,
      buf: seq<byte>)
    requires v0.Wf() && IsChain(v0, ch) && ZeroGrown(v0, v, ch, ch')
    requires k < |ch'| && |ch'| == Max(|ch|, k + 1)
    requires clusterOffset < v.bpc && Times(k, v.bpc) + clusterOffset == offset
    ensures Writing(v0, v, ch, ch', k, clusterOffset, offset, buf, 0, 0)
  {
    hide Times, Stream;
    StreamLength(v0, ch);
    TimesGrows(|ch|, |ch'|, v.bpc);
    TimesStep(k, v.bpc);
    TimesGrows(k + 1, |ch'|, v.bpc);
    OverlayStart(Stream(v0, ch), Stream(v, ch'), offset);
  }

  lemma WritingPiece(v0: Volume, v: Volume, ch: seq<nat>, ch': seq<nat>, k: nat, clusterOffset: nat, offset: nat,
      buf: seq<byte>, w: nat, limit: nat, n: nat)
    requires Writing(v0, v, ch, ch', k, clusterOffset, offset, buf, w, limit)
    requires 0 < n && w + n <= |buf| && clusterOffset + n <= v.bpc
    ensures v.InRange(ch'[k]) && |v.clusters[ch'[k]]| == v.bpc
    ensures Writing(v0, v.Write(ch'[k], clusterOffset, buf[w..w + n]), ch, ch', k, clusterOffset + n, offset, buf,
            w + n, limit)
  {
    hide Times, Stream, Overlaid, Grown;
    WritingBounds(v0, v, ch, ch', k, clusterOffset, offset, buf, w, limit);
    ChainInRange(v, ch');
    GrownWrite(v0, v, ch, ch', k, clusterOffset, buf[w..w + n]);
    StreamWrite(v, ch', k, clusterOffset, buf[w..w + n]);
    OverlayWrite(Stream(v0, ch), Stream(v, ch'), offset, buf[..w], limit, buf[w..w + n]);
    assert buf[..w] + buf[w..w + n] == buf[..w + n];
  }

  lemma WritingNext(v0: Volume, v: Volume, v': Volume, ch: seq<nat>, ch1: seq<nat>, ch': seq<nat>, k: nat, offset: nat,
      buf: seq<byte>, w: nat, limit: nat, zero: bool, c: nat)
    requires Writing(v0, v, ch, ch1, k, v.bpc, offset, buf, w, limit) && w < |buf|
    requires !zero ==> |buf| - w >= v.bpc
    requires if k + 1 < |ch1| then v' == v && ch' == ch1
             else
               && ch' == ch1 + [c] && Grown(v, v', ch1, ch') && v.InRange(c)
               && Stream(v', ch') == Stream(v, ch1) + if zero then Zeros(v.bpc) else v.clusters[c]
    ensures Writing(v0, v', ch, ch', k + 1, 0, offset, buf, w,
                    if k + 1 < |ch1| then limit else if zero then 0 else offset + w + v.bpc)
  {
    hide Times, Stream, Overlaid, Grown, IsChain;
    TimesStep(k, v.bpc);
    if k + 1 >= |ch1| {
      GrownTransitive(v0, v, v', ch, ch1, ch');
      GrownChain(v, v', ch1, ch');
      WritingBounds(v0, v, ch, ch1, k, v.bpc, offset, buf, w, limit);
      WritingNewCluster(v0, v, ch, ch1, k, offset, buf, w, limit, zero, if zero then Zeros(v.bpc) else v.clusters[c]);
    }
  }

  lemma WritingNewCluster(v0: Volume, v: Volume, ch: seq<nat>, ch1: seq<nat>, k: nat, offset: nat, buf: seq<byte>,
      w: nat, limit: nat, zero: bool, z: seq<byte>)
    requires Writing(v0, v, ch, ch1, k, v.bpc, offset, buf, w, limit) && k + 1 >= |ch1|
    requires |z| == v.bpc && (zero ==> z == Zeros(v.bpc))
    ensures Overlaid(Stream(v0, ch), Stream(v, ch1) + z, offset, buf[..w], if zero then 0 else offset + w + v.bpc)
  {
    hide Times, Stream, Overlaid, Grown, IsChain;
    TimesStep(k, v.bpc);
    WritingBounds(v0, v, ch, ch1, k, v.bpc, offset, buf, w, limit);
    ChainInRange(v, ch1);
    StreamLength(v, ch1);
    OverlayGrow(Stream(v0, ch), Stream(v, ch1), offset, buf[..w], limit, z, zero);
    OverlayLimit(Stream(v0, ch), Stream(v, ch1) + z, offset, buf[..w], offset + w);
  }

  lemma OverlayLimit(s0: seq<byte>, s: seq<byte>, offset: nat, d: seq<byte>, limit: nat)
    requires limit <= offset + |d|
    ensures Overlaid(s0, s, offset, d, limit) <==> Overlaid(s0, s, offset, d, 0)
  {
  }

  lemma WritingDone(v0: Volume, v: Volume, ch: seq<nat>, ch': seq<nat>, k: nat, clusterOffset: nat, offset: nat,
      buf: seq<byte>, w: nat, limit: nat)
    requires Writing(v0, v, ch, ch', k, clusterOffset, offset, buf, w, limit)
    requires w == |buf| || (k + 1 == |ch'| && clusterOffset == v.bpc)
    ensures Written(v0, v, ch, ch', offset, buf[..w])
    ensures w == |buf| ==> |ch'| == Max(|ch|, ClustersFor(offset + Max(|buf|, 1), v.bpc))
  {
    hide Times, Stream, Overlaid, Grown;
    WritingBounds(v0, v, ch, ch', k, clusterOffset, offset, buf, w, limit);
    ChainInRange(v, ch');
    StreamLength(v, ch');
    TimesStep(k, v.bpc);
    TimesGrows(k + 1, |ch'|, v.bpc);
    OverlayDone(Stream(v0, ch), Stream(v, ch'), offset, buf[..w], limit);
    if w == |buf| {
      ClustersForUnique(offset + Max(|buf|, 1), v.bpc, k + 1);
    }
  }

  function OffsetInCluster(offset: nat, b: nat): nat
    requires b > 0
  {
    offset % b
  }

  lemma RemainderOf(k: nat, b: nat, n: nat)
    requires Times(k, b) <= n < Times(k, b) + b
    ensures OffsetInCluster(n, b) == n - Times(k, b)
  {
    TimesIsProduct(k, b);
    RemainderUnique(k, b, n - Times(k, b));
  }

  lemma RemainderUnique(k: nat, b: nat, r: nat)
    requires r < b
    ensures (k * b + r) % b == r
  {
    var n := k * b + r;
    QuotientUnique(k, r, n / b, n % b, b);
  }

  lemma QuotientUnique(k: int, r: int, q: int, t: int, b: nat)
    requires k * b + r == q * b + t && 0 <= r < b && 0 <= t < b
    ensures k == q && r == t
  {
    var d := q - k;
    assert d * b == q * b - k * b;
    MulBound(d, b);
  }

  // What was read so far, continued by a piece of the k-th cluster.
  lemma ReadPiece(v: Volume, ch: seq<nat>, k: nat, off: nat, offset: nat, buf: seq<byte>, data: seq<byte>)
    requires v.Wf() && AllInRange(v, ch) && k < |ch| && off + |data| <= v.bpc
    requires v.InRange(ch[k]) && data == v.clusters[ch[k]][off..off + |data|]
    requires Times(k, v.bpc) + off == offset + |buf|
    requires offset + |buf| <= |Stream(v, ch)| && buf == Stream(v, ch)[offset..offset + |buf|]
    ensures offset + |buf + data| <= |Stream(v, ch)|
    ensures buf + data == Stream(v, ch)[offset..offset + |buf + data|]
  {
    hide Times, Stream;
    StreamAt(v, ch, k, off, |data|);
    SliceConcat(Stream(v, ch), offset, offset + |buf|, offset + |buf| + |data|);
  }
}
