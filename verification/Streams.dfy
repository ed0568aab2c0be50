// The bytes behind a cluster chain, and how chains grow.

module Streams {
  import opened Bytes
  import opened Geometry
  import opened Volumes

  // The contents of the chain's clusters, one after the other.
  function Stream(v: Volume, ch: seq<nat>): seq<byte> {
    if ch == [] then []
    else
      var last := ch[|ch| - 1];
      Stream(v, ch[..|ch| - 1]) + if last < |v.clusters| then v.clusters[last] else []
  }

  // s cut or zero-padded to length n.
  function Fit(s: seq<byte>, n: nat): (r: seq<byte>)
    ensures |r| == n
    ensures forall i :: 0 <= i < n ==> r[i] == if i < |s| then s[i] else 0
  {
    if n <= |s| then s[..n] else s + Zeros(n - |s|)
  }

  ghost predicate AllInRange(v: Volume, ch: seq<nat>) {
    forall j :: 0 <= j < |ch| ==> v.InRange(ch[j])
  }

  lemma {:induction false} StreamLength(v: Volume, ch: seq<nat>)
    requires v.Wf() && AllInRange(v, ch)
    ensures |Stream(v, ch)| == Times(|ch|, v.bpc)
  {
    if ch != [] {
      assert v.InRange(ch[|ch| - 1]);
      StreamLength(v, ch[..|ch| - 1]);
    }
  }

  lemma {:induction false} StreamFrame(v: Volume, v': Volume, ch: seq<nat>)
    requires |v'.clusters| == |v.clusters|
    requires forall c :: c in ch && c < |v.clusters| ==> v'.clusters[c] == v.clusters[c]
    ensures Stream(v', ch) == Stream(v, ch)
  {
    if ch != [] {
      assert ch[|ch| - 1] in ch;
      StreamFrame(v, v', ch[..|ch| - 1]);
    }
  }

  // The k-th cluster of the chain is the k-th stretch of the stream.
  lemma {:induction false} StreamAt(v: Volume, ch: seq<nat>, k: nat, off: nat, n: nat)
    requires v.Wf() && AllInRange(v, ch) && k < |ch| && off + n <= v.bpc
    ensures |Stream(v, ch)| == Times(|ch|, v.bpc) && Times(k, v.bpc) + v.bpc <= Times(|ch|, v.bpc)
    ensures Stream(v, ch)[Times(k, v.bpc) + off..Times(k, v.bpc) + off + n] == v.clusters[ch[k]][off..off + n]
  {
    hide Stream, Times;
    StreamLength(v, ch);
    TimesMonotone(k, |ch|, v.bpc);
    assert v.InRange(ch[|ch| - 1]);
    var init := ch[..|ch| - 1];
    StreamLength(v, init);
    StreamLast(v, ch);
    var s, t, at := Stream(v, ch), Stream(v, init), Times(k, v.bpc) + off;
    if k < |ch| - 1 {
      StreamAt(v, init, k, off, n);
      assert s[at..at + n] == t[at..at + n];
    } else {
      assert s[at..at + n] == v.clusters[ch[k]][off..off + n];
    }
  }

  lemma StreamLast(v: Volume, ch: seq<nat>)
    requires ch != [] && ch[|ch| - 1] < |v.clusters|
    ensures Stream(v, ch) == Stream(v, ch[..|ch| - 1]) + v.clusters[ch[|ch| - 1]]
  {
  }

  // Writing into the k-th cluster splices the stream.
  lemma {:induction false} StreamWrite(v: Volume, ch: seq<nat>, k: nat, off: nat, d: seq<byte>)
    requires v.Wf() && AllInRange(v, ch) && NoDup(ch) && k < |ch| && off + |d| <= v.bpc
    ensures |Stream(v, ch)| == Times(|ch|, v.bpc) && Times(k, v.bpc) + v.bpc <= Times(|ch|, v.bpc)
    ensures v.InRange(ch[k]) && |v.clusters[ch[k]]| == v.bpc
    ensures Stream(v.Write(ch[k], off, d), ch) == Splice(Stream(v, ch), Times(k, v.bpc) + off, d)
  {
    hide Stream, Times;
    StreamLength(v, ch);
    TimesMonotone(k, |ch|, v.bpc);
    assert v.InRange(ch[k]) && v.InRange(ch[|ch| - 1]);
    var init, last := ch[..|ch| - 1], ch[|ch| - 1];
    StreamLength(v, init);
    var v' := v.Write(ch[k], off, d);
    StreamLast(v, ch);
    StreamLast(v', ch);
    if k == |ch| - 1 {
      StreamFrame(v, v', init);
      SpliceRight(Stream(v, init), v.clusters[last], off, d);
    } else {
      StreamWrite(v, init, k, off, d);
      assert last != ch[k];
      SpliceLeft(Stream(v, init), v.clusters[last], Times(k, v.bpc) + off, d);
    }
  }

  lemma {:induction false} StreamPrefix(v: Volume, ch: seq<nat>, m: nat)
    requires v.Wf() && AllInRange(v, ch) && m <= |ch|
    ensures |Stream(v, ch)| == Times(|ch|, v.bpc) && Times(m, v.bpc) <= Times(|ch|, v.bpc)
    ensures Stream(v, ch[..m]) == Stream(v, ch)[..Times(m, v.bpc)]
  {
    StreamLength(v, ch);
    if m == |ch| {
      assert ch[..m] == ch;
    } else {
      assert v.InRange(ch[|ch| - 1]);
      StreamPrefix(v, ch[..|ch| - 1], m);
      assert ch[..|ch| - 1][..m] == ch[..m];
    }
  }

  // ---- growth ----

  // v' is v with chain ch continued to ch'; no cluster outside ch' changed.  The clusters
  // that joined are not the first, which the allocator never looks at.
  ghost predicate Grown(v: Volume, v': Volume, ch: seq<nat>, ch': seq<nat>) {
    && v.Wf() && v'.Wf()
    && Reshaped(v, v', ch, ch')
    && ch <= ch' && (1 in ch' ==> 1 in ch)
    && forall c :: 0 <= c < |v.clusters| && c !in ch' ==> v'.clusters[c] == v.clusters[c]
  }

  lemma GrownTransitive(v: Volume, v1: Volume, v2: Volume, ch: seq<nat>, ch1: seq<nat>, ch2: seq<nat>)
    requires Grown(v, v1, ch, ch1) && Grown(v1, v2, ch1, ch2) && ch2 != []
    ensures Grown(v, v2, ch, ch2)
  {
    assert forall c :: c in ch1 ==> c in ch2;
    assert forall c :: c in ch ==> c in ch1;
  }

  // Grown by zeroed clusters only: the stream is the old one, zero-padded.
  ghost predicate ZeroGrown(v: Volume, v': Volume, ch: seq<nat>, ch': seq<nat>) {
    && ch != [] && Grown(v, v', ch, ch')
    && Stream(v', ch') == Fit(Stream(v, ch), Times(|ch'|, v.bpc))
  }

  lemma ZeroGrownStart(v: Volume, ch: seq<nat>)
    requires v.Wf() && IsChain(v, ch)
    ensures ZeroGrown(v, v, ch, ch)
  {
    StreamLength(v, ch);
  }

  lemma ZeroGrownStep(v: Volume, v1: Volume, v2: Volume, ch: seq<nat>, ch1: seq<nat>, c: nat)
    requires ZeroGrown(v, v1, ch, ch1) && Grown(v1, v2, ch1, ch1 + [c])
    requires Stream(v2, ch1 + [c]) == Stream(v1, ch1) + Zeros(v.bpc)
    requires AllInRange(v, ch)
    ensures ZeroGrown(v, v2, ch, ch1 + [c])
  {
    GrownTransitive(v, v1, v2, ch, ch1, ch1 + [c]);
    StreamLength(v, ch);
    TimesGrows(|ch|, |ch1|, v.bpc);
  }

  lemma TimesGrows(m: nat, n: nat, k: nat)
    requires m <= n
    ensures Times(m, k) <= Times(n, k)
  {
    if m < n { TimesMonotone(m, n, k); }
  }

  lemma TimesOrder(m: nat, n: nat, k: nat)
    ensures m <= n ==> Times(m, k) <= Times(n, k)
    ensures m < n ==> Times(m, k) + k <= Times(n, k)
  {
    if m < n { TimesMonotone(m, n, k); }
  }

  lemma ChainInRange(v: Volume, ch: seq<nat>)
    requires |v.fat| == |v.clusters| + 1 && IsChain(v, ch)
    ensures AllInRange(v, ch) && NoDup(ch) && |ch| >= 1
  {
  }

  lemma GrownChain(v: Volume, v': Volume, ch: seq<nat>, ch': seq<nat>)
    requires Grown(v, v', ch, ch') && ch' != []
    ensures |v'.fat| == |v'.clusters| + 1 && IsChain(v', ch')
    ensures |v'.clusters| == |v.clusters| && v'.bpc == v.bpc
  {
  }

  // The entry of the k-th cluster of a chain, as a reader of the table finds it.
  lemma ChainEntry(v: Volume, ch: seq<nat>, k: nat)
    requires |v.fat| == |v.clusters| + 1 && IsChain(v, ch) && k < |ch|
    ensures v.InRange(ch[k])
    ensures v.fat[ch[k]] == if k + 1 < |ch| then Data(ch[k + 1]) else End
    ensures k + 1 < |ch| ==> v.InRange(ch[k + 1])
  {
    assert v.fat[ch[k]] == Link(ch, k);
  }

  // A cluster taken by the allocator and attached to the tail continues the chain.
  function Attached(v: Volume, tail: nat, c: nat): Volume
    requires tail < |v.fat| && c < |v.fat|
  {
    v.(fat := v.fat[tail := Data(c)][c := End])
  }

  lemma AttachedChain(v: Volume, ch: seq<nat>, c: nat, zero: bool)
    requires v.Wf() && IsChain(v, ch) && v.InRange(c) && v.fat[c] == Available
    ensures var tail := ch[|ch| - 1];
      tail < |v.fat| && tail != c && Allocated(v, c, zero).fat[tail] == End
      && IsChain(Attached(Allocated(v, c, zero), tail, c), ch + [c])
  {
    var tail := ch[|ch| - 1];
    assert v.fat[tail] == Link(ch, |ch| - 1);
    AvailableIsOutside(v, ch, c);
    var v' := Attached(Allocated(v, c, zero), tail, c);
    var ch' := ch + [c];
    forall j | 0 <= j < |ch'| ensures v'.fat[ch'[j]] == Link(ch', j) {
      if j < |ch| - 1 {
        assert ch[j] != tail;
        assert v.fat[ch[j]] == Link(ch, j);
      }
    }
  }

  lemma AttachGrows(v: Volume, ch: seq<nat>, c: nat, zero: bool)
    requires v.Wf() && IsChain(v, ch) && v.InRange(c) && c >= 2 && v.fat[c] == Available
    ensures var tail := ch[|ch| - 1];
      && tail < |v.fat| && |v.clusters[c]| == v.bpc
      && Allocated(v, c, zero).fat[tail] == End
      && Grown(v, Attached(Allocated(v, c, zero), tail, c), ch, ch + [c])
      && Stream(Attached(Allocated(v, c, zero), tail, c), ch + [c]) == Stream(v, ch) + if zero then Zeros(v.bpc)
         else v.clusters[c]
  {
    hide IsChain, Stream, Splice;
    AttachedChain(v, ch, c, zero);
    AvailableIsOutside(v, ch, c);
    ChainInRange(v, ch);
    var tail := ch[|ch| - 1];
    var v', ch' := Attached(Allocated(v, c, zero), tail, c), ch + [c];
    assert v'.clusters[c] == if zero then Zeros(v.bpc) else v.clusters[c] by {
      WholeSplice(v.clusters[c], Zeros(v.bpc));
    }
    assert ch'[..|ch'| - 1] == ch;
    StreamFrame(v, v', ch);
    StreamLast(v', ch');
  }

  lemma WholeSplice(s: seq<byte>, d: seq<byte>)
    requires |s| == |d|
    ensures Splice(s, 0, d) == d
  {
  }

  // ---- resizing ----

  // Chain ch of v became ch' of v': a prefix of it, or continued by zeroed clusters.
  // Nothing outside ch' changed its content.
  ghost predicate Refit(v: Volume, v': Volume, ch: seq<nat>, ch': seq<nat>) {
    && v.Wf() && v'.Wf()
    && Reshaped(v, v', ch, ch')
    && ch != [] && ch' != [] && ch'[0] == ch[0] && (ch <= ch' || ch' <= ch) && (1 in ch' ==> 1 in ch)
    && Stream(v', ch') == Fit(Stream(v, ch), Times(|ch'|, v.bpc))
    && forall c :: 0 <= c < |v.clusters| && c !in ch' ==> v'.clusters[c] == v.clusters[c]
  }

  lemma ZeroGrownIsRefit(v: Volume, v': Volume, ch: seq<nat>, ch': seq<nat>)
    requires ZeroGrown(v, v', ch, ch')
    ensures Refit(v, v', ch, ch')
  {
  }

  // Freeing everything after the m-th cluster and ending the chain there.
  lemma CutIsRefit(v: Volume, ch: seq<nat>, m: nat)
    requires v.Wf() && IsChain(v, ch) && 1 <= m < |ch|
    ensures ch[m - 1] < |v.fat|
    ensures Refit(v, v.(fat := FreeChain(v.fat, ch[m])[ch[m - 1] := End]), ch, ch[..m])
  {
    hide Stream, Times, Reshaped, IsChain;
    CutReshapes(v, ch, m);
    ChainInRange(v, ch);
    StreamPrefix(v, ch, m);
    StreamFrame(v, v.(fat := FreeChain(v.fat, ch[m])[ch[m - 1] := End]), ch[..m]);
  }

  lemma CutReshapes(v: Volume, ch: seq<nat>, m: nat)
    requires v.Wf() && IsChain(v, ch) && 1 <= m < |ch|
    ensures ch[m - 1] < |v.fat|
    ensures Reshaped(v, v.(fat := FreeChain(v.fat, ch[m])[ch[m - 1] := End]), ch, ch[..m])
  {
    FreeChainTail(v.fat, ch, m);
    CutIsChain(v, ch, m);
    assert forall c :: c in ch && c !in ch[..m] ==> c in ch[m..];
  }

  lemma CutIsChain(v: Volume, ch: seq<nat>, m: nat)
    requires v.Wf() && IsChain(v, ch) && 1 <= m < |ch|
    ensures ch[m - 1] < |v.fat| && |FreeChain(v.fat, ch[m])| == |v.fat|
    ensures IsChain(v.(fat := FreeChain(v.fat, ch[m])[ch[m - 1] := End]), ch[..m])
  {
    var ch' := ch[..m];
    FreeChainTail(v.fat, ch, m);
    var fat' := FreeChain(v.fat, ch[m])[ch[m - 1] := End];
    forall j | 0 <= j < |ch'| ensures fat'[ch'[j]] == Link(ch', j) {
      assert v.fat[ch[j]] == Link(ch, j);
      if j < m - 1 {
        assert ch[j] != ch[m - 1];
        assert ch[j] !in ch[m..];
      }
    }
  }

  // The number of clusters a file of n bytes gets: at least one, else just enough.
  function ClustersFor(n: nat, b: nat): (r: nat)
    requires b > 0
    ensures r >= 1
    ensures n <= Times(r, b)
    ensures r == 1 || Times(r - 1, b) < n
  {
    if n <= b then
      TimesStep(0, b);
      1
    else 1 + ClustersFor(n - b, b)
  }

  lemma ClustersForUnique(n: nat, b: nat, r: nat)
    requires b > 0 && r >= 1 && n <= Times(r, b) && (r == 1 || Times(r - 1, b) < n)
    ensures r == ClustersFor(n, b)
  {
    var q := ClustersFor(n, b);
    TimesOrder(r, q - 1, b);
    TimesOrder(q, r - 1, b);
  }

  // It is max(1, ceil(n / b)).
  lemma ClustersForIsCeiling(n: nat, b: nat)
    requires b > 0
    ensures ClustersFor(n, b) == if n == 0 then 1 else (n + b - 1) / b
  {
    if n > 0 {
      var q := ClustersFor(n, b);
      TimesIsProduct(q, b);
      TimesIsProduct(q - 1, b);
      CeilingUnique(n, b, q);
    }
  }

  lemma CeilingUnique(n: nat, b: nat, q: nat)
    requires b > 0 && n > 0 && q >= 1 && n <= q * b && (q - 1) * b < n
    ensures q == (n + b - 1) / b
  {
    var p := (n + b - 1) / b;
    var d := q - p;
    assert d * b == q * b - p * b;
    assert (q - 1) * b == q * b - b;
    MulBound(d, b);
  }

  lemma MulBound(d: int, b: nat)
    ensures d >= 1 ==> d * b >= b
    ensures d <= -1 ==> d * b <= -(b as int)
  {
  }

  // ---- overwriting ----

  // s is s0 (zero-padded) with d laid over it at offset, where the bytes from the
  // end of d up to limit do not matter yet.
  ghost predicate Overlaid(s0: seq<byte>, s: seq<byte>, offset: nat, d: seq<byte>, limit: nat) {
    && |s0| <= |s| && offset + |d| <= |s|
    && forall i :: 0 <= i < |s| && (i < offset + |d| || i >= limit) ==>
         s[i] == if offset <= i < offset + |d| then d[i - offset] else if i < |s0| then s0[i] else 0
  }

  lemma OverlayWrite(s0: seq<byte>, s: seq<byte>, offset: nat, d: seq<byte>, limit: nat, e: seq<byte>)
    requires Overlaid(s0, s, offset, d, limit) && offset + |d| + |e| <= |s|
    ensures Overlaid(s0, Splice(s, offset + |d|, e), offset, d + e, limit)
  {
  }

  lemma OverlayGrow(s0: seq<byte>, s: seq<byte>, offset: nat, d: seq<byte>, limit: nat, z: seq<byte>, zero: bool)
    requires Overlaid(s0, s, offset, d, limit) && offset + |d| == |s|
    requires zero ==> z == Zeros(|z|)
    ensures Overlaid(s0, s + z, offset, d, if zero then |s| else |s| + |z|)
  {
  }

  lemma OverlayDone(s0: seq<byte>, s: seq<byte>, offset: nat, d: seq<byte>, limit: nat)
    requires Overlaid(s0, s, offset, d, limit) && (limit <= offset + |d| || offset + |d| == |s|)
    ensures s == Splice(Fit(s0, |s|), offset, d)
  {
  }

  lemma OverlayStart(s0: seq<byte>, s: seq<byte>, offset: nat)
    requires s == Fit(s0, |s|) && |s0| <= |s| && offset <= |s|
    ensures Overlaid(s0, s, offset, [], 0)
  {
  }

  // Chain ch of v was continued to ch' and d written at offset; the rest of the
  // stream is the old one, zero-padded.
  ghost predicate Written(v: Volume, v': Volume, ch: seq<nat>, ch': seq<nat>, offset: nat, d: seq<byte>) {
    && ch != [] && Grown(v, v', ch, ch')
    && offset + |d| <= Times(|ch'|, v.bpc)
    && Stream(v', ch') == Splice(Fit(Stream(v, ch), Times(|ch'|, v.bpc)), offset, d)
  }

  lemma GrownWrite(v: Volume, v1: Volume, ch: seq<nat>, ch': seq<nat>, k: nat, off: nat, d: seq<byte>)
    requires Grown(v, v1, ch, ch') && k < |ch'| && off + |d| <= v1.bpc
    ensures v1.InRange(ch'[k]) && |v1.clusters[ch'[k]]| == v1.bpc
    ensures Grown(v, v1.Write(ch'[k], off, d), ch, ch')
  {
    assert IsChain(v1, ch') && v1.InRange(ch'[k]);
    ChainUntouched(v1, v1.Write(ch'[k], off, d), ch');
    assert ch'[k] in ch';
  }
}
