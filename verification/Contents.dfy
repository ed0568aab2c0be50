// What a sequence of writes and truncations means for the bytes a reader sees.

module Contents {
  import opened Bytes
  import opened Geometry
  import opened Streams
  import opened Layouts
  import opened Files
  import opened FileOps

  const WORD := 0x1_0000_0000

  // A file's size fits its chain and its field.
  ghost predicate Sized(n: Node) {
    n.attr.size <= |n.bytes| && n.attr.size < WORD
  }

  // The chain's bytes past the end of the file, up to limit, are zero.
  ghost predicate ZeroTo(n: Node, limit: nat) {
    forall i :: n.attr.size <= i < limit && i < |n.bytes| ==> n.bytes[i] == 0
  }

  ghost predicate SlackZero(n: Node) {
    ZeroTo(n, |n.bytes|)
  }

  // The chain is as long as the size needs.
  ghost predicate Tight(n: Node, b: nat)
    requires b > 0
  {
    |n.bytes| == Times(ClustersFor(n.attr.size, b), b)
  }

  // c with d laid over it at offset, a gap between them filled with zeros.
  function Overlay(c: seq<byte>, offset: nat, d: seq<byte>): (r: seq<byte>)
    ensures |r| == if d == [] then |c| else Max(|c|, offset + |d|)
  {
    if d == [] then c else Splice(Fit(c, Max(|c|, offset + |d|)), offset, d)
  }

  lemma FitCommutes(n: Node, len: nat, size: nat)
    requires Sized(n) && size <= len
    ensures Fit(Fit(n.bytes, len), size) == Fit(Content(n), size) <==> ZeroTo(n, size)
  {
    var l, r := Fit(Fit(n.bytes, len), size), Fit(Content(n), size);
    if ZeroTo(n, size) {
      forall i | 0 <= i < size ensures l[i] == r[i] {
      }
      assert l == r;
    } else {
      var i :| n.attr.size <= i < size && i < |n.bytes| && n.bytes[i] != 0;
      assert l[i] == n.bytes[i] && r[i] == 0;
    }
  }

  // ---- truncating ----

  // A truncation cuts the file or pads it with zeros, exactly when the bytes of the
  // slack that it takes into the file are zero.
  lemma TruncatedContent(n: Node, size: nat, b: nat)
    requires b > 0 && Sized(n) && size < WORD
    ensures Sized(TruncatedNode(n, size, b))
    ensures Content(TruncatedNode(n, size, b)) == Fit(Content(n), size) <==> ZeroTo(n, size)
  {
    hide Times, ClustersFor, Content;
    var len := Times(ClustersFor(size, b), b);
    assert size <= len;
    FitCommutes(n, len, size);
    assert Content(TruncatedNode(n, size, b)) == Fit(Fit(n.bytes, len), size) by {
      ContentIsFit(TruncatedNode(n, size, b));
    }
  }

  lemma ContentIsFit(n: Node)
    ensures Content(n) == Fit(n.bytes, n.attr.size)
  {
  }

  // Slack stays zero when a file grows; when it shrinks, exactly if the bytes that move
  // from the file into the slack of its last cluster are zero.
  lemma TruncatedSlack(n: Node, size: nat, b: nat)
    requires b > 0 && Sized(n) && SlackZero(n) && size < WORD
    ensures SlackZero(TruncatedNode(n, size, b)) <==>
            forall i :: size <= i < n.attr.size && i < Times(ClustersFor(size, b), b) ==> n.bytes[i] == 0
  {
    hide Times, ClustersFor;
    var m := TruncatedNode(n, size, b);
    if SlackZero(m) {
      forall i | size <= i < n.attr.size && i < |m.bytes| ensures n.bytes[i] == 0 {
        assert m.bytes[i] == n.bytes[i];
      }
    }
  }

  lemma TruncatedTight(n: Node, size: nat, b: nat)
    requires b > 0 && size < WORD
    ensures Tight(TruncatedNode(n, size, b), b)
  {
  }

  // ---- writing ----

  // The laying step on its own, the offset being inside the file or at its end.
  lemma LaidContent(n: Node, offset: nat, d: seq<byte>, b: nat)
    requires b > 0 && Sized(n) && offset <= n.attr.size && offset + |d| < WORD
    ensures Sized(Laid(n, offset, d, b)) && Content(Laid(n, offset, d, b)) == Overlay(Content(n), offset, d)
  {
    hide Times, ClustersFor;
    var m := Laid(n, offset, d, b);
    var need := Times(ClustersFor(offset + Max(|d|, 1), b), b);
    assert offset + |d| <= need;
    var l, r := Content(m), Overlay(Content(n), offset, d);
    assert |l| == |r|;
    forall i | 0 <= i < |l| ensures l[i] == r[i] {
    }
  }

  // A write lays its data over the file, closing any gap with zeros, if and only if it
  // stays below 4 GiB where it makes the file longer, is not an empty write past the
  // end, and finds zeros in the slack that it skips.  (Past the end and at 4 GiB - 1 or
  // more a write is refused, see FileOps.Write.)
  lemma WrittenContent(n: Node, offset: nat, d: seq<byte>, b: nat)
    requires b > 0 && Sized(n) && (offset <= n.attr.size || offset + 1 < WORD)
    ensures Content(WrittenNode(n, offset, d, b)) == Overlay(Content(n), offset, d) <==>
            offset + |d| <= n.attr.size
            || (offset + |d| < WORD && (d != [] || offset <= n.attr.size) && ZeroTo(n, offset))
  {
    hide Times, ClustersFor, Content, Overlay;
    ContentLength(WrittenNode(n, offset, d, b));
    ContentLength(n);
    if offset + |d| >= WORD {
      assert |Content(WrittenNode(n, offset, d, b))| < WORD;
    } else if offset <= n.attr.size {
      LaidContent(n, offset, d, b);
    } else {
      GapContent(n, offset, d, b);
    }
  }

  lemma ContentLength(n: Node)
    ensures |Content(n)| == n.attr.size
  {
  }

  lemma GapContent(n: Node, offset: nat, d: seq<byte>, b: nat)
    requires b > 0 && Sized(n) && offset > n.attr.size && offset + |d| < WORD && offset + 1 < WORD
    ensures Content(WrittenNode(n, offset, d, b)) == Overlay(Content(n), offset, d) <==> d != [] && ZeroTo(n, offset)
  {
    hide Times, ClustersFor, Content, Overlay, ZeroTo;
    var m := TruncatedNode(n, offset + 1, b);
    var len := Times(ClustersFor(offset + 1, b), b);
    ContentLength(n);
    ContentLength(m);
    ContentIsFit(m);
    LaidContent(m, offset, d, b);
    FitCommutes(n, len, offset);
    if d != [] {
      OverlayOverGap(Content(n), Content(m), offset, d);
      assert Content(m)[..offset] == Fit(Fit(n.bytes, len), offset);
    }
  }

  lemma OverlayOverGap(c: seq<byte>, c': seq<byte>, offset: nat, d: seq<byte>)
    requires d != [] && |c| <= offset && |c'| == offset + 1
    ensures Overlay(c', offset, d) == Overlay(c, offset, d) <==> c'[..offset] == Fit(c, offset)
  {
    hide Overlay;
    OverlayParts(c', offset, d);
    OverlayParts(c, offset, d);
    assert Fit(c', offset) == c'[..offset];
    AppendSame(Fit(c', offset), Fit(c, offset), d);
  }

  lemma AppendSame(a: seq<byte>, b: seq<byte>, d: seq<byte>)
    requires |a| == |b|
    ensures a + d == b + d <==> a == b
  {
    assert (a + d)[..|a|] == a && (b + d)[..|a|] == b;
  }

  lemma OverlayParts(c: seq<byte>, offset: nat, d: seq<byte>)
    requires d != [] && |c| <= offset + |d|
    ensures Overlay(c, offset, d) == Fit(c, offset) + d
  {
  }

  // What was written is read back, whatever the slack held.
  lemma ReadAfterWrite(n: Node, offset: nat, d: seq<byte>, b: nat)
    requires b > 0 && Sized(n) && d != [] && offset + |d| < WORD
    ensures ReadBack(WrittenNode(n, offset, d, b), offset, |d|) == d
  {
    hide Times, ClustersFor, Content, Overlay, Laid;
    var m := GapClosed(n, offset, b);
    ContentLength(m);
    assert offset + 1 <= Times(ClustersFor(offset + 1, b), b);
    LaidContent(m, offset, d, b);
    ContentLength(Laid(m, offset, d, b));
    OverlayHasData(Content(m), offset, d);
  }

  lemma OverlayHasData(c: seq<byte>, offset: nat, d: seq<byte>)
    requires d != []
    ensures Overlay(c, offset, d)[offset..offset + |d|] == d
  {
  }

  // Reads elsewhere see the old bytes: of the whole file if the write starts in it or at its
  // end, and of what there was of it if the write starts behind, whatever the slack held.
  lemma ReadAroundWrite(n: Node, offset: nat, d: seq<byte>, b: nat, at: nat, size: nat)
    requires b > 0 && Sized(n) && offset + |d| < WORD
    requires offset <= n.attr.size || (offset + 1 < WORD && at + size <= n.attr.size)
    requires at + size <= offset || offset + |d| <= at
    ensures ReadBack(WrittenNode(n, offset, d, b), at, size) == ReadBack(n, at, size)
  {
    hide Times, ClustersFor, Content, Laid;
    ContentLength(n);
    if offset <= n.attr.size {
      LaidContent(n, offset, d, b);
      ContentLength(Laid(n, offset, d, b));
    } else {
      ReadBeforeGap(n, offset, d, b, at, size);
    }
  }

  lemma ReadBeforeGap(n: Node, offset: nat, d: seq<byte>, b: nat, at: nat, size: nat)
    requires b > 0 && Sized(n) && offset + |d| < WORD && offset + 1 < WORD && at + size <= n.attr.size < offset
    ensures ReadBack(WrittenNode(n, offset, d, b), at, size) == ReadBack(n, at, size)
  {
    hide Times, ClustersFor, Content, Laid, Overlay;
    var m := TruncatedNode(n, offset + 1, b);
    assert offset + 1 <= Times(ClustersFor(offset + 1, b), b);
    ContentLength(n);
    ContentLength(m);
    ContentIsFit(n);
    ContentIsFit(m);
    LaidContent(m, offset, d, b);
    ContentLength(Laid(m, offset, d, b));
    OverlayBefore(Content(m), offset, d, at + size);
    assert Content(m)[..n.attr.size] == Content(n);
    assert Content(Laid(m, offset, d, b))[..at + size] == Content(n)[..at + size];
    SliceOfPrefix(Content(Laid(m, offset, d, b)), at + size, at, at + size);
    SliceOfPrefix(Content(n), at + size, at, at + size);
  }

  lemma OverlayBefore(c: seq<byte>, offset: nat, d: seq<byte>, k: nat)
    requires k <= offset && k <= |c|
    ensures |Overlay(c, offset, d)| >= k && Overlay(c, offset, d)[..k] == c[..k]
  {
  }

  // ---- what every write and truncation keeps ----

  lemma GapClosedKeepsSlack(n: Node, offset: nat, b: nat)
    requires b > 0 && Sized(n) && SlackZero(n) && offset + 1 < WORD
    ensures var m := GapClosed(n, offset, b); Sized(m) && SlackZero(m) && offset <= m.attr.size
  {
    hide Times, ClustersFor;
    assert offset + 1 <= Times(ClustersFor(offset + 1, b), b);
  }

  lemma LaidKeepsSlack(n: Node, offset: nat, d: seq<byte>, b: nat)
    requires b > 0 && Sized(n) && SlackZero(n) && offset <= n.attr.size && offset + |d| < WORD
    ensures Sized(Laid(n, offset, d, b)) && SlackZero(Laid(n, offset, d, b))
  {
    hide Times, ClustersFor, Content, Overlay;
    LaidContent(n, offset, d, b);
    var m := Laid(n, offset, d, b);
    forall i | m.attr.size <= i < |m.bytes| ensures m.bytes[i] == 0 {
    }
  }

  lemma WrittenKeepsSlack(n: Node, offset: nat, d: seq<byte>, b: nat)
    requires b > 0 && Sized(n) && SlackZero(n) && offset + |d| < WORD && offset + 1 < WORD
    ensures Sized(WrittenNode(n, offset, d, b)) && SlackZero(WrittenNode(n, offset, d, b))
  {
    hide Times, ClustersFor, GapClosed, Laid, SlackZero;
    GapClosedKeepsSlack(n, offset, b);
    LaidKeepsSlack(GapClosed(n, offset, b), offset, d, b);
  }

  lemma ClustersForMonotone(m: nat, n: nat, b: nat)
    requires b > 0 && m <= n
    ensures ClustersFor(m, b) <= ClustersFor(n, b)
  {
    TimesOrder(ClustersFor(n, b), ClustersFor(m, b) - 1, b);
  }

  // The chain is as long as needed after every write but an empty one exactly at the end
  // of a file that fills its last cluster: that one takes a cluster for nothing.
  lemma WrittenTight(n: Node, offset: nat, d: seq<byte>, b: nat)
    requires b > 0 && Sized(n) && Tight(n, b) && offset + |d| < WORD && offset + 1 < WORD
    ensures Tight(WrittenNode(n, offset, d, b), b) <==>
            !(d == [] && offset == n.attr.size > 0 && n.attr.size == |n.bytes|)
  {
    hide Times, ClustersFor, Content, Overlay;
    var m := GapClosed(n, offset, b);
    assert Tight(m, b) by { if offset > n.attr.size { TruncatedTight(n, offset + 1, b); } }
    LaidTight(m, offset, d, b);
  }

  lemma LaidTight(n: Node, offset: nat, d: seq<byte>, b: nat)
    requires b > 0 && n.attr.size < WORD && Tight(n, b) && offset <= n.attr.size && offset + |d| < WORD
    ensures Tight(Laid(n, offset, d, b), b) <==>
            !(d == [] && offset == n.attr.size > 0 && n.attr.size == |n.bytes|)
  {
    hide Times;
    var size := n.attr.size;
    var end := offset + Max(|d|, 1);
    var cs, ce := ClustersFor(size, b), ClustersFor(end, b);
    if end <= size {
      ClustersForMonotone(end, size, b);
      TimesGrows(ce, cs, b);
    } else {
      ClustersForMonotone(size, end, b);
      TimesGrows(cs, ce, b);
      if d == [] {
        TimesStep(cs, b);
        TimesStep(cs - 1, b);
        if size == Times(cs, b) && size > 0 {
          ClustersForUnique(size + 1, b, cs + 1);
        } else {
          ClustersForUnique(size + 1, b, cs);
        }
      }
    }
  }
}
