// libfatx/ext.c: the word-at-a-time search for the last occurrence of a byte.

module Memrchr {

  const WORD_SIZE := 8

  // "holes" at bits 8, 16, ..., 56 and 63
  const MAGIC: bv64 := 0x7efe_fefe_fefe_feff

  // (magic_bits = -1) / 0xff * 0xfe << 1 >> 1 | 1
  lemma MagicBits()
    ensures ((((0xffff_ffff_ffff_ffff as bv64 / 0xff) * 0xfe) << 1) >> 1) | 1 == MAGIC
  {
  }

  function HoleTest(w: bv64): bv64 {
    ((w + MAGIC) ^ !w) & !MAGIC
  }

  function Pack(b0: bv8, b1: bv8, b2: bv8, b3: bv8, b4: bv8, b5: bv8, b6: bv8, b7: bv8): bv64 {
    (b0 as bv64) | (b1 as bv64 << 8) | (b2 as bv64 << 16) | (b3 as bv64 << 24)
    | (b4 as bv64 << 32) | (b5 as bv64 << 40) | (b6 as bv64 << 48) | (b7 as bv64 << 56)
  }

  // charmask, with the widening step and without, when it covers the low four bytes only
  function WideMask(c: bv8): bv64 {
    var m2 := (c as bv64) | (c as bv64 << 8);
    var m4 := m2 | (m2 << 16);
    m4 | (m4 << 32)
  }

  function NarrowMask(c: bv8): bv64 {
    var m2 := (c as bv64) | (c as bv64 << 8);
    m2 | (m2 << 16)
  }

  function CharMask(c: bv8, wide: bool): bv64 {
    if wide then WideMask(c) else NarrowMask(c)
  }

  // Byte i of a word, left in its place.
  function ByteAt(w: bv64, i: nat): bv64 {
    if i == 0 then w & 0xff
    else if i == 1 then w & 0xff00
    else if i == 2 then w & 0xff_0000
    else if i == 3 then w & 0xff00_0000
    else if i == 4 then w & 0xff_0000_0000
    else if i == 5 then w & 0xff00_0000_0000
    else if i == 6 then w & 0xff_0000_0000_0000
    else w & 0xff00_0000_0000_0000
  }

  function Placed(b: bv8, i: nat): bv64 {
    if i == 0 then b as bv64
    else if i == 1 then b as bv64 << 8
    else if i == 2 then b as bv64 << 16
    else if i == 3 then b as bv64 << 24
    else if i == 4 then b as bv64 << 32
    else if i == 5 then b as bv64 << 40
    else if i == 6 then b as bv64 << 48
    else b as bv64 << 56
  }

  function PackSeq(b: seq<bv8>): bv64
    requires |b| == WORD_SIZE
  {
    Pack(b[0], b[1], b[2], b[3], b[4], b[5], b[6], b[7])
  }

  // The word at a place in memory, on a little-endian host.
  function Load(s: seq<bv8>, at: nat): bv64
    requires at + WORD_SIZE <= |s|
  {
    PackSeq(s[at..at + WORD_SIZE])
  }

  lemma PackedByte(b: seq<bv8>, i: nat)
    requires |b| == WORD_SIZE && i < 8
    ensures ByteAt(PackSeq(b), i) == Placed(b[i], i)
  {
    hide Pack, ByteAt, Placed;
    PackedScalar(b[0], b[1], b[2], b[3], b[4], b[5], b[6], b[7], i);
  }

  lemma PackedScalar(b0: bv8, b1: bv8, b2: bv8, b3: bv8, b4: bv8, b5: bv8, b6: bv8, b7: bv8, i: nat)
    requires i < 8
    ensures ByteAt(Pack(b0, b1, b2, b3, b4, b5, b6, b7), i) ==
            Placed(if i == 0 then b0 else if i == 1 then b1 else if i == 2 then b2 else if i == 3 then b3
                   else if i == 4 then b4 else if i == 5 then b5 else if i == 6 then b6 else b7, i)
  {
    hide Pack, ByteAt, Placed;
    PackedLow(b0, b1, b2, b3, b4, b5, b6, b7);
    PackedHigh(b0, b1, b2, b3, b4, b5, b6, b7);
  }

  lemma PackedLow(b0: bv8, b1: bv8, b2: bv8, b3: bv8, b4: bv8, b5: bv8, b6: bv8, b7: bv8)
    ensures ByteAt(Pack(b0, b1, b2, b3, b4, b5, b6, b7), 0) == Placed(b0, 0)
    ensures ByteAt(Pack(b0, b1, b2, b3, b4, b5, b6, b7), 1) == Placed(b1, 1)
    ensures ByteAt(Pack(b0, b1, b2, b3, b4, b5, b6, b7), 2) == Placed(b2, 2)
    ensures ByteAt(Pack(b0, b1, b2, b3, b4, b5, b6, b7), 3) == Placed(b3, 3)
  {
  }

  lemma PackedHigh(b0: bv8, b1: bv8, b2: bv8, b3: bv8, b4: bv8, b5: bv8, b6: bv8, b7: bv8)
    ensures ByteAt(Pack(b0, b1, b2, b3, b4, b5, b6, b7), 4) == Placed(b4, 4)
    ensures ByteAt(Pack(b0, b1, b2, b3, b4, b5, b6, b7), 5) == Placed(b5, 5)
    ensures ByteAt(Pack(b0, b1, b2, b3, b4, b5, b6, b7), 6) == Placed(b6, 6)
    ensures ByteAt(Pack(b0, b1, b2, b3, b4, b5, b6, b7), 7) == Placed(b7, 7)
  {
  }

  lemma MasksArePacked(c: bv8)
    ensures WideMask(c) == PackSeq([c, c, c, c, c, c, c, c]) && NarrowMask(c) == PackSeq([c, c, c, c, 0, 0, 0, 0])
  {
  }

  // Where two words agree in a byte their difference passes the test.
  lemma AgreementFound(x: bv64, y: bv64, i: nat)
    requires i < 8 && ByteAt(x, i) == ByteAt(y, i)
    ensures HoleTest(x ^ y) != 0
  {
    hide HoleTest;
    Cancel(x, y, i);
    ZeroByteFound(x ^ y, i);
  }

  lemma Cancel(x: bv64, y: bv64, i: nat)
    requires i < 8 && ByteAt(x, i) == ByteAt(y, i)
    ensures ByteAt(x ^ y, i) == 0
  {
  }

  // A word with a zero byte passes the test.
  lemma ZeroByteFound(w: bv64, i: nat)
    requires i < 8 && ByteAt(w, i) == 0
    ensures HoleTest(w) != 0
  {
  }

  // How many bytes of a word are compared one by one after a hit.
  function Compared(wide: bool): nat {
    if wide then 8 else 4
  }

  // The test passes every word that has c among the bytes compared after it.
  lemma TestMissesNothing(s: seq<bv8>, at: nat, c: bv8, wide: bool, i: nat)
    requires at + WORD_SIZE <= |s| && i < Compared(wide) && s[at + i] == c
    ensures HoleTest(Load(s, at) ^ CharMask(c, wide)) != 0
  {
    hide PackSeq, WideMask, NarrowMask, HoleTest, ByteAt, Placed;
    var b, m := s[at..at + WORD_SIZE], if wide then [c, c, c, c, c, c, c, c] else [c, c, c, c, 0, 0, 0, 0];
    MasksArePacked(c);
    PackedByte(b, i);
    PackedByte(m, i);
    AgreementFound(Load(s, at), CharMask(c, wide), i);
  }

  // ---- the search ----

  // The last index below n that holds c, or -1.
  function LastIndex(s: seq<bv8>, n: nat, c: bv8): (r: int)
    requires n <= |s|
    ensures -1 <= r < n && (r >= 0 ==> s[r] == c)
    ensures forall j :: r < j < n ==> s[j] != c
  {
    if n == 0 then -1 else if s[n - 1] == c then n - 1 else LastIndex(s, n - 1, c)
  }

  // How far the address of index p is past a word boundary.
  function Past(addr: nat, p: nat): (r: nat)
    ensures r < WORD_SIZE
  {
    (addr + p) % WORD_SIZE
  }

  lemma PastStep(addr: nat, p: nat)
    requires p > 0 && Past(addr, p) > 0
    ensures Past(addr, p - 1) == Past(addr, p) - 1
  {
  }

  // Where the bytewise scan from the end meets a word boundary, s lying at address addr.
  function TailStart(n: nat, addr: nat): (e: nat)
    ensures e <= n
  {
    if Past(addr, n) <= n then n - Past(addr, n) else 0
  }

  // Index j is compared with c if its word passes the test: with the narrow mask only
  // the low half of every whole word is.
  predicate Visible(n: nat, addr: nat, wide: bool, j: nat) {
    var e := TailStart(n, addr);
    wide || j >= e || j < Past(0, e) || Past(addr, j) < Compared(wide)
  }

  // Not compared are, with the narrow mask, the upper halves of the aligned words that are
  // inside as a whole.
  lemma SkippedAre(n: nat, addr: nat, j: nat)
    requires j < n
    ensures !Visible(n, addr, false, j) <==>
            exists w: nat :: Past(addr, w) == 0 && w + 8 <= n && w + 4 <= j < w + 8
  {
    hide Visible, Past;
    if !Visible(n, addr, false, j) {
      SkippedWord(n, addr, j);
    }
    forall w: nat | Past(addr, w) == 0 && w + 8 <= n && w + 4 <= j < w + 8 ensures !Visible(n, addr, false, j) {
      UpperHalf(n, addr, j, w);
    }
  }

  lemma SkippedWord(n: nat, addr: nat, j: nat)
    requires j < n && !Visible(n, addr, false, j)
    ensures var w: int := j - Past(addr, j); w >= 0 && Past(addr, w) == 0 && w + 8 <= n && w + 4 <= j < w + 8
  {
    var e, q, m := TailStart(n, addr), (addr + j) / 8, (addr + n) / 8;
    var w: int, t := j - Past(addr, j), e / 8;
    assert addr + w == 8 * q && addr + e == 8 * m && q < m;
    assert e == 8 * t + Past(0, e) && w == 8 * (t - (m - q)) + Past(0, e);
  }

  lemma UpperHalf(n: nat, addr: nat, j: nat, w: nat)
    requires Past(addr, w) == 0 && w + 8 <= n && w + 4 <= j < w + 8
    ensures !Visible(n, addr, false, j)
  {
    var e, q, m := TailStart(n, addr), (addr + w) / 8, (addr + n) / 8;
    var t := e / 8;
    assert addr + w == 8 * q && addr + e == 8 * m && q < m;
    assert e == 8 * t + Past(0, e) && w == 8 * (t - (m - q)) + Past(0, e);
    assert addr + j == 8 * q + (j - w);
  }

  // Position p, reached from the tail by whole words.
  predicate AtWord(n: nat, addr: nat, p: nat) {
    var e := TailStart(n, addr);
    p <= e && Past(0, p) == Past(0, e) && (p > 0 ==> Past(addr, p) == 0)
  }

  lemma TailMet(n: nat, addr: nat, p: nat)
    requires p <= n && n - p <= Past(addr, n) && (p == 0 || n - p == Past(addr, n))
    ensures p == TailStart(n, addr) && AtWord(n, addr, p)
    decreases n - p
  {
    assert p > 0 ==> (addr + n) - Past(addr, n) == addr + p;
  }

  lemma NextWord(n: nat, addr: nat, p: nat)
    requires WORD_SIZE <= p && AtWord(n, addr, p)
    ensures AtWord(n, addr, p - WORD_SIZE)
  {
  }

  // Which bytes of the word that ends at p are compared.
  lemma WordVisible(n: nat, addr: nat, wide: bool, p: nat, j: nat)
    requires WORD_SIZE <= p && AtWord(n, addr, p) && p - WORD_SIZE <= j < p
    ensures Visible(n, addr, wide, j) <==> j < p - WORD_SIZE + Compared(wide)
  {
    assert Past(addr, j) == j - (p - WORD_SIZE);
    WordIsNoHead(p, TailStart(n, addr));
  }

  lemma WordIsNoHead(p: nat, e: nat)
    requires WORD_SIZE <= p <= e && Past(0, p) == Past(0, e)
    ensures Past(0, e) <= p - WORD_SIZE
  {
  }

  lemma HeadVisible(n: nat, addr: nat, wide: bool, p: nat, j: nat)
    requires p < WORD_SIZE && AtWord(n, addr, p) && j < p
    ensures Visible(n, addr, wide, j)
  {
  }

  lemma TailVisible(n: nat, addr: nat, wide: bool, p: nat)
    requires p < n && n - p <= Past(addr, n)
    ensures Visible(n, addr, wide, p)
  {
  }

  // __memrchr on the n bytes of s at address addr.  wide says that LONG_MAX is known to
  // be that of 64 bits; words have 64 bits in any case.
  method Search(s: seq<bv8>, n: nat, addr: nat, c: bv8, wide: bool) returns (r: int)
    requires n <= |s|
    ensures -1 <= r < n && (r >= 0 ==> s[r] == c && Visible(n, addr, wide, r))
    ensures forall j :: r < j < n && Visible(n, addr, wide, j) ==> s[j] != c
  {
    hide HoleTest, CharMask, PackSeq, Visible, TailStart, Past, AtWord;
    var p: nat := n;
    while p > 0 && Past(addr, p) != 0
      invariant p <= n && Past(addr, p) == Past(addr, n) - (n - p)
      invariant forall j :: p <= j < n ==> s[j] != c
    {
      PastStep(addr, p);
      p := p - 1;
      if s[p] == c {
        TailVisible(n, addr, wide, p);
        return p;
      }
    }
    TailMet(n, addr, p);
    while p >= WORD_SIZE
      invariant p <= n && AtWord(n, addr, p)
      invariant forall j :: p <= j < n && Visible(n, addr, wide, j) ==> s[j] != c
    {
      r := SearchWord(s, p - WORD_SIZE, c, wide);
      forall j | p - WORD_SIZE <= j < p
        ensures Visible(n, addr, wide, j) <==> j < p - WORD_SIZE + Compared(wide)
      {
        WordVisible(n, addr, wide, p, j);
      }
      if r >= 0 {
        return;
      }
      NextWord(n, addr, p);
      p := p - WORD_SIZE;
    }
    ghost var head := p;
    while p > 0
      invariant p <= head <= n
      invariant forall j :: p <= j < n && Visible(n, addr, wide, j) ==> s[j] != c
    {
      p := p - 1;
      if s[p] == c {
        HeadVisible(n, addr, wide, head, p);
        return p;
      }
    }
    r := -1;
  }

  // one word: the test, then its bytes from the last compared one down
  method SearchWord(s: seq<bv8>, at: nat, c: bv8, wide: bool) returns (r: int)
    requires at + WORD_SIZE <= |s|
    ensures r == -1 || (at <= r < at + Compared(wide) && s[r] == c)
    ensures forall j :: at <= j < at + Compared(wide) && r < j ==> s[j] != c
  {
    hide HoleTest, CharMask, PackSeq;
    var longword := Load(s, at) ^ CharMask(c, wide);
    forall j | at <= j < at + Compared(wide) && s[j] == c ensures HoleTest(longword) != 0 {
      TestMissesNothing(s, at, c, wide, j - at);
    }
    if HoleTest(longword) != 0 {
      if wide {
        if s[at + 7] == c { return at + 7; }
        if s[at + 6] == c { return at + 6; }
        if s[at + 5] == c { return at + 5; }
        if s[at + 4] == c { return at + 4; }
      }
      if s[at + 3] == c { return at + 3; }
      if s[at + 2] == c { return at + 2; }
      if s[at + 1] == c { return at + 1; }
      if s[at] == c { return at; }
    }
    r := -1;
  }

  // With words of known width the search is the naive one; with the narrow mask it is
  // exactly when the last occurrence, if any, is one of the bytes it compares.
  lemma SearchIsLast(s: seq<bv8>, n: nat, addr: nat, c: bv8, wide: bool, r: int)
    requires n <= |s| && -1 <= r < n && (r >= 0 ==> s[r] == c && Visible(n, addr, wide, r))
    requires forall j :: r < j < n && Visible(n, addr, wide, j) ==> s[j] != c
    ensures wide ==> r == LastIndex(s, n, c)
    ensures r == LastIndex(s, n, c) <==> LastIndex(s, n, c) == -1 || Visible(n, addr, wide, LastIndex(s, n, c))
  {
    hide LastIndex, TailStart, Past;
    var l := LastIndex(s, n, c);
    LastIndexIs(s, n, c);
  }

  lemma LastIndexIs(s: seq<bv8>, n: nat, c: bv8)
    requires n <= |s|
    ensures var r := LastIndex(s, n, c); -1 <= r < n && (r >= 0 ==> s[r] == c) && forall j :: r < j < n ==> s[j] != c
  {
  }

  // The narrow search does miss: a match in the upper half of the first word.
  lemma NarrowMisses(c: bv8)
    requires c != 0
    ensures var s := [0, 0, 0, 0, 0, 0, c, 0];
      LastIndex(s, 8, c) == 6 && !Visible(8, 0, false, 6) && forall j: nat ::
        j < 8 && Visible(8, 0, false, j) ==> s[j] != c
  {
    var s := [0, 0, 0, 0, 0, 0, c, 0];
    assert LastIndex(s, 7, c) == 6;
  }
}
