// Bytes, fixed-width words and the splice operation that every device write performs.

module Bytes {

  type byte = x: int | 0 <= x < 256
  type u16 = x: int | 0 <= x < 0x1_0000
  type u32 = x: int | 0 <= x < 0x1_0000_0000

  // s with the bytes from position at on replaced by d.
  function Splice<T>(s: seq<T>, at: nat, d: seq<T>): (r: seq<T>)
    requires at + |d| <= |s|
    ensures |r| == |s|
    ensures forall i :: 0 <= i < |s| ==> r[i] == if at <= i < at + |d| then d[i - at] else s[i]
  {
    s[..at] + d + s[at + |d|..]
  }

  lemma SpliceOutside<T>(s: seq<T>, at: nat, d: seq<T>, a: nat, b: nat)
    requires at + |d| <= |s| && a <= b <= |s|
    requires b <= at || at + |d| <= a
    ensures Splice(s, at, d)[a..b] == s[a..b]
  {
  }

  lemma SpliceInside<T>(s: seq<T>, at: nat, d: seq<T>, a: nat, b: nat)
    requires a <= at && at + |d| <= b <= |s|
    ensures Splice(s, at, d)[a..b] == Splice(s[a..b], at - a, d)
  {
  }

  lemma SpliceCovers<T>(s: seq<T>, at: nat, d: seq<T>, a: nat, b: nat)
    requires at <= a <= b <= at + |d| <= |s|
    ensures Splice(s, at, d)[a..b] == d[a - at..b - at]
  {
    var l, r := Splice(s, at, d)[a..b], d[a - at..b - at];
    forall i | 0 <= i < b - a ensures l[i] == r[i] {
    }
  }

  lemma SpliceLeft<T>(s: seq<T>, t: seq<T>, at: nat, d: seq<T>)
    requires at + |d| <= |s|
    ensures Splice(s + t, at, d) == Splice(s, at, d) + t
  {
  }

  lemma SpliceRight<T>(s: seq<T>, t: seq<T>, at: nat, d: seq<T>)
    requires at + |d| <= |t|
    ensures Splice(s + t, |s| + at, d) == s + Splice(t, at, d)
  {
  }

  // Bytes arriving in a buffer.
  method Store(buf: array<byte>, at: nat, data: seq<byte>)
    requires at + |data| <= buf.Length
    modifies buf
    ensures buf[..] == Splice(old(buf[..]), at, data)
  {
    forall i | 0 <= i < |data| {
      buf[at + i] := data[i];
    }
  }

  lemma SliceConcat<T>(s: seq<T>, a: nat, b: nat, c: nat)
    requires a <= b <= c <= |s|
    ensures s[a..b] + s[b..c] == s[a..c]
  {
  }

  lemma SliceOfPrefix<T>(s: seq<T>, n: nat, a: nat, b: nat)
    requires a <= b <= n <= |s|
    ensures s[..n][a..b] == s[a..b]
  {
  }

  lemma SplicePrefix<T>(s: seq<T>, d: seq<T>)
    requires |d| <= |s|
    ensures Splice(s, 0, d)[..|d|] == d
  {
  }

  lemma SpliceOn<T>(s: seq<T>, d: seq<T>, e: seq<T>)
    requires |d| + |e| <= |s|
    ensures Splice(Splice(s, 0, d), |d|, e) == Splice(s, 0, d + e)
  {
  }

  function Zeros(n: nat): (r: seq<byte>)
    ensures |r| == n
    ensures forall i :: 0 <= i < n ==> r[i] == 0
  {
    seq(n, _ => 0)
  }

  // The little-endian bytes of a word, and the word back from them.
  function Bytes16(x: u16): (b: seq<byte>)
    ensures |b| == 2
  {
    [x % 256, x / 256]
  }

  function Word16(b: seq<byte>): (x: u16)
    requires |b| == 2
  {
    b[0] as int + 256 * (b[1] as int)
  }

  function Bytes32(x: u32): (b: seq<byte>)
    ensures |b| == 4
  {
    [x % 256, x / 256 % 256, x / 65536 % 256, x / 16777216]
  }

  function Word32(b: seq<byte>): (x: u32)
    requires |b| == 4
  {
    b[0] as int + 256 * (b[1] as int) + 65536 * (b[2] as int) + 16777216 * (b[3] as int)
  }

  lemma WordOfBytes16(x: u16)
    ensures Word16(Bytes16(x)) == x
  {
  }

  lemma BytesOfWord16(b: seq<byte>)
    requires |b| == 2
    ensures Bytes16(Word16(b)) == b
  {
  }

  lemma WordOfBytes32(x: u32)
    ensures Word32(Bytes32(x)) == x
  {
    var q1, q2 := x / 256, x / 256 / 256;
    assert x / 65536 == q2 && x / 16777216 == q2 / 256;
    assert x == q1 * 256 + x % 256 && q1 == q2 * 256 + q1 % 256 && q2 == q2 / 256 * 256 + q2 % 256;
  }

  lemma BytesOfWord32(b: seq<byte>)
    requires |b| == 4
    ensures Bytes32(Word32(b)) == b
  {
    var x: int, b1: int, b2: int, b3: int := Word32(b), b[1], b[2], b[3];
    assert x / 256 == b1 + 256 * b2 + 65536 * b3;
    assert x / 65536 == b2 + 256 * b3;
    assert x / 16777216 == b3;
  }

  // __builtin_bswap16 and __builtin_bswap32.
  function Swap16(x: u16): (y: u16)
    ensures Bytes16(y) == [Bytes16(x)[1], Bytes16(x)[0]]
  {
    var b := Bytes16(x);
    BytesOfWord16([b[1], b[0]]);
    Word16([b[1], b[0]])
  }

  function Swap32(x: u32): (y: u32)
    ensures Bytes32(y) == [Bytes32(x)[3], Bytes32(x)[2], Bytes32(x)[1], Bytes32(x)[0]]
  {
    var b := Bytes32(x);
    BytesOfWord32([b[3], b[2], b[1], b[0]]);
    Word32([b[3], b[2], b[1], b[0]])
  }

  lemma Swap16Involution(x: u16)
    ensures Swap16(Swap16(x)) == x
  {
    WordOfBytes16(x);
  }

  lemma Swap32Involution(x: u32)
    ensures Swap32(Swap32(x)) == x
  {
    var y := Swap32(x);
    assert Bytes32(Swap32(y)) == Bytes32(x);
    WordOfBytes32(x);
    WordOfBytes32(Swap32(y));
  }
}
