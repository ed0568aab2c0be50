// The 64-byte directory entry: timestamps, byte order, slot order.

module Codec {
  import opened Bytes
  import opened Endian

  const MAX_NAME := 42
  const DIRENT_SIZE := 64
  const DELETED: byte := 0xe5
  const END_OF_DIR: byte := 0xff
  const END_OF_DIR2: byte := 0x00
  const ATTR_DIRECTORY: byte := 16

  // struct fatx_ts
  datatype Ts = Ts(year: u16, month: byte, day: byte, hour: byte, minute: byte, second: byte)

  // struct fatx_attr; the name is the C string, without its terminator
  datatype Attr = Attr(name: seq<byte>, attributes: byte, first: nat, size: nat, modified: Ts, created: Ts,
    accessed: Ts) {
    predicate IsDirectory() {
      attributes / 16 % 2 == 1
    }
  }

  // ---- dates and times ----

  function Epoch(variant: Variant): u16 {
    if variant.X360? then 1980 else 2000
  }

  function PackDate(variant: Variant, ts: Ts): u16 {
    ts.day % 32 + (ts.month % 16) * 32 + ((ts.year as int - Epoch(variant) as int) % 128) * 512
  }

  function PackTime(variant: Variant, ts: Ts): u16 {
    if variant.X360?
    then (ts.second / 2) % 32 + (ts.minute % 64) * 32 + (ts.hour % 32) * 2048
    else (ts.second / 2) % 32 + (ts.minute % 32) * 32 + (ts.hour % 16) * 2048
  }

  function UnpackTs(variant: Variant, date: u16, time: u16): Ts {
    Ts(date / 512 % 128 + Epoch(variant), date / 32 % 16, date % 32,
       if variant.X360? then time / 2048 % 32 else time / 2048 % 16,
       if variant.X360? then time / 32 % 64 else time / 32 % 32,
       time % 32 * 2)
  }

  // The stamp that comes back after one was stored.
  function StoredTs(variant: Variant, ts: Ts): Ts {
    Ts((ts.year as int - Epoch(variant) as int) % 128 + Epoch(variant), ts.month % 16, ts.day % 32,
       if variant.X360? then ts.hour % 32 else ts.hour % 16,
       if variant.X360? then ts.minute % 64 else ts.minute % 32,
       ts.second / 2 % 32 * 2)
  }

  predicate Representable(variant: Variant, ts: Ts) {
    && Epoch(variant) <= ts.year < Epoch(variant) + 128
    && ts.month < 16 && ts.day < 32
    && ts.hour < (if variant.X360? then 32 else 16) && ts.minute < (if variant.X360? then 64 else 32)
    && ts.second < 64 && ts.second % 2 == 0
  }

  lemma UnpackAfterPack(variant: Variant, ts: Ts)
    ensures UnpackTs(variant, PackDate(variant, ts), PackTime(variant, ts)) == StoredTs(variant, ts)
    ensures StoredTs(variant, ts) == ts <==> Representable(variant, ts)
  {
    DateFields(variant, ts);
    TimeFields(variant, ts);
    StoredIffRepresentable(variant, ts);
    hide PackDate, PackTime, Representable;
  }

  lemma DateFields(variant: Variant, ts: Ts)
    ensures var d := PackDate(variant, ts);
      d % 32 == ts.day % 32 && d / 32 % 16 == ts.month % 16
      && d / 512 % 128 == (ts.year as int - Epoch(variant) as int) % 128
  {
    var y := (ts.year as int - Epoch(variant) as int) % 128;
    DigitsOf(ts.day % 32, ts.month % 16, y, 16);
  }

  lemma TimeFields(variant: Variant, ts: Ts)
    ensures var t := PackTime(variant, ts);
      && t % 32 == ts.second / 2 % 32
      && (variant.X360? ==> t / 32 % 64 == ts.minute % 64 && t / 2048 % 32 == ts.hour % 32)
      && (variant.Xbox? ==> t / 32 % 32 == ts.minute % 32 && t / 2048 % 16 == ts.hour % 16)
  {
    if variant.X360? {
      SmallTime(ts.second / 2 % 32, ts.minute % 64, ts.hour % 32, 64, 32);
    } else {
      SmallTime(ts.second / 2 % 32, ts.minute % 32, ts.hour % 16, 32, 16);
    }
  }

  // Hour, minute and half second out of a packed time, the minute in mw values.
  lemma SmallTime(s: nat, m: nat, h: nat, mw: nat, hw: nat)
    requires s < 32 && m < mw && h < hw && ((mw == 64 && hw == 32) || (mw == 32 && hw == 16))
    ensures var t := s + m * 32 + h * 2048; t % 32 == s && t / 32 % mw == m && t / 2048 % hw == h
  {
    Digits64(s, m, h);
    LowDigit(m, h);
  }

  lemma LowDigit(b: nat, c: nat)
    ensures (b + c * 64) % 32 == b % 32
  {
    var q, r := b / 32, b % 32;
    assert b + c * 64 == 32 * (q + 2 * c) + r;
  }

  lemma StoredIffRepresentable(variant: Variant, ts: Ts)
    ensures StoredTs(variant, ts) == ts <==> Representable(variant, ts)
  {
  }

  lemma DigitsOf(a: nat, b: nat, c: nat, m: nat)
    requires a < 32 && (m == 16 || m == 64) && b < m
    ensures var x := a + b * 32 + c * 32 * m; x % 32 == a && x / 32 == b + c * m && x / 32 % m == b && x / (32 * m) == c
  {
    if m == 16 {
      Digits16(a, b, c);
    } else {
      Digits64(a, b, c);
    }
  }

  lemma Digits16(a: nat, b: nat, c: nat)
    requires a < 32 && b < 16
    ensures var x := a + b * 32 + c * 512; x % 32 == a && x / 32 == b + c * 16 && x / 32 % 16 == b && x / 512 == c
  {
  }

  lemma Digits64(a: nat, b: nat, c: nat)
    requires a < 32 && b < 64
    ensures var x := a + b * 32 + c * 2048; x % 32 == a && x / 32 == b + c * 64 && x / 32 % 64 == b && x / 2048 == c
  {
  }

  // On raw stamps: packing undoes unpacking for every date, for every Xbox 360
  // time, and for original Xbox times exactly when bits 15 and 10 are clear.
  lemma PackAfterUnpack(variant: Variant, date: u16, time: u16)
    ensures PackDate(variant, UnpackTs(variant, date, time)) == date
    ensures PackTime(variant, UnpackTs(variant, date, time)) == time
            <==> (variant.X360? || (time / 32768 == 0 && time / 1024 % 2 == 0))
  {
    RepackDate(variant, date, time);
    RepackTime(variant, date, time);
  }

  lemma RepackDate(variant: Variant, date: u16, time: u16)
    ensures PackDate(variant, UnpackTs(variant, date, time)) == date
  {
    assert date / 32 == date / 512 * 16 + date / 32 % 16;
  }

  lemma RepackTime(variant: Variant, date: u16, time: u16)
    ensures PackTime(variant, UnpackTs(variant, date, time)) == time
            <==> (variant.X360? || (time / 32768 == 0 && time / 1024 % 2 == 0))
  {
    if variant.X360? {
      RepackTimeX360(date, time);
    } else {
      RepackTimeXbox(date, time);
    }
  }

  lemma RepackTimeX360(date: u16, time: u16)
    ensures PackTime(X360, UnpackTs(X360, date, time)) == time
  {
    assert time / 32 == time / 2048 * 64 + time / 32 % 64;
  }

  lemma RepackTimeXbox(date: u16, time: u16)
    ensures PackTime(Xbox, UnpackTs(Xbox, date, time)) + time / 1024 % 2 * 1024 + time / 32768 * 32768 == time
  {
    XboxTimeDigits(time);
    XboxTimeTwice(time % 32, time / 32 % 32, time / 2048 % 16);
  }

  lemma XboxTimeTwice(s: nat, m: nat, h: nat)
    requires s < 32 && m < 32 && h < 16
    ensures s * 2 / 2 % 32 + m % 32 * 32 + h % 16 * 2048 == s + m * 32 + h * 2048
  {
    Halved(s);
  }

  lemma Halved(a: nat)
    requires a < 32
    ensures a * 2 / 2 % 32 == a
  {
  }

  // The original Xbox's narrower fields drop bits 15 and 10.
  lemma XboxTimeDigits(t: u16)
    ensures t == t % 32 + t / 32 % 32 * 32 + t / 2048 % 16 * 2048 + t / 1024 % 2 * 1024 + t / 32768 * 32768
  {
    var q1 := t / 32;
    var q2 := q1 / 32;
    var q3 := q2 / 2;
    DivDiv(t);
    assert t == q1 * 32 + t % 32;
    assert q1 == q2 * 32 + q1 % 32;
    assert q2 == q3 * 2 + q2 % 2;
    assert q3 == q3 / 16 * 16 + q3 % 16;
  }

  lemma DivDiv(t: nat)
    ensures t / 1024 == t / 32 / 32 && t / 2048 == t / 32 / 32 / 2 && t / 32768 == t / 32 / 32 / 2 / 16
  {
  }

  // ---- directory entries ----

  // The C string held in a buffer: the bytes before the first NUL.
  function CString(s: seq<byte>): (r: seq<byte>)
    ensures |r| <= |s| && r == s[..|r|]
    ensures 0 !in r
    ensures |r| < |s| ==> s[|r|] == 0
  {
    if s == [] || s[0] == 0 then [] else [s[0]] + CString(s[1..])
  }

  lemma {:induction false} CStringWhole(s: seq<byte>)
    requires 0 !in s
    ensures CString(s) == s
  {
    if s != [] { CStringWhole(s[1..]); }
  }

  // A name the engine can store and find again.
  predicate GoodName(name: seq<byte>) {
    1 <= |name| <= MAX_NAME && 0 !in name
  }

  function Padding(n: nat): (r: seq<byte>)
    ensures |r| == n && forall i :: 0 <= i < n ==> r[i] == 0xff
  {
    seq(n, _ => 0xff)
  }

  // fatx_pack_timestamp and fatx_unpack_timestamp
  function PackPair(variant: Variant, ts: Ts): (p: seq<byte>)
    ensures |p| == 4
  {
    var date, time := Bytes16(ToDisk16(variant, PackDate(variant, ts))),
        Bytes16(ToDisk16(variant, PackTime(variant, ts)));
    if variant.X360? then date + time else time + date
  }

  function UnpackPair(variant: Variant, p: seq<byte>): Ts
    requires |p| == 4
  {
    var slot0, slot1 := FromDisk16(variant, Word16(p[..2])), FromDisk16(variant, Word16(p[2..]));
    if variant.X360? then UnpackTs(variant, slot0, slot1) else UnpackTs(variant, slot1, slot0)
  }

  lemma UnpackAfterPackPair(variant: Variant, ts: Ts)
    ensures UnpackPair(variant, PackPair(variant, ts)) == StoredTs(variant, ts)
  {
    hide PackDate, PackTime, UnpackTs, Bytes16, Word16, FromDisk16;
    var date, time := ToDisk16(variant, PackDate(variant, ts)), ToDisk16(variant, PackTime(variant, ts));
    var p := PackPair(variant, ts);
    assert p[..2] == Bytes16(if variant.X360? then date else time);
    assert p[2..] == Bytes16(if variant.X360? then time else date);
    WordOfBytes16(date);
    WordOfBytes16(time);
    DiskRoundTrip16(variant, PackDate(variant, ts));
    DiskRoundTrip16(variant, PackTime(variant, ts));
    UnpackAfterPack(variant, ts);
  }

  // The word in the 2 or 4 bytes at a place of a sequence: the Xbox 360 has the high byte
  // first, the Xbox the low one.
  function Word2(variant: Variant, b: seq<byte>, at: nat): nat
    requires at + 2 <= |b|
  {
    if variant.X360? then b[at] as nat * 256 + b[at + 1] as nat else b[at] as nat + b[at + 1] as nat * 256
  }

  function Word4(variant: Variant, b: seq<byte>, at: nat): nat
    requires at + 4 <= |b|
  {
    if variant.X360? then Word2(variant, b, at) * 65536 + Word2(variant, b, at + 2)
    else Word2(variant, b, at) + Word2(variant, b, at + 2) * 65536
  }

  lemma Word2At(variant: Variant, x: u16, b: seq<byte>, at: nat)
    requires at + 2 <= |b| && b[at..at + 2] == Bytes16(ToDisk16(variant, x))
    ensures Word2(variant, b, at) == x
  {
    assert b[at] == b[at..at + 2][0] && b[at + 1] == b[at..at + 2][1];
    WordOfBytes16(x);
  }

  lemma Word4At(variant: Variant, x: u32, b: seq<byte>, at: nat)
    requires at + 4 <= |b| && b[at..at + 4] == Bytes32(ToDisk32(variant, x))
    ensures Word4(variant, b, at) == x
  {
    var c := b[at..at + 4];
    assert b[at] == c[0] && b[at + 1] == c[1] && b[at + 2] == c[2] && b[at + 3] == c[3];
    WordOfBytes32(x);
  }

  lemma Word4Reads(variant: Variant, b: seq<byte>, at: nat)
    requires at + 4 <= |b|
    ensures Word4(variant, b, at) == FromDisk32(variant, Word32(b[at..at + 4]))
  {
    var c := b[at..at + 4];
    assert b[at] == c[0] && b[at + 1] == c[1] && b[at + 2] == c[2] && b[at + 3] == c[3];
    BytesOfWord32(c);
  }

  // fatx_attr_to_dirent on a buffer of 0xff
  function Encode(variant: Variant, a: Attr): (b: seq<byte>)
    requires |a.name| <= MAX_NAME
    ensures |b| == DIRENT_SIZE && b[0] == |a.name|
  {
    [|a.name|, a.attributes] + a.name + Padding(MAX_NAME - |a.name|)
    + Bytes32(ToDisk32(variant, a.first % 0x1_0000_0000)) + Bytes32(ToDisk32(variant, a.size % 0x1_0000_0000))
    + PackPair(variant, a.modified) + PackPair(variant, a.created) + PackPair(variant, a.accessed)
  }

  // fatx_dirent_to_attr
  function Decode(variant: Variant, b: seq<byte>): (a: Attr)
    requires |b| == DIRENT_SIZE && b[0] <= MAX_NAME
    ensures |a.name| <= MAX_NAME && 0 !in a.name
    ensures a.first < 0x1_0000_0000 && a.size < 0x1_0000_0000
  {
    Attr(CString(b[2..2 + b[0]]), b[1],
         FromDisk32(variant, Word32(b[44..48])), FromDisk32(variant, Word32(b[48..52])),
         UnpackPair(variant, b[52..56]), UnpackPair(variant, b[56..60]), UnpackPair(variant, b[60..64]))
  }

  // The attributes that come back after a was stored.
  function Stored(variant: Variant, a: Attr): Attr {
    a.(first := a.first % 0x1_0000_0000, size := a.size % 0x1_0000_0000,
       modified := StoredTs(variant, a.modified), created := StoredTs(variant, a.created),
       accessed := StoredTs(variant, a.accessed))
  }

  lemma DecodeAfterEncode(variant: Variant, a: Attr)
    requires |a.name| <= MAX_NAME && 0 !in a.name
    ensures Decode(variant, Encode(variant, a)) == Stored(variant, a)
  {
    hide Bytes32, Word32, ToDisk32, FromDisk32, PackPair, UnpackPair, StoredTs;
    var b := Encode(variant, a);
    var first, size := ToDisk32(variant, a.first % 0x1_0000_0000), ToDisk32(variant, a.size % 0x1_0000_0000);
    assert b[2..2 + b[0]] == a.name;
    CStringWhole(a.name);
    assert b[44..48] == Bytes32(first) && b[48..52] == Bytes32(size);
    WordOfBytes32(first);
    WordOfBytes32(size);
    DiskRoundTrip32(variant, a.first % 0x1_0000_0000);
    DiskRoundTrip32(variant, a.size % 0x1_0000_0000);
    assert b[52..56] == PackPair(variant, a.modified) && b[56..60] == PackPair(variant, a.created)
        && b[60..64] == PackPair(variant, a.accessed);
    UnpackAfterPackPair(variant, a.modified);
    UnpackAfterPackPair(variant, a.created);
    UnpackAfterPackPair(variant, a.accessed);
  }

  // Where each field of an entry is: name length, attributes, the name and 0xff behind it,
  // first cluster, size, and three stamps, the date before the time on the Xbox 360 only.
  lemma EntryPlaces(variant: Variant, a: Attr)
    requires |a.name| <= MAX_NAME && a.first < 0x1_0000_0000 && a.size < 0x1_0000_0000
    ensures var b := Encode(variant, a);
      && b[0] == |a.name| && b[1] == a.attributes && b[2..2 + |a.name|] == a.name
      && (forall i :: 2 + |a.name| <= i < 44 ==> b[i] == 0xff)
      && Word4(variant, b, 44) == a.first && Word4(variant, b, 48) == a.size
    ensures var b, date, time := Encode(variant, a), if variant.X360? then 0 else 2, if variant.X360? then 2 else 0;
      && StampAt(variant, a.modified, b, 52 + date, 52 + time) && StampAt(variant, a.created, b, 56 + date, 56 + time)
      && StampAt(variant, a.accessed, b, 60 + date, 60 + time)
  {
    hide Bytes32, Bytes16, ToDisk32, ToDisk16, PackPair, Word4, StampAt;
    var b := Encode(variant, a);
    assert b[2..2 + |a.name|] == a.name;
    assert b[44..48] == Bytes32(ToDisk32(variant, a.first)) && b[48..52] == Bytes32(ToDisk32(variant, a.size));
    Word4At(variant, a.first, b, 44);
    Word4At(variant, a.size, b, 48);
    assert b[52..56] == PackPair(variant, a.modified) && b[56..60] == PackPair(variant, a.created)
        && b[60..64] == PackPair(variant, a.accessed);
    PairAt(variant, a.modified, b, 52);
    PairAt(variant, a.created, b, 56);
    PairAt(variant, a.accessed, b, 60);
  }

  // The words of a stamp that fits: from bit 9 the years since 1980 or 2000, from bit 5 the
  // month, then the day; from bit 11 the hour, from bit 5 the minute, then pairs of seconds.
  predicate StampAt(variant: Variant, ts: Ts, b: seq<byte>, date: nat, time: nat)
    requires date + 2 <= |b| && time + 2 <= |b|
  {
    Representable(variant, ts) ==>
      && Word2(variant, b, date) as int
         == (ts.year as int - if variant.X360? then 1980 else 2000) * 512 + ts.month as int * 32 + ts.day as int
      && Word2(variant, b, time) as int == ts.hour as int * 2048 + ts.minute as int * 32 + ts.second as int / 2
  }

  lemma PairAt(variant: Variant, ts: Ts, b: seq<byte>, at: nat)
    requires at + 4 <= |b| && b[at..at + 4] == PackPair(variant, ts)
    ensures var date, time := if variant.X360? then at else at + 2, if variant.X360? then at + 2 else at;
      StampAt(variant, ts, b, date, time)
  {
    hide Bytes16, ToDisk16, Word2, PackDate, PackTime, Representable;
    var date, time := if variant.X360? then at else at + 2, if variant.X360? then at + 2 else at;
    assert b[at..at + 2] == b[at..at + 4][..2] && b[at + 2..at + 4] == b[at..at + 4][2..];
    Word2At(variant, PackDate(variant, ts), b, date);
    Word2At(variant, PackTime(variant, ts), b, time);
    PackedWords(variant, ts);
  }

  lemma PackedTime(variant: Variant, ts: Ts)
    ensures Representable(variant, ts) ==>
              PackTime(variant, ts) as int == ts.hour as int * 2048 + ts.minute as int * 32 + ts.second as int / 2
  {
    hide PackDate;
  }

  lemma PackedWords(variant: Variant, ts: Ts)
    ensures Representable(variant, ts) ==>
              && PackDate(variant, ts) as int
                 == (ts.year as int - if variant.X360? then 1980 else 2000) * 512 + ts.month as int * 32 + ts.day as int
              && PackTime(variant, ts) as int == ts.hour as int * 2048 + ts.minute as int * 32 + ts.second as int / 2
  {
    PackedTime(variant, ts);
    hide PackTime;
  }

  // Attributes survive storing exactly when every field fits its place on disk.
  lemma StoredUnchangedIff(variant: Variant, a: Attr)
    ensures Stored(variant, a) == a <==>
            && a.first < 0x1_0000_0000 && a.size < 0x1_0000_0000
            && Representable(variant, a.modified) && Representable(variant, a.created)
               && Representable(variant, a.accessed)
  {
    hide StoredTs, Representable;
    StoredIffRepresentable(variant, a.modified);
    StoredIffRepresentable(variant, a.created);
    StoredIffRepresentable(variant, a.accessed);
  }

  // What was decoded can be stored and decoded again without change.
  lemma DecodedIsStored(variant: Variant, b: seq<byte>)
    requires |b| == DIRENT_SIZE && b[0] <= MAX_NAME
    ensures Stored(variant, Decode(variant, b)) == Decode(variant, b)
  {
    hide StoredTs, Representable, UnpackPair;
    StoredUnchangedIff(variant, Decode(variant, b));
    DecodedTsRepresentable(variant, b[52..56]);
    DecodedTsRepresentable(variant, b[56..60]);
    DecodedTsRepresentable(variant, b[60..64]);
  }

  lemma DecodedTsRepresentable(variant: Variant, p: seq<byte>)
    requires |p| == 4
    ensures Representable(variant, UnpackPair(variant, p))
  {
    hide Word16, FromDisk16;
  }

  // decode(encode(a)) == a exactly when every field fits its place on disk.
  lemma DecodeInvertsEncode(variant: Variant, a: Attr)
    requires |a.name| <= MAX_NAME && 0 !in a.name
    ensures Decode(variant, Encode(variant, a)) == a <==>
            && a.first < 0x1_0000_0000 && a.size < 0x1_0000_0000
            && Representable(variant, a.modified) && Representable(variant, a.created)
               && Representable(variant, a.accessed)
  {
    hide Encode, Decode, Stored, Representable;
    DecodeAfterEncode(variant, a);
    StoredUnchangedIff(variant, a);
  }

  // The time half of a raw stamp has no bit that the original Xbox drops.
  predicate TimeKept(variant: Variant, p: seq<byte>)
    requires |p| == 4
  {
    variant.X360? || (Word16(p[..2]) / 32768 == 0 && Word16(p[..2]) / 1024 % 2 == 0)
  }

  lemma PackAfterUnpackPair(variant: Variant, p: seq<byte>)
    requires |p| == 4
    ensures PackPair(variant, UnpackPair(variant, p)) == p <==> TimeKept(variant, p)
  {
    hide PackDate, PackTime, UnpackTs, Bytes16, Word16, FromDisk16;
    var slot0, slot1 := Word16(p[..2]), Word16(p[2..]);
    var date := FromDisk16(variant, if variant.X360? then slot0 else slot1);
    var time := FromDisk16(variant, if variant.X360? then slot1 else slot0);
    PackAfterUnpack(variant, date, time);
    DiskRoundTrip16(variant, slot0);
    DiskRoundTrip16(variant, slot1);
    BytesOfWord16(p[..2]);
    BytesOfWord16(p[2..]);
    assert p == p[..2] + p[2..];
    if variant.Xbox? {
      assert FromDisk16(variant, slot0) == slot0 by { XboxIsPlain(slot0); }
      var t := PackTime(variant, UnpackTs(variant, date, time));
      XboxIsPlain(t);
      WordOfBytes16(t);
      WordOfBytes16(slot0);
      assert PackPair(variant, UnpackPair(variant, p))[..2] == Bytes16(t);
      assert PackPair(variant, UnpackPair(variant, p))[2..] == p[2..];
    }
  }

  lemma XboxIsPlain(x: u16)
    ensures FromDisk16(Xbox, x) == x && ToDisk16(Xbox, x) == x
  {
  }

  // encode(decode(b)) == b exactly for entries whose name has no NUL, whose padding is
  // 0xff and, on the original Xbox, whose three times have bits 15 and 10 clear.
  lemma EncodeInvertsDecode(variant: Variant, b: seq<byte>)
    requires |b| == DIRENT_SIZE && b[0] <= MAX_NAME
    ensures Encode(variant, Decode(variant, b)) == b <==>
            && 0 !in b[2..2 + b[0]] && b[2 + b[0]..44] == Padding(MAX_NAME - b[0])
            && TimeKept(variant, b[52..56]) && TimeKept(variant, b[56..60]) && TimeKept(variant, b[60..64])
  {
    hide PackPair, UnpackPair, TimeKept, Bytes32, Word32, FromDisk32, Encode, CString;
    var a := Decode(variant, b);
    var e := Encode(variant, a);
    EncodedParts(variant, a);
    SameParts(e, b);
    NameComesBack(b);
    PackAfterUnpackPair(variant, b[52..56]);
    PackAfterUnpackPair(variant, b[56..60]);
    PackAfterUnpackPair(variant, b[60..64]);
    DiskRoundTrip32(variant, Word32(b[44..48]));
    DiskRoundTrip32(variant, Word32(b[48..52]));
    BytesOfWord32(b[44..48]);
    BytesOfWord32(b[48..52]);
  }

  function Head(name: seq<byte>, attributes: byte): (h: seq<byte>)
    requires |name| <= MAX_NAME
    ensures |h| == 44
  {
    [|name|, attributes] + name + Padding(MAX_NAME - |name|)
  }

  lemma EncodedParts(variant: Variant, a: Attr)
    requires |a.name| <= MAX_NAME
    ensures var e := Encode(variant, a);
      && e[..44] == Head(a.name, a.attributes)
      && e[44..48] == Bytes32(ToDisk32(variant, a.first % 0x1_0000_0000))
      && e[48..52] == Bytes32(ToDisk32(variant, a.size % 0x1_0000_0000))
      && e[52..56] == PackPair(variant, a.modified) && e[56..60] == PackPair(variant, a.created)
      && e[60..64] == PackPair(variant, a.accessed)
  {
    hide PackPair, Bytes32, ToDisk32;
  }

  lemma SameParts(e: seq<byte>, b: seq<byte>)
    requires |e| == DIRENT_SIZE && |b| == DIRENT_SIZE
    ensures e == b <==> && e[..44] == b[..44] && e[44..48] == b[44..48] && e[48..52] == b[48..52]
                        && e[52..56] == b[52..56] && e[56..60] == b[56..60] && e[60..64] == b[60..64]
  {
    SplitEntry(b);
    SplitEntry(e);
  }

  lemma SplitEntry(b: seq<byte>)
    requires |b| == DIRENT_SIZE
    ensures b == b[..44] + b[44..48] + b[48..52] + b[52..56] + b[56..60] + b[60..64]
  {
  }

  lemma NameComesBack(b: seq<byte>)
    requires |b| == DIRENT_SIZE && b[0] <= MAX_NAME
    ensures Head(CString(b[2..2 + b[0]]), b[1]) == b[..44] <==>
              0 !in b[2..2 + b[0]] && b[2 + b[0]..44] == Padding(MAX_NAME - b[0])
  {
    var n, name := b[0], b[2..2 + b[0]];
    var h := Head(CString(name), b[1]);
    if 0 !in name {
      CStringWhole(name);
      assert b[..44] == [b[0], b[1]] + name + b[2 + n..44];
      assert h[2 + n..] == Padding(MAX_NAME - n) && b[..44][2 + n..] == b[2 + n..44];
    } else {
      assert |CString(name)| != n;
      assert h[0] != b[..44][0];
    }
  }
}
