// The Rust reader: FAT entries, directory entries, files and directory iteration, each
// shown to see what libfatx sees.

module RustReader {
  import opened Bytes
  import opened Endian
  import opened Codec
  import opened Geometry
  import opened Volumes
  import opened Streams
  import opened Layouts
  import opened FatxFs
  import opened Files
  import opened FileOps
  import opened Listings
  import opened Partitions
  import opened Superblocks
  import opened Formats

  // ---- FatEntry ----

  function FatEntryFrom16(value: u16): FatEntry {
    if value == 0x0000 then Available
    else if 0x0001 <= value < 0xfff0 then Data(value)
    else if value == 0xfff0 then Reserved
    else if value == 0xfff7 then Bad
    else if value == 0xfff8 then Media
    else if value == 0xffff then End
    else Invalid
  }

  function FatEntryFrom32(value: u32): FatEntry {
    if value == 0x0000_0000 then Available
    else if 0x0000_0001 <= value < 0xffff_fff0 then Data(value)
    else if value == 0xffff_fff0 then Reserved
    else if value == 0xffff_fff7 then Bad
    else if value == 0xffff_fff8 then Media
    else if value == 0xffff_ffff then End
    else Invalid
  }

  // Both readers classify every raw entry alike.
  lemma ClassifyAgrees(value: u32)
    ensures FatEntryFrom32(value) == Classify(true, value)
    ensures value < 0x1_0000 ==> FatEntryFrom16(value) == Classify(false, value)
  {
  }

  // ---- DirectoryEntry ----

  datatype DirectoryEntry = DirectoryEntry(
    filenameLen: byte, attributes: byte, filename: seq<byte>,
    firstCluster: u32, fileSize: u32,
    modifiedTime: u16, modifiedDate: u16, createdTime: u16, createdDate: u16, accessedTime: u16, accessedDate: u16)

  datatype Kind = Valid | Deleted | EndOfDirectory

  // The packed struct as it is read, its words little-endian.
  function FromBytes(b: seq<byte>): DirectoryEntry
    requires |b| == DIRENT_SIZE
  {
    DirectoryEntry(b[0], b[1], b[2..44], Word32(b[44..48]), Word32(b[48..52]),
                   Word16(b[52..54]), Word16(b[54..56]), Word16(b[56..58]), Word16(b[58..60]), Word16(b[60..62]),
                     Word16(b[62..64]))
  }

  function Normalize(variant: Variant, e: DirectoryEntry): DirectoryEntry {
    if variant.Xbox? then e
    else
      e.(firstCluster := Swap32(e.firstCluster), fileSize := Swap32(e.fileSize),
         modifiedTime := Swap16(e.modifiedDate), modifiedDate := Swap16(e.modifiedTime),
         createdTime := Swap16(e.createdDate), createdDate := Swap16(e.createdTime),
         accessedTime := Swap16(e.accessedDate), accessedDate := Swap16(e.accessedTime))
  }

  function KindOf(e: DirectoryEntry): Kind {
    if e.filenameLen == 0xff || e.filenameLen == 0x00 then EndOfDirectory
    else if e.filenameLen == 0xe5 then Deleted
    else Valid
  }

  function FileName(e: DirectoryEntry): seq<byte> {
    if e.filenameLen <= |e.filename| then e.filename[..e.filenameLen] else e.filename
  }

  predicate IsVolume(e: DirectoryEntry) {
    e.attributes / 8 % 2 == 1
  }

  predicate IsDirectory(e: DirectoryEntry) {
    !IsVolume(e) && e.attributes / 16 % 2 == 1
  }

  // Variant::epoch
  function EpochYear(variant: Variant): u16 {
    match variant
    case X360 => 1980
    case Xbox => 2000
  }

  // DateTime::from_fatx_encoding
  function DateTime(date: u16, time: u16, variant: Variant): Ts {
    var hourMask, minuteMask := if variant.X360? then 32 else 16, if variant.X360? then 64 else 32;
    Ts(date / 512 % 128 + EpochYear(variant), date / 32 % 16, date % 32,
       time / 2048 % hourMask, time / 32 % minuteMask, time % 32 * 2)
  }

  // What the accessors say of an entry, its name cut where a C string ends.
  function Seen(variant: Variant, e: DirectoryEntry): Attr {
    Attr(CString(FileName(e)), e.attributes, e.firstCluster, e.fileSize,
         DateTime(e.modifiedDate, e.modifiedTime, variant), DateTime(e.createdDate, e.createdTime, variant),
         DateTime(e.accessedDate, e.accessedTime, variant))
  }

  function ReadEntry(variant: Variant, b: seq<byte>): DirectoryEntry
    requires |b| == DIRENT_SIZE
  {
    Normalize(variant, FromBytes(b))
  }

  // Every entry with a proper name length reads the same in both, whatever its bytes;
  // the bytes of the name agree up to the first NUL, which only C stops at, and a volume
  // label with the directory bit is a directory only to C.
  lemma EntriesAgree(variant: Variant, b: seq<byte>)
    requires |b| == DIRENT_SIZE && b[0] <= MAX_NAME
    ensures Seen(variant, ReadEntry(variant, b)) == Decode(variant, b)
    ensures FileName(ReadEntry(variant, b)) == Decode(variant, b).name <==> 0 !in b[2..2 + b[0]]
    ensures IsDirectory(ReadEntry(variant, b)) == Decode(variant, b).IsDirectory() <==>
            b[1] / 8 % 2 == 0 || b[1] / 16 % 2 == 0
  {
    hide Word16, Word32, Swap16, Swap32, UnpackTs, DateTime;
    var e := ReadEntry(variant, b);
    assert FileName(e) == b[2..2 + b[0]] by { assert b[2..44][..b[0]] == b[2..2 + b[0]]; }
    if 0 !in b[2..2 + b[0]] { CStringWhole(b[2..2 + b[0]]); }
    PairsAgree(variant, b[52..56]);
    PairsAgree(variant, b[56..60]);
    PairsAgree(variant, b[60..64]);
    assert b[52..56][..2] == b[52..54] && b[52..56][2..] == b[54..56];
    assert b[56..60][..2] == b[56..58] && b[56..60][2..] == b[58..60];
    assert b[60..64][..2] == b[60..62] && b[60..64][2..] == b[62..64];
  }

  lemma PairsAgree(variant: Variant, p: seq<byte>)
    requires |p| == 4
    ensures var slot0, slot1 := Word16(p[..2]), Word16(p[2..]);
      UnpackPair(variant, p) == if variant.Xbox? then DateTime(slot1, slot0, variant)
        else DateTime(Swap16(slot0), Swap16(slot1), variant)
  {
    hide Word16, Swap16;
  }

  lemma KindsAgree(variant: Variant, b: seq<byte>)
    requires |b| == DIRENT_SIZE
    ensures KindOf(ReadEntry(variant, b)) == if IsEnd(b) then EndOfDirectory else if IsDeleted(b) then Deleted
            else Valid
  {
  }

  // ---- FatxFs ----

  class RustFs {
    const geo: Geometry
    const variant: Variant
    const device: seq<byte>
    const fatData: seq<byte>
    var cursor: nat

    ghost predicate Opened()
    {
      && geo.Sound() && geo.partitionOffset + geo.partitionSize <= |device|
      && geo.fatOffset + geo.fatSize <= |device|
      && fatData == device[geo.fatOffset..geo.fatOffset + geo.fatSize]
    }

    // the FatxFs that open_device returns
    constructor (geo: Geometry, variant: Variant, device: seq<byte>, fatData: seq<byte>)
      requires geo.Sound() && geo.partitionOffset + geo.partitionSize <= |device|
               && geo.fatOffset + geo.fatSize <= |device|
      requires fatData == device[geo.fatOffset..geo.fatOffset + geo.fatSize]
      ensures Opened() && this.geo == geo && this.variant == variant && this.device == device
    {
      hide Times;
      this.geo, this.variant, this.device, this.fatData, cursor := geo, variant, device, fatData, 0;
    }

    // The volume on the device.
    ghost function Vol(): Volume {
      VolumeOf(geo, variant, device)
    }

    // Fat::entry
    method Entry(index: nat) returns (e: FatEntry)
      requires Opened() && index <= geo.numClusters
      ensures index < |Vol().fat| && e == Vol().fat[index]
    {
      hide Word16, Word32, Swap16, Swap32, Classify, Times;
      if geo.fat32 {
        var i := 4 * index;
        var value := Word32([fatData[i], fatData[i + 1], fatData[i + 2], fatData[i + 3]]);
        value := if variant.X360? then Swap32(value) else value;
        ClassifyAgrees(value);
        e := FatEntryFrom32(value);
      } else {
        var i := 2 * index;
        var value := Word16([fatData[i], fatData[i + 1]]);
        value := if variant.X360? then Swap16(value) else value;
        ClassifyAgrees(value);
        e := FatEntryFrom16(value);
      }
    }

    // seek_cluster over cluster_to_byte_offset
    method SeekCluster(cluster: nat, offset: nat) returns (ok: bool)
      requires cluster >= RESERVED_ENTRIES
      modifies this
      ensures ok <==> cluster < geo.numClusters + RESERVED_ENTRIES
      ensures ok ==> cursor == geo.ClusterStart(cluster) + offset
    {
      if cluster >= geo.numClusters + RESERVED_ENTRIES {
        return false;
      }
      cursor := geo.ClusterStart(cluster) + offset;
      ok := true;
    }

    // read: at least one byte
    method DeviceRead(count: nat) returns (data: seq<byte>)
      requires count > 0 && cursor + count <= |device|
      modifies this
      ensures 1 <= |data| <= count && data == device[old(cursor)..old(cursor) + |data|]
      ensures cursor == old(cursor) + |data|
    {
      var got :| 1 <= got <= count;
      data := device[cursor..cursor + got];
      cursor := cursor + got;
    }

    // A stretch of a cluster, on the device and in the volume.
    lemma ClusterStretch(c: nat, off: nat, n: nat)
      requires Opened() && 1 <= c < geo.numClusters && off + n <= geo.bytesPerCluster
      ensures |Vol().clusters| == geo.numClusters && Vol().bpc == geo.bytesPerCluster && Vol().Wf()
      ensures |Vol().fat| == |Vol().clusters| + 1 && Vol().variant == variant
      ensures |Vol().clusters[c]| == geo.bytesPerCluster && geo.ClusterStart(c) + off + n <= |device|
      ensures device[geo.ClusterStart(c) + off..geo.ClusterStart(c) + off + n] == Vol().clusters[c][off..off + n]
    {
      hide LoadEntry, Classify, Times, VolumeOf, RawOf;
      VolumeOfIsRep(geo, variant, device);
      RepBounds(geo, variant, device, NoWindow, false, RawOf(geo, variant, device), Vol());
      RepRead(geo, variant, device, NoWindow, false, RawOf(geo, variant, device), Vol(), c, off, n);
    }
  }

  // ---- File ----

  const I64_MAX := 0x7fff_ffff_ffff_ffff
  const I64_MIN := -0x8000_0000_0000_0000

  type i64 = x: int | I64_MIN <= x <= I64_MAX

  datatype SeekFrom = Start(offset: nat) | Current(delta: i64) | EndOf(delta: i64)

  function Saturating(x: int): i64 {
    if x > I64_MAX then I64_MAX else if x < I64_MIN then I64_MIN else x
  }

  // 64-bit addition as a build without overflow checks does it
  function Wrapping(x: int): i64 {
    (x + 0x8000_0000_0000_0000) % 0x1_0000_0000_0000_0000 - 0x8000_0000_0000_0000
  }

  // Where a seek goes; negative targets are refused.
  function Target(fileSize: u32, pos: u32, to: SeekFrom): int {
    match to
    case Start(offset) => offset
    case Current(delta) => Saturating(pos + delta)
    case EndOf(delta) => Wrapping(fileSize + delta)
  }

  lemma SaturatingMeans(x: int)
    ensures Saturating(x) < 0 <==> x < 0
    ensures I64_MIN <= x <= I64_MAX ==> Saturating(x) == x
  {
  }

  lemma WrappingMeans(x: int)
    requires I64_MIN <= x < I64_MAX + 0x1_0000_0000
    ensures Wrapping(x) < 0 <==> x < 0 || x > I64_MAX
    ensures I64_MIN <= x <= I64_MAX ==> Wrapping(x) == x
  {
  }

  class File {
    const fs: RustFs
    const firstCluster: nat
    const fileSize: u32
    var curRelative: nat
    var curAbsolute: nat
    var seekPos: u32
    ghost const ch: seq<nat>

    // The cached cluster is the one a fresh walk of the chain finds.
    ghost predicate Valid()
      reads this
    {
      && fs.Opened() && |fs.Vol().fat| == |fs.Vol().clusters| + 1 && IsChain(fs.Vol(), ch) && ch[0] == firstCluster
      && fileSize <= |Stream(fs.Vol(), ch)|
      && curRelative < |ch| && curAbsolute == ch[curRelative]
    }

    // What the file holds.
    ghost function Content(): seq<byte>
      requires fileSize <= |Stream(fs.Vol(), ch)|
    {
      Stream(fs.Vol(), ch)[..fileSize]
    }

    constructor (fs: RustFs, firstCluster: nat, fileSize: u32, ghost ch: seq<nat>)
      requires fs.Opened() && |fs.Vol().fat| == |fs.Vol().clusters| + 1 && IsChain(fs.Vol(), ch)
               && ch[0] == firstCluster
      requires fileSize <= |Stream(fs.Vol(), ch)|
      ensures Valid() && seekPos == 0
      ensures this.fs == fs && this.firstCluster == firstCluster && this.fileSize == fileSize && this.ch == ch
    {
      this.fs, this.firstCluster, this.fileSize, this.ch := fs, firstCluster, fileSize, ch;
      curRelative, curAbsolute, seekPos := 0, firstCluster, 0;
    }

    // Seek::seek.  The new position is the target, cut to 32 bits.
    method Seek(pos: SeekFrom) returns (ok: bool, at: nat)
      requires Valid()
      modifies `seekPos
      ensures Valid()
      ensures var target := Target(fileSize, old(seekPos), pos);
        && (ok <==> target >= 0)
        && (if ok then seekPos == target % 0x1_0000_0000 == at else seekPos == old(seekPos))
      // from the start, the end or where one is: the sum, unless it is negative
      ensures pos.Start? && pos.offset < 0x1_0000_0000 ==> ok && seekPos == at == pos.offset
      ensures pos.Current? && 0 <= old(seekPos) + pos.delta < 0x1_0000_0000 ==>
                ok && seekPos == at == old(seekPos) + pos.delta
      ensures pos.EndOf? && 0 <= fileSize + pos.delta < 0x1_0000_0000 ==> ok && seekPos == at == fileSize + pos.delta
      ensures pos.Current? ==> (!ok <==> old(seekPos) + pos.delta < 0)
      ensures pos.EndOf? ==> (!ok <==> fileSize + pos.delta < 0 || fileSize + pos.delta > I64_MAX)
    {
      hide Saturating, Wrapping, Stream, IsChain, VolumeOf;
      at := 0;
      match pos {
        case Start(offset) =>
          seekPos := offset % 0x1_0000_0000;
        case Current(delta) =>
          SaturatingMeans(seekPos + delta);
          var target := Saturating(seekPos + delta);
          if target < 0 {
            return false, 0;
          }
          seekPos := target % 0x1_0000_0000;
        case EndOf(delta) =>
          WrappingMeans(fileSize + delta);
          var target := Wrapping(fileSize + delta);
          if target < 0 {
            return false, 0;
          }
          seekPos := target % 0x1_0000_0000;
      }
      return true, seekPos;
    }

    // the mapping of the position to a cluster in Read::read
    method MapCluster() returns (ok: bool, cluster: nat, ghost k: nat)
      requires Valid() && seekPos < fileSize
      modifies `curRelative, `curAbsolute
      ensures Valid() && ok
      ensures k == curRelative && cluster == ch[k] && fs.Vol().InRange(cluster)
      ensures Times(k, fs.geo.bytesPerCluster) <= seekPos < Times(k, fs.geo.bytesPerCluster) + fs.geo.bytesPerCluster
    {
      hide Times, Stream, IsChain, VolumeOf, ClusterIndex, Classify;
      ok, cluster, k := false, 0, 0;
      ChainInRange(fs.Vol(), ch);
      VolShape(fs);
      StreamLength(fs.Vol(), ch);
      var target := ClusterIndex(seekPos, fs.geo.bytesPerCluster);
      ClusterIndexBounds(seekPos, fs.geo.bytesPerCluster, |ch|);
      if target < curRelative {
        curRelative := 0;
        curAbsolute := firstCluster;
      }
      var i := curRelative;
      while i < target
        invariant curRelative <= i <= target < |ch| && curAbsolute == ch[i]
        invariant fs.Opened() && curRelative < |ch|
      {
        ChainEntry(fs.Vol(), ch, i);
        var e := fs.Entry(curAbsolute);
        if e.Data? {
          curAbsolute := e.next;
        } else {
          return;
        }
        i := i + 1;
      }
      curRelative := target;
      ChainEntry(fs.Vol(), ch, target);
      return true, curAbsolute, target;
    }

    // one round of Read::read: the next piece, len bytes at most
    method ReadSome(len: nat) returns (ok: bool, data: seq<byte>)
      requires Valid() && seekPos < fileSize && len > 0
      modifies `curRelative, `curAbsolute, fs
      ensures Valid() && ok && 1 <= |data| <= len && seekPos + |data| <= fileSize
      ensures data == Stream(fs.Vol(), ch)[seekPos..seekPos + |data|]
    {
      hide Times, Stream, IsChain, VolumeOf, OffsetInCluster, Classify, AllInRange, NoDup;
      VolShape(fs);
      ghost var at: nat := seekPos;
      var remaining: nat := fileSize - seekPos;
      var cluster;
      ghost var k;
      ok, cluster, k := MapCluster();
      var off: nat := OffsetInCluster(seekPos, fs.geo.bytesPerCluster);
      RemainderOf(k, fs.geo.bytesPerCluster, at);
      var count: nat := Min(Min(len, fs.geo.bytesPerCluster - off), remaining);
      fs.ClusterStretch(cluster, off, count);
      ok := fs.SeekCluster(cluster, off);
      data := fs.DeviceRead(count);
      fs.ClusterStretch(cluster, off, |data|);
      ChainInRange(fs.Vol(), ch);
      ReadPiece(fs.Vol(), ch, k, off, at, [], data);
      assert [] + data == data;
    }

    // Read::read: buf is filled as far as the file goes
    method Read(buf: array<byte>) returns (ok: bool, count: nat)
      requires Valid() && seekPos <= fileSize
      modifies this, fs, buf
      ensures Valid() && ok
      ensures old(seekPos) + count == seekPos <= fileSize && count <= buf.Length
      ensures var bytes := Content()[old(seekPos)..Min(old(seekPos) + buf.Length, fileSize)];
        count == |bytes| && buf[..] == Splice(old(buf[..]), 0, bytes)
    {
      hide Stream, IsChain, VolumeOf, Splice;
      ghost var s, was, start: nat, got := Stream(fs.Vol(), ch), buf[..], seekPos, [];
      SpliceNothing(was);
      count := 0;
      ok := true;
      while count < buf.Length
        invariant Valid() && ok && start + count == seekPos <= fileSize && |got| == count <= buf.Length
        invariant got == s[start..start + count] && buf[..] == Splice(was, 0, got)
        decreases buf.Length - count
      {
        if fileSize - seekPos == 0 {
          break;
        }
        var data;
        ok, data := ReadSome(buf.Length - count);
        Store(buf, count, data);
        SpliceOn(was, got, data);
        SliceConcat(s, start, start + count, start + count + |data|);
        got := got + data;
        count := count + |data|;
        seekPos := seekPos + |data|;
      }
      SliceOfPrefix(s, fileSize, start, start + count);
    }
  }

  function ClusterIndex(n: nat, b: nat): nat
    requires b > 0
  {
    n / b
  }

  lemma ClusterIndexBounds(n: nat, b: nat, len: nat)
    requires b > 0 && n < Times(len, b)
    ensures var k := ClusterIndex(n, b); k < len && Times(k, b) <= n < Times(k, b) + b
  {
    var k := n / b;
    TimesIsProduct(k, b);
    assert n == k * b + n % b;
    TimesOrder(len, k, b);
  }

  lemma VolShape(fs: RustFs)
    requires fs.Opened()
    ensures fs.Vol().Wf() && fs.Vol().bpc == fs.geo.bytesPerCluster && |fs.Vol().clusters| == fs.geo.numClusters
    ensures |fs.Vol().fat| == |fs.Vol().clusters| + 1 && fs.Vol().variant == fs.variant
  {
    hide VolumeOf, Times;
    fs.ClusterStretch(1, 0, 0);
  }

  // ---- scripts of seeks and reads ----

  datatype Job = SeekTo(pos: SeekFrom) | ReadNext(len: nat)

  datatype Outcome = Refused | At(pos: nat) | Got(bytes: seq<byte>)

  // What a file with these contents answers to a script, from position pos on.
  function Expected(content: seq<byte>, pos: u32, jobs: seq<Job>): (out: seq<Outcome>)
    requires |content| < 0x1_0000_0000
    ensures |out| == |jobs|
    decreases |jobs|
  {
    if jobs == [] then []
    else
      var (outcome, next) := Answered(content, pos, jobs[0]);
      [outcome] + Expected(content, next, jobs[1..])
  }

  // No read starts behind the end.
  predicate InFile(size: u32, pos: u32, jobs: seq<Job>)
    decreases |jobs|
  {
    if jobs == [] then true
    else
      match jobs[0]
      case SeekTo(to) =>
        var target := Target(size, pos, to);
        InFile(size, if target < 0 then pos else target % 0x1_0000_0000, jobs[1..])
      case ReadNext(len) => pos <= size && InFile(size, Min(size, pos + len), jobs[1..])
  }

  // Every script of seeks, from the start, the end or where one is, and of reads in
  // between gives what the contents give, whatever the cursor cache went through.
  method ReadScript(file: File, jobs: seq<Job>) returns (out: seq<Outcome>)
    requires file.Valid() && InFile(file.fileSize, file.seekPos, jobs)
    modifies file, file.fs
    ensures file.Valid()
    ensures out == Expected(file.Content(), old(file.seekPos), jobs)
  {
    hide Stream, IsChain, VolumeOf, Expected, InFile;
    out := [];
    var i := 0;
    ghost var content := file.Content();
    assert jobs[0..] == jobs;
    assert out + Expected(content, file.seekPos, jobs[0..]) == Expected(content, file.seekPos, jobs);
    while i < |jobs|
      invariant file.Valid() && i <= |jobs| && InFile(file.fileSize, file.seekPos, jobs[i..])
      invariant Expected(content, old(file.seekPos), jobs) == out + Expected(content, file.seekPos, jobs[i..])
    {
      ExpectedNext(content, file.seekPos, jobs, i);
      var outcome := DoJob(file, jobs[i]);
      out := out + [outcome];
      i := i + 1;
    }
    ExpectedEnd(content, file.seekPos, jobs);
  }

  // What one job answers, and where the position is after it.
  function Answered(content: seq<byte>, pos: u32, job: Job): (Outcome, u32)
    requires |content| < 0x1_0000_0000
  {
    match job
    case SeekTo(to) =>
      var target := Target(|content|, pos, to);
      if target < 0 then (Refused, pos) else (At(target % 0x1_0000_0000), target % 0x1_0000_0000)
    case ReadNext(len) =>
      if pos <= |content| then (Got(content[pos..Min(pos + len, |content|)]), Min(pos + len, |content|))
         else (Got([]), pos)
  }

  method DoJob(file: File, job: Job) returns (outcome: Outcome)
    requires file.Valid() && (job.ReadNext? ==> file.seekPos <= file.fileSize)
    modifies file, file.fs
    ensures file.Valid() && (outcome, file.seekPos) == Answered(file.Content(), old(file.seekPos), job)
  {
    hide Stream, IsChain, VolumeOf, Target, Splice;
    match job {
      case SeekTo(to) =>
        var ok, at := file.Seek(to);
        outcome := if ok then At(at) else Refused;
      case ReadNext(len) =>
        var buf := new byte[len];
        ghost var was, start := buf[..], file.seekPos;
        var ok, count := file.Read(buf);
        SplicePrefix(was, file.Content()[start..Min(start + len, file.fileSize)]);
        outcome := Got(buf[..count]);
    }
  }

  // A seek from the end goes where one from the start to that place goes.
  lemma EndIsStart(content: seq<byte>, pos: u32, delta: i64)
    requires |content| < 0x1_0000_0000 && 0 <= |content| + delta < 0x1_0000_0000
    ensures Answered(content, pos, SeekTo(EndOf(delta))) == Answered(content, pos, SeekTo(Start(|content| + delta)))
         == (At(|content| + delta), |content| + delta)
  {
  }

  // Seeks from where one is add up.
  lemma CurrentAdds(content: seq<byte>, pos: u32, a: i64, b: i64)
    requires |content| < 0x1_0000_0000 && 0 <= pos + a < 0x1_0000_0000 && 0 <= pos + a + b < 0x1_0000_0000
    requires I64_MIN <= a + b <= I64_MAX
    ensures Answered(content, Answered(content, pos, SeekTo(Current(a))).1, SeekTo(Current(b)))
         == Answered(content, pos, SeekTo(Current(a + b))) == (At(pos + a + b), pos + a + b)
  {
  }

  // Where a refused seek leaves one: at the same position.
  lemma RefusedStays(content: seq<byte>, pos: u32, to: SeekFrom)
    requires |content| < 0x1_0000_0000
    ensures Answered(content, pos, SeekTo(to)) == (Refused, pos) <==>
            || (to.Current? && pos + to.delta < 0)
            || (to.EndOf? && (|content| + to.delta < 0 || |content| + to.delta > I64_MAX))
  {
  }

  // Going back n bytes from the end and reading n bytes gives the last ones; going to the
  // start and reading on gives everything, in two pieces or in one.
  lemma LastBytes(content: seq<byte>, pos: u32, n: i64)
    requires 0 <= n <= |content| < 0x1_0000_0000
    ensures Expected(content, pos, [SeekTo(EndOf(-n)), ReadNext(n)])
         == [At(|content| - n), Got(content[|content| - n..])]
    ensures Expected(content, pos, [SeekTo(Start(0)), ReadNext(n), ReadNext(|content| - n)])
         == [At(0), Got(content[..n]), Got(content[n..])]
  {
    hide Answered, Expected;
    var end: nat := |content|;
    ExpectedThree(content, pos, SeekTo(EndOf(-n)), ReadNext(n), ReadNext(0));
    EndIsStart(content, pos, -n);
    ReadInside(content, end - n, n);
    assert content[end - n..end - n + n] == content[end - n..];
    ExpectedThree(content, pos, SeekTo(Start(0)), ReadNext(n), ReadNext(end - n));
    StartIsThere(content, pos, 0);
    ReadInside(content, 0, n);
    ReadInside(content, n, end - n);
    assert content[0..0 + n] == content[..n] && content[n..n + (end - n)] == content[n..];
  }

  lemma StartIsThere(content: seq<byte>, pos: u32, at: u32)
    requires |content| < 0x1_0000_0000
    ensures Answered(content, pos, SeekTo(Start(at))) == (At(at), at)
  {
  }

  // A read that does not meet the end.
  lemma ReadInside(content: seq<byte>, pos: u32, len: nat)
    requires |content| < 0x1_0000_0000 && pos + len <= |content|
    ensures Answered(content, pos, ReadNext(len)) == (Got(content[pos..pos + len]), pos + len)
  {
  }

  lemma ExpectedThree(content: seq<byte>, pos: u32, a: Job, b: Job, c: Job)
    requires |content| < 0x1_0000_0000
    ensures var (o1, p1) := Answered(content, pos, a);
      var (o2, p2) := Answered(content, p1, b);
      && Expected(content, pos, [a, b]) == [o1, o2]
      && Expected(content, pos, [a, b, c]) == [o1, o2, Answered(content, p2, c).0]
  {
    hide Answered;
    ExpectedStep(content, pos, [a, b]);
    ExpectedStep(content, pos, [a, b, c]);
    var (o1, p1) := Answered(content, pos, a);
    assert [a, b][1..] == [b] && [a, b, c][1..] == [b, c] && [b, c][1..] == [c];
    ExpectedStep(content, p1, [b]);
    ExpectedStep(content, p1, [b, c]);
    ExpectedStep(content, Answered(content, p1, b).1, [c]);
  }

  lemma ExpectedStep(content: seq<byte>, pos: u32, jobs: seq<Job>)
    requires |content| < 0x1_0000_0000 && jobs != []
    ensures var (outcome, next) := Answered(content, pos, jobs[0]);
      Expected(content, pos, jobs) == [outcome] + Expected(content, next, jobs[1..])
    ensures |jobs| == 1 ==> Expected(content, pos, jobs) == [Answered(content, pos, jobs[0]).0]
  {
    hide Answered;
    if |jobs| == 1 { assert jobs[1..] == []; }
  }

  lemma ExpectedNext(content: seq<byte>, pos: u32, jobs: seq<Job>, i: nat)
    requires |content| < 0x1_0000_0000 && i < |jobs| && InFile(|content|, pos, jobs[i..])
    ensures var (outcome, next) := Answered(content, pos, jobs[i]);
      && Expected(content, pos, jobs[i..]) == [outcome] + Expected(content, next, jobs[i + 1..])
      && InFile(|content|, next, jobs[i + 1..])
    ensures jobs[i].ReadNext? ==> pos <= |content|
  {
    hide Target;
    assert jobs[i..][0] == jobs[i] && jobs[i..][1..] == jobs[i + 1..];
  }

  lemma ExpectedEnd(content: seq<byte>, pos: u32, jobs: seq<Job>)
    requires |content| < 0x1_0000_0000
    ensures Expected(content, pos, jobs[|jobs|..]) == []
  {
  }

  // The bytes the Rust reader returns are those fatx_read returns for the same file.
  lemma ReadsAgree(n: Node, s: seq<byte>, pos: nat, len: nat)
    requires n.bytes == s && n.attr.size <= |s| && pos <= n.attr.size
    ensures s[..n.attr.size][pos..Min(pos + len, n.attr.size)] == ReadBack(n, pos, len)
  {
  }

  // ---- DirectoryEntryIterator ----

  datatype Item = NoItem | Entry(entry: DirectoryEntry) | Failed

  class DirectoryEntryIterator {
    var cluster: nat
    var entry: int
    var finished: bool
    ghost var k: nat

    constructor (cluster: nat)
      ensures this.cluster == cluster && entry == -1 && !finished && k == 0
    {
      this.cluster, entry, finished, k := cluster, -1, false, 0;
    }

    // The iterator has delivered the first n slots of chain ch.
    ghost predicate At(fs: RustFs, ch: seq<nat>, n: nat)
      reads this
    {
      && fs.Opened() && |fs.Vol().fat| == |fs.Vol().clusters| + 1 && IsChain(fs.Vol(), ch)
      && SlotsPerCluster(fs.geo.bytesPerCluster) > 0 && !finished
      && k < |ch| && cluster == ch[k] && -1 <= entry < SlotsPerCluster(fs.geo.bytesPerCluster)
      && (entry == -1 ==> k == 0) && Times(k, SlotsPerCluster(fs.geo.bytesPerCluster)) + entry + 1 == n
    }

    method Next(fs: RustFs, ghost ch: seq<nat>, ghost n: nat) returns (item: Item)
      requires At(fs, ch, n)
      modifies this, fs
      ensures n <= |DirSlots(fs.Vol(), ch)|
      ensures if n == |DirSlots(fs.Vol(), ch)| then item == Failed && finished
              else
                && item == Entry(ReadEntry(fs.variant, DirSlots(fs.Vol(), ch)[n]))
                && if IsEnd(DirSlots(fs.Vol(), ch)[n]) then finished else At(fs, ch, n + 1)
    {
      hide Times, IsChain, VolumeOf, ReadEntry, DirSlots, IsEnd, KindOf, AllInRange, NoDup;
      ghost var epc, v := SlotsPerCluster(fs.geo.bytesPerCluster), fs.Vol();
      VolShape(fs);
      ChainInRange(v, ch);
      DirSlotsLength(v, ch);
      TimesStep(k, epc);
      TimesGrows(k + 1, |ch|, epc);
      ChainEntry(v, ch, k);
      entry := entry + 1;
      if entry >= fs.geo.bytesPerCluster / DIRENT_SIZE {
        var e := fs.Entry(cluster);
        if e.Data? {
          cluster := e.next;
          entry := 0;
          k := k + 1;
          ChainEntry(v, ch, k);
        } else {
          finished := true;
          return Failed;
        }
      }
      DirSlotAt(v, ch, k, entry);
      fs.ClusterStretch(cluster, DIRENT_SIZE * entry, DIRENT_SIZE);
      var ok := fs.SeekCluster(cluster, DIRENT_SIZE * entry);
      var b := fs.device[fs.cursor..fs.cursor + DIRENT_SIZE];
      var e := ReadEntry(fs.variant, b);
      KindsAgree(fs.variant, b);
      if KindOf(e) == EndOfDirectory {
        finished := true;
      }
      return Entry(e);
    }
  }

  function SeenAll(variant: Variant, es: seq<DirectoryEntry>): seq<Attr> {
    if es == [] then [] else SeenAll(variant, es[..|es| - 1]) + [Seen(variant, es[|es| - 1])]
  }

  // DirectoryEntryIntoIterator driven to its end: the valid entries in order, and whether
  // it ended with an error.  On every chain that libfatx can scan it lists what libfatx
  // lists and fails where libfatx fails.
  method IterateAll(fs: RustFs, first: nat, ghost ch: seq<nat>) returns (entries: seq<DirectoryEntry>, failed: bool)
    requires fs.Opened() && |fs.Vol().fat| == |fs.Vol().clusters| + 1 && IsChain(fs.Vol(), ch) && ch[0] == first
    requires Scannable(fs.Vol(), ch)
    modifies fs
    ensures SeenAll(fs.variant, entries) == Listing(fs.variant, DirSlots(fs.Vol(), ch))
    ensures failed <==> FirstEnd(DirSlots(fs.Vol(), ch)) == |DirSlots(fs.Vol(), ch)|
  {
    hide Times, IsChain, VolumeOf, ReadEntry, DirSlots, AttrOf, GoodSlot, Seen, IsEnd, IsDeleted, KindOf, LiveEntries,
         SlotsPerCluster, AllInRange, NoDup;
    ghost var v, s := fs.Vol(), DirSlots(fs.Vol(), ch);
    VolShape(fs);
    TimesStep(0, SlotsPerCluster(fs.geo.bytesPerCluster));
    SlotsPositive(v);
    ChainInRange(v, ch);
    entries, failed := [], false;
    SeenNothing(fs.variant);
    hide SeenAll;
    var iter := new DirectoryEntryIterator(first);
    assert s[..0] == [];
    NothingListed(fs.variant);
    ghost var n: nat := 0;
    while true
      invariant fresh(iter) && iter.At(fs, ch, n) && n <= FirstEnd(s)
      invariant SeenAll(fs.variant, entries) == LiveEntries(fs.variant, s[..n])
      decreases |s| - n
    {
      var item := iter.Next(fs, ch, n);
      if item.Failed? {
        return entries, true;
      }
      KindsAgree(fs.variant, s[n]);
      ListOneMore(fs.variant, s, n);
      if KindOf(item.entry) == Valid {
        GoodAgrees(fs.variant, s[n]);
        SeenOneMore(fs.variant, entries, item.entry);
        entries := entries + [item.entry];
      }
      if iter.finished {
        return entries, false;
      }
      n := n + 1;
    }
  }

  lemma SeenNothing(variant: Variant)
    ensures SeenAll(variant, []) == []
  {
  }

  lemma SeenOneMore(variant: Variant, es: seq<DirectoryEntry>, e: DirectoryEntry)
    ensures SeenAll(variant, es + [e]) == SeenAll(variant, es) + [Seen(variant, e)]
  {
    hide Seen;
    assert (es + [e])[..|es|] == es;
  }

  lemma GoodAgrees(variant: Variant, b: seq<byte>)
    requires |b| == DIRENT_SIZE && GoodSlot(variant, b) && !IsDeleted(b)
    ensures Seen(variant, ReadEntry(variant, b)) == AttrOf(variant, b)
  {
    EntriesAgree(variant, b);
  }

  // ---- the two implementations on one device ----

  lemma VolIsMounted(fs: Fs, rust: RustFs)
    requires fs.vol == VolumeOf(fs.geo, fs.variant, fs.disk) && rust.geo == fs.geo && rust.variant == fs.variant
    requires rust.device == fs.disk
    ensures rust.Vol() == fs.vol
  {
  }

  // fs works on a partition of size bytes that both programs lay out alike, and the Rust
  // reader is pointed at it: asked for that size or for the rest of the device, and not for
  // the other variant.
  ghost predicate Shared(fs: Fs, asked: nat, request: Request, size: nat, sectorSize: nat, sb: Superblock) {
    && PartitionOf(fs, size, sectorSize, sb) && BothAlike(fs.geo, size, sectorSize, sb)
    && Accepted(fs.geo.partitionOffset, size, sectorSize, sb.sectorsPerCluster, sb.rootCluster)
    && sb.rootCluster < Capacity(size, BytesPerCluster(sb.sectorsPerCluster, sectorSize))
    && RustSize(|fs.origin|, fs.geo.partitionOffset, asked) == Some(size)
       && (request == Auto || request == Only(fs.variant))
  }

  // The superblock outlasts every history of the file system.
  lemma CarriedStill(fs: Fs, sb: Superblock)
    requires fs.Valid() && Carries(fs.origin, fs.geo.partitionOffset, fs.variant, sb)
    ensures |fs.disk| == |fs.origin| && Carries(fs.disk, fs.geo.partitionOffset, fs.variant, sb)
    ensures fs.geo.fatOffset + fs.geo.fatSize <= |fs.disk|
  {
    hide Rep, SuperblockBytes;
    fs.Bounds();
    InsideClusters(fs.geo, 1);
    var o := fs.geo.partitionOffset;
    assert fs.disk[o..o + SUPERBLOCK_SIZE] == fs.origin[o..o + SUPERBLOCK_SIZE];
  }

  // libfatx closes the device and the Rust reader opens it, from its bytes alone.
  method CloseAndRustOpen(fs: Fs, asked: nat, request: Request, ghost size: nat, ghost sectorSize: nat,
      ghost sb: Superblock)
    returns (rust: RustFs)
    requires fs.Mounted() && Shared(fs, asked, request, size, sectorSize, sb)
    modifies fs`cursor, fs`disk, fs`cache
    ensures fs.vol == old(fs.vol) && fs.Mounted()
    ensures fresh(rust) && rust.Opened() && rust.geo == fs.geo && rust.variant == fs.variant && rust.Vol() == fs.vol
  {
    hide Rep, Framed, Inv, VolumeOf, RawOf, Carries, Capacity, BytesPerCluster, LibGeometry, BothAlike, Accepted,
         RustSize;
    fs.CloseDevice();
    fs.Bounds();
    CarriedStill(fs, sb);
    var ok, geo, variant, fatData :=
      RustOpenCarried(fs.disk, fs.geo.partitionOffset, asked, request, fs.geo, size, sectorSize, fs.variant, sb);
    rust := new RustFs(geo, variant, fs.disk, fatData);
    VolIsMounted(fs, rust);
  }

  // A file of a volume that libfatx closed, read by the Rust reader: the same bytes.
  method HandOverFile(fs: Fs, asked: nat, request: Request, first: nat, fileSize: u32, pos: nat, len: nat,
      ghost size: nat, ghost sectorSize: nat, ghost sb: Superblock)
    returns (buf: seq<byte>)
    requires fs.Mounted() && Shared(fs, asked, request, size, sectorSize, sb)
    requires first in Abs(fs.vol, fs.layout) && !Abs(fs.vol, fs.layout)[first].attr.IsDirectory()
    requires fileSize == Abs(fs.vol, fs.layout)[first].attr.size && pos <= fileSize
    modifies fs`cursor, fs`disk, fs`cache
    ensures fs.vol == old(fs.vol) && first in Abs(fs.vol, fs.layout)
    ensures buf == ReadBack(Abs(fs.vol, fs.layout)[first], pos, len)
  {
    hide Rep, Framed, InvBut, Abs, VolumeOf, RawOf, Stream, IsChain, Times, Splice, ReadBack, Inv, Shared;
    fs.Bounds();
    FileOfTable(fs.vol, fs.layout, first);
    var rust := CloseAndRustOpen(fs, asked, request, size, sectorSize, sb);
    fs.Bounds();
    var file := new File(rust, first, fileSize, fs.layout.chains[first]);
    var ok, at := file.Seek(Start(pos));
    var bytes := new byte[len];
    var count;
    ghost var was, want := bytes[..], file.Content()[pos..Min(pos + len, fileSize)];
    ok, count := file.Read(bytes);
    SplicePrefix(was, want);
    buf := bytes[..count];
    ReadsAgree(Abs(fs.vol, fs.layout)[first], Stream(fs.vol, fs.layout.chains[first]), pos, len);
  }

  lemma FileOfTable(v: Volume, g: Layout, k: nat)
    requires Inv(v, g) && k in Abs(v, g) && !Abs(v, g)[k].attr.IsDirectory()
    ensures k in g.chains && |v.fat| == |v.clusters| + 1 && IsChain(v, g.chains[k]) && g.chains[k][0] == k
    ensures Abs(v, g)[k].bytes == Stream(v, g.chains[k]) && Abs(v, g)[k].attr.size <= |Stream(v, g.chains[k])|
  {
    hide AttrOf, SlotAt, DirOk, NamesDistinct, Times, Live, IsChain, Stream;
    OwnerPlace(v, g, {}, k);
    FileChain(v, g, g.owner[k]);
  }

  // A directory of a volume that libfatx closed, iterated by the Rust reader: the
  // entries that the inode table has in it.
  method HandOverDirectory(fs: Fs, asked: nat, request: Request, d: nat, ghost size: nat, ghost sectorSize: nat,
      ghost sb: Superblock)
    returns (entries: seq<DirectoryEntry>, failed: bool)
    requires fs.Mounted() && Shared(fs, asked, request, size, sectorSize, sb) && d in fs.layout.dirs
    modifies fs`cursor, fs`disk, fs`cache
    ensures fs.vol == old(fs.vol) && d in fs.layout.chains && !failed
    ensures SeenAll(fs.variant, entries) == ListDir(fs.vol, fs.layout, d)
  {
    hide Rep, Framed, InvBut, VolumeOf, RawOf, IsChain, Times, Listing, DirSlots, Scannable, Shared;
    fs.Bounds();
    DirOfTable(fs.vol, fs.layout, d);
    var rust := CloseAndRustOpen(fs, asked, request, size, sectorSize, sb);
    fs.Bounds();
    entries, failed := IterateAll(rust, d, fs.layout.chains[d]);
  }

  lemma DirOfTable(v: Volume, g: Layout, d: nat)
    requires Inv(v, g) && d in g.dirs
    ensures d in g.chains && |v.fat| == |v.clusters| + 1 && IsChain(v, g.chains[d]) && g.chains[d][0] == d
    ensures Scannable(v, g.chains[d]) && FirstEnd(DirSlots(v, g.chains[d])) < |DirSlots(v, g.chains[d])|
  {
    hide AttrOf, SlotBytes, InvBut, Times, IsEnd, GoodSlot;
    DirHasChain(v, g, d);
    FirstEndIsTerm(v, g, d);
    DirSlotsLength(v, g.chains[d]);
    var s, t, epc := DirSlots(v, g.chains[d]), g.dirs[d], SlotsPerCluster(v.bpc);
    forall i | 0 <= i < FirstEnd(s) ensures GoodSlot(v.variant, s[i]) {
      var k, e := SlotPlace(|g.chains[d]|, epc, i);
      PlaceOrder(k, e, t, epc);
      SlotOfDir(v, g, Place(d, k, e));
      assert GoodSlot(v.variant, SlotAt(v, g, Place(d, k, e)));
    }
  }
}
