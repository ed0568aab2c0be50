// The superblock, written by libfatx and read by both programs, and opening a device with
// it: fatx_open_device_ex of libfatx and FatxFs::open_device of the Rust reader.

module Superblocks {
  import opened Bytes
  import opened Endian
  import opened Codec
  import opened Geometry
  import opened Partitions

  datatype Option<T> = None | Some(value: T)

  const SUPERBLOCK_SIZE := 4096
  const READ_FROM_SUPERBLOCK := 0

  // A size of all ones stands for the rest of the device.
  const REST := 0xffff_ffff_ffff_ffff

  // The sector size of the Rust reader.
  const RUST_SECTOR := 512

  datatype Superblock = Superblock(volumeId: u32, sectorsPerCluster: u32, rootCluster: u32)

  // FATX_VARIANT_AUTO, or a variant that is asked for
  datatype Request = Auto | Only(variant: Variant)

  // ---- the bytes ----

  function SuperblockBytes(variant: Variant, sb: Superblock): (b: seq<byte>)
    ensures |b| == SUPERBLOCK_SIZE
  {
    Bytes32(ToDisk32(variant, SIGNATURE)) + Bytes32(ToDisk32(variant, sb.volumeId))
    + Bytes32(ToDisk32(variant, sb.sectorsPerCluster))
    + Bytes32(ToDisk32(variant, sb.rootCluster)) + Bytes16(ToDisk16(variant, 0)) + Padding(4078)
  }

  function Signature(b: seq<byte>): u32
    requires |b| >= 4
  {
    Word32(b[..4])
  }

  // the fields as fatx_read_superblock takes them
  function ReadFields(variant: Variant, b: seq<byte>): Superblock
    requires |b| == SUPERBLOCK_SIZE
  {
    Superblock(FromDisk32(variant, Word32(b[4..8])), FromDisk32(variant, Word32(b[8..12])),
      FromDisk32(variant, Word32(b[12..16])))
  }

  lemma SuperblockWords(variant: Variant, sb: Superblock)
    ensures var b := SuperblockBytes(variant, sb);
      && Word32(b[..4]) == ToDisk32(variant, SIGNATURE) && Word32(b[4..8]) == ToDisk32(variant, sb.volumeId)
      && Word32(b[8..12]) == ToDisk32(variant, sb.sectorsPerCluster)
      && Word32(b[12..16]) == ToDisk32(variant, sb.rootCluster)
  {
    hide Word32, Bytes32, FromDisk32, ToDisk32, ToDisk16, Bytes16;
    var b := SuperblockBytes(variant, sb);
    var s, i, c, r := ToDisk32(variant, SIGNATURE), ToDisk32(variant, sb.volumeId),
        ToDisk32(variant, sb.sectorsPerCluster), ToDisk32(variant, sb.rootCluster);
    assert b[..4] == Bytes32(s) && b[4..8] == Bytes32(i) && b[8..12] == Bytes32(c) && b[12..16] == Bytes32(r);
    WordOfBytes32(s);
    WordOfBytes32(i);
    WordOfBytes32(c);
    WordOfBytes32(r);
  }

  // FATX, and on the Xbox 360 the other way round
  function Letters(variant: Variant): seq<byte> {
    if variant.Xbox? then [0x46, 0x41, 0x54, 0x58] else [0x58, 0x54, 0x41, 0x46]
  }

  // Where each field is: the letters of the signature, three words, two zero bytes, and 0xff
  // up to the end.
  lemma SuperblockPlaces(variant: Variant, sb: Superblock)
    ensures var b := SuperblockBytes(variant, sb);
      && b[..4] == Letters(variant)
      && Word4(variant, b, 4) == sb.volumeId && Word4(variant, b, 8) == sb.sectorsPerCluster
      && Word4(variant, b, 12) == sb.rootCluster
      && b[16] == b[17] == 0 && forall i :: 18 <= i < 4096 ==> b[i] == 0xff
  {
    hide Bytes32, Bytes16, FromDisk32, ToDisk32, ToDisk16, Word4;
    var b := SuperblockBytes(variant, sb);
    assert b[..4] == Bytes32(ToDisk32(variant, SIGNATURE)) && b[16..18] == Bytes16(ToDisk16(variant, 0));
    SignatureBytes(variant);
    assert b[16] == b[16..18][0] && b[17] == b[16..18][1];
    assert b[4..8] == Bytes32(ToDisk32(variant, sb.volumeId));
    assert b[8..12] == Bytes32(ToDisk32(variant, sb.sectorsPerCluster));
    assert b[12..16] == Bytes32(ToDisk32(variant, sb.rootCluster));
    Word4At(variant, sb.volumeId, b, 4);
    Word4At(variant, sb.sectorsPerCluster, b, 8);
    Word4At(variant, sb.rootCluster, b, 12);
  }

  lemma SignatureBytes(variant: Variant)
    ensures Bytes32(ToDisk32(variant, SIGNATURE)) == Letters(variant)
    ensures Bytes16(ToDisk16(variant, 0)) == [0, 0]
  {
    assert Bytes32(SIGNATURE) == [0x46, 0x41, 0x54, 0x58] && Bytes16(0) == [0, 0];
    hide Bytes32, Word32, Bytes16, Word16, Swap32, Swap16;
    if variant.X360? {
      assert ToDisk32(variant, SIGNATURE) == Swap32(SIGNATURE) && ToDisk16(variant, 0) == Swap16(0);
    }
  }

  // What is written is read back, in either byte order, and the signature gives the byte
  // order away.
  lemma SuperblockRoundTrip(variant: Variant, sb: Superblock)
    ensures var b := SuperblockBytes(variant, sb);
      ReadFields(variant, b) == sb && VariantFromRawSignature(Signature(b)) == Found(variant)
  {
    hide Word32, Bytes32, FromDisk32, ToDisk32, SuperblockBytes, VariantFromRawSignature;
    SuperblockWords(variant, sb);
    DetectionInvertsWriting(ToDisk32(variant, SIGNATURE), variant);
    DiskRoundTrip32(variant, sb.volumeId);
    DiskRoundTrip32(variant, sb.sectorsPerCluster);
    DiskRoundTrip32(variant, sb.rootCluster);
  }

  // ---- libfatx ----

  // fatx_check_partition_signature: the variant, if the signature is that of the one that
  // is asked for, or of either
  function Probed(request: Request, raw: u32): Option<Variant> {
    match request
    case Auto => (match VariantFromRawSignature(raw) case Found(v) => Some(v) case NotFatx => None)
    case Only(v) => if FromDisk32(v, raw) == SIGNATURE then Some(v) else None
  }

  // A variant is probed exactly if it is asked for and its byte order gives the signature.
  lemma ProbedIsWritten(request: Request, raw: u32, variant: Variant)
    ensures Probed(request, raw) == Some(variant) <==>
            (request == Auto || request == Only(variant)) && raw == ToDisk32(variant, SIGNATURE)
  {
    hide FromDisk32, ToDisk32, VariantFromRawSignature;
    DetectionInvertsWriting(raw, variant);
    DiskRoundTrip32(variant, raw);
    DiskRoundTrip32(variant, SIGNATURE);
    assert ToDisk32(variant, raw) == FromDisk32(variant, raw) by { SameConversion(variant, raw); }
    assert ToDisk32(variant, SIGNATURE) == FromDisk32(variant, SIGNATURE) by { SameConversion(variant, SIGNATURE); }
  }

  lemma SameConversion(variant: Variant, x: u32)
    ensures ToDisk32(variant, x) == FromDisk32(variant, x)
  {
  }

  // the item of n bytes at offset of the device
  function ItemAt(device: seq<byte>, offset: nat, n: nat): Option<seq<byte>> {
    if offset + n <= |device| then Some(device[offset..offset + n]) else None
  }

  // The variant and superblock that opening works with, for a device that has one or a
  // partition that is to be formatted.
  function ChosenSuperblock(device: seq<byte>, offset: nat, request: Request, sectorsPerCluster: u32,
      id: u32): Option<(Variant, Superblock)>
  {
    if sectorsPerCluster == READ_FROM_SUPERBLOCK then
      var b := ItemAt(device, offset, SUPERBLOCK_SIZE);
      if b.None? || |b.value| != SUPERBLOCK_SIZE || Probed(request, Signature(b.value)).None? then None
      else
        var variant := Probed(request, Signature(b.value)).value;
        Some((variant, ReadFields(variant, b.value)))
    else if request == Only(X360) then None
    else Some((Xbox, Superblock(id, sectorsPerCluster, 1)))
  }

  // A superblock is read exactly where its letters are, and where they are those that are
  // asked for; its words then are the fields.
  lemma ReadWhereWritten(device: seq<byte>, offset: nat, request: Request, id: u32, variant: Variant)
    ensures var chosen := ChosenSuperblock(device, offset, request, READ_FROM_SUPERBLOCK, id);
      && (chosen.Some? && chosen.value.0 == variant <==>
          && offset + SUPERBLOCK_SIZE <= |device| && device[offset..offset + 4] == Letters(variant)
          && (request == Auto || request == Only(variant)))
      && (chosen.Some? && chosen.value.0 == variant ==> FieldsThere(device, offset, variant, chosen.value.1))
  {
    hide Word32, Bytes32, FromDisk32, ToDisk32, Word4, Probed, Letters;
    if offset + SUPERBLOCK_SIZE <= |device| {
      var b := device[offset..offset + SUPERBLOCK_SIZE];
      assert b[..4] == device[offset..offset + 4] && b[4..8] == device[offset + 4..offset + 8];
      assert b[8..12] == device[offset + 8..offset + 12] && b[12..16] == device[offset + 12..offset + 16];
      ProbedIsWritten(request, Signature(b), variant);
      SignatureBytes(variant);
      BytesOfWord32(b[..4]);
      WordOfBytes32(ToDisk32(variant, SIGNATURE));
      Word4Reads(variant, device, offset + 4);
      Word4Reads(variant, device, offset + 8);
      Word4Reads(variant, device, offset + 12);
    }
  }

  // The device has the letters of a variant that will do at offset, and space behind.
  predicate ThereFor(device: seq<byte>, offset: nat, request: Request) {
    && offset + SUPERBLOCK_SIZE <= |device|
    && exists v: Variant :: device[offset..offset + 4] == Letters(v) && (request == Auto || request == Only(v))
  }

  // It has those of this one, and behind them the fields.
  predicate FieldsThere(device: seq<byte>, offset: nat, variant: Variant, sb: Superblock) {
    && offset + SUPERBLOCK_SIZE <= |device| && device[offset..offset + 4] == Letters(variant)
    && sb.volumeId == Word4(variant, device, offset + 4) && sb.sectorsPerCluster == Word4(variant, device, offset + 8)
    && sb.rootCluster == Word4(variant, device, offset + 12)
  }

  lemma ReadIfWritten(device: seq<byte>, offset: nat, request: Request, id: u32)
    ensures var chosen := ChosenSuperblock(device, offset, request, READ_FROM_SUPERBLOCK, id);
      && (chosen.Some? <==> ThereFor(device, offset, request))
      && (chosen.Some? ==> FieldsThere(device, offset, chosen.value.0, chosen.value.1))
  {
    hide Letters, Word4, ChosenSuperblock;
    forall v: Variant {
      ReadWhereWritten(device, offset, request, id, v);
    }
    var chosen := ChosenSuperblock(device, offset, request, READ_FROM_SUPERBLOCK, id);
    if chosen.Some? {
      ReadWhereWritten(device, offset, request, id, chosen.value.0);
    }
  }

  // fatx_read_superblock
  method ReadSuperblock(device: seq<byte>, offset: nat, variant: Variant) returns (ok: bool, sb: Superblock)
    ensures ok <==>
              && offset + SUPERBLOCK_SIZE <= |device|
              && FromDisk32(variant, Signature(device[offset..offset + SUPERBLOCK_SIZE])) == SIGNATURE
    ensures ok ==> sb == ReadFields(variant, device[offset..offset + SUPERBLOCK_SIZE])
  {
    hide FromDisk32, Word32;
    sb := Superblock(0, 0, 0);
    var b := ItemAt(device, offset, SUPERBLOCK_SIZE);
    if b.None? {
      return false, sb;
    }
    if FromDisk32(variant, Signature(b.value)) != SIGNATURE {
      return false, sb;
    }
    return true, ReadFields(variant, b.value);
  }

  // fatx_check_partition_signature
  method CheckSignature(device: seq<byte>, offset: nat, request: Request) returns (probed: Option<Variant>)
    ensures probed == if offset + 4 <= |device| then Probed(request, Word32(device[offset..offset + 4])) else None
  {
    hide Word32;
    var signature := ItemAt(device, offset, 4);
    if signature.None? {
      return None;
    }
    return Probed(request, Word32(signature.value));
  }

  lemma ProbedReads(request: Request, raw: u32)
    ensures Probed(request, raw).Some? ==> FromDisk32(Probed(request, raw).value, raw) == SIGNATURE
  {
    hide FromDisk32, ToDisk32, VariantFromRawSignature;
    if Probed(request, raw).Some? {
      var variant := Probed(request, raw).value;
      ProbedIsWritten(request, raw, variant);
      DiskRoundTrip32(variant, SIGNATURE);
    }
  }

  // fatx_init_superblock; id is the microsecond that becomes a new volume's identifier
  method InitSuperblock(device: seq<byte>, offset: nat, request: Request, sectorsPerCluster: u32, id: u32)
    returns (ok: bool, variant: Variant, sb: Superblock)
    ensures ok <==> ChosenSuperblock(device, offset, request, sectorsPerCluster, id).Some?
    ensures ok ==> ChosenSuperblock(device, offset, request, sectorsPerCluster, id) == Some((variant, sb))
    // read where the letters are, or made for the original Xbox
    ensures sectorsPerCluster == READ_FROM_SUPERBLOCK ==> (ok <==> ThereFor(device, offset, request))
    ensures sectorsPerCluster == READ_FROM_SUPERBLOCK && ok ==> FieldsThere(device, offset, variant, sb)
    ensures sectorsPerCluster != READ_FROM_SUPERBLOCK ==>
              && (ok <==> request != Only(X360))
              && (ok ==> variant == Xbox && sb == Superblock(id, sectorsPerCluster, 1))
  {
    hide ThereFor, FieldsThere;
    ReadIfWritten(device, offset, request, id);
    hide FromDisk32, ToDisk32, Word32, VariantFromRawSignature, Probed;
    variant, sb := Xbox, Superblock(id, sectorsPerCluster, 1);
    if sectorsPerCluster == READ_FROM_SUPERBLOCK {
      if offset + SUPERBLOCK_SIZE <= |device| {
        assert device[offset..offset + SUPERBLOCK_SIZE][..4] == device[offset..offset + 4];
        ProbedReads(request, Word32(device[offset..offset + 4]));
      }
      var probed := CheckSignature(device, offset, request);
      if probed.None? {
        return false, variant, sb;
      }
      variant := probed.value;
      ok, sb := ReadSuperblock(device, offset, variant);
      return;
    }
    return request != Only(X360), variant, sb;
  }

  // The size of the partition: the one that is asked for, or the rest of the device in
  // whole sectors.
  function ChosenSize(deviceSize: nat, offset: nat, size: nat, sectorSize: nat): Option<nat>
    requires sectorSize > 0
  {
    if size != REST then Some(size)
    else if offset > deviceSize then None
    else Some(deviceSize - offset - (deviceSize - offset) % sectorSize)
  }

  // What fatx_open_device_ex accepts.
  predicate Opens(device: seq<byte>, offset: nat, size: nat, sectorSize: nat, sectorsPerCluster: u32, request: Request,
      id: u32) {
    && SectorSizeOk(sectorSize) && ChosenSize(|device|, offset, size, sectorSize).Some?
    && ChosenSuperblock(device, offset, request, sectorsPerCluster, id).Some?
    && var sb := ChosenSuperblock(device, offset, request, sectorsPerCluster, id).value.1;
       Accepted(offset, ChosenSize(|device|, offset, size, sectorSize).value, sectorSize, sb.sectorsPerCluster,
         sb.rootCluster)
  }

  // A partition as libfatx sees it: its geometry follows from its size and superblock.
  ghost predicate LibGeometry(geo: Geometry, offset: nat, size: nat, sectorSize: nat, sb: Superblock) {
    var bpc := BytesPerCluster(sb.sectorsPerCluster, sectorSize);
    bpc > 0 && CutUp(geo, offset, size, bpc, sb.rootCluster, Capacity(size, bpc) + RESERVED_ENTRIES)
  }

  // fatx_open_device_ex
  method OpenDevice(device: seq<byte>, offset: nat, size: nat, sectorSize: nat, sectorsPerCluster: u32,
      request: Request, id: u32)
    returns (ok: bool, geo: Geometry, variant: Variant, sb: Superblock)
    ensures ok <==> Opens(device, offset, size, sectorSize, sectorsPerCluster, request, id)
    ensures ok ==>
              && ChosenSuperblock(device, offset, request, sectorsPerCluster, id) == Some((variant, sb))
              && LibGeometry(geo, offset, ChosenSize(|device|, offset, size, sectorSize).value, sectorSize, sb)
    // the partition is of the size asked for, or the longest from offset on that is whole
    // sectors and ends on the device
    ensures ok ==> sectorSize > 0 && geo.partitionOffset == offset && geo.partitionSize % sectorSize == 0
    ensures ok && size != REST ==> geo.partitionSize == size
    ensures ok && size == REST ==>
              offset + geo.partitionSize <= |device| < offset + geo.partitionSize + sectorSize
  {
    hide Capacity, BytesPerCluster, ClusterCount, ChosenSuperblock, ThereFor, FieldsThere;
    geo := Geometry(0, 0, 0, false, 0, 0, 0, 0, 0);
    variant, sb := Xbox, Superblock(id, sectorsPerCluster, 1);
    if sectorSize != 512 && sectorSize != 4096 {
      return false, geo, variant, sb;
    }
    if offset % sectorSize != 0 {
      return false, geo, variant, sb;
    }
    var bytes := size;
    if size == REST {
      if offset > |device| {
        return false, geo, variant, sb;
      }
      bytes := |device| - offset;
      bytes := bytes - bytes % sectorSize;
    }
    if bytes % sectorSize != 0 {
      return false, geo, variant, sb;
    }
    ok, variant, sb := InitSuperblock(device, offset, request, sectorsPerCluster, id);
    if !ok {
      return;
    }
    ok, geo := LayOut(offset, bytes, sectorSize, sb.sectorsPerCluster, sb.rootCluster);
  }

  // The device carries the superblock sb of variant at offset.
  ghost predicate Carries(device: seq<byte>, offset: nat, variant: Variant, sb: Superblock) {
    offset + SUPERBLOCK_SIZE <= |device| && device[offset..offset + SUPERBLOCK_SIZE] == SuperblockBytes(variant, sb)
  }

  // Detecting the variant and then comparing it with the one that is asked for accepts
  // what fatx_check_partition_signature accepts.
  lemma DetectedIsProbed(request: Request, raw: u32)
    ensures var detected := VariantFromRawSignature(raw);
      Probed(request, raw)
      == if detected.Found? && (request == Auto || request == Only(detected.variant))
         then Some(detected.variant) else None
  {
    hide FromDisk32, ToDisk32, VariantFromRawSignature;
    match request {
      case Auto =>
      case Only(v) =>
        ProbedIsWritten(request, raw, v);
        DetectionInvertsWriting(raw, v);
    }
  }

  // A superblock that was written is the one that opening finds, on demand or by probing.
  lemma CarriedIsChosen(device: seq<byte>, offset: nat, variant: Variant, sb: Superblock, request: Request, id: u32)
    requires Carries(device, offset, variant, sb)
    ensures ChosenSuperblock(device, offset, request, READ_FROM_SUPERBLOCK, id)
         == if request == Auto || request == Only(variant) then Some((variant, sb)) else None
  {
    hide FromDisk32, ToDisk32, Word32, VariantFromRawSignature, SuperblockBytes, ReadFields, Probed;
    SuperblockRoundTrip(variant, sb);
    DetectedIsProbed(request, Signature(device[offset..offset + SUPERBLOCK_SIZE]));
  }

  // Two devices are the same but for the superblock at offset.
  ghost predicate Elsewhere(device: seq<byte>, device': seq<byte>, offset: nat) {
    && |device'| == |device|
    && forall i :: 0 <= i < |device| && (i < offset || offset + SUPERBLOCK_SIZE <= i) ==> device'[i] == device[i]
  }

  // fatx_write_superblock; what it writes is what opening the device then finds.
  method WriteSuperblock(device: seq<byte>, offset: nat, variant: Variant, sb: Superblock)
      returns (ok: bool, device': seq<byte>)
    ensures ok <==> offset + SUPERBLOCK_SIZE <= |device|
    ensures !ok ==> device' == device
    ensures ok ==> Carries(device', offset, variant, sb) && Elsewhere(device, device', offset)
    ensures ok ==>
              forall request, id ::
                ChosenSuperblock(device', offset, request, READ_FROM_SUPERBLOCK, id)
                == if request == Auto || request == Only(variant) then Some((variant, sb)) else None
  {
    hide SuperblockBytes, ChosenSuperblock;
    if offset + SUPERBLOCK_SIZE > |device| {
      return false, device;
    }
    device' := Splice(device, offset, SuperblockBytes(variant, sb));
    SpliceInside(device, offset, SuperblockBytes(variant, sb), offset, offset + SUPERBLOCK_SIZE);
    forall request, id
      ensures ChosenSuperblock(device', offset, request, READ_FROM_SUPERBLOCK, id)
           == if request == Auto || request == Only(variant) then Some((variant, sb)) else None
    {
      CarriedIsChosen(device', offset, variant, sb, request, id);
    }
    ok := true;
  }

  // ---- the Rust reader ----

  // Superblock::normalize over the little-endian fields
  function Normalized(variant: Variant, b: seq<byte>): Superblock
    requires |b| == SUPERBLOCK_SIZE
  {
    var id, sectors, root := Word32(b[4..8]), Word32(b[8..12]), Word32(b[12..16]);
    if variant.X360? then Superblock(Swap32(id), Swap32(sectors), Swap32(root)) else Superblock(id, sectors, root)
  }

  // Both programs take the same fields from every superblock.
  lemma FieldsAgree(variant: Variant, b: seq<byte>)
    requires |b| == SUPERBLOCK_SIZE
    ensures Normalized(variant, b) == ReadFields(variant, b)
  {
    hide Word32, Swap32;
  }

  // The size that the Rust reader works with.
  function RustSize(deviceSize: nat, offset: nat, size: nat): Option<nat> {
    if size != REST then Some(size)
    else if deviceSize <= offset then None
    else Some(deviceSize - offset - (deviceSize - offset) % RUST_SECTOR)
  }

  // For the rest of the device both arrive at one size exactly if there is a rest.
  lemma RestAgrees(deviceSize: nat, offset: nat)
    ensures RustSize(deviceSize, offset, REST).Some?
            && RustSize(deviceSize, offset, REST) == ChosenSize(deviceSize, offset, REST, RUST_SECTOR) <==>
            offset < deviceSize
  {
  }

  // The bytes of a table of n entries, in whole pages.
  function TableSize(n: nat): nat {
    NextMultiple(if n < FAT16_LIMIT then 2 * n else 4 * n, FAT_ALIGN)
  }

  ghost predicate RustCutUp(geo: Geometry, offset: nat, size: nat, sb: Superblock) {
    var bpc := BytesPerCluster(sb.sectorsPerCluster, RUST_SECTOR);
    bpc > 0 && CutUp(geo, offset, size, bpc, sb.rootCluster, Capacity(size, bpc) % 0x1_0000_0000)
  }

  // What the Rust reader accepts: the device holds the whole table.
  predicate RustFits(device: seq<byte>, offset: nat, size: nat, sb: Superblock) {
    var bpc := BytesPerCluster(sb.sectorsPerCluster, RUST_SECTOR);
    && Aligned(offset, RUST_SECTOR) && Aligned(size, RUST_SECTOR) && SectorsPerClusterOk(sb.sectorsPerCluster)
       && bpc > 0
    && sb.rootCluster < Capacity(size, bpc) % 0x1_0000_0000
    && offset + FAT_OFFSET + TableSize(Capacity(size, bpc) % 0x1_0000_0000) <= |device|
  }

  lemma RustTable(geo: Geometry, offset: nat, size: nat, sb: Superblock)
    requires RustCutUp(geo, offset, size, sb)
    ensures var bpc := BytesPerCluster(sb.sectorsPerCluster, RUST_SECTOR);
      geo.fatOffset == offset + FAT_OFFSET && geo.fatSize == TableSize(Capacity(size, bpc) % 0x1_0000_0000)
    ensures geo.partitionOffset == offset && geo.partitionSize == size
  {
    hide Capacity, BytesPerCluster, ClusterCount, NextMultiple;
    var n := Capacity(size, BytesPerCluster(sb.sectorsPerCluster, RUST_SECTOR)) % 0x1_0000_0000;
    SameMultiple(geo.fatSize, TableSize(n), if n < FAT16_LIMIT then 2 * n else 4 * n);
  }

  lemma SameMultiple(x: nat, y: nat, n: nat)
    requires x % FAT_ALIGN == 0 && y % FAT_ALIGN == 0 && n <= x < n + FAT_ALIGN && n <= y < n + FAT_ALIGN
    ensures x == y
  {
    var p, q := x / FAT_ALIGN, y / FAT_ALIGN;
    assert x == FAT_ALIGN * p && y == FAT_ALIGN * q;
  }

  // FatxFs::open_device up to the last field it computes, and the table it reads
  method RustOpen(device: seq<byte>, offset: nat, size: nat, request: Request)
    returns (ok: bool, geo: Geometry, variant: Variant, fatData: seq<byte>)
    ensures ok ==>
              geo.fatOffset + geo.fatSize <= |device| && fatData == device[geo.fatOffset..geo.fatOffset + geo.fatSize]
    ensures ok <==>
              && RustSize(|device|, offset, size).Some?
              && ChosenSuperblock(device, offset, request, READ_FROM_SUPERBLOCK, 0).Some?
              && RustFits(device, offset, RustSize(|device|, offset, size).value,
                          ChosenSuperblock(device, offset, request, READ_FROM_SUPERBLOCK, 0).value.1)
    ensures ok ==>
              && ChosenSuperblock(device, offset, request, READ_FROM_SUPERBLOCK, 0).value.0 == variant
              && var s, sb := RustSize(|device|, offset, size).value,
                              ChosenSuperblock(device, offset, request, READ_FROM_SUPERBLOCK, 0).value.1;
                 RustCutUp(geo, offset, s, sb)
    // the partition is of the size asked for, or as long as whole sectors allow
    ensures ok ==> geo.partitionOffset == offset && geo.partitionSize % RUST_SECTOR == 0
    ensures ok && size != REST ==> geo.partitionSize == size
    ensures ok && size == REST ==>
              offset + geo.partitionSize <= |device| < offset + geo.partitionSize + RUST_SECTOR
  {
    hide Capacity, BytesPerCluster, ClusterCount, FromDisk32, ToDisk32, Word32, VariantFromRawSignature, ReadFields,
         Normalized, Swap32, CutUp;
    geo, variant, fatData := Geometry(0, 0, 0, false, 0, 0, 0, 0, 0), Xbox, [];
    if offset % RUST_SECTOR != 0 {
      return false, geo, variant, fatData;
    }
    var bytes := size;
    if size == REST {
      if |device| <= offset {
        return false, geo, variant, fatData;
      }
      bytes := |device| - offset;
      bytes := bytes - bytes % RUST_SECTOR;
    }
    if bytes % RUST_SECTOR != 0 {
      return false, geo, variant, fatData;
    }
    var b := ItemAt(device, offset, SUPERBLOCK_SIZE);
    if b.None? {
      return false, geo, variant, fatData;
    }
    var detected := VariantFromRawSignature(Signature(b.value));
    DetectedIsProbed(request, Signature(b.value));
    if detected.NotFatx? {
      return false, geo, variant, fatData;
    }
    if request != Auto && request != Only(detected.variant) {
      return false, geo, variant, fatData;
    }
    variant := detected.variant;
    var sb := Normalized(variant, b.value);
    FieldsAgree(variant, b.value);
    ok, geo := RustLayOut(offset, bytes, RUST_SECTOR, sb.sectorsPerCluster, sb.rootCluster);
    if !ok {
      return;
    }
    RustTable(geo, offset, bytes, sb);
    var table := ItemAt(device, geo.fatOffset, geo.fatSize);
    ok := table.Some?;
    if ok {
      fatData := table.value;
    }
  }

  // ---- the two programs on one partition ----

  // The partitions that both programs lay out alike: sectors of 512 bytes, fewer than 2^32
  // clusters, not 0xffef of them, and a table that does not end on a page boundary.
  predicate BothAlike(geo: Geometry, size: nat, sectorSize: nat, sb: Superblock) {
    var bpc := BytesPerCluster(sb.sectorsPerCluster, sectorSize);
    && sectorSize == RUST_SECTOR && bpc > 0 && Capacity(size, bpc) < 0x1_0000_0000
    && Capacity(size, bpc) != 0xffef && !PageExact(geo, Capacity(size, bpc))
  }

  // There the Rust reader arrives at libfatx's geometry, and at no other.
  lemma RustArrives(geo: Geometry, offset: nat, size: nat, sectorSize: nat, sb: Superblock, rust: Geometry)
    requires LibGeometry(geo, offset, size, sectorSize, sb) && BothAlike(geo, size, sectorSize, sb)
    ensures RustCutUp(rust, offset, size, sb) <==> rust == geo
  {
    hide Capacity, BytesPerCluster, ClusterCount, CutUp, PageExact;
    var bpc := BytesPerCluster(sb.sectorsPerCluster, sectorSize);
    LibIsRust(geo, offset, size, bpc, sb.rootCluster);
    if RustCutUp(rust, offset, size, sb) {
      LayoutsAgree(geo, rust, offset, size, bpc, sb.rootCluster);
    }
  }

  lemma LibIsRust(geo: Geometry, offset: nat, size: nat, bpc: nat, root: nat)
    requires bpc > 0 && CutUp(geo, offset, size, bpc, root, Capacity(size, bpc) + RESERVED_ENTRIES)
    requires Capacity(size, bpc) < 0x1_0000_0000 && Capacity(size, bpc) != 0xffef
             && !PageExact(geo, Capacity(size, bpc))
    ensures CutUp(geo, offset, size, bpc, root, Capacity(size, bpc) % 0x1_0000_0000)
  {
    hide Capacity, ClusterCount;
    var n := Capacity(size, bpc);
    if geo.fat32 {
      SamePages32(n, geo.fatSize, NextMultiple(4 * n, FAT_ALIGN));
    } else {
      SamePages16(n, geo.fatSize, NextMultiple(2 * n, FAT_ALIGN));
    }
  }

  // A device that carries libfatx's superblock is opened by the Rust reader with libfatx's
  // geometry and variant, if it is not asked for the other variant.
  method RustOpenCarried(device: seq<byte>, offset: nat, size: nat, request: Request, ghost lib: Geometry,
      ghost bytes: nat, ghost sectorSize: nat, ghost variant: Variant, ghost sb: Superblock)
    returns (ok: bool, geo: Geometry, found: Variant, fatData: seq<byte>)
    requires Carries(device, offset, variant, sb) && (request == Auto || request == Only(variant))
    requires RustSize(|device|, offset, size) == Some(bytes)
    requires LibGeometry(lib, offset, bytes, sectorSize, sb) && BothAlike(lib, bytes, sectorSize, sb)
    requires Accepted(offset, bytes, sectorSize, sb.sectorsPerCluster, sb.rootCluster)
    requires sb.rootCluster < Capacity(bytes, BytesPerCluster(sb.sectorsPerCluster, sectorSize))
    requires lib.fatOffset + lib.fatSize <= |device|
    ensures ok && geo == lib && found == variant && fatData == device[lib.fatOffset..lib.fatOffset + lib.fatSize]
  {
    hide Capacity, BytesPerCluster, CutUp, ChosenSuperblock, TableSize, SuperblockBytes, Carries, LibGeometry,
         RustCutUp, RustSize;
    CarriedIsChosen(device, offset, variant, sb, request, 0);
    RustArrives(lib, offset, bytes, sectorSize, sb, lib);
    RustTable(lib, offset, bytes, sb);
    ok, geo, found, fatData := RustOpen(device, offset, size, request);
    RustArrives(lib, offset, bytes, sectorSize, sb, geo);
  }
}
