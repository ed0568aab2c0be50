// Where the FAT and the clusters of a partition lie: fatx_open_device_ex of libfatx and
// FatxFs::open_device of the Rust reader.

module Partitions {
  import opened Geometry
  import Streams

  const FAT_ALIGN := 4096
  const FAT16_LIMIT := 0xfff0

  predicate SectorsPerClusterOk(n: nat) {
    n in {1, 2, 4, 8, 16, 32, 64, 128, 256, 512, 1024}
  }

  function Power(e: nat): nat {
    if e == 0 then 1 else 2 * Power(e - 1)
  }

  // The cluster sizes in sectors are the powers of two up to 1024.
  lemma PowersOfTwo(n: nat)
    ensures SectorsPerClusterOk(n) <==> exists e :: 0 <= e <= 10 && n == Power(e)
  {
    assert Power(0) == 1 && Power(1) == 2 && Power(2) == 4 && Power(3) == 8 && Power(4) == 16;
    assert Power(5) == 32 && Power(6) == 64 && Power(7) == 128 && Power(8) == 256;
    assert Power(9) == 512 && Power(10) == 1024;
  }

  predicate SectorSizeOk(n: nat) {
    n == 512 || n == 4096
  }

  predicate Aligned(n: nat, m: nat)
    requires m > 0
  {
    n % m == 0
  }

  function BytesPerCluster(sectorsPerCluster: nat, sectorSize: nat): nat {
    sectorsPerCluster * sectorSize
  }

  // The clusters a partition could hold if nothing else were in it.
  function Capacity(size: nat, bpc: nat): nat
    requires bpc > 0
  {
    size / bpc
  }

  // What fatx_open_device_ex accepts.
  predicate Accepted(offset: nat, size: nat, sectorSize: nat, sectorsPerCluster: nat, root: nat) {
    && SectorSizeOk(sectorSize) && Aligned(offset, sectorSize) && Aligned(size, sectorSize)
    && SectorsPerClusterOk(sectorsPerCluster) && BytesPerCluster(sectorsPerCluster, sectorSize) > 0
    && root < Capacity(size, BytesPerCluster(sectorsPerCluster, sectorSize)) + RESERVED_ENTRIES
  }

  // The number of data clusters behind a FAT of fatSize bytes, counted in 64 and stored
  // in 32 bits.
  function ClusterCount(size: nat, fatSize: nat, bpc: nat): nat
    requires bpc > 0
  {
    ((size as int - fatSize as int - FAT_OFFSET) % 0x1_0000_0000_0000_0000 / bpc + RESERVED_ENTRIES) % 0x1_0000_0000
  }

  // geo is a partition cut up for a FAT of entries entries.
  ghost predicate CutUp(geo: Geometry, offset: nat, size: nat, bpc: nat, root: nat, entries: nat) {
    && geo.partitionOffset == offset && geo.partitionSize == size && geo.bytesPerCluster == bpc && bpc > 0
    && (geo.fat32 <==> entries >= FAT16_LIMIT)
    && geo.fatOffset == offset + FAT_OFFSET
    && geo.fatSize % FAT_ALIGN == 0 && geo.EntryOffset(entries) <= geo.fatSize < geo.EntryOffset(entries) + FAT_ALIGN
    && geo.clusterOffset == geo.fatOffset + geo.fatSize
    && geo.numClusters == ClusterCount(size, geo.fatSize, bpc)
    && geo.rootCluster == root
  }

  lemma ClusterSizes(sectorSize: nat, sectorsPerCluster: nat)
    requires SectorSizeOk(sectorSize) && SectorsPerClusterOk(sectorsPerCluster)
    ensures var bpc := BytesPerCluster(sectorsPerCluster, sectorSize); bpc >= 512 && bpc % 64 == 0
  {
  }

  // the part of fatx_open_device_ex behind the superblock
  method LayOut(offset: nat, size: nat, sectorSize: nat, sectorsPerCluster: nat, root: nat)
      returns (ok: bool, geo: Geometry)
    requires SectorSizeOk(sectorSize)
    ensures ok <==>
              && SectorsPerClusterOk(sectorsPerCluster) && BytesPerCluster(sectorsPerCluster, sectorSize) > 0
              && root < Capacity(size, BytesPerCluster(sectorsPerCluster, sectorSize)) + RESERVED_ENTRIES
    ensures ok ==>
              var bpc := BytesPerCluster(sectorsPerCluster, sectorSize);
              CutUp(geo, offset, size, bpc, root, Capacity(size, bpc) + RESERVED_ENTRIES)
  {
    hide Capacity, BytesPerCluster, ClusterCount;
    geo := Geometry(offset, size, 0, false, 0, 0, 0, 0, root);
    if !SectorsPerClusterOk(sectorsPerCluster) {
      return false, geo;
    }
    ClusterSizes(sectorSize, sectorsPerCluster);
    geo := geo.(bytesPerCluster := BytesPerCluster(sectorsPerCluster, sectorSize));
    geo := geo.(fatOffset := offset + FAT_OFFSET);
    geo := geo.(fatSize := Capacity(size, geo.bytesPerCluster));
    geo := geo.(fatSize := geo.fatSize + RESERVED_ENTRIES);
    if root >= geo.fatSize {
      return false, geo;
    }
    if geo.fatSize < FAT16_LIMIT {
      geo := geo.(fat32 := false);
      geo := geo.(fatSize := geo.fatSize * 2);
    } else {
      geo := geo.(fat32 := true);
      geo := geo.(fatSize := geo.fatSize * 4);
    }
    if geo.fatSize % FAT_ALIGN != 0 {
      geo := geo.(fatSize := geo.fatSize + FAT_ALIGN - geo.fatSize % FAT_ALIGN);
    }
    geo := geo.(clusterOffset := geo.fatOffset + geo.fatSize);
    geo := geo.(numClusters := ClusterCount(size, geo.fatSize, geo.bytesPerCluster));
    ok := true;
  }

  // There is one way only to cut a partition up.
  lemma CutUpUnique(c: Geometry, r: Geometry, offset: nat, size: nat, bpc: nat, root: nat, entries: nat)
    requires CutUp(c, offset, size, bpc, root, entries) && CutUp(r, offset, size, bpc, root, entries)
    ensures c == r
  {
    hide ClusterCount;
    var x, y := c.fatSize / FAT_ALIGN, r.fatSize / FAT_ALIGN;
    assert c.fatSize == FAT_ALIGN * x && r.fatSize == FAT_ALIGN * y;
    assert x == y;
  }

  // ---- soundness ----

  lemma DivBounds(a: nat, b: nat)
    requires b > 0
    ensures a / b * b <= a < a / b * b + b
  {
  }

  lemma MulGap(x: int, y: int, d: nat)
    ensures x >= y + 1 ==> x * d >= y * d + d
  {
    var k := x - y;
    assert x * d == y * d + k * d;
    Streams.MulBound(k, d);
  }

  lemma DivMonotone(a: nat, b: nat, d: nat)
    requires d > 0 && a <= b
    ensures a / d <= b / d
  {
    DivBounds(a, d);
    DivBounds(b, d);
    MulGap(a / d, b / d, d);
  }

  lemma DivShift(a: nat, d: nat)
    requires d > 0 && a >= d
    ensures (a - d) / d == a / d - 1
  {
    DivBounds(a, d);
    DivBounds(a - d, d);
    var x, y := a / d, (a - d) / d;
    MulGap(x - 1, y, d);
    MulGap(y, x - 1, d);
    assert (x - 1) * d == x * d - d;
  }

  // Room for two data clusters, and few enough of them for the entry width.
  predicate LargeEnough(geo: Geometry, entries: nat) {
    && geo.partitionSize >= FAT_OFFSET + geo.fatSize + 2 * geo.bytesPerCluster
    && geo.partitionSize < 0x1_0000_0000_0000_0000 && entries < 0xffff_fff0
  }

  lemma CountBounds(geo: Geometry, offset: nat, size: nat, bpc: nat, root: nat)
    requires bpc > 0 && CutUp(geo, offset, size, bpc, root, Capacity(size, bpc) + RESERVED_ENTRIES)
    requires LargeEnough(geo, Capacity(size, bpc) + RESERVED_ENTRIES)
    ensures 3 <= geo.numClusters <= Capacity(size, bpc) + RESERVED_ENTRIES
    ensures FAT_OFFSET + geo.fatSize + Times(geo.numClusters - 1, bpc) <= size
    ensures size < FAT_OFFSET + geo.fatSize + Times(geo.numClusters - 1, bpc) + bpc
    ensures bpc <= 8192 ==> geo.numClusters <= Capacity(size, bpc)
  {
    hide Times;
    var rest: nat := size - geo.fatSize - FAT_OFFSET;
    DivMonotone(rest, size, bpc);
    DivMonotone(2 * bpc, rest, bpc);
    assert 2 * bpc / bpc == 2 by { DivShift(2 * bpc, bpc); DivShift(bpc, bpc); }
    assert rest % 0x1_0000_0000_0000_0000 == rest;
    assert geo.numClusters == rest / bpc + RESERVED_ENTRIES;
    TimesIsProduct(geo.numClusters - 1, bpc);
    DivBounds(rest, bpc);
    if bpc <= 8192 {
      assert geo.fatSize >= 4096;
      DivMonotone(rest, size - bpc, bpc);
      DivShift(size, bpc);
    }
  }

  // Whether a table of whole pages for entries entries has one to spare.
  lemma TableFits16(n: nat, entries: nat, fatSize: nat)
    requires n <= entries && fatSize % FAT_ALIGN == 0 && 2 * entries <= fatSize < 2 * entries + FAT_ALIGN
    ensures 2 * (n + 1) <= fatSize <==> !(n == entries && 2 * entries % FAT_ALIGN == 0)
  {
    if n == entries {
      var pages := fatSize / FAT_ALIGN;
      assert fatSize == 2 * (2048 * pages);
      var q := 2 * entries / FAT_ALIGN;
      assert 2 * entries == FAT_ALIGN * q + 2 * entries % FAT_ALIGN;
    }
  }

  lemma TableFits32(n: nat, entries: nat, fatSize: nat)
    requires n <= entries && fatSize % FAT_ALIGN == 0 && 4 * entries <= fatSize < 4 * entries + FAT_ALIGN
    ensures 4 * (n + 1) <= fatSize <==> !(n == entries && 4 * entries % FAT_ALIGN == 0)
  {
    if n == entries {
      var pages := fatSize / FAT_ALIGN;
      assert fatSize == 4 * (1024 * pages);
      var q := 4 * entries / FAT_ALIGN;
      assert 4 * entries == FAT_ALIGN * q + 4 * entries % FAT_ALIGN;
    }
  }

  lemma TableFits(geo: Geometry, entries: nat)
    requires geo.numClusters <= entries && geo.fatSize % FAT_ALIGN == 0
    requires geo.EntryOffset(entries) <= geo.fatSize < geo.EntryOffset(entries) + FAT_ALIGN
    ensures geo.EntryOffset(geo.numClusters + 1) <= geo.fatSize <==>
            !(geo.numClusters == entries && PageExact(geo, entries))
  {
    if geo.fat32 {
      TableFits32(geo.numClusters, entries, geo.fatSize);
    } else {
      TableFits16(geo.numClusters, entries, geo.fatSize);
    }
  }

  // A partition that is large enough is sound, except when its last entry would be one
  // too many: with clusters above 8 KiB, a count that was not reduced by the FAT's own
  // space, and a table that fills its last 4 KiB exactly.
  lemma OpenedIsSound(geo: Geometry, offset: nat, size: nat, sectorSize: nat, sectorsPerCluster: nat, root: nat)
    requires Accepted(offset, size, sectorSize, sectorsPerCluster, root)
    requires var bpc := BytesPerCluster(sectorsPerCluster, sectorSize);
             var entries := Capacity(size, bpc) + RESERVED_ENTRIES;
      && CutUp(geo, offset, size, bpc, root, entries) && LargeEnough(geo, entries)
    requires 1 <= root < geo.numClusters
    ensures var entries := Capacity(size, geo.bytesPerCluster) + RESERVED_ENTRIES;
      geo.Sound() <==> !(geo.numClusters == entries && PageExact(geo, entries))
    ensures var entries := Capacity(size, geo.bytesPerCluster) + RESERVED_ENTRIES;
      geo.bytesPerCluster <= 8192 || !PageExact(geo, entries) ==> geo.Sound()
  {
    hide Times, Capacity, ClusterCount, Aligned, BytesPerCluster, PageExact;
    var bpc := BytesPerCluster(sectorsPerCluster, sectorSize);
    ClusterSizes(sectorSize, sectorsPerCluster);
    var entries := Capacity(size, bpc) + RESERVED_ENTRIES;
    CountBounds(geo, offset, size, bpc, root);
    TableFits(geo, entries);
  }

  predicate PageExact(geo: Geometry, entries: nat) {
    geo.EntryOffset(entries) % FAT_ALIGN == 0
  }

  // 16 KiB and four clusters are enough.
  lemma MinimumSize(geo: Geometry, offset: nat, size: nat, bpc: nat, root: nat)
    requires bpc >= 512 && CutUp(geo, offset, size, bpc, root, Capacity(size, bpc) + RESERVED_ENTRIES)
    requires size >= 16384 + 4 * bpc
    ensures size >= FAT_OFFSET + geo.fatSize + 2 * bpc
  {
    hide Times, ClusterCount, Capacity;
    CapacityBound(size, bpc);
  }

  lemma CapacityBound(size: nat, bpc: nat)
    requires bpc >= 512
    ensures Capacity(size, bpc) * 512 <= size
  {
    var n := Capacity(size, bpc);
    DivBounds(size, bpc);
    assert n * bpc == n * 512 + n * (bpc - 512);
  }

  // So every such partition can be formatted, its root directory in cluster 1.
  lemma LargeIsSound(geo: Geometry, offset: nat, size: nat, sectorSize: nat, sectorsPerCluster: nat)
    requires Accepted(offset, size, sectorSize, sectorsPerCluster, 1)
    requires var bpc := BytesPerCluster(sectorsPerCluster, sectorSize);
             var entries := Capacity(size, bpc) + RESERVED_ENTRIES;
      && CutUp(geo, offset, size, bpc, 1, entries)
      && 16384 + 4 * bpc <= size < 0x1_0000_0000_0000_0000 && entries < 0xffff_fff0
      && (bpc <= 8192 || !PageExact(geo, entries))
    ensures geo.Sound()
  {
    hide Times, Capacity, ClusterCount, Aligned, BytesPerCluster, PageExact;
    var bpc := BytesPerCluster(sectorsPerCluster, sectorSize);
    ClusterSizes(sectorSize, sectorsPerCluster);
    MinimumSize(geo, offset, size, bpc, 1);
    CountBounds(geo, offset, size, bpc, 1);
    OpenedIsSound(geo, offset, size, sectorSize, sectorsPerCluster, 1);
  }

  // The table of a large enough partition is the smallest in pages that has an entry for
  // every cluster that fits without a table, and one more; cluster 1 is behind it, the others
  // follow one another, and there is no space for a further one.
  lemma FillsPartition(geo: Geometry, offset: nat, size: nat, bpc: nat, root: nat)
    requires bpc > 0 && CutUp(geo, offset, size, bpc, root, Capacity(size, bpc) + RESERVED_ENTRIES)
    requires LargeEnough(geo, Capacity(size, bpc) + RESERVED_ENTRIES)
    ensures var n := Capacity(size, bpc) + 1;
      var table := if n < 0xfff0 then 2 * n else 4 * n;
      geo.fatSize % 4096 == 0 && table <= geo.fatSize < table + 4096
    ensures geo.ClusterStart(1) == offset + 4096 + geo.fatSize
    ensures forall c :: c >= 1 ==> geo.ClusterStart(c + 1) == geo.ClusterStart(c) + bpc
    ensures geo.numClusters >= 3
            && geo.ClusterStart(geo.numClusters) <= offset + size < geo.ClusterStart(geo.numClusters) + bpc
  {
    hide Times, ClusterCount, Capacity;
    CountBounds(geo, offset, size, bpc, root);
    TimesStep(0, bpc);
    forall c | c >= 1 ensures geo.ClusterStart(c + 1) == geo.ClusterStart(c) + bpc {
      TimesStep(c - 1, bpc);
    }
  }

  // Clusters 1 .. numClusters - 1 lie behind the FAT, inside the partition, and apart.
  lemma ClustersApart(geo: Geometry, c: nat, d: nat)
    requires geo.Sound() && 1 <= c < geo.numClusters && 1 <= d < geo.numClusters
    ensures geo.fatOffset + geo.fatSize <= geo.ClusterStart(c)
    ensures geo.ClusterStart(c) + geo.bytesPerCluster <= geo.partitionOffset + geo.partitionSize
    ensures c != d ==> geo.ClusterStart(c) + geo.bytesPerCluster <= geo.ClusterStart(d)
                       || geo.ClusterStart(d) + geo.bytesPerCluster <= geo.ClusterStart(c)
  {
    hide Times;
    TimesMonotone(c - 1, geo.numClusters - 1, geo.bytesPerCluster);
    if c < d { TimesMonotone(c - 1, d - 1, geo.bytesPerCluster); }
    if d < c { TimesMonotone(d - 1, c - 1, geo.bytesPerCluster); }
  }

  // ---- the Rust reader ----

  // next_multiple_of
  function NextMultiple(n: nat, m: nat): (r: nat)
    requires m > 0
    ensures r % m == 0 && n <= r < n + m
  {
    var q := n % m;
    MultipleUp(n, m);
    if q == 0 then n else n + (m - q)
  }

  lemma MultipleUp(n: nat, m: nat)
    requires m > 0
    ensures (n + (m - n % m)) % m == 0
  {
    var q := n / m;
    assert n + (m - n % m) == (q + 1) * m;
    ProductMod(q + 1, m);
  }

  lemma ProductMod(q: nat, m: nat)
    requires m > 0
    ensures q * m % m == 0
  {
    DivBounds(q * m, m);
    var x := q * m / m;
    MulGap(q, x, m);
    MulGap(x, q, m);
  }

  // the part of FatxFs::open_device behind the superblock, with Fat::new: no reserved
  // entry is counted before sizing the FAT
  method RustLayOut(offset: nat, size: nat, sectorSize: nat, sectorsPerCluster: nat, root: nat)
      returns (ok: bool, geo: Geometry)
    requires SectorSizeOk(sectorSize)
    ensures ok <==>
              && SectorsPerClusterOk(sectorsPerCluster) && BytesPerCluster(sectorsPerCluster, sectorSize) > 0
              && root < Capacity(size, BytesPerCluster(sectorsPerCluster, sectorSize)) % 0x1_0000_0000
    ensures ok ==>
              var bpc := BytesPerCluster(sectorsPerCluster, sectorSize);
              CutUp(geo, offset, size, bpc, root, Capacity(size, bpc) % 0x1_0000_0000)
  {
    hide Capacity, BytesPerCluster, ClusterCount;
    geo := Geometry(0, 0, 0, false, 0, 0, 0, 0, 0);
    if !SectorsPerClusterOk(sectorsPerCluster) {
      return false, geo;
    }
    ClusterSizes(sectorSize, sectorsPerCluster);
    var bpc := BytesPerCluster(sectorsPerCluster, sectorSize);
    var fatOffset := offset + FAT_OFFSET;
    var numFatEntries: nat := Capacity(size, bpc) % 0x1_0000_0000;
    if root >= numFatEntries {
      return false, geo;
    }
    var fat32, fatSize;
    if numFatEntries < FAT16_LIMIT {
      fat32, fatSize := false, NextMultiple(numFatEntries * 2, FAT_ALIGN);
    } else {
      fat32, fatSize := true, NextMultiple(numFatEntries * 4, FAT_ALIGN);
    }
    var clusterOffset := fatOffset + fatSize;
    var numClusters := ClusterCount(size, fatSize, bpc);
    return true, Geometry(offset, size, bpc, fat32, fatOffset, fatSize, clusterOffset, numClusters, root);
  }

  // The two layouts of one partition coincide exactly when the entry that C counts in
  // advance changes neither the entry width nor the number of 4 KiB pages.
  lemma LayoutsAgree(c: Geometry, r: Geometry, offset: nat, size: nat, bpc: nat, root: nat)
    requires bpc > 0 && Capacity(size, bpc) < 0x1_0000_0000
    requires CutUp(c, offset, size, bpc, root, Capacity(size, bpc) + RESERVED_ENTRIES)
    requires CutUp(r, offset, size, bpc, root, Capacity(size, bpc) % 0x1_0000_0000)
    ensures c == r <==> c.fat32 == r.fat32 && c.clusterOffset == r.clusterOffset
    ensures c == r <==> Capacity(size, bpc) != 0xffef && !PageExact(c, Capacity(size, bpc))
  {
    hide Capacity, ClusterCount;
    var n := Capacity(size, bpc);
    assert c.fat32 == r.fat32 <==> n != 0xffef;
    if c.fat32 == r.fat32 {
      if c.fat32 {
        SamePages32(n, c.fatSize, r.fatSize);
      } else {
        SamePages16(n, c.fatSize, r.fatSize);
      }
    }
  }

  // Rounding up a and rounding up the next entry's end reach the same page exactly if a
  // is not the end of a page itself.
  lemma SamePages16(n: nat, x: nat, y: nat)
    requires x % FAT_ALIGN == 0 && 2 * n + 2 <= x < 2 * n + 2 + FAT_ALIGN
    requires y % FAT_ALIGN == 0 && 2 * n <= y < 2 * n + FAT_ALIGN
    ensures x == y <==> 2 * n % FAT_ALIGN != 0
  {
    var px, py, q, r := x / FAT_ALIGN, y / FAT_ALIGN, n / 2048, n % 2048;
    assert x == FAT_ALIGN * px && y == FAT_ALIGN * py;
    assert 2 * n == FAT_ALIGN * q + 2 * r;
    PageRest(q, 2 * r);
    LinearPages(px, py, q, r, 2);
  }

  lemma SamePages32(n: nat, x: nat, y: nat)
    requires x % FAT_ALIGN == 0 && 4 * n + 4 <= x < 4 * n + 4 + FAT_ALIGN
    requires y % FAT_ALIGN == 0 && 4 * n <= y < 4 * n + FAT_ALIGN
    ensures x == y <==> 4 * n % FAT_ALIGN != 0
  {
    var px, py, q, r := x / FAT_ALIGN, y / FAT_ALIGN, n / 1024, n % 1024;
    assert x == FAT_ALIGN * px && y == FAT_ALIGN * py;
    assert 4 * n == FAT_ALIGN * q + 4 * r;
    PageRest(q, 4 * r);
    LinearPages(px, py, q, r, 4);
  }

  lemma PageRest(q: nat, r: nat)
    requires r < FAT_ALIGN
    ensures (FAT_ALIGN * q + r) % FAT_ALIGN == r
  {
  }

  lemma LinearPages(px: nat, py: nat, q: nat, r: nat, w: nat)
    requires (w == 2 && r < 2048) || (w == 4 && r < 1024)
    requires var a := FAT_ALIGN * q + if w == 2 then 2 * r else 4 * r;
      a + w <= FAT_ALIGN * px < a + w + FAT_ALIGN && a <= FAT_ALIGN * py < a + FAT_ALIGN
    ensures px == py <==> r != 0
  {
  }
}
