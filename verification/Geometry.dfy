module Geometry {

  const FAT_OFFSET := 4096
  const RESERVED_ENTRIES := 1

  // n * k by repeated addition, so that address arithmetic stays linear.
  function Times(n: nat, k: nat): nat {
    if n == 0 then 0 else Times(n - 1, k) + k
  }

  lemma {:induction false} TimesIsProduct(n: nat, k: nat)
    ensures Times(n, k) == n * k
  {
    if n > 0 { TimesIsProduct(n - 1, k); }
  }

  lemma TimesStep(n: nat, k: nat)
    ensures Times(n + 1, k) == Times(n, k) + k && Times(0, k) == 0
  {
  }

  lemma {:induction false} TimesMonotone(m: nat, n: nat, k: nat)
    requires m < n
    ensures Times(m, k) + k <= Times(n, k)
  {
    if m + 1 < n { TimesMonotone(m, n - 1, k); }
  }

  // The fields of struct fatx_fs that fatx_open_device_ex computes.
  datatype Geometry = Geometry(
    partitionOffset: nat,
    partitionSize: nat,
    bytesPerCluster: nat,
    fat32: bool,
    fatOffset: nat,
    fatSize: nat,
    clusterOffset: nat,
    numClusters: nat,
    rootCluster: nat)
  {
    function Width(): nat {
      if fat32 then 4 else 2
    }

    function EntryOffset(i: nat): nat {
      if fat32 then 4 * i else 2 * i
    }

    // Byte address of cluster c on the device.
    function ClusterStart(c: nat): nat
      requires c >= RESERVED_ENTRIES
    {
      clusterOffset + Times(c - RESERVED_ENTRIES, bytesPerCluster)
    }

    // The first byte behind the last cluster.
    function ClustersEnd(): nat {
      if numClusters >= RESERVED_ENTRIES then ClusterStart(numClusters) else clusterOffset
    }

    // What the storage engine relies on: the FAT has room for every index the
    // engine accepts, all clusters lie inside the partition, and every cluster
    // number is a data value of the entry width.
    ghost predicate Sound() {
      && bytesPerCluster >= 512 && bytesPerCluster % 64 == 0
      && fatOffset == partitionOffset + FAT_OFFSET
      && clusterOffset == fatOffset + fatSize
      && EntryOffset(numClusters + 1) <= fatSize
      && 3 <= numClusters < (if fat32 then 0xffff_fff0 else 0xfff0)
      && ClusterStart(numClusters) <= partitionOffset + partitionSize
      && 1 <= rootCluster < numClusters
    }
  }
}
