/** FAT32 cluster numbers and the arithmetic that locates a cluster's FAT entry
  * and its data sectors (lib/vfat/src/cluster.rs).  A FAT32 cluster number is
  * 28 bits wide: the top four bits of a FAT entry are reserved (fatgen103,
  * section "FAT Data Structure"). */
module Clusters {
  import opened Common

  const CLUSTER_LIMIT: int := 0x1000_0000

  type ClusterNum = n: int | 0 <= n < 0x1000_0000

  /** `Cluster(u32)`; only values built by `Cluster::from` exist, so the number is below 2^28. */
  datatype Cluster = Cluster(num: ClusterNum)

  /** `From<u32> for Cluster`: `raw & !(0xF << 28)` keeps the low 28 bits. */
  function ClusterFrom(raw: u32): (c: Cluster)
  {
    Cluster(raw % CLUSTER_LIMIT)
  }

  /** Clearing the top four bits keeps every 28-bit number and is idempotent. */
  lemma ClusterFromMasks(raw: u32)
    ensures ClusterFrom(raw).num == raw % CLUSTER_LIMIT
    ensures raw < CLUSTER_LIMIT ==> ClusterFrom(raw).num == raw
    ensures ClusterFrom(ToU32(ClusterFrom(raw))) == ClusterFrom(raw)
    ensures forall top: nat :: top < 16 && raw < CLUSTER_LIMIT ==> ClusterFrom(top * CLUSTER_LIMIT + raw) == ClusterFrom(raw)
  {
  }

  /** `Into<u32> for Cluster`. */
  function ToU32(c: Cluster): (r: u32)
    ensures r < CLUSTER_LIMIT
  {
    c.num
  }

  /** `offset`: the byte offset of the cluster's entry within the FAT (4 bytes per entry). */
  function Offset(c: Cluster): (r: u32)
    ensures r % 4 == 0 && r / 4 == c.num
  {
    c.num * 4
  }

  /** `fat_sector_number`: the sector holding the cluster's FAT entry. */
  function FatSectorNumber(c: Cluster, reservedSectorCount: u64, bytesPerSector: u16): (r: u64)
    requires bytesPerSector > 0
    requires reservedSectorCount + c.num * 4 / bytesPerSector < U64_LIMIT
  {
    reservedSectorCount + c.num * 4 / bytesPerSector
  }

  /** `fat_entry_offset`: the entry's byte offset within that sector. */
  function FatEntryOffset(c: Cluster, bytesPerSector: u16): (r: u32)
    requires bytesPerSector > 0
    ensures r < bytesPerSector
  {
    (c.num * 4) % bytesPerSector
  }

  /** Sector and in-sector offset recompose to the entry's byte offset in the FAT. */
  lemma FatPositionRecomposes(c: Cluster, reservedSectorCount: u64, bytesPerSector: u16)
    requires bytesPerSector > 0
    requires reservedSectorCount + c.num * 4 / bytesPerSector < U64_LIMIT
    ensures FatSectorNumber(c, reservedSectorCount, bytesPerSector) >= reservedSectorCount
    ensures (FatSectorNumber(c, reservedSectorCount, bytesPerSector) - reservedSectorCount) * bytesPerSector
              + FatEntryOffset(c, bytesPerSector) == Offset(c)
  {
  }

  /** `sector_start`: the first data sector of the cluster.  Cluster numbers
    * start at 2, and `self.0 as u64 - 2` would underflow below that. */
  function SectorStart(c: Cluster, dataStartSector: u64, sectorsPerCluster: byte): (r: u64)
    requires c.num >= 2
    requires dataStartSector + (c.num - 2) * sectorsPerCluster < U64_LIMIT
  {
    dataStartSector + (c.num - 2) * sectorsPerCluster
  }

  /** The sectors of distinct clusters do not overlap: cluster `c` owns
    * `[SectorStart(c), SectorStart(c) + sectorsPerCluster)`, and the owner of a
    * data sector is recovered by division. */
  lemma {:induction false} SectorRangesDisjoint(c: Cluster, d: Cluster, dataStartSector: u64, sectorsPerCluster: byte)
    requires 2 <= c.num < d.num
    requires dataStartSector + (d.num - 2) * sectorsPerCluster < U64_LIMIT
    ensures SectorStart(c, dataStartSector, sectorsPerCluster) + sectorsPerCluster <= SectorStart(d, dataStartSector, sectorsPerCluster)
    ensures sectorsPerCluster > 0 ==>
      (SectorStart(c, dataStartSector, sectorsPerCluster) - dataStartSector) / sectorsPerCluster + 2 == c.num
  {
    var k, m := c.num - 2, d.num - c.num;
    assert (k + m) * sectorsPerCluster == k * sectorsPerCluster + m * sectorsPerCluster;
    MulAtLeast(m, sectorsPerCluster);
    assert d.num - 2 == k + m;
    if sectorsPerCluster > 0 {
      MulDivCancel(k, sectorsPerCluster);
    }
  }

  /** `high_and_low`: the two 16-bit halves stored in a directory entry. */
  function HighAndLow(c: Cluster): (r: (u16, u16))
  {
    (c.num / 0x1_0000, c.num % 0x1_0000)
  }

  /** `(high << 16) | low` gives the cluster back, and the high half uses only 12 bits. */
  lemma HighAndLowRecombine(c: Cluster)
    ensures HighAndLow(c).0 < 0x1000
    ensures HighAndLow(c).0 * 0x1_0000 + HighAndLow(c).1 == c.num
    ensures ClusterFrom(HighAndLow(c).0 * 0x1_0000 + HighAndLow(c).1) == c
  {
  }
}
