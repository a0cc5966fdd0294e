/** FAT32 table entries (lib/vfat/src/fat.rs): classification of a 32-bit entry
  * into free / reserved / data / bad / end-of-chain after fatgen103, section
  * "FAT Data Structure", its encoding back into an entry, and the position of a
  * cluster's entry in the FAT. */
module Fat {
  import opened Common
  import opened Clusters

  datatype Status = Free | Reserved | Data(next: Cluster) | Bad | Eoc(bits: u32)

  /** `Status::new_eoc`. */
  function NewEoc(): (s: Status)
    ensures s.Eoc? && StatusOf(FromStatus(s)) == s
  {
    Eoc(0x0FFF_FFF8)
  }

  datatype FatEntry = FatEntry(raw: u32)

  /** `From<Status> for FatEntry`. */
  function FromStatus(s: Status): (e: FatEntry)
  {
    match s
    case Free => FatEntry(0)
    case Reserved => FatEntry(0x0FFF_FFF6)
    case Data(c) => FatEntry(ToU32(c))
    case Bad => FatEntry(0x0FFF_FFF7)
    case Eoc(bits) => FatEntry(bits)
  }

  /** `From<[u8; 4]> for FatEntry` (`u32::from_le_bytes`). */
  function FromBytes(b: seq<byte>): (e: FatEntry)
    requires |b| == 4
  {
    Pow2Facts();
    FatEntry(FromLe(b))
  }

  /** `Into<[u8; 4]> for FatEntry` (`to_le_bytes`). */
  function ToBytes(e: FatEntry): (b: seq<byte>)
    ensures |b| == 4
  {
    ToLe(e.raw, 4)
  }

  /** The byte conversions are inverse to each other. */
  lemma BytesRoundTrip(e: FatEntry, b: seq<byte>)
    requires |b| == 4
    ensures FromBytes(ToBytes(e)) == e
    ensures ToBytes(FromBytes(b)) == b
  {
    Pow2Facts();
    FromToLe(e.raw, 4);
    ToFromLe(b);
  }

  /** `FatEntry::status`: classify the low 28 bits. */
  function StatusOf(e: FatEntry): (s: Status)
  {
    var bits := e.raw % 0x1000_0000;
    if bits == 0 then Free
    else if 2 <= bits <= 0x0FFF_FFEF then Data(ClusterFrom(bits))
    else if bits == 0x0FFF_FFF7 then Bad
    else if 0x0FFF_FFF8 <= bits <= 0x0FFF_FFFF then Eoc(bits)
    else Reserved
  }

  /** `FatEntry::is_free`. */
  predicate IsFree(e: FatEntry)
  {
    StatusOf(e) == Free
  }

  /** The classification, range by range, of the low 28 bits; the top four bits
    * never matter. */
  lemma StatusRanges(e: FatEntry)
    ensures var bits := e.raw % 0x1000_0000;
      && (StatusOf(e) == Free <==> bits == 0)
      && (StatusOf(e).Data? <==> 2 <= bits <= 0x0FFF_FFEF)
      && (StatusOf(e).Data? ==> StatusOf(e).next.num == bits)
      && (StatusOf(e) == Bad <==> bits == 0x0FFF_FFF7)
      && (StatusOf(e).Eoc? <==> 0x0FFF_FFF8 <= bits)
      && (StatusOf(e).Eoc? ==> StatusOf(e).bits == bits)
      && (StatusOf(e) == Reserved <==> bits == 1 || 0x0FFF_FFF0 <= bits <= 0x0FFF_FFF6)
    ensures StatusOf(e) == StatusOf(FatEntry(e.raw % 0x1000_0000))
    ensures IsFree(e) <==> e.raw % 0x1000_0000 == 0
  {
  }

  /** The statuses `StatusOf` can produce. */
  predicate Canonical(s: Status)
  {
    match s
    case Data(c) => 2 <= c.num <= 0x0FFF_FFEF
    case Eoc(bits) => 0x0FFF_FFF8 <= bits <= 0x0FFF_FFFF
    case _ => true
  }

  /** Encoding a status and classifying it gives the status back exactly when it
    * is one the classifier produces; and every classified entry whose low 28
    * bits are not a reserved value re-encodes to those bits. */
  lemma StatusRoundTrip(s: Status, e: FatEntry)
    ensures StatusOf(FromStatus(s)) == s <==> Canonical(s)
    ensures Canonical(StatusOf(e))
    ensures StatusOf(e) != Reserved ==> FromStatus(StatusOf(e)).raw == e.raw % 0x1000_0000
  {
  }

  /** `FatEntry::find`: the FAT sector and byte offset of a cluster's entry. */
  function Find(c: Cluster, fatStartSector: u64, bytesPerSector: u64): (r: (u64, nat))
    requires bytesPerSector > 0
    requires fatStartSector + Offset(c) / bytesPerSector < U64_LIMIT
  {
    (fatStartSector + Offset(c) / bytesPerSector, Offset(c) % bytesPerSector)
  }

  /** The offset lies within the sector, and sector and offset locate byte `4 * c`
    * of the FAT. */
  lemma FindLocatesEntry(c: Cluster, fatStartSector: u64, bytesPerSector: u64)
    requires bytesPerSector > 0
    requires fatStartSector + Offset(c) / bytesPerSector < U64_LIMIT
    ensures var (block, offset) := Find(c, fatStartSector, bytesPerSector);
      && offset < bytesPerSector
      && block >= fatStartSector
      && (block - fatStartSector) * bytesPerSector + offset == 4 * c.num
  {
  }
}
