/** The master boot record (lib/filesystem/src/master_boot_record.rs) and the
  * filesystem error type (lib/filesystem/src/error.rs): the classic 512-byte MBR
  * layout — 436 bytes of bootstrap code, a 10-byte disk id, four 16-byte
  * partition entries and the 0x55 0xAA boot signature — decoded field by field
  * in declaration order, little-endian, and validated. */
module Mbr {
  import opened Common
  import opened Io

  /** `FilesystemError`. */
  datatype FilesystemError = IoError(kind: ErrorKind) | UnknownBootIndicator(index: byte) | BadSignature

  // ---------------------------------------------------------------------------
  // Cylinder-head-sector addresses

  /** `CHS`: the three raw bytes of a cylinder-head-sector address. */
  datatype Chs = Chs(header: byte, sector: byte, cylinder: byte)

  /** `CHS::sector`: the top six bits of the sector byte (`sector >> 2`). */
  function ChsSector(c: Chs): (r: byte)
    ensures r < 64 && r * 4 <= c.sector < r * 4 + 4
  {
    c.sector / 4
  }

  /** `CHS::cylinder` as written: the cylinder byte ANDed with the two low bits of
    * the sector byte shifted to bits 8 and 9 (`& 0b11` is `% 4`, `<< 8` is `* 256`). */
  function ChsCylinder(c: Chs): (r: u16)
  {
    Pow2Facts();
    DisjointBits(c.cylinder, c.sector % 4, 8);
    And(c.cylinder, (c.sector % 4) * 256)
  }

  /** The two operands of the AND share no bit, so the cylinder as written is
    * always 0, whatever the address holds. */
  lemma ChsCylinderIsZero(c: Chs)
    ensures ChsCylinder(c) == 0
  {
    Pow2Facts();
    DisjointBits(c.cylinder, c.sector % 4, 8);
  }

  /** The cylinder evidently intended: the cylinder byte ORed with the two low
    * bits of the sector byte as bits 8 and 9. */
  function ChsCylinderFixed(c: Chs): (r: u16)
  {
    Pow2Facts();
    DisjointBits(c.cylinder, c.sector % 4, 8);
    Or(c.cylinder, (c.sector % 4) * 256)
  }

  /** The corrected cylinder is the 10-bit number whose low byte is the cylinder
    * byte and whose bits 8 and 9 are the low two bits of the sector byte. */
  lemma ChsCylinderFixedFields(c: Chs)
    ensures ChsCylinderFixed(c) < 1024
    ensures ChsCylinderFixed(c) % 256 == c.cylinder
    ensures ChsCylinderFixed(c) / 256 == c.sector % 4
  {
    Pow2Facts();
    DisjointBits(c.cylinder, c.sector % 4, 8);
    DivModUnique(c.sector % 4, c.cylinder, 256);
  }

  function ParseChs(b: seq<byte>): (c: Chs)
    requires |b| == 3
  {
    Chs(b[0], b[1], b[2])
  }

  function ChsBytes(c: Chs): (b: seq<byte>)
    ensures |b| == 3
  {
    [c.header, c.sector, c.cylinder]
  }

  // ---------------------------------------------------------------------------
  // Partition entries

  /** `PartitionEntry`, 16 bytes on disk. */
  datatype PartitionEntry = PartitionEntry(bootIndicator: byte, startingChs: Chs, partitionType: byte,
                                           endingChs: Chs, relativeSector: u32, totalSectors: u32)

  /** Decoding a partition entry in field order. */
  function ParseEntry(b: seq<byte>): (e: PartitionEntry)
    requires |b| == 16
  {
    PartitionEntry(b[0], ParseChs(b[1..4]), b[4], ParseChs(b[5..8]), U32At(b, 8), U32At(b, 12))
  }

  /** Encoding a partition entry in field order. */
  function EntryBytes(e: PartitionEntry): (b: seq<byte>)
    ensures |b| == 16
  {
    [e.bootIndicator] + ChsBytes(e.startingChs) + [e.partitionType] + ChsBytes(e.endingChs)
      + ToLe(e.relativeSector, 4) + ToLe(e.totalSectors, 4)
  }

  /** Decoding and encoding a partition entry are inverse to each other. */
  lemma EntryRoundTrip(e: PartitionEntry, b: seq<byte>)
    requires |b| == 16
    ensures ParseEntry(EntryBytes(e)) == e
    ensures EntryBytes(ParseEntry(b)) == b
  {
    EntryParseOfBytes(e);
    EntryBytesOfParse(b);
  }

  lemma EntryParseOfBytes(e: PartitionEntry)
    ensures ParseEntry(EntryBytes(e)) == e
  {
    var eb := EntryBytes(e);
    assert eb[8..12] == ToLe(e.relativeSector, 4);
    assert eb[12..16] == ToLe(e.totalSectors, 4);
    Pow2Facts();
    FromToLe(e.relativeSector, 4);
    FromToLe(e.totalSectors, 4);
  }

  lemma EntryBytesOfParse(b: seq<byte>)
    requires |b| == 16
    ensures EntryBytes(ParseEntry(b)) == b
  {
    ToFromLe(b[8..12]);
    ToFromLe(b[12..16]);
    assert U32At(b, 8) == FromLe(b[8..12]) && U32At(b, 12) == FromLe(b[12..16]);
    assert b == [b[0]] + b[1..4] + [b[4]] + b[5..8] + b[8..12] + b[12..16];
  }

  // ---------------------------------------------------------------------------
  // The record

  /** `MasterBootRecord`. */
  datatype MasterBootRecord = MasterBootRecord(bootstrap: seq<byte>, diskId: seq<byte>,
                                               partitionTable: seq<PartitionEntry>, validBootSector: seq<byte>)

  /** The field sizes of the on-disk layout. */
  predicate WellFormed(m: MasterBootRecord)
  {
    |m.bootstrap| == 436 && |m.diskId| == 10 && |m.partitionTable| == 4 && |m.validBootSector| == 2
  }

  /** `MasterBootRecord::load_slice` on a 512-byte block. */
  function ParseMbr(b: seq<byte>): (m: MasterBootRecord)
    requires |b| == 512
    ensures WellFormed(m)
  {
    MasterBootRecord(b[..436], b[436..446],
                     [ParseEntry(b[446..462]), ParseEntry(b[462..478]), ParseEntry(b[478..494]), ParseEntry(b[494..510])],
                     b[510..])
  }

  /** The record's 512 on-disk bytes. */
  function MbrBytes(m: MasterBootRecord): (b: seq<byte>)
    requires WellFormed(m)
    ensures |b| == 512
  {
    m.bootstrap + m.diskId
      + EntryBytes(m.partitionTable[0]) + EntryBytes(m.partitionTable[1])
      + EntryBytes(m.partitionTable[2]) + EntryBytes(m.partitionTable[3])
      + m.validBootSector
  }

  /** Decoding and encoding the record are inverse to each other. */
  lemma MbrRoundTrip(m: MasterBootRecord, b: seq<byte>)
    requires WellFormed(m) && |b| == 512
    ensures ParseMbr(MbrBytes(m)) == m
    ensures MbrBytes(ParseMbr(b)) == b
  {
    MbrParseOfBytes(m);
    MbrBytesOfParse(b);
  }

  lemma MbrParseOfBytes(m: MasterBootRecord)
    requires WellFormed(m)
    ensures ParseMbr(MbrBytes(m)) == m
  {
    var t := m.partitionTable;
    var mb := MbrBytes(m);
    assert mb[446..462] == EntryBytes(t[0]);
    assert mb[462..478] == EntryBytes(t[1]);
    assert mb[478..494] == EntryBytes(t[2]);
    assert mb[494..510] == EntryBytes(t[3]);
    EntryParseOfBytes(t[0]);
    EntryParseOfBytes(t[1]);
    EntryParseOfBytes(t[2]);
    EntryParseOfBytes(t[3]);
    assert ParseMbr(mb).partitionTable == t;
  }

  lemma MbrBytesOfParse(b: seq<byte>)
    requires |b| == 512
    ensures MbrBytes(ParseMbr(b)) == b
  {
    EntryBytesOfParse(b[446..462]);
    EntryBytesOfParse(b[462..478]);
    EntryBytesOfParse(b[478..494]);
    EntryBytesOfParse(b[494..510]);
    assert b == b[..436] + b[436..446] + b[446..462] + b[462..478] + b[478..494] + b[494..510] + b[510..];
  }

  /** A boot indicator the record accepts: inactive (0) or active (0x80). */
  predicate KnownIndicator(e: PartitionEntry)
  {
    e.bootIndicator == 0 || e.bootIndicator == 0x80
  }

  /** The index of the first entry from `i` on with an unknown boot indicator. */
  function FirstUnknownIndicator(table: seq<PartitionEntry>, i: nat): (r: Option<nat>)
    requires i <= |table|
    ensures r.Some? ==> i <= r.value < |table| && !KnownIndicator(table[r.value])
                        && forall j :: i <= j < r.value ==> KnownIndicator(table[j])
    ensures r.None? ==> forall j :: i <= j < |table| ==> KnownIndicator(table[j])
    decreases |table| - i
  {
    if i == |table| then None
    else if !KnownIndicator(table[i]) then Some(i)
    else FirstUnknownIndicator(table, i + 1)
  }

  /** The checks of `try_from` after the block is read: the signature, then
    * the boot indicators in table order. */
  function Validate(m: MasterBootRecord): (r: Result<MasterBootRecord, FilesystemError>)
    requires WellFormed(m)
  {
    if m.validBootSector[0] != 0x55 || m.validBootSector[1] != 0xAA then Err(BadSignature)
    else match FirstUnknownIndicator(m.partitionTable, 0)
      case Some(i) => Err(UnknownBootIndicator(i))
      case None => Ok(m)
  }

  /** A record is accepted, unchanged, exactly when it carries the signature and
    * every boot indicator is known; otherwise the error names the first problem. */
  lemma ValidateOutcome(m: MasterBootRecord)
    requires WellFormed(m)
    ensures Validate(m).Ok? <==> m.validBootSector == [0x55, 0xAA] && forall j :: 0 <= j < 4 ==> KnownIndicator(m.partitionTable[j])
    ensures Validate(m).Ok? ==> Validate(m).value == m
    ensures Validate(m) == Err(BadSignature) <==> m.validBootSector != [0x55, 0xAA]
    ensures Validate(m).Err? && Validate(m).error.UnknownBootIndicator? ==>
              var i := Validate(m).error.index;
              && m.validBootSector == [0x55, 0xAA] && i < 4 && !KnownIndicator(m.partitionTable[i])
              && forall j :: 0 <= j < i ==> KnownIndicator(m.partitionTable[j])
  {
    var s := m.validBootSector;
    assert s == [0x55, 0xAA] <==> s[0] == 0x55 && s[1] == 0xAA;
  }

  /** `MasterBootRecord::try_from(device)`: read block 0 into a 512-byte buffer
    * (an I/O error when the device's blocks are not 512 bytes or it has none),
    * decode it and validate it. */
  function MbrFrom(blocks: seq<seq<byte>>, blockSize: nat): (r: Result<MasterBootRecord, FilesystemError>)
    requires forall b :: 0 <= b < |blocks| ==> |blocks[b]| == blockSize
  {
    if blockSize != 512 then Err(IoError(Unsupported))
    else if |blocks| == 0 then Err(IoError(NotFound))
    else Validate(ParseMbr(blocks[0]))
  }

  /** A record read from a device is block 0 decoded, and it has passed the
    * checks; so every boot indicator it holds is known. */
  lemma MbrFromOutcome(blocks: seq<seq<byte>>, blockSize: nat)
    requires forall b :: 0 <= b < |blocks| ==> |blocks[b]| == blockSize
    ensures MbrFrom(blocks, blockSize).Ok? <==>
              blockSize == 512 && |blocks| > 0 && Validate(ParseMbr(blocks[0])).Ok?
    ensures MbrFrom(blocks, blockSize).Ok? ==>
              && MbrFrom(blocks, blockSize).value == ParseMbr(blocks[0])
              && MbrBytes(MbrFrom(blocks, blockSize).value) == blocks[0]
              && forall j :: 0 <= j < 4 ==> KnownIndicator(MbrFrom(blocks, blockSize).value.partitionTable[j])
  {
    if blockSize == 512 && |blocks| > 0 {
      ValidateOutcome(ParseMbr(blocks[0]));
      MbrRoundTrip(ParseMbr(blocks[0]), blocks[0]);
    }
  }
}
