/** The FAT32 BIOS parameter block (lib/vfat/src/bios_parameter_block.rs): the
  * 512-byte boot sector of a FAT32 partition, decoded field by field in
  * declaration order with little-endian integers (fatgen103, section "Boot
  * Sector and BPB"), and accepted only with the 0x55 0xAA signature. */
module Bpb {
  import opened Common
  import opened Io
  import opened Device
  import opened Mbr
  import opened Partition

  /** `BiosParameterBlock`. */
  datatype BiosParameterBlock = BiosParameterBlock(
    jumpInstructions: seq<byte>, oemIdentifier: seq<byte>, bytesPerSector: u16, sectorsPerCluster: byte,
    reservedSectors: u16, numberOfFats: byte, maxNumOfDirs: u16, totalLogicalSectors: u16,
    mediaDescriptorType: byte, sectorsPerFatOne: u16, sectorsPerTrack: u16, numberOfHeads: u16,
    numberOfHiddenSectors: u32, totalLogicalSectorsExtended: u32, sectorsPerFatTwo: u32, flags: u16,
    version: u16, rootCluster: u32, sectorOfFsinfo: u16, sectorOfBackup: u16, reserved: seq<byte>,
    driveNumber: byte, ntFlags: byte, signature: byte, serialNumber: u32, labelString: seq<byte>,
    systemIdentifier: seq<byte>, bootCode: seq<byte>, bpSignature: seq<byte>)

  /** The array fields have their declared lengths. */
  predicate WellFormed(p: BiosParameterBlock)
  {
    && |p.jumpInstructions| == 3 && |p.oemIdentifier| == 8 && |p.reserved| == 12 && |p.labelString| == 11
    && |p.systemIdentifier| == 8 && |p.bootCode| == 420 && |p.bpSignature| == 2
  }

  /** `load_slice` of a 512-byte block, read in four runs of fields: bytes
    * 0..22, 22..44, 44..71 and 71..512. */
  function Parse(b: seq<byte>): (p: BiosParameterBlock)
    requires |b| == 512
    ensures WellFormed(p)
  {
    var h1, h2, h3, h4 := b[..22], b[22..44], b[44..71], b[71..];
    BiosParameterBlock(
      h1[0..3], h1[3..11], U16At(h1, 11), h1[13], U16At(h1, 14), h1[16], U16At(h1, 17), U16At(h1, 19), h1[21],
      U16At(h2, 0), U16At(h2, 2), U16At(h2, 4), U32At(h2, 6), U32At(h2, 10), U32At(h2, 14), U16At(h2, 18),
      U16At(h2, 20),
      U32At(h3, 0), U16At(h3, 4), U16At(h3, 6), h3[8..20], h3[20], h3[21], h3[22], U32At(h3, 23),
      h4[0..11], h4[11..19], h4[19..439], h4[439..441])
  }

  /** Bytes 0..22: jump, OEM name, sector size, cluster size, reserved sectors,
    * FAT count, root entries, sector count, media type. */
  function Run1(p: BiosParameterBlock): (h: seq<byte>)
    requires WellFormed(p)
    ensures |h| == 22
  {
    p.jumpInstructions + p.oemIdentifier + ToLe(p.bytesPerSector, 2) + [p.sectorsPerCluster]
      + ToLe(p.reservedSectors, 2) + [p.numberOfFats] + ToLe(p.maxNumOfDirs, 2) + ToLe(p.totalLogicalSectors, 2)
      + [p.mediaDescriptorType]
  }

  /** Bytes 22..44: 16-bit FAT size, geometry, hidden and 32-bit sector counts,
    * 32-bit FAT size, flags, version. */
  function Run2(p: BiosParameterBlock): (h: seq<byte>)
    ensures |h| == 22
  {
    ToLe(p.sectorsPerFatOne, 2) + ToLe(p.sectorsPerTrack, 2) + ToLe(p.numberOfHeads, 2)
      + ToLe(p.numberOfHiddenSectors, 4) + ToLe(p.totalLogicalSectorsExtended, 4) + ToLe(p.sectorsPerFatTwo, 4)
      + ToLe(p.flags, 2) + ToLe(p.version, 2)
  }

  /** Bytes 44..71: root cluster, FSInfo and backup sectors, reserved bytes,
    * drive number, NT flags, signature, serial number. */
  function Run3(p: BiosParameterBlock): (h: seq<byte>)
    requires WellFormed(p)
    ensures |h| == 27
  {
    ToLe(p.rootCluster, 4) + ToLe(p.sectorOfFsinfo, 2) + ToLe(p.sectorOfBackup, 2) + p.reserved
      + [p.driveNumber] + [p.ntFlags] + [p.signature] + ToLe(p.serialNumber, 4)
  }

  /** Bytes 71..512: label, system identifier, boot code, boot signature. */
  function Run4(p: BiosParameterBlock): (h: seq<byte>)
    requires WellFormed(p)
    ensures |h| == 441
  {
    p.labelString + p.systemIdentifier + p.bootCode + p.bpSignature
  }

  /** The block's 512 bytes, fields in declaration order. */
  function Bytes(p: BiosParameterBlock): (b: seq<byte>)
    requires WellFormed(p)
    ensures |b| == 512
  {
    Run1(p) + Run2(p) + Run3(p) + Run4(p)
  }

  /** The bytes `h[i..k]` are the bytes `h[i..j]` followed by `h[j..k]`. */
  lemma SliceSplit(h: seq<byte>, i: nat, j: nat, k: nat)
    requires i <= j <= k <= |h|
    ensures h[i..k] == h[i..j] + h[j..k]
  {
  }

  lemma Run1Pieces(b: seq<byte>)
    requires |b| == 512
    ensures var h, p := b[..22], Parse(b);
            && ToLe(p.bytesPerSector, 2) == h[11..13] && ToLe(p.reservedSectors, 2) == h[14..16]
            && ToLe(p.maxNumOfDirs, 2) == h[17..19] && ToLe(p.totalLogicalSectors, 2) == h[19..21]
            && p.jumpInstructions == h[0..3] && p.oemIdentifier == h[3..11]
            && [p.sectorsPerCluster] == h[13..14] && [p.numberOfFats] == h[16..17] && [p.mediaDescriptorType] == h[21..22]
  {
    var h := b[..22];
    U16Bytes(h, 11); U16Bytes(h, 14); U16Bytes(h, 17); U16Bytes(h, 19);
  }

  lemma Run1OfParse(b: seq<byte>)
    requires |b| == 512
    ensures Run1(Parse(b)) == b[..22]
  {
    var h := b[..22];
    Run1Pieces(b);
    SliceSplit(h, 0, 3, 11); SliceSplit(h, 0, 11, 13); SliceSplit(h, 0, 13, 14); SliceSplit(h, 0, 14, 16);
    SliceSplit(h, 0, 16, 17); SliceSplit(h, 0, 17, 19); SliceSplit(h, 0, 19, 21); SliceSplit(h, 0, 21, 22);
    assert h[0..22] == h;
  }

  lemma Run2OfParse(b: seq<byte>)
    requires |b| == 512
    ensures Run2(Parse(b)) == b[22..44]
  {
    var h, p := b[22..44], Parse(b);
    U16Bytes(h, 0); U16Bytes(h, 2); U16Bytes(h, 4); U32Bytes(h, 6);
    U32Bytes(h, 10); U32Bytes(h, 14); U16Bytes(h, 18); U16Bytes(h, 20);
    assert ToLe(p.sectorsPerFatOne, 2) == h[0..2];
    assert ToLe(p.sectorsPerTrack, 2) == h[2..4];
    assert ToLe(p.numberOfHeads, 2) == h[4..6];
    assert ToLe(p.numberOfHiddenSectors, 4) == h[6..10];
    assert ToLe(p.totalLogicalSectorsExtended, 4) == h[10..14];
    assert ToLe(p.sectorsPerFatTwo, 4) == h[14..18];
    assert ToLe(p.flags, 2) == h[18..20];
    assert ToLe(p.version, 2) == h[20..22];
    SliceSplit(h, 0, 2, 4); SliceSplit(h, 0, 4, 6); SliceSplit(h, 0, 6, 10); SliceSplit(h, 0, 10, 14);
    SliceSplit(h, 0, 14, 18); SliceSplit(h, 0, 18, 20); SliceSplit(h, 0, 20, 22);
    assert h[0..22] == h;
  }

  lemma Run3OfParse(b: seq<byte>)
    requires |b| == 512
    ensures Run3(Parse(b)) == b[44..71]
  {
    var h, p := b[44..71], Parse(b);
    U32Bytes(h, 0); U16Bytes(h, 4); U16Bytes(h, 6); U32Bytes(h, 23);
    assert ToLe(p.rootCluster, 4) == h[0..4];
    assert ToLe(p.sectorOfFsinfo, 2) == h[4..6];
    assert ToLe(p.sectorOfBackup, 2) == h[6..8];
    assert ToLe(p.serialNumber, 4) == h[23..27];
    SliceSplit(h, 0, 4, 6); SliceSplit(h, 0, 6, 8); SliceSplit(h, 0, 8, 20); SliceSplit(h, 0, 20, 21);
    SliceSplit(h, 0, 21, 22); SliceSplit(h, 0, 22, 23); SliceSplit(h, 0, 23, 27);
    assert [h[20]] == h[20..21] && [h[21]] == h[21..22] && [h[22]] == h[22..23];
    assert h[0..27] == h;
  }

  lemma Run4OfParse(b: seq<byte>)
    requires |b| == 512
    ensures Run4(Parse(b)) == b[71..]
  {
    var h := b[71..];
    assert h == h[0..11] + h[11..19] + h[19..439] + h[439..441];
  }

  /** Every 512-byte block is the encoding of what it decodes to: decoding loses nothing. */
  lemma BytesOfParse(b: seq<byte>)
    requires |b| == 512
    ensures Bytes(Parse(b)) == b
  {
    var p := Parse(b);
    assert Bytes(p) == Run1(p) + Run2(p) + Run3(p) + Run4(p);
    Run1OfParse(b);
    Run2OfParse(b);
    Run3OfParse(b);
    Run4OfParse(b);
    RunsCover(b);
  }

  /** A block is its four runs one after the other. */
  lemma RunsCover(b: seq<byte>)
    requires |b| == 512
    ensures b == b[..22] + b[22..44] + b[44..71] + b[71..]
  {
  }

  lemma Run1Fields(p: BiosParameterBlock)
    requires WellFormed(p)
    ensures var h := Run1(p);
            && h[0..3] == p.jumpInstructions && h[3..11] == p.oemIdentifier && U16At(h, 11) == p.bytesPerSector
            && h[13] == p.sectorsPerCluster && U16At(h, 14) == p.reservedSectors && h[16] == p.numberOfFats
            && U16At(h, 17) == p.maxNumOfDirs && U16At(h, 19) == p.totalLogicalSectors && h[21] == p.mediaDescriptorType
  {
    var h := Run1(p);
    assert h[11..13] == ToLe(p.bytesPerSector, 2);
    assert h[14..16] == ToLe(p.reservedSectors, 2);
    assert h[17..19] == ToLe(p.maxNumOfDirs, 2);
    assert h[19..21] == ToLe(p.totalLogicalSectors, 2);
    U16Field(p.bytesPerSector, h, 11); U16Field(p.reservedSectors, h, 14);
    U16Field(p.maxNumOfDirs, h, 17); U16Field(p.totalLogicalSectors, h, 19);
  }

  lemma Run2Fields(p: BiosParameterBlock)
    ensures var h := Run2(p);
            && U16At(h, 0) == p.sectorsPerFatOne && U16At(h, 2) == p.sectorsPerTrack && U16At(h, 4) == p.numberOfHeads
            && U32At(h, 6) == p.numberOfHiddenSectors && U32At(h, 10) == p.totalLogicalSectorsExtended
            && U32At(h, 14) == p.sectorsPerFatTwo && U16At(h, 18) == p.flags && U16At(h, 20) == p.version
  {
    var h := Run2(p);
    assert h[0..2] == ToLe(p.sectorsPerFatOne, 2);
    assert h[2..4] == ToLe(p.sectorsPerTrack, 2);
    assert h[4..6] == ToLe(p.numberOfHeads, 2);
    assert h[6..10] == ToLe(p.numberOfHiddenSectors, 4);
    assert h[10..14] == ToLe(p.totalLogicalSectorsExtended, 4);
    assert h[14..18] == ToLe(p.sectorsPerFatTwo, 4);
    assert h[18..20] == ToLe(p.flags, 2);
    assert h[20..22] == ToLe(p.version, 2);
    U16Field(p.sectorsPerFatOne, h, 0); U16Field(p.sectorsPerTrack, h, 2); U16Field(p.numberOfHeads, h, 4);
    U32Field(p.numberOfHiddenSectors, h, 6); U32Field(p.totalLogicalSectorsExtended, h, 10);
    U32Field(p.sectorsPerFatTwo, h, 14); U16Field(p.flags, h, 18); U16Field(p.version, h, 20);
  }

  lemma Run3Fields(p: BiosParameterBlock)
    requires WellFormed(p)
    ensures var h := Run3(p);
            && U32At(h, 0) == p.rootCluster && U16At(h, 4) == p.sectorOfFsinfo && U16At(h, 6) == p.sectorOfBackup
            && h[8..20] == p.reserved && h[20] == p.driveNumber && h[21] == p.ntFlags && h[22] == p.signature
            && U32At(h, 23) == p.serialNumber
  {
    var h := Run3(p);
    assert h[0..4] == ToLe(p.rootCluster, 4);
    assert h[4..6] == ToLe(p.sectorOfFsinfo, 2);
    assert h[6..8] == ToLe(p.sectorOfBackup, 2);
    assert h[23..27] == ToLe(p.serialNumber, 4);
    U32Field(p.rootCluster, h, 0); U16Field(p.sectorOfFsinfo, h, 4);
    U16Field(p.sectorOfBackup, h, 6); U32Field(p.serialNumber, h, 23);
  }

  /** Encoding a well-formed block and decoding it gives the block back. */
  lemma ParseOfBytes(p: BiosParameterBlock)
    requires WellFormed(p)
    ensures Parse(Bytes(p)) == p
  {
    var b := Bytes(p);
    assert b[..22] == Run1(p);
    assert b[22..44] == Run2(p);
    assert b[44..71] == Run3(p);
    assert b[71..] == Run4(p);
    Run1Fields(p);
    Run2Fields(p);
    Run3Fields(p);
  }

  /** The checks of `try_from` on the bytes read: the boot signature. */
  function Check(block: seq<byte>): (r: Result<BiosParameterBlock, FilesystemError>)
    requires |block| == 512
  {
    var bpb := Parse(block);
    if bpb.bpSignature[0] != 0x55 || bpb.bpSignature[1] != 0xAA then Err(BadSignature) else Ok(bpb)
  }

  /** `BiosParameterBlock::try_from(partition)` on a partition whose device holds
    * `blocks`: logical block 0 read into a zeroed 512-byte buffer, decoded and checked. */
  function Load(p: BlockPartition, blocks: seq<seq<byte>>): (r: Result<BiosParameterBlock, FilesystemError>)
    reads p, p.device
    requires p.Valid() && WellSized(blocks, p.device.blockSize)
  {
    var read := p.ReadSpec(blocks, 0, seq(512, _ => 0));
    if read.0.Err? then Err(IoError(read.0.error)) else Check(read.1)
  }

  /** The block is accepted exactly when logical block 0 can be read and ends in
    * 0x55 0xAA, and then it is returned unchanged: its encoding is the bytes
    * read.  A read error is passed on as an I/O error. */
  lemma LoadOutcome(p: BlockPartition, blocks: seq<seq<byte>>)
    requires p.Valid() && WellSized(blocks, p.device.blockSize)
    ensures var read := p.ReadSpec(blocks, 0, seq(512, _ => 0));
            && (Load(p, blocks).Ok? <==> read.0.Ok? && read.1[510..] == [0x55, 0xAA])
            && (Load(p, blocks).Ok? ==> Bytes(Load(p, blocks).value) == read.1)
            && (Load(p, blocks) == Err(BadSignature) <==> read.0.Ok? && read.1[510..] != [0x55, 0xAA])
            && (read.0.Err? ==> Load(p, blocks) == Err(IoError(read.0.error)))
  {
    var read := p.ReadSpec(blocks, 0, seq(512, _ => 0));
    if read.0.Ok? {
      BytesOfParse(read.1);
      assert Parse(read.1).bpSignature == read.1[510..];
    }
  }

  /** `BiosParameterBlock::try_from(partition)`. */
  method TryFrom(p: BlockPartition) returns (r: Result<BiosParameterBlock, FilesystemError>)
    requires p.Valid()
    ensures r == Load(p, p.device.blocks)
  {
    var buffer := new byte[512](_ => 0);
    assert buffer[..] == seq(512, _ => 0);
    var read := p.ReadBlock(0, buffer);
    if read.Err? {
      return Err(IoError(read.error));
    }
    r := Check(buffer[..]);
  }
}
