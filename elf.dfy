/** The identification bytes and type fields of an ELF file header
  * (lib/elf/src/file.rs), as laid down by the System V gABI, section
  * "ELF Identification". */
module Elf {
  import opened Common
  import Io

  const VALID_HEADER: seq<byte> := [0x7F, 0x45, 0x4C, 0x46]

  /** `FileHeadIdentity`: the 16 `e_ident` bytes. */
  datatype FileHeadIdentity = FileHeadIdentity(bytes: seq<byte>)
  {
    ghost predicate Valid() { |bytes| == 16 }
  }

  /** `FileHeadIdentity::read`: `read_exact` of 16 bytes from the file. */
  function ReadIdentity(rs: seq<Io.Reply>): (r: Result<FileHeadIdentity, Io.ErrorKind>)
  {
    var s := Io.ReadExactSpec(rs, 16);
    if s.0.Err? then Err(s.0.error) else Ok(FileHeadIdentity(s.1))
  }

  /** The identity is read whole when the file has 16 bytes to give, and is then
    * the first 16 of them. */
  lemma ReadIdentityTakesSixteen(rs: seq<Io.Reply>)
    ensures ReadIdentity(rs).Ok? <==> |Io.Available(rs)| >= 16
    ensures ReadIdentity(rs).Ok? ==> ReadIdentity(rs).value.Valid() && ReadIdentity(rs).value.bytes == Io.Available(rs)[..16]
  {
    Io.ReadExactMeetsAvailable(rs, 16);
  }

  /** `is_valid_header`: the magic number 7F 'E' 'L' 'F'. */
  predicate IsValidHeader(id: FileHeadIdentity)
    requires id.Valid()
  {
    id.bytes[..4] == VALID_HEADER
  }

  datatype BitWidth = Bit32 | Bit64 | UnknownWidth
  datatype Endianness = Little | Big | UnknownEndian

  /** `bit_width`: EI_CLASS, byte 4. */
  function Width(id: FileHeadIdentity): (w: BitWidth)
    requires id.Valid()
  {
    match id.bytes[4]
    case 1 => Bit32
    case 2 => Bit64
    case _ => UnknownWidth
  }

  /** `endianness`: EI_DATA, byte 5. */
  function ByteOrder(id: FileHeadIdentity): (e: Endianness)
    requires id.Valid()
  {
    match id.bytes[5]
    case 1 => Little
    case 2 => Big
    case _ => UnknownEndian
  }

  /** The gABI's ELFCLASS32/ELFCLASS64 and ELFDATA2LSB/ELFDATA2MSB values. */
  function ClassByte(w: BitWidth): byte
    requires w != UnknownWidth
  {
    if w == Bit32 then 1 else 2
  }

  function DataByte(e: Endianness): byte
    requires e != UnknownEndian
  {
    if e == Little then 1 else 2
  }

  /** Byte 4 and byte 5 decode to the class and data encoding whose gABI value
    * they hold, and to Unknown exactly when they hold no such value. */
  lemma IdentityFieldsDecode(id: FileHeadIdentity)
    requires id.Valid()
    ensures Width(id) != UnknownWidth <==> id.bytes[4] in {1, 2}
    ensures Width(id) != UnknownWidth ==> ClassByte(Width(id)) == id.bytes[4]
    ensures ByteOrder(id) != UnknownEndian <==> id.bytes[5] in {1, 2}
    ensures ByteOrder(id) != UnknownEndian ==> DataByte(ByteOrder(id)) == id.bytes[5]
  {
  }

  /** A header is valid exactly when it starts with the magic bytes, whatever follows. */
  lemma ValidHeaderIsMagic(id: FileHeadIdentity, rest: seq<byte>)
    requires |rest| == 12
    ensures FileHeadIdentity(VALID_HEADER + rest).Valid() && IsValidHeader(FileHeadIdentity(VALID_HEADER + rest))
    ensures id.Valid() && IsValidHeader(id) ==> id.bytes[0] == 0x7F && id.bytes[1] == 0x45 && id.bytes[2] == 0x4C && id.bytes[3] == 0x46
  {
    if id.Valid() && IsValidHeader(id) {
      assert id.bytes[..4][0] == id.bytes[0];
    }
  }

  datatype ObjectFileType = EtNone | EtRel | EtExec | EtDyn | EtCore | EtLoos | EtHios | EtLoproc | EtHiproc | UnknownType

  function ObjectFileTypeValue(t: ObjectFileType): (v: u16)
    requires t != UnknownType
  {
    match t
    case EtNone => 0x00
    case EtRel => 0x01
    case EtExec => 0x02
    case EtDyn => 0x03
    case EtCore => 0x04
    case EtLoos => 0xFE00
    case EtHios => 0xFEFF
    case EtLoproc => 0xFF00
    case EtHiproc => 0xFFFF
  }

  /** `From<u16> for ObjectFileType`. */
  function ObjectFileTypeFrom(value: u16): (t: ObjectFileType)
  {
    match value
    case 0x00 => EtNone
    case 0x01 => EtRel
    case 0x02 => EtExec
    case 0x03 => EtDyn
    case 0x04 => EtCore
    case 0xFE00 => EtLoos
    case 0xFEFF => EtHios
    case 0xFF00 => EtLoproc
    case 0xFFFF => EtHiproc
    case _ => UnknownType
  }

  /** The listed values and the variants correspond one to one; every other value is Unknown. */
  lemma ObjectFileTypeRoundTrip(t: ObjectFileType, value: u16)
    ensures t != UnknownType ==> ObjectFileTypeFrom(ObjectFileTypeValue(t)) == t
    ensures ObjectFileTypeFrom(value) != UnknownType ==> ObjectFileTypeValue(ObjectFileTypeFrom(value)) == value
  {
  }

  datatype TargetMachineIsa = Aarch64 | UnknownIsa

  /** `From<u16> for TargetMachineIsa`: only EM_AARCH64 (0xB7) is recognised. */
  function TargetMachineIsaFrom(value: u16): (m: TargetMachineIsa)
    ensures m == Aarch64 <==> value == 0xB7
  {
    if value == 0xB7 then Aarch64 else UnknownIsa
  }
}
