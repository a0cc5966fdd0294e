/** FAT directory entries (lib/fat32/src/entry.rs): the 32-byte on-disk records,
  * their classification by the attribute byte, the short and long file names,
  * and the starting cluster, metadata and size of a regular entry.
  *
  * Records are encoded field by field in declaration order, little-endian.
  * Names are given as UTF-16 code units. */
module DirEntry {
  import opened Common
  import opened Io
  import opened Clusters
  import opened FatMetadata

  const LONG_FILE_NAME: byte := 0x0F
  const DIRECTORY: byte := 0x10
  const DELETED: byte := 0xE5
  const SPACE: byte := 0x20
  const DOT: u16 := 0x2E

  // ---------------------------------------------------------------------------
  // Regular entries

  /** `RegularDirectoryEntry`.  The source declares `last_modification` as a
    * `u16`; the width is a parameter of the layout below (see the findings). */
  datatype RegularEntry = RegularEntry(name: seq<byte>, extension: seq<byte>, attributes: byte,
                                       ntReserved: byte, createdTimeTenth: byte, createdTime: u32,
                                       lastAccess: u16, firstClusterHigh: u16, lastModification: u32,
                                       firstClusterLow: u16, fileSize: u32)

  /** The field layout with a `width`-byte `last_modification`: 2 as declared,
    * 4 for the time and date words the FAT record holds there. */
  predicate ModWidth(width: nat)
  {
    width == 2 || width == 4
  }

  predicate RegularFits(e: RegularEntry, width: nat)
  {
    |e.name| == 8 && |e.extension| == 3 && e.lastModification < Pow2(8 * width)
  }

  /** Bytes of a regular record with the given `last_modification` width. */
  function RegularSize(width: nat): nat
  {
    28 + width
  }

  /** `RegularDirectoryEntry::load_slice`. */
  function ParseRegular(b: seq<byte>, width: nat): (e: RegularEntry)
    requires ModWidth(width) && |b| >= RegularSize(width)
    ensures RegularFits(e, width)
  {
    assert Pow2(8 * width) <= 0x1_0000_0000 by { Pow2Facts(); }
    RegularEntry(b[..8], b[8..11], b[11], b[12], b[13], U32At(b, 14), U16At(b, 18), U16At(b, 20),
                 FromLe(b[22..22 + width]), U16At(b, 22 + width), U32At(b, 24 + width))
  }

  /** `RegularDirectoryEntry::save_writable`: the bytes written. */
  function RegularBytes(e: RegularEntry, width: nat): (b: seq<byte>)
    requires ModWidth(width) && RegularFits(e, width)
    ensures |b| == RegularSize(width)
  {
    e.name + e.extension + [e.attributes, e.ntReserved, e.createdTimeTenth] + ToLe(e.createdTime, 4)
      + ToLe(e.lastAccess, 2) + ToLe(e.firstClusterHigh, 2) + ToLe(e.lastModification, width)
      + ToLe(e.firstClusterLow, 2) + ToLe(e.fileSize, 4)
  }

  /** The pieces of an encoded regular record, by position. */
  lemma RegularPieces(e: RegularEntry, width: nat)
    requires ModWidth(width) && RegularFits(e, width)
    ensures var b := RegularBytes(e, width);
            && b[..8] == e.name && b[8..11] == e.extension
            && b[11] == e.attributes && b[12] == e.ntReserved && b[13] == e.createdTimeTenth
            && b[14..18] == ToLe(e.createdTime, 4) && b[18..20] == ToLe(e.lastAccess, 2)
            && b[20..22] == ToLe(e.firstClusterHigh, 2) && b[22..22 + width] == ToLe(e.lastModification, width)
            && b[22 + width..24 + width] == ToLe(e.firstClusterLow, 2)
            && b[24 + width..28 + width] == ToLe(e.fileSize, 4)
  {
    var q1 := e.name + e.extension;
    var q2 := q1 + [e.attributes, e.ntReserved, e.createdTimeTenth];
    var q3 := q2 + ToLe(e.createdTime, 4);
    var q4 := q3 + ToLe(e.lastAccess, 2);
    var q5 := q4 + ToLe(e.firstClusterHigh, 2);
    var q6 := q5 + ToLe(e.lastModification, width);
    var q7 := q6 + ToLe(e.firstClusterLow, 2);
    var b := q7 + ToLe(e.fileSize, 4);
    assert b == RegularBytes(e, width);
    PieceAt(b, q7, ToLe(e.fileSize, 4));
    PieceAt(b, q6, ToLe(e.firstClusterLow, 2));
    PieceAt(b, q5, ToLe(e.lastModification, width));
    PieceAt(b, q4, ToLe(e.firstClusterHigh, 2));
    PieceAt(b, q3, ToLe(e.lastAccess, 2));
    PieceAt(b, q2, ToLe(e.createdTime, 4));
    PieceAt(b, q1, [e.attributes, e.ntReserved, e.createdTimeTenth]);
    PieceAt(b, e.name, e.extension);
    PieceAt(b, [], e.name);
  }

  /** A piece `s` following a prefix `q` of `b` is the slice of `b` after `q`,
    * and `q` is a prefix of `b` too. */
  lemma PieceAt(b: seq<byte>, q: seq<byte>, s: seq<byte>)
    requires q + s <= b
    ensures b[|q|..|q| + |s|] == s && q <= b
  {
    assert b[..|q| + |s|] == q + s;
    assert b[|q|..|q| + |s|] == (q + s)[|q|..];
  }

  /** Decoding and encoding a regular record are inverse to each other, in
    * either layout. */
  lemma RegularRoundTrip(e: RegularEntry, b: seq<byte>, width: nat)
    requires ModWidth(width) && RegularFits(e, width) && |b| == RegularSize(width)
    ensures ParseRegular(RegularBytes(e, width), width) == e
    ensures RegularBytes(ParseRegular(b, width), width) == b
  {
    RegularParseOfBytes(e, width);
    RegularBytesOfParse(b, width);
  }

  lemma RegularParseOfBytes(e: RegularEntry, width: nat)
    requires ModWidth(width) && RegularFits(e, width)
    ensures ParseRegular(RegularBytes(e, width), width) == e
  {
    Pow2Facts();
    RegularPieces(e, width);
    FromToLe(e.createdTime, 4);
    FromToLe(e.lastAccess, 2);
    FromToLe(e.firstClusterHigh, 2);
    FromToLe(e.lastModification, width);
    FromToLe(e.firstClusterLow, 2);
    FromToLe(e.fileSize, 4);
  }

  lemma RegularBytesOfParse(b: seq<byte>, width: nat)
    requires ModWidth(width) && |b| == RegularSize(width)
    ensures RegularBytes(ParseRegular(b, width), width) == b
  {
    var e := ParseRegular(b, width);
    var r := RegularBytes(e, width);
    RegularPieces(e, width);
    assert r[14..18] == b[14..18] by { U32Bytes(b, 14); }
    assert r[18..20] == b[18..20] by { U16Bytes(b, 18); }
    assert r[20..22] == b[20..22] by { U16Bytes(b, 20); }
    assert r[22..22 + width] == b[22..22 + width] by { ToFromLe(b[22..22 + width]); }
    assert r[22 + width..24 + width] == b[22 + width..24 + width] by { U16Bytes(b, 22 + width); }
    assert r[24 + width..] == b[24 + width..] by { U32Bytes(b, 24 + width); }
    RegularSlicesCover(r, b, width);
  }

  /** Two records that agree field by field are the same bytes. */
  lemma RegularSlicesCover(r: seq<byte>, b: seq<byte>, width: nat)
    requires |r| == |b| == 28 + width
    requires r[..8] == b[..8] && r[8..11] == b[8..11] && r[11] == b[11] && r[12] == b[12] && r[13] == b[13]
    requires r[14..18] == b[14..18] && r[18..20] == b[18..20] && r[20..22] == b[20..22]
    requires r[22..22 + width] == b[22..22 + width] && r[22 + width..24 + width] == b[22 + width..24 + width]
    requires r[24 + width..] == b[24 + width..]
    ensures r == b
  {
    forall k | 0 <= k < |b|
      ensures r[k] == b[k]
    {
      if k < 8 {
        assert r[..8][k] == b[..8][k];
      } else if k < 11 {
        assert r[8..11][k - 8] == b[8..11][k - 8];
      } else if k < 14 {
      } else if k < 18 {
        assert r[14..18][k - 14] == b[14..18][k - 14];
      } else if k < 20 {
        assert r[18..20][k - 18] == b[18..20][k - 18];
      } else if k < 22 {
        assert r[20..22][k - 20] == b[20..22][k - 20];
      } else if k < 22 + width {
        assert r[22..22 + width][k - 22] == b[22..22 + width][k - 22];
      } else if k < 24 + width {
        assert r[22 + width..24 + width][k - 22 - width] == b[22 + width..24 + width][k - 22 - width];
      } else {
        assert r[24 + width..][k - 24 - width] == b[24 + width..][k - 24 - width];
      }
    }
  }

  /** As declared, the record is 30 bytes, so the fields after `last_access`
    * are read from the wrong place of a 32-byte FAT record: the low cluster half
    * from bytes 24..26 (the modification date) and the size from bytes 26..30,
    * where the FAT layout (fatgen103, "FAT 32 Byte Directory Entry Structure")
    * keeps them at 26..28 and 28..32.  A record with low cluster 5 and size 0
    * reads back as cluster 0 and size 5. */
  lemma AsDeclaredMisplacesFields(b: seq<byte>)
    requires |b| == 32
    ensures RegularSize(2) == 30
    ensures ParseRegular(b, 2).firstClusterLow == U16At(b, 24)
    ensures ParseRegular(b, 2).fileSize == U32At(b, 26)
    ensures b == seq(32, k => if k == 11 then 0x20 else if k == 26 then 5 else 0) ==>
              && U16At(b, 26) == 5 && U32At(b, 28) == 0
              && ParseRegular(b, 2).firstClusterLow == 0 && ParseRegular(b, 2).fileSize == 5
  {
    if b == seq(32, k => if k == 11 then 0x20 else if k == 26 then 5 else 0) {
      assert b[24..26] == [0, 0] && b[26..28] == [5, 0] && b[28..32] == [0, 0, 0, 0];
      assert b[26..30] == [5, 0, 0, 0];
      assert FromLe([5, 0]) == 5 by {
        assert [5, 0][1..] == [0];
        assert FromLe([0]) == 0 by { assert [0][1..] == []; }
      }
      assert FromLe([0, 0, 0, 0]) == 0 by {
        assert [0, 0, 0, 0][1..] == [0, 0, 0] && [0, 0, 0][1..] == [0, 0] && [0, 0][1..] == [0];
        assert FromLe([0]) == 0 by { assert [0][1..] == []; }
      }
    }
  }

  /** With a 4-byte `last_modification` the record is 32 bytes and the fields
    * sit where the FAT layout puts them. */
  lemma FixedLayoutOffsets(b: seq<byte>)
    requires |b| == 32
    ensures RegularSize(4) == 32
    ensures var e := ParseRegular(b, 4);
            && e.attributes == b[11] && e.firstClusterHigh == U16At(b, 20)
            && e.firstClusterLow == U16At(b, 26) && e.fileSize == U32At(b, 28)
  {
  }

  // ---------------------------------------------------------------------------
  // Long file name entries

  datatype LongRecord = LongRecord(order: byte, nameOne: seq<byte>, attributes: byte, dirType: byte,
                                   checksum: byte, nameTwo: seq<byte>, firstClusterLow: u16, nameThree: seq<byte>)

  /** `LongFileNameEntry`, 32 bytes: its name fields are arrays of 10, 12 and 4 bytes. */
  type LongFileNameEntry = e: LongRecord | |e.nameOne| == 10 && |e.nameTwo| == 12 && |e.nameThree| == 4
    witness LongRecord(0, seq(10, _ => 0), 0, 0, 0, seq(12, _ => 0), 0, seq(4, _ => 0))

  function ParseLong(b: seq<byte>): (e: LongFileNameEntry)
    requires |b| == 32
  {
    LongRecord(b[0], b[1..11], b[11], b[12], b[13], b[14..26], U16At(b, 26), b[28..32])
  }

  function LongBytes(e: LongFileNameEntry): (b: seq<byte>)
    ensures |b| == 32
  {
    [e.order] + e.nameOne + [e.attributes, e.dirType, e.checksum] + e.nameTwo + ToLe(e.firstClusterLow, 2)
      + e.nameThree
  }

  /** Decoding and encoding a long-name record are inverse to each other. */
  lemma LongRoundTrip(e: LongFileNameEntry, b: seq<byte>)
    requires |b| == 32
    ensures ParseLong(LongBytes(e)) == e
    ensures LongBytes(ParseLong(b)) == b
  {
    LongParseOfBytes(e);
    LongBytesOfParse(b);
  }

  lemma LongParseOfBytes(e: LongFileNameEntry)
    ensures ParseLong(LongBytes(e)) == e
  {
    var q1 := [e.order] + e.nameOne;
    var q2 := q1 + [e.attributes, e.dirType, e.checksum];
    var q3 := q2 + e.nameTwo;
    var q4 := q3 + ToLe(e.firstClusterLow, 2);
    var eb := q4 + e.nameThree;
    assert eb == LongBytes(e);
    PieceAt(eb, q4, e.nameThree);
    PieceAt(eb, q3, ToLe(e.firstClusterLow, 2));
    PieceAt(eb, q2, e.nameTwo);
    PieceAt(eb, q1, [e.attributes, e.dirType, e.checksum]);
    PieceAt(eb, [e.order], e.nameOne);
    assert Pow2(16) == 0x1_0000 by { Pow2Facts(); }
    FromToLe(e.firstClusterLow, 2);
  }

  lemma LongBytesOfParse(b: seq<byte>)
    requires |b| == 32
    ensures LongBytes(ParseLong(b)) == b
  {
    ToFromLe(b[26..28]);
    assert b == [b[0]] + b[1..11] + [b[11], b[12], b[13]] + b[14..26] + b[26..28] + b[28..32];
  }

  /** `b` as UTF-16LE code units of one byte each: `[b, 0]` per byte. */
  function WideBytes(s: seq<byte>): (b: seq<byte>)
    ensures |b| == 2 * |s|
  {
    if s == [] then [] else [s[0], 0] + WideBytes(s[1..])
  }

  /** `LongFileNameEntry::new(order, name)` for a name of ASCII bytes: the name,
    * zero-padded to 26 bytes, is decoded as UTF-8 (one character per ASCII
    * byte) and re-encoded as UTF-16LE, and the first 26 bytes of that (the first
    * 13 characters) fill the three name fields. */
  function NewLong(order: byte, name: seq<byte>): (e: LongFileNameEntry)
    requires |name| <= 26 && forall k :: 0 <= k < |name| ==> name[k] < 0x80
  {
    var buffer := name + seq(26 - |name|, _ => 0);
    var bytes := WideBytes(buffer[..13]);
    LongRecord(order, bytes[..10], LONG_FILE_NAME, 0, 0, bytes[10..22], 0, bytes[22..26])
  }

  // ---------------------------------------------------------------------------
  // Directory entries

  /** `DirectoryEntry`. */
  datatype DirectoryEntry = Empty | Regular(regular: RegularEntry) | LongFileName(long: LongFileNameEntry) | EmptyAndOver

  /** The classification of a 32-byte record by its attribute byte (byte 11). */
  function Classify(b: seq<byte>, width: nat): (e: DirectoryEntry)
    requires |b| == 32 && ModWidth(width)
  {
    if b[11] == 0 then EmptyAndOver
    else if b[11] == DELETED then Empty
    else if b[11] == LONG_FILE_NAME then LongFileName(ParseLong(b))
    else Regular(ParseRegular(b, width))
  }

  /** `DirectoryEntry::load_readable`: `read_exact` of 32 bytes from the reader,
    * then the classification; a read that fails passes its error on. */
  function Load(rs: seq<Reply>, width: nat): (r: Result<DirectoryEntry, ErrorKind>)
    requires ModWidth(width)
  {
    var s := ReadExactSpec(rs, 32);
    ReadExactMeetsAvailable(rs, 32);
    if s.0.Err? then Err(s.0.error) else Ok(Classify(s.1, width))
  }

  /** `DirectoryEntry::save_writable`: the bytes handed to the writer. */
  function Save(e: DirectoryEntry, width: nat): (b: seq<byte>)
    requires ModWidth(width)
    requires e.Regular? ==> RegularFits(e.regular, width)
  {
    match e
    case Regular(r) => RegularBytes(r, width)
    case LongFileName(l) => LongBytes(l)
    case Empty => seq(32, k => if k == 11 then DELETED else 0)
    case EmptyAndOver => seq(32, _ => 0)
  }

  /** Loading reads the reader's first 32 bytes and classifies them by byte 11:
    * 0 ends the directory, 0xE5 is a deleted slot, 0x0F a long-name record and
    * anything else a regular record; with fewer than 32 bytes it fails with the
    * reader's stop reason. */
  lemma LoadClassifies(rs: seq<Reply>, width: nat)
    requires ModWidth(width)
    ensures var avail := Available(rs);
            && (Load(rs, width).Ok? <==> |avail| >= 32)
            && (Load(rs, width).Err? ==> Load(rs, width).error == StopKind(rs))
            && (|avail| >= 32 ==>
                  var e := Load(rs, width).value;
                  && (e == EmptyAndOver <==> avail[11] == 0)
                  && (e == Empty <==> avail[11] == DELETED)
                  && (e.LongFileName? <==> avail[11] == LONG_FILE_NAME)
                  && (e.LongFileName? ==> e.long == ParseLong(avail[..32]))
                  && (e.Regular? ==> e.regular == ParseRegular(avail[..32], width)))
  {
    ReadExactMeetsAvailable(rs, 32);
  }

  /** Saving and loading round-trip exactly for the entries whose attribute
    * byte classifies them as themselves: the empty slots always, a long-name
    * record with attribute 0x0F, and a regular record of the 32-byte layout
    * whose attribute byte is none of 0, 0xE5, 0x0F. */
  lemma SaveThenLoad(e: DirectoryEntry)
    requires e.Regular? ==> RegularFits(e.regular, 4)
    ensures Classify(Save(e, 4), 4) == e <==>
              match e
              case Regular(r) => r.attributes != 0 && r.attributes != DELETED && r.attributes != LONG_FILE_NAME
              case LongFileName(l) => l.attributes == LONG_FILE_NAME
              case _ => true
  {
    match e
    case Regular(r) =>
      RegularRoundTrip(r, RegularBytes(r, 4), 4);
      RegularPieces(r, 4);
    case LongFileName(l) =>
      LongRoundTrip(l, LongBytes(l));
      assert LongBytes(l)[11] == l.attributes;
    case Empty =>
    case EmptyAndOver =>
  }

  // ---------------------------------------------------------------------------
  // Names

  /** The bytes of a name field up to the first space or NUL. */
  function Trimmed(s: seq<byte>): (t: seq<byte>)
    ensures |t| <= |s|
  {
    if s == [] || s[0] == SPACE || s[0] == 0 then [] else [s[0]] + Trimmed(s[1..])
  }

  /** `Trimmed(s)` is the longest prefix of `s` without a space or NUL. */
  lemma {:induction false} TrimmedIsLongestPrefix(s: seq<byte>)
    ensures |Trimmed(s)| <= |s| && Trimmed(s) == s[..|Trimmed(s)|]
    ensures forall k :: 0 <= k < |Trimmed(s)| ==> Trimmed(s)[k] != SPACE && Trimmed(s)[k] != 0
    ensures |Trimmed(s)| < |s| ==> s[|Trimmed(s)|] == SPACE || s[|Trimmed(s)|] == 0
  {
    if s != [] && s[0] != SPACE && s[0] != 0 {
      TrimmedIsLongestPrefix(s[1..]);
    }
  }

  /** Bytes as UTF-16 code units (`b as char`, all below 0x100). */
  function Units(s: seq<byte>): (u: seq<u16>)
    ensures |u| == |s| && forall k :: 0 <= k < |s| ==> u[k] == s[k]
  {
    seq(|s|, k requires 0 <= k < |s| => s[k] as u16)
  }

  /** The 8.3 name: the trimmed name, then a dot and the trimmed extension if
    * that is not empty. */
  function ShortName(r: RegularEntry): (n: seq<u16>)
  {
    var ext := Trimmed(r.extension);
    Units(Trimmed(r.name)) + (if ext == [] then [] else [DOT] + Units(ext))
  }

  /** The short name holds the name's bytes up to the first space or NUL, and a
    * dot followed by the extension's exactly when the extension does not start
    * with a space or NUL. */
  lemma ShortNameShape(r: RegularEntry)
    requires |r.name| == 8 && |r.extension| == 3
    ensures var n := ShortName(r); var k := |Trimmed(r.name)|;
            && k <= 8 && n[..k] == Units(r.name[..k])
            && (k < 8 ==> r.name[k] == SPACE || r.name[k] == 0)
            && (|n| > k <==> r.extension[0] != SPACE && r.extension[0] != 0)
            && (|n| > k ==> n[k] == DOT && n[k + 1..] == Units(r.extension[..|n| - k - 1]))
  {
    TrimmedIsLongestPrefix(r.name);
    TrimmedIsLongestPrefix(r.extension);
  }

  /** The 26 name bytes of a long-name record, in field order. */
  function Pieces(e: LongFileNameEntry): seq<byte>
  {
    e.nameOne + e.nameTwo + e.nameThree
  }

  /** The name bytes of the records in order. */
  function NameBytes(es: seq<LongFileNameEntry>): (b: seq<byte>)
    ensures |b| % 2 == 0
  {
    if es == [] then [] else NameBytes(es[..|es| - 1]) + Pieces(es[|es| - 1])
  }

  /** The little-endian code unit of a byte pair. */
  function UnitAt(b: seq<byte>, at: nat): u16
    requires at + 2 <= |b|
  {
    (b[at + 1] as int) * 0x100 + b[at]
  }

  /** The code units of `b` from `at` on, up to the first 0x0000 or 0xFFFF. */
  function UnitsFrom(b: seq<byte>, at: nat): (u: seq<u16>)
    requires at <= |b| && (|b| - at) % 2 == 0
    decreases |b| - at
  {
    if at == |b| then []
    else
      var unit := UnitAt(b, at);
      if unit == 0 || unit == 0xFFFF then [] else [unit] + UnitsFrom(b, at + 2)
  }

  /** `UnitsFrom` decodes pair after pair and stops exactly at a terminator or
    * at the end. */
  lemma {:induction false} UnitsFromDecodes(b: seq<byte>, at: nat)
    requires at <= |b| && (|b| - at) % 2 == 0
    ensures var u := UnitsFrom(b, at);
            && at + 2 * |u| <= |b|
            && (forall k :: 0 <= k < |u| ==> u[k] == UnitAt(b, at + 2 * k) && u[k] != 0 && u[k] != 0xFFFF)
            && (at + 2 * |u| < |b| ==> UnitAt(b, at + 2 * |u|) == 0 || UnitAt(b, at + 2 * |u|) == 0xFFFF)
    decreases |b| - at
  {
    if at < |b| && UnitAt(b, at) != 0 && UnitAt(b, at) != 0xFFFF {
      UnitsFromDecodes(b, at + 2);
    }
  }

  /** The long name: the name bytes of the records, in order, as UTF-16LE code
    * units up to the first 0x0000 or 0xFFFF. */
  function LongName(es: seq<LongFileNameEntry>): seq<u16>
  {
    UnitsFrom(NameBytes(es), 0)
  }

  /** A long-name record made from an ASCII name without NUL bytes carries that
    * name: up to 13 characters it is read back whole, beyond that its first 13. */
  lemma NewLongNameRoundTrip(order: byte, name: seq<byte>)
    requires |name| <= 26 && forall k :: 0 <= k < |name| ==> 0 < name[k] < 0x80
    ensures var e := NewLong(order, name);
            && e.order == order && e.attributes == LONG_FILE_NAME
            && LongName([e]) == Units(name[..Min(13, |name|)])
  {
    var e := NewLong(order, name);
    var buffer := name + seq(26 - |name|, _ => 0);
    var chars := buffer[..13];
    var bytes := WideBytes(chars);
    assert Pieces(e) == bytes;
    assert NameBytes([e]) == bytes by {
      assert [e][..0] == [];
    }
    WideUnits(chars, bytes, 0);
    assert chars[0..] == chars;
    Trimmed0Prefix(chars, Min(13, |name|));
    assert chars[..Min(13, |name|)] == name[..Min(13, |name|)];
  }

  /** A prefix without NUL bytes that ends at a NUL or at the end is the
    * trimmed sequence. */
  lemma {:induction false} Trimmed0Prefix(s: seq<byte>, n: nat)
    requires n <= |s| && (forall k :: 0 <= k < n ==> s[k] != 0) && (n < |s| ==> s[n] == 0)
    ensures Trimmed0(s) == s[..n]
  {
    if n > 0 {
      Trimmed0Prefix(s[1..], n - 1);
      assert s[..n] == [s[0]] + s[1..][..n - 1];
    }
  }

  /** Decoding `WideBytes(s)` from pair `i` gives the bytes of `s` from `i` up
    * to the first NUL. */
  lemma {:induction false} WideUnits(s: seq<byte>, b: seq<byte>, i: nat)
    requires b == WideBytes(s) && i <= |s|
    requires forall k :: 0 <= k < |s| ==> s[k] < 0x80
    ensures UnitsFrom(b, 2 * i) == Units(Trimmed0(s[i..]))
    decreases |s| - i
  {
    WideBytesAt(s);
    if i < |s| {
      assert UnitAt(b, 2 * i) == s[i];
      if s[i] != 0 {
        WideUnits(s, b, i + 1);
        assert s[i..][1..] == s[i + 1..];
      }
    }
  }

  /** The bytes of `s` up to the first NUL. */
  function Trimmed0(s: seq<byte>): seq<byte>
  {
    if s == [] || s[0] == 0 then [] else [s[0]] + Trimmed0(s[1..])
  }

  lemma {:induction false} WideBytesAt(s: seq<byte>)
    ensures forall k :: 0 <= k < |s| ==> WideBytes(s)[2 * k] == s[k] && WideBytes(s)[2 * k + 1] == 0
  {
    if s != [] {
      WideBytesAt(s[1..]);
    }
  }

  // ---------------------------------------------------------------------------
  // Sorting the long-name records

  /** The sort key of a long-name record: `order & 0b11111`. */
  function Key(e: LongFileNameEntry): nat
  {
    e.order % 0x20
  }

  predicate OrderSorted(s: seq<LongFileNameEntry>)
  {
    forall i, j :: 0 <= i < j < |s| ==> Key(s[i]) <= Key(s[j])
  }

  /** `x` inserted after every record whose key is not larger. */
  function Insert(p: seq<LongFileNameEntry>, x: LongFileNameEntry): (r: seq<LongFileNameEntry>)
  {
    if p == [] || Key(p[|p| - 1]) <= Key(x) then p + [x] else Insert(p[..|p| - 1], x) + [p[|p| - 1]]
  }

  /** `sort_by` on the key: a stable insertion sort. */
  function SortedByOrder(s: seq<LongFileNameEntry>): (r: seq<LongFileNameEntry>)
  {
    if s == [] then [] else Insert(SortedByOrder(s[..|s| - 1]), s[|s| - 1])
  }

  lemma {:induction false} InsertFacts(p: seq<LongFileNameEntry>, x: LongFileNameEntry)
    ensures multiset(Insert(p, x)) == multiset(p) + multiset{x}
    ensures OrderSorted(p) ==> OrderSorted(Insert(p, x))
  {
    if p != [] && Key(p[|p| - 1]) > Key(x) {
      var q := p[..|p| - 1];
      InsertFacts(q, x);
      assert p == q + [p[|p| - 1]];
      if OrderSorted(p) {
        var r := Insert(q, x);
        assert forall k :: 0 <= k < |r| ==> Key(r[k]) <= Key(p[|p| - 1]) by {
          forall k | 0 <= k < |r|
            ensures Key(r[k]) <= Key(p[|p| - 1])
          {
            assert r[k] in multiset(q) + multiset{x};
          }
        }
      }
    }
  }

  /** The sorted records are a permutation of the records, in key order. */
  lemma {:induction false} SortedByOrderFacts(s: seq<LongFileNameEntry>)
    ensures multiset(SortedByOrder(s)) == multiset(s)
    ensures OrderSorted(SortedByOrder(s))
  {
    if s != [] {
      var q := s[..|s| - 1];
      SortedByOrderFacts(q);
      InsertFacts(SortedByOrder(q), s[|s| - 1]);
      assert s == q + [s[|s| - 1]];
    }
  }

  /** Inserting before a run of larger keys that follows a key not larger. */
  lemma {:induction false} InsertAt(p: seq<LongFileNameEntry>, x: LongFileNameEntry, j: nat)
    requires j <= |p| && forall k :: j <= k < |p| ==> Key(p[k]) > Key(x)
    requires j > 0 ==> Key(p[j - 1]) <= Key(x)
    ensures Insert(p, x) == p[..j] + [x] + p[j..]
    decreases |p| - j
  {
    if j < |p| {
      var q, last := p[..|p| - 1], p[|p| - 1];
      assert Key(last) > Key(x);
      assert Insert(p, x) == Insert(q, x) + [last];
      InsertAt(q, x, j);
      assert p[..j] == q[..j];
      assert p[j..] == q[j..] + [last];
    } else {
      assert Insert(p, x) == p + [x];
      assert p[..j] == p && p[j..] == [];
    }
  }

  /** `long_file_names.sort_by(...)`: the records sorted in place by key. */
  method SortByOrderInPlace(a: array<LongFileNameEntry>)
    modifies a
    ensures a[..] == SortedByOrder(old(a[..]))
  {
    ghost var o := a[..];
    var i := 0;
    while i < a.Length
      invariant 0 <= i <= a.Length && |o| == a.Length
      invariant a[..i] == SortedByOrder(o[..i])
      invariant a[i..] == o[i..]
    {
      ghost var pre := a[..];
      assert pre[i] == o[i] by { assert pre[i..][0] == o[i..][0]; }
      InsertInPlace(a, i);
      SortedByOrderStep(o, i);
      assert a[i + 1..] == o[i + 1..] by { assert pre[i + 1..] == pre[i..][1..]; }
      i := i + 1;
    }
    assert a[..] == a[..a.Length];
    assert o[..a.Length] == o;
  }

  /** Sorting one more record is inserting it into the sorted records before it. */
  lemma SortedByOrderStep(s: seq<LongFileNameEntry>, i: nat)
    requires i < |s|
    ensures SortedByOrder(s[..i + 1]) == Insert(SortedByOrder(s[..i]), s[i])
  {
    assert s[..i + 1][..i] == s[..i];
  }

  /** One step of the insertion sort: `a[i]` moved into the records before it. */
  method InsertInPlace(a: array<LongFileNameEntry>, i: nat)
    requires i < a.Length
    modifies a
    ensures a[..i + 1] == Insert(old(a[..i]), old(a[i]))
    ensures a[i + 1..] == old(a[i + 1..])
  {
    ghost var p := a[..i];
    var x := a[i];
    var j := i;
    while j > 0 && Key(a[j - 1]) > Key(x)
      invariant 0 <= j <= i
      invariant forall k :: 0 <= k < j ==> a[k] == p[k]
      invariant forall k :: j < k <= i ==> a[k] == p[k - 1]
      invariant forall k :: j <= k < i ==> Key(p[k]) > Key(x)
      invariant forall k :: i < k < a.Length ==> a[k] == old(a[k])
    {
      a[j] := a[j - 1];
      j := j - 1;
    }
    a[j] := x;
    InsertAt(p, x, j);
    ShiftedIsSplice(a[..i + 1], p, x, j);
  }

  /** A row holding `p` with the records from `j` on moved one place up and `x`
    * at `j` is `p` with `x` spliced in at `j`. */
  lemma ShiftedIsSplice(s: seq<LongFileNameEntry>, p: seq<LongFileNameEntry>, x: LongFileNameEntry, j: nat)
    requires j <= |p| && |s| == |p| + 1 && s[j] == x
    requires forall k :: 0 <= k < j ==> s[k] == p[k]
    requires forall k :: j < k < |s| ==> s[k] == p[k - 1]
    ensures s == p[..j] + [x] + p[j..]
  {
    forall k | 0 <= k < |s|
      ensures s[k] == (p[..j] + [x] + p[j..])[k]
    {
    }
  }

  // ---------------------------------------------------------------------------
  // `parse_name` and `parse_entry`

  /** `parse_name(long_file_names, regular)`: the 8.3 name when there are no
    * long-name records; otherwise the records are sorted in place by their
    * order key and the long name is decoded from their name bytes. */
  method ParseName(lfns: array<LongFileNameEntry>, r: RegularEntry) returns (name: seq<u16>)
    requires |r.name| == 8 && |r.extension| == 3
    modifies lfns
    ensures lfns.Length == 0 ==> name == ShortName(r)
    ensures lfns.Length > 0 ==> lfns[..] == SortedByOrder(old(lfns[..])) && name == LongName(lfns[..])
  {
    if lfns.Length == 0 {
      name := ShortNameOf(r);
    } else {
      SortByOrderInPlace(lfns);
      var bytes := CollectNameBytes(lfns);
      name := DecodeUnits(bytes);
    }
  }

  /** The first branch of `parse_name`: the name bytes up to a space or NUL,
    * then, before the first extension byte kept, a dot. */
  method ShortNameOf(r: RegularEntry) returns (name: seq<u16>)
    requires |r.name| == 8 && |r.extension| == 3
    ensures name == ShortName(r)
  {
    var result := CopyUntilStop(r.name);
    ghost var base := result;
    var hasExtension := false;
    var i := 0;
    while i < |r.extension|
      invariant i <= |r.extension| && (hasExtension <==> i > 0)
      invariant result == base + (if hasExtension then [DOT] + Units(r.extension[..i]) else [])
      invariant Trimmed(r.extension) == r.extension[..i] + Trimmed(r.extension[i..])
    {
      if r.extension[i] == SPACE || r.extension[i] == 0 {
        break;
      }
      TrimmedStep(r.extension, i);
      ExtensionStep(base, r.extension, i, result, hasExtension);
      if !hasExtension {
        result := result + [DOT];
        hasExtension := true;
      }
      result := result + [r.extension[i] as u16];
      i := i + 1;
    }
    assert Trimmed(r.extension[i..]) == [];
    assert r.extension[..i] == Trimmed(r.extension);
    name := result;
  }

  /** The name loop of `parse_name`: the bytes up to the first space or NUL. */
  method CopyUntilStop(s: seq<byte>) returns (units: seq<u16>)
    ensures units == Units(Trimmed(s))
  {
    units := [];
    var i := 0;
    while i < |s|
      invariant i <= |s| && units == Units(s[..i])
      invariant Trimmed(s) == s[..i] + Trimmed(s[i..])
    {
      if s[i] == SPACE || s[i] == 0 {
        break;
      }
      TrimmedStep(s, i);
      units := units + [s[i] as u16];
      UnitsSnoc(s, i);
      i := i + 1;
    }
    assert Trimmed(s[i..]) == [];
    assert s[..i] == Trimmed(s);
  }

  /** One step of the extension loop: the dot comes before the first byte kept. */
  lemma ExtensionStep(base: seq<u16>, ext: seq<byte>, i: nat, result: seq<u16>, hasExtension: bool)
    requires i < |ext| && (hasExtension <==> i > 0)
    requires result == base + (if hasExtension then [DOT] + Units(ext[..i]) else [])
    ensures (if hasExtension then result else result + [DOT]) + [ext[i] as u16] == base + [DOT] + Units(ext[..i + 1])
  {
    UnitsSnoc(ext, i);
    if !hasExtension {
      assert Units(ext[..i]) == [];
    }
  }

  /** One more byte of a prefix is one more code unit. */
  lemma UnitsSnoc(s: seq<byte>, i: nat)
    requires i < |s|
    ensures Units(s[..i + 1]) == Units(s[..i]) + [s[i] as u16]
  {
    assert s[..i + 1] == s[..i] + [s[i]];
  }

  /** The name fields of the records, concatenated in order. */
  method CollectNameBytes(a: array<LongFileNameEntry>) returns (bytes: seq<byte>)
    ensures bytes == NameBytes(a[..])
  {
    bytes := [];
    var k := 0;
    while k < a.Length
      invariant k <= a.Length && bytes == NameBytes(a[..k])
    {
      bytes := bytes + a[k].nameOne + a[k].nameTwo + a[k].nameThree;
      k := k + 1;
      assert a[..k][..k - 1] == a[..k - 1];
    }
    assert a[..k] == a[..];
  }

  /** The code units of the byte pairs (`chunks(2)`), up to 0x0000 or 0xFFFF. */
  method DecodeUnits(bytes: seq<byte>) returns (chars: seq<u16>)
    requires |bytes| % 2 == 0
    ensures chars == UnitsFrom(bytes, 0)
  {
    chars := [];
    var at := 0;
    while at < |bytes|
      invariant at <= |bytes| && (|bytes| - at) % 2 == 0
      invariant UnitsFrom(bytes, 0) == chars + UnitsFrom(bytes, at)
    {
      var unit := UnitAt(bytes, at);
      if unit == 0 || unit == 0xFFFF {
        break;
      }
      chars := chars + [unit];
      at := at + 2;
    }
  }

  lemma TrimmedStep(s: seq<byte>, i: nat)
    requires i < |s| && s[i] != SPACE && s[i] != 0
    ensures Trimmed(s[i..]) == [s[i]] + Trimmed(s[i + 1..])
  {
    assert s[i..][1..] == s[i + 1..];
  }

  /** `parse_entry`: the starting cluster `(high << 16) | low`, metadata with
    * the attribute byte and default timestamps, and the size unless the
    * directory bit is set. */
  function ParseEntry(r: RegularEntry): (result: (u32, Metadata, Option<u32>))
  {
    Pow2Facts();
    DisjointBits(r.firstClusterLow, r.firstClusterHigh, 16);
    var cluster := Or(r.firstClusterLow, r.firstClusterHigh * 0x1_0000);
    var metadata := Metadata(r.attributes, DefaultTimestamp(), DefaultTimestamp(), DefaultTimestamp());
    if And(r.attributes, DIRECTORY) > 0 then (cluster, metadata, None) else (cluster, metadata, Some(r.fileSize))
  }

  /** The starting cluster joins the two halves, the size is withheld exactly
    * for directories (attribute bit 4), and a cluster split by `high_and_low`
    * into an entry is found again by `parse_entry`. */
  lemma ParseEntryFields(r: RegularEntry)
    ensures var (cluster, metadata, size) := ParseEntry(r);
            && cluster == r.firstClusterHigh * 0x1_0000 + r.firstClusterLow
            && cluster / 0x1_0000 == r.firstClusterHigh && cluster % 0x1_0000 == r.firstClusterLow
            && metadata.attributes == r.attributes
            && (size.None? <==> (r.attributes / 0x10) % 2 == 1)
            && (size.Some? ==> size.value == r.fileSize)
    ensures forall c: Cluster :: HighAndLow(c) == (r.firstClusterHigh, r.firstClusterLow) ==>
              ParseEntry(r).0 == c.num
  {
    Pow2Facts();
    DisjointBits(r.firstClusterLow, r.firstClusterHigh, 16);
    DivModUnique(r.firstClusterHigh, r.firstClusterLow, 0x1_0000);
    AndPow2(r.attributes, 4);
    forall c: Cluster | HighAndLow(c) == (r.firstClusterHigh, r.firstClusterLow)
      ensures ParseEntry(r).0 == c.num
    {
      HighAndLowRecombine(c);
    }
  }
}
