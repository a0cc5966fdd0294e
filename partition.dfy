/** A partition of a block device (lib/filesystem/src/partition.rs): a window of
  * `blockCount` logical blocks of `blockSize` bytes starting at physical block
  * `blockOffset` of the underlying device.  One logical block spans `factor`
  * device blocks; a logical transfer is cut into device-sized windows and only
  * the windows that are full are handed to the device. */
module Partition {
  import opened Common
  import opened Io
  import opened Device
  import opened Mbr

  // ---------------------------------------------------------------------------
  // Logical to physical mapping

  /** `factor`: device blocks per logical block. */
  function Factor(blockSize: nat, deviceBlockSize: nat): (r: nat)
    requires deviceBlockSize > 0
    ensures r * deviceBlockSize <= blockSize < (r + 1) * deviceBlockSize
  {
    var r := blockSize / deviceBlockSize;
    assert blockSize == r * deviceBlockSize + blockSize % deviceBlockSize;
    r
  }

  /** `virtual_to_physical`: the first device block of logical block `block`. */
  function VirtualToPhysical(blockOffset: nat, blockCount: nat, factor: nat, block: nat): (r: Option<nat>)
  {
    if block >= blockCount then None else Some(blockOffset + block * factor)
  }

  /** A logical block is mapped exactly when it is below the block count; the
    * mapped blocks lie inside the partition's physical range, and two
    * different logical blocks map to `factor`-long device ranges that do not
    * overlap, in the same order. */
  lemma VirtualToPhysicalLayout(blockOffset: nat, blockCount: nat, factor: nat, b1: nat, b2: nat)
    ensures VirtualToPhysical(blockOffset, blockCount, factor, b1).Some? <==> b1 < blockCount
    ensures b1 < blockCount ==>
              var p := VirtualToPhysical(blockOffset, blockCount, factor, b1).value;
              blockOffset <= p && p + factor <= blockOffset + blockCount * factor
    ensures b1 < b2 < blockCount ==>
              VirtualToPhysical(blockOffset, blockCount, factor, b1).value + factor
                <= VirtualToPhysical(blockOffset, blockCount, factor, b2).value
  {
    if b1 < blockCount {
      MulMonotone(b1 + 1, blockCount, factor);
    }
    if b1 < b2 < blockCount {
      MulMonotone(b1 + 1, b2, factor);
    }
  }

  // ---------------------------------------------------------------------------
  // Windowed transfers

  /** The number of full `deviceBlockSize`-byte windows of a `len`-byte buffer
    * from byte `at` on. */
  function Windows(len: nat, deviceBlockSize: nat, at: nat): nat
    requires deviceBlockSize > 0
    decreases len - at
  {
    if at + deviceBlockSize > len then 0 else 1 + Windows(len, deviceBlockSize, at + deviceBlockSize)
  }

  /** The full windows cover the buffer up to less than one window before its end. */
  lemma {:induction false} WindowsCover(len: nat, deviceBlockSize: nat, at: nat)
    requires deviceBlockSize > 0 && at <= len
    ensures at + Windows(len, deviceBlockSize, at) * deviceBlockSize <= len
    ensures len < at + Windows(len, deviceBlockSize, at) * deviceBlockSize + deviceBlockSize
    decreases len - at
  {
    if at + deviceBlockSize <= len {
      WindowsCover(len, deviceBlockSize, at + deviceBlockSize);
    }
  }

  /** The `chunks_mut(device block size)` loop of `read_block` from byte `at` of
    * the buffer and device block `block` on: each full window is read from its
    * device block; the loop stops at the first device error, leaving the
    * windows read so far in place. */
  function ReadWindows(blocks: seq<seq<byte>>, deviceBlockSize: nat, block: nat, data: seq<byte>, at: nat)
    : (r: (Result<(), ErrorKind>, seq<byte>))
    requires deviceBlockSize > 0 && WellSized(blocks, deviceBlockSize)
    ensures |r.1| == |data|
    decreases |data| - at
  {
    if at + deviceBlockSize > |data| then (Ok(()), data)
    else if block >= |blocks| then (Err(NotFound), data)
    else ReadWindows(blocks, deviceBlockSize, block + 1, Splice(data, at, blocks[block]), at + deviceBlockSize)
  }

  /** The `chunks(device block size)` loop of `write_block`. */
  function WriteWindows(blocks: seq<seq<byte>>, deviceBlockSize: nat, block: nat, data: seq<byte>, at: nat)
    : (r: (Result<(), ErrorKind>, seq<seq<byte>>))
    requires deviceBlockSize > 0 && WellSized(blocks, deviceBlockSize)
    ensures |r.1| == |blocks| && WellSized(r.1, deviceBlockSize)
    decreases |data| - at
  {
    if at + deviceBlockSize > |data| then (Ok(()), blocks)
    else if block >= |blocks| then (Err(NotFound), blocks)
    else WriteWindows(blocks[block := data[at..at + deviceBlockSize]], deviceBlockSize, block + 1, data,
                      at + deviceBlockSize)
  }

  /** The byte just past the last full window from byte `at` on. */
  function WindowsEnd(len: nat, deviceBlockSize: nat, at: nat): (e: nat)
    requires deviceBlockSize > 0
    ensures at <= len ==> at <= e <= len
    decreases len - at
  {
    if at + deviceBlockSize > len then at else WindowsEnd(len, deviceBlockSize, at + deviceBlockSize)
  }

  /** The full windows from `at` on span `Windows` device blocks' worth of bytes,
    * and what is left after them is shorter than one device block. */
  lemma {:induction false} WindowsSpan(len: nat, deviceBlockSize: nat, at: nat)
    requires deviceBlockSize > 0
    ensures WindowsEnd(len, deviceBlockSize, at) == at + Windows(len, deviceBlockSize, at) * deviceBlockSize
    ensures at <= len ==> len < WindowsEnd(len, deviceBlockSize, at) + deviceBlockSize
    decreases len - at
  {
    if at + deviceBlockSize <= len {
      WindowsSpan(len, deviceBlockSize, at + deviceBlockSize);
    }
  }

  /** The bytes of a sequence of blocks, one after the other. */
  function Flatten(bs: seq<seq<byte>>): (r: seq<byte>)
  {
    if bs == [] then [] else bs[0] + Flatten(bs[1..])
  }

  /** A windowed read succeeds exactly when every full window has a device
    * block, and then the full windows hold the device blocks `block`,
    * `block + 1`, ... one after the other; the bytes outside the full windows
    * are left as they were, even when the read fails. */
  lemma {:induction false} ReadWindowsContents(blocks: seq<seq<byte>>, deviceBlockSize: nat, block: nat,
                                               data: seq<byte>, at: nat)
    requires deviceBlockSize > 0 && WellSized(blocks, deviceBlockSize) && at <= |data|
    ensures var r := ReadWindows(blocks, deviceBlockSize, block, data, at);
            var n := Windows(|data|, deviceBlockSize, at);
            var end := WindowsEnd(|data|, deviceBlockSize, at);
            && (r.0.Ok? <==> n == 0 || block + n <= |blocks|)
            && (r.0.Err? ==> r.0.error == NotFound)
            && (block + n <= |blocks| ==> r.1[at..end] == Flatten(blocks[block..block + n]))
            && r.1[..at] == data[..at]
            && r.1[end..] == data[end..]
    decreases |data| - at
  {
    if at + deviceBlockSize <= |data| && block < |blocks| {
      var d' := Splice(data, at, blocks[block]);
      var at' := at + deviceBlockSize;
      ReadWindowsContents(blocks, deviceBlockSize, block + 1, d', at');
      var r := ReadWindows(blocks, deviceBlockSize, block + 1, d', at');
      var n := Windows(|data|, deviceBlockSize, at);
      assert n == 1 + Windows(|data|, deviceBlockSize, at');
      var end := WindowsEnd(|data|, deviceBlockSize, at');
      assert r.1[..at] == r.1[..at'][..at];
      assert d'[..at] == data[..at];
      if r.0.Ok? {
        assert r.1[at..at'] == r.1[..at'][at..];
        assert r.1[at..end] == r.1[at..at'] + r.1[at'..end];
        assert blocks[block..block + n][1..] == blocks[block + 1..block + n];
      }
    } else if at + deviceBlockSize <= |data| {
      assert Windows(|data|, deviceBlockSize, at) >= 1;
    }
  }

  /** A windowed write succeeds exactly when every full window has a device
    * block, and then the device blocks `block`, `block + 1`, ... hold the full
    * windows one after the other; every other device block is left as it was,
    * even when the write fails. */
  lemma {:induction false} WriteWindowsContents(blocks: seq<seq<byte>>, deviceBlockSize: nat, block: nat,
                                                data: seq<byte>, at: nat)
    requires deviceBlockSize > 0 && WellSized(blocks, deviceBlockSize) && at <= |data|
    ensures var r := WriteWindows(blocks, deviceBlockSize, block, data, at);
            var n := Windows(|data|, deviceBlockSize, at);
            var end := WindowsEnd(|data|, deviceBlockSize, at);
            && (r.0.Ok? <==> n == 0 || block + n <= |blocks|)
            && (r.0.Err? ==> r.0.error == NotFound)
            && (block + n <= |blocks| ==> Flatten(r.1[block..block + n]) == data[at..end])
            && (forall b :: 0 <= b < |blocks| && (b < block || block + n <= b) ==> r.1[b] == blocks[b])
    decreases |data| - at
  {
    if at + deviceBlockSize <= |data| && block < |blocks| {
      var bs' := blocks[block := data[at..at + deviceBlockSize]];
      var at' := at + deviceBlockSize;
      WriteWindowsContents(bs', deviceBlockSize, block + 1, data, at');
      var r := WriteWindows(bs', deviceBlockSize, block + 1, data, at');
      var n := Windows(|data|, deviceBlockSize, at);
      assert n == 1 + Windows(|data|, deviceBlockSize, at');
      var end := WindowsEnd(|data|, deviceBlockSize, at');
      if r.0.Ok? {
        assert r.1[block..block + n][1..] == r.1[block + 1..block + n];
        assert data[at..end] == data[at..at'] + data[at'..end];
      }
    } else if at + deviceBlockSize <= |data| {
      assert Windows(|data|, deviceBlockSize, at) >= 1;
    }
  }

  /** After a successful write, reading the same windows back succeeds. */
  lemma ReadAfterWriteOk(blocks: seq<seq<byte>>, deviceBlockSize: nat, block: nat, data: seq<byte>, into: seq<byte>)
    requires deviceBlockSize > 0 && WellSized(blocks, deviceBlockSize) && |into| == |data|
    requires WriteWindows(blocks, deviceBlockSize, block, data, 0).0.Ok?
    ensures ReadWindows(WriteWindows(blocks, deviceBlockSize, block, data, 0).1, deviceBlockSize, block, into, 0).0 == Ok(())
  {
    var written := WriteWindows(blocks, deviceBlockSize, block, data, 0).1;
    var n := Windows(|data|, deviceBlockSize, 0);
    assert |written| == |blocks|;
    assert n == 0 || block + n <= |blocks| by {
      WriteWindowsContents(blocks, deviceBlockSize, block, data, 0);
    }
    var r := ReadWindows(written, deviceBlockSize, block, into, 0);
    assert Windows(|into|, deviceBlockSize, 0) == n;
    assert r.0.Ok? <==> n == 0 || block + n <= |written| by {
      ReadWindowsContents(written, deviceBlockSize, block, into, 0);
    }
    assert r.0.Ok? && r.0.value == ();
  }

  /** After a successful write, reading the same windows back yields the bytes written. */
  lemma ReadAfterWriteData(blocks: seq<seq<byte>>, deviceBlockSize: nat, block: nat, data: seq<byte>, into: seq<byte>)
    requires deviceBlockSize > 0 && WellSized(blocks, deviceBlockSize) && |into| == |data|
    requires WriteWindows(blocks, deviceBlockSize, block, data, 0).0.Ok?
    ensures ReadWindows(WriteWindows(blocks, deviceBlockSize, block, data, 0).1, deviceBlockSize, block, into, 0).1[..WindowsEnd(|data|, deviceBlockSize, 0)]
         == data[..WindowsEnd(|data|, deviceBlockSize, 0)]
  {
    var written := WriteWindows(blocks, deviceBlockSize, block, data, 0).1;
    var n := Windows(|data|, deviceBlockSize, 0);
    var end := WindowsEnd(|data|, deviceBlockSize, 0);
    assert |written| == |blocks|;
    assert (n == 0 || block + n <= |blocks|)
        && (block + n <= |blocks| ==> Flatten(written[block..block + n]) == data[0..end]) by {
      WriteWindowsContents(blocks, deviceBlockSize, block, data, 0);
    }
    var r := ReadWindows(written, deviceBlockSize, block, into, 0);
    assert Windows(|into|, deviceBlockSize, 0) == n && WindowsEnd(|into|, deviceBlockSize, 0) == end;
    assert block + n <= |written| ==> r.1[0..end] == Flatten(written[block..block + n]) by {
      ReadWindowsContents(written, deviceBlockSize, block, into, 0);
    }
    assert n == 0 ==> end == 0 by {
      WindowsSpan(|data|, deviceBlockSize, 0);
    }
  }

  /** Writing a buffer through the windows and reading it back (into any buffer
    * of the same length) succeeds, and returns the whole buffer when the
    * windows cover it. */
  lemma ReadAfterWrite(blocks: seq<seq<byte>>, deviceBlockSize: nat, block: nat, data: seq<byte>, into: seq<byte>)
    requires deviceBlockSize > 0 && WellSized(blocks, deviceBlockSize) && |into| == |data|
    requires WriteWindows(blocks, deviceBlockSize, block, data, 0).0.Ok?
    ensures ReadWindows(WriteWindows(blocks, deviceBlockSize, block, data, 0).1, deviceBlockSize, block, into, 0).0 == Ok(())
    ensures WindowsEnd(|data|, deviceBlockSize, 0) == |data| ==>
              ReadWindows(WriteWindows(blocks, deviceBlockSize, block, data, 0).1, deviceBlockSize, block, into, 0).1 == data
  {
    ReadAfterWriteOk(blocks, deviceBlockSize, block, data, into);
    ReadAfterWriteData(blocks, deviceBlockSize, block, data, into);
    var r := ReadWindows(WriteWindows(blocks, deviceBlockSize, block, data, 0).1, deviceBlockSize, block, into, 0);
    if WindowsEnd(|data|, deviceBlockSize, 0) == |data| {
      assert |r.1| == |into| by {
        ReadWindowsContents(WriteWindows(blocks, deviceBlockSize, block, data, 0).1, deviceBlockSize, block, into, 0);
      }
      assert r.1 == r.1[..|data|];
    }
  }

  // ---------------------------------------------------------------------------
  // The partition

  /** `BlockPartition`. */
  class BlockPartition {
    const device: Disk
    const blockOffset: nat
    const blockCount: nat
    var blockSize: nat

    ghost predicate Valid()
      reads this, device
    {
      device.Valid()
    }

    constructor (device: Disk, blockOffset: nat, blockCount: nat, blockSize: nat)
      requires device.Valid()
      ensures Valid()
      ensures this.device == device && this.blockOffset == blockOffset && this.blockCount == blockCount
      ensures this.blockSize == blockSize
    {
      this.device := device;
      this.blockOffset := blockOffset;
      this.blockCount := blockCount;
      this.blockSize := blockSize;
    }

    /** `set_block_size`. */
    method SetBlockSize(blockSize: nat)
      modifies this`blockSize
      ensures this.blockSize == blockSize
    {
      this.blockSize := blockSize;
    }

    /** The partition's mapping with its current block size. */
    function Physical(block: nat): (r: Option<nat>)
      reads this, device
      requires Valid()
    {
      VirtualToPhysical(blockOffset, blockCount, Factor(blockSize, device.blockSize), block)
    }

    /** What `read_block(block, data)` does to the buffer and returns. */
    function ReadSpec(blocks: seq<seq<byte>>, block: nat, data: seq<byte>): (r: (Result<(), ErrorKind>, seq<byte>))
      reads this, device
      requires Valid() && WellSized(blocks, device.blockSize)
    {
      if |data| != blockSize then (Err(Unsupported), data)
      else match Physical(block)
        case None => (Err(NotFound), data)
        case Some(p) => ReadWindows(blocks, device.blockSize, p, data, 0)
    }

    /** What `write_block(block, data)` does to the device's blocks and returns. */
    function WriteSpec(blocks: seq<seq<byte>>, block: nat, data: seq<byte>): (r: (Result<(), ErrorKind>, seq<seq<byte>>))
      reads this, device
      requires Valid() && WellSized(blocks, device.blockSize)
    {
      if |data| != blockSize then (Err(Unsupported), blocks)
      else match Physical(block)
        case None => (Err(NotFound), blocks)
        case Some(p) => WriteWindows(blocks, device.blockSize, p, data, 0)
    }

    /** `read_block`. */
    method ReadBlock(block: nat, data: array<byte>) returns (r: Result<(), ErrorKind>)
      requires Valid()
      modifies data
      ensures r == ReadSpec(device.blocks, block, old(data[..])).0
      ensures data[..] == ReadSpec(device.blocks, block, old(data[..])).1
    {
      if data.Length != blockSize {
        return Err(Unsupported);
      }
      var physical := Physical(block);
      if physical.None? {
        return Err(NotFound);
      }
      var bs := device.blockSize;
      var at, b := 0, physical.value;
      while at + bs <= data.Length
        invariant ReadWindows(device.blocks, bs, b, data[..], at)
                  == ReadWindows(device.blocks, bs, physical.value, old(data[..]), 0)
        decreases data.Length - at
      {
        var e := device.ReadBlock(b, data, at, bs);
        if e.Err? {
          return e;
        }
        at, b := at + bs, b + 1;
      }
      return Ok(());
    }

    /** `write_block`. */
    method WriteBlock(block: nat, data: seq<byte>) returns (r: Result<(), ErrorKind>)
      requires Valid()
      modifies device`blocks
      ensures Valid()
      ensures r == WriteSpec(old(device.blocks), block, data).0
      ensures device.blocks == WriteSpec(old(device.blocks), block, data).1
    {
      if |data| != blockSize {
        return Err(Unsupported);
      }
      var physical := Physical(block);
      if physical.None? {
        return Err(NotFound);
      }
      var bs := device.blockSize;
      var at, b := 0, physical.value;
      while at + bs <= |data|
        invariant device.Valid()
        invariant WriteWindows(device.blocks, bs, b, data, at)
                  == WriteWindows(old(device.blocks), bs, physical.value, data, 0)
        decreases |data| - at
      {
        var e := device.WriteBlock(b, data[at..at + bs]);
        if e.Err? {
          return e;
        }
        at, b := at + bs, b + 1;
      }
      return Ok(());
    }
  }

  /** A logical transfer fails with `Unsupported` exactly for a buffer of the
    * wrong length, and with `NotFound`, changing nothing, for a block past the
    * partition's end. */
  lemma PartitionRejects(p: BlockPartition, blocks: seq<seq<byte>>, block: nat, data: seq<byte>)
    requires p.Valid() && WellSized(blocks, p.device.blockSize)
    ensures p.ReadSpec(blocks, block, data).0 == Err(Unsupported) <==> |data| != p.blockSize
    ensures p.WriteSpec(blocks, block, data).0 == Err(Unsupported) <==> |data| != p.blockSize
    ensures |data| != p.blockSize ==> p.ReadSpec(blocks, block, data).1 == data && p.WriteSpec(blocks, block, data).1 == blocks
    ensures |data| == p.blockSize && block >= p.blockCount ==>
              p.ReadSpec(blocks, block, data) == (Err(NotFound), data)
              && p.WriteSpec(blocks, block, data) == (Err(NotFound), blocks)
  {
    if |data| == p.blockSize && block < p.blockCount {
      var bs := p.device.blockSize;
      var first := p.blockOffset + block * Factor(p.blockSize, bs);
      WriteWindowsContents(blocks, bs, first, data, 0);
      ReadWindowsContents(blocks, bs, first, data, 0);
    }
  }

  /** A transfer of an in-range logical block succeeds exactly when the device
    * has its `factor` device blocks, and a write changes no other device block. */
  lemma PartitionWindow(p: BlockPartition, blocks: seq<seq<byte>>, block: nat, data: seq<byte>)
    requires p.Valid() && WellSized(blocks, p.device.blockSize)
    requires |data| == p.blockSize && block < p.blockCount
    ensures var f := Factor(p.blockSize, p.device.blockSize);
            var first := p.blockOffset + block * f;
            && (p.WriteSpec(blocks, block, data).0.Ok? <==> f == 0 || first + f <= |blocks|)
            && (p.ReadSpec(blocks, block, data).0.Ok? <==> f == 0 || first + f <= |blocks|)
            && forall b :: 0 <= b < |blocks| && (b < first || first + f <= b) ==>
                 p.WriteSpec(blocks, block, data).1[b] == blocks[b]
  {
    var bs := p.device.blockSize;
    var first := p.blockOffset + block * Factor(p.blockSize, bs);
    WindowsFactor(|data|, bs);
    WriteWindowsContents(blocks, bs, first, data, 0);
    ReadWindowsContents(blocks, bs, first, data, 0);
  }

  /** Reading a logical block back after a successful write returns what was
    * written whenever the device block size divides the logical block size. */
  lemma PartitionReadAfterWrite(p: BlockPartition, blocks: seq<seq<byte>>, block: nat, data: seq<byte>, into: seq<byte>)
    requires p.Valid() && WellSized(blocks, p.device.blockSize) && |into| == |data|
    requires p.WriteSpec(blocks, block, data).0.Ok? && p.blockSize % p.device.blockSize == 0
    ensures p.ReadSpec(p.WriteSpec(blocks, block, data).1, block, into) == (Ok(()), data)
  {
    var bs := p.device.blockSize;
    var f := Factor(p.blockSize, bs);
    assert |data| == p.blockSize && p.Physical(block).Some?;
    var first := p.Physical(block).value;
    assert first == p.blockOffset + block * f;
    assert p.WriteSpec(blocks, block, data) == WriteWindows(blocks, bs, first, data, 0);
    var written := WriteWindows(blocks, bs, first, data, 0).1;
    ReadAfterWrite(blocks, bs, first, data, into);
    WindowsFactor(|data|, bs);
    WindowsSpan(|data|, bs, 0);
    assert p.blockSize == f * bs + p.blockSize % bs;
    assert WindowsEnd(|data|, bs, 0) == |data|;
    assert ReadWindows(written, bs, first, into, 0) == (Ok(()), data);
    assert p.ReadSpec(written, block, into) == ReadWindows(written, bs, first, into, 0);
  }

  /** The number of full windows of a buffer is the partition's factor. */
  lemma WindowsFactor(len: nat, deviceBlockSize: nat)
    requires deviceBlockSize > 0
    ensures Windows(len, deviceBlockSize, 0) == Factor(len, deviceBlockSize)
  {
    var n := Windows(len, deviceBlockSize, 0);
    WindowsCover(len, deviceBlockSize, 0);
    var f := Factor(len, deviceBlockSize);
    if n < f {
      MulMonotone(n + 1, f, deviceBlockSize);
    } else if f < n {
      MulMonotone(f + 1, n, deviceBlockSize);
    }
  }

  // ---------------------------------------------------------------------------
  // Opening a partition

  /** The index of the first entry from `i` on whose partition type is `filesystem`. */
  function FirstOfType(table: seq<PartitionEntry>, filesystem: byte, i: nat): (r: Option<nat>)
    requires i <= |table|
    ensures r.Some? ==> i <= r.value < |table| && table[r.value].partitionType == filesystem
                        && forall j :: i <= j < r.value ==> table[j].partitionType != filesystem
    ensures r.None? ==> forall j :: i <= j < |table| ==> table[j].partitionType != filesystem
    decreases |table| - i
  {
    if i == |table| then None
    else if table[i].partitionType == filesystem then Some(i)
    else FirstOfType(table, filesystem, i + 1)
  }

  /** The partition `try_from` opens, as (first physical block, block count,
    * block size): the master boot record is read and validated, and the first
    * entry of type `filesystem` gives the window; the logical block size starts
    * as the device's. */
  function Locate(blocks: seq<seq<byte>>, deviceBlockSize: nat, filesystem: byte): (r: Result<(nat, nat, nat), FilesystemError>)
    requires WellSized(blocks, deviceBlockSize)
  {
    match MbrFrom(blocks, deviceBlockSize)
    case Err(e) => Err(e)
    case Ok(m) =>
      match FirstOfType(m.partitionTable, filesystem, 0)
      case None => Err(BadSignature)
      case Some(i) => Ok((m.partitionTable[i].relativeSector, m.partitionTable[i].totalSectors, deviceBlockSize))
  }

  /** A partition is opened exactly when the boot record is valid and one of its
    * entries has the requested type; the window is then the first such entry's,
    * and a valid record without one gives `BadSignature`. */
  lemma LocateOutcome(blocks: seq<seq<byte>>, deviceBlockSize: nat, filesystem: byte)
    requires WellSized(blocks, deviceBlockSize)
    ensures Locate(blocks, deviceBlockSize, filesystem).Ok? <==>
              MbrFrom(blocks, deviceBlockSize).Ok?
              && exists i :: 0 <= i < 4 && MbrFrom(blocks, deviceBlockSize).value.partitionTable[i].partitionType == filesystem
    ensures Locate(blocks, deviceBlockSize, filesystem).Ok? ==>
              var t := ParseMbr(blocks[0]).partitionTable;
              exists i :: 0 <= i < 4 && t[i].partitionType == filesystem
                && (forall j :: 0 <= j < i ==> t[j].partitionType != filesystem)
                && Locate(blocks, deviceBlockSize, filesystem).value
                   == (t[i].relativeSector, t[i].totalSectors, deviceBlockSize)
    ensures MbrFrom(blocks, deviceBlockSize).Ok? && Locate(blocks, deviceBlockSize, filesystem).Err? ==>
              Locate(blocks, deviceBlockSize, filesystem).error == BadSignature
  {
    MbrFromOutcome(blocks, deviceBlockSize);
    match MbrFrom(blocks, deviceBlockSize)
    case Err(_) =>
    case Ok(m) =>
      match FirstOfType(m.partitionTable, filesystem, 0)
      case None =>
      case Some(i) =>
        assert m.partitionTable[i].partitionType == filesystem;
  }

  /** `BlockPartition::try_from((device, filesystem))`. */
  method TryFrom(device: Disk, filesystem: byte) returns (r: Result<BlockPartition, FilesystemError>)
    requires device.Valid()
    ensures Locate(device.blocks, device.blockSize, filesystem).Err? ==>
              r.Err? && r.error == Locate(device.blocks, device.blockSize, filesystem).error
    ensures Locate(device.blocks, device.blockSize, filesystem).Ok? ==>
              var (offset, count, size) := Locate(device.blocks, device.blockSize, filesystem).value;
              && r.Ok? && fresh(r.value) && r.value.Valid() && r.value.device == device
              && r.value.blockOffset == offset && r.value.blockCount == count && r.value.blockSize == size
  {
    var located := Locate(device.blocks, device.blockSize, filesystem);
    if located.Err? {
      return Err(located.error);
    }
    var (offset, count, size) := located.value;
    var p := new BlockPartition(device, offset, count, size);
    return Ok(p);
  }
}
