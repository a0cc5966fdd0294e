/** Block and byte devices (lib/filesystem/src/device.rs): the offset-based
  * streaming of a byte buffer across a range of fixed-size blocks
  * (`stream_read`, `stream_write`), and the `Read`/`Write`/`Seek` adapters over
  * a byte-at-a-time device.
  *
  * A block device is modelled by `Disk`, an in-memory sequence of equal-sized
  * blocks with the behaviour every `BlockDevice` in the repository shares: a
  * buffer of the wrong length is `Unsupported` and a block past the end is
  * `NotFound`.
  *
  * The streaming functions are split the way their iterator chain is: a *plan*
  * (the `skip`/`zip`/`chunks` part, a list of chunks pairing a block with a
  * window of the caller's buffer) and an *executor* (the `try_for_each`
  * closure).  The plan as written and a corrected plan share the executor. */
module Device {
  import opened Common
  import opened Io

  // ---------------------------------------------------------------------------
  // Block devices

  predicate WellSized(blocks: seq<seq<byte>>, blockSize: nat)
  {
    forall b :: 0 <= b < |blocks| ==> |blocks[b]| == blockSize
  }

  /** The error a block transfer of `len` bytes to block `block` reports, if any. */
  function BlockCheck(count: nat, blockSize: nat, block: nat, len: nat): (r: Result<(), ErrorKind>)
    ensures r.Ok? <==> len == blockSize && block < count
  {
    if len != blockSize then Err(Unsupported)
    else if block >= count then Err(NotFound)
    else Ok(())
  }

  /** `s` with `piece` written over it from position `at`. */
  function Splice(s: seq<byte>, at: nat, piece: seq<byte>): (r: seq<byte>)
    requires at + |piece| <= |s|
    ensures |r| == |s|
    ensures forall k :: 0 <= k < |s| ==> r[k] == if at <= k < at + |piece| then piece[k - at] else s[k]
  {
    s[..at] + piece + s[at + |piece|..]
  }

  /** Copy `src` into `dst` from index `at` (`copy_from_slice`). */
  method CopyInto(src: seq<byte>, dst: array<byte>, at: nat)
    requires at + |src| <= dst.Length
    modifies dst
    ensures dst[..] == Splice(old(dst[..]), at, src)
  {
    var i := 0;
    while i < |src|
      invariant 0 <= i <= |src|
      invariant dst[..] == old(dst[..])[..at] + src[..i] + old(dst[..])[at + i..]
    {
      dst[at + i] := src[i];
      i := i + 1;
      assert src[..i] == src[..i - 1] + [src[i - 1]];
    }
    assert src[..i] == src;
  }

  /** An in-memory block device. */
  class Disk {
    var blocks: seq<seq<byte>>
    const blockSize: nat

    ghost predicate Valid()
      reads this
    {
      blockSize > 0 && WellSized(blocks, blockSize)
    }

    constructor (blockSize: nat, blocks: seq<seq<byte>>)
      requires blockSize > 0 && WellSized(blocks, blockSize)
      ensures Valid() && this.blockSize == blockSize && this.blocks == blocks
    {
      this.blockSize := blockSize;
      this.blocks := blocks;
    }

    /** `read_block(block, &mut data[from..from + len])`. */
    method ReadBlock(block: nat, data: array<byte>, from: nat, len: nat) returns (r: Result<(), ErrorKind>)
      requires Valid() && from + len <= data.Length
      modifies data
      ensures r == BlockCheck(|blocks|, blockSize, block, len)
      ensures data[..] == if r.Ok? then Splice(old(data[..]), from, blocks[block]) else old(data[..])
    {
      r := BlockCheck(|blocks|, blockSize, block, len);
      if r.Ok? {
        CopyInto(blocks[block], data, from);
      }
    }

    /** `write_block(block, data)`. */
    method WriteBlock(block: nat, data: seq<byte>) returns (r: Result<(), ErrorKind>)
      requires Valid()
      modifies this`blocks
      ensures Valid()
      ensures r == BlockCheck(|old(blocks)|, blockSize, block, |data|)
      ensures blocks == if r.Ok? then old(blocks)[block := data] else old(blocks)
    {
      r := BlockCheck(|blocks|, blockSize, block, |data|);
      if r.Ok? {
        blocks := blocks[block := data];
      }
    }
  }

  // ---------------------------------------------------------------------------
  // Streaming plans

  /** One step of a stream transfer: block `block`, from byte `blockOffset` of the
    * block, against `len` bytes of the caller's buffer from `dataOffset`. */
  datatype Chunk = Chunk(block: nat, blockOffset: nat, dataOffset: nat, len: nat)

  /** What a stream transfer ends with: `Ok((last_block, amount))`, an I/O error,
    * or a panic (an out-of-bounds slice). */
  datatype StreamOutcome = Done(last: nat, amount: nat) | Failed(kind: ErrorKind) | Panicked

  predicate Fits(plan: seq<Chunk>, dataLen: nat)
  {
    forall k :: 0 <= k < |plan| ==> plan[k].dataOffset + plan[k].len <= dataLen
  }

  lemma ConsFits(c: Chunk, rest: seq<Chunk>, dataLen: nat)
    requires c.dataOffset + c.len <= dataLen && Fits(rest, dataLen)
    ensures Fits([c] + rest, dataLen)
  {
    forall k | 1 <= k < |rest| + 1
      ensures ([c] + rest)[k].dataOffset + ([c] + rest)[k].len <= dataLen
    {
      assert ([c] + rest)[k] == rest[k - 1];
    }
  }

  /** `main_data.chunks(block_size)` zipped with the blocks `block..final`, where
    * `main_data` is the caller's buffer from `d` on. */
  function MainChunks(blockSize: nat, block: nat, final: nat, d: nat, dataLen: nat): (r: seq<Chunk>)
    requires blockSize > 0
    ensures Fits(r, dataLen)
    decreases dataLen - d
  {
    if d >= dataLen || block >= final then []
    else
      var len := Min(blockSize, dataLen - d);
      var rest := MainChunks(blockSize, block + 1, final, d + len, dataLen);
      ConsFits(Chunk(block, 0, d, len), rest, dataLen);
      [Chunk(block, 0, d, len)] + rest
  }

  /** `offset_data`: `(offset / block_size, block_size - offset % block_size)`. */
  function OffsetData(offset: nat, blockSize: nat): (r: (nat, nat))
    requires blockSize > 0
    ensures r.0 * blockSize <= offset && 0 < r.1 <= blockSize
  {
    (offset / blockSize, blockSize - offset % blockSize)
  }

  /** The chunks `stream_read` and `stream_write` visit, as written, for blocks
    * `first..final` and a buffer of `dataLen` bytes.  The buffer is split at
    * `small_offset % block_size` (a panic when that exceeds the buffer); the
    * prefix always pairs with the first block not skipped, even when it is empty,
    * and is read at `small_offset`, i.e. `block_size - offset % block_size`. */
  function PlanAsWritten(blockSize: nat, offset: nat, first: nat, final: nat, dataLen: nat): (r: Option<seq<Chunk>>)
    requires blockSize > 0
    ensures r.Some? ==> Fits(r.value, dataLen)
  {
    var (skip, smallOffset) := OffsetData(offset, blockSize);
    var prefixLen := smallOffset % blockSize;
    if prefixLen > dataLen then None
    else if first + skip >= final then Some([])
    else
      var rest := MainChunks(blockSize, first + skip + 1, final, prefixLen, dataLen);
      ConsFits(Chunk(first + skip, smallOffset, 0, prefixLen), rest, dataLen);
      Some([Chunk(first + skip, smallOffset, 0, prefixLen)] + rest)
  }

  /** The chunks evidently intended: the prefix is read at `offset % block_size`,
    * is cut to the buffer, and is left out when the offset is block-aligned. */
  function PlanFixed(blockSize: nat, offset: nat, first: nat, final: nat, dataLen: nat): (r: seq<Chunk>)
    requires blockSize > 0
    ensures Fits(r, dataLen)
  {
    var skip := offset / blockSize;
    var within := offset % blockSize;
    if first + skip >= final then []
    else if within == 0 then MainChunks(blockSize, first + skip, final, 0, dataLen)
    else
      var prefixLen := Min(blockSize - within, dataLen);
      var rest := MainChunks(blockSize, first + skip + 1, final, prefixLen, dataLen);
      ConsFits(Chunk(first + skip, within, 0, prefixLen), rest, dataLen);
      [Chunk(first + skip, within, 0, prefixLen)] + rest
  }

  // ---------------------------------------------------------------------------
  // Executing a plan

  /** The chunk can be carried out: its block exists, and it is either a whole
    * block or a window inside one. */
  predicate Transferable(blocks: seq<seq<byte>>, blockSize: nat, c: Chunk)
  {
    c.block < |blocks| && (c.len == blockSize || c.blockOffset + c.len <= blockSize)
  }

  /** The bytes a chunk reads: the whole block, or the window of the shadow block. */
  function ReadPiece(blocks: seq<seq<byte>>, blockSize: nat, c: Chunk): (piece: seq<byte>)
    requires WellSized(blocks, blockSize) && Transferable(blocks, blockSize, c)
    ensures |piece| == c.len
  {
    if c.len == blockSize then blocks[c.block] else blocks[c.block][c.blockOffset..c.blockOffset + c.len]
  }

  /** The block a chunk writes: the window of the buffer itself, or the old block
    * with the window written over it. */
  function WrittenBlock(blocks: seq<seq<byte>>, blockSize: nat, c: Chunk, data: seq<byte>): (block: seq<byte>)
    requires WellSized(blocks, blockSize) && Transferable(blocks, blockSize, c)
    requires c.dataOffset + c.len <= |data|
    ensures |block| == blockSize
  {
    var window := data[c.dataOffset..c.dataOffset + c.len];
    if c.len == blockSize then window else Splice(blocks[c.block], c.blockOffset, window)
  }

  /** The effect of the `try_for_each` closure of `stream_read` over `plan`:
    * a full-sized chunk is read straight into the buffer; any other chunk is read
    * into a shadow block whose window `[blockOffset, blockOffset + len)` is then
    * copied (a panic when it runs past the block). */
  function ExecRead(blocks: seq<seq<byte>>, blockSize: nat, plan: seq<Chunk>, data: seq<byte>, last: nat, amount: nat)
    : (r: (StreamOutcome, seq<byte>))
    requires blockSize > 0 && WellSized(blocks, blockSize) && Fits(plan, |data|)
    ensures |r.1| == |data|
    decreases |plan|
  {
    if plan == [] then (Done(last, amount), data)
    else
      var c := plan[0];
      match ChunkFault(blocks, blockSize, c)
      case Some(fault) => (fault, data)
      case None =>
        FitsTail(plan, |data|);
        ExecRead(blocks, blockSize, plan[1..], Splice(data, c.dataOffset, ReadPiece(blocks, blockSize, c)), c.block, amount + c.len)
  }

  /** The effect of the `try_for_each` closure of `stream_write` over `plan`:
    * a full-sized chunk is written as the whole block; any other chunk is
    * read-modify-written through a shadow block. */
  function ExecWrite(blocks: seq<seq<byte>>, blockSize: nat, plan: seq<Chunk>, data: seq<byte>, last: nat, amount: nat)
    : (r: (StreamOutcome, seq<seq<byte>>))
    requires blockSize > 0 && WellSized(blocks, blockSize) && Fits(plan, |data|)
    ensures |r.1| == |blocks| && WellSized(r.1, blockSize)
    decreases |plan|
  {
    if plan == [] then (Done(last, amount), blocks)
    else
      var c := plan[0];
      match ChunkFault(blocks, blockSize, c)
      case Some(fault) => (fault, blocks)
      case None =>
        FitsTail(plan, |data|);
        ExecWrite(blocks[c.block := WrittenBlock(blocks, blockSize, c, data)], blockSize, plan[1..], data, c.block, amount + c.len)
  }

  lemma ExecReadStep(blocks: seq<seq<byte>>, blockSize: nat, plan: seq<Chunk>, data: seq<byte>, last: nat, amount: nat)
    requires blockSize > 0 && WellSized(blocks, blockSize) && Fits(plan, |data|)
    requires plan != [] && Transferable(blocks, blockSize, plan[0])
    ensures plan[0].dataOffset + plan[0].len <= |data| && Fits(plan[1..], |data|)
    ensures ExecRead(blocks, blockSize, plan, data, last, amount)
         == ExecRead(blocks, blockSize, plan[1..], Splice(data, plan[0].dataOffset, ReadPiece(blocks, blockSize, plan[0])),
                     plan[0].block, amount + plan[0].len)
  {
    FitsTail(plan, |data|);
  }

  lemma ExecWriteStep(blocks: seq<seq<byte>>, blockSize: nat, plan: seq<Chunk>, data: seq<byte>, last: nat, amount: nat)
    requires blockSize > 0 && WellSized(blocks, blockSize) && Fits(plan, |data|)
    requires plan != [] && Transferable(blocks, blockSize, plan[0])
    ensures plan[0].dataOffset + plan[0].len <= |data| && Fits(plan[1..], |data|)
    ensures ExecWrite(blocks, blockSize, plan, data, last, amount)
         == ExecWrite(blocks[plan[0].block := WrittenBlock(blocks, blockSize, plan[0], data)], blockSize, plan[1..], data,
                      plan[0].block, amount + plan[0].len)
  {
    FitsTail(plan, |data|);
  }

  lemma ExecReadFault(blocks: seq<seq<byte>>, blockSize: nat, plan: seq<Chunk>, data: seq<byte>, last: nat, amount: nat)
    requires blockSize > 0 && WellSized(blocks, blockSize) && Fits(plan, |data|)
    requires plan != [] && ChunkFault(blocks, blockSize, plan[0]).Some?
    ensures ExecRead(blocks, blockSize, plan, data, last, amount) == (ChunkFault(blocks, blockSize, plan[0]).value, data)
  {
  }

  lemma ExecWriteFault(blocks: seq<seq<byte>>, blockSize: nat, plan: seq<Chunk>, data: seq<byte>, last: nat, amount: nat)
    requires blockSize > 0 && WellSized(blocks, blockSize) && Fits(plan, |data|)
    requires plan != [] && ChunkFault(blocks, blockSize, plan[0]).Some?
    ensures ExecWrite(blocks, blockSize, plan, data, last, amount) == (ChunkFault(blocks, blockSize, plan[0]).value, blocks)
  {
  }

  lemma FitsTail(plan: seq<Chunk>, dataLen: nat)
    requires plan != [] && Fits(plan, dataLen)
    ensures plan[0].dataOffset + plan[0].len <= dataLen && Fits(plan[1..], dataLen)
  {
    assert forall k :: 0 <= k < |plan| - 1 ==> plan[1..][k] == plan[k + 1];
  }

  lemma FitsSuffix(plan: seq<Chunk>, i: nat, dataLen: nat)
    requires i <= |plan| && Fits(plan, dataLen)
    ensures Fits(plan[i..], dataLen)
  {
    assert forall k :: 0 <= k < |plan| - i ==> plan[i..][k] == plan[k + i];
  }

  /** The outcome that stops a transfer at chunk `c`, if any: a missing block
    * fails the device read, and a window past the block end panics. */
  function ChunkFault(blocks: seq<seq<byte>>, blockSize: nat, c: Chunk): (r: Option<StreamOutcome>)
    ensures r.None? <==> Transferable(blocks, blockSize, c)
  {
    if c.block >= |blocks| then Some(Failed(NotFound))
    else if !Transferable(blocks, blockSize, c) then Some(Panicked)
    else None
  }

  /** The shadow block of a partial chunk: a fresh block-sized buffer the block is read into. */
  method ReadShadow(disk: Disk, block: nat) returns (res: Result<(), ErrorKind>, shadow: array<byte>)
    requires disk.Valid()
    ensures fresh(shadow) && shadow.Length == disk.blockSize
    ensures res == BlockCheck(|disk.blocks|, disk.blockSize, block, disk.blockSize)
    ensures res.Ok? ==> shadow[..] == disk.blocks[block]
  {
    shadow := new byte[disk.blockSize];
    res := disk.ReadBlock(block, shadow, 0, disk.blockSize);
    if res.Ok? {
      assert shadow[..] == disk.blocks[block];
    }
  }

  /** One iteration of the `stream_read` closure. */
  method ReadChunk(disk: Disk, c: Chunk, data: array<byte>) returns (fault: Option<StreamOutcome>)
    requires disk.Valid() && c.dataOffset + c.len <= data.Length
    modifies data
    ensures fault == ChunkFault(disk.blocks, disk.blockSize, c)
    ensures data[..] == if fault.None? then Splice(old(data[..]), c.dataOffset, ReadPiece(disk.blocks, disk.blockSize, c))
                        else old(data[..])
  {
    if c.len == disk.blockSize {
      var res := disk.ReadBlock(c.block, data, c.dataOffset, c.len);
      if res.Err? {
        return Some(Failed(res.error));
      }
    } else {
      var res, shadow := ReadShadow(disk, c.block);
      if res.Err? {
        return Some(Failed(res.error));
      }
      if c.blockOffset + c.len > disk.blockSize {
        return Some(Panicked);
      }
      CopyInto(shadow[c.blockOffset..c.blockOffset + c.len], data, c.dataOffset);
    }
    return None;
  }

  /** One iteration of the `stream_write` closure.  The final block write cannot
    * fail: the shadow read of the same block succeeded. */
  method WriteChunk(disk: Disk, c: Chunk, data: seq<byte>) returns (fault: Option<StreamOutcome>)
    requires disk.Valid() && c.dataOffset + c.len <= |data|
    modifies disk`blocks
    ensures disk.Valid()
    ensures fault == ChunkFault(old(disk.blocks), disk.blockSize, c)
    ensures disk.blocks == if fault.None? then old(disk.blocks)[c.block := WrittenBlock(old(disk.blocks), disk.blockSize, c, data)]
                           else old(disk.blocks)
  {
    if c.len == disk.blockSize {
      var res := disk.WriteBlock(c.block, data[c.dataOffset..c.dataOffset + c.len]);
      if res.Err? {
        return Some(Failed(res.error));
      }
    } else {
      var res, shadow := ReadShadow(disk, c.block);
      if res.Err? {
        return Some(Failed(res.error));
      }
      if c.blockOffset + c.len > disk.blockSize {
        return Some(Panicked);
      }
      CopyInto(data[c.dataOffset..c.dataOffset + c.len], shadow, c.blockOffset);
      res := disk.WriteBlock(c.block, shadow[..]);
    }
    return None;
  }

  /** Chunk `i` of a read plan: either the outcome that stops the run, or the
    * run of the remaining chunks from the new buffer. */
  method ReadChunkAt(disk: Disk, plan: seq<Chunk>, i: nat, data: array<byte>, last: nat, amount: nat)
    returns (fault: Option<StreamOutcome>)
    requires disk.Valid() && i < |plan| && Fits(plan[i..], data.Length)
    modifies data
    ensures fault.Some? ==> ExecRead(disk.blocks, disk.blockSize, plan[i..], old(data[..]), last, amount) == (fault.value, data[..])
    ensures fault.None? ==> Fits(plan[i + 1..], data.Length)
    ensures fault.None? ==>
      ExecRead(disk.blocks, disk.blockSize, plan[i..], old(data[..]), last, amount)
      == ExecRead(disk.blocks, disk.blockSize, plan[i + 1..], data[..], plan[i].block, amount + plan[i].len)
  {
    ghost var before := data[..];
    ghost var rest := plan[i..];
    assert rest[0] == plan[i] && rest[1..] == plan[i + 1..];
    FitsTail(rest, data.Length);
    fault := ReadChunk(disk, plan[i], data);
    if fault.Some? {
      ExecReadFault(disk.blocks, disk.blockSize, rest, before, last, amount);
    } else {
      ExecReadStep(disk.blocks, disk.blockSize, rest, before, last, amount);
    }
  }

  /** Runs a read plan against `disk`, one chunk per iteration. */
  method ExecuteRead(disk: Disk, plan: seq<Chunk>, data: array<byte>) returns (r: StreamOutcome)
    requires disk.Valid() && Fits(plan, data.Length)
    modifies data
    ensures (r, data[..]) == ExecRead(disk.blocks, disk.blockSize, plan, old(data[..]), 0, 0)
  {
    var i := 0;
    var last: nat, amount: nat := 0, 0;
    assert plan[0..] == plan;
    while i < |plan|
      invariant 0 <= i <= |plan| && Fits(plan[i..], data.Length)
      invariant ExecRead(disk.blocks, disk.blockSize, plan, old(data[..]), 0, 0)
             == ExecRead(disk.blocks, disk.blockSize, plan[i..], data[..], last, amount)
    {
      var fault := ReadChunkAt(disk, plan, i, data, last, amount);
      if fault.Some? {
        return fault.value;
      }
      last, amount := plan[i].block, amount + plan[i].len;
      i := i + 1;
    }
    return Done(last, amount);
  }

  /** Chunk `i` of a write plan: either the outcome that stops the run, or the
    * run of the remaining chunks over the new blocks. */
  method WriteChunkAt(disk: Disk, plan: seq<Chunk>, i: nat, data: seq<byte>, last: nat, amount: nat)
    returns (fault: Option<StreamOutcome>)
    requires disk.Valid() && i < |plan| && Fits(plan[i..], |data|)
    modifies disk`blocks
    ensures disk.Valid()
    ensures fault.Some? ==> ExecWrite(old(disk.blocks), disk.blockSize, plan[i..], data, last, amount) == (fault.value, disk.blocks)
    ensures fault.None? ==> Fits(plan[i + 1..], |data|)
    ensures fault.None? ==>
      ExecWrite(old(disk.blocks), disk.blockSize, plan[i..], data, last, amount)
      == ExecWrite(disk.blocks, disk.blockSize, plan[i + 1..], data, plan[i].block, amount + plan[i].len)
  {
    ghost var before := disk.blocks;
    ghost var rest := plan[i..];
    assert rest[0] == plan[i] && rest[1..] == plan[i + 1..];
    FitsTail(rest, |data|);
    fault := WriteChunk(disk, plan[i], data);
    if fault.Some? {
      ExecWriteFault(before, disk.blockSize, rest, data, last, amount);
    } else {
      ExecWriteStep(before, disk.blockSize, rest, data, last, amount);
    }
  }

  /** Runs a write plan against `disk`, one chunk per iteration. */
  method ExecuteWrite(disk: Disk, plan: seq<Chunk>, data: seq<byte>) returns (r: StreamOutcome)
    requires disk.Valid() && Fits(plan, |data|)
    modifies disk`blocks
    ensures disk.Valid()
    ensures (r, disk.blocks) == ExecWrite(old(disk.blocks), disk.blockSize, plan, data, 0, 0)
  {
    var i := 0;
    var last: nat, amount: nat := 0, 0;
    assert plan[0..] == plan;
    while i < |plan|
      invariant 0 <= i <= |plan| && disk.Valid() && Fits(plan[i..], |data|)
      invariant ExecWrite(old(disk.blocks), disk.blockSize, plan, data, 0, 0)
             == ExecWrite(disk.blocks, disk.blockSize, plan[i..], data, last, amount)
    {
      var fault := WriteChunkAt(disk, plan, i, data, last, amount);
      if fault.Some? {
        return fault.value;
      }
      last, amount := plan[i].block, amount + plan[i].len;
      i := i + 1;
    }
    return Done(last, amount);
  }

  // ---------------------------------------------------------------------------
  // stream_read / stream_write

  /** `stream_read(device, offset, first..final, data)` as written. */
  method StreamRead(disk: Disk, offset: nat, first: nat, final: nat, data: array<byte>) returns (r: StreamOutcome)
    requires disk.Valid()
    modifies data
    ensures match PlanAsWritten(disk.blockSize, offset, first, final, data.Length)
      case None => r == Panicked && data[..] == old(data[..])
      case Some(plan) => (r, data[..]) == ExecRead(disk.blocks, disk.blockSize, plan, old(data[..]), 0, 0)
  {
    var plan := PlanAsWritten(disk.blockSize, offset, first, final, data.Length);
    if plan.None? {
      return Panicked;
    }
    r := ExecuteRead(disk, plan.value, data);
  }

  /** `stream_write(device, offset, first..final, data)` as written. */
  method StreamWrite(disk: Disk, offset: nat, first: nat, final: nat, data: seq<byte>) returns (r: StreamOutcome)
    requires disk.Valid()
    modifies disk`blocks
    ensures disk.Valid()
    ensures match PlanAsWritten(disk.blockSize, offset, first, final, |data|)
      case None => r == Panicked && disk.blocks == old(disk.blocks)
      case Some(plan) => (r, disk.blocks) == ExecWrite(old(disk.blocks), disk.blockSize, plan, data, 0, 0)
  {
    var plan := PlanAsWritten(disk.blockSize, offset, first, final, |data|);
    if plan.None? {
      return Panicked;
    }
    r := ExecuteWrite(disk, plan.value, data);
  }

  /** Byte `p` of the stream formed by the blocks from `first` on (0 past the end). */
  function StreamAt(blocks: seq<seq<byte>>, blockSize: nat, first: nat, p: nat): byte
    requires blockSize > 0
  {
    var b := first + p / blockSize;
    if b < |blocks| && p % blockSize < |blocks[b]| then blocks[b][p % blockSize] else 0
  }

  /** Length in bytes of the stream formed by the blocks `first..final`. */
  function StreamLength(blockSize: nat, first: nat, final: nat): nat
  {
    if final > first then (final - first) * blockSize else 0
  }

  /** The number of bytes a correct transfer at `offset` moves: the buffer, cut
    * at the end of the stream. */
  function StreamTotal(blockSize: nat, offset: nat, first: nat, final: nat, dataLen: nat): nat
  {
    var streamLen := StreamLength(blockSize, first, final);
    if offset >= streamLen then 0 else Min(dataLen, streamLen - offset)
  }

  /** The corrected `stream_read`: within the device, it fills the buffer with the
    * stream's bytes from `offset` on, as many as the stream holds, and leaves the
    * rest of the buffer alone. */
  method StreamReadFixed(disk: Disk, offset: nat, first: nat, final: nat, data: array<byte>) returns (r: StreamOutcome)
    requires disk.Valid()
    modifies data
    ensures (r, data[..]) == ExecRead(disk.blocks, disk.blockSize,
                                      PlanFixed(disk.blockSize, offset, first, final, data.Length), old(data[..]), 0, 0)
    ensures final <= |disk.blocks| ==>
      && r.Done?
      && r.amount == StreamTotal(disk.blockSize, offset, first, final, data.Length)
      && forall q :: 0 <= q < data.Length ==>
           data[q] == if q < r.amount then StreamAt(disk.blocks, disk.blockSize, first, offset + q) else old(data[q])
  {
    var plan := PlanFixed(disk.blockSize, offset, first, final, data.Length);
    PlanFixedTiles(disk.blockSize, offset, first, final, data.Length);
    var total := StreamTotal(disk.blockSize, offset, first, final, data.Length);
    TilesFit(plan, first, disk.blockSize, offset, 0, total);
    r := ExecuteRead(disk, plan, data);
    if final <= |disk.blocks| {
      ReadTilesDone(disk.blocks, disk.blockSize, plan, first, offset, 0, total, old(data[..]), 0, 0);
      ReadTiles(disk.blocks, disk.blockSize, plan, first, offset, 0, total, old(data[..]), 0, 0);
    }
  }

  /** The corrected `stream_write`: within the device, the stream's bytes from
    * `offset` on become the buffer's, as many as the stream holds, and every
    * other byte of every block is unchanged. */
  method StreamWriteFixed(disk: Disk, offset: nat, first: nat, final: nat, data: seq<byte>) returns (r: StreamOutcome)
    requires disk.Valid()
    modifies disk`blocks
    ensures disk.Valid()
    ensures (r, disk.blocks) == ExecWrite(old(disk.blocks), disk.blockSize,
                                          PlanFixed(disk.blockSize, offset, first, final, |data|), data, 0, 0)
    ensures final <= |old(disk.blocks)| ==>
      && r.Done?
      && r.amount == StreamTotal(disk.blockSize, offset, first, final, |data|)
      && |disk.blocks| == |old(disk.blocks)|
      && forall b, j :: 0 <= b < |disk.blocks| && 0 <= j < disk.blockSize ==>
           disk.blocks[b][j] == if first <= b && offset <= (b - first) * disk.blockSize + j < offset + r.amount
                                then data[(b - first) * disk.blockSize + j - offset]
                                else old(disk.blocks)[b][j]
  {
    var plan := PlanFixed(disk.blockSize, offset, first, final, |data|);
    PlanFixedTiles(disk.blockSize, offset, first, final, |data|);
    var total := StreamTotal(disk.blockSize, offset, first, final, |data|);
    TilesFit(plan, first, disk.blockSize, offset, 0, total);
    r := ExecuteWrite(disk, plan, data);
    if final <= |old(disk.blocks)| {
      WriteTilesDone(old(disk.blocks), disk.blockSize, plan, first, offset, 0, total, data, 0, 0);
      WriteTiles(old(disk.blocks), disk.blockSize, plan, first, offset, 0, total, data, 0, 0);
    }
  }

  // ---------------------------------------------------------------------------
  // Correctness of the corrected plan

  /** `plan` covers the buffer window `[d, total)` in order, each chunk sitting in
    * its block at the stream position `offset + dataOffset`. */
  predicate Tiles(plan: seq<Chunk>, first: nat, blockSize: nat, offset: nat, d: nat, total: nat)
    decreases |plan|
  {
    if plan == [] then d == total
    else
      var c := plan[0];
      && c.dataOffset == d
      && first <= c.block
      && (c.block - first) * blockSize + c.blockOffset == offset + d
      && c.blockOffset + c.len <= blockSize
      && Tiles(plan[1..], first, blockSize, offset, d + c.len, total)
  }

  lemma {:induction false} TilesFit(plan: seq<Chunk>, first: nat, blockSize: nat, offset: nat, d: nat, total: nat)
    requires Tiles(plan, first, blockSize, offset, d, total)
    ensures d <= total
    ensures forall k :: 0 <= k < |plan| ==> d <= plan[k].dataOffset && plan[k].dataOffset + plan[k].len <= total
    decreases |plan|
  {
    if plan != [] {
      TilesFit(plan[1..], first, blockSize, offset, d + plan[0].len, total);
      forall k | 1 <= k < |plan|
        ensures d <= plan[k].dataOffset && plan[k].dataOffset + plan[k].len <= total
      {
        assert plan[k] == plan[1..][k - 1];
      }
    }
  }

  /** Every chunk of a tiling plan is a window inside its block. */
  lemma {:induction false} TilesInBlock(plan: seq<Chunk>, first: nat, blockSize: nat, offset: nat, d: nat, total: nat)
    requires Tiles(plan, first, blockSize, offset, d, total)
    ensures forall k :: 0 <= k < |plan| ==> plan[k].blockOffset + plan[k].len <= blockSize
    decreases |plan|
  {
    if plan != [] {
      TilesInBlock(plan[1..], first, blockSize, offset, d + plan[0].len, total);
      forall k | 1 <= k < |plan|
        ensures plan[k].blockOffset + plan[k].len <= blockSize
      {
        assert plan[k] == plan[1..][k - 1];
      }
    }
  }

  /** A plan whose chunks are windows inside their blocks never panics when
    * read: it runs to the end or stops at a missing block. */
  lemma {:induction false} InBlockReadNeverPanics(blocks: seq<seq<byte>>, blockSize: nat, plan: seq<Chunk>, data: seq<byte>,
                                                  last: nat, amount: nat)
    requires blockSize > 0 && WellSized(blocks, blockSize) && Fits(plan, |data|)
    requires forall k :: 0 <= k < |plan| ==> plan[k].blockOffset + plan[k].len <= blockSize
    ensures var r := ExecRead(blocks, blockSize, plan, data, last, amount).0; r.Done? || r == Failed(NotFound)
    decreases |plan|
  {
    if plan != [] && Transferable(blocks, blockSize, plan[0]) {
      ExecReadStep(blocks, blockSize, plan, data, last, amount);
      var c := plan[0];
      InBlockTail(plan, blockSize);
      InBlockReadNeverPanics(blocks, blockSize, plan[1..], Splice(data, c.dataOffset, ReadPiece(blocks, blockSize, c)),
                             c.block, amount + c.len);
    }
  }

  /** The same for writes. */
  lemma {:induction false} InBlockWriteNeverPanics(blocks: seq<seq<byte>>, blockSize: nat, plan: seq<Chunk>, data: seq<byte>,
                                                   last: nat, amount: nat)
    requires blockSize > 0 && WellSized(blocks, blockSize) && Fits(plan, |data|)
    requires forall k :: 0 <= k < |plan| ==> plan[k].blockOffset + plan[k].len <= blockSize
    ensures var r := ExecWrite(blocks, blockSize, plan, data, last, amount).0; r.Done? || r == Failed(NotFound)
    decreases |plan|
  {
    if plan != [] && Transferable(blocks, blockSize, plan[0]) {
      ExecWriteStep(blocks, blockSize, plan, data, last, amount);
      var c := plan[0];
      InBlockTail(plan, blockSize);
      InBlockWriteNeverPanics(blocks[c.block := WrittenBlock(blocks, blockSize, c, data)], blockSize, plan[1..], data,
                              c.block, amount + c.len);
    }
  }

  lemma InBlockTail(plan: seq<Chunk>, blockSize: nat)
    requires plan != [] && forall k :: 0 <= k < |plan| ==> plan[k].blockOffset + plan[k].len <= blockSize
    ensures forall k :: 0 <= k < |plan[1..]| ==> plan[1..][k].blockOffset + plan[1..][k].len <= blockSize
  {
    forall k | 0 <= k < |plan[1..]|
      ensures plan[1..][k].blockOffset + plan[1..][k].len <= blockSize
    {
      assert plan[1..][k] == plan[k + 1];
    }
  }

  /** The corrected transfers never panic. */
  lemma FixedReadNeverPanics(blocks: seq<seq<byte>>, blockSize: nat, offset: nat, first: nat, final: nat, data: seq<byte>)
    requires blockSize > 0 && WellSized(blocks, blockSize)
    ensures ExecRead(blocks, blockSize, PlanFixed(blockSize, offset, first, final, |data|), data, 0, 0).0.Done?
         || ExecRead(blocks, blockSize, PlanFixed(blockSize, offset, first, final, |data|), data, 0, 0).0 == Failed(NotFound)
  {
    var plan := PlanFixed(blockSize, offset, first, final, |data|);
    var total := StreamTotal(blockSize, offset, first, final, |data|);
    PlanFixedTiles(blockSize, offset, first, final, |data|);
    TilesInBlock(plan, first, blockSize, offset, 0, total);
    InBlockReadNeverPanics(blocks, blockSize, plan, data, 0, 0);
  }

  lemma FixedWriteNeverPanics(blocks: seq<seq<byte>>, blockSize: nat, offset: nat, first: nat, final: nat, data: seq<byte>)
    requires blockSize > 0 && WellSized(blocks, blockSize)
    ensures ExecWrite(blocks, blockSize, PlanFixed(blockSize, offset, first, final, |data|), data, 0, 0).0.Done?
         || ExecWrite(blocks, blockSize, PlanFixed(blockSize, offset, first, final, |data|), data, 0, 0).0 == Failed(NotFound)
  {
    var plan := PlanFixed(blockSize, offset, first, final, |data|);
    var total := StreamTotal(blockSize, offset, first, final, |data|);
    PlanFixedTiles(blockSize, offset, first, final, |data|);
    TilesInBlock(plan, first, blockSize, offset, 0, total);
    InBlockWriteNeverPanics(blocks, blockSize, plan, data, 0, 0);
  }

  /** A position inside a chunk's window is the matching byte of the chunk's block. */
  lemma ChunkPosition(blocks: seq<seq<byte>>, c: Chunk, first: nat, blockSize: nat, offset: nat, j: nat)
    requires blockSize > 0 && WellSized(blocks, blockSize) && c.block < |blocks|
    requires first <= c.block && c.blockOffset + c.len <= blockSize && j < c.len
    requires (c.block - first) * blockSize + c.blockOffset == offset + c.dataOffset
    ensures StreamAt(blocks, blockSize, first, offset + c.dataOffset + j) == blocks[c.block][c.blockOffset + j]
  {
    DivModUnique(c.block - first, c.blockOffset + j, blockSize);
  }

  lemma BlocksInRangeTail(plan: seq<Chunk>, count: nat)
    requires plan != [] && forall k :: 0 <= k < |plan| ==> plan[k].block < count
    ensures forall k :: 0 <= k < |plan[1..]| ==> plan[1..][k].block < count
  {
    forall k | 0 <= k < |plan[1..]|
      ensures plan[1..][k].block < count
    {
      assert plan[1..][k] == plan[k + 1];
    }
  }

  /** Reading one chunk puts the stream's bytes into the chunk's window of the buffer. */
  lemma ReadChunkInto(blocks: seq<seq<byte>>, blockSize: nat, c: Chunk, first: nat, offset: nat, data: seq<byte>)
    requires blockSize > 0 && WellSized(blocks, blockSize) && c.block < |blocks|
    requires first <= c.block && c.blockOffset + c.len <= blockSize && c.dataOffset + c.len <= |data|
    requires (c.block - first) * blockSize + c.blockOffset == offset + c.dataOffset
    ensures forall q :: 0 <= q < |data| ==>
              Splice(data, c.dataOffset, ReadPiece(blocks, blockSize, c))[q]
                == if c.dataOffset <= q < c.dataOffset + c.len then StreamAt(blocks, blockSize, first, offset + q) else data[q]
  {
    var piece := ReadPiece(blocks, blockSize, c);
    forall j | 0 <= j < c.len
      ensures piece[j] == StreamAt(blocks, blockSize, first, offset + c.dataOffset + j)
    {
      ChunkPosition(blocks, c, first, blockSize, offset, j);
    }
  }

  /** A window `[d, m)` read first and a window `[m, total)` read after it make the
    * window `[d, total)`. */
  lemma ReadCombine(blocks: seq<seq<byte>>, blockSize: nat, first: nat, offset: nat,
                    data: seq<byte>, data1: seq<byte>, out: seq<byte>, d: nat, m: nat, total: nat)
    requires blockSize > 0 && d <= m <= total && |data1| == |data| && |out| == |data|
    requires forall q :: 0 <= q < |data| ==>
               data1[q] == if d <= q < m then StreamAt(blocks, blockSize, first, offset + q) else data[q]
    requires forall q :: 0 <= q < |data| ==>
               out[q] == if m <= q < total then StreamAt(blocks, blockSize, first, offset + q) else data1[q]
    ensures forall q :: 0 <= q < |data| ==>
              out[q] == if d <= q < total then StreamAt(blocks, blockSize, first, offset + q) else data[q]
  {
  }

  /** Writing one chunk puts the chunk's window of the buffer into the stream. */
  lemma WriteChunkInto(blocks: seq<seq<byte>>, blockSize: nat, c: Chunk, first: nat, offset: nat, data: seq<byte>)
    requires blockSize > 0 && WellSized(blocks, blockSize) && c.block < |blocks|
    requires first <= c.block && c.blockOffset + c.len <= blockSize && c.dataOffset + c.len <= |data|
    requires (c.block - first) * blockSize + c.blockOffset == offset + c.dataOffset
    ensures forall b, j :: 0 <= b < |blocks| && 0 <= j < blockSize ==>
              blocks[c.block := WrittenBlock(blocks, blockSize, c, data)][b][j]
                == if first <= b && offset + c.dataOffset <= (b - first) * blockSize + j < offset + c.dataOffset + c.len
                   then data[(b - first) * blockSize + j - offset]
                   else blocks[b][j]
  {
    var blocks1 := blocks[c.block := WrittenBlock(blocks, blockSize, c, data)];
    forall b, j | 0 <= b < |blocks| && 0 <= j < blockSize
      ensures blocks1[b][j] == if first <= b && offset + c.dataOffset <= (b - first) * blockSize + j < offset + c.dataOffset + c.len
                               then data[(b - first) * blockSize + j - offset]
                               else blocks[b][j]
    {
      if first <= b {
        WindowPosition(c, first, blockSize, offset, b, j);
      }
    }
  }

  /** A window `[d, m)` written first and a window `[m, total)` written after it
    * make the window `[d, total)`. */
  lemma WriteCombine(blocks: seq<seq<byte>>, blockSize: nat, first: nat, offset: nat, data: seq<byte>,
                     blocks1: seq<seq<byte>>, out: seq<seq<byte>>, d: nat, m: nat, total: nat)
    requires d <= m <= total <= |data| && |blocks1| == |blocks| && |out| == |blocks|
    requires WellSized(blocks, blockSize) && WellSized(blocks1, blockSize) && WellSized(out, blockSize)
    requires forall b, j :: 0 <= b < |blocks| && 0 <= j < blockSize ==>
               blocks1[b][j] == if first <= b && offset + d <= (b - first) * blockSize + j < offset + m
                                then data[(b - first) * blockSize + j - offset] else blocks[b][j]
    requires forall b, j :: 0 <= b < |blocks| && 0 <= j < blockSize ==>
               out[b][j] == if first <= b && offset + m <= (b - first) * blockSize + j < offset + total
                            then data[(b - first) * blockSize + j - offset] else blocks1[b][j]
    ensures forall b, j :: 0 <= b < |blocks| && 0 <= j < blockSize ==>
              out[b][j] == if first <= b && offset + d <= (b - first) * blockSize + j < offset + total
                           then data[(b - first) * blockSize + j - offset] else blocks[b][j]
  {
  }

  /** Executing a tiling read plan finishes without a fault, after the whole window,
    * at the block of its last chunk. */
  lemma {:induction false} ReadTilesDone(blocks: seq<seq<byte>>, blockSize: nat, plan: seq<Chunk>, first: nat, offset: nat,
                                         d: nat, total: nat, data: seq<byte>, last: nat, amount: nat)
    requires blockSize > 0 && WellSized(blocks, blockSize)
    requires Tiles(plan, first, blockSize, offset, d, total) && total <= |data|
    requires forall k :: 0 <= k < |plan| ==> plan[k].block < |blocks|
    ensures Fits(plan, |data|)
    ensures ExecRead(blocks, blockSize, plan, data, last, amount).0.Done?
    ensures ExecRead(blocks, blockSize, plan, data, last, amount).0.amount == amount + (total - d)
    ensures ExecRead(blocks, blockSize, plan, data, last, amount).0.last == if plan == [] then last else plan[|plan| - 1].block
    decreases |plan|
  {
    TilesFit(plan, first, blockSize, offset, d, total);
    if plan != [] {
      var c := plan[0];
      var data1 := Splice(data, c.dataOffset, ReadPiece(blocks, blockSize, c));
      var out := ExecRead(blocks, blockSize, plan[1..], data1, c.block, amount + c.len).0;
      assert ExecRead(blocks, blockSize, plan, data, last, amount).0 == out by {
        assert Transferable(blocks, blockSize, c);
        ExecReadStep(blocks, blockSize, plan, data, last, amount);
      }
      BlocksInRangeTail(plan, |blocks|);
      ReadTilesDone(blocks, blockSize, plan[1..], first, offset, d + c.len, total, data1, c.block, amount + c.len);
      if plan[1..] != [] {
        assert plan[1..][|plan[1..]| - 1] == plan[|plan| - 1];
      }
    }
  }

  /** Executing a tiling read plan copies the stream's bytes into the window. */
  lemma {:induction false} ReadTiles(blocks: seq<seq<byte>>, blockSize: nat, plan: seq<Chunk>, first: nat, offset: nat,
                                     d: nat, total: nat, data: seq<byte>, last: nat, amount: nat)
    requires blockSize > 0 && WellSized(blocks, blockSize)
    requires Tiles(plan, first, blockSize, offset, d, total) && total <= |data|
    requires forall k :: 0 <= k < |plan| ==> plan[k].block < |blocks|
    ensures Fits(plan, |data|)
    ensures forall q :: 0 <= q < |data| ==>
              ExecRead(blocks, blockSize, plan, data, last, amount).1[q]
                == if d <= q < total then StreamAt(blocks, blockSize, first, offset + q) else data[q]
    decreases |plan|
  {
    TilesFit(plan, first, blockSize, offset, d, total);
    if plan != [] {
      var c := plan[0];
      var data1 := Splice(data, c.dataOffset, ReadPiece(blocks, blockSize, c));
      var out := ExecRead(blocks, blockSize, plan[1..], data1, c.block, amount + c.len).1;
      assert ExecRead(blocks, blockSize, plan, data, last, amount).1 == out by {
        assert Transferable(blocks, blockSize, c);
        ExecReadStep(blocks, blockSize, plan, data, last, amount);
      }
      BlocksInRangeTail(plan, |blocks|);
      ReadTiles(blocks, blockSize, plan[1..], first, offset, d + c.len, total, data1, c.block, amount + c.len);
      ReadChunkInto(blocks, blockSize, c, first, offset, data);
      ReadCombine(blocks, blockSize, first, offset, data, data1, out, d, d + c.len, total);
    }
  }

  /** The stream position of byte `j` of block `b` lies in a chunk's window exactly
    * when the byte is in the chunk's block, inside the window. */
  lemma WindowPosition(c: Chunk, first: nat, blockSize: nat, offset: nat, b: nat, j: nat)
    requires blockSize > 0 && first <= c.block && c.blockOffset + c.len <= blockSize
    requires (c.block - first) * blockSize + c.blockOffset == offset + c.dataOffset
    requires first <= b && j < blockSize
    ensures offset + c.dataOffset <= (b - first) * blockSize + j < offset + c.dataOffset + c.len
        <==> b == c.block && c.blockOffset <= j < c.blockOffset + c.len
  {
    var p := (b - first) * blockSize + j;
    DivModUnique(b - first, j, blockSize);
    if offset + c.dataOffset <= p < offset + c.dataOffset + c.len {
      DivModUnique(c.block - first, c.blockOffset + (p - offset - c.dataOffset), blockSize);
    }
  }

  /** Executing a tiling write plan finishes without a fault, after the whole window. */
  lemma {:induction false} WriteTilesDone(blocks: seq<seq<byte>>, blockSize: nat, plan: seq<Chunk>, first: nat, offset: nat,
                                          d: nat, total: nat, data: seq<byte>, last: nat, amount: nat)
    requires blockSize > 0 && WellSized(blocks, blockSize)
    requires Tiles(plan, first, blockSize, offset, d, total) && total <= |data|
    requires forall k :: 0 <= k < |plan| ==> plan[k].block < |blocks|
    ensures Fits(plan, |data|)
    ensures ExecWrite(blocks, blockSize, plan, data, last, amount).0.Done?
    ensures ExecWrite(blocks, blockSize, plan, data, last, amount).0.amount == amount + (total - d)
    decreases |plan|
  {
    TilesFit(plan, first, blockSize, offset, d, total);
    if plan != [] {
      var c := plan[0];
      assert Transferable(blocks, blockSize, c);
      ExecWriteStep(blocks, blockSize, plan, data, last, amount);
      var blocks1 := blocks[c.block := WrittenBlock(blocks, blockSize, c, data)];
      BlocksInRangeTail(plan, |blocks|);
      WriteTilesDone(blocks1, blockSize, plan[1..], first, offset, d + c.len, total, data, c.block, amount + c.len);
    }
  }

  /** Executing a tiling write plan puts the window into the stream, byte for
    * byte, and changes nothing else. */
  lemma {:induction false} WriteTiles(blocks: seq<seq<byte>>, blockSize: nat, plan: seq<Chunk>, first: nat, offset: nat,
                                      d: nat, total: nat, data: seq<byte>, last: nat, amount: nat)
    requires blockSize > 0 && WellSized(blocks, blockSize)
    requires Tiles(plan, first, blockSize, offset, d, total) && total <= |data|
    requires forall k :: 0 <= k < |plan| ==> plan[k].block < |blocks|
    ensures Fits(plan, |data|)
    ensures forall b, j :: 0 <= b < |blocks| && 0 <= j < blockSize ==>
              ExecWrite(blocks, blockSize, plan, data, last, amount).1[b][j]
                == if first <= b && offset + d <= (b - first) * blockSize + j < offset + total
                   then data[(b - first) * blockSize + j - offset]
                   else blocks[b][j]
    decreases |plan|
  {
    TilesFit(plan, first, blockSize, offset, d, total);
    if plan != [] {
      var c := plan[0];
      var blocks1 := blocks[c.block := WrittenBlock(blocks, blockSize, c, data)];
      var out := ExecWrite(blocks1, blockSize, plan[1..], data, c.block, amount + c.len).1;
      assert ExecWrite(blocks, blockSize, plan, data, last, amount).1 == out by {
        assert Transferable(blocks, blockSize, c);
        ExecWriteStep(blocks, blockSize, plan, data, last, amount);
      }
      BlocksInRangeTail(plan, |blocks|);
      WriteTiles(blocks1, blockSize, plan[1..], first, offset, d + c.len, total, data, c.block, amount + c.len);
      WriteTileStep(blocks, blockSize, c, first, offset, data, out, d, total);
    }
  }

  /** One chunk written in front of the rest of a tiling plan's window makes the
    * whole window. */
  lemma WriteTileStep(blocks: seq<seq<byte>>, blockSize: nat, c: Chunk, first: nat, offset: nat, data: seq<byte>,
                      out: seq<seq<byte>>, d: nat, total: nat)
    requires blockSize > 0 && WellSized(blocks, blockSize) && c.block < |blocks|
    requires first <= c.block && c.blockOffset + c.len <= blockSize && c.dataOffset == d && d + c.len <= total <= |data|
    requires (c.block - first) * blockSize + c.blockOffset == offset + d
    requires |out| == |blocks| && WellSized(out, blockSize)
    requires forall b, j :: 0 <= b < |blocks| && 0 <= j < blockSize ==>
               out[b][j] == if first <= b && offset + (d + c.len) <= (b - first) * blockSize + j < offset + total
                            then data[(b - first) * blockSize + j - offset]
                            else blocks[c.block := WrittenBlock(blocks, blockSize, c, data)][b][j]
    ensures forall b, j :: 0 <= b < |blocks| && 0 <= j < blockSize ==>
              out[b][j] == if first <= b && offset + d <= (b - first) * blockSize + j < offset + total
                           then data[(b - first) * blockSize + j - offset] else blocks[b][j]
  {
    var blocks1 := blocks[c.block := WrittenBlock(blocks, blockSize, c, data)];
    WriteChunkInto(blocks, blockSize, c, first, offset, data);
    WriteCombine(blocks, blockSize, first, offset, data, blocks1, out, d, d + c.len, total);
  }

  /** The chunks of `MainChunks` tile the buffer from `d`, as far as the blocks reach. */
  lemma {:induction false} MainChunksTiles(blockSize: nat, block: nat, final: nat, d: nat, dataLen: nat, first: nat, offset: nat)
    requires blockSize > 0 && first <= block && d <= dataLen
    requires (block - first) * blockSize == offset + d
    ensures Tiles(MainChunks(blockSize, block, final, d, dataLen), first, blockSize, offset, d,
                  d + Min(dataLen - d, StreamLength(blockSize, block, final)))
    ensures forall k :: 0 <= k < |MainChunks(blockSize, block, final, d, dataLen)| ==>
              block <= MainChunks(blockSize, block, final, d, dataLen)[k].block < final
    decreases dataLen - d
  {
    var plan := MainChunks(blockSize, block, final, d, dataLen);
    if d >= dataLen || block >= final {
    } else {
      var len := Min(blockSize, dataLen - d);
      var rest := MainChunks(blockSize, block + 1, final, d + len, dataLen);
      assert plan[1..] == rest;
      assert StreamLength(blockSize, block, final) == blockSize + StreamLength(blockSize, block + 1, final);
      if len == blockSize {
        MainChunksTiles(blockSize, block + 1, final, d + len, dataLen, first, offset);
      } else {
        assert rest == [];
      }
      forall k | 1 <= k < |plan|
        ensures block <= plan[k].block < final
      {
        assert plan[k] == rest[k - 1];
      }
    }
  }

  /** The stream from `first` splits at block `first + skip`. */
  lemma StreamLengthSplit(blockSize: nat, first: nat, skip: nat, final: nat)
    ensures first + skip < final ==>
      StreamLength(blockSize, first, final) == skip * blockSize + StreamLength(blockSize, first + skip, final)
    ensures first + skip >= final ==> StreamLength(blockSize, first, final) <= skip * blockSize
  {
    if first + skip < final {
      assert (final - first) * blockSize == skip * blockSize + (final - first - skip) * blockSize;
    } else if final > first {
      assert skip * blockSize == (final - first) * blockSize + (first + skip - final) * blockSize;
    }
  }

  /** The aligned case of `PlanFixedTiles`. */
  lemma PlanFixedAlignedTiles(blockSize: nat, offset: nat, first: nat, final: nat, dataLen: nat)
    requires blockSize > 0 && offset % blockSize == 0 && first + offset / blockSize < final
    ensures Tiles(PlanFixed(blockSize, offset, first, final, dataLen), first, blockSize, offset, 0,
                  StreamTotal(blockSize, offset, first, final, dataLen))
    ensures forall k :: 0 <= k < |PlanFixed(blockSize, offset, first, final, dataLen)| ==>
              PlanFixed(blockSize, offset, first, final, dataLen)[k].block < final
  {
    var skip := offset / blockSize;
    assert offset == skip * blockSize;
    StreamLengthSplit(blockSize, first, skip, final);
    MainChunksTiles(blockSize, first + skip, final, 0, dataLen, first, offset);
  }

  /** The unaligned case of `PlanFixedTiles`: a prefix from the middle of the
    * first block, then whole blocks. */
  lemma PlanFixedUnalignedTiles(blockSize: nat, offset: nat, first: nat, final: nat, dataLen: nat)
    requires blockSize > 0 && offset % blockSize != 0 && first + offset / blockSize < final
    ensures Tiles(PlanFixed(blockSize, offset, first, final, dataLen), first, blockSize, offset, 0,
                  StreamTotal(blockSize, offset, first, final, dataLen))
    ensures forall k :: 0 <= k < |PlanFixed(blockSize, offset, first, final, dataLen)| ==>
              PlanFixed(blockSize, offset, first, final, dataLen)[k].block < final
  {
    var prefixLen := Min(blockSize - offset % blockSize, dataLen);
    PlanFixedUnaligned(blockSize, offset, first, final, dataLen);
    UnalignedTotal(blockSize, offset, first, final, dataLen);
    UnalignedRestTiles(blockSize, offset, first, final, dataLen);
    TilesCons(PlanFixed(blockSize, offset, first, final, dataLen),
              Chunk(first + offset / blockSize, offset % blockSize, 0, prefixLen),
              MainChunks(blockSize, first + offset / blockSize + 1, final, prefixLen, dataLen),
              first, blockSize, offset, final,
              prefixLen + Min(dataLen - prefixLen, StreamLength(blockSize, first + offset / blockSize + 1, final)),
              StreamTotal(blockSize, offset, first, final, dataLen));
  }

  /** The whole blocks after an unaligned prefix tile the rest of a correct
    * transfer, and the prefix chunk sits at the offset. */
  lemma UnalignedRestTiles(blockSize: nat, offset: nat, first: nat, final: nat, dataLen: nat)
    requires blockSize > 0 && offset % blockSize != 0 && first + offset / blockSize < final
    ensures (first + offset / blockSize - first) * blockSize + offset % blockSize == offset
    ensures var prefixLen := Min(blockSize - offset % blockSize, dataLen);
      var rest := MainChunks(blockSize, first + offset / blockSize + 1, final, prefixLen, dataLen);
      && Tiles(rest, first, blockSize, offset, prefixLen,
               prefixLen + Min(dataLen - prefixLen, StreamLength(blockSize, first + offset / blockSize + 1, final)))
      && forall k :: 0 <= k < |rest| ==> rest[k].block < final
  {
    var skip := offset / blockSize;
    var within := offset % blockSize;
    var prefixLen := Min(blockSize - within, dataLen);
    var rest := MainChunks(blockSize, first + skip + 1, final, prefixLen, dataLen);
    assert offset == skip * blockSize + within;
    if prefixLen == blockSize - within {
      assert (first + skip + 1 - first) * blockSize == skip * blockSize + blockSize;
      MainChunksTiles(blockSize, first + skip + 1, final, prefixLen, dataLen, first, offset);
    } else {
      assert rest == [];
    }
  }

  /** With an unaligned offset the corrected plan is the prefix chunk, then whole blocks. */
  lemma PlanFixedUnaligned(blockSize: nat, offset: nat, first: nat, final: nat, dataLen: nat)
    requires blockSize > 0 && offset % blockSize != 0 && first + offset / blockSize < final
    ensures var prefixLen := Min(blockSize - offset % blockSize, dataLen);
      PlanFixed(blockSize, offset, first, final, dataLen)
        == [Chunk(first + offset / blockSize, offset % blockSize, 0, prefixLen)]
           + MainChunks(blockSize, first + offset / blockSize + 1, final, prefixLen, dataLen)
  {
  }

  /** With an unaligned offset the corrected transfer moves the prefix, then as
    * much of the rest of the buffer as the blocks after the first hold. */
  lemma UnalignedTotal(blockSize: nat, offset: nat, first: nat, final: nat, dataLen: nat)
    requires blockSize > 0 && offset % blockSize != 0 && first + offset / blockSize < final
    ensures var prefixLen := Min(blockSize - offset % blockSize, dataLen);
      StreamTotal(blockSize, offset, first, final, dataLen)
        == prefixLen + Min(dataLen - prefixLen, StreamLength(blockSize, first + offset / blockSize + 1, final))
  {
    var skip := offset / blockSize;
    assert offset == skip * blockSize + offset % blockSize;
    StreamLengthSplit(blockSize, first, skip, final);
    assert StreamLength(blockSize, first + skip, final) == blockSize + StreamLength(blockSize, first + skip + 1, final);
  }

  /** A chunk at the start of the buffer, followed by a tiling from where it
    * ends, tiles the buffer; the blocks stay below `final`. */
  lemma TilesCons(plan: seq<Chunk>, c: Chunk, rest: seq<Chunk>, first: nat, blockSize: nat, offset: nat, final: nat,
                  restTotal: nat, total: nat)
    requires plan == [c] + rest && restTotal == total
    requires c.dataOffset == 0 && first <= c.block < final && (c.block - first) * blockSize + c.blockOffset == offset
    requires c.blockOffset + c.len <= blockSize && Tiles(rest, first, blockSize, offset, c.len, restTotal)
    requires forall k :: 0 <= k < |rest| ==> rest[k].block < final
    ensures Tiles(plan, first, blockSize, offset, 0, total)
    ensures forall k :: 0 <= k < |plan| ==> plan[k].block < final
  {
    assert plan[1..] == rest;
    forall k | 1 <= k < |plan|
      ensures plan[k].block < final
    {
      assert plan[k] == rest[k - 1];
    }
  }

  /** The corrected plan tiles exactly the bytes a correct transfer moves, within the blocks `first..final`. */
  lemma PlanFixedTiles(blockSize: nat, offset: nat, first: nat, final: nat, dataLen: nat)
    requires blockSize > 0
    ensures Tiles(PlanFixed(blockSize, offset, first, final, dataLen), first, blockSize, offset, 0,
                  StreamTotal(blockSize, offset, first, final, dataLen))
    ensures StreamTotal(blockSize, offset, first, final, dataLen) <= dataLen
    ensures forall k :: 0 <= k < |PlanFixed(blockSize, offset, first, final, dataLen)| ==>
              PlanFixed(blockSize, offset, first, final, dataLen)[k].block < final
  {
    var skip := offset / blockSize;
    if first + skip >= final {
      assert offset >= skip * blockSize;
      StreamLengthSplit(blockSize, first, skip, final);
    } else if offset % blockSize == 0 {
      PlanFixedAlignedTiles(blockSize, offset, first, final, dataLen);
    } else {
      PlanFixedUnalignedTiles(blockSize, offset, first, final, dataLen);
    }
  }

  // ---------------------------------------------------------------------------
  // Counterexamples to the plan as written

  /** At a block-aligned offset the plan as written pairs an empty prefix with
    * the first block and the buffer with the blocks after it. */
  lemma AsWrittenAlignedPlan(blockSize: nat, offset: nat, first: nat, final: nat, dataLen: nat)
    requires blockSize > 0 && offset % blockSize == 0 && first + offset / blockSize < final
    ensures PlanAsWritten(blockSize, offset, first, final, dataLen)
         == Some([Chunk(first + offset / blockSize, blockSize, 0, 0)]
                 + MainChunks(blockSize, first + offset / blockSize + 1, final, 0, dataLen))
    ensures (first + offset / blockSize + 1 - first) * blockSize == offset + blockSize
  {
    MulSucc(offset / blockSize, blockSize);
  }

  lemma MulSucc(k: nat, s: nat)
    ensures (k + 1) * s == k * s + s
  {
  }

  /** A chunk that moves no bytes changes nothing but the last block. */
  lemma EmptyChunkStep(blocks: seq<seq<byte>>, blockSize: nat, b: nat, rest: seq<Chunk>, data: seq<byte>)
    requires blockSize > 0 && WellSized(blocks, blockSize) && b < |blocks| && Fits(rest, |data|)
    ensures Fits([Chunk(b, blockSize, 0, 0)] + rest, |data|)
    ensures ExecRead(blocks, blockSize, [Chunk(b, blockSize, 0, 0)] + rest, data, 0, 0) == ExecRead(blocks, blockSize, rest, data, b, 0)
    ensures ExecWrite(blocks, blockSize, [Chunk(b, blockSize, 0, 0)] + rest, data, 0, 0) == ExecWrite(blocks, blockSize, rest, data, b, 0)
  {
    var plan := [Chunk(b, blockSize, 0, 0)] + rest;
    ConsFits(plan[0], rest, |data|);
    assert plan[1..] == rest;
    ExecReadStep(blocks, blockSize, plan, data, 0, 0);
    assert Splice(data, 0, ReadPiece(blocks, blockSize, plan[0])) == data;
    ExecWriteStep(blocks, blockSize, plan, data, 0, 0);
    assert WrittenBlock(blocks, blockSize, plan[0], data) == blocks[b];
    assert blocks[b := blocks[b]] == blocks;
  }

  /** Whole-block chunks from block `block`, whose first byte is byte `start` of
    * the stream from `first`, read the stream from `start` into the buffer. */
  lemma MainChunksRead(blocks: seq<seq<byte>>, blockSize: nat, block: nat, final: nat, first: nat, start: nat,
                       data: seq<byte>, last: nat)
    requires blockSize > 0 && WellSized(blocks, blockSize) && final <= |blocks|
    requires first <= block && (block - first) * blockSize == start
    ensures var (r, out) := ExecRead(blocks, blockSize, MainChunks(blockSize, block, final, 0, |data|), data, last, 0);
      var total := Min(|data|, StreamLength(blockSize, block, final));
      && r.Done? && r.amount == total
      && forall q :: 0 <= q < |data| ==>
           out[q] == if q < total then StreamAt(blocks, blockSize, first, start + q) else data[q]
  {
    MainChunksTiles(blockSize, block, final, 0, |data|, first, start);
    ReadTilesDone(blocks, blockSize, MainChunks(blockSize, block, final, 0, |data|), first, start, 0,
                  Min(|data|, StreamLength(blockSize, block, final)), data, last, 0);
    ReadTiles(blocks, blockSize, MainChunks(blockSize, block, final, 0, |data|), first, start, 0,
              Min(|data|, StreamLength(blockSize, block, final)), data, last, 0);
  }

  /** The write counterpart of `MainChunksRead`. */
  lemma MainChunksWrite(blocks: seq<seq<byte>>, blockSize: nat, block: nat, final: nat, first: nat, start: nat,
                        data: seq<byte>, last: nat)
    requires blockSize > 0 && WellSized(blocks, blockSize) && final <= |blocks|
    requires first <= block && (block - first) * blockSize == start
    ensures var (r, out) := ExecWrite(blocks, blockSize, MainChunks(blockSize, block, final, 0, |data|), data, last, 0);
      var total := Min(|data|, StreamLength(blockSize, block, final));
      && r.Done? && r.amount == total
      && forall b, j :: 0 <= b < |blocks| && 0 <= j < blockSize ==>
           out[b][j] == if first <= b && start <= (b - first) * blockSize + j < start + total
                        then data[(b - first) * blockSize + j - start]
                        else blocks[b][j]
  {
    MainChunksTiles(blockSize, block, final, 0, |data|, first, start);
    WriteTilesDone(blocks, blockSize, MainChunks(blockSize, block, final, 0, |data|), first, start, 0,
                   Min(|data|, StreamLength(blockSize, block, final)), data, last, 0);
    WriteTiles(blocks, blockSize, MainChunks(blockSize, block, final, 0, |data|), first, start, 0,
               Min(|data|, StreamLength(blockSize, block, final)), data, last, 0);
  }

  /** At a block-aligned offset, `stream_read` as written reads the stream one
    * block further on than asked.  `AsWrittenAlignedPlan` gives the plan for the
    * offset `(block - first) * block_size`: an empty chunk at `block`, then whole
    * blocks from `block + 1`; executed, it fills the buffer with the stream from
    * `start = (block + 1 - first) * block_size`, i.e. one block past the offset.
    * Two bytes at offset 0 of the blocks `[1, 2], [3, 4]` come back as `3, 4`. */
  lemma AsWrittenAlignedReadIsShifted(blocks: seq<seq<byte>>, blockSize: nat, first: nat, block: nat, final: nat,
                                      start: nat, data: seq<byte>)
    requires blockSize > 0 && WellSized(blocks, blockSize) && final <= |blocks|
    requires first <= block < final && (block + 1 - first) * blockSize == start
    ensures Fits([Chunk(block, blockSize, 0, 0)] + MainChunks(blockSize, block + 1, final, 0, |data|), |data|)
    ensures var (r, out) := ExecRead(blocks, blockSize, [Chunk(block, blockSize, 0, 0)] + MainChunks(blockSize, block + 1, final, 0, |data|), data, 0, 0);
      var total := Min(|data|, StreamLength(blockSize, block + 1, final));
      && r.Done? && r.amount == total
      && forall q :: 0 <= q < |data| ==>
           out[q] == if q < total then StreamAt(blocks, blockSize, first, start + q) else data[q]
  {
    EmptyChunkStep(blocks, blockSize, block, MainChunks(blockSize, block + 1, final, 0, |data|), data);
    MainChunksRead(blocks, blockSize, block + 1, final, first, start, data, block);
  }

  /** The write side: at a block-aligned offset, `stream_write` as written puts
    * the buffer into the stream one block past the offset, and leaves the block
    * holding the offset alone. */
  lemma AsWrittenAlignedWriteIsShifted(blocks: seq<seq<byte>>, blockSize: nat, first: nat, block: nat, final: nat,
                                       start: nat, data: seq<byte>)
    requires blockSize > 0 && WellSized(blocks, blockSize) && final <= |blocks|
    requires first <= block < final && (block + 1 - first) * blockSize == start
    ensures Fits([Chunk(block, blockSize, 0, 0)] + MainChunks(blockSize, block + 1, final, 0, |data|), |data|)
    ensures var (r, out) := ExecWrite(blocks, blockSize, [Chunk(block, blockSize, 0, 0)] + MainChunks(blockSize, block + 1, final, 0, |data|), data, 0, 0);
      var total := Min(|data|, StreamLength(blockSize, block + 1, final));
      && r.Done? && r.amount == total
      && forall b, j :: 0 <= b < |blocks| && 0 <= j < blockSize ==>
           out[b][j] == if first <= b && start <= (b - first) * blockSize + j < start + total
                        then data[(b - first) * blockSize + j - start]
                        else blocks[b][j]
  {
    EmptyChunkStep(blocks, blockSize, block, MainChunks(blockSize, block + 1, final, 0, |data|), data);
    MainChunksWrite(blocks, blockSize, block + 1, final, first, start, data, block);
  }

  lemma AlignedPrefixEmpty(blockSize: nat, offset: nat)
    requires blockSize > 0 && offset % blockSize == 0
    ensures OffsetData(offset, blockSize).1 == blockSize
  {
  }

  /** At a block-aligned offset past the last block the plan as written is empty. */
  lemma AsWrittenAlignedPastEnd(blockSize: nat, offset: nat, first: nat, final: nat, dataLen: nat)
    requires blockSize > 0 && offset % blockSize == 0 && first + offset / blockSize >= final
    ensures PlanAsWritten(blockSize, offset, first, final, dataLen) == Some([])
  {
    AlignedPrefixEmpty(blockSize, offset);
    assert blockSize % blockSize == 0;
  }

  /** The chunks of the aligned plan as written are windows inside their blocks. */
  lemma AlignedPlanInBlock(blockSize: nat, block: nat, final: nat, dataLen: nat)
    requires blockSize > 0
    ensures var plan := [Chunk(block, blockSize, 0, 0)] + MainChunks(blockSize, block + 1, final, 0, dataLen);
            && Fits(plan, dataLen)
            && forall k :: 0 <= k < |plan| ==> plan[k].blockOffset + plan[k].len <= blockSize
  {
    var rest := MainChunks(blockSize, block + 1, final, 0, dataLen);
    var plan := [Chunk(block, blockSize, 0, 0)] + rest;
    ConsFits(plan[0], rest, dataLen);
    MainChunksTiles(blockSize, block + 1, final, 0, dataLen, block + 1, 0);
    TilesInBlock(rest, block + 1, blockSize, 0, 0, Min(dataLen, StreamLength(blockSize, block + 1, final)));
    forall k | 0 <= k < |plan|
      ensures plan[k].blockOffset + plan[k].len <= blockSize
    {
      if k > 0 {
        assert plan[k] == rest[k - 1];
      }
    }
  }

  /** At an unaligned offset the plan as written splits the buffer at
    * `block_size - offset % block_size` (a panic when the buffer is shorter) and
    * reads the prefix from that position of the block, where the corrected plan
    * reads it from `offset % block_size`. */
  lemma AsWrittenUnalignedPlan(blockSize: nat, offset: nat, first: nat, final: nat, dataLen: nat)
    requires blockSize > 0 && offset % blockSize != 0 && first + offset / blockSize < final
    ensures var shadow := blockSize - offset % blockSize;
      && (PlanAsWritten(blockSize, offset, first, final, dataLen).None? <==> shadow > dataLen)
      && (shadow <= dataLen ==>
            && PlanAsWritten(blockSize, offset, first, final, dataLen).value != []
            && PlanAsWritten(blockSize, offset, first, final, dataLen).value[0]
                 == Chunk(first + offset / blockSize, shadow, 0, shadow))
      && PlanFixed(blockSize, offset, first, final, dataLen) != []
      && PlanFixed(blockSize, offset, first, final, dataLen)[0]
           == Chunk(first + offset / blockSize, offset % blockSize, 0, Min(shadow, dataLen))
  {
    var within := offset % blockSize;
    var shadow := blockSize - within;
    assert 0 < shadow < blockSize;
    DivModUnique(0, shadow, blockSize);
    assert OffsetData(offset, blockSize).1 % blockSize == shadow;
  }

  /** When the offset lies in the first half of its block, the prefix window as
    * written runs past the block end and the read panics (or the buffer was too
    * short to split): a 3-byte read at offset 1 of 4-byte blocks panics. */
  lemma AsWrittenUnalignedReadPanics(blocks: seq<seq<byte>>, blockSize: nat, offset: nat, first: nat, final: nat, data: seq<byte>)
    requires blockSize > 0 && WellSized(blocks, blockSize) && final <= |blocks|
    requires offset % blockSize != 0 && 2 * (offset % blockSize) < blockSize && first + offset / blockSize < final
    ensures match PlanAsWritten(blockSize, offset, first, final, |data|)
      case None => true
      case Some(plan) => ExecRead(blocks, blockSize, plan, data, 0, 0).0 == Panicked
  {
    AsWrittenUnalignedPlan(blockSize, offset, first, final, |data|);
  }

  /** At an unaligned offset into the blocks, both transfers as written panic
    * and change nothing when the buffer is shorter than the prefix they split
    * off, or when the offset lies in the first half of its block. */
  lemma AsWrittenUnalignedHalts(blocks: seq<seq<byte>>, blockSize: nat, offset: nat, first: nat, final: nat, data: seq<byte>)
    requires blockSize > 0 && WellSized(blocks, blockSize) && final <= |blocks|
    requires offset % blockSize != 0 && first + offset / blockSize < final
    requires |data| < blockSize - offset % blockSize || 2 * (offset % blockSize) < blockSize
    ensures match PlanAsWritten(blockSize, offset, first, final, |data|)
      case None => true
      case Some(plan) =>
        && ExecRead(blocks, blockSize, plan, data, 0, 0) == (Panicked, data)
        && ExecWrite(blocks, blockSize, plan, data, 0, 0) == (Panicked, blocks)
  {
    AsWrittenUnalignedPlan(blockSize, offset, first, final, |data|);
    var plan := PlanAsWritten(blockSize, offset, first, final, |data|);
    if plan.Some? {
      assert ChunkFault(blocks, blockSize, plan.value[0]) == Some(Panicked);
      ExecReadFault(blocks, blockSize, plan.value, data, 0, 0);
      ExecWriteFault(blocks, blockSize, plan.value, data, 0, 0);
    }
  }

  /** When the offset lies in the second half of its block (`within`, with
    * `shadow = block_size - within <= within`), the prefix as written — the chunk
    * `AsWrittenUnalignedPlan` names — is read from the mirrored position
    * `shadow`, where the corrected prefix is read from `within`: one byte at
    * offset 3 of the block `[1, 2, 3, 4]` reads `2`, not `4`. */
  lemma AsWrittenUnalignedReadMirrors(blocks: seq<seq<byte>>, blockSize: nat, b: nat, within: nat, shadow: nat, data: seq<byte>)
    requires blockSize > 0 && WellSized(blocks, blockSize) && b < |blocks|
    requires 0 < within && 0 < shadow && within + shadow == blockSize && shadow <= within && shadow <= |data|
    ensures Fits([Chunk(b, shadow, 0, shadow)], |data|) && Fits([Chunk(b, within, 0, shadow)], |data|)
    ensures ExecRead(blocks, blockSize, [Chunk(b, shadow, 0, shadow)], data, 0, 0)
         == (Done(b, shadow), blocks[b][shadow..shadow + shadow] + data[shadow..])
    ensures ExecRead(blocks, blockSize, [Chunk(b, within, 0, shadow)], data, 0, 0)
         == (Done(b, shadow), blocks[b][within..] + data[shadow..])
  {
    SingleChunkRead(blocks, blockSize, Chunk(b, shadow, 0, shadow), data);
    SingleChunkRead(blocks, blockSize, Chunk(b, within, 0, shadow), data);
    assert blocks[b][within..within + shadow] == blocks[b][within..];
  }

  /** A lone partial chunk at the start of the buffer copies its window there. */
  lemma SingleChunkRead(blocks: seq<seq<byte>>, blockSize: nat, c: Chunk, data: seq<byte>)
    requires blockSize > 0 && WellSized(blocks, blockSize) && c.block < |blocks|
    requires c.dataOffset == 0 && c.len < blockSize && c.blockOffset + c.len <= blockSize && c.len <= |data|
    ensures Fits([c], |data|)
    ensures ExecRead(blocks, blockSize, [c], data, 0, 0)
         == (Done(c.block, c.len), blocks[c.block][c.blockOffset..c.blockOffset + c.len] + data[c.len..])
  {
    ExecReadStep(blocks, blockSize, [c], data, 0, 0);
    assert [c][1..] == [];
  }

  // ---------------------------------------------------------------------------
  // Byte devices

  /** `read` on a byte device: `try_read_byte` fills the buffer byte by byte
    * from position `|got|` on, with `room` places left; `WouldBlock` ends the
    * read successfully with the count so far, any other error ends it with
    * that error (the bytes read before it stay in the buffer).  An exhausted
    * script answers `WouldBlock`.  Gives the result, the bytes read, and the
    * replies not consumed. */
  function ReadBytes(rs: seq<Result<byte, ErrorKind>>, room: nat, got: seq<byte>)
    : (s: (Result<nat, ErrorKind>, seq<byte>, seq<Result<byte, ErrorKind>>))
    ensures |got| <= |s.1| <= |got| + room && s.1[..|got|] == got
    ensures s.0.Ok? ==> s.0.value == |s.1|
    decreases room
  {
    if room == 0 || rs == [] then (Result<nat, ErrorKind>.Ok(|got|), got, rs)
    else match rs[0]
      case Ok(b) =>
        var s := ReadBytes(rs[1..], room - 1, got + [b]);
        assert s.1[..|got|] == s.1[..|got| + 1][..|got|];
        s
      case Err(k) => (if k == WouldBlock then Result<nat, ErrorKind>.Ok(|got|) else Err(k), got, rs[1..])
  }

  /** The bytes a script delivers before its first error. */
  function LeadingBytes(rs: seq<Result<byte, ErrorKind>>): (lead: seq<byte>)
    ensures |lead| <= |rs|
    ensures forall k :: 0 <= k < |lead| ==> rs[k] == Ok(lead[k])
    ensures |lead| < |rs| ==> rs[|lead|].Err?
  {
    if rs == [] || rs[0].Err? then [] else [rs[0].value] + LeadingBytes(rs[1..])
  }

  /** `read` delivers the leading bytes of the script, as many as fit. */
  lemma {:induction false} ReadBytesTakesLeading(rs: seq<Result<byte, ErrorKind>>, room: nat, got: seq<byte>)
    ensures ReadBytes(rs, room, got).1 == got + LeadingBytes(rs)[..Min(room, |LeadingBytes(rs)|)]
    decreases room
  {
    if room == 0 || rs == [] {
    } else if rs[0].Ok? {
      var b, tail := rs[0].value, rs[1..];
      ReadBytesTakesLeading(tail, room - 1, got + [b]);
      assert ReadBytes(rs, room, got) == ReadBytes(tail, room - 1, got + [b]);
      var tl := LeadingBytes(tail);
      assert LeadingBytes(rs) == [b] + tl;
      var m := Min(room - 1, |tl|);
      assert ([b] + tl)[..m + 1] == [b] + tl[..m];
    }
  }

  /** `read` consumes every reply it looked at, the error that stops it included. */
  lemma {:induction false} ReadBytesConsumes(rs: seq<Result<byte, ErrorKind>>, room: nat, got: seq<byte>)
    ensures var lead := LeadingBytes(rs);
      ReadBytes(rs, room, got).2 == rs[Min(room, |lead|) + (if |lead| < room && |lead| < |rs| then 1 else 0)..]
    decreases room
  {
    if room == 0 || rs == [] {
    } else if rs[0].Ok? {
      var b, tail := rs[0].value, rs[1..];
      ReadBytesConsumes(tail, room - 1, got + [b]);
      assert ReadBytes(rs, room, got) == ReadBytes(tail, room - 1, got + [b]);
      var tl := LeadingBytes(tail);
      assert LeadingBytes(rs) == [b] + tl;
      var m := Min(room - 1, |tl|);
      assert tail[m..] == rs[m + 1..];
      if m < |tail| {
        assert tail[m + 1..] == rs[m + 2..];
      }
    }
  }

  /** `read` fails exactly when it meets, before the buffer is full, an error
    * other than `WouldBlock`, and then with that error. */
  lemma {:induction false} ReadBytesFails(rs: seq<Result<byte, ErrorKind>>, room: nat, got: seq<byte>)
    ensures var r := ReadBytes(rs, room, got).0;
      var lead := LeadingBytes(rs);
      && (r.Err? <==> |lead| < room && |lead| < |rs| && rs[|lead|].error != WouldBlock)
      && (r.Err? ==> r.error == rs[|lead|].error)
    decreases room
  {
    if room == 0 || rs == [] {
    } else if rs[0].Ok? {
      var b, tail := rs[0].value, rs[1..];
      ReadBytesFails(tail, room - 1, got + [b]);
      assert ReadBytes(rs, room, got) == ReadBytes(tail, room - 1, got + [b]);
      var tl := LeadingBytes(tail);
      assert LeadingBytes(rs) == [b] + tl;
      if |tl| < |tail| {
        assert tail[|tl|] == rs[|tl| + 1];
      }
    }
  }

  /** `write` on a byte device: `try_write_byte` is offered the buffer from
    * position `count` on; `WouldBlock` ends the write successfully with the count
    * so far, any other error ends it with that error.  An exhausted script
    * answers `WouldBlock`.  Gives the result, the number of bytes accepted, and
    * the replies not consumed. */
  function WriteBytes(ws: seq<Result<(), ErrorKind>>, len: nat, count: nat)
    : (s: (Result<nat, ErrorKind>, nat, seq<Result<(), ErrorKind>>))
    requires count <= len
    ensures count <= s.1 <= len
    ensures s.0.Ok? ==> s.0.value == s.1
    decreases len - count
  {
    if count == len || ws == [] then (Result<nat, ErrorKind>.Ok(count), count, ws)
    else match ws[0]
      case Ok(_) => WriteBytes(ws[1..], len, count + 1)
      case Err(k) => (if k == WouldBlock then Result<nat, ErrorKind>.Ok(count) else Err(k), count, ws[1..])
  }

  /** The number of bytes a script accepts before its first error. */
  function Accepted(ws: seq<Result<(), ErrorKind>>): (n: nat)
    ensures n <= |ws|
    ensures forall k :: 0 <= k < n ==> ws[k].Ok?
    ensures n < |ws| ==> ws[n].Err?
  {
    if ws == [] || ws[0].Err? then 0 else 1 + Accepted(ws[1..])
  }

  /** `write` has as many bytes accepted as the script accepts and the buffer
    * holds; it fails exactly when it meets, before the buffer is used up, an
    * error other than `WouldBlock`. */
  lemma {:induction false} WriteBytesTakesAccepted(ws: seq<Result<(), ErrorKind>>, len: nat, count: nat)
    requires count <= len
    ensures var (r, n, rest) := WriteBytes(ws, len, count);
      var a := Accepted(ws);
      var stopped := a < len - count && a < |ws|;
      && n == count + Min(len - count, a)
      && (r.Err? <==> stopped && ws[a].error != WouldBlock)
      && (r.Err? ==> r.error == ws[a].error)
      && rest == ws[Min(len - count, a) + (if stopped then 1 else 0)..]
    decreases len - count
  {
    if count == len || ws == [] {
    } else if ws[0].Ok? {
      WriteBytesTakesAccepted(ws[1..], len, count + 1);
      var a := Accepted(ws[1..]);
      assert ws[1..][Min(len - count - 1, a)..] == ws[Min(len - count, a + 1)..];
      if Min(len - count, a + 1) < |ws| {
        assert ws[1..][Min(len - count - 1, a) + 1..] == ws[Min(len - count, a + 1) + 1..];
      }
    }
  }

  /** The number of `WouldBlock` answers before the first other one. */
  function Pending<T>(rs: seq<Result<T, ErrorKind>>): (n: nat)
    requires exists i :: 0 <= i < |rs| && rs[i] != Err(WouldBlock)
    ensures n < |rs| && rs[n] != Err(WouldBlock)
    ensures forall k :: 0 <= k < n ==> rs[k] == Err(WouldBlock)
  {
    if rs[0] != Err(WouldBlock) then 0
    else
      var i :| 0 <= i < |rs| && rs[i] != Err(WouldBlock);
      assert rs[1..][i - 1] == rs[i];
      1 + Pending(rs[1..])
  }

  /** A byte device (a UART, say) whose answers to `try_read_byte` and
    * `try_write_byte` are scripted; `sent` records the bytes it accepted. */
  class ByteDevice {
    var readReplies: seq<Result<byte, ErrorKind>>
    var writeReplies: seq<Result<(), ErrorKind>>
    var sent: seq<byte>

    constructor (readReplies: seq<Result<byte, ErrorKind>>, writeReplies: seq<Result<(), ErrorKind>>)
      ensures this.readReplies == readReplies && this.writeReplies == writeReplies && sent == []
    {
      this.readReplies := readReplies;
      this.writeReplies := writeReplies;
      sent := [];
    }

    /** `try_read_byte`: the next scripted answer, `WouldBlock` when there is none. */
    method TryReadByte() returns (r: Result<byte, ErrorKind>)
      modifies this`readReplies
      ensures if old(readReplies) == [] then r == Err(WouldBlock) && readReplies == []
              else r == old(readReplies)[0] && readReplies == old(readReplies)[1..]
    {
      if readReplies == [] {
        return Err(WouldBlock);
      }
      r := readReplies[0];
      readReplies := readReplies[1..];
    }

    /** `try_write_byte`: the next scripted answer; an accepted byte is sent. */
    method TryWriteByte(b: byte) returns (r: Result<(), ErrorKind>)
      modifies this`writeReplies, this`sent
      ensures if old(writeReplies) == [] then r == Err(WouldBlock) && writeReplies == [] && sent == old(sent)
              else r == old(writeReplies)[0] && writeReplies == old(writeReplies)[1..]
                   && sent == if r.Ok? then old(sent) + [b] else old(sent)
    {
      if writeReplies == [] {
        return Err(WouldBlock);
      }
      r := writeReplies[0];
      writeReplies := writeReplies[1..];
      if r.Ok? {
        sent := sent + [b];
      }
    }

    /** `read_byte`: polls `try_read_byte` until it answers other than
      * `WouldBlock`.  The device must eventually answer; on a script without
      * such an answer the source polls forever. */
    method ReadByte() returns (r: Result<byte, ErrorKind>)
      requires exists i :: 0 <= i < |readReplies| && readReplies[i] != Err(WouldBlock)
      modifies this`readReplies
      ensures r == old(readReplies)[Pending(old(readReplies))] && readReplies == old(readReplies)[Pending(old(readReplies)) + 1..]
    {
      ghost var n := Pending(readReplies);
      var i := 0;
      while true
        invariant 0 <= i <= n && readReplies == old(readReplies)[i..]
        decreases n - i
      {
        assert readReplies[0] == old(readReplies)[i];
        r := TryReadByte();
        if r != Err(WouldBlock) {
          return;
        }
        i := i + 1;
      }
    }

    /** `write_byte`: offers the byte until `try_write_byte` answers other than
      * `WouldBlock`; the device must eventually answer. */
    method WriteByte(b: byte) returns (r: Result<(), ErrorKind>)
      requires exists i :: 0 <= i < |writeReplies| && writeReplies[i] != Err(WouldBlock)
      modifies this`writeReplies, this`sent
      ensures r == old(writeReplies)[Pending(old(writeReplies))] && writeReplies == old(writeReplies)[Pending(old(writeReplies)) + 1..]
      ensures sent == if r.Ok? then old(sent) + [b] else old(sent)
    {
      ghost var n := Pending(writeReplies);
      var i := 0;
      while true
        invariant 0 <= i <= n && writeReplies == old(writeReplies)[i..] && sent == old(sent)
        decreases n - i
      {
        assert writeReplies[0] == old(writeReplies)[i];
        r := TryWriteByte(b);
        if r != Err(WouldBlock) {
          return;
        }
        i := i + 1;
      }
    }

    /** `io::Read::read` for a byte device. */
    method Read(buf: array<byte>) returns (r: Result<nat, ErrorKind>)
      modifies this`readReplies, buf
      ensures var s := ReadBytes(old(readReplies), buf.Length, []);
        r == s.0 && readReplies == s.2 && buf[..] == s.1 + old(buf[..])[|s.1|..]
    {
      var count := 0;
      while count < buf.Length
        invariant count <= buf.Length
        invariant ReadBytes(old(readReplies), buf.Length, []) == ReadBytes(readReplies, buf.Length - count, buf[..count])
        invariant buf[count..] == old(buf[..])[count..]
      {
        var b := TryReadByte();
        if b.Err? {
          assert buf[..] == buf[..count] + buf[count..];
          if b.error == WouldBlock {
            return Ok(count);
          }
          return Err(b.error);
        }
        buf[count] := b.value;
        assert buf[..count + 1] == buf[..count] + [b.value];
        count := count + 1;
      }
      assert buf[..] == buf[..count];
      return Ok(count);
    }

    /** `io::Write::write` for a byte device. */
    method Write(buf: seq<byte>) returns (r: Result<nat, ErrorKind>)
      modifies this`writeReplies, this`sent
      ensures var s := WriteBytes(old(writeReplies), |buf|, 0);
        r == s.0 && writeReplies == s.2 && sent == old(sent) + buf[..s.1]
    {
      var count := 0;
      while count < |buf|
        invariant count <= |buf|
        invariant WriteBytes(old(writeReplies), |buf|, 0) == WriteBytes(writeReplies, |buf|, count)
        invariant sent == old(sent) + buf[..count]
      {
        var res := TryWriteByte(buf[count]);
        if res.Err? {
          if res.error == WouldBlock {
            return Ok(count);
          }
          return Err(res.error);
        }
        assert buf[..count + 1] == buf[..count] + [buf[count]];
        count := count + 1;
      }
      return Ok(count);
    }

    /** `flush` does nothing. */
    method Flush() returns (r: Result<(), ErrorKind>)
      ensures r.Ok?
    {
      return Ok(());
    }

    /** `io::Seek::seek`: a byte device cannot seek. */
    method Seek(pos: SeekFrom) returns (r: Result<u64, ErrorKind>)
      ensures r == Err(NotSeekable)
    {
      return Err(NotSeekable);
    }
  }
}
