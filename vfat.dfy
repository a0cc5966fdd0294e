/** The FAT32 volume (lib/vfat/src/virtual_fat.rs): the geometry read from the
  * BIOS parameter block, FAT entry lookup and update, following and allocating
  * cluster chains, and cluster-sized block transfers.
  *
  * The partition under the volume is modelled as a `Disk` of logical sectors of
  * `bytesPerSector` bytes (the partition's own mapping is modelled in
  * `Partition`).  Cluster transfers run `stream_read` and `stream_write` as
  * written, so at a sector-aligned offset they move the cluster's bytes one
  * sector past the offset (see `Device.AsWrittenAlignedReadIsShifted`). */
module Vfat {
  import opened Common
  import opened Io
  import opened Device
  import opened Clusters
  import opened Fat
  import opened Bpb

  /** `VirtualFatError`. */
  datatype VirtualFatError = Io(kind: ErrorKind) | InvalidClusterForNext | FilesystemOutOfMemory
                           | FailedToLockFatMutex | InvalidFatForSizing

  /** A cluster transfer's result: the `amount` that `read_cluster` and
    * `write_cluster` return, the device's error, or a panic inside the stream
    * function. */
  datatype Transfer = Moved(amount: nat) | DeviceError(kind: ErrorKind) | Halted

  /** The stream outcome with its last block dropped (`.map(|(_, amount)| amount)`). */
  function TransferOf(o: StreamOutcome): Transfer
  {
    match o
    case Done(_, amount) => Moved(amount)
    case Failed(kind) => DeviceError(kind)
    case Panicked => Halted
  }

  /** The aligned plan as written for the block `block` holding the offset: it
    * never panics, and within the device it reads the stream from `start`, one
    * block past the offset. */
  lemma ShiftedRead(blocks: seq<seq<byte>>, blockSize: nat, first: nat, block: nat, final: nat, start: nat,
                    buffer: seq<byte>)
    requires blockSize > 0 && WellSized(blocks, blockSize)
    requires first <= block < final && (block + 1 - first) * blockSize == start
    ensures Fits([Chunk(block, blockSize, 0, 0)] + MainChunks(blockSize, block + 1, final, 0, |buffer|), |buffer|)
    ensures var (o, out) := ExecRead(blocks, blockSize, [Chunk(block, blockSize, 0, 0)] + MainChunks(blockSize, block + 1, final, 0, |buffer|), buffer, 0, 0);
      && (o.Done? || o == Failed(NotFound))
      && (final <= |blocks| ==>
            && o.Done? && o.amount == Min(|buffer|, StreamLength(blockSize, block + 1, final))
            && out == Overlaid(blocks, blockSize, first, start, o.amount, buffer))
  {
    var plan := [Chunk(block, blockSize, 0, 0)] + MainChunks(blockSize, block + 1, final, 0, |buffer|);
    AlignedPlanInBlock(blockSize, block, final, |buffer|);
    InBlockReadNeverPanics(blocks, blockSize, plan, buffer, 0, 0);
    if final <= |blocks| {
      AsWrittenAlignedReadIsShifted(blocks, blockSize, first, block, final, start, buffer);
      var (o, out) := ExecRead(blocks, blockSize, plan, buffer, 0, 0);
      assert out == Overlaid(blocks, blockSize, first, start, o.amount, buffer);
    }
  }

  /** What `stream_read` as written does at a block-aligned offset whose block is
    * `block`, given the plan it runs: the plan of `ShiftedRead`, or no chunk at
    * all past the last block. */
  lemma AlignedReadOutcome(blocks: seq<seq<byte>>, blockSize: nat, first: nat, block: nat, final: nat, start: nat,
                           before: seq<byte>, planned: Option<seq<Chunk>>, o: StreamOutcome, out: seq<byte>)
    requires blockSize > 0 && WellSized(blocks, blockSize) && first <= block
    requires block < final ==> (block + 1 - first) * blockSize == start
    requires block < final ==> planned == Some([Chunk(block, blockSize, 0, 0)] + MainChunks(blockSize, block + 1, final, 0, |before|))
    requires block >= final ==> planned == Some([])
    requires planned.Some? && Fits(planned.value, |before|) ==> (o, out) == ExecRead(blocks, blockSize, planned.value, before, 0, 0)
    ensures o.Done? || o == Failed(NotFound)
    ensures final <= |blocks| ==>
      && o.Done? && o.amount == Min(|before|, StreamLength(blockSize, block + 1, final))
      && out == Overlaid(blocks, blockSize, first, start, o.amount, before)
  {
    if block < final {
      ShiftedRead(blocks, blockSize, first, block, final, start, before);
    } else {
      OverlaidNothing(blocks, blockSize, first, start, before);
    }
  }

  /** The aligned plan as written for the block `block` holding the offset: it
    * never panics, and within the device it writes the stream from `start`,
    * one block past the offset. */
  lemma ShiftedWrite(before: seq<seq<byte>>, blockSize: nat, first: nat, block: nat, final: nat, start: nat,
                     buffer: seq<byte>)
    requires blockSize > 0 && WellSized(before, blockSize)
    requires first <= block < final && (block + 1 - first) * blockSize == start
    ensures Fits([Chunk(block, blockSize, 0, 0)] + MainChunks(blockSize, block + 1, final, 0, |buffer|), |buffer|)
    ensures var (o, after) := ExecWrite(before, blockSize, [Chunk(block, blockSize, 0, 0)] + MainChunks(blockSize, block + 1, final, 0, |buffer|), buffer, 0, 0);
      && (o.Done? || o == Failed(NotFound))
      && (final <= |before| ==>
            && o.Done? && o.amount == Min(|buffer|, StreamLength(blockSize, block + 1, final))
            && StreamWritten(before, after, blockSize, first, start, o.amount, buffer))
  {
    var plan := [Chunk(block, blockSize, 0, 0)] + MainChunks(blockSize, block + 1, final, 0, |buffer|);
    AlignedPlanInBlock(blockSize, block, final, |buffer|);
    InBlockWriteNeverPanics(before, blockSize, plan, buffer, 0, 0);
    if final <= |before| {
      AsWrittenAlignedWriteIsShifted(before, blockSize, first, block, final, start, buffer);
    }
  }

  // ---------------------------------------------------------------------------
  // Geometry

  /** The fields `VirtualFatFilesystem::new` derives from the parameter block. */
  datatype Geometry = Geometry(bytesPerSector: u16, sectorsPerCluster: byte, sectorsPerFat: u32,
                               fatStartSector: nat, dataStartSector: nat, rootCluster: Cluster)

  /** `VirtualFatFilesystem::new`: the 16-bit FAT size unless it is 0, the FATs
    * right after the reserved sectors, the data region right after the FATs. */
  function Layout(b: BiosParameterBlock): (g: Geometry)
  {
    var sectorsPerFat := if b.sectorsPerFatOne != 0 then b.sectorsPerFatOne as u32 else b.sectorsPerFatTwo;
    Geometry(b.bytesPerSector, b.sectorsPerCluster, sectorsPerFat, b.reservedSectors,
             b.reservedSectors + b.numberOfFats * sectorsPerFat, ClusterFrom(b.rootCluster))
  }

  /** `number_of_fats`: the number of 4-byte entries one FAT holds. */
  function EntriesPerFat(g: Geometry): nat
  {
    var fatBytes: nat := g.sectorsPerFat * g.bytesPerSector;
    fatBytes / 4
  }

  /** The layout puts the FAT copies between the reserved sectors and the data
    * region: the first FAT starts right after the reserved sectors, the data
    * region right after the last FAT, and the first FAT ends at or before the
    * data region when there is one. */
  lemma LayoutRegions(b: BiosParameterBlock)
    ensures Layout(b).fatStartSector == b.reservedSectors
    ensures Layout(b).sectorsPerFat == (if b.sectorsPerFatOne != 0 then b.sectorsPerFatOne else b.sectorsPerFatTwo)
    ensures Layout(b).dataStartSector == Layout(b).fatStartSector + b.numberOfFats * Layout(b).sectorsPerFat
    ensures b.numberOfFats > 0 ==> Layout(b).fatStartSector + Layout(b).sectorsPerFat <= Layout(b).dataStartSector
  {
    var g := Layout(b);
    if b.numberOfFats > 0 {
      MulAtLeast(b.numberOfFats, g.sectorsPerFat);
    }
  }

  /** Every cluster the FAT has an entry for (`c < number_of_fats`) has that
    * entry inside the first FAT. */
  lemma EntryInFirstFat(g: Geometry, c: Cluster)
    requires g.bytesPerSector > 0 && c.num < EntriesPerFat(g)
    ensures Offset(c) / g.bytesPerSector < g.sectorsPerFat
  {
    var bps: nat := g.bytesPerSector;
    var q: nat := Offset(c) / bps;
    var fatBytes: nat := g.sectorsPerFat * bps;
    assert 4 * c.num < fatBytes;
    assert q * bps <= Offset(c);
    if q >= g.sectorsPerFat {
      MulMonotone(g.sectorsPerFat, q, bps);
    }
  }

  /** `after` is `before` with the stream of blocks from `first` on holding
    * `data[..amount]` from stream position `offset`, and nothing else changed. */
  predicate StreamWritten(before: seq<seq<byte>>, after: seq<seq<byte>>, blockSize: nat,
                          first: nat, offset: nat, amount: nat, data: seq<byte>)
    requires WellSized(before, blockSize) && WellSized(after, blockSize) && amount <= |data|
  {
    && |after| == |before|
    && forall b, j :: 0 <= b < |after| && 0 <= j < blockSize ==>
         after[b][j] == if first <= b && offset <= (b - first) * blockSize + j < offset + amount
                        then data[(b - first) * blockSize + j - offset]
                        else before[b][j]
  }

  /** Writing nothing leaves every block as it was. */
  lemma StreamWrittenNothing(blocks: seq<seq<byte>>, blockSize: nat, first: nat, offset: nat, data: seq<byte>)
    requires WellSized(blocks, blockSize)
    ensures StreamWritten(blocks, blocks, blockSize, first, offset, 0, data)
  {
  }

  /** `data` with its first `amount` bytes replaced by the stream of blocks from
    * `first` on, read from stream position `start`. */
  function Overlaid(blocks: seq<seq<byte>>, blockSize: nat, first: nat, start: nat, amount: nat, data: seq<byte>)
    : (r: seq<byte>)
    requires blockSize > 0
    ensures |r| == |data|
    ensures forall q :: 0 <= q < |data| ==>
              r[q] == if q < amount then StreamAt(blocks, blockSize, first, start + q) else data[q]
  {
    seq(|data|, q requires 0 <= q < |data| => OverlaidAt(blocks, blockSize, first, start, amount, data, q))
  }

  lemma OverlaidNothing(blocks: seq<seq<byte>>, blockSize: nat, first: nat, start: nat, data: seq<byte>)
    requires blockSize > 0
    ensures Overlaid(blocks, blockSize, first, start, 0, data) == data
  {
  }

  function OverlaidAt(blocks: seq<seq<byte>>, blockSize: nat, first: nat, start: nat, amount: nat, data: seq<byte>, q: nat)
    : byte
    requires blockSize > 0 && q < |data|
  {
    if q < amount then StreamAt(blocks, blockSize, first, start + q) else data[q]
  }

  /** The sectors of a cluster after its first hold at most the cluster's bytes. */
  lemma ClusterTail(bytesPerSector: nat, sectorsPerCluster: nat, first: nat)
    ensures StreamLength(bytesPerSector, first + 1, first + sectorsPerCluster) <= bytesPerSector * sectorsPerCluster
  {
    if sectorsPerCluster > 0 {
      MulMonotone(sectorsPerCluster - 1, sectorsPerCluster, bytesPerSector);
    }
  }

  // ---------------------------------------------------------------------------
  // The volume

  /** `VirtualFat`. */
  class VirtualFat {
    const device: Disk
    const bytesPerSector: u16
    const sectorsPerCluster: byte
    const sectorsPerFat: u32
    const fatStartSector: nat
    const dataStartSector: nat
    const rootCluster: Cluster

    /** The device's logical sectors are `bytesPerSector` long, a multiple of the
      * 4-byte FAT entry, and the start sectors are what `new` can compute from
      * the 16- and 32-bit fields of the parameter block. */
    ghost predicate Valid()
      reads device
    {
      && device.Valid() && device.blockSize == bytesPerSector
      && bytesPerSector > 0 && bytesPerSector % 4 == 0
      && fatStartSector < 0x1_0000 && dataStartSector < 0x1_0000 + 0x100 * 0x1_0000_0000
    }

    /** `VirtualFatFilesystem::new` once the parameter block is read: the volume
      * with the layout of `b` over the partition's logical sectors. */
    constructor (device: Disk, b: BiosParameterBlock)
      requires device.Valid() && device.blockSize == b.bytesPerSector
      requires b.bytesPerSector > 0 && b.bytesPerSector % 4 == 0
      ensures Valid() && this.device == device
      ensures Geometry(bytesPerSector, sectorsPerCluster, sectorsPerFat, fatStartSector, dataStartSector, rootCluster)
              == Layout(b)
    {
      var g := Layout(b);
      MulMonotone(b.numberOfFats, 0x100, g.sectorsPerFat);
      MulMonotone(g.sectorsPerFat, 0x1_0000_0000, 0x100);
      this.device := device;
      this.bytesPerSector := g.bytesPerSector;
      this.sectorsPerCluster := g.sectorsPerCluster;
      this.sectorsPerFat := g.sectorsPerFat;
      this.fatStartSector := g.fatStartSector;
      this.dataStartSector := g.dataStartSector;
      this.rootCluster := g.rootCluster;
    }

    function Geo(): Geometry
    {
      Geometry(bytesPerSector, sectorsPerCluster, sectorsPerFat, fatStartSector, dataStartSector, rootCluster)
    }

    /** `block_size`: the bytes of one cluster. */
    function BlockSize(): nat
    {
      bytesPerSector * sectorsPerCluster
    }

    /** `FatEntry::find` with this volume's geometry. */
    function EntryPosition(c: Cluster): (r: (nat, nat))
      requires bytesPerSector > 0 && fatStartSector < 0x1_0000
    {
      Find(c, fatStartSector, bytesPerSector)
    }

    /** `fat_entry(c)` on the sectors `blocks`: the 4 bytes at the entry's
      * position, or the device's `NotFound` when its sector is missing. */
    function EntryIn(blocks: seq<seq<byte>>, c: Cluster): (r: Result<FatEntry, VirtualFatError>)
      requires bytesPerSector > 0 && bytesPerSector % 4 == 0 && fatStartSector < 0x1_0000
      requires WellSized(blocks, bytesPerSector)
    {
      var (block, offset) := EntryPosition(c);
      EntryFits(c);
      if block >= |blocks| then Err(Io(NotFound)) else Ok(FromBytes(blocks[block][offset..offset + 4]))
    }

    /** The 4 bytes of an entry lie inside its sector, at an offset that is a
      * multiple of 4, and two different clusters have entries that do not overlap. */
    lemma EntryFits(c: Cluster)
      requires bytesPerSector > 0 && bytesPerSector % 4 == 0 && fatStartSector < 0x1_0000
      ensures EntryPosition(c).1 % 4 == 0 && EntryPosition(c).1 + 4 <= bytesPerSector
    {
      var bps: nat := bytesPerSector;
      var q, off := Offset(c) / bps, Offset(c) % bps;
      var m := bps / 4;
      assert bps == 4 * m;
      assert Offset(c) == q * bps + off;
      assert off == 4 * (c.num - q * m);
    }

    lemma EntriesApart(c: Cluster, d: Cluster)
      requires bytesPerSector > 0 && bytesPerSector % 4 == 0 && fatStartSector < 0x1_0000
      requires c != d && EntryPosition(c).0 == EntryPosition(d).0
      ensures EntryPosition(c).1 + 4 <= EntryPosition(d).1 || EntryPosition(d).1 + 4 <= EntryPosition(c).1
    {
      var bps: nat := bytesPerSector;
      var q := Offset(c) / bps;
      assert Offset(d) / bps == q;
      assert Offset(c) == q * bps + Offset(c) % bps;
      assert Offset(d) == q * bps + Offset(d) % bps;
      EntryFits(c);
      EntryFits(d);
    }

    /** `fat_entry`. */
    method FatEntryOf(c: Cluster) returns (r: Result<FatEntry, VirtualFatError>)
      requires Valid()
      ensures r == EntryIn(device.blocks, c)
    {
      var (block, offset) := EntryPosition(c);
      EntryFits(c);
      var data := new byte[device.blockSize];
      var read := device.ReadBlock(block, data, 0, device.blockSize);
      if read.Err? {
        return Err(Io(read.error));
      }
      assert data[..] == device.blocks[block];
      r := Ok(FromBytes(data[offset..offset + 4]));
    }

    /** `next_cluster`: the next cluster of a chain, `None` at its end, and
      * `InvalidClusterForNext` on any other entry. */
    method NextCluster(c: Cluster) returns (r: Result<Option<Cluster>, VirtualFatError>)
      requires Valid()
      ensures EntryIn(device.blocks, c).Err? ==> r == Err(EntryIn(device.blocks, c).error)
      ensures EntryIn(device.blocks, c).Ok? ==>
                var s := StatusOf(EntryIn(device.blocks, c).value);
                && (r == Ok(None) <==> s.Eoc?)
                && (r.Ok? && r.value.Some? <==> s.Data?)
                && (s.Data? ==> r == Ok(Some(s.next)))
                && (r == Err(InvalidClusterForNext) <==> s.Free? || s.Reserved? || s.Bad?)
    {
      var e := FatEntryOf(c);
      if e.Err? {
        return Err(e.error);
      }
      match StatusOf(e.value)
      case Eoc(_) => r := Ok(None);
      case Data(next) => r := Ok(Some(next));
      case _ => r := Err(InvalidClusterForNext);
    }

    /** The entries `next_free_cluster` scans: `0..number_of_fats as u32`, each
      * index turned into a cluster by `Cluster::from`. */
    function ScanLimit(): nat
    {
      EntriesPerFat(Geo()) % 0x1_0000_0000
    }

    /** Entry `i` of the scan could be read and is not free. */
    predicate Taken(blocks: seq<seq<byte>>, i: nat)
      requires bytesPerSector > 0 && bytesPerSector % 4 == 0 && fatStartSector < 0x1_0000
      requires WellSized(blocks, bytesPerSector) && i < 0x1_0000_0000
    {
      var e := EntryIn(blocks, ClusterFrom(i));
      e.Ok? && !IsFree(e.value)
    }

    /** `next_free_cluster`: the first scanned entry that is free; the first read
      * error stops the scan; `FilesystemOutOfMemory` when every entry is taken. */
    method NextFreeCluster() returns (r: Result<Cluster, VirtualFatError>)
      requires Valid()
      ensures r.Ok? ==> exists i :: 0 <= i < ScanLimit() && r.value == ClusterFrom(i)
                                    && EntryIn(device.blocks, r.value).Ok? && IsFree(EntryIn(device.blocks, r.value).value)
                                    && forall j :: 0 <= j < i ==> Taken(device.blocks, j)
      ensures r == Err(FilesystemOutOfMemory) <==> forall j :: 0 <= j < ScanLimit() ==> Taken(device.blocks, j)
      ensures r.Err? && r.error != FilesystemOutOfMemory ==>
                exists i :: 0 <= i < ScanLimit() && EntryIn(device.blocks, ClusterFrom(i)) == Err(r.error)
                            && forall j :: 0 <= j < i ==> Taken(device.blocks, j)
    {
      var limit := ScanLimit();
      var i := 0;
      while i < limit
        invariant i <= limit
        invariant forall j :: 0 <= j < i ==> Taken(device.blocks, j)
      {
        var e := FatEntryOf(ClusterFrom(i));
        if e.Err? {
          assert e.error != FilesystemOutOfMemory;
          assert !Taken(device.blocks, i);
          return Err(e.error);
        }
        if IsFree(e.value) {
          assert !Taken(device.blocks, i);
          return Ok(ClusterFrom(i));
        }
        i := i + 1;
      }
      return Err(FilesystemOutOfMemory);
    }

    /** The sectors after `update_fat_entry(c, s)` succeeds: the entry's 4 bytes
      * replaced by the encoding of `s`. */
    function Updated(blocks: seq<seq<byte>>, c: Cluster, s: Status): (r: seq<seq<byte>>)
      requires bytesPerSector > 0 && bytesPerSector % 4 == 0 && fatStartSector < 0x1_0000
      requires WellSized(blocks, bytesPerSector) && EntryPosition(c).0 < |blocks|
      ensures WellSized(r, bytesPerSector)
    {
      var (block, offset) := EntryPosition(c);
      EntryFits(c);
      blocks[block := Splice(blocks[block], offset, ToBytes(FromStatus(s)))]
    }

    /** `update_fat_entry`: read the entry's sector, patch the 4 bytes, write it back. */
    method UpdateFatEntry(c: Cluster, s: Status) returns (r: Result<(), VirtualFatError>)
      requires Valid()
      modifies device`blocks
      ensures Valid()
      ensures r.Ok? <==> EntryPosition(c).0 < |old(device.blocks)|
      ensures r.Err? ==> r.error == Io(NotFound) && device.blocks == old(device.blocks)
      ensures r.Ok? ==> device.blocks == Updated(old(device.blocks), c, s)
    {
      var (block, offset) := EntryPosition(c);
      EntryFits(c);
      var data := new byte[device.blockSize];
      var read := device.ReadBlock(block, data, 0, device.blockSize);
      if read.Err? {
        return Err(Io(read.error));
      }
      assert data[..] == old(device.blocks)[block];
      var bytes := ToBytes(FromStatus(s));
      CopyInto(bytes, data, offset);
      assert data[..] == Splice(old(device.blocks)[block], offset, bytes);
      var written := device.WriteBlock(block, data[..]);
      assert written.Ok?;
      assert device.blocks == Updated(old(device.blocks), c, s);
      return Ok(());
    }

    /** After an update the entry reads back as the encoded status (so as the
      * status itself when it is one the classifier produces), and every other
      * cluster's entry reads as before. */
    lemma UpdateThenRead(blocks: seq<seq<byte>>, c: Cluster, s: Status, d: Cluster)
      requires bytesPerSector > 0 && bytesPerSector % 4 == 0 && fatStartSector < 0x1_0000
      requires WellSized(blocks, bytesPerSector) && EntryPosition(c).0 < |blocks|
      ensures EntryIn(Updated(blocks, c, s), c) == Ok(FromStatus(s))
      ensures Canonical(s) ==> StatusOf(EntryIn(Updated(blocks, c, s), c).value) == s
      ensures d != c ==> EntryIn(Updated(blocks, c, s), d) == EntryIn(blocks, d)
    {
      var (block, offset) := EntryPosition(c);
      EntryFits(c);
      var u := Updated(blocks, c, s);
      assert u[block][offset..offset + 4] == ToBytes(FromStatus(s));
      BytesRoundTrip(FromStatus(s), ToBytes(FromStatus(s)));
      StatusRoundTrip(s, FromStatus(s));
      if d != c {
        var (block', offset') := EntryPosition(d);
        EntryFits(d);
        if block' == block {
          EntriesApart(c, d);
          assert u[block'][offset'..offset' + 4] == blocks[block'][offset'..offset' + 4];
        }
      }
    }

    /** `list` follows the FAT: each cluster's entry links to the next one. */
    predicate Linked(blocks: seq<seq<byte>>, list: seq<Cluster>)
      requires bytesPerSector > 0 && bytesPerSector % 4 == 0 && fatStartSector < 0x1_0000
      requires WellSized(blocks, bytesPerSector)
    {
      forall k :: 0 <= k < |list| - 1 ==>
        EntryIn(blocks, list[k]).Ok? && StatusOf(EntryIn(blocks, list[k]).value) == Status.Data(list[k + 1])
    }

    /** Following the FAT from `c` reaches, within `n` entries, one that is not
      * a link (an end of chain, a free, bad or reserved entry, or a read error). */
    predicate EndsWithin(blocks: seq<seq<byte>>, c: Cluster, n: nat)
      requires bytesPerSector > 0 && bytesPerSector % 4 == 0 && fatStartSector < 0x1_0000
      requires WellSized(blocks, bytesPerSector)
      decreases n
    {
      n > 0 &&
      var e := EntryIn(blocks, c);
      (e.Ok? && StatusOf(e.value).Data? ==> EndsWithin(blocks, StatusOf(e.value).next, n - 1))
    }

    /** `fat_chain(start)`: the clusters of the chain from `start` up to and
      * including the one whose entry ends it; an entry that is neither a link nor
      * an end fails with `InvalidFatForSizing`.  The loop of the source runs
      * forever on a cyclic chain, so the model needs the chain to end. */
    method FatChain(start: Cluster) returns (r: Result<seq<Cluster>, VirtualFatError>)
      requires Valid()
      requires exists n :: EndsWithin(device.blocks, start, n)
      ensures r.Ok? ==> var list := r.value;
                && |list| > 0 && list[0] == start && Linked(device.blocks, list)
                && EntryIn(device.blocks, list[|list| - 1]).Ok?
                && StatusOf(EntryIn(device.blocks, list[|list| - 1]).value).Eoc?
      ensures r.Err? ==> exists list: seq<Cluster> ::
                && |list| > 0 && list[0] == start && Linked(device.blocks, list)
                && var e := EntryIn(device.blocks, list[|list| - 1]);
                   if e.Err? then r.error == e.error
                   else r.error == InvalidFatForSizing && !StatusOf(e.value).Data? && !StatusOf(e.value).Eoc?
    {
      ghost var n :| EndsWithin(device.blocks, start, n);
      var result := [start];
      var cluster := start;
      while true
        invariant |result| > 0 && result[0] == start && result[|result| - 1] == cluster
        invariant Linked(device.blocks, result)
        invariant EndsWithin(device.blocks, cluster, n)
        decreases n
      {
        var e := FatEntryOf(cluster);
        if e.Err? {
          return Err(e.error);
        }
        match StatusOf(e.value)
        case Data(next) =>
          result := result + [next];
          cluster := next;
          n := n - 1;
        case Eoc(_) =>
          return Ok(result);
        case _ =>
          return Err(InvalidFatForSizing);
      }
    }

    // -------------------------------------------------------------------------
    // Cluster transfers

    /** The sectors `first..final` of cluster `c` (`get_blocks`). */
    function ClusterSectors(c: Cluster): (r: (nat, nat))
      requires c.num >= 2 && dataStartSector < 0x1_0000 + 0x100 * 0x1_0000_0000
      ensures r.1 == r.0 + sectorsPerCluster
    {
      MulMonotone(c.num - 2, 0x1000_0000, sectorsPerCluster);
      MulMonotone(sectorsPerCluster, 0x100, 0x1000_0000);
      var first := SectorStart(c, dataStartSector, sectorsPerCluster);
      (first, first + sectorsPerCluster)
    }

    /** `read_cluster(c, offset, buffer)`: `stream_read` over the cluster's
      * sectors.  At a sector-aligned offset inside the cluster it reads the
      * cluster from one sector past the offset, as much as fits, and returns
      * that amount; there it never panics, and fails only with NotFound. */
    method ReadCluster(c: Cluster, offset: nat, buffer: array<byte>) returns (r: Transfer)
      requires Valid() && c.num >= 2
      modifies buffer
      ensures offset % bytesPerSector == 0 ==> r.Moved? || r == DeviceError(NotFound)
      ensures var first := ClusterSectors(c).0;
              var final := ClusterSectors(c).1;
              offset % bytesPerSector == 0 && final <= |device.blocks| ==>
                && r == Moved(Min(buffer.Length, StreamLength(bytesPerSector, first + offset / bytesPerSector + 1, final)))
                && buffer[..] == Overlaid(device.blocks, bytesPerSector, first, offset + bytesPerSector, r.amount, old(buffer[..]))
    {
      var (first, final) := ClusterSectors(c);
      ghost var before := buffer[..];
      ghost var blocks := device.blocks;
      ghost var planned := PlanAsWritten(bytesPerSector, offset, first, final, buffer.Length);
      var outcome := StreamRead(device, offset, first, final, buffer);
      r := TransferOf(outcome);
      if offset % bytesPerSector == 0 {
        var block := first + offset / bytesPerSector;
        if block < final {
          AsWrittenAlignedPlan(bytesPerSector, offset, first, final, buffer.Length);
        } else {
          AsWrittenAlignedPastEnd(bytesPerSector, offset, first, final, buffer.Length);
        }
        AlignedReadOutcome(blocks, bytesPerSector, first, block, final, offset + bytesPerSector, before, planned, outcome, buffer[..]);
        assert ClusterSectors(c) == (first, final) && device.blocks == blocks && |before| == buffer.Length;
      }
    }

    /** `write_cluster(c, offset, buffer)`: `stream_write` over the cluster's
      * sectors.  At a sector-aligned offset inside the cluster the buffer, as
      * much as fits, becomes the cluster's bytes from one sector past the
      * offset, and every other byte of the device keeps its value. */
    method WriteCluster(c: Cluster, offset: nat, buffer: seq<byte>) returns (r: Transfer)
      requires Valid() && c.num >= 2
      modifies device`blocks
      ensures Valid()
      ensures offset % bytesPerSector == 0 ==> r.Moved? || r == DeviceError(NotFound)
      ensures var first := ClusterSectors(c).0;
              var final := ClusterSectors(c).1;
              offset % bytesPerSector == 0 && final <= |old(device.blocks)| ==>
                && r == Moved(Min(|buffer|, StreamLength(bytesPerSector, first + offset / bytesPerSector + 1, final)))
                && StreamWritten(old(device.blocks), device.blocks, bytesPerSector, first, offset + bytesPerSector, r.amount, buffer)
    {
      var (first, final) := ClusterSectors(c);
      var outcome := StreamWrite(device, offset, first, final, buffer);
      r := TransferOf(outcome);
      if offset % bytesPerSector == 0 {
        var block := first + offset / bytesPerSector;
        if block >= final {
          AsWrittenAlignedPastEnd(bytesPerSector, offset, first, final, |buffer|);
          StreamWrittenNothing(device.blocks, bytesPerSector, first, offset + bytesPerSector, buffer);
          assert StreamLength(bytesPerSector, block + 1, final) == 0;
        } else {
          ghost var plan := [Chunk(block, bytesPerSector, 0, 0)] + MainChunks(bytesPerSector, block + 1, final, 0, |buffer|);
          AsWrittenAlignedPlan(bytesPerSector, offset, first, final, |buffer|);
          ShiftedWrite(old(device.blocks), bytesPerSector, first, block, final, offset + bytesPerSector, buffer);
          assert (outcome, device.blocks) == ExecWrite(old(device.blocks), bytesPerSector, plan, buffer, 0, 0);
        }
      }
    }

    /** `read_block(block, data)`: `Unsupported` for a buffer that is not one
      * cluster long; otherwise `read_cluster` at offset 0, which fills the buffer
      * with the cluster's sectors after the first and leaves its last sector's
      * worth of bytes alone. */
    method ReadBlock(block: nat, data: array<byte>) returns (r: Result<(), ErrorKind>)
      requires Valid() && ClusterFrom(block % 0x1_0000_0000).num >= 2
      modifies data
      ensures r == Err(Unsupported) <==> data.Length != BlockSize()
      ensures r.Err? ==> r.error == Unsupported || r.error == NotFound
      ensures data.Length != BlockSize() ==> data[..] == old(data[..])
      ensures var (first, final) := ClusterSectors(ClusterFrom(block % 0x1_0000_0000));
              data.Length == BlockSize() && final <= |device.blocks| ==>
                && r.Ok?
                && data[..] == Overlaid(device.blocks, bytesPerSector, first, bytesPerSector,
                                        StreamLength(bytesPerSector, first + 1, final), old(data[..]))
    {
      if data.Length != BlockSize() {
        return Err(Unsupported);
      }
      var c := ClusterFrom(block % 0x1_0000_0000);
      var (first, final) := ClusterSectors(c);
      var amount := ReadCluster(c, 0, data);
      assert 0 % bytesPerSector == 0 && 0 / bytesPerSector == 0;
      if !amount.Moved? {
        return Err(NotFound);
      }
      ClusterTail(bytesPerSector, sectorsPerCluster, first);
      return Ok(());
    }

    /** `write_block(block, data)`: `Unsupported` for a buffer that is not one
      * cluster long; otherwise `write_cluster` at offset 0, which writes the
      * buffer's front over the cluster's sectors after the first and leaves the
      * first sector alone. */
    method WriteBlock(block: nat, data: seq<byte>) returns (r: Result<(), ErrorKind>)
      requires Valid() && ClusterFrom(block % 0x1_0000_0000).num >= 2
      modifies device`blocks
      ensures Valid()
      ensures r == Err(Unsupported) <==> |data| != BlockSize()
      ensures r.Err? ==> r.error == Unsupported || r.error == NotFound
      ensures |data| != BlockSize() ==> device.blocks == old(device.blocks)
      ensures var (first, final) := ClusterSectors(ClusterFrom(block % 0x1_0000_0000));
              |data| == BlockSize() && final <= |old(device.blocks)| ==>
                && r.Ok?
                && StreamLength(bytesPerSector, first + 1, final) <= |data|
                && StreamWritten(old(device.blocks), device.blocks, bytesPerSector, first, bytesPerSector,
                                 StreamLength(bytesPerSector, first + 1, final), data)
    {
      if |data| != BlockSize() {
        return Err(Unsupported);
      }
      var c := ClusterFrom(block % 0x1_0000_0000);
      var (first, final) := ClusterSectors(c);
      var amount := WriteCluster(c, 0, data);
      assert 0 % bytesPerSector == 0 && 0 / bytesPerSector == 0;
      if !amount.Moved? {
        return Err(NotFound);
      }
      ClusterTail(bytesPerSector, sectorsPerCluster, first);
      return Ok(());
    }
  }
}
