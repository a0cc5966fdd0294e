/** The sector cache of the FAT file system (lib/fat32/src/vfat/cache.rs):
  * `CachedPartition` maps the logical sectors of a partition onto the
  * device's physical sectors and keeps every sector it has touched in a map
  * from sector number to its bytes and a dirty flag.  Reads and writes are
  * served from the map only; nothing is ever written to the device.
  *
  * The device is a `Disk` whose blocks are the physical sectors.  A logical
  * sector is `factor` physical sectors long, `factor` being the logical
  * sector size divided by the physical one; when the division leaves a
  * remainder the tail of the logical sector stays zero. */
module SectorCache {
  import opened Common
  import opened Io
  import opened Device

  /** `Partition`: the first physical sector, the number of logical sectors
    * and the size in bytes of a logical sector. */
  datatype Partition = Partition(start: nat, numSectors: nat, sectorSize: nat)

  /** `CacheEntry`. */
  datatype SectorEntry = SectorEntry(data: seq<byte>, dirty: bool)

  /** What `read_sector` and `write_sector` end with: the byte count, an I/O
    * error, or a panic on mismatched lengths. */
  datatype Transfer = Copied(count: nat) | IoError(kind: ErrorKind) | LengthPanic

  /** `factor`: the number of physical sectors in a logical one. */
  function Factor(p: Partition, ds: nat): (f: nat)
    requires ds > 0
    ensures f * ds <= p.sectorSize < (f + 1) * ds
    ensures p.sectorSize >= ds ==> f >= 1
  {
    p.sectorSize / ds
  }

  /** `virtual_to_physical`. */
  function VirtualToPhysical(p: Partition, ds: nat, virt: nat): (r: Option<nat>)
    requires ds > 0
    ensures r.None? <==> virt >= p.numSectors
    ensures r.Some? ==> r.value >= p.start
  {
    if virt >= p.numSectors then None else Some(p.start + virt * Factor(p, ds))
  }

  /** Distinct logical sectors occupy disjoint, increasing runs of physical
    * sectors, all inside `[start, start + numSectors * factor)`. */
  lemma PhysicalRunsDisjoint(p: Partition, ds: nat, v: nat, w: nat)
    requires ds > 0 && v < w < p.numSectors
    ensures VirtualToPhysical(p, ds, v).value + Factor(p, ds) <= VirtualToPhysical(p, ds, w).value
    ensures VirtualToPhysical(p, ds, w).value + Factor(p, ds) <= p.start + p.numSectors * Factor(p, ds)
  {
    var f := Factor(p, ds);
    MulMonotone(v + 1, w, f);
    MulMonotone(w + 1, p.numSectors, f);
  }

  function Zeroed(n: nat): (z: seq<byte>)
    ensures |z| == n && forall k :: 0 <= k < n ==> z[k] == 0
  {
    seq(n, _ => 0)
  }

  /** The physical sectors `first .. first + n` laid end to end. */
  function Gather(blocks: seq<seq<byte>>, first: nat, n: nat): (r: seq<byte>)
    requires n > 0 ==> first + n <= |blocks|
    decreases n
  {
    if n == 0 then [] else Gather(blocks, first, n - 1) + blocks[first + n - 1]
  }

  /** Gathered sectors have `n` sectors' worth of bytes. */
  lemma {:induction false} GatherLength(blocks: seq<seq<byte>>, ds: nat, first: nat, n: nat)
    requires (n > 0 ==> first + n <= |blocks|) && WellSized(blocks, ds)
    ensures |Gather(blocks, first, n)| == n * ds
    decreases n
  {
    if n > 0 {
      GatherLength(blocks, ds, first, n - 1);
    }
  }

  /** Byte `i` of the gathered sectors is byte `i % ds` of sector `first + i / ds`. */
  lemma GatherAt(blocks: seq<seq<byte>>, ds: nat, first: nat, n: nat)
    requires ds > 0 && (n > 0 ==> first + n <= |blocks|) && WellSized(blocks, ds)
    ensures |Gather(blocks, first, n)| == n * ds
    ensures forall i :: 0 <= i < n * ds ==> first + i / ds < |blocks| && Gather(blocks, first, n)[i] == blocks[first + i / ds][i % ds]
  {
    GatherLength(blocks, ds, first, n);
    forall i | 0 <= i < n * ds
      ensures first + i / ds < |blocks| && Gather(blocks, first, n)[i] == blocks[first + i / ds][i % ds]
    {
      GatherIndex(blocks, ds, first, n, i);
    }
  }

  /** One byte of the gathered sectors. */
  lemma {:induction false} GatherIndex(blocks: seq<seq<byte>>, ds: nat, first: nat, n: nat, i: nat)
    requires ds > 0 && first + n <= |blocks| && WellSized(blocks, ds) && i < n * ds
    ensures |Gather(blocks, first, n)| == n * ds
    ensures first + i / ds < |blocks| && Gather(blocks, first, n)[i] == blocks[first + i / ds][i % ds]
    decreases n
  {
    GatherLength(blocks, ds, first, n);
    var m := n - 1;
    GatherLength(blocks, ds, first, m);
    var base := m * ds;
    assert n * ds == base + ds;
    if i >= base {
      DivModUnique(m, i - base, ds);
    } else {
      GatherIndex(blocks, ds, first, m, i);
    }
  }

  /** The bytes `load_from_disk` gives a logical sector starting at physical
    * sector `phys`, or `None` when a physical sector is past the device's end. */
  function SectorBytes(p: Partition, ds: nat, blocks: seq<seq<byte>>, phys: nat): (r: Option<seq<byte>>)
    requires ds > 0
    ensures r.Some? <==> phys + Factor(p, ds) <= |blocks|
  {
    var f := Factor(p, ds);
    if phys + f > |blocks| then None else Some(Gather(blocks, phys, f) + Zeroed(p.sectorSize - f * ds))
  }

  /** A loaded logical sector is `sectorSize` bytes: physical sector
    * `phys + i / ds` gives byte `i` for every `i` below `factor * ds`, and the
    * bytes after those are zero. */
  lemma SectorBytesLayout(p: Partition, ds: nat, blocks: seq<seq<byte>>, phys: nat)
    requires ds > 0 && WellSized(blocks, ds) && phys + Factor(p, ds) <= |blocks|
    ensures var d := SectorBytes(p, ds, blocks, phys).value;
            var f := Factor(p, ds);
            && |d| == p.sectorSize
            && (forall i :: 0 <= i < f * ds ==> phys + i / ds < |blocks| && d[i] == blocks[phys + i / ds][i % ds])
            && (forall i :: f * ds <= i < |d| ==> d[i] == 0)
  {
    GatherAt(blocks, ds, phys, Factor(p, ds));
  }

  /** What the cache keeps between calls: only sectors of the partition are
    * cached, each one logical sector long, and a sector that is not dirty
    * holds what the device holds. */
  ghost predicate CacheValid(p: Partition, ds: nat, blocks: seq<seq<byte>>, cache: map<nat, SectorEntry>)
  {
    && ds > 0
    && WellSized(blocks, ds)
    && forall v :: v in cache ==>
         && v < p.numSectors
         && |cache[v].data| == p.sectorSize
         && (!cache[v].dirty ==> SectorBytes(p, ds, blocks, VirtualToPhysical(p, ds, v).value) == Some(cache[v].data))
  }

  /** `load_from_disk`: an out-of-range sector is `Other`; a cached sector is
    * left as it is; otherwise the sector is read and cached clean. */
  function LoadStep(p: Partition, ds: nat, blocks: seq<seq<byte>>, cache: map<nat, SectorEntry>, virt: nat)
    : (r: (Result<(), ErrorKind>, map<nat, SectorEntry>))
    requires ds > 0
    ensures r.0.Ok? ==> virt in r.1
  {
    match VirtualToPhysical(p, ds, virt)
    case None => (Err(Other), cache)
    case Some(phys) =>
      if virt in cache then (Ok(()), cache)
      else
        match SectorBytes(p, ds, blocks, phys)
        case None => (Err(NotFound), cache)
        case Some(d) => (Ok(()), cache[virt := SectorEntry(d, false)])
  }

  /** `get`: the cached bytes of `sector`, loading it first on a miss. */
  function GetStep(p: Partition, ds: nat, blocks: seq<seq<byte>>, cache: map<nat, SectorEntry>, sector: nat)
    : (r: (Result<seq<byte>, ErrorKind>, map<nat, SectorEntry>))
    requires ds > 0
  {
    if sector in cache then (Ok(cache[sector].data), cache)
    else
      var (l, c) := LoadStep(p, ds, blocks, cache, sector);
      if l.Err? then (Err(l.error), c) else (Ok(c[sector].data), c)
  }

  /** `get_mut`: as `get`, and the entry is marked dirty. */
  function GetMutStep(p: Partition, ds: nat, blocks: seq<seq<byte>>, cache: map<nat, SectorEntry>, sector: nat)
    : (r: (Result<seq<byte>, ErrorKind>, map<nat, SectorEntry>))
    requires ds > 0
  {
    var (g, c) := GetStep(p, ds, blocks, cache, sector);
    if g.Err? then (g, c) else (g, c[sector := SectorEntry(c[sector].data, true)])
  }

  /** `buf` written over the front of `data`, as far as `data` reaches. */
  function Overwrite(data: seq<byte>, buf: seq<byte>): (r: seq<byte>)
  {
    var n := Min(|buf|, |data|);
    buf[..n] + data[n..]
  }

  /** `write_sector`: copies `buf` into the cached sector byte by byte; a
    * buffer longer than the sector panics once the sector is full. */
  function WriteSectorStep(p: Partition, ds: nat, blocks: seq<seq<byte>>, cache: map<nat, SectorEntry>, sector: nat, buf: seq<byte>)
    : (r: (Transfer, map<nat, SectorEntry>))
    requires ds > 0
  {
    var (g, c) := GetMutStep(p, ds, blocks, cache, sector);
    if g.Err? then (IoError(g.error), c)
    else
      var c' := c[sector := SectorEntry(Overwrite(g.value, buf), true)];
      if |buf| > |g.value| then (LengthPanic, c') else (Copied(|buf|), c')
  }

  /** `load_from_disk` succeeds exactly for a sector of the partition whose
    * physical sectors exist (or that is cached already); it never replaces
    * or drops a cached entry and adds at most `virt`, clean. */
  lemma LoadKeepsCached(p: Partition, ds: nat, blocks: seq<seq<byte>>, cache: map<nat, SectorEntry>, virt: nat)
    requires ds > 0
    ensures var (r, c) := LoadStep(p, ds, blocks, cache, virt);
            && (r.Ok? <==> virt < p.numSectors && (virt in cache || SectorBytes(p, ds, blocks, VirtualToPhysical(p, ds, virt).value).Some?))
            && (r.Err? ==> r.error == (if virt >= p.numSectors then Other else NotFound) && c == cache)
            && (forall v :: v in cache ==> v in c && c[v] == cache[v])
            && (forall v :: v in c && v !in cache ==> v == virt && !c[v].dirty)
  {
  }

  /** `get` changes no dirty flag and the sector it loads is clean; `get_mut`
    * leaves the sector dirty and changes no other entry's flag. */
  lemma DirtyFlags(p: Partition, ds: nat, blocks: seq<seq<byte>>, cache: map<nat, SectorEntry>, sector: nat)
    requires ds > 0
    ensures var c := GetStep(p, ds, blocks, cache, sector).1;
            && (forall v :: v in cache ==> v in c && c[v].dirty == cache[v].dirty)
            && (sector in c && sector !in cache ==> !c[sector].dirty)
    ensures var (g, c) := GetMutStep(p, ds, blocks, cache, sector);
            && (g.Ok? ==> sector in c && c[sector].dirty)
            && (forall v :: v in cache && v != sector ==> v in c && c[v].dirty == cache[v].dirty)
  {
    LoadKeepsCached(p, ds, blocks, cache, sector);
  }

  /** `get` and `get_mut` return the sector's bytes as they are (or were
    * loaded) in the cache; `get_mut` leaves the bytes themselves unchanged. */
  lemma GetReturnsCached(p: Partition, ds: nat, blocks: seq<seq<byte>>, cache: map<nat, SectorEntry>, sector: nat)
    requires ds > 0
    ensures var (g, c) := GetStep(p, ds, blocks, cache, sector);
            && (g.Ok? <==> LoadStep(p, ds, blocks, cache, sector).0.Ok? || sector in cache)
            && (g.Ok? ==> sector in c && g.value == c[sector].data)
            && (sector in cache ==> g == Ok(cache[sector].data) && c == cache)
    ensures var (g, c) := GetMutStep(p, ds, blocks, cache, sector);
            g == GetStep(p, ds, blocks, cache, sector).0 && (g.Ok? ==> c[sector].data == g.value)
  {
  }

  /** Every operation keeps the cache valid: a clean entry always matches the device. */
  lemma StepsKeepValid(p: Partition, ds: nat, blocks: seq<seq<byte>>, cache: map<nat, SectorEntry>, sector: nat, buf: seq<byte>)
    requires CacheValid(p, ds, blocks, cache)
    ensures CacheValid(p, ds, blocks, LoadStep(p, ds, blocks, cache, sector).1)
    ensures CacheValid(p, ds, blocks, GetStep(p, ds, blocks, cache, sector).1)
    ensures CacheValid(p, ds, blocks, GetMutStep(p, ds, blocks, cache, sector).1)
    ensures CacheValid(p, ds, blocks, WriteSectorStep(p, ds, blocks, cache, sector, buf).1)
  {
    var (r, c) := LoadStep(p, ds, blocks, cache, sector);
    if r.Ok? && sector !in cache {
      var phys := VirtualToPhysical(p, ds, sector).value;
      GatherLength(blocks, ds, phys, Factor(p, ds));
    }
  }

  /** A write of a whole sector followed by a read of that sector returns the
    * written bytes, and the write reports the buffer's length. */
  lemma ReadAfterWrite(p: Partition, ds: nat, blocks: seq<seq<byte>>, cache: map<nat, SectorEntry>, sector: nat, buf: seq<byte>)
    requires CacheValid(p, ds, blocks, cache) && |buf| == p.sectorSize
    ensures var (w, c) := WriteSectorStep(p, ds, blocks, cache, sector, buf);
            w.Copied? ==> w.count == |buf| && GetStep(p, ds, blocks, c, sector).0 == Ok(buf)
  {
    StepsKeepValid(p, ds, blocks, cache, sector, buf);
    var (g, c) := GetMutStep(p, ds, blocks, cache, sector);
    StepsKeepValid(p, ds, blocks, cache, sector, buf);
    if g.Ok? {
      GetReturnsCached(p, ds, blocks, cache, sector);
      assert |g.value| == p.sectorSize;
      assert Overwrite(g.value, buf) == buf;
    }
  }

  /** `CachedPartition`. */
  class CachedPartition {
    const device: Disk
    var cache: map<nat, SectorEntry>
    const partition: Partition

    ghost predicate Valid()
      reads this, device
    {
      && device.Valid()
      && partition.sectorSize >= device.blockSize
      && CacheValid(partition, device.blockSize, device.blocks, cache)
    }

    /** `new`; the source asserts that a logical sector is at least one physical sector. */
    constructor (device: Disk, partition: Partition)
      requires device.Valid() && partition.sectorSize >= device.blockSize
      ensures Valid() && this.device == device && this.partition == partition && cache == map[]
    {
      this.device := device;
      this.partition := partition;
      cache := map[];
    }

    /** `sector_size`: the logical sector size. */
    function SectorSize(): (n: nat)
      requires Valid()
      reads this, device
      ensures n >= device.blockSize > 0
    {
      partition.sectorSize
    }

    /** `load_from_disk`. */
    method LoadFromDisk(virt: nat) returns (r: Result<(), ErrorKind>)
      requires Valid()
      modifies this`cache
      ensures Valid()
      ensures (r, cache) == LoadStep(partition, device.blockSize, device.blocks, old(cache), virt)
    {
      var ds := device.blockSize;
      LoadKeepsCached(partition, ds, device.blocks, cache, virt);
      StepsKeepValid(partition, ds, device.blocks, cache, virt, []);
      var physical := VirtualToPhysical(partition, ds, virt);
      if physical.None? {
        return Err(Other);
      }
      if virt in cache {
        return Ok(());
      }
      var phys := physical.value;
      var data := ReadRun(device, partition, phys);
      if data.None? {
        return Err(NotFound);
      }
      cache := cache[virt := SectorEntry(data.value, false)];
      r := Ok(());
    }

    /** `get`. */
    method Get(sector: nat) returns (r: Result<seq<byte>, ErrorKind>)
      requires Valid()
      modifies this`cache
      ensures Valid()
      ensures (r, cache) == GetStep(partition, device.blockSize, device.blocks, old(cache), sector)
    {
      StepsKeepValid(partition, device.blockSize, device.blocks, cache, sector, []);
      if sector !in cache {
        var l := LoadFromDisk(sector);
        if l.Err? {
          return Err(l.error);
        }
      }
      r := Ok(cache[sector].data);
    }

    /** `get_mut`: the sector's bytes, with the entry marked dirty. */
    method GetMut(sector: nat) returns (r: Result<seq<byte>, ErrorKind>)
      requires Valid()
      modifies this`cache
      ensures Valid()
      ensures (r, cache) == GetMutStep(partition, device.blockSize, device.blocks, old(cache), sector)
    {
      StepsKeepValid(partition, device.blockSize, device.blocks, cache, sector, []);
      r := Get(sector);
      if r.Ok? {
        cache := cache[sector := SectorEntry(cache[sector].data, true)];
      }
    }

    /** `read_sector`: copies the cached sector into `buf`, which must be
      * exactly one logical sector long. */
    method ReadSector(sector: nat, buf: array<byte>) returns (r: Transfer)
      requires Valid()
      modifies this`cache, buf
      ensures Valid()
      ensures var (g, c) := GetStep(partition, device.blockSize, device.blocks, old(cache), sector);
              && cache == c
              && r == (if g.Err? then IoError(g.error) else if |g.value| != buf.Length then LengthPanic else Copied(|g.value|))
              && buf[..] == if r.Copied? then g.value else old(buf[..])
    {
      var g := Get(sector);
      if g.Err? {
        return IoError(g.error);
      }
      if |g.value| != buf.Length {
        return LengthPanic;
      }
      CopyInto(g.value, buf, 0);
      assert buf[..] == g.value;
      r := Copied(|g.value|);
    }

    /** `write_sector`: copies `buf` into the cached sector, never to the device. */
    method WriteSector(sector: nat, buf: seq<byte>) returns (r: Transfer)
      requires Valid()
      modifies this`cache
      ensures Valid()
      ensures (r, cache) == WriteSectorStep(partition, device.blockSize, device.blocks, old(cache), sector, buf)
    {
      StepsKeepValid(partition, device.blockSize, device.blocks, cache, sector, buf);
      var g := GetMut(sector);
      if g.Err? {
        return IoError(g.error);
      }
      var n := Min(|buf|, |g.value|);
      var data := buf[..n] + g.value[n..];
      cache := cache[sector := SectorEntry(data, true)];
      r := if |buf| > |g.value| then LengthPanic else Copied(|buf|);
    }
  }

  /** The loop of `load_from_disk`: the logical sector from physical sector
    * `phys`, read one physical sector at a time into a zeroed buffer. */
  method ReadRun(device: Disk, partition: Partition, phys: nat) returns (r: Option<seq<byte>>)
    requires device.Valid() && partition.sectorSize >= device.blockSize
    ensures r == SectorBytes(partition, device.blockSize, device.blocks, phys)
  {
    var ds := device.blockSize;
    var f := Factor(partition, ds);
    var data := new byte[partition.sectorSize](_ => 0);
    assert data[..] == Gather(device.blocks, phys, 0) + Zeroed(partition.sectorSize);
    var i, off := 0, 0;
    while i < f
      invariant 0 <= i <= f && (i > 0 ==> phys + i <= |device.blocks|)
      invariant off == i * ds && off <= partition.sectorSize
      invariant data[..] == Gather(device.blocks, phys, i) + Zeroed(partition.sectorSize - off)
    {
      NextWindow(i, f, ds);
      var ok := ReadWindow(device, data, phys, i, off, partition.sectorSize);
      if !ok {
        return None;
      }
      MulSucc(i, ds);
      i, off := i + 1, off + ds;
    }
    return Some(data[..]);
  }

  /** One pass of `load_from_disk`'s loop: physical sector `phys + i` read
    * into its window of the buffer, or a report that it is past the end. */
  method ReadWindow(device: Disk, data: array<byte>, phys: nat, i: nat, off: nat, size: nat) returns (ok: bool)
    requires device.Valid() && off == i * device.blockSize && off + device.blockSize <= size == data.Length
    requires i > 0 ==> phys + i <= |device.blocks|
    requires data[..] == Gather(device.blocks, phys, i) + Zeroed(size - off)
    modifies data
    ensures ok <==> phys + i < |device.blocks|
    ensures ok ==> data[..] == Gather(device.blocks, phys, i + 1) + Zeroed(size - (off + device.blockSize))
  {
    ghost var before := data[..];
    var read := device.ReadBlock(phys + i, data, off, device.blockSize);
    if read.Err? {
      return false;
    }
    GatherStep(device.blocks, device.blockSize, phys, i, off, size, before);
    return true;
  }

  /** The window after the `i`th stays within the first `f`. */
  lemma NextWindow(i: nat, f: nat, ds: nat)
    requires i < f
    ensures i * ds + ds <= f * ds
  {
    MulMonotone(i + 1, f, ds);
    assert (i + 1) * ds == i * ds + ds;
  }

  /** One more physical sector read into its window of the buffer. */
  lemma GatherStep(blocks: seq<seq<byte>>, ds: nat, phys: nat, i: nat, off: nat, size: nat, before: seq<byte>)
    requires ds > 0 && WellSized(blocks, ds) && phys + i < |blocks| && off == i * ds && off + ds <= size
    requires before == Gather(blocks, phys, i) + Zeroed(size - off)
    ensures off + ds <= |before|
    ensures Splice(before, off, blocks[phys + i]) == Gather(blocks, phys, i + 1) + Zeroed(size - (off + ds))
  {
    GatherLength(blocks, ds, phys, i);
    var after := Splice(before, off, blocks[phys + i]);
    var want := Gather(blocks, phys, i + 1) + Zeroed(size - (off + ds));
    assert |after| == |want|;
    forall k | 0 <= k < |after|
      ensures after[k] == want[k]
    {
    }
  }
}
