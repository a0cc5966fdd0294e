/** The bounded block cache in front of a block device
  * (lib/filesystem/src/cache.rs).  The cache is a list of `(block, data)`
  * entries.  A miss makes room, when the cache is full, by dropping the most
  * recently pushed entry, then loads the block from the device and pushes it.
  * Writes go into the cache entry only.
  *
  * As written, a dropped entry is never written back, so a write that was
  * still only in the cache is lost.  `writeBack` selects the corrected
  * eviction, which writes the dropped entry to its block first; `false`
  * reproduces the source. */
module BlockCache {
  import opened Common
  import opened Io
  import opened Device

  /** `CacheEntry`. */
  datatype CacheEntry = CacheEntry(block: nat, data: seq<byte>)

  /** The cache entries together with the contents of the device behind them. */
  datatype CacheState = CacheState(cache: seq<CacheEntry>, blocks: seq<seq<byte>>)

  /** `new`: a maximum size of zero is read as no maximum. */
  function NormalizedMax(maxSize: Option<nat>): (r: Option<nat>)
    ensures r.Some? ==> r.value > 0 && r == maxSize
    ensures r.None? <==> maxSize.None? || maxSize == Some(0)
  {
    match maxSize
    case None => None
    case Some(size) => if size == 0 then None else Some(size)
  }

  /** The `find_map` over the entries: the first entry holding `block`. */
  function Find(cache: seq<CacheEntry>, block: nat): (r: Option<nat>)
    ensures r.Some? ==> r.value < |cache| && cache[r.value].block == block
    ensures r.Some? ==> forall k :: 0 <= k < r.value ==> cache[k].block != block
    ensures r.None? <==> forall k :: 0 <= k < |cache| ==> cache[k].block != block
  {
    if |cache| == 0 then None
    else if cache[0].block == block then Some(0)
    else
      match Find(cache[1..], block)
      case None => None
      case Some(i) => Some(i + 1)
  }

  /** The cache is full: one more entry would exceed the maximum size. */
  predicate Full(cache: seq<CacheEntry>, maxSize: Option<nat>)
  {
    maxSize.Some? && |cache| == maxSize.value && |cache| > 0
  }

  /** What the state keeps between calls: every entry is a block of the
    * device, of the device's block size, no block is cached twice, and there
    * are never more entries than the maximum size. */
  ghost predicate CacheValid(s: CacheState, maxSize: Option<nat>, blockSize: nat)
  {
    && WellSized(s.blocks, blockSize)
    && (forall i :: 0 <= i < |s.cache| ==> s.cache[i].block < |s.blocks| && |s.cache[i].data| == blockSize)
    && (forall i, j :: 0 <= i < j < |s.cache| ==> s.cache[i].block != s.cache[j].block)
    && (maxSize.Some? ==> |s.cache| <= maxSize.value)
  }

  /** `make_room_in_cache`: when the cache is full the last entry, the most
    * recently loaded one, is popped; with `writeBack` its data is first
    * written to its block. */
  function Evict(s: CacheState, maxSize: Option<nat>, writeBack: bool): (r: CacheState)
    ensures Full(s.cache, maxSize) ==> r.cache == s.cache[..|s.cache| - 1]
    ensures !Full(s.cache, maxSize) ==> r == s
    ensures !writeBack ==> r.blocks == s.blocks
  {
    if Full(s.cache, maxSize) then
      var last := s.cache[|s.cache| - 1];
      var blocks := if writeBack && last.block < |s.blocks| then s.blocks[last.block := last.data] else s.blocks;
      CacheState(s.cache[..|s.cache| - 1], blocks)
    else s
  }

  /** `get_cache_entry_or_load`: the index of the entry for `block`, loading
    * it on a miss.  The room is made before the device is read, so a failed
    * read still drops an entry. */
  function Load(s: CacheState, maxSize: Option<nat>, writeBack: bool, block: nat): (r: (Result<nat, ErrorKind>, CacheState))
  {
    match Find(s.cache, block)
    case Some(i) => (Ok(i), s)
    case None =>
      var t := Evict(s, maxSize, writeBack);
      if block < |t.blocks| then (Ok(|t.cache|), CacheState(t.cache + [CacheEntry(block, t.blocks[block])], t.blocks))
      else (Err(NotFound), t)
  }

  /** The write into the entry at `i` (`copy_from_slice` on its data). */
  function Write(s: CacheState, i: nat, data: seq<byte>): (r: CacheState)
    requires i < |s.cache|
  {
    CacheState(s.cache[i := CacheEntry(s.cache[i].block, data)], s.blocks)
  }

  /** What a read of `block` through the cache returns: the cached data when
    * the block is cached, the device's block otherwise. */
  function View(s: CacheState, block: nat): (r: seq<byte>)
    requires block < |s.blocks|
  {
    match Find(s.cache, block)
    case Some(i) => s.cache[i].data
    case None => s.blocks[block]
  }

  /** Every entry holds what the device holds for its block. */
  ghost predicate Clean(s: CacheState)
  {
    forall i :: 0 <= i < |s.cache| ==> s.cache[i].block < |s.blocks| && s.cache[i].data == s.blocks[s.cache[i].block]
  }

  /** Making room keeps the invariant and leaves room for one more entry. */
  lemma EvictValid(s: CacheState, maxSize: Option<nat>, writeBack: bool, blockSize: nat)
    requires CacheValid(s, maxSize, blockSize) && maxSize != Some(0)
    ensures var t := Evict(s, maxSize, writeBack);
            && CacheValid(t, maxSize, blockSize) && |t.blocks| == |s.blocks|
            && (maxSize.Some? ==> |t.cache| < maxSize.value)
            && (forall i :: 0 <= i < |t.cache| ==> t.cache[i] == s.cache[i])
  {
  }

  /** A load succeeds exactly when the block exists (or is cached), returns
    * the index of an entry holding the block, keeps the invariant, and never
    * exceeds the maximum size. */
  lemma LoadValid(s: CacheState, maxSize: Option<nat>, writeBack: bool, blockSize: nat, block: nat)
    requires CacheValid(s, maxSize, blockSize) && maxSize != Some(0)
    ensures var (r, t) := Load(s, maxSize, writeBack, block);
            && CacheValid(t, maxSize, blockSize) && |t.blocks| == |s.blocks|
            && (r.Ok? <==> block < |s.blocks|)
            && (r.Err? ==> r.error == NotFound)
            && (r.Ok? ==> Find(t.cache, block) == Some(r.value))
  {
    match Find(s.cache, block)
    case Some(i) =>
    case None =>
      var t := Evict(s, maxSize, writeBack);
      EvictValid(s, maxSize, writeBack, blockSize);
      if block < |t.blocks| {
        assert forall k :: 0 <= k < |t.cache| ==> t.cache[k].block != block by {
          assert forall k :: 0 <= k < |t.cache| ==> t.cache[k] == s.cache[k];
        }
        AppendValid(t, maxSize, blockSize, block);
      }
  }

  /** A miss evicts, then loads the block if the device has it: the new entry
    * goes at the end and the invariant is kept. */
  lemma LoadMiss(s: CacheState, maxSize: Option<nat>, writeBack: bool, blockSize: nat, block: nat)
    requires CacheValid(s, maxSize, blockSize) && maxSize != Some(0) && Find(s.cache, block).None?
    ensures var t := Evict(s, maxSize, writeBack);
            && CacheValid(t, maxSize, blockSize) && |t.blocks| == |s.blocks|
            && (block >= |t.blocks| ==> Load(s, maxSize, writeBack, block) == (Err(NotFound), t))
            && (block < |t.blocks| ==>
                  var u := CacheState(t.cache + [CacheEntry(block, t.blocks[block])], t.blocks);
                  Load(s, maxSize, writeBack, block) == (Ok(|t.cache| as nat), u) && CacheValid(u, maxSize, blockSize))
  {
    var t := Evict(s, maxSize, writeBack);
    EvictValid(s, maxSize, writeBack, blockSize);
    if block < |t.blocks| {
      assert forall k :: 0 <= k < |t.cache| ==> t.cache[k].block != block by {
        assert forall k :: 0 <= k < |t.cache| ==> t.cache[k] == s.cache[k];
      }
      AppendValid(t, maxSize, blockSize, block);
    }
  }

  /** Splicing a whole-length piece in at the start gives the piece. */
  lemma SpliceWhole(s: seq<byte>, piece: seq<byte>)
    requires |piece| == |s|
    ensures Splice(s, 0, piece) == piece
  {
    assert s[..0] + piece + s[|piece|..] == piece;
  }

  /** Appending a block the cache does not hold, below the maximum size,
    * keeps the invariant and puts the block at the end. */
  lemma AppendValid(t: CacheState, maxSize: Option<nat>, blockSize: nat, block: nat)
    requires CacheValid(t, maxSize, blockSize) && block < |t.blocks|
    requires maxSize.Some? ==> |t.cache| < maxSize.value
    requires forall k :: 0 <= k < |t.cache| ==> t.cache[k].block != block
    ensures var u := CacheState(t.cache + [CacheEntry(block, t.blocks[block])], t.blocks);
            CacheValid(u, maxSize, blockSize) && Find(u.cache, block) == Some(|t.cache|)
  {
    var c := t.cache + [CacheEntry(block, t.blocks[block])];
    FindFirst(c, block, |t.cache|);
  }

  /** A hit changes nothing; a miss on a full cache drops the most recently
    * loaded entry and keeps every older one in place. */
  lemma LoadDropsNewest(s: CacheState, maxSize: Option<nat>, writeBack: bool, block: nat)
    requires block < |s.blocks|
    ensures Find(s.cache, block).Some? ==> Load(s, maxSize, writeBack, block).1 == s
    ensures Find(s.cache, block).None? && Full(s.cache, maxSize) ==>
              var t := Load(s, maxSize, writeBack, block).1;
              |t.cache| == |s.cache| && t.cache[..|t.cache| - 1] == s.cache[..|s.cache| - 1]
              && t.cache[|t.cache| - 1].block == block
    ensures Find(s.cache, block).None? && !Full(s.cache, maxSize) ==>
              var t := Load(s, maxSize, writeBack, block).1;
              t.cache == s.cache + [CacheEntry(block, s.blocks[block])]
  {
  }

  /** With write-back, a load changes what no read returns: every block reads
    * the same before and after. */
  lemma LoadKeepsView(s: CacheState, maxSize: Option<nat>, block: nat, blockSize: nat)
    requires CacheValid(s, maxSize, blockSize) && maxSize != Some(0)
    ensures var t := Load(s, maxSize, true, block).1;
            |t.blocks| == |s.blocks| && forall b :: 0 <= b < |s.blocks| ==> View(t, b) == View(s, b)
  {
    var t := Load(s, maxSize, true, block).1;
    LoadValid(s, maxSize, true, blockSize, block);
    if Find(s.cache, block).None? {
      var e := Evict(s, maxSize, true);
      forall b | 0 <= b < |s.blocks|
        ensures View(t, b) == View(s, b)
      {
        EvictKeepsView(s, maxSize, blockSize, b);
        if block >= |e.blocks| {
          assert t == e;
        } else if b != block {
          assert Find(t.cache, b) == Find(e.cache, b) by {
            FindAppend(e.cache, CacheEntry(block, e.blocks[block]), b);
          }
        } else {
          assert Find(e.cache, b).None?;
        }
      }
    }
  }

  /** Write-back eviction keeps the view of every block. */
  lemma EvictKeepsView(s: CacheState, maxSize: Option<nat>, blockSize: nat, b: nat)
    requires CacheValid(s, maxSize, blockSize) && maxSize != Some(0) && b < |s.blocks|
    ensures b < |Evict(s, maxSize, true).blocks| && View(Evict(s, maxSize, true), b) == View(s, b)
  {
    var t := Evict(s, maxSize, true);
    if Full(s.cache, maxSize) {
      var n := |s.cache| - 1;
      var last := s.cache[n];
      assert t.cache == s.cache[..n];
      if b == last.block {
        assert Find(t.cache, b).None?;
        FindFirst(s.cache, b, n);
      } else {
        FindPrefix(s.cache, n, b);
      }
    }
  }

  /** Looking past an appended entry for another block finds what the prefix finds. */
  lemma FindAppend(cache: seq<CacheEntry>, e: CacheEntry, b: nat)
    requires e.block != b
    ensures Find(cache + [e], b) == Find(cache, b)
  {
    var c := cache + [e];
    if Find(cache, b).None? {
      assert forall k :: 0 <= k < |c| ==> c[k].block != b;
    } else {
      assert c[Find(cache, b).value] == cache[Find(cache, b).value];
    }
  }

  /** Dropping the entry at `n`, the last one, leaves every other block's lookup unchanged. */
  lemma FindPrefix(cache: seq<CacheEntry>, n: nat, b: nat)
    requires n + 1 == |cache| && cache[n].block != b
    ensures Find(cache[..n], b) == Find(cache, b)
  {
    assert cache == cache[..n] + [cache[n]];
    FindAppend(cache[..n], cache[n], b);
  }

  /** As written (no write-back), a load still keeps every view when no entry
    * holds data the device lacks: eviction loses only writes. */
  lemma CleanLoadKeepsView(s: CacheState, maxSize: Option<nat>, block: nat, blockSize: nat)
    requires CacheValid(s, maxSize, blockSize) && maxSize != Some(0) && Clean(s)
    ensures var t := Load(s, maxSize, false, block).1;
            && t.blocks == s.blocks && Clean(t)
            && forall b :: 0 <= b < |s.blocks| ==> View(t, b) == View(s, b)
  {
    var t := Load(s, maxSize, false, block).1;
    forall b | 0 <= b < |s.blocks|
      ensures View(t, b) == View(s, b)
    {
      CleanView(s, b);
      LoadValid(s, maxSize, false, blockSize, block);
      CleanView(t, b);
    }
  }

  /** A clean cache reads like the device. */
  lemma CleanView(s: CacheState, b: nat)
    requires Clean(s) && b < |s.blocks|
    ensures View(s, b) == s.blocks[b]
  {
  }

  /** Writing into the entry of `block` makes `block` read back `data` and
    * leaves every other block's view unchanged. */
  lemma WriteView(s: CacheState, i: nat, data: seq<byte>, b: nat)
    requires i < |s.cache| && b < |s.blocks|
    requires forall j :: 0 <= j < |s.cache| && j != i ==> s.cache[j].block != s.cache[i].block
    ensures View(Write(s, i, data), b) == if b == s.cache[i].block then data else View(s, b)
  {
    var t := Write(s, i, data);
    if b == s.cache[i].block {
      FindFirst(s.cache, b, i);
      assert forall k :: 0 <= k < i ==> t.cache[k].block == s.cache[k].block;
      FindFirst(t.cache, b, i);
    } else {
      FindOther(s.cache, i, data, b);
    }
  }

  /** Changing the data of an entry for another block leaves a lookup unchanged. */
  lemma FindOther(cache: seq<CacheEntry>, i: nat, data: seq<byte>, b: nat)
    requires i < |cache| && cache[i].block != b
    ensures Find(cache[i := CacheEntry(cache[i].block, data)], b) == Find(cache, b)
  {
    var c := cache[i := CacheEntry(cache[i].block, data)];
    assert forall k :: 0 <= k < |c| ==> c[k].block == cache[k].block;
  }

  /** A read after a successful write of `data` to `block` returns `data`,
    * with or without write-back. */
  lemma ReadAfterWrite(s: CacheState, maxSize: Option<nat>, writeBack: bool, blockSize: nat, block: nat, data: seq<byte>)
    requires CacheValid(s, maxSize, blockSize) && maxSize != Some(0)
    requires block < |s.blocks| && |data| == blockSize
    ensures var (r1, s1) := Load(s, maxSize, writeBack, block);
            r1.Ok? && r1.value < |s1.cache| &&
            var s2 := Write(s1, r1.value, data);
            var (r2, s3) := Load(s2, maxSize, writeBack, block);
            r2.Ok? && r2.value < |s3.cache| && s3.cache[r2.value].data == data
  {
    var (r1, s1) := Load(s, maxSize, writeBack, block);
    LoadValid(s, maxSize, writeBack, blockSize, block);
    var s2 := Write(s1, r1.value, data);
    assert Find(s2.cache, block) == Some(r1.value) by {
      assert s2.cache[r1.value].block == block;
      assert forall k :: 0 <= k < |s2.cache| ==> s2.cache[k].block == s1.cache[k].block;
    }
  }

  /** As written, a write is lost when its entry is evicted: with room for one
    * entry, write 7 into block 0, then read block 1, and block 0 reads 0 again. */
  lemma EvictionLosesWrite()
    ensures var s := CacheState([CacheEntry(0, [0])], [[0], [0]]);
            var (r1, s1) := Load(s, Some(1), false, 0);
            r1 == Ok(0) &&
            var s2 := Write(s1, 0, [7]);
            var s3 := Load(s2, Some(1), false, 1).1;
            View(s2, 0) == [7] && View(s3, 0) == [0]
  {
    var s2 := CacheState([CacheEntry(0, [7])], [[0], [0]]);
    var s3 := Load(s2, Some(1), false, 1).1;
    assert s3 == CacheState([CacheEntry(1, [0])], [[0], [0]]);
    assert Find(s3.cache, 0).None?;
  }

  /** The same sequence with write-back: block 0 still reads 7. */
  lemma WriteBackKeepsWrite()
    ensures var s := CacheState([CacheEntry(0, [0])], [[0], [0]]);
            var s2 := Write(Load(s, Some(1), true, 0).1, 0, [7]);
            var s3 := Load(s2, Some(1), true, 1).1;
            View(s3, 0) == [7] && s3.blocks[0] == [7]
  {
    var s2 := CacheState([CacheEntry(0, [7])], [[0], [0]]);
    var s3 := Load(s2, Some(1), true, 1).1;
    assert s3 == CacheState([CacheEntry(1, [0])], [[7], [0]]);
    assert Find(s3.cache, 0).None?;
  }

  /** `CachedBlockDevice`. */
  class CachedBlockDevice {
    const device: Disk
    var cache: seq<CacheEntry>
    const maxSize: Option<nat>
    /** `false` as in the source; `true` writes evicted entries back. */
    const writeBack: bool

    ghost function State(): CacheState
      reads this, device
    {
      CacheState(cache, device.blocks)
    }

    ghost predicate Valid()
      reads this, device
    {
      device.Valid() && maxSize != Some(0) && CacheValid(State(), maxSize, device.blockSize)
    }

    /** `new`: an empty cache over `device`. */
    constructor (device: Disk, maxSize: Option<nat>, writeBack: bool)
      requires device.Valid()
      ensures Valid() && this.device == device && this.maxSize == NormalizedMax(maxSize)
      ensures this.writeBack == writeBack && cache == []
    {
      this.device := device;
      this.maxSize := NormalizedMax(maxSize);
      this.writeBack := writeBack;
      cache := [];
    }

    /** `block_size`: the device's. */
    function BlockSize(): (n: nat)
      requires Valid()
      reads this, device
      ensures n > 0 && n == device.blockSize
    {
      device.blockSize
    }

    /** The `find_map` loop. */
    method FindEntry(block: nat) returns (r: Option<nat>)
      ensures r == Find(cache, block)
    {
      var i := 0;
      while i < |cache|
        invariant 0 <= i <= |cache|
        invariant forall k :: 0 <= k < i ==> cache[k].block != block
      {
        if cache[i].block == block {
          FindFirst(cache, block, i);
          return Some(i);
        }
        i := i + 1;
      }
      return None;
    }

    /** `make_room_in_cache`. */
    method MakeRoom()
      requires Valid()
      modifies this`cache, device`blocks
      ensures Valid()
      ensures State() == Evict(old(State()), maxSize, writeBack)
    {
      if maxSize.Some? && |cache| == maxSize.value && |cache| > 0 {
        var last := cache[|cache| - 1];
        if writeBack {
          var _ := device.WriteBlock(last.block, last.data);
        }
        cache := cache[..|cache| - 1];
      }
      EvictValid(old(State()), maxSize, writeBack, device.blockSize);
    }

    /** `get_cache_entry_or_load`: the index of the entry now holding `block`. */
    method GetEntryOrLoad(block: nat) returns (r: Result<nat, ErrorKind>)
      requires Valid()
      modifies this`cache, device`blocks
      ensures Valid()
      ensures (r, State()) == Load(old(State()), maxSize, writeBack, block)
    {
      ghost var s := State();
      var i := FindEntry(block);
      if i.Some? {
        return Ok(i.value);
      }
      MakeRoom();
      LoadMiss(s, maxSize, writeBack, device.blockSize, block);
      EvictValid(s, maxSize, writeBack, device.blockSize);
      assert forall k :: 0 <= k < |cache| ==> cache[k].block != block by {
        assert forall k :: 0 <= k < |cache| ==> cache[k] == s.cache[k];
      }
      r := Fetch(block);
    }

    /** The miss path after `make_room_in_cache`: read the block from the
      * device into a new entry at the end of the cache. */
    method Fetch(block: nat) returns (r: Result<nat, ErrorKind>)
      requires Valid() && (maxSize.Some? ==> |cache| < maxSize.value)
      requires forall k :: 0 <= k < |cache| ==> cache[k].block != block
      modifies this`cache
      ensures Valid()
      ensures block < |device.blocks| ==> r == Ok(|old(cache)|) && cache == old(cache) + [CacheEntry(block, device.blocks[block])]
      ensures block >= |device.blocks| ==> r == Err(NotFound) && cache == old(cache)
    {
      var data := new byte[device.blockSize](_ => 0);
      ghost var zero := data[..];
      var read := device.ReadBlock(block, data, 0, device.blockSize);
      if read.Err? {
        return Err(read.error);
      }
      SpliceWhole(zero, device.blocks[block]);
      AppendValid(State(), maxSize, device.blockSize, block);
      cache := cache + [CacheEntry(block, data[..])];
      r := Ok(|cache| - 1);
    }

    /** `read_block`: copies what a read of `block` sees into `data`. */
    method ReadBlock(block: nat, data: array<byte>) returns (r: Result<(), ErrorKind>)
      requires Valid()
      modifies this`cache, device`blocks, data
      ensures Valid()
      ensures data.Length != device.blockSize ==> r == Err(Unsupported) && unchanged(this, device, data)
      ensures data.Length == device.blockSize ==>
                var (l, s) := Load(old(State()), maxSize, writeBack, block);
                State() == s && (r.Ok? <==> l.Ok?) && (r.Err? ==> r.error == l.error)
      ensures data.Length == device.blockSize ==> (r.Ok? <==> block < |old(device.blocks)|)
      ensures r.Ok? ==> data[..] == View(old(State()), block)
      ensures r.Err? ==> data[..] == old(data[..])
    {
      if data.Length != device.blockSize {
        return Err(Unsupported);
      }
      ghost var s := State();
      LoadValid(s, maxSize, writeBack, device.blockSize, block);
      var i := GetEntryOrLoad(block);
      if i.Err? {
        return Err(i.error);
      }
      CopyInto(cache[i.value].data, data, 0);
      assert data[..] == cache[i.value].data;
      r := Ok(());
    }

    /** `write_block`: writes `data` into the cache entry of `block`; the
      * device itself is written only by a write-back eviction. */
    method WriteBlock(block: nat, data: seq<byte>) returns (r: Result<(), ErrorKind>)
      requires Valid()
      modifies this`cache, device`blocks
      ensures Valid()
      ensures !writeBack ==> device.blocks == old(device.blocks)
      ensures |data| != device.blockSize ==> r == Err(Unsupported) && unchanged(this, device)
      ensures |data| == device.blockSize ==>
                var (l, s) := Load(old(State()), maxSize, writeBack, block);
                && (r.Ok? <==> l.Ok?) && (r.Err? ==> r.error == l.error)
                && State() == if l.Ok? && l.value < |s.cache| then Write(s, l.value, data) else s
      ensures |data| == device.blockSize ==> (r.Ok? <==> block < |old(device.blocks)|)
      ensures r.Ok? ==> View(State(), block) == data
    {
      if |data| != device.blockSize {
        return Err(Unsupported);
      }
      ghost var s := State();
      LoadValid(s, maxSize, writeBack, device.blockSize, block);
      var i := GetEntryOrLoad(block);
      if i.Err? {
        return Err(i.error);
      }
      ghost var before := State();
      cache := cache[i.value := CacheEntry(cache[i.value].block, data)];
      WriteView(before, i.value, data, block);
      r := Ok(());
    }
  }

  /** The first index whose entry holds `block` is what `Find` returns. */
  lemma FindFirst(cache: seq<CacheEntry>, block: nat, i: nat)
    requires i < |cache| && cache[i].block == block
    requires forall k :: 0 <= k < i ==> cache[k].block != block
    ensures Find(cache, block) == Some(i)
  {
  }
}
