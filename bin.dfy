/** The buddy ("bin") allocator of lib/allocator/src/bin.rs.  Bin `n` hands
  * out blocks of `2^(n + 3)` bytes; each bin is a free list of block
  * addresses.  The free lists are `seq<nat>` with the head at index 0: the
  * list's `push` prepends and `remove` drops the first equal node
  * (lib/allocator/src/linked_list.rs is not part of this model). */
module Bins {
  import opened Common
  import opened Align

  const BinCount: nat := 20

  /** `log_two`: `None` for zero, otherwise the floor of the base-2 logarithm. */
  function LogTwo(n: nat): (r: Option<nat>)
    ensures r.None? <==> n == 0
    ensures r.Some? ==> Pow2(r.value) <= n < Pow2(r.value + 1)
  {
    if n == 0 then None
    else if n == 1 then Some(0)
    else Some(LogTwo(n / 2).value + 1)
  }

  /** `bin_size`: the block size of a bin, `1 << (3 + bin)`. */
  function BinSize(bin: nat): (r: nat)
    ensures r >= 8 && r % 8 == 0
  {
    Pow2Add(3, bin);
    Pow2Facts();
    MulDivCancel(Pow2(bin), 8);
    MulAtLeast(Pow2(bin), 8);
    Pow2(3 + bin)
  }

  lemma BinSizePow(bin: nat)
    ensures PowerOfTwo(BinSize(bin)) && BinSize(bin + 1) == 2 * BinSize(bin)
  {
    PowerOfTwoPow2(3 + bin);
  }

  /** `size_to_bin`: sizes up to 8 use bin 0; an exact power `2^log` uses
    * bin `log - 3`, anything else bin `log - 2`. */
  function SizeToBin(size: nat): (r: Option<nat>)
    ensures r.Some?
  {
    if size <= 8 then Some(0)
    else
      var log := LogTwo(size).value;
      LogAboveEight(size);
      if size == Pow2(log) then Some(log - 3) else Some(log - 2)
  }

  lemma LogAboveEight(size: nat)
    requires size > 8
    ensures LogTwo(size).value >= 3
  {
    var log := LogTwo(size).value;
    Pow2Facts();
    if log < 3 {
      Pow2Monotone(log + 1, 3);
    }
  }

  /** The bin `size_to_bin` picks is the smallest whose blocks hold `size` bytes. */
  lemma SizeToBinSmallest(size: nat)
    ensures BinSize(SizeToBin(size).value) >= size
    ensures SizeToBin(size).value > 0 ==> BinSize(SizeToBin(size).value - 1) < size
  {
    if size <= 8 {
      BinZero();
    } else {
      var log := LogTwo(size).value;
      LogAboveEight(size);
      var bin := SizeToBin(size).value;
      assert Pow2(log) <= size < Pow2(log + 1);
      if size == Pow2(log) {
        assert bin == log - 3 && BinSize(bin) == Pow2(log);
        if log == 3 {
          Pow2Facts();
        }
        assert BinSize(bin - 1) == Pow2(log - 1);
      } else {
        assert bin == log - 2 && BinSize(bin) == Pow2(log + 1);
        assert BinSize(bin - 1) == Pow2(log);
      }
    }
  }

  lemma BinZero()
    ensures BinSize(0) == 8
  {
    Pow2Facts();
  }

  /** `log_two` of an exact power `2^k` is `k`. */
  lemma {:induction false} LogTwoPow2(k: nat)
    ensures LogTwo(Pow2(k)) == Some(k)
  {
    if k > 0 {
      LogTwoPow2(k - 1);
      assert Pow2(k) / 2 == Pow2(k - 1);
    }
  }

  /** An exact power of two `2^k` with `k >= 3` goes to bin `k - 3`. */
  lemma SizeToBinExact(k: nat)
    requires k >= 3
    ensures SizeToBin(Pow2(k)) == Some(k - 3)
  {
    var n := Pow2(k);
    Pow2Monotone(3, k);
    Pow2Facts();
    if n > 8 {
      LogTwoPow2(k);
      assert LogTwo(n).value == k;
    } else {
      Pow2Injective(k, 3);
    }
  }

  /** `is_aligned`: `align_up` leaves the pointer where it is. */
  function IsAligned(p: nat, align: nat): (r: bool)
    requires PowerOfTwo(align)
    ensures r <==> p % align == 0
  {
    AlignedFixed(p, align);
    AlignUp(p, align) == p
  }

  /** `k * bs` is `2 * bs`-aligned exactly when `k` is even. */
  lemma ParityAligned(k: nat, bs: nat)
    requires bs > 0
    ensures (k * bs) % (2 * bs) == 0 <==> k % 2 == 0
    ensures (k * bs) % (2 * bs) == 0 ==> (k * bs) / (2 * bs) == k / 2
  {
    var m, r := k / 2, k % 2;
    assert k * bs == m * (2 * bs) + r * bs;
    DivModUnique(m, r * bs, 2 * bs);
  }

  /** A multiple of a bin's size is a multiple of every smaller bin's size. */
  lemma CoarserAligned(x: nat, b: nat, c: nat)
    requires b <= c && x % BinSize(c) == 0
    ensures x % BinSize(b) == 0
  {
    Pow2Add(3 + b, c - b);
    var k := x / BinSize(c);
    assert x == (k * Pow2(c - b)) * BinSize(b);
    MulDivCancel(k * Pow2(c - b), BinSize(b));
  }

  /** `buddy`: the other half of the block of the next bin up, found by
    * whether the block is aligned to twice its size. */
  function Buddy(p: nat, bin: nat): (r: nat)
    requires p % BinSize(bin) == 0
  {
    var bs := BinSize(bin);
    BinSizePow(bin + 1);
    if IsAligned(p, 2 * bs) then p + bs
    else
      NotDoubleAligned(p, bs);
      p - bs
  }

  /** A multiple of `bs` that is not a multiple of `2 * bs` is at least `bs`. */
  lemma NotDoubleAligned(p: nat, bs: nat)
    requires bs > 0 && p % bs == 0 && p % (2 * bs) != 0
    ensures p >= bs
  {
    if p < bs {
      DivModUnique(0, p, bs);
      DivModUnique(0, 0, 2 * bs);
      assert false;
    }
  }

  /** An even multiple of `bs`: aligned to `2 * bs`, and the next block up is not. */
  lemma EvenBlock(q: nat, bs: nat)
    requires bs > 0 && q % 2 == 0
    ensures (q * bs) % (2 * bs) == 0 && (q * bs + bs) % (2 * bs) != 0 && (q * bs + bs) % bs == 0
  {
    var m := q / 2;
    assert q * bs == m * (2 * bs);
    MulDivCancel(m, 2 * bs);
    DivModUnique(m, bs, 2 * bs);
    assert q * bs + bs == (q + 1) * bs;
    MulDivCancel(q + 1, bs);
  }

  /** An odd multiple of `bs`: not aligned to `2 * bs`, and the block below is. */
  lemma OddBlock(q: nat, bs: nat)
    requires bs > 0 && q % 2 == 1
    ensures (q * bs) % (2 * bs) != 0 && q * bs >= bs
    ensures (q * bs - bs) % (2 * bs) == 0 && (q * bs - bs) % bs == 0
  {
    var m := q / 2;
    assert q * bs == m * (2 * bs) + bs;
    DivModUnique(m, bs, 2 * bs);
    assert q * bs - bs == m * (2 * bs);
    MulDivCancel(m, 2 * bs);
    assert q * bs - bs == (q - 1) * bs;
    MulDivCancel(q - 1, bs);
  }

  /** Buddies come in pairs one block apart; the lower one is aligned to the
    * next bin's size, so merging them gives a block of that bin. */
  lemma BuddyPair(p: nat, bin: nat)
    requires p % BinSize(bin) == 0
    ensures Buddy(p, bin) % BinSize(bin) == 0
    ensures Buddy(Buddy(p, bin), bin) == p
    ensures Buddy(p, bin) == p + BinSize(bin) || Buddy(p, bin) + BinSize(bin) == p
    ensures Min(p, Buddy(p, bin)) % BinSize(bin + 1) == 0
  {
    var bs := BinSize(bin);
    BinSizePow(bin);
    var q := p / bs;
    assert p == q * bs;
    if q % 2 == 0 {
      EvenBlock(q, bs);
      assert Buddy(p, bin) == p + bs;
    } else {
      OddBlock(q, bs);
      assert Buddy(p, bin) == p - bs;
    }
  }

  // ---------------------------------------------------------------- carving

  /** The part of `[start, end)` that one bin can cover: from `lo`, the
    * region start aligned up, to `hi`, the region end aligned down, `count`
    * blocks in all. */
  datatype Cut = Cut(lo: nat, hi: nat, count: nat)

  /** Lines 105-107 and 116 of `allocate_bins`: `lo` is the least multiple of
    * the bin size at or above `start`, `hi` the greatest at or below `end`. */
  function Middle(bin: nat, start: nat, end: nat): (c: Cut)
    ensures c.lo >= start && c.lo % BinSize(bin) == 0 && c.lo - start < BinSize(bin)
    ensures c.hi <= end && c.hi % BinSize(bin) == 0 && end - c.hi < BinSize(bin)
    ensures c.lo < c.hi ==> c.count >= 1 && c.count * BinSize(bin) == c.hi - c.lo
  {
    var bs := BinSize(bin);
    BinSizePow(bin);
    var lo := AlignUp(start, bs);
    var hi := AlignDown(end, bs);
    if lo < hi then
      DiffMultiple(lo, hi, bs);
      Cut(lo, hi, (hi - lo) / bs)
    else Cut(lo, hi, 0)
  }

  /** A free block: its bin and its address. */
  datatype Block = Block(bin: nat, addr: nat)

  function Size(b: Block): nat
  {
    BinSize(b.bin)
  }

  predicate Apart(x: Block, y: Block)
  {
    x.addr + Size(x) <= y.addr || y.addr + Size(y) <= x.addr
  }

  /** Every block lies inside `[lo, hi)`. */
  predicate Within(blocks: seq<Block>, lo: nat, hi: nat)
  {
    forall i :: 0 <= i < |blocks| ==> lo <= blocks[i].addr && blocks[i].addr + Size(blocks[i]) <= hi
  }

  /** No two blocks overlap. */
  predicate Disjoint(blocks: seq<Block>)
  {
    forall i, j :: 0 <= i < j < |blocks| ==> Apart(blocks[i], blocks[j])
  }

  /** Every block is aligned to its own size. */
  predicate AlignedBlocks(blocks: seq<Block>)
  {
    forall i :: 0 <= i < |blocks| ==> blocks[i].addr % Size(blocks[i]) == 0
  }

  /** Every block belongs to one of the first `n` bins. */
  predicate InBins(blocks: seq<Block>, n: nat)
  {
    forall i :: 0 <= i < |blocks| ==> blocks[i].bin < n
  }

  function Total(blocks: seq<Block>): nat
  {
    if |blocks| == 0 then 0 else Total(blocks[..|blocks| - 1]) + Size(blocks[|blocks| - 1])
  }

  lemma {:induction false} TotalAppend(a: seq<Block>, b: seq<Block>)
    ensures Total(a + b) == Total(a) + Total(b)
    decreases |b|
  {
    if |b| == 0 {
      assert a + b == a;
    } else {
      assert (a + b)[..|a + b| - 1] == a + b[..|b| - 1];
      TotalAppend(a, b[..|b| - 1]);
    }
  }

  /** Two block lists in disjoint ranges concatenate into one. */
  lemma ConcatProps(a: seq<Block>, b: seq<Block>, lo: nat, mid: nat, hi: nat)
    requires lo <= mid <= hi && Within(a, lo, mid) && Within(b, mid, hi)
    requires Disjoint(a) && Disjoint(b) && AlignedBlocks(a) && AlignedBlocks(b)
    ensures Within(a + b, lo, hi) && Disjoint(a + b) && AlignedBlocks(a + b)
  {
    var c := a + b;
    forall i, j | 0 <= i < j < |c|
      ensures Apart(c[i], c[j])
    {
      if j < |a| {
        assert Apart(a[i], a[j]);
      } else if i >= |a| {
        assert Apart(b[i - |a|], b[j - |a|]);
      } else {
        assert c[i] == a[i] && c[j] == b[j - |a|];
      }
    }
    assert forall i :: 0 <= i < |c| ==> c[i] == (if i < |a| then a[i] else b[i - |a|]);
  }

  /** `count` consecutive blocks of one bin from `from` upwards, in the order
    * the refill loop pushes them. */
  function Run(bin: nat, from: nat, count: nat): (r: seq<Block>)
    ensures |r| == count
    ensures forall k :: 0 <= k < count ==> r[k] == Block(bin, from + BinSize(bin) * k)
  {
    if count == 0 then [] else Run(bin, from, count - 1) + [Block(bin, from + BinSize(bin) * (count - 1))]
  }

  lemma MultipleStep(from: nat, bs: nat, k: nat)
    requires bs > 0 && from % bs == 0
    ensures (from + bs * k) % bs == 0 && from + bs * k + bs == from + bs * (k + 1)
  {
    var q := from / bs;
    assert from + bs * k == (q + k) * bs;
    MulDivCancel(q + k, bs);
  }

  /** A run is aligned, disjoint and exactly `count` blocks long in bytes. */
  lemma RunProps(bin: nat, from: nat, count: nat)
    requires from % BinSize(bin) == 0
    ensures Within(Run(bin, from, count), from, from + BinSize(bin) * count)
    ensures Disjoint(Run(bin, from, count)) && AlignedBlocks(Run(bin, from, count))
    ensures Total(Run(bin, from, count)) == BinSize(bin) * count
  {
    RunPlaced(bin, from, count);
    RunTotal(bin, from, count);
  }

  lemma {:induction false} RunPlaced(bin: nat, from: nat, count: nat)
    requires from % BinSize(bin) == 0
    ensures Within(Run(bin, from, count), from, from + BinSize(bin) * count)
    ensures Disjoint(Run(bin, from, count)) && AlignedBlocks(Run(bin, from, count))
  {
    if count > 0 {
      var bs := BinSize(bin);
      var a := from + bs * (count - 1);
      var r0 := Run(bin, from, count - 1);
      var last := [Block(bin, a)];
      assert Run(bin, from, count) == r0 + last;
      RunPlaced(bin, from, count - 1);
      MultipleStep(from, bs, count - 1);
      assert a + bs == from + bs * count;
      RunLast(bin, a);
      ConcatProps(r0, last, from, a, a + bs);
    }
  }

  lemma {:induction false} RunTotal(bin: nat, from: nat, count: nat)
    ensures Total(Run(bin, from, count)) == BinSize(bin) * count
  {
    if count > 0 {
      var bs := BinSize(bin);
      var a := from + bs * (count - 1);
      var r0 := Run(bin, from, count - 1);
      var last := [Block(bin, a)];
      assert Run(bin, from, count) == r0 + last;
      RunTotal(bin, from, count - 1);
      TotalAppend(r0, last);
      assert Total(last) == bs;
      assert bs * (count - 1) + bs == bs * count;
    }
  }

  lemma RunLast(bin: nat, a: nat)
    requires a % BinSize(bin) == 0
    ensures Within([Block(bin, a)], a, a + BinSize(bin)) && Disjoint([Block(bin, a)])
    ensures AlignedBlocks([Block(bin, a)]) && Total([Block(bin, a)]) == BinSize(bin)
  {
    assert [Block(bin, a)][..0] == [];
  }

  /** `allocate_bins` with the bin-0 guard applied to both refill paths: from
    * bin `bin` down, the aligned middle of `[start, end)` is cut into blocks
    * of that bin and the two leftover ends are carved by the bins below. */
  function Carve(bin: nat, start: nat, end: nat): (r: seq<Block>)
    ensures forall i :: 0 <= i < |r| ==> r[i].bin <= bin
    decreases bin
  {
    var c := Middle(bin, start, end);
    if c.hi <= c.lo then
      if bin != 0 then Carve(bin - 1, start, end) else []
    else
      Run(bin, c.lo, c.count)
      + (if bin != 0 then Carve(bin - 1, start, c.lo) + Carve(bin - 1, c.hi, end) else [])
  }

  /** A bin with no aligned block in the region leaves it to the bins below. */
  lemma CarveSkip(bin: nat, start: nat, end: nat)
    requires Middle(bin, start, end).hi <= Middle(bin, start, end).lo
    ensures Carve(bin, start, end) == if bin != 0 then Carve(bin - 1, start, end) else []
  {
  }

  /** One level of the guarded refill above bin 0: the middle run, then the
    * two ends. */
  lemma CarveSplit(bin: nat, start: nat, end: nat)
    requires bin != 0 && Middle(bin, start, end).lo < Middle(bin, start, end).hi
    ensures var c := Middle(bin, start, end);
      Carve(bin, start, end) == Run(bin, c.lo, c.count) + Carve(bin - 1, start, c.lo) + Carve(bin - 1, c.hi, end)
  {
  }

  /** Pushing the refill of one level above bin 0 is pushing its middle run,
    * then the refill of the left end, then that of the right end. */
  lemma CarvePushSplit(bins: seq<seq<nat>>, bin: nat, start: nat, end: nat)
    requires bin != 0 && bin < |bins| && Middle(bin, start, end).lo < Middle(bin, start, end).hi
    ensures var c := Middle(bin, start, end);
      && InBins(Carve(bin, start, end), |bins|) && InBins(Run(bin, c.lo, c.count), |bins|)
      && InBins(Carve(bin - 1, start, c.lo), |bins|) && InBins(Carve(bin - 1, c.hi, end), |bins|)
      && PushAll(bins, Carve(bin, start, end))
         == PushAll(PushAll(PushAll(bins, Run(bin, c.lo, c.count)), Carve(bin - 1, start, c.lo)), Carve(bin - 1, c.hi, end))
  {
    var c := Middle(bin, start, end);
    CarveSplit(bin, start, end);
    PushAllThree(bins, Run(bin, c.lo, c.count), Carve(bin - 1, start, c.lo), Carve(bin - 1, c.hi, end));
  }

  lemma PushAllThree(bins: seq<seq<nat>>, a: seq<Block>, b: seq<Block>, c: seq<Block>)
    requires InBins(a + b + c, |bins|)
    ensures InBins(a, |bins|) && InBins(b, |bins|) && InBins(c, |bins|)
    ensures PushAll(bins, a + b + c) == PushAll(PushAll(PushAll(bins, a), b), c)
  {
    PushAllAppend(bins, a + b, c);
    PushAllAppend(bins, a, b);
  }

  /** `allocate_bins` as written: the leftover ends are carved by bin
    * `bin - 1` even at bin 0, where the `usize` subtraction underflows and
    * the kernel panics (`None`). */
  function CarveAsWritten(bin: nat, start: nat, end: nat): Option<seq<Block>>
    decreases bin
  {
    var c := Middle(bin, start, end);
    if c.hi <= c.lo then
      if bin != 0 then CarveAsWritten(bin - 1, start, end) else Some([])
    else if bin == 0 then None
    else match (CarveAsWritten(bin - 1, start, c.lo), CarveAsWritten(bin - 1, c.hi, end))
      case (Some(l), Some(r)) => Some(Run(bin, c.lo, c.count) + l + r)
      case _ => None
  }

  /** When the refill as written does not panic, it carves what the guarded
    * version carves. */
  lemma {:induction false} CarveAsWrittenAgrees(bin: nat, start: nat, end: nat)
    ensures CarveAsWritten(bin, start, end).Some? ==> CarveAsWritten(bin, start, end).value == Carve(bin, start, end)
    decreases bin
  {
    if bin != 0 {
      var c := Middle(bin, start, end);
      CarveAsWrittenAgrees(bin - 1, start, end);
      CarveAsWrittenAgrees(bin - 1, start, c.lo);
      CarveAsWrittenAgrees(bin - 1, c.hi, end);
    }
  }

  /** The guarded refill hands out only blocks aligned to their size, inside
    * `[start, end)`, no two of which overlap. */
  lemma {:induction false} CarveProps(bin: nat, start: nat, end: nat)
    ensures Within(Carve(bin, start, end), start, end)
    ensures Disjoint(Carve(bin, start, end))
    ensures AlignedBlocks(Carve(bin, start, end))
    decreases bin
  {
    var c := Middle(bin, start, end);
    if c.hi <= c.lo {
      if bin != 0 {
        CarveProps(bin - 1, start, end);
      }
    } else {
      RunPlaced(bin, c.lo, c.count);
      var mid := Run(bin, c.lo, c.count);
      assert Within(mid, c.lo, c.hi);
      if bin != 0 {
        var l := Carve(bin - 1, start, c.lo);
        var r := Carve(bin - 1, c.hi, end);
        CarveProps(bin - 1, start, c.lo);
        CarveProps(bin - 1, c.hi, end);
        ConcatProps(l, mid, start, c.lo, c.hi);
        ConcatProps(l + mid, r, start, c.hi, end);
        PermuteThree(mid, l, r);
        assert Carve(bin, start, end) == mid + l + r;
      } else {
        assert Carve(bin, start, end) == mid;
        assert Within(mid, start, end);
      }
    }
  }

  /** Moving the middle run in front of the left end keeps the blocks apart
    * (the refill pushes the middle first) and in place. */
  lemma PermuteThree(mid: seq<Block>, l: seq<Block>, r: seq<Block>)
    requires Disjoint(l + mid + r) && AlignedBlocks(l + mid + r)
    ensures Disjoint(mid + l + r) && AlignedBlocks(mid + l + r)
    ensures forall lo, hi :: Within(l + mid + r, lo, hi) ==> Within(mid + l + r, lo, hi)
  {
    var x, y := l + mid + r, mid + l + r;
    forall i | 0 <= i < |y|
      ensures y[i] == x[Moved(i, |mid|, |l|)]
    {
    }
    forall i, j | 0 <= i < j < |y|
      ensures Apart(y[i], y[j])
    {
      var fi, fj := Moved(i, |mid|, |l|), Moved(j, |mid|, |l|);
      if fi < fj {
        assert Apart(x[fi], x[fj]);
      } else {
        assert Apart(x[fj], x[fi]);
      }
    }
  }

  /** Where index `i` of `mid + l + r` sits in `l + mid + r`. */
  function Moved(i: nat, m: nat, n: nat): nat
  {
    if i < m then i + n else if i < m + n then i - m else i
  }

  /** With 8-aligned bounds nothing is lost: the carved blocks add up to the
    * whole region. */
  lemma {:induction false} CarveCovers(bin: nat, start: nat, end: nat)
    requires start <= end && start % 8 == 0 && end % 8 == 0
    ensures Total(Carve(bin, start, end)) == end - start
    decreases bin
  {
    var c := Middle(bin, start, end);
    if bin == 0 {
      CarveCoversBinZero(start, end);
    } else if c.hi <= c.lo {
      CarveCovers(bin - 1, start, end);
    } else {
      var mid := Run(bin, c.lo, c.count);
      var l := Carve(bin - 1, start, c.lo);
      var r := Carve(bin - 1, c.hi, end);
      assert Carve(bin, start, end) == mid + l + r;
      RunTotal(bin, c.lo, c.count);
      CoarserAligned(c.lo, 0, bin);
      CoarserAligned(c.hi, 0, bin);
      BinZero();
      CarveCovers(bin - 1, start, c.lo);
      CarveCovers(bin - 1, c.hi, end);
      TotalAppend(mid, l);
      TotalAppend(mid + l, r);
    }
  }

  lemma CarveCoversBinZero(start: nat, end: nat)
    requires start <= end && start % 8 == 0 && end % 8 == 0
    ensures Total(Carve(0, start, end)) == end - start
  {
    BinZero();
    var c := Middle(0, start, end);
    assert c.lo == start && c.hi == end;
    if c.lo < c.hi {
      RunProps(0, c.lo, c.count);
      assert Carve(0, start, end) == Run(0, c.lo, c.count);
    }
  }

  /** The 8-byte region `[8, 16)`: no bin above 0 fits a block in it. */
  lemma SmallRegionSkipsBin(bin: nat)
    requires bin >= 1
    ensures Middle(bin, 8, 16).hi <= Middle(bin, 8, 16).lo
  {
    var c := Middle(bin, 8, 16);
    Pow2Monotone(4, 3 + bin);
    Pow2Facts();
    AlignedApart(0, c.lo, BinSize(bin));
  }

  lemma SmallRegionBinZero()
    ensures Middle(0, 8, 16) == Cut(8, 16, 1)
  {
    Pow2Facts();
  }

  /** As written, refilling from the 8-byte region `[8, 16)` panics: the
    * block reaches bin 0, which then recurses into bin `0 - 1`. */
  lemma {:induction false} CarveAsWrittenPanics(bin: nat)
    ensures CarveAsWritten(bin, 8, 16).None?
    decreases bin
  {
    if bin == 0 {
      SmallRegionBinZero();
    } else {
      SmallRegionSkipsBin(bin);
      CarveAsWrittenPanics(bin - 1);
    }
  }

  /** With the guard the same region yields its one 8-byte block. */
  lemma {:induction false} CarveSmallRegion(bin: nat)
    ensures Carve(bin, 8, 16) == [Block(0, 8)]
    decreases bin
  {
    if bin == 0 {
      SmallRegionBinZero();
      assert Run(0, 8, 1)[0] == Block(0, 8);
    } else {
      SmallRegionSkipsBin(bin);
      CarveSmallRegion(bin - 1);
    }
  }

  // ---------------------------------------------------------------- free lists

  /** Every free block in bin `b` is aligned to `BinSize(b)`. */
  predicate BinsAligned(bins: seq<seq<nat>>)
  {
    forall b, x :: 0 <= b < |bins| && x in bins[b] ==> x % BinSize(b) == 0
  }

  /** The bytes held by the free lists. */
  function FreeBytes(bins: seq<seq<nat>>): nat
  {
    if |bins| == 0 then 0
    else FreeBytes(bins[..|bins| - 1]) + |bins[|bins| - 1]| * BinSize(|bins| - 1)
  }

  lemma {:induction false} FreeBytesUpdate(bins: seq<seq<nat>>, b: nat, l: seq<nat>)
    requires b < |bins|
    ensures FreeBytes(bins[b := l]) + |bins[b]| * BinSize(b) == FreeBytes(bins) + |l| * BinSize(b)
    decreases |bins|
  {
    var n := |bins| - 1;
    var u := bins[b := l];
    assert u[..n] == (if b < n then bins[..n][b := l] else bins[..n]);
    if b < n {
      FreeBytesUpdate(bins[..n], b, l);
    }
  }

  /** One more block in bin `b`: the free bytes grow by its size. */
  lemma FreeBytesGrow(bins: seq<seq<nat>>, b: nat, l: seq<nat>)
    requires b < |bins| && |l| == |bins[b]| + 1
    ensures FreeBytes(bins[b := l]) == FreeBytes(bins) + BinSize(b)
  {
    FreeBytesUpdate(bins, b, l);
    assert |l| * BinSize(b) == |bins[b]| * BinSize(b) + BinSize(b);
  }

  /** Prepend one address to bin `b` (the list's `push`). */
  function Push(bins: seq<seq<nat>>, b: nat, addr: nat): (r: seq<seq<nat>>)
    requires b < |bins|
    ensures |r| == |bins| && r[b] == [addr] + bins[b]
    ensures forall c :: 0 <= c < |bins| && c != b ==> r[c] == bins[c]
  {
    bins[b := [addr] + bins[b]]
  }

  lemma PushProps(bins: seq<seq<nat>>, b: nat, addr: nat)
    requires b < |bins|
    ensures FreeBytes(Push(bins, b, addr)) == FreeBytes(bins) + BinSize(b)
    ensures BinsAligned(bins) && addr % BinSize(b) == 0 ==> BinsAligned(Push(bins, b, addr))
  {
    FreeBytesGrow(bins, b, [addr] + bins[b]);
    var p := Push(bins, b, addr);
    if BinsAligned(bins) && addr % BinSize(b) == 0 {
      forall c, x | 0 <= c < |p| && x in p[c]
        ensures x % BinSize(c) == 0
      {
        if c == b && x != addr {
          assert x in bins[c];
        }
      }
    }
  }

  /** Push a sequence of blocks, in order, onto their bins. */
  function PushAll(bins: seq<seq<nat>>, blocks: seq<Block>): (r: seq<seq<nat>>)
    requires InBins(blocks, |bins|)
    ensures |r| == |bins|
    decreases |blocks|
  {
    if |blocks| == 0 then bins
    else
      var last := blocks[|blocks| - 1];
      Push(PushAll(bins, blocks[..|blocks| - 1]), last.bin, last.addr)
  }

  /** Pushing the blocks adds exactly their sizes to the free bytes and, when
    * they are aligned, keeps every bin aligned. */
  lemma {:induction false} PushAllProps(bins: seq<seq<nat>>, blocks: seq<Block>)
    requires InBins(blocks, |bins|)
    ensures FreeBytes(PushAll(bins, blocks)) == FreeBytes(bins) + Total(blocks)
    ensures BinsAligned(bins) && AlignedBlocks(blocks) ==> BinsAligned(PushAll(bins, blocks))
    decreases |blocks|
  {
    if |blocks| > 0 {
      var last := blocks[|blocks| - 1];
      PushAllProps(bins, blocks[..|blocks| - 1]);
      PushProps(PushAll(bins, blocks[..|blocks| - 1]), last.bin, last.addr);
    }
  }

  lemma PushAllSnoc(bins: seq<seq<nat>>, blocks: seq<Block>, b: Block)
    requires InBins(blocks, |bins|) && b.bin < |bins|
    ensures InBins(blocks + [b], |bins|)
    ensures PushAll(bins, blocks + [b]) == Push(PushAll(bins, blocks), b.bin, b.addr)
  {
    assert (blocks + [b])[..|blocks|] == blocks;
    assert forall i :: 0 <= i < |blocks| ==> blocks[i] == (blocks + [b])[i];
  }

  lemma {:induction false} PushAllAppend(bins: seq<seq<nat>>, a: seq<Block>, b: seq<Block>)
    requires InBins(a + b, |bins|)
    ensures InBins(a, |bins|) && InBins(b, |bins|)
    ensures PushAll(bins, a + b) == PushAll(PushAll(bins, a), b)
    decreases |b|
  {
    assert forall i :: 0 <= i < |a| ==> a[i] == (a + b)[i];
    assert forall i :: 0 <= i < |b| ==> b[i] == (a + b)[|a| + i];
    if |b| == 0 {
      assert a + b == a;
    } else {
      var b' := b[..|b| - 1];
      assert a + b == (a + b') + [b[|b| - 1]];
      assert forall i :: 0 <= i < |a + b'| ==> (a + b')[i] == (a + b)[i];
      PushAllSnoc(bins, a + b', b[|b| - 1]);
      PushAllAppend(bins, a, b');
      PushAllSnoc(PushAll(bins, a), b', b[|b| - 1]);
    }
  }

  /** `remove`: drop the first node equal to `v`, reporting whether one was found. */
  function RemoveFirst(l: seq<nat>, v: nat): (r: (bool, seq<nat>))
    ensures r.0 <==> v in l
    ensures r.0 ==> |r.1| == |l| - 1 && multiset(r.1) == multiset(l) - multiset{v}
    ensures !r.0 ==> r.1 == l
    ensures forall x :: x in r.1 ==> x in l
  {
    if |l| == 0 then (false, l)
    else if l[0] == v then
      assert l == [l[0]] + l[1..];
      (true, l[1..])
    else
      var (found, rest) := RemoveFirst(l[1..], v);
      assert l == [l[0]] + l[1..];
      (found, [l[0]] + rest)
  }

  /** Unlink the node at index `i` (a node's `pop`). */
  function RemoveAt(l: seq<nat>, i: nat): (r: seq<nat>)
    requires i < |l|
    ensures |r| == |l| - 1 && multiset(r) == multiset(l) - multiset{l[i]}
    ensures forall x :: x in r ==> x in l
  {
    assert l == l[..i] + [l[i]] + l[i + 1..];
    assert forall x :: x in l[..i] + l[i + 1..] ==> x in multiset(l);
    l[..i] + l[i + 1..]
  }

  /** Index of the first address aligned to `align`. */
  function FirstAligned(l: seq<nat>, align: nat): (r: Option<nat>)
    requires align > 0
    ensures r.Some? ==> r.value < |l| && l[r.value] % align == 0
    ensures r.Some? ==> forall k :: 0 <= k < r.value ==> l[k] % align != 0
    ensures r.None? <==> forall k :: 0 <= k < |l| ==> l[k] % align != 0
  {
    if |l| == 0 then None
    else if l[0] % align == 0 then Some(0)
    else match FirstAligned(l[1..], align)
      case None => None
      case Some(i) => Some(i + 1)
  }

  /** `buddy_down`: take the first block of `bin` that satisfies the
    * alignment; failing that, split a block taken from the bin above and keep
    * its upper buddy in `bin`.  `None` once past the last bin. */
  function BuddyDownStep(bins: seq<seq<nat>>, bin: nat, align: nat): (r: (Option<nat>, seq<seq<nat>>))
    requires |bins| == BinCount && BinsAligned(bins) && PowerOfTwo(align)
    ensures |r.1| == BinCount
    ensures r.0.Some? ==> r.0.value % align == 0 && r.0.value % BinSize(bin) == 0
    ensures r.0.None? ==> r.1 == bins
    decreases BinCount - bin
  {
    PowerOfTwoPositive(align);
    if bin >= BinCount then (None, bins)
    else
      var l := bins[bin];
      match FirstAligned(l, align)
      case Some(i) =>
        assert l[i] in bins[bin];
        (Some(l[i]), bins[bin := RemoveAt(l, i)])
      case None =>
        var (above, mid) := BuddyDownStep(bins, bin + 1, align);
        if above.None? then (None, bins)
        else
          CoarserAligned(above.value, bin, bin + 1);
          (above, Push(mid, bin, Buddy(above.value, bin)))
  }

  /** `buddy_down` keeps every bin's blocks aligned to the bin size. */
  lemma {:induction false} BuddyDownKeepsAligned(bins: seq<seq<nat>>, bin: nat, align: nat)
    requires |bins| == BinCount && BinsAligned(bins) && PowerOfTwo(align)
    ensures BinsAligned(BuddyDownStep(bins, bin, align).1)
    decreases BinCount - bin
  {
    PowerOfTwoPositive(align);
    if bin < BinCount {
      var l := bins[bin];
      match FirstAligned(l, align)
      case Some(i) =>
      case None =>
        BuddyDownKeepsAligned(bins, bin + 1, align);
        var (above, mid) := BuddyDownStep(bins, bin + 1, align);
        if above.Some? {
          CoarserAligned(above.value, bin, bin + 1);
          BuddyPair(above.value, bin);
          PushProps(mid, bin, Buddy(above.value, bin));
        }
    }
  }

  /** A block handed out leaves the free lists exactly its bin's size poorer
    * (splitting moves bytes between bins without losing any). */
  lemma {:induction false} BuddyDownFreeBytes(bins: seq<seq<nat>>, bin: nat, align: nat)
    requires |bins| == BinCount && BinsAligned(bins) && PowerOfTwo(align)
    ensures BuddyDownStep(bins, bin, align).0.Some? ==>
      FreeBytes(BuddyDownStep(bins, bin, align).1) + BinSize(bin) == FreeBytes(bins)
    decreases BinCount - bin
  {
    PowerOfTwoPositive(align);
    if bin < BinCount {
      var l := bins[bin];
      match FirstAligned(l, align)
      case Some(i) =>
        var rest := RemoveAt(l, i);
        FreeBytesGrow(bins[bin := rest], bin, l);
        assert bins[bin := rest][bin := l] == bins;
      case None =>
        BuddyDownFreeBytes(bins, bin + 1, align);
        var (above, mid) := BuddyDownStep(bins, bin + 1, align);
        if above.Some? {
          CoarserAligned(above.value, bin, bin + 1);
          PushProps(mid, bin, Buddy(above.value, bin));
          BinSizePow(bin);
        }
    }
  }

  /** `buddy_up`: give a block back to `bin`, merging it with its buddy into
    * the bin above while the buddy is free, up to the last bin. */
  function BuddyUpStep(bins: seq<seq<nat>>, ptr: nat, bin: nat): (r: seq<seq<nat>>)
    requires |bins| == BinCount && bin < BinCount && ptr % BinSize(bin) == 0
    ensures |r| == BinCount
    decreases BinCount - bin
  {
    var buddy := Buddy(ptr, bin);
    if bin == BinCount - 1 then Push(bins, bin, ptr)
    else
      var (found, rest) := RemoveFirst(bins[bin], buddy);
      if !found then Push(bins, bin, ptr)
      else
        BuddyPair(ptr, bin);
        BuddyUpStep(bins[bin := rest], Min(ptr, buddy), bin + 1)
  }

  /** `buddy_up` keeps every bin's blocks aligned to the bin size. */
  lemma {:induction false} BuddyUpKeepsAligned(bins: seq<seq<nat>>, ptr: nat, bin: nat)
    requires |bins| == BinCount && bin < BinCount && ptr % BinSize(bin) == 0 && BinsAligned(bins)
    ensures BinsAligned(BuddyUpStep(bins, ptr, bin))
    decreases BinCount - bin
  {
    var buddy := Buddy(ptr, bin);
    PushProps(bins, bin, ptr);
    if bin < BinCount - 1 {
      var (found, rest) := RemoveFirst(bins[bin], buddy);
      if found {
        BuddyPair(ptr, bin);
        var t := bins[bin := rest];
        assert BinsAligned(t);
        BuddyUpKeepsAligned(t, Min(ptr, buddy), bin + 1);
      }
    }
  }

  /** A returned block adds exactly its bin's size to the free lists. */
  lemma {:induction false} BuddyUpFreeBytes(bins: seq<seq<nat>>, ptr: nat, bin: nat)
    requires |bins| == BinCount && bin < BinCount && ptr % BinSize(bin) == 0
    ensures FreeBytes(BuddyUpStep(bins, ptr, bin)) == FreeBytes(bins) + BinSize(bin)
    decreases BinCount - bin
  {
    var buddy := Buddy(ptr, bin);
    PushProps(bins, bin, ptr);
    if bin < BinCount - 1 {
      var (found, rest) := RemoveFirst(bins[bin], buddy);
      if found {
        BuddyPair(ptr, bin);
        var t := bins[bin := rest];
        FreeBytesGrow(t, bin, bins[bin]);
        assert t[bin := bins[bin]] == bins;
        BuddyUpFreeBytes(t, Min(ptr, buddy), bin + 1);
        BinSizePow(bin);
      }
    }
  }

  /** `buddy_up` stops at the last bin, or wherever the buddy is not free,
    * and leaves the block at the head of that bin. */
  lemma BuddyUpStops(bins: seq<seq<nat>>, ptr: nat, bin: nat)
    requires |bins| == BinCount && bin < BinCount && ptr % BinSize(bin) == 0
    requires bin == BinCount - 1 || Buddy(ptr, bin) !in bins[bin]
    ensures BuddyUpStep(bins, ptr, bin)[bin] == [ptr] + bins[bin]
    ensures forall c :: 0 <= c < BinCount && c != bin ==> BuddyUpStep(bins, ptr, bin)[c] == bins[c]
  {
  }

  /** When the buddy is free, `buddy_up` unlinks it and carries the merged
    * block, at the lower of the two addresses, to the next bin. */
  lemma BuddyUpMerges(bins: seq<seq<nat>>, ptr: nat, bin: nat)
    requires |bins| == BinCount && bin + 1 < BinCount && ptr % BinSize(bin) == 0
    requires Buddy(ptr, bin) in bins[bin]
    ensures Min(ptr, Buddy(ptr, bin)) % BinSize(bin + 1) == 0
    ensures BuddyUpStep(bins, ptr, bin)
      == BuddyUpStep(bins[bin := RemoveFirst(bins[bin], Buddy(ptr, bin)).1], Min(ptr, Buddy(ptr, bin)), bin + 1)
  {
    BuddyPair(ptr, bin);
  }

  /** Twenty empty free lists. */
  function EmptyBins(): (r: seq<seq<nat>>)
    ensures |r| == BinCount && forall b :: 0 <= b < BinCount ==> r[b] == []
  {
    seq(BinCount, _ => [])
  }

  /** The bin allocator: twenty free lists. */
  class BinAllocator {
    const bins: array<seq<nat>>

    ghost predicate Valid()
      reads this, bins
    {
      bins.Length == BinCount && BinsAligned(bins[..])
    }

    /** The twenty empty bins `new` starts from. */
    constructor Empty()
      ensures Valid() && fresh(bins)
      ensures bins[..] == EmptyBins()
    {
      bins := new seq<nat>[BinCount](_ => []);
      new;
      EmptyFree(bins[..]);
    }

    /** `new`: empty bins refilled from `[start, end)` starting at the top
      * bin, as written.  It yields an allocator exactly when the refill does
      * not panic; the blocks are then those of the guarded refill, which
      * agrees with it (`CarveAsWrittenAgrees`). */
    static method New(start: nat, end: nat) returns (r: Option<BinAllocator>)
      ensures r.Some? <==> CarveAsWritten(BinCount - 1, start, end).Some?
      ensures r.Some? ==> fresh(r.value) && fresh(r.value.bins) && r.value.Valid()
      ensures r.Some? ==> r.value.bins[..] == PushAll(EmptyBins(), Carve(BinCount - 1, start, end))
      ensures r.Some? ==> FreeBytes(r.value.bins[..]) == Total(Carve(BinCount - 1, start, end))
    {
      var a := new BinAllocator.Empty();
      var ok := a.AllocateBins(BinCount - 1, start, end);
      if !ok {
        return None;
      }
      assert a.Valid() && FreeBytes(a.bins[..]) == Total(Carve(BinCount - 1, start, end)) by {
        CarveProps(BinCount - 1, start, end);
        EmptyFree(EmptyBins());
        PushAllProps(EmptyBins(), Carve(BinCount - 1, start, end));
      }
      r := Some(a);
    }

    static lemma {:induction false} EmptyFree(bins: seq<seq<nat>>)
      requires forall b :: 0 <= b < |bins| ==> bins[b] == []
      ensures FreeBytes(bins) == 0 && BinsAligned(bins)
      decreases |bins|
    {
      if |bins| > 0 {
        EmptyFree(bins[..|bins| - 1]);
      }
    }

    /** `allocate_bins` as written: push the aligned middle run of the
      * region, then refill the two leftover ends from bin `bin - 1`.  At bin
      * 0 that subtraction underflows and the kernel panics, reported here as
      * `ok` false; the bins are then left as they were when it panicked. */
    method AllocateBins(bin: nat, start: nat, end: nat) returns (ok: bool)
      requires bins.Length == BinCount && bin < BinCount
      modifies bins
      ensures ok <==> CarveAsWritten(bin, start, end).Some?
      ensures ok ==> bins[..] == PushAll(old(bins[..]), Carve(bin, start, end))
      decreases bin
    {
      var c := Middle(bin, start, end);
      if c.hi <= c.lo {
        CarveSkip(bin, start, end);
        ok := true;
        if bin != 0 {
          ok := AllocateBins(bin - 1, start, end);
        }
        return;
      }
      ghost var before := bins[..];
      PushRun(bin, c.lo, c.count);
      if bin == 0 {
        return false;
      }
      CarvePushSplit(before, bin, start, end);
      ok := AllocateBins(bin - 1, start, c.lo);
      if !ok {
        return;
      }
      ok := AllocateBins(bin - 1, c.hi, end);
    }

    /** The refill loop: push `count` consecutive blocks of `bin` from `lo` up. */
    method PushRun(bin: nat, lo: nat, count: nat)
      requires bins.Length == BinCount && bin < BinCount
      modifies bins
      ensures bins[..] == PushAll(old(bins[..]), Run(bin, lo, count))
    {
      var bs := BinSize(bin);
      ghost var before := bins[..];
      var i := 0;
      while i < count
        invariant 0 <= i <= count
        invariant InBins(Run(bin, lo, i), BinCount)
        invariant bins[..] == PushAll(before, Run(bin, lo, i))
      {
        RunSnoc(bin, lo, i, before);
        ghost var pre := bins[..];
        bins[bin] := [lo + bs * i] + bins[bin];
        assert bins[..] == Push(pre, bin, lo + bs * i);
        i := i + 1;
      }
    }

    static lemma RunSnoc(bin: nat, lo: nat, i: nat, before: seq<seq<nat>>)
      requires bin < |before| && InBins(Run(bin, lo, i), |before|)
      ensures InBins(Run(bin, lo, i + 1), |before|)
      ensures PushAll(before, Run(bin, lo, i + 1))
        == Push(PushAll(before, Run(bin, lo, i)), bin, lo + BinSize(bin) * i)
    {
      var b := Block(bin, lo + BinSize(bin) * i);
      assert Run(bin, lo, i + 1) == Run(bin, lo, i) + [b];
      PushAllSnoc(before, Run(bin, lo, i), b);
    }

    /** `buddy_down`: scan `bin` for the first block meeting the alignment and
      * unlink it, or split one from the bin above. */
    method BuddyDown(bin: nat, align: nat) returns (r: Option<nat>)
      requires Valid() && PowerOfTwo(align)
      modifies bins
      ensures Valid()
      ensures (r, bins[..]) == BuddyDownStep(old(bins[..]), bin, align)
      decreases BinCount - bin
    {
      PowerOfTwoPositive(align);
      BuddyDownKeepsAligned(bins[..], bin, align);
      if bin >= BinCount {
        return None;
      }
      var l := bins[bin];
      var i := 0;
      while i < |l| && !IsAligned(l[i], align)
        invariant 0 <= i <= |l|
        invariant forall k :: 0 <= k < i ==> l[k] % align != 0
      {
        i := i + 1;
      }
      if i < |l| {
        FirstIndex(l, align, i);
        bins[bin] := RemoveAt(l, i);
        return Some(l[i]);
      }
      var above := BuddyDown(bin + 1, align);
      if above.None? {
        return None;
      }
      CoarserAligned(above.value, bin, bin + 1);
      var other := Buddy(above.value, bin);
      bins[bin] := [other] + bins[bin];
      r := above;
    }

    static lemma FirstIndex(l: seq<nat>, align: nat, i: nat)
      requires align > 0 && i < |l| && l[i] % align == 0
      requires forall k :: 0 <= k < i ==> l[k] % align != 0
      ensures FirstAligned(l, align) == Some(i)
    {
      var f := FirstAligned(l, align);
      assert f.Some?;
    }

    /** `buddy_up`: free a block of `bin`, merging with free buddies upward. */
    method BuddyUp(ptr: nat, bin: nat)
      requires Valid() && bin < BinCount && ptr % BinSize(bin) == 0
      modifies bins
      ensures Valid()
      ensures bins[..] == BuddyUpStep(old(bins[..]), ptr, bin)
      decreases BinCount - bin
    {
      BuddyUpKeepsAligned(bins[..], ptr, bin);
      var buddy := Buddy(ptr, bin);
      if bin == BinCount - 1 {
        bins[bin] := [ptr] + bins[bin];
        return;
      }
      var (found, rest) := RemoveFirst(bins[bin], buddy);
      if !found {
        bins[bin] := [ptr] + bins[bin];
        return;
      }
      BuddyPair(ptr, bin);
      ghost var s := bins[..];
      bins[bin] := rest;
      assert bins[..] == s[bin := rest];
      assert BinsAligned(bins[..]);
      BuddyUp(Min(ptr, buddy), bin + 1);
    }

    /** `alloc`: the bin for the size, then `buddy_down`; 0 (null) when
      * nothing is free. */
    method Alloc(size: nat, align: nat) returns (p: nat)
      requires Valid() && PowerOfTwo(align)
      modifies bins
      ensures Valid()
      ensures var (q, t) := BuddyDownStep(old(bins[..]), SizeToBin(size).value, align);
        bins[..] == t && p == (if q.Some? then q.value else 0)
    {
      var bin := SizeToBin(size).value;
      var r := BuddyDown(bin, align);
      p := if r.Some? then r.value else 0;
    }

    /** `dealloc`: the bin for the size, then `buddy_up`.  Indexing the bins
      * panics beyond the last bin, and the block must be one `alloc` gave out. */
    method Dealloc(ptr: nat, size: nat)
      requires Valid() && SizeToBin(size).value < BinCount
      requires ptr % BinSize(SizeToBin(size).value) == 0
      modifies bins
      ensures Valid()
      ensures bins[..] == BuddyUpStep(old(bins[..]), ptr, SizeToBin(size).value)
    {
      var bin := SizeToBin(size).value;
      BuddyUp(ptr, bin);
    }
  }
}
