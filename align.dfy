/** Address alignment (kern/src/allocator/util.rs): `align_down`, `align_up`
  * and the bit-scan `is_power_of_two`.  Addresses are unbounded naturals
  * here; the `usize` overflow `align_up` can hit is not modelled. */
module Align {
  import opened Common

  /** A power of two: exactly one bit set. */
  predicate PowerOfTwo(n: nat)
    decreases n
  {
    n == 1 || (n > 1 && n % 2 == 0 && PowerOfTwo(n / 2))
  }

  /** The powers of two are exactly the values of `Pow2`. */
  lemma {:induction false} PowerOfTwoIff(n: nat)
    ensures PowerOfTwo(n) <==> exists k: nat :: n == Pow2(k)
    decreases n
  {
    if PowerOfTwo(n) {
      if n == 1 {
        assert n == Pow2(0);
      } else {
        PowerOfTwoIff(n / 2);
        var k: nat :| n / 2 == Pow2(k);
        assert n == Pow2(k + 1);
      }
    } else {
      forall k: nat
        ensures n != Pow2(k)
      {
        PowerOfTwoPow2(k);
      }
    }
  }

  lemma {:induction false} PowerOfTwoPow2(k: nat)
    ensures PowerOfTwo(Pow2(k))
  {
    if k > 0 {
      PowerOfTwoPow2(k - 1);
      assert Pow2(k) / 2 == Pow2(k - 1);
    }
  }

  /** An odd multiple of a power of two is a power of two only when it is
    * the power itself. */
  lemma {:induction false} OddMultiple(i: nat, q: nat)
    requires q % 2 == 1
    ensures PowerOfTwo(Pow2(i) * q) <==> q == 1
  {
    if i == 0 {
      assert Pow2(0) * q == q;
    } else {
      OddMultiple(i - 1, q);
      var n := Pow2(i) * q;
      assert n == 2 * (Pow2(i - 1) * q);
      assert n / 2 == Pow2(i - 1) * q;
      MulAtLeast(q, Pow2(i));
    }
  }

  /** Low bits `0 .. i` of `a` zero and bit `i` zero: bits `0 .. i + 1` are zero. */
  lemma LowBitsStep(a: nat, i: nat)
    requires a % Pow2(i) == 0 && Bit(a, i) == 0
    ensures a % Pow2(i + 1) == 0
  {
    var q := a / Pow2(i);
    assert a == Pow2(i) * q;
    assert q == 2 * (q / 2);
    assert a == Pow2(i + 1) * (q / 2);
    MulDivCancel(q / 2, Pow2(i + 1));
  }

  /** No positive 64-bit number is a multiple of `2^64`. */
  lemma NoMultipleBelow(a: nat)
    requires 0 < a < 0x1_0000_0000_0000_0000
    ensures a % Pow2(64) != 0
  {
    Pow2Facts();
  }

  /** A number whose bits below `i` are clear and bit `i` set is `2^i`
    * times an odd number. */
  lemma LowestBitSplit(a: nat, i: nat) returns (q: nat)
    requires a % Pow2(i) == 0 && Bit(a, i) == 1
    ensures q % 2 == 1 && a == Pow2(i) * q
    ensures a == Pow2(i) <==> q == 1
  {
    q := a / Pow2(i);
    assert a == Pow2(i) * q;
    if a == Pow2(i) {
      MulDivCancel(1, Pow2(i));
    }
  }

  /** `is_power_of_two`: zero is not; otherwise the lowest set bit is found by
    * scanning the 64 bits from the bottom, and the number is a power of two
    * when it equals that bit alone (`align ^ (1 << first_bit) == 0`). */
  method IsPowerOfTwo(align: u64) returns (b: bool)
    ensures b <==> PowerOfTwo(align)
  {
    if align == 0 {
      return false;
    }
    var i := 0;
    while i < 64 && Bit(align, i) == 0
      invariant 0 <= i <= 64 && align % Pow2(i) == 0
    {
      LowBitsStep(align, i);
      i := i + 1;
    }
    if i == 64 {
      NoMultipleBelow(align);
      assert false;
    }
    var firstBit := i;
    var q := LowestBitSplit(align, firstBit);
    OddMultiple(firstBit, q);
    b := align == Pow2(firstBit);
  }

  /** `align_down`; the source panics when `align` is not a power of two. */
  function AlignDown(addr: nat, align: nat): (r: nat)
    requires PowerOfTwo(align)
    ensures r <= addr && r % align == 0 && addr - r < align
  {
    PowerOfTwoPositive(align);
    FloorMultiple(addr, align);
    addr / align * align
  }

  lemma PowerOfTwoPositive(n: nat)
    requires PowerOfTwo(n)
    ensures n >= 1
  {
  }

  /** `a / s * s` is the multiple of `s` just at or below `a`. */
  lemma FloorMultiple(a: nat, s: nat)
    requires s > 0
    ensures 0 <= a / s * s <= a && a - a / s * s < s && (a / s * s) % s == 0
  {
    MulDivCancel(a / s, s);
    assert a == a / s * s + a % s;
  }

  /** `align_up`: `addr` itself when aligned, else the next multiple up. */
  function AlignUp(addr: nat, align: nat): (r: nat)
    requires PowerOfTwo(align)
    ensures r >= addr && r % align == 0 && r - addr < align
  {
    var down := AlignDown(addr, align);
    if down == addr then down
    else
      NextMultiple(addr / align, align);
      down + align
  }

  /** The multiple of `s` after `q * s`. */
  lemma NextMultiple(q: nat, s: nat)
    requires s > 0
    ensures (q * s + s) % s == 0
  {
    MulDivCancel(q + 1, s);
    assert (q + 1) * s == q * s + s;
  }

  /** Alignment leaves an aligned address as it is, and nothing else: both
    * functions are idempotent. */
  lemma AlignedFixed(addr: nat, align: nat)
    requires PowerOfTwo(align)
    ensures AlignDown(addr, align) == addr <==> addr % align == 0
    ensures AlignUp(addr, align) == addr <==> addr % align == 0
    ensures AlignDown(AlignDown(addr, align), align) == AlignDown(addr, align)
    ensures AlignUp(AlignUp(addr, align), align) == AlignUp(addr, align)
  {
    AlignDownFixed(addr, align);
    AlignDownFixed(AlignDown(addr, align), align);
    AlignUpFixed(addr, align);
    AlignUpFixed(AlignUp(addr, align), align);
  }

  lemma AlignDownFixed(addr: nat, align: nat)
    requires PowerOfTwo(align)
    ensures AlignDown(addr, align) == addr <==> addr % align == 0
  {
    if addr % align == 0 {
      var q := addr / align;
      assert addr == q * align;
    }
  }

  lemma AlignUpFixed(addr: nat, align: nat)
    requires PowerOfTwo(align)
    ensures AlignUp(addr, align) == addr <==> addr % align == 0
  {
    AlignDownFixed(addr, align);
  }

  /** `align_up` is the least aligned address at or above `addr`, and
    * `align_down` the greatest at or below it. */
  lemma AlignExtreme(addr: nat, align: nat, m: nat)
    requires PowerOfTwo(align) && m % align == 0
    ensures m >= addr ==> m >= AlignUp(addr, align)
    ensures m <= addr ==> m <= AlignDown(addr, align)
  {
    var u := AlignUp(addr, align);
    var d := AlignDown(addr, align);
    if m < u {
      AlignedApart(m, u, align);
    }
    if m > d {
      AlignedApart(d, m, align);
    }
  }

  /** The distance between two multiples of `s` is a multiple of `s`. */
  lemma DiffMultiple(x: nat, y: nat, s: nat)
    requires s > 0 && x <= y && x % s == 0 && y % s == 0
    ensures (y - x) % s == 0 && (y - x) / s * s == y - x
  {
    var d := y - x;
    var q, r := d / s, d % s;
    assert d == q * s + r;
    var qx := x / s;
    assert x == qx * s;
    assert y == (qx + q) * s + r;
    DivModUnique(qx + q, r, s);
  }

  /** Two distinct multiples of `align` are at least `align` apart. */
  lemma AlignedApart(x: nat, y: nat, align: nat)
    requires align > 0 && x < y && x % align == 0 && y % align == 0
    ensures y - x >= align
  {
    DiffMultiple(x, y, align);
    var k := (y - x) / align;
    assert k * align == y - x;
    assert k != 0;
    MulAtLeast(k, align);
  }

}
