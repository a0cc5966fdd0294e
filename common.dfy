/** Machine integers, the Option/Result wrappers and the little-endian byte codec
  * shared by every module of the rustos model.  Rust's fixed-width integers are
  * modelled as bounded subsets of `int`; where the source relies on truncation or
  * masking, the modules say so with explicit `%` and `/` by powers of two. */
module Common {

  const U8_LIMIT: int := 0x100
  const U16_LIMIT: int := 0x1_0000
  const U32_LIMIT: int := 0x1_0000_0000
  const U64_LIMIT: int := 0x1_0000_0000_0000_0000

  type byte = x: int | 0 <= x < 0x100
  type u16 = x: int | 0 <= x < 0x1_0000
  type u32 = x: int | 0 <= x < 0x1_0000_0000
  type u64 = x: int | 0 <= x < 0x1_0000_0000_0000_0000

  datatype Option<T> = None | Some(value: T)

  datatype Result<T, E> = Ok(value: T) | Err(error: E)

  /** `2^k` */
  function Pow2(k: nat): (r: nat)
    ensures r >= 1
  {
    if k == 0 then 1 else 2 * Pow2(k - 1)
  }

  lemma {:induction false} Pow2Add(a: nat, b: nat)
    ensures Pow2(a + b) == Pow2(a) * Pow2(b)
  {
    if a > 0 {
      Pow2Add(a - 1, b);
    }
  }

  lemma {:induction false} Pow2Monotone(a: nat, b: nat)
    requires a <= b
    ensures Pow2(a) <= Pow2(b)
  {
    if a < b {
      Pow2Monotone(a, b - 1);
    }
  }

  lemma Pow2Facts()
    ensures Pow2(2) == 4 && Pow2(3) == 8 && Pow2(4) == 16 && Pow2(5) == 32 && Pow2(6) == 64
    ensures Pow2(8) == 0x100 && Pow2(16) == 0x1_0000
    ensures Pow2(32) == 0x1_0000_0000 && Pow2(64) == 0x1_0000_0000_0000_0000
  {
    assert Pow2(8) == 0x100;
    Pow2Add(8, 8);
    Pow2Add(16, 16);
    Pow2Add(32, 32);
  }

  lemma {:induction false} Pow2Injective(a: nat, b: nat)
    requires Pow2(a) == Pow2(b)
    ensures a == b
  {
    if a < b {
      Pow2Monotone(a + 1, b);
    } else if b < a {
      Pow2Monotone(b + 1, a);
    }
  }

  /** Bit `k` of `n` (`(n >> k) & 1`). */
  function Bit(n: nat, k: nat): (r: nat)
    ensures r < 2
  {
    (n / Pow2(k)) % 2
  }

  /** Bitwise AND of two unsigned numbers (`a & b`), bit by bit from the bottom. */
  function And(a: nat, b: nat): nat
    decreases a
  {
    if a == 0 || b == 0 then 0
    else 2 * And(a / 2, b / 2) + (if a % 2 == 1 && b % 2 == 1 then 1 else 0)
  }

  /** Bitwise OR of two unsigned numbers (`a | b`), bit by bit from the bottom. */
  function Or(a: nat, b: nat): nat
    decreases a
  {
    if a == 0 then b
    else if b == 0 then a
    else 2 * Or(a / 2, b / 2) + (if a % 2 == 1 || b % 2 == 1 then 1 else 0)
  }

  /** A number below `2^n` shares no bit with a multiple of `2^n`: their AND is 0
    * and their OR is their sum. */
  lemma {:induction false} DisjointBits(a: nat, k: nat, n: nat)
    requires a < Pow2(n)
    ensures And(a, k * Pow2(n)) == 0
    ensures Or(a, k * Pow2(n)) == a + k * Pow2(n)
  {
    if n > 0 && a > 0 && k > 0 {
      var h := k * Pow2(n - 1);
      assert k * Pow2(n) == 2 * h;
      MulDivCancel(h, 2);
      DisjointBits(a / 2, k, n - 1);
    }
  }

  /** Masking with a single bit (`a & (1 << k)`) keeps just that bit. */
  lemma {:induction false} AndPow2(a: nat, k: nat)
    ensures And(a, Pow2(k)) == Pow2(k) * Bit(a, k)
  {
    if k == 0 {
      AndOne(a);
    } else if a > 0 {
      var p := Pow2(k - 1);
      AndPow2(a / 2, k - 1);
      AndEven(a, p);
      assert Bit(a, k) == Bit(a / 2, k - 1) by {
        DivDouble(a, p);
      }
    }
  }

  /** Masking with an even number drops the lowest bit. */
  lemma AndEven(a: nat, p: nat)
    requires p > 0
    ensures And(a, 2 * p) == 2 * And(a / 2, p)
  {
    assert (2 * p) / 2 == p && (2 * p) % 2 == 0;
  }

  lemma AndOne(a: nat)
    ensures And(a, 1) == a % 2
  {
    if a > 0 {
      assert And(a / 2, 0) == 0;
    }
  }

  /** Halving and then dividing by `p` is dividing by `2 * p`. */
  lemma DivDouble(a: nat, p: nat)
    requires p > 0
    ensures (a / 2) / p == a / (2 * p)
  {
    var q, r := (a / 2) / p, (a / 2) % p;
    assert a / 2 == q * p + r;
    assert a == q * (2 * p) + (2 * r + a % 2);
    DivModUnique(q, 2 * r + a % 2, 2 * p);
  }

  /** The unsigned number whose little-endian bytes are `b` (`from_le_bytes`). */
  function FromLe(b: seq<byte>): (r: nat)
    ensures r < Pow2(8 * |b|)
  {
    if b == [] then 0
    else
      var rest := FromLe(b[1..]);
      assert Pow2(8 * |b|) == 256 * Pow2(8 * |b[1..]|) by {
        Pow2Add(8, 8 * |b[1..]|);
      }
      b[0] + 256 * rest
  }

  /** The `width` little-endian bytes of `n` modulo `2^(8*width)` (`to_le_bytes`). */
  function ToLe(n: nat, width: nat): (r: seq<byte>)
    ensures |r| == width
  {
    if width == 0 then [] else [n % 256] + ToLe(n / 256, width - 1)
  }

  lemma {:induction false} FromToLe(n: nat, width: nat)
    requires n < Pow2(8 * width)
    ensures FromLe(ToLe(n, width)) == n
  {
    if width > 0 {
      Pow2Add(8, 8 * (width - 1));
      FromToLe(n / 256, width - 1);
      assert ToLe(n, width)[1..] == ToLe(n / 256, width - 1);
    }
  }

  lemma {:induction false} ToFromLe(b: seq<byte>)
    ensures ToLe(FromLe(b), |b|) == b
  {
    if b != [] {
      ToFromLe(b[1..]);
      assert FromLe(b) % 256 == b[0];
      assert FromLe(b) / 256 == FromLe(b[1..]);
    }
  }

  /** `x * s >= s` for a positive multiplier. */
  lemma {:induction false} MulAtLeast(x: nat, s: nat)
    requires x >= 1
    ensures x * s >= s
  {
    if x > 1 {
      MulAtLeast(x - 1, s);
      assert x * s == (x - 1) * s + s;
    }
  }

  /** Multiplication by a natural is monotone. */
  lemma MulMonotone(a: nat, b: nat, s: nat)
    requires a <= b
    ensures a * s <= b * s
  {
    assert b * s == a * s + (b - a) * s;
  }

  /** Euclidean division is unique: `(q * s + r) / s == q` and `(q * s + r) % s == r` for `r < s`. */
  lemma DivModUnique(q: nat, r: nat, s: nat)
    requires r < s
    ensures (q * s + r) / s == q && (q * s + r) % s == r
  {
    var a := q * s + r;
    var q', r' := a / s, a % s;
    assert a == q' * s + r';
    if q' < q {
      MulAtLeast(q - q', s);
    } else if q < q' {
      MulAtLeast(q' - q, s);
    }
  }

  /** `(k * s) / s == k` and `(k * s) % s == 0`. */
  lemma MulDivCancel(k: nat, s: nat)
    requires s > 0
    ensures (k * s) / s == k && (k * s) % s == 0
  {
    DivModUnique(k, 0, s);
  }

  function Min(a: int, b: int): (r: int)
    ensures r <= a && r <= b && (r == a || r == b)
  {
    if a <= b then a else b
  }

  function Max(a: int, b: int): (r: int)
    ensures r >= a && r >= b && (r == a || r == b)
  {
    if a >= b then a else b
  }

  /** Little-endian `u16` / `u32` field of a byte buffer at `off`. */
  function U16At(b: seq<byte>, off: nat): (r: u16)
    requires off + 2 <= |b|
  {
    FromLe(b[off..off + 2])
  }

  function U32At(b: seq<byte>, off: nat): (r: u32)
    requires off + 4 <= |b|
  {
    Pow2Facts();
    FromLe(b[off..off + 4])
  }

  /** Two bytes re-encode to themselves through the 16-bit field they decode to. */
  lemma U16Bytes(h: seq<byte>, off: nat)
    requires off + 2 <= |h|
    ensures ToLe(U16At(h, off), 2) == h[off..off + 2]
  {
    ToFromLe(h[off..off + 2]);
  }

  /** Four bytes re-encode to themselves through the 32-bit field they decode to. */
  lemma U32Bytes(h: seq<byte>, off: nat)
    requires off + 4 <= |h|
    ensures ToLe(U32At(h, off), 4) == h[off..off + 4]
  {
    ToFromLe(h[off..off + 4]);
  }

  /** A 16-bit field decodes from its own little-endian encoding. */
  lemma U16Field(v: u16, h: seq<byte>, off: nat)
    requires off + 2 <= |h| && h[off..off + 2] == ToLe(v, 2)
    ensures U16At(h, off) == v
  {
    Pow2Facts();
    FromToLe(v, 2);
  }

  /** A 32-bit field decodes from its own little-endian encoding. */
  lemma U32Field(v: u32, h: seq<byte>, off: nat)
    requires off + 4 <= |h| && h[off..off + 4] == ToLe(v, 4)
    ensures U32At(h, off) == v
  {
    Pow2Facts();
    FromToLe(v, 4);
  }
}
