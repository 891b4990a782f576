/** Byte-width integers as the renderer uses them, and the division facts
    that the pixel and colour-code layouts rest on. */
module Bytes {

  /** An unsigned 8-bit value (Rust's `u8`). */
  type u8 = x: int | 0 <= x < 256

  /** Rust's `v as u8`: keeps the low eight bits of a two's-complement
      integer, which is the Euclidean remainder modulo 256. */
  function TruncateU8(v: int): (r: u8)
    ensures 0 <= v < 256 ==> r == v
    ensures (v - r) % 256 == 0
  {
    v % 256
  }

  /** `u8` addition that wraps past 255, as an optimised build does. */
  function WrappingAdd(a: u8, b: u8): (r: u8)
    ensures a + b < 256 ==> r == a + b
    ensures a + b >= 256 ==> r == a + b - 256
  {
    (a + b) % 256
  }

  /** Bit `i` (0 = least significant) of a byte. */
  predicate BitSet(b: u8, i: nat)
    requires i < 8
  {
    (b as bv8) & ((1 as bv8) << i) != 0
  }

  lemma MulAtLeastOnce(a: int, d: int)
    requires a >= 1 && d > 0
    ensures a * d >= d
  {
    assert a * d == (a - 1) * d + d;
  }

  lemma MulMonotone(a: int, b: int, c: int)
    requires a <= b && c >= 0
    ensures a * c <= b * c
  {
    assert b * c - a * c == (b - a) * c;
  }

  /** Quotient and remainder are the only pair that rebuilds `k`. */
  lemma DivModUnique(k: int, d: int, q: int, r: int)
    requires 0 < d && 0 <= r < d && k == q * d + r
    ensures k / d == q && k % d == r
  {
    var q', r' := k / d, k % d;
    assert k == q' * d + r';
    if q' < q {
      MulAtLeastOnce(q - q', d);
      assert false;
    } else if q < q' {
      MulAtLeastOnce(q' - q, d);
      assert false;
    }
  }

  /** A quotient stays below `m` when the dividend stays below `m * d`. */
  lemma DivBelow(k: int, d: int, m: int)
    requires 0 <= k < m * d && 0 < d
    ensures 0 <= k / d < m
  {
    var q := k / d;
    assert k == q * d + k % d;
    if q >= m {
      MulMonotone(m, q, d);
      assert false;
    }
    if q < 0 {
      MulAtLeastOnce(-q, d);
      assert false;
    }
  }
}
