/**
 * The runtime's integer type `ddpint` (a signed 64-bit integer), the
 * `clamp` helper that lib/stdlib/source/DDP/bytes.c and
 * lib/runtime/source/operators.c both define, and the arithmetic facts the
 * other modules use.
 */
module Ints {

  const TWO_63: int := 0x8000_0000_0000_0000
  const TWO_64: int := 0x1_0000_0000_0000_0000

  /** An unsigned 8-bit value: a C `char` of a string or a byte of a collection. */
  type byte = b: int | 0 <= b < 256

  /** `ddpint`. */
  type int64 = x: int | -0x8000_0000_0000_0000 <= x < 0x8000_0000_0000_0000

  /**
   * `clamp(i, min, max)`: i raised to min and then lowered to max, so
   * inside [min, max] whenever that range is non-empty.
   */
  function Clamp(i: int, lo: int, hi: int): (r: int)
    ensures lo <= hi ==> lo <= r <= hi
    ensures lo <= i <= hi ==> r == i
    ensures lo <= hi && i < lo ==> r == lo
    ensures i > hi ==> r == hi
    ensures hi < lo ==> r == hi
  {
    var t := if i < lo then lo else i;
    if t > hi then hi else t
  }

  /** 2 to the power k. */
  function Pow2(k: nat): (r: nat)
    ensures r >= 1
  {
    if k == 0 then 1 else 2 * Pow2(k - 1)
  }

  lemma {:induction false} Pow2Add(a: nat, b: nat)
    ensures Pow2(a + b) == Pow2(a) * Pow2(b)
    decreases a
  {
    if a > 0 {
      Pow2Add(a - 1, b);
    }
  }

  lemma {:induction false} Pow2Monotone(a: nat, b: nat)
    requires a <= b
    ensures Pow2(a) <= Pow2(b)
    decreases b
  {
    if a < b {
      Pow2Monotone(a, b - 1);
    }
  }

  lemma {:induction false} MulAtLeast(d: int, k: int)
    requires d > 0 && k >= 1
    ensures d * k >= d
    decreases k
  {
    if k > 1 {
      MulAtLeast(d, k - 1);
      assert d * k == d * (k - 1) + d;
    }
  }

  /** Division with remainder has one answer. */
  lemma {:induction false} DivModUnique(x: int, d: int, q: int, r: int)
    requires d > 0 && 0 <= r < d && x == d * q + r
    ensures x / d == q && x % d == r
  {
    var q0, r0 := x / d, x % d;
    assert x == d * q0 + r0;
    assert d * q - d * q0 == r0 - r;
    assert d * (q - q0) == r0 - r;
    if q > q0 {
      MulAtLeast(d, q - q0);
    } else if q < q0 {
      MulAtLeast(d, q0 - q);
    }
  }

  /** The powers of two the 64-bit layout needs. */
  lemma {:induction false} Pow2Facts()
    ensures Pow2(8) == 256
    ensures Pow2(16) == 0x1_0000
    ensures Pow2(32) == 0x1_0000_0000
    ensures Pow2(56) == 0x100_0000_0000_0000
    ensures Pow2(63) == TWO_63
    ensures Pow2(64) == TWO_64
  {
    assert Pow2(8) == 256;
    Pow2Add(8, 8);
    Pow2Add(16, 16);
    Pow2Add(32, 16);
    Pow2Add(48, 8);
    Pow2Add(56, 7);
    assert Pow2(7) == 128;
    Pow2Add(32, 32);
  }

  /** Halving: u mod 2m is twice (u/2 mod m) plus the low bit. */
  lemma {:induction false} ModDouble(u: nat, m: nat)
    requires m >= 1
    ensures u % (2 * m) == 2 * ((u / 2) % m) + u % 2
  {
    var h, b := u / 2, u % 2;
    var q, low := h / m, h % m;
    assert h == m * q + low;
    assert u == 2 * h + b;
    assert 2 * (m * q) == (2 * m) * q;
    assert u == (2 * m) * q + (2 * low + b);
    DivModUnique(u, 2 * m, q, 2 * low + b);
  }

  /** A low byte a below 256 shifts through a modulus that is a multiple of 256. */
  lemma {:induction false} ModShift(a: nat, v: nat, m: nat)
    requires a < 256 && m >= 1
    ensures (a + 256 * v) % (256 * m) == a + 256 * (v % m)
  {
    var q, low := v / m, v % m;
    assert v == m * q + low;
    assert 256 * (m * q) == (256 * m) * q;
    assert a + 256 * v == (256 * m) * q + (a + 256 * low);
    DivModUnique(a + 256 * v, 256 * m, q, a + 256 * low);
  }
}
