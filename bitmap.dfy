/**
 * The 64-bit occupancy bitmap of a reference-count block (the `used` field
 * of `RefcBlock` in lib/runtime/source/DDP/ddprefcount.c), kept as its 64
 * bits: element i of a word is bit i, the bit of cell i of the block.
 * The word operations the pool applies to it are defined here by what they
 * do to each bit.
 */
module Bitmap {

  /** Cells per block, one per bit of the bitmap. */
  const LANES: int := 64

  /** A bit index of the bitmap. */
  type Lane = i: int | 0 <= i < 64

  /** n copies of x: a bitmap of one bit value, or the zeroed counts of a new block. */
  function Fill<T>(n: nat, x: T): (r: seq<T>)
    ensures |r| == n
    ensures forall i | 0 <= i < n :: r[i] == x
  {
    seq(n, i => x)
  }

  /** A 64-bit word, bit i at index i. */
  type Word = s: seq<bool> | |s| == 64 witness Fill(64, false)

  /** `ALL_FREE` (0ULL): no bit set. */
  const ALL_FREE: Word := Fill(64, false)

  /** `ALL_USED` (~0ULL): every bit set. */
  const ALL_USED: Word := Fill(64, true)

  /** `u | (1ULL << i)` */
  function SetBit(u: Word, i: Lane): (r: Word)
    ensures r[i]
    ensures forall j: Lane :: j != i ==> r[j] == u[j]
  {
    u[i := true]
  }

  /** `u & ~(1ULL << i)` */
  function ClearBit(u: Word, i: Lane): (r: Word)
    ensures !r[i]
    ensures forall j: Lane :: j != i ==> r[j] == u[j]
  {
    u[i := false]
  }

  /** `~u` */
  function Complement(u: Word): (r: Word)
    ensures forall j: Lane :: r[j] == !u[j]
  {
    seq(64, j requires 0 <= j < 64 => !u[j])
  }

  /** A word equals `ALL_FREE` exactly when none of its bits is set. */
  lemma {:induction false} FreeIffNoBits(u: Word)
    ensures u == ALL_FREE <==> forall j: Lane :: !u[j]
  {
    if forall j: Lane :: !u[j] {
      assert forall j | 0 <= j < 64 :: u[j] == ALL_FREE[j];
    }
  }

  /** A word equals `ALL_USED` exactly when all of its bits are set. */
  lemma {:induction false} UsedIffAllBits(u: Word)
    ensures u == ALL_USED <==> forall j: Lane :: u[j]
  {
    if forall j: Lane :: u[j] {
      assert forall j | 0 <= j < 64 :: u[j] == ALL_USED[j];
    }
  }

  /** Complementing twice gives the word back. */
  lemma {:induction false} ComplementInvolutive(u: Word)
    ensures Complement(Complement(u)) == u
  {
  }

  /** The 1-based position of the lowest set bit at or above k, 0 when there is none. */
  function LowestSetFrom(x: Word, k: int): (r: int)
    requires 0 <= k <= 64
    requires forall j: Lane :: j < k ==> !x[j]
    ensures r == 0 || k < r <= 64
    ensures r == 0 ==> forall j: Lane :: !x[j]
    ensures r > 0 ==> x[r - 1] && forall j: Lane :: j < r - 1 ==> !x[j]
    decreases 64 - k
  {
    if k == 64 then 0
    else if x[k] then k + 1
    else LowestSetFrom(x, k + 1)
  }

  /** `ffsll(x)`: 0 when x is zero, otherwise one plus the index of its lowest set bit. */
  function Ffsll(x: Word): (r: int)
    ensures 0 <= r <= 64
    ensures r == 0 <==> x == ALL_FREE
    ensures r > 0 ==> x[r - 1] && forall j: Lane :: j < r - 1 ==> !x[j]
  {
    FreeIffNoBits(x);
    LowestSetFrom(x, 0)
  }

  /**
   * `ffsll(~u) - 1` on a word other than `ALL_USED` is the lowest clear bit
   * of u: that bit is clear and every bit below it is set.
   */
  lemma {:induction false} FirstZero(u: Word)
    requires u != ALL_USED
    ensures 0 <= Ffsll(Complement(u)) - 1 < 64
    ensures !u[Ffsll(Complement(u)) - 1]
    ensures forall j: Lane :: j < Ffsll(Complement(u)) - 1 ==> u[j]
  {
    UsedIffAllBits(u);
    FreeIffNoBits(Complement(u));
  }

  /** The word whose bits below n are set and the rest clear. */
  function Prefix(n: int): (r: Word)
    requires 0 <= n <= 64
    ensures forall j: Lane :: r[j] <==> j < n
  {
    seq(64, j => j < n)
  }

  /** The pool fills a block from the bottom: after bits 0..n-1 comes bit n. */
  lemma {:induction false} PrefixGrows(n: int)
    requires 0 <= n < 64
    ensures Prefix(n) != ALL_USED
    ensures Ffsll(Complement(Prefix(n))) - 1 == n
    ensures SetBit(Prefix(n), n) == Prefix(n + 1)
  {
    assert !Prefix(n)[63] && !Prefix(n)[n];
    FirstZero(Prefix(n));
    assert SetBit(Prefix(n), n)[..] == Prefix(n + 1)[..];
  }

  lemma {:induction false} PrefixFull()
    ensures Prefix(64) == ALL_USED && Prefix(0) == ALL_FREE
  {
    assert Prefix(64)[..] == ALL_USED[..];
    assert Prefix(0)[..] == ALL_FREE[..];
  }
}
