/**
 * Byte collections (`ByteSammlung`) of lib/stdlib/source/DDP/bytes.c.
 *
 * A collection is a list of `ddpint` words holding its bytes, together with
 * the number `len` of bytes in use. The model keeps the list as its memory:
 * 8 little-endian bytes per word, in order. Functions that write through a
 * `ret` out-parameter return the collection they build. A read past the end
 * of a buffer, which C leaves undefined, becomes the error `Overread`.
 */
module Bytes {
  import opened Wrappers
  import opened Ints

  /** `sizeof(ddpint)`. */
  const WORD: int := 8

  datatype ByteSammlung = ByteSammlung(mem: seq<byte>, len: int)

  datatype Failure = RuntimeError(code: int, msg: string) | Overread

  /** `DDP_EMPTY_BYTES`: no element array and no bytes. */
  const EMPTY: ByteSammlung := ByteSammlung([], 0)

  /** `UP_8(n)`: `(n + 7)` with its low three bits cleared, the least multiple of 8 that is at least n. */
  function Up8(n: int): (r: int)
    requires 0 <= n
    ensures r % 8 == 0 && n <= r < n + 8
  {
    (n + 7) - (n + 7) % 8
  }

  /** `ONES(n)`: `(1 << n) - 1`, the number whose n lowest bits are set (see `AndOnes`). */
  function Ones(n: nat): (r: nat)
    requires n <= 62
    ensures r + 1 == Pow2(n)
  {
    Pow2(n) - 1
  }

  /** Bitwise `&` of two non-negative numbers. */
  function BitAnd(a: nat, b: nat): nat
    decreases a
  {
    if a == 0 || b == 0 then 0
    else 2 * BitAnd(a / 2, b / 2) + (if a % 2 == 1 && b % 2 == 1 then 1 else 0)
  }

  /** One step of `&` with an all-ones mask: the low bit passes through. */
  lemma {:induction false} BitAndOddMask(u: nat, m: nat)
    requires u > 0 && m >= 1
    ensures BitAnd(u, 2 * m - 1) == 2 * BitAnd(u / 2, m - 1) + u % 2
  {
    DivModUnique(2 * m - 1, 2, m - 1, 1);
  }

  /** Masking with `ONES(n)` keeps the remainder modulo 2^n. */
  lemma {:induction false} AndOnes(u: nat, n: nat)
    ensures BitAnd(u, Pow2(n) - 1) == u % Pow2(n)
  {
    if n == 0 {
      assert Pow2(n) - 1 == 0 && BitAnd(u, 0) == 0;
    } else if u == 0 {
      assert BitAnd(u, Pow2(n) - 1) == 0;
    } else {
      AndOnes(u / 2, n - 1);
      AndOnesStep(u, Pow2(n - 1), Pow2(n));
    }
  }

  /** One bit of `AndOnes`: masking with `p - 1 = 2 * m - 1` keeps the low bit and masks the rest with `m - 1`. */
  lemma {:induction false} AndOnesStep(u: nat, m: nat, p: nat)
    requires u > 0 && m >= 1 && p == 2 * m
    requires BitAnd(u / 2, m - 1) == (u / 2) % m
    ensures BitAnd(u, p - 1) == u % p
  {
    BitAndOddMask(u, m);
    ModDouble(u, m);
  }

  /** The two's complement bit pattern of a `ddpint`, as an unsigned number. */
  function Unsigned(z: int64): (u: nat)
    ensures u < TWO_64
    ensures u % TWO_64 == z % TWO_64
  {
    if z < 0 then z + TWO_64 else z
  }

  /** The `ddpint` with bit pattern u. */
  function Signed(u: nat): (z: int64)
    requires u < TWO_64
    ensures Unsigned(z) == u
  {
    if u >= TWO_63 then u - TWO_64 else u
  }

  lemma {:induction false} SignedUnsigned(z: int64)
    ensures Signed(Unsigned(z)) == z
  {
  }

  // ---------------------------------------------------------------------
  // The little-endian layout of a word in memory.

  /** The n low bytes of u, least significant first. */
  function LE(u: nat, n: nat): (r: seq<byte>)
    ensures |r| == n
  {
    if n == 0 then [] else [u % 256] + LE(u / 256, n - 1)
  }

  /** The number whose little-endian bytes are s. */
  function Val(s: seq<byte>): nat {
    if |s| == 0 then 0 else s[0] + 256 * Val(s[1..])
  }

  lemma {:induction false} ValLE(u: nat, n: nat)
    requires u < Pow2(8 * n)
    ensures Val(LE(u, n)) == u
  {
    if n > 0 {
      Pow2Add(8, 8 * (n - 1));
      Pow2Facts();
      DivModUnique(u, 256, u / 256, u % 256);
      ValLE(u / 256, n - 1);
      assert LE(u, n)[1..] == LE(u / 256, n - 1);
    }
  }

  lemma {:induction false} ValBound(s: seq<byte>)
    ensures Val(s) < Pow2(8 * |s|)
  {
    if |s| > 0 {
      ValBound(s[1..]);
      Pow2Add(8, 8 * (|s| - 1));
      Pow2Facts();
    }
  }

  /** The value of s modulo 2^(8k) is the value of its first k bytes. */
  lemma {:induction false} ValPrefix(s: seq<byte>, k: nat)
    requires k <= |s|
    ensures Val(s) % Pow2(8 * k) == Val(s[..k])
  {
    if k == 0 {
      assert s[..0] == [];
    } else {
      var m := Pow2(8 * (k - 1));
      ValPrefix(s[1..], k - 1);
      assert s[..k][1..] == s[1..][..k - 1];
      Pow2Add(8, 8 * (k - 1));
      Pow2Facts();
      ModShift(s[0], Val(s[1..]), m);
    }
  }

  // ---------------------------------------------------------------------
  // Collections.

  /** n zero bytes. */
  function Zeros(n: nat): (r: seq<byte>)
    ensures |r| == n
    ensures forall i | 0 <= i < n :: r[i] == 0
  {
    seq(n, i => 0)
  }

  /**
   * The collections the library builds: the element array holds `UP_8(len)`
   * bytes and the bytes past `len` are zero.
   */
  ghost predicate Wf(b: ByteSammlung) {
    && 0 <= b.len
    && |b.mem| == Up8(b.len)
    && forall i | b.len <= i < |b.mem| :: b.mem[i] == 0
  }

  /** The bytes in use. */
  function Content(b: ByteSammlung): seq<byte>
    requires 0 <= b.len <= |b.mem|
  {
    b.mem[..b.len]
  }

  /**
   * `allocate_bytes(bytes, n)`: sets `len` to n and allocates enough
   * words for n bytes; returns the number of bytes allocated.
   */
  function AllocateBytes(n: nat): (r: (ByteSammlung, nat))
    ensures r.0.len == n && |r.0.mem| == r.1
    ensures r.1 % WORD == 0 && n <= r.1 < n + WORD
    ensures r.1 == Up8(n)
  {
    var needed := if n % WORD != 0 then Up8(n) else n;
    assert n % WORD == 0 ==> (n + 7) % 8 == 7;
    (ByteSammlung(Zeros(needed), n), needed)
  }

  /** `ByteSammlung_Von_Bis` as written: both 0-based bounds are clamped to [0, len]. */
  function VonBis(bytes: ByteSammlung, start: int64, end: int64): (r: Result<ByteSammlung, Failure>)
    ensures bytes.len <= 0 ==> r == Ok(EMPTY)
    ensures bytes.len > 0 ==>
      var s := Clamp(start - 1, 0, bytes.len);
      var e := Clamp(end - 1, 0, bytes.len);
      && (r == Err(RuntimeError(1, "Invalide Indexe")) <==> e < s)
      && (r == Err(Overread) <==> s <= e && e + 1 > |bytes.mem|)
      && (r.Ok? ==> Wf(r.value) && r.value.len == e - s + 1 && Content(r.value) == bytes.mem[s..e + 1])
  {
    if bytes.len <= 0 then Ok(EMPTY)
    else
      var e := Clamp(end - 1, 0, bytes.len);
      var s := Clamp(start - 1, 0, bytes.len);
      if e < s then Err(RuntimeError(1, "Invalide Indexe"))
      else
        var (ret, needed) := AllocateBytes(e - s + 1);
        if s + ret.len > |bytes.mem| then Err(Overread)
        else Ok(ByteSammlung(bytes.mem[s..s + ret.len] + Zeros(needed - ret.len), ret.len))
  }

  /** `ByteSammlung_Von_Bis` with the upper bound `len - 1` on both 0-based indices. */
  function VonBisIntended(bytes: ByteSammlung, start: int64, end: int64): (r: Result<ByteSammlung, Failure>)
    requires Wf(bytes)
    ensures bytes.len == 0 ==> r == Ok(EMPTY)
    ensures bytes.len > 0 ==>
      var s := Clamp(start - 1, 0, bytes.len - 1);
      var e := Clamp(end - 1, 0, bytes.len - 1);
      && (r.Err? <==> e < s)
      && (r.Err? ==> r.error == RuntimeError(1, "Invalide Indexe"))
      && (r.Ok? ==> Wf(r.value) && Content(r.value) == Content(bytes)[s..e + 1])
    ensures 1 <= start <= end <= bytes.len ==> r.Ok? && Content(r.value) == Content(bytes)[start - 1..end]
  {
    if bytes.len <= 0 then Ok(EMPTY)
    else
      var e := Clamp(end - 1, 0, bytes.len - 1);
      var s := Clamp(start - 1, 0, bytes.len - 1);
      if e < s then Err(RuntimeError(1, "Invalide Indexe"))
      else
        var (ret, needed) := AllocateBytes(e - s + 1);
        assert bytes.mem[s..s + ret.len] == Content(bytes)[s..e + 1];
        Ok(ByteSammlung(bytes.mem[s..s + ret.len] + Zeros(needed - ret.len), ret.len))
  }

  /** `ByteSammlung_Verkettet` as written: the second part is copied from a's array. */
  function Verkettet(a: ByteSammlung, b: ByteSammlung): (r: Result<ByteSammlung, Failure>)
    requires 0 <= a.len && 0 <= b.len
    ensures r.Err? <==> a.len > |a.mem| || b.len > |a.mem|
    ensures r.Err? ==> r.error == Overread
    ensures r.Ok? ==> Wf(r.value) && r.value.len == a.len + b.len
    ensures r.Ok? ==> Content(r.value) == a.mem[..a.len] + a.mem[..b.len]
  {
    var (ret, needed) := AllocateBytes(a.len + b.len);
    if a.len > |a.mem| || b.len > |a.mem| then Err(Overread)
    else Ok(ByteSammlung(a.mem[..a.len] + a.mem[..b.len] + Zeros(needed - ret.len), ret.len))
  }

  /** `ByteSammlung_Verkettet` reading its second part from b. */
  function VerkettetIntended(a: ByteSammlung, b: ByteSammlung): (r: ByteSammlung)
    requires Wf(a) && Wf(b)
    ensures Wf(r) && r.len == a.len + b.len
    ensures Content(r) == Content(a) + Content(b)
  {
    var (ret, needed) := AllocateBytes(a.len + b.len);
    ByteSammlung(a.mem[..a.len] + b.mem[..b.len] + Zeros(needed - ret.len), ret.len)
  }

  /** Concatenation is associative on the bytes in use. */
  lemma {:induction false} VerkettetAssociative(a: ByteSammlung, b: ByteSammlung, c: ByteSammlung)
    requires Wf(a) && Wf(b) && Wf(c)
    ensures VerkettetIntended(VerkettetIntended(a, b), c) == VerkettetIntended(a, VerkettetIntended(b, c))
  {
    var l := VerkettetIntended(VerkettetIntended(a, b), c);
    var r := VerkettetIntended(a, VerkettetIntended(b, c));
    assert Content(l) == Content(r);
    assert l.mem == Content(l) + l.mem[l.len..];
    assert r.mem == Content(r) + r.mem[r.len..];
    assert l.mem[l.len..] == r.mem[r.len..];
  }

  /** `Zahl_Als_ByteSammlung(z)`: one word holding z, 8 bytes in use. */
  function ZahlAlsByteSammlung(z: int64): (r: ByteSammlung)
    ensures Wf(r) && r.len == WORD
    ensures Val(r.mem) == Unsigned(z)
  {
    Pow2Facts();
    ValLE(Unsigned(z), 8);
    ByteSammlung(LE(Unsigned(z), 8), WORD)
  }

  /**
   * `ByteSammlung_Als_Zahl` as written: the first word, masked to its `len`
   * low bytes when `len < 8`; it reads the first word even when the
   * collection has none.
   */
  function AlsZahl(b: ByteSammlung): (r: Result<int64, Failure>)
    requires 0 <= b.len
    ensures r.Err? <==> |b.mem| < WORD
    ensures r.Err? ==> r.error == Overread
    ensures r.Ok? && b.len >= WORD ==> Unsigned(r.value) == Val(b.mem[..WORD])
    ensures r.Ok? && b.len < WORD ==> r.value == Val(b.mem[..b.len])
  {
    if |b.mem| < WORD then Err(Overread)
    else
      ValBound(b.mem[..WORD]);
      Pow2Facts();
      var w := Signed(Val(b.mem[..WORD]));
      if b.len >= WORD then Ok(w)
      else
        AlsZahlMask(b.mem[..WORD], b.len);
        assert b.mem[..WORD][..b.len] == b.mem[..b.len];
        Ok(Signed(BitAnd(Unsigned(w), Ones(b.len * 8))))
  }

  lemma {:induction false} AlsZahlMask(s: seq<byte>, len: nat)
    requires |s| == WORD && len < WORD
    ensures Val(s) < TWO_64
    ensures BitAnd(Val(s), Ones(len * 8)) == Val(s[..len]) < TWO_63
  {
    WordBound(s);
    MaskIsPrefix(s, len);
    PrefixBelow(s, len);
  }

  lemma {:induction false} WordBound(s: seq<byte>)
    requires |s| == WORD
    ensures Val(s) < TWO_64
  {
    ValBound(s);
    Pow2Facts();
  }

  /** Masking the low len bytes of a little-endian value keeps exactly those bytes. */
  lemma {:induction false} MaskIsPrefix(s: seq<byte>, len: nat)
    requires len <= |s| && len < WORD
    ensures BitAnd(Val(s), Ones(len * 8)) == Val(s[..len])
  {
    var n := len * 8;
    assert n == 8 * len;
    AndOnes(Val(s), n);
    ValPrefix(s, len);
  }

  lemma {:induction false} PrefixBelow(s: seq<byte>, len: nat)
    requires len <= |s| && len < WORD
    ensures Val(s[..len]) < TWO_63
  {
    ValBound(s[..len]);
    assert 8 * |s[..len]| == 8 * len <= 56;
    Pow2Monotone(8 * len, 56);
    Pow2Facts();
  }

  /** `ByteSammlung_Als_Zahl` giving 0 for a collection without an element array. */
  function AlsZahlIntended(b: ByteSammlung): (r: int64)
    requires Wf(b)
    ensures b.len >= WORD ==> Unsigned(r) == Val(b.mem[..WORD])
    ensures b.len < WORD ==> r == Val(b.mem[..b.len])
  {
    if b.len == 0 then 0
    else
      assert |b.mem| >= WORD;
      AlsZahl(b).value
  }

  /** A number survives the trip through a byte collection. */
  lemma {:induction false} ZahlRoundTrip(z: int64)
    ensures AlsZahl(ZahlAlsByteSammlung(z)) == Ok(z)
    ensures AlsZahlIntended(ZahlAlsByteSammlung(z)) == z
  {
    var b := ZahlAlsByteSammlung(z);
    assert b.mem[..WORD] == b.mem;
    SignedUnsigned(z);
  }

  // ---------------------------------------------------------------------
  // Inputs on which the code as written and the evident intent differ.

  /** Asking for bytes 1 to 9 of an 8-byte collection reads a ninth byte past its array. */
  lemma {:induction false} VonBisReadsPastArray()
    ensures VonBis(ZahlAlsByteSammlung(0), 1, 9) == Err(Overread)
    ensures VonBisIntended(ZahlAlsByteSammlung(0), 1, 9) == Ok(ZahlAlsByteSammlung(0))
  {
    var b := ZahlAlsByteSammlung(0);
    var r := VonBisIntended(b, 1, 9);
    assert Content(r.value) == Content(b);
    assert r.value.mem == Content(r.value);
    assert b.mem == Content(b);
  }

  /** Bytes 1 to 4 of a 3-byte collection come back as 4 bytes, the last one padding. */
  lemma {:induction false} VonBisPastContent()
    ensures var b := ByteSammlung([1, 2, 3, 0, 0, 0, 0, 0], 3);
      VonBis(b, 1, 4) == Ok(ByteSammlung([1, 2, 3, 0, 0, 0, 0, 0], 4))
  {
    var b := ByteSammlung([1, 2, 3, 0, 0, 0, 0, 0], 3);
    assert Clamp(3, 0, 3) == 3 && Clamp(0, 0, 3) == 0;
    var r := VonBis(b, 1, 4);
    assert r.Ok? && r.value.len == 4;
    assert Up8(4) == 8;
    var m := r.value.mem;
    assert m[..4] == b.mem[0..4];
    assert m[0] == 1 && m[1] == 2 && m[2] == 3 && m[3] == 0;
    assert m[4] == 0 && m[5] == 0 && m[6] == 0 && m[7] == 0;
    assert m == [1, 2, 3, 0, 0, 0, 0, 0];
  }

  /** Concatenating a collection holding 1 with one holding 2 repeats the 1. */
  lemma {:induction false} VerkettetCopiesFirstTwice()
    ensures var a, b := ByteSammlung([1, 0, 0, 0, 0, 0, 0, 0], 1), ByteSammlung([2, 0, 0, 0, 0, 0, 0, 0], 1);
      && Wf(a) && Wf(b)
      && Verkettet(a, b).Ok?
      && Content(Verkettet(a, b).value) == [1, 1]
      && Content(Verkettet(a, b).value) != Content(a) + Content(b)
  {
    var a, b := ByteSammlung([1, 0, 0, 0, 0, 0, 0, 0], 1), ByteSammlung([2, 0, 0, 0, 0, 0, 0, 0], 1);
    assert Content(a) == [1] && Content(b) == [2];
    assert Content(Verkettet(a, b).value) == [1, 1];
    assert (Content(a) + Content(b))[1] == 2;
  }

  /** The empty collection has no element array to read a number from. */
  lemma {:induction false} AlsZahlOfEmpty()
    ensures AlsZahl(EMPTY) == Err(Overread)
    ensures AlsZahlIntended(EMPTY) == 0
  {
  }
}
