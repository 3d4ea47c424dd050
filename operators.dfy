/**
 * The string operators of lib/runtime/source/operators.c on `ddpstring`.
 *
 * A `ddpstring` is a heap buffer `str` together with `cap`, the number of
 * bytes the string occupies including its NUL terminator. The operators
 * update both in place. Buffers are modelled as byte sequences, so
 * `reallocate`, `memcpy` and `memmove` become sequence updates; the
 * character widths come from the UTF-8 stand-in of module Utf8.
 */
module Operators {
  import opened Ints
  import opened Wrappers
  import opened Utf8

  datatype Failure =
    | RuntimeError(code: int, msg: string)
      /** The copy length wraps around: the character has no encoding, so the width is -1. */
    | CopyOverflow

  /** `runtime_error(1, "Index außerhalb der Text Länge ...")` */
  const INDEX_ERROR: Failure := RuntimeError(1, "Index außerhalb der Text Länge")

  /** `runtime_error(1, "Invalide Indexe ...")` */
  const SLICE_ERROR: Failure := RuntimeError(1, "Invalide Indexe")

  /** A buffer as the runtime keeps it: exactly cap bytes, a text, then one NUL. */
  ghost predicate WellFormed(buf: seq<byte>, cap: int) {
    && cap >= 1
    && |buf| == cap
    && buf[cap - 1] == 0
    && Text(buf[..cap - 1])
  }

  /** What C's string functions (`strlen`, printing) read from a buffer: the bytes before its first NUL. */
  function CString(buf: seq<byte>): (r: seq<byte>)
    ensures |r| <= |buf| && r == buf[..|r|]
    ensures forall j | 0 <= j < |r| :: r[j] != 0
    ensures |r| < |buf| ==> buf[|r|] == 0
  {
    if |buf| == 0 || buf[0] == 0 then [] else [buf[0]] + CString(buf[1..])
  }

  /** C reads bytes without NUL followed by NUL as those bytes, whatever comes after the NUL. */
  lemma {:induction false} CStringStops(t: seq<byte>, rest: seq<byte>)
    requires forall j | 0 <= j < |t| :: t[j] != 0
    ensures CString(t + [0] + rest) == t
    decreases |t|
  {
    var b := t + [0] + rest;
    if |t| == 0 {
      assert b[0] == 0;
    } else {
      assert b[0] == t[0] && b[1..] == t[1..] + [0] + rest;
      CStringStops(t[1..], rest);
    }
  }

  /** C reads a text followed by NUL as that text. */
  lemma {:induction false} CStringOfText(t: seq<byte>, rest: seq<byte>)
    requires Text(t)
    ensures CString(t + [0] + rest) == t
  {
    TextNoNul(t);
    CStringStops(t, rest);
  }

  /** Bytes with a NUL among them are no text. */
  lemma {:induction false} NulNotText(s: seq<byte>, j: int)
    requires 0 <= j < |s| && s[j] == 0
    ensures !Text(s)
  {
    if Text(s) {
      TextNoNul(s);
    }
  }

  // ---------------------------------------------------------------------
  // The buffers the operations leave behind.

  /** `inbuilt_string_string_verkettet`: str1 without its terminator, then cap2 bytes of str2. */
  function Joined(buf1: seq<byte>, cap1: int, buf2: seq<byte>, cap2: int): (r: seq<byte>)
    requires 1 <= cap1 <= |buf1| && 0 <= cap2 <= |buf2|
    ensures |r| == cap1 - 1 + cap2
  {
    buf1[..cap1 - 1] + buf2[..cap2]
  }

  /** Concatenating two well-formed strings gives a well-formed string of both texts. */
  lemma {:induction false} JoinedText(buf1: seq<byte>, cap1: int, buf2: seq<byte>, cap2: int)
    requires WellFormed(buf1, cap1) && WellFormed(buf2, cap2)
    ensures WellFormed(Joined(buf1, cap1, buf2, cap2), cap1 - 1 + cap2)
    ensures Joined(buf1, cap1, buf2, cap2)[..cap1 - 1 + cap2 - 1] == buf1[..cap1 - 1] + buf2[..cap2 - 1]
    ensures Chars(buf1[..cap1 - 1] + buf2[..cap2 - 1]) == Chars(buf1[..cap1 - 1]) + Chars(buf2[..cap2 - 1])
  {
    var t1, t2 := buf1[..cap1 - 1], buf2[..cap2 - 1];
    TextConcat(t1, t2);
    Terminated(buf2, cap2);
    AppendAssoc(t1, t2, [0]);
    WellFormedOf(Joined(buf1, cap1, buf2, cap2), cap1 - 1 + cap2, t1 + t2);
  }

  /** The bytes `utf8_char_to_string` writes, with the width -1 of an invalid character taken as 0. */
  function EncodedOrEmpty(c: int): (e: seq<byte>)
    ensures |e| <= 4
    ensures Encode(c).Some? ==> e == Encode(c).value
    ensures Encode(c).None? ==> e == []
  {
    if Encode(c).Some? then Encode(c).value else []
  }

  /** The characters c contributes to a text: one, or none when it has no encoding. */
  function CharsOf(c: int): (r: seq<seq<byte>>)
    requires c != 0
    ensures |r| <= 1 && Flatten(r) == EncodedOrEmpty(c)
    ensures forall k | 0 <= k < |r| :: IsChar(r[k])
  {
    if Encode(c).Some? then [Encode(c).value] else []
  }

  /** A character put in front of a well-formed string gives a well-formed string one character longer. */
  lemma {:induction false} PrependedText(c: int, buf: seq<byte>, cap: int)
    requires WellFormed(buf, cap) && c != 0
    ensures var e := EncodedOrEmpty(c);
      && WellFormed(e + buf[..cap], cap + |e|)
      && Chars((e + buf[..cap])[..cap + |e| - 1]) == CharsOf(c) + Chars(buf[..cap - 1])
  {
    var e, t := EncodedOrEmpty(c), buf[..cap - 1];
    CharsOfText(c);
    TextConcat(e, t);
    Terminated(buf, cap);
    AppendAssoc(e, t, [0]);
    WellFormedOf(e + buf[..cap], cap + |e|, e + t);
  }

  /** The first cap bytes of a well-formed buffer are its text and the terminator. */
  lemma {:induction false} Terminated(buf: seq<byte>, cap: int)
    requires WellFormed(buf, cap)
    ensures buf[..cap] == buf[..cap - 1] + [0]
  {
  }

  /** A text followed by a terminator is a well-formed buffer. */
  lemma {:induction false} WellFormedOf(r: seq<byte>, n: int, u: seq<byte>)
    requires Text(u) && r == u + [0] && n == |u| + 1
    ensures WellFormed(r, n) && r[..n - 1] == u
  {
    assert r[..n - 1] == u;
  }

  lemma {:induction false} CharsOfText(c: int)
    requires c != 0
    ensures Text(EncodedOrEmpty(c)) && Chars(EncodedOrEmpty(c)) == CharsOf(c)
  {
    CharsFlatten(CharsOf(c));
  }

  /** `inbuilt_string_char_verkettet`'s buffer: the text, the encoding of c, a new NUL. */
  function Appended(buf: seq<byte>, cap: int, e: seq<byte>): (r: seq<byte>)
    requires 1 <= cap <= |buf|
    ensures |r| == cap + |e|
  {
    buf[..cap - 1] + e + [0]
  }

  /** The last n bytes of a buffer (all of it when it is shorter). */
  function Last(buf: seq<byte>, n: nat): (r: seq<byte>)
    ensures n <= |buf| ==> r == buf[|buf| - n..]
  {
    if n <= |buf| then buf[|buf| - n..] else buf
  }

  /**
   * `inbuilt_replace_char_in_string` as written: character k becomes e. A
   * narrower e moves the tail (with its NUL) left and keeps cap, so the
   * last cap - |tail| bytes stay as they were; an equal or wider e leaves a
   * buffer of cap - w + |e| bytes.
   */
  ghost function Replaced(buf: seq<byte>, cap: int, k: nat, e: seq<byte>): (r: (seq<byte>, int))
    requires WellFormed(buf, cap) && k < Strlen(buf[..cap - 1])
  {
    var t := buf[..cap - 1];
    var w := |Chars(t)[k]|;
    if |e| < w then (Splice(t, k, e) + [0] + Last(buf, w - |e|), cap)
    else (Splice(t, k, e) + [0], cap - w + |e|)
  }

  /** After an equal or wider replacement the string is well formed with one character changed. */
  lemma {:induction false} ReplacedWider(buf: seq<byte>, cap: int, k: nat, e: seq<byte>)
    requires WellFormed(buf, cap) && k < Strlen(buf[..cap - 1])
    requires IsChar(e) && |e| >= |Chars(buf[..cap - 1])[k]|
    ensures WellFormed(Replaced(buf, cap, k, e).0, Replaced(buf, cap, k, e).1)
    ensures Chars(Replaced(buf, cap, k, e).0[..Replaced(buf, cap, k, e).1 - 1]) == Chars(buf[..cap - 1])[k := e]
  {
    var t := buf[..cap - 1];
    SpliceChars(t, k, e);
    SpliceLength(t, k, e);
    var s := Splice(t, k, e);
    assert (s + [0])[..|s|] == s;
  }

  /** A splice is as long as the text, less the old character, plus the new bytes. */
  lemma {:induction false} SpliceLength(t: seq<byte>, k: nat, e: seq<byte>)
    requires Text(t) && k < Strlen(t)
    ensures |Splice(t, k, e)| == |t| - |Chars(t)[k]| + |e|
  {
    OffsetStep(t, k);
  }

  /**
   * After a narrower replacement C still reads the right text, but the
   * buffer holds a NUL before position cap - 1: cap no longer counts the
   * string's bytes.
   */
  lemma {:induction false} ReplacedNarrower(buf: seq<byte>, cap: int, k: nat, e: seq<byte>)
    requires WellFormed(buf, cap) && k < Strlen(buf[..cap - 1])
    requires IsChar(e) && |e| < |Chars(buf[..cap - 1])[k]|
    ensures Replaced(buf, cap, k, e).1 == cap
    ensures CString(Replaced(buf, cap, k, e).0) == Splice(buf[..cap - 1], k, e)
    ensures !WellFormed(Replaced(buf, cap, k, e).0, Replaced(buf, cap, k, e).1)
  {
    var t := buf[..cap - 1];
    var w := |Chars(t)[k]|;
    SpliceChars(t, k, e);
    SpliceLength(t, k, e);
    var s := Splice(t, k, e);
    var r := s + [0] + Last(buf, w - |e|);
    CStringOfText(s, Last(buf, w - |e|));
    assert r[..cap - 1][|s|] == 0;
    NulNotText(r[..cap - 1], |s|);
  }

  /** `inbuilt_replace_char_in_string` with cap set to the new length in every case. */
  ghost function ReplacedIntended(buf: seq<byte>, cap: int, k: nat, e: seq<byte>): (r: (seq<byte>, int))
    requires WellFormed(buf, cap) && k < Strlen(buf[..cap - 1])
  {
    var t := buf[..cap - 1];
    (Splice(t, k, e) + [0], cap - |Chars(t)[k]| + |e|)
  }

  /** The corrected replacement leaves a well-formed string with one character changed. */
  lemma {:induction false} ReplacedIntendedText(buf: seq<byte>, cap: int, k: nat, e: seq<byte>)
    requires WellFormed(buf, cap) && k < Strlen(buf[..cap - 1]) && IsChar(e)
    ensures WellFormed(ReplacedIntended(buf, cap, k, e).0, ReplacedIntended(buf, cap, k, e).1)
    ensures Chars(ReplacedIntended(buf, cap, k, e).0[..ReplacedIntended(buf, cap, k, e).1 - 1])
         == Chars(buf[..cap - 1])[k := e]
  {
    var t := buf[..cap - 1];
    SpliceChars(t, k, e);
    SpliceLength(t, k, e);
    var s := Splice(t, k, e);
    assert (s + [0])[..|s|] == s;
  }

  /** Character k of a well-formed buffer starts at byte i; its lead byte gives its width. */
  lemma {:induction false} CharAt(buf: seq<byte>, cap: int, k: nat, i: nat)
    requires WellFormed(buf, cap) && k < Strlen(buf[..cap - 1]) && i == Offset(buf[..cap - 1], k)
    ensures i < cap - 1 && i + Width(buf[i]) <= cap - 1
    ensures Width(buf[i]) == |Chars(buf[..cap - 1])[k]|
    ensures buf[i..i + Width(buf[i])] == Chars(buf[..cap - 1])[k]
  {
    var t := buf[..cap - 1];
    OffsetStep(t, k);
    assert buf[i] == t[i];
    SliceOfTake(buf, cap - 1, i, i + Width(buf[i]));
  }

  /**
   * The bytes before character k are the text's, and those after it are
   * the rest of the text and the terminator.
   */
  lemma {:induction false} TailAt(buf: seq<byte>, cap: int, k: nat, i: nat)
    requires WellFormed(buf, cap) && k < Strlen(buf[..cap - 1]) && i == Offset(buf[..cap - 1], k)
    requires i < cap - 1 && i + Width(buf[i]) <= cap - 1
    ensures Offset(buf[..cap - 1], k + 1) == i + Width(buf[i])
    ensures buf[..i] == buf[..cap - 1][..i]
    ensures buf[i + Width(buf[i])..cap] == buf[..cap - 1][i + Width(buf[i])..] + [0]
  {
    var t := buf[..cap - 1];
    OffsetStep(t, k);
    assert buf[i] == t[i];
    var j := i + Width(buf[i]);
    assert buf[j..cap] == buf[j..cap - 1] + [buf[cap - 1]];
    assert buf[j..cap - 1] == t[j..];
  }

  lemma {:induction false} SpliceAt(buf: seq<byte>, cap: int, k: nat, i: nat, e: seq<byte>)
    requires WellFormed(buf, cap) && k < Strlen(buf[..cap - 1]) && i == Offset(buf[..cap - 1], k)
    requires i < cap - 1 && i + Width(buf[i]) <= cap - 1
    ensures buf[..i] + e + buf[i + Width(buf[i])..cap] == Splice(buf[..cap - 1], k, e) + [0]
  {
    TailAt(buf, cap, k, i);
    var t := buf[..cap - 1];
    var front, back := t[..i], t[i + Width(buf[i])..];
    assert Splice(t, k, e) == front + e + back;
    assert front + e + (back + [0]) == (front + e + back) + [0];
  }

  /** memcpy of e at i followed by memmove of the tail from i + w down to i + |e|. */
  lemma {:induction false} MoveDown<T>(buf: seq<T>, cap: nat, i: nat, e: seq<T>, w: nat)
    requires |e| < w && i + w <= cap == |buf|
    ensures var s1 := buf[..i] + e + buf[i + |e|..];
      && |s1| == cap
      && s1[..i + |e|] + s1[i + w..cap] + s1[cap - (w - |e|)..]
         == buf[..i] + e + buf[i + w..cap] + buf[cap - (w - |e|)..]
  {
    var s1 := buf[..i] + e + buf[i + |e|..];
    assert s1[..i + |e|] == buf[..i] + e;
    assert s1[i + w..cap] == buf[i + w..cap];
    assert s1[cap - (w - |e|)..] == buf[cap - (w - |e|)..];
  }

  /**
   * The byte steps of `inbuilt_replace_char_in_string`: the w bytes of the old character at i
   * are overwritten by e; for a narrower e the tail (with its NUL) is moved
   * down by memmove inside the old buffer, for a wider e everything is
   * copied into a new buffer of cap - w + |e| bytes.
   */
  method ReplaceBytes(buf: seq<byte>, cap: nat, i: nat, w: nat, e: seq<byte>) returns (out: seq<byte>, n: nat)
    requires |buf| == cap && i + w <= cap
    ensures |e| < w ==> out == buf[..i] + e + buf[i + w..] + buf[cap - (w - |e|)..] && n == cap
    ensures |e| >= w ==> out == buf[..i] + e + buf[i + w..] && n == cap - w + |e|
  {
    if w == |e| {
      out := buf[..i] + e + buf[i + |e|..];
      n := cap;
    } else if w > |e| {
      MoveDown(buf, cap, i, e, w);
      out := buf[..i] + e + buf[i + |e|..];
      out := out[..i + |e|] + out[i + w..cap] + out[cap - (w - |e|)..];
      n := cap;
    } else {
      n := cap - w + |e|;
      out := buf[..i] + e + buf[i + w..cap];
    }
  }

  /** The buffer and cap `ReplaceBytes` leaves at character k are the ones `Replaced` describes. */
  lemma {:induction false} ReplacedAt(buf: seq<byte>, cap: int, k: nat, i: nat, e: seq<byte>, out: seq<byte>, n: int)
    requires WellFormed(buf, cap) && k < Strlen(buf[..cap - 1]) && i == Offset(buf[..cap - 1], k)
    requires i < cap - 1 && i + Width(buf[i]) <= cap - 1
    requires |e| < Width(buf[i]) ==>
      out == buf[..i] + e + buf[i + Width(buf[i])..] + buf[cap - (Width(buf[i]) - |e|)..] && n == cap
    requires |e| >= Width(buf[i]) ==> out == buf[..i] + e + buf[i + Width(buf[i])..] && n == cap - Width(buf[i]) + |e|
    ensures Replaced(buf, cap, k, e) == (out, n)
  {
    CharAt(buf, cap, k, i);
    SpliceAt(buf, cap, k, i, e);
    assert buf[i + Width(buf[i])..] == buf[i + Width(buf[i])..cap];
    if |e| < Width(buf[i]) {
      assert Last(buf, Width(buf[i]) - |e|) == buf[cap - (Width(buf[i]) - |e|)..];
    }
  }

  /** The corrected replacement in every case: the spliced text and the new cap. */
  lemma {:induction false} ReplaceIntendedAt(buf: seq<byte>, cap: int, k: nat, i: nat, e: seq<byte>, out: seq<byte>, n: int)
    requires WellFormed(buf, cap) && k < Strlen(buf[..cap - 1]) && i == Offset(buf[..cap - 1], k)
    requires i < cap - 1 && i + Width(buf[i]) <= cap - 1
    requires out == buf[..i] + e + buf[i + Width(buf[i])..cap] && n == cap - Width(buf[i]) + |e|
    ensures ReplacedIntended(buf, cap, k, e) == (out, n)
  {
    CharAt(buf, cap, k, i);
    SpliceAt(buf, cap, k, i, e);
  }

  /** Characters a to b (1-based) of a text, joined; empty when b is a - 1. */
  function SliceChars(t: seq<byte>, a: int, b: int): seq<byte>
    requires Text(t) && 1 <= a <= b + 1 <= Strlen(t) + 1
  {
    Flatten(Chars(t)[a - 1..b])
  }

  lemma {:induction false} SliceCharsText(t: seq<byte>, a: int, b: int)
    requires Text(t) && 1 <= a <= b + 1 <= Strlen(t) + 1
    ensures Text(SliceChars(t, a, b)) && Chars(SliceChars(t, a, b)) == Chars(t)[a - 1..b]
  {
    var cs := Chars(t);
    var sub := cs[a - 1..b];
    forall k | 0 <= k < |sub|
      ensures IsChar(sub[k])
    {
      assert sub[k] == cs[a - 1 + k];
    }
    CharsFlatten(sub);
  }

  /**
   * `inbuilt_string_slice` as written: characters a to b - 1, then only the
   * lead byte of character b, which drops the rest of a multi-byte last
   * character.
   */
  function SliceBytes(t: seq<byte>, a: int, b: int): seq<byte>
    requires Text(t) && 1 <= a <= b <= Strlen(t)
  {
    SliceChars(t, a, b - 1) + [Chars(t)[b - 1][0]]
  }

  /** The last byte of a text never starts a longer character. */
  lemma {:induction false} TextLastByte(s: seq<byte>)
    requires Text(s) && |s| > 0
    ensures Width(s[|s| - 1]) == 1
    decreases |s|
  {
    var w := Width(s[0]);
    CharsCons(s);
    if w < |s| {
      TextLastByte(s[w..]);
      assert s[|s| - 1] == s[w..][|s| - w - 1];
    } else if w > 1 {
      assert s[..w][w - 1] == s[|s| - 1];
      assert IsCont(s[|s| - 1]);
    }
  }

  /** A byte sequence ending in the lead byte of a wider character is no text. */
  lemma {:induction false} WideLastNotText(s: seq<byte>)
    requires |s| > 0 && Width(s[|s| - 1]) > 1
    ensures !Text(s)
  {
    if Text(s) {
      TextLastByte(s);
    }
  }

  /**
   * The as-written slice is a text exactly when its last character is one
   * byte wide, and then it is the intended slice.
   */
  lemma {:induction false} SliceBytesText(t: seq<byte>, a: int, b: int)
    requires Text(t) && 1 <= a <= b <= Strlen(t)
    ensures Text(SliceBytes(t, a, b)) <==> |Chars(t)[b - 1]| == 1
    ensures |Chars(t)[b - 1]| == 1 ==> SliceBytes(t, a, b) == SliceChars(t, a, b)
  {
    var cs := Chars(t);
    var c := cs[b - 1];
    assert IsChar(c);
    var p := SliceChars(t, a, b - 1);
    assert cs[a - 1..b] == cs[a - 1..b - 1] + [c];
    FlattenSnoc(cs[a - 1..b - 1], c);
    assert SliceChars(t, a, b) == p + c;
    var r := SliceBytes(t, a, b);
    assert r[|r| - 1] == c[0];
    if |c| == 1 {
      assert c == [c[0]];
      SliceCharsText(t, a, b);
    } else {
      WideLastNotText(r);
    }
  }

  lemma {:induction false} SliceOfTake<T>(s: seq<T>, n: nat, i: nat, j: nat)
    requires i <= j <= n <= |s|
    ensures s[..n][i..j] == s[i..j]
  {
  }

  /**
   * The byte range `inbuilt_string_slice` copies, from i1, the offset of
   * character a, to i2, the offset of character b, plus one byte.
   */
  lemma {:induction false} SliceSteps(t: seq<byte>, a: int, b: int, i1: nat, i2: nat)
    requires Text(t) && 1 <= a <= b <= Strlen(t)
    requires i1 == Offset(t, a - 1) && i2 == Offset(t, b - 1)
    ensures i1 <= i2 < |t|
    ensures t[i1..i2 + 1] == SliceBytes(t, a, b)
  {
    OffsetMonotone(t, a - 1, b - 1);
    FirstByte(t, b - 1);
    SliceFront(t, a, b, i1, i2);
    SnocSlice(t, i1, i2, SliceChars(t, a, b - 1), Chars(t)[b - 1][0]);
  }

  lemma {:induction false} SnocSlice<T>(s: seq<T>, i: nat, j: nat, x: seq<T>, y: T)
    requires i <= j < |s| && s[i..j] == x && s[j] == y
    ensures s[i..j + 1] == x + [y]
  {
    assert s[i..j + 1] == s[i..j] + [s[j]];
  }

  /** The bytes from character a up to character b are characters a to b - 1. */
  lemma {:induction false} SliceFront(t: seq<byte>, a: int, b: int, i1: nat, i2: nat)
    requires Text(t) && 1 <= a <= b <= Strlen(t)
    requires i1 == Offset(t, a - 1) && i2 == Offset(t, b - 1) && i1 <= i2
    ensures t[i1..i2] == SliceChars(t, a, b - 1)
  {
    if a < b {
      SliceCharsBytes(t, a, b - 1);
    } else {
      assert Chars(t)[a - 1..b - 1] == [];
    }
  }

  /** The first byte of character k is the byte at its offset. */
  lemma {:induction false} FirstByte(t: seq<byte>, k: nat)
    requires Text(t) && k < Strlen(t)
    ensures Offset(t, k) < |t| && |Chars(t)[k]| > 0 && Chars(t)[k][0] == t[Offset(t, k)]
  {
    OffsetStep(t, k);
    var o := Offset(t, k);
    assert t[o..Offset(t, k + 1)][0] == t[o];
  }

  /** The range of the corrected slice ends after the last byte of character b. */
  lemma {:induction false} SliceStepsIntended(t: seq<byte>, a: int, b: int, i1: nat, i2: nat)
    requires Text(t) && 1 <= a <= b <= Strlen(t)
    requires i1 == Offset(t, a - 1) && i2 == Offset(t, b - 1)
    ensures i1 <= i2 < |t| && i2 + Width(t[i2]) == Offset(t, b)
    ensures t[i1..i2 + Width(t[i2])] == SliceChars(t, a, b)
  {
    OffsetMonotone(t, a - 1, b - 1);
    OffsetNext(t, b - 1);
    SliceCharsBytes(t, a, b);
    SameSlice(t, i1, i2 + Width(t[i2]), Offset(t, a - 1), Offset(t, b), SliceChars(t, a, b));
  }

  lemma {:induction false} SameSlice<T>(s: seq<T>, i: nat, j: nat, i': nat, j': nat, x: seq<T>)
    requires i == i' <= j == j' <= |s| && s[i'..j'] == x
    ensures s[i..j] == x
  {
  }

  /** Characters a to b of a text are the bytes between their offsets. */
  lemma {:induction false} SliceCharsBytes(t: seq<byte>, a: int, b: int)
    requires Text(t) && 1 <= a <= b <= Strlen(t)
    ensures Offset(t, a - 1) <= Offset(t, b)
    ensures t[Offset(t, a - 1)..Offset(t, b)] == SliceChars(t, a, b)
  {
    SubChars(t, a - 1, b);
    var x := t[Offset(t, a - 1)..Offset(t, b)];
    FlattenChars(x);
  }

  /** A non-empty text has at least one character. */
  lemma {:induction false} StrlenPositive(t: seq<byte>)
    requires Text(t) && |t| > 0
    ensures Strlen(t) >= 1
  {
    CharsCons(t);
  }

  /** The bytes the as-written slice copies out of a well-formed buffer. */
  lemma {:induction false} SliceAt(buf: seq<byte>, cap: int, a: int, b: int, i1: nat, i2: nat)
    requires WellFormed(buf, cap) && 1 <= a <= b <= Strlen(buf[..cap - 1])
    requires i1 == Offset(buf[..cap - 1], a - 1) && i2 == Offset(buf[..cap - 1], b - 1)
    ensures i1 <= i2 < cap - 1
    ensures buf[i1..i2 + 1] == SliceBytes(buf[..cap - 1], a, b)
  {
    var t := buf[..cap - 1];
    SliceSteps(t, a, b, i1, i2);
    SliceOfTake(buf, cap - 1, i1, i2 + 1);
  }

  /** The bytes the corrected slice copies out of a well-formed buffer. */
  lemma {:induction false} SliceIntendedAt(buf: seq<byte>, cap: int, a: int, b: int, i1: nat, i2: nat)
    requires WellFormed(buf, cap) && 1 <= a <= b <= Strlen(buf[..cap - 1])
    requires i1 == Offset(buf[..cap - 1], a - 1) && i2 == Offset(buf[..cap - 1], b - 1)
    ensures i1 <= i2 < cap - 1 && i2 + Width(buf[i2]) <= cap - 1
    ensures buf[i1..i2 + Width(buf[i2])] == SliceChars(buf[..cap - 1], a, b)
    ensures Text(buf[i1..i2 + Width(buf[i2])])
  {
    var t := buf[..cap - 1];
    SliceStepsIntended(t, a, b, i1, i2);
    SliceCharsText(t, a, b);
    assert buf[i2] == t[i2];
    SliceOfTake(buf, cap - 1, i1, i2 + Width(buf[i2]));
  }

  /**
   * What `inbuilt_string_slice` as written does to the non-empty text t:
   * both indices are clamped to 1 .. Strlen(t); bounds in the wrong order
   * are an error, otherwise the buffer out of cap n holds `SliceBytes`
   * and a terminator.
   */
  ghost predicate SliceOutcome(t: seq<byte>, index1: int64, index2: int64, r: Result<(), Failure>, out: seq<byte>, n: int)
    requires Text(t) && |t| > 0
  {
    StrlenPositive(t);
    var a := Clamp(index1, 1, Strlen(t));
    var b := Clamp(index2, 1, Strlen(t));
    && (r.Err? <==> b < a)
    && (r.Err? ==> r.error == SLICE_ERROR)
    && (r.Ok? ==> out == SliceBytes(t, a, b) + [0] && n == |SliceBytes(t, a, b)| + 1)
  }

  /** The same with the corrected slice: a well-formed buffer holding characters a to b. */
  ghost predicate SliceIntendedOutcome(t: seq<byte>, index1: int64, index2: int64, r: Result<(), Failure>, out: seq<byte>, n: int)
    requires Text(t) && |t| > 0
  {
    StrlenPositive(t);
    var a := Clamp(index1, 1, Strlen(t));
    var b := Clamp(index2, 1, Strlen(t));
    && (r.Err? <==> b < a)
    && (r.Err? ==> r.error == SLICE_ERROR)
    && (r.Ok? ==> WellFormed(out, n) && out[..n - 1] == SliceChars(t, a, b))
  }

  /**
   * The buffer and cap `Slice` leaves, and its result, for the string s0
   * with cap c0: an empty string stays as it is.
   */
  method SliceIn(s0: seq<byte>, c0: int, index1: int64, index2: int64) returns (r: Result<(), Failure>, out: seq<byte>, n: int)
    requires WellFormed(s0, c0)
    ensures c0 <= 1 ==> r.Ok? && out == s0 && n == c0
    ensures c0 > 1 ==> SliceOutcome(s0[..c0 - 1], index1, index2, r, out, n)
  {
    if c0 <= 1 {
      return Ok(()), s0, c0;
    }
    StrlenPositive(s0[..c0 - 1]);
    var len := Strlen(s0[..c0 - 1]);
    var a := Clamp(index1, 1, len);
    var b := Clamp(index2, 1, len);
    if b < a {
      return Err(SLICE_ERROR), s0, c0;
    }
    var cut;
    cut, n := CutBytes(s0, c0, a, b);
    out := cut + [0];
    r := Ok(());
  }

  /** The buffer and cap `SliceIntended` leaves, and its result, for the string s0 with cap c0. */
  method SliceIntendedIn(s0: seq<byte>, c0: int, index1: int64, index2: int64) returns (r: Result<(), Failure>, out: seq<byte>, n: int)
    requires WellFormed(s0, c0)
    ensures c0 <= 1 ==> r.Ok? && out == s0 && n == c0
    ensures c0 > 1 ==> SliceIntendedOutcome(s0[..c0 - 1], index1, index2, r, out, n)
  {
    if c0 <= 1 {
      return Ok(()), s0, c0;
    }
    StrlenPositive(s0[..c0 - 1]);
    var len := Strlen(s0[..c0 - 1]);
    var a := Clamp(index1, 1, len);
    var b := Clamp(index2, 1, len);
    if b < a {
      return Err(SLICE_ERROR), s0, c0;
    }
    var sub := CutChars(s0, c0, a, b);
    WellFormedOf(sub + [0], |sub| + 1, sub);
    out, n := sub + [0], |sub| + 1;
    r := Ok(());
  }

  /** The bytes `inbuilt_string_slice` copies for characters a to b of the text in buf. */
  method CutBytes(buf: seq<byte>, n: int, a: int, b: int) returns (out: seq<byte>, newCap: int)
    requires WellFormed(buf, n) && 1 <= a <= b <= Strlen(buf[..n - 1])
    ensures out == SliceBytes(buf[..n - 1], a, b) && newCap == |out| + 1
  {
    var i1, k1 := Walk(buf, n, 0, 0, a - 1);
    assert k1 == a - 1;
    var i2, k2 := Walk(buf, n, i1, k1, b - 1);
    assert k2 == b - 1;
    SliceAt(buf, n, a, b, i1, i2);
    newCap := (i2 - i1) + 2;
    out := buf[i1..i1 + newCap - 1];
  }

  /**
   * The index check and walk that `inbuilt_string_index` and
   * `inbuilt_replace_char_in_string` share: character `index` (1-based)
   * exists exactly when the walk finds its lead byte i before the
   * terminator.
   */
  method LocateChar(s0: seq<byte>, c0: int, index: int64) returns (found: bool, i: nat)
    requires WellFormed(s0, c0)
    ensures found <==> 1 <= index <= Strlen(s0[..c0 - 1])
    ensures found ==> i == Offset(s0[..c0 - 1], index - 1) && i < c0 - 1 && i + Width(s0[i]) <= c0 - 1
  {
    if index > c0 || index < 1 || c0 <= 1 {
      return false, 0;
    }
    var k;
    i, k := Walk(s0, c0, 0, 0, index - 1);
    if s0[i] == 0 {
      return false, i;
    }
    assert k == index - 1;
    CharAt(s0, c0, k, i);
    found := true;
  }

  /**
   * The buffer and cap `ReplaceChar` leaves, and its result, for the string s0
   * with cap c0 and the encoding enc of the new character.
   */
  method ReplaceCharIn(s0: seq<byte>, c0: int, enc: Option<seq<byte>>, index: int64) returns (r: Result<(), Failure>, buf: seq<byte>, n: int)
    requires WellFormed(s0, c0)
    ensures !(1 <= index <= Strlen(s0[..c0 - 1])) ==> r == Err(INDEX_ERROR)
    ensures 1 <= index <= Strlen(s0[..c0 - 1]) && enc.None? ==> r == Err(CopyOverflow)
    ensures 1 <= index <= Strlen(s0[..c0 - 1]) && enc.Some? ==>
      r.Ok? && (buf, n) == Replaced(s0, c0, index - 1, enc.value)
  {
    var found, i := LocateChar(s0, c0, index);
    if !found {
      return Err(INDEX_ERROR), s0, c0;
    }
    var oldLen := Width(s0[i]);
    if enc.None? {
      return Err(CopyOverflow), s0, c0;
    }
    var e := enc.value;
    buf, n := ReplaceBytes(s0, c0, i, oldLen, e);
    ReplacedAt(s0, c0, index - 1, i, e, buf, n);
    r := Ok(());
  }

  /**
   * The buffer and cap `ReplaceCharIntended` leaves, and its result, for the string s0
   * with cap c0 and the encoding enc of the new character.
   */
  method ReplaceCharIntendedIn(s0: seq<byte>, c0: int, enc: Option<seq<byte>>, index: int64) returns (r: Result<(), Failure>, buf: seq<byte>, n: int)
    requires WellFormed(s0, c0)
    ensures !(1 <= index <= Strlen(s0[..c0 - 1])) ==> r == Err(INDEX_ERROR)
    ensures 1 <= index <= Strlen(s0[..c0 - 1]) && enc.None? ==> r == Err(CopyOverflow)
    ensures 1 <= index <= Strlen(s0[..c0 - 1]) && enc.Some? ==>
      r.Ok? && (buf, n) == ReplacedIntended(s0, c0, index - 1, enc.value)
  {
    var found, i := LocateChar(s0, c0, index);
    if !found {
      return Err(INDEX_ERROR), s0, c0;
    }
    var oldLen := Width(s0[i]);
    if enc.None? {
      return Err(CopyOverflow), s0, c0;
    }
    var e := enc.value;
    buf := s0[..i] + e + s0[i + oldLen..c0];
    n := c0 - oldLen + |e|;
    ReplaceIntendedAt(s0, c0, index - 1, i, e, buf, n);
    r := Ok(());
  }

  /** The bytes of characters a to b of the text in buf, the last one whole. */
  method CutChars(buf: seq<byte>, n: int, a: int, b: int) returns (sub: seq<byte>)
    requires WellFormed(buf, n) && 1 <= a <= b <= Strlen(buf[..n - 1])
    ensures Text(sub) && sub == SliceChars(buf[..n - 1], a, b)
  {
    var i1, k1 := Walk(buf, n, 0, 0, a - 1);
    var i2, k2 := Walk(buf, n, i1, k1, b - 1);
    SliceIntendedAt(buf, n, a, b, i1, i2);
    sub := buf[i1..i2 + Width(buf[i2])];
  }

  /**
   * The walks of `inbuilt_string_index`, `inbuilt_replace_char_in_string` and
   * `inbuilt_string_slice`: starting at character k0 of
   * the buffer's text, which begins at byte i0, step by lead-byte widths
   * until character `target` or the terminator is reached.
   */
  method Walk(buf: seq<byte>, cap: int, i0: nat, k0: nat, target: nat) returns (i: nat, k: nat)
    requires WellFormed(buf, cap)
    requires k0 <= target && k0 <= Strlen(buf[..cap - 1]) && i0 == Offset(buf[..cap - 1], k0)
    ensures k == (if target < Strlen(buf[..cap - 1]) then target else Strlen(buf[..cap - 1]))
    ensures i == Offset(buf[..cap - 1], k) && i < cap
    ensures buf[i] == 0 <==> k == Strlen(buf[..cap - 1])
  {
    ghost var t := buf[..cap - 1];
    ghost var n := Strlen(t);
    TextNoNul(t);
    i, k := i0, k0;
    OffsetEnd(t, k);
    while buf[i] != 0 && k != target
      invariant k0 <= k <= target && k <= n
      invariant i == Offset(t, k) && i < cap
      invariant buf[i] == 0 <==> k == n
      decreases target - k
    {
      OffsetStep(t, k);
      assert buf[i] == t[i];
      i := i + Width(buf[i]);
      k := k + 1;
      OffsetEnd(t, k);
      if i < |t| {
        assert buf[i] == t[i];
      }
    }
  }

  // ---------------------------------------------------------------------
  // The string object.

  class DdpString {
    /** `str->str`: the buffer. */
    var str: seq<byte>
    /** `str->cap`: the bytes in use, NUL terminator included. */
    var cap: int

    ghost predicate Valid()
      reads this
    {
      WellFormed(str, cap)
    }

    /** The text, without its terminator. */
    function Content(): (t: seq<byte>)
      reads this
      requires Valid()
      ensures Text(t) && |t| == cap - 1
    {
      str[..cap - 1]
    }

    /** `inbuilt_string_index`: the code point of character `index` (1-based). */
    method StringIndex(index: int64) returns (r: Result<int, Failure>)
      requires Valid()
      ensures r.Err? <==> !(1 <= index <= Strlen(Content()))
      ensures r.Err? ==> r.error == INDEX_ERROR
      ensures r.Ok? ==> r.value == Decode(Chars(Content())[index - 1])
    {
      var buf, n := str, cap;
      if index > n || index < 1 || n <= 1 {
        return Err(INDEX_ERROR);
      }
      var i, k := Walk(buf, n, 0, 0, index - 1);
      if buf[i] == 0 {
        return Err(INDEX_ERROR);
      }
      CharAt(buf, n, k, i);
      return Ok(Decode(buf[i..i + Width(buf[i])]));
    }

    /** `inbuilt_replace_char_in_string`: character `index` (1-based) becomes ch. */
    method ReplaceChar(ch: int, index: int64) returns (r: Result<(), Failure>)
      requires Valid()
      modifies this
      ensures !(1 <= index <= Strlen(old(Content()))) ==> r == Err(INDEX_ERROR) && unchanged(this)
      ensures 1 <= index <= Strlen(old(Content())) && Encode(ch).None? ==>
        r == Err(CopyOverflow) && unchanged(this)
      ensures 1 <= index <= Strlen(old(Content())) && Encode(ch).Some? ==>
        r.Ok? && (str, cap) == Replaced(old(str), old(cap), index - 1, Encode(ch).value)
    {
      var res, buf, n := ReplaceCharIn(str, cap, Encode(ch), index);
      if res.Ok? {
        str, cap := buf, n;
      }
      return res;
    }

    /** `inbuilt_replace_char_in_string` storing the new cap after a narrower character as well. */
    method ReplaceCharIntended(ch: int, index: int64) returns (r: Result<(), Failure>)
      requires Valid()
      modifies this
      ensures !(1 <= index <= Strlen(old(Content()))) ==> r == Err(INDEX_ERROR) && unchanged(this)
      ensures 1 <= index <= Strlen(old(Content())) && Encode(ch).None? ==>
        r == Err(CopyOverflow) && unchanged(this)
      ensures 1 <= index <= Strlen(old(Content())) && Encode(ch).Some? ==>
        r.Ok? && (str, cap) == ReplacedIntended(old(str), old(cap), index - 1, Encode(ch).value)
    {
      var res, buf, n := ReplaceCharIntendedIn(str, cap, Encode(ch), index);
      if res.Ok? {
        str, cap := buf, n;
      }
      return res;
    }

    /** `inbuilt_string_slice` as written: characters index1 to index2 after clamping, cut short as `SliceBytes` says. */
    method Slice(index1: int64, index2: int64) returns (r: Result<(), Failure>)
      requires Valid()
      modifies this
      ensures old(cap) <= 1 ==> r.Ok? && unchanged(this)
      ensures old(cap) > 1 ==> SliceOutcome(old(Content()), index1, index2, r, str, cap)
      ensures r.Err? ==> unchanged(this)
    {
      var res, out, n := SliceIn(str, cap, index1, index2);
      if res.Ok? {
        str, cap := out, n;
      }
      return res;
    }

    /** `inbuilt_string_slice` copying the last character whole. */
    method SliceIntended(index1: int64, index2: int64) returns (r: Result<(), Failure>)
      requires Valid()
      modifies this
      ensures old(cap) <= 1 ==> r.Ok? && unchanged(this)
      ensures old(cap) > 1 ==> SliceIntendedOutcome(old(Content()), index1, index2, r, str, cap)
      ensures r.Err? ==> unchanged(this)
    {
      var res, out, n := SliceIntendedIn(str, cap, index1, index2);
      if res.Ok? {
        str, cap := out, n;
      }
      return res;
    }

    /** `inbuilt_string_string_verkettet(this, other)`: other's bytes are appended to this string. */
    method StringStringVerkettet(other: DdpString)
      requires other != this
      requires 1 <= cap <= |str| && 0 <= other.cap <= |other.str|
      modifies this
      ensures str == Joined(old(str), old(cap), other.str, other.cap)
      ensures cap == old(cap) - 1 + other.cap
      ensures old(Valid()) && other.Valid() ==>
        Valid() && Content() == old(Content()) + other.Content()
        && Chars(Content()) == old(Chars(Content())) + Chars(other.Content())
    {
      ghost var wasValid := Valid();
      ghost var t1 := if wasValid then Content() else [];
      var newCap := cap - 1 + other.cap;
      str := str[..cap - 1] + other.str[..other.cap];
      if wasValid && other.Valid() {
        JoinedText(old(str), old(cap), other.str, other.cap);
      }
      cap := newCap;
    }

    /** `inbuilt_char_string_verkettet(c, this)`: c's encoding goes in front; an invalid c adds nothing. */
    method CharStringVerkettet(c: int)
      requires 0 <= cap <= |str|
      modifies this
      ensures str == EncodedOrEmpty(c) + old(str)[..old(cap)]
      ensures cap == old(cap) + |EncodedOrEmpty(c)|
      ensures old(Valid()) && c != 0 ==> Valid() && Chars(Content()) == CharsOf(c) + old(Chars(Content()))
    {
      ghost var wasValid := Valid();
      var e := EncodedOrEmpty(c);
      if wasValid && c != 0 {
        PrependedText(c, str, cap);
      }
      var newCap := cap + |e|;
      str := e + str[..cap];
      cap := newCap;
    }

    /** `inbuilt_string_char_verkettet(this, c)` as written: the encoding is appended, cap is not updated. */
    method StringCharVerkettet(c: int)
      requires 1 <= cap <= |str|
      modifies this
      ensures str == Appended(old(str), old(cap), EncodedOrEmpty(c))
      ensures cap == old(cap)
      ensures old(Valid()) && c != 0 ==> CString(str) == old(Content()) + EncodedOrEmpty(c)
      ensures Encode(c).Some? ==> !Valid()
    {
      ghost var wasValid := Valid();
      var e := EncodedOrEmpty(c);
      str := str[..cap - 1] + e + [0];
      if wasValid && c != 0 {
        CharsOfText(c);
        TextConcat(old(str)[..cap - 1], e);
        CStringOfText(old(str)[..cap - 1] + e, []);
        assert str == old(str)[..cap - 1] + e + [0] + [];
      }
    }

    /** `inbuilt_string_char_verkettet` storing the new cap. */
    method StringCharVerkettetIntended(c: int)
      requires 1 <= cap <= |str|
      modifies this
      ensures str == Appended(old(str), old(cap), EncodedOrEmpty(c))
      ensures cap == old(cap) + |EncodedOrEmpty(c)|
      ensures old(Valid()) && c != 0 ==> Valid() && Chars(Content()) == old(Chars(Content())) + CharsOf(c)
    {
      ghost var wasValid := Valid();
      var e := EncodedOrEmpty(c);
      var newCap := cap + |e|;
      str := str[..cap - 1] + e + [0];
      if wasValid && c != 0 {
        CharsOfText(c);
        TextConcat(old(str)[..cap - 1], e);
        assert str[..newCap - 1] == old(str)[..cap - 1] + e;
      }
      cap := newCap;
    }
  }

  /** `inbuilt_string_equal`: the same object, or the same length and the same bytes over cap. */
  function StringEqual(s1: DdpString, s2: DdpString): (r: bool)
    reads s1, s2
    requires s1.Valid() && s2.Valid()
    ensures r <==> s1.Content() == s2.Content()
  {
    CStringOfText(s1.Content(), []);
    CStringOfText(s2.Content(), []);
    assert s1.str == s1.Content() + [0] + [];
    assert s2.str == s2.Content() + [0] + [];
    if s1 == s2 then true
    else if |CString(s1.str)| != |CString(s2.str)| then false
    else s1.str[..s1.cap] == s2.str[..s1.cap]
  }

  // ---------------------------------------------------------------------
  // Inputs on which the code as written and the evident intent differ.

  /** "ä" with its first character replaced by "a", then "c" appended: C reads "a", not "ac". */
  lemma {:induction false} ReplaceThenConcat()
    ensures Strlen([0xC3, 0xA4]) == 1
    ensures Replaced([0xC3, 0xA4, 0], 3, 0, [0x61]) == ([0x61, 0, 0], 3)
    ensures CString(Joined([0x61, 0, 0], 3, [0x63, 0], 2)) == [0x61]
  {
    var buf: seq<byte> := [0xC3, 0xA4, 0];
    FirstOfAe(buf);
    ReplacedAt(buf, 3, 0, 0, [0x61], buf[..0] + [0x61] + buf[2..] + buf[2..], 3);
    assert buf[..0] + [0x61] + buf[2..] + buf[2..] == [0x61, 0, 0];
    assert Joined([0x61, 0, 0], 3, [0x63, 0], 2) == [0x61, 0, 0x63, 0];
  }

  /** The same replacement done as intended leaves "a" with cap 2, and appending "c" reads "ac". */
  lemma {:induction false} ReplaceThenConcatIntended()
    ensures ReplacedIntended([0xC3, 0xA4, 0], 3, 0, [0x61]) == ([0x61, 0], 2)
    ensures CString(Joined([0x61, 0], 2, [0x63, 0], 2)) == [0x61, 0x63]
  {
    var buf: seq<byte> := [0xC3, 0xA4, 0];
    FirstOfAe(buf);
    ReplaceIntendedAt(buf, 3, 0, 0, [0x61], buf[..0] + [0x61] + buf[2..3], 2);
    assert buf[..0] + [0x61] + buf[2..3] == [0x61, 0];
    assert Joined([0x61, 0], 2, [0x63, 0], 2) == [0x61, 0x63, 0];
  }

  /** "ä" is one character, and the first one starts at byte 0. */
  lemma {:induction false} FirstOfAe(buf: seq<byte>)
    requires buf == [0xC3, 0xA4, 0]
    ensures Text(buf[..2]) && Strlen(buf[..2]) == 1 && Chars(buf[..2]) == [buf[..2]] && Offset(buf[..2], 0) == 0
  {
    var t := buf[..2];
    assert t == [0xC3, 0xA4];
    assert t[..2] == t && t[2..] == [];
    assert Chars(t) == [t];
  }

  /** Slicing "ä" from 1 to 1 keeps only the lead byte 0xC3. */
  lemma {:induction false} SliceCutsLastChar()
    ensures var t := [0xC3, 0xA4];
      && Text(t) && Strlen(t) == 1
      && SliceBytes(t, 1, 1) == [0xC3] && !Text(SliceBytes(t, 1, 1))
      && SliceChars(t, 1, 1) == t
  {
    var t: seq<byte> := [0xC3, 0xA4];
    assert t[..2] == t && t[2..] == [];
    assert Chars(t) == [t];
    assert Offset(t, 1) == 2;
    SliceBytesText(t, 1, 1);
  }

  /** "a" with 'b' appended keeps cap 2, so appending "c" afterwards overwrites the 'b'. */
  lemma {:induction false} AppendCharThenString()
    ensures Appended([0x61, 0], 2, [0x62]) == [0x61, 0x62, 0]
    ensures Joined([0x61, 0x62, 0], 2, [0x63, 0], 2) == [0x61, 0x63, 0]
    ensures Joined([0x61, 0x62, 0], 3, [0x63, 0], 2) == [0x61, 0x62, 0x63, 0]
  {
  }
}
