/**
 * UTF-8 text as the runtime's string operators see it.
 *
 * lib/runtime/source/operators.c calls `utf8_num_bytes`,
 * `utf8_indicated_num_bytes`, `utf8_strlen`, `utf8_char_to_string` and
 * `utf8_string_to_char` from a library whose code is not part of this model.
 * The definitions here stand in for them with the standard UTF-8 encoding:
 * a character is a lead byte whose high bits give the width 1 to 4,
 * followed by width - 1 continuation bytes `10xxxxxx`.
 */
module Utf8 {
  import opened Wrappers
  import opened Ints

  /** A continuation byte `10xxxxxx`. */
  predicate IsCont(b: byte) {
    0x80 <= b < 0xC0
  }

  /** A byte that can start a character other than NUL. */
  predicate IsLead(b: byte) {
    (0 < b < 0x80) || (0xC0 <= b < 0xF8)
  }

  /**
   * `utf8_indicated_num_bytes(lead)` and `utf8_num_bytes`: the width of the
   * character a lead byte starts. Bytes that start no character count as 1.
   */
  function Width(lead: byte): (w: int)
    ensures 1 <= w <= 4
    ensures lead < 0x80 ==> w == 1
  {
    if lead < 0xC0 then 1
    else if lead < 0xE0 then 2
    else if lead < 0xF0 then 3
    else if lead < 0xF8 then 4
    else 1
  }

  /** s is exactly one encoded character, and not NUL. */
  predicate IsChar(s: seq<byte>) {
    && |s| > 0
    && IsLead(s[0])
    && |s| == Width(s[0])
    && forall j | 1 <= j < |s| :: IsCont(s[j])
  }

  /** s is a run of whole characters (so it holds no NUL byte). */
  predicate Text(s: seq<byte>)
    decreases |s|
  {
    |s| == 0 || (Width(s[0]) <= |s| && IsChar(s[..Width(s[0])]) && Text(s[Width(s[0])..]))
  }

  /** The characters of a text, each as its bytes. */
  function Chars(s: seq<byte>): (r: seq<seq<byte>>)
    requires Text(s)
    ensures forall k | 0 <= k < |r| :: IsChar(r[k])
    ensures |r| <= |s|
    decreases |s|
  {
    if |s| == 0 then [] else [s[..Width(s[0])]] + Chars(s[Width(s[0])..])
  }

  /** `utf8_strlen`: the number of characters. */
  function Strlen(s: seq<byte>): (n: nat)
    requires Text(s)
    ensures n <= |s|
  {
    |Chars(s)|
  }

  /** The bytes of a list of characters, in order. */
  function Flatten(cs: seq<seq<byte>>): seq<byte> {
    if |cs| == 0 then [] else cs[0] + Flatten(cs[1..])
  }

  /** A text holds no NUL byte: C's `strlen` and the operators' walks stop only at the terminator. */
  lemma {:induction false} TextNoNul(s: seq<byte>)
    requires Text(s)
    ensures forall j | 0 <= j < |s| :: s[j] != 0
    decreases |s|
  {
    if |s| > 0 {
      var w := Width(s[0]);
      TextNoNul(s[w..]);
      forall j | 0 <= j < |s|
        ensures s[j] != 0
      {
        if j >= w {
          assert s[j] == s[w..][j - w];
        } else {
          assert s[j] == s[..w][j];
        }
      }
    }
  }

  /** A character in front of a text gives a text one character longer. */
  lemma {:induction false} ConsChar(c: seq<byte>, x: seq<byte>)
    requires IsChar(c) && Text(x)
    ensures Text(c + x) && Chars(c + x) == [c] + Chars(x)
  {
    var s := c + x;
    assert s[0] == c[0];
    assert s[..Width(s[0])] == c;
    assert s[Width(s[0])..] == x;
  }

  lemma {:induction false} SplitAppend(a: seq<byte>, b: seq<byte>, w: nat)
    requires w <= |a|
    ensures a + b == a[..w] + (a[w..] + b)
  {
    assert a == a[..w] + a[w..];
  }

  /** Texts concatenate character by character. */
  lemma {:induction false} TextConcat(a: seq<byte>, b: seq<byte>)
    requires Text(a) && Text(b)
    ensures Text(a + b) && Chars(a + b) == Chars(a) + Chars(b)
    decreases |a|
  {
    if |a| == 0 {
      assert a + b == b;
    } else {
      var w := Width(a[0]);
      var c, rest := a[..w], a[w..];
      TextConcat(rest, b);
      ConsChar(c, rest + b);
      SplitAppend(a, b, w);
    }
  }

  lemma {:induction false} FlattenSnoc(cs: seq<seq<byte>>, c: seq<byte>)
    ensures Flatten(cs + [c]) == Flatten(cs) + c
    decreases |cs|
  {
    if |cs| == 0 {
      assert [] + [c] == [c];
    } else {
      FlattenSnoc(cs[1..], c);
      assert (cs + [c])[1..] == cs[1..] + [c];
    }
  }

  /** Splitting a text into characters and joining them back gives the text. */
  lemma {:induction false} FlattenChars(s: seq<byte>)
    requires Text(s)
    ensures Flatten(Chars(s)) == s
    decreases |s|
  {
    if |s| > 0 {
      var w := Width(s[0]);
      FlattenChars(s[w..]);
      assert Chars(s)[1..] == Chars(s[w..]);
    }
  }

  /** Joining characters gives a text that splits back into them. */
  lemma {:induction false} CharsFlatten(cs: seq<seq<byte>>)
    requires forall k | 0 <= k < |cs| :: IsChar(cs[k])
    ensures Text(Flatten(cs)) && Chars(Flatten(cs)) == cs
    decreases |cs|
  {
    if |cs| > 0 {
      CharsFlatten(cs[1..]);
      ConsChar(cs[0], Flatten(cs[1..]));
    }
  }

  /** Joining two lists of characters joins their bytes. */
  lemma {:induction false} FlattenAppend(xs: seq<seq<byte>>, ys: seq<seq<byte>>)
    ensures Flatten(xs + ys) == Flatten(xs) + Flatten(ys)
    decreases |xs|
  {
    if |xs| == 0 {
      assert xs + ys == ys;
    } else {
      FlattenAppend(xs[1..], ys);
      assert (xs + ys)[1..] == xs[1..] + ys;
    }
  }

  /** A text is the bytes of its first k characters followed by the bytes of the rest. */
  lemma {:induction false} FlattenSplit(s: seq<byte>, k: nat)
    requires Text(s) && k <= Strlen(s)
    ensures s == Flatten(Chars(s)[..k]) + Flatten(Chars(s)[k..])
  {
    var cs := Chars(s);
    FlattenChars(s);
    FlattenAppend(cs[..k], cs[k..]);
    assert cs[..k] + cs[k..] == cs;
  }

  /**
   * The byte offset at which character k (0-based) of a text starts: the
   * number of bytes of the characters before it. It is where the walk
   * `i += utf8_num_bytes(str + i)` stands after k steps (OffsetNext).
   */
  function Offset(s: seq<byte>, k: nat): (o: nat)
    requires Text(s) && k <= Strlen(s)
    ensures o <= |s|
  {
    FlattenSplit(s, k);
    |Flatten(Chars(s)[..k])|
  }

  /** The bytes before and after the offset of character k. */
  lemma {:induction false} OffsetParts(s: seq<byte>, k: nat)
    requires Text(s) && k <= Strlen(s)
    ensures s[..Offset(s, k)] == Flatten(Chars(s)[..k])
    ensures s[Offset(s, k)..] == Flatten(Chars(s)[k..])
  {
    FlattenSplit(s, k);
  }

  /** A non-empty text is its first character followed by a text. */
  lemma {:induction false} CharsCons(s: seq<byte>)
    requires Text(s) && |s| > 0
    ensures Width(s[0]) <= |s| && Text(s[Width(s[0])..])
    ensures Chars(s) == [s[..Width(s[0])]] + Chars(s[Width(s[0])..])
    ensures Strlen(s) == 1 + Strlen(s[Width(s[0])..])
  {
  }

  /** What follows the first k characters of a text is a text. */
  lemma {:induction false} DropChars(s: seq<byte>, k: nat)
    requires Text(s) && k <= Strlen(s)
    ensures Text(s[Offset(s, k)..]) && Chars(s[Offset(s, k)..]) == Chars(s)[k..]
  {
    OffsetParts(s, k);
    CharsFlatten(Chars(s)[k..]);
  }

  /** The first k characters of a text are a text. */
  lemma {:induction false} TakeChars(s: seq<byte>, k: nat)
    requires Text(s) && k <= Strlen(s)
    ensures Text(s[..Offset(s, k)]) && Chars(s[..Offset(s, k)]) == Chars(s)[..k]
  {
    OffsetParts(s, k);
    CharsFlatten(Chars(s)[..k]);
  }

  /** The bytes from character k on are character k followed by the rest. */
  lemma {:induction false} FlattenFrom(cs: seq<seq<byte>>, k: nat)
    requires k < |cs|
    ensures Flatten(cs[k..]) == cs[k] + Flatten(cs[k + 1..])
  {
    assert cs[k..][0] == cs[k] && cs[k..][1..] == cs[k + 1..];
  }

  /**
   * Character k starts at `Offset(s, k)`; its width is given by its lead
   * byte, and the next character starts right after it.
   */
  lemma {:induction false} OffsetStep(s: seq<byte>, k: nat)
    requires Text(s) && k < Strlen(s)
    ensures Offset(s, k) < |s|
    ensures Offset(s, k) + Width(s[Offset(s, k)]) == Offset(s, k + 1)
    ensures s[Offset(s, k)..Offset(s, k + 1)] == Chars(s)[k]
  {
    var cs := Chars(s);
    var o := Offset(s, k);
    OffsetParts(s, k);
    FlattenFrom(cs, k);
    var c := cs[k];
    assert IsChar(c);
    assert s[o..][..|c|] == c;
    assert s[o] == s[o..][0] == c[0];
    assert cs[..k + 1] == cs[..k] + [c];
    FlattenSnoc(cs[..k], c);
    assert Offset(s, k + 1) == o + |c|;
  }

  /** The next character starts one lead-byte width after character k. */
  lemma {:induction false} OffsetNext(s: seq<byte>, k: nat)
    requires Text(s) && k < Strlen(s)
    ensures Offset(s, k) < |s|
    ensures Offset(s, k) + Width(s[Offset(s, k)]) == Offset(s, k + 1)
  {
    OffsetStep(s, k);
  }

  /** The offset reaches the end of the text exactly after the last character. */
  lemma {:induction false} OffsetEnd(s: seq<byte>, k: nat)
    requires Text(s) && k <= Strlen(s)
    ensures Offset(s, k) == |s| <==> k == Strlen(s)
  {
    if k < Strlen(s) {
      OffsetStep(s, k);
    } else {
      assert Chars(s)[..k] == Chars(s);
      FlattenChars(s);
    }
  }

  /** Characters a to b - 1 of a text are a text. */
  lemma {:induction false} SubChars(s: seq<byte>, a: nat, b: nat)
    requires Text(s) && a <= b <= Strlen(s)
    ensures Offset(s, a) <= Offset(s, b) && Text(s[Offset(s, a)..Offset(s, b)])
    ensures Chars(s[Offset(s, a)..Offset(s, b)]) == Chars(s)[a..b]
  {
    var cs := Chars(s);
    OffsetParts(s, b);
    assert cs[..b] == cs[..a] + cs[a..b];
    FlattenAppend(cs[..a], cs[a..b]);
    var i, j := Offset(s, a), Offset(s, b);
    assert s[i..j] == s[..j][i..];
    CharsFlatten(cs[a..b]);
  }

  /** Later characters start at later offsets. */
  lemma {:induction false} OffsetMonotone(s: seq<byte>, j: nat, k: nat)
    requires Text(s) && j <= k <= Strlen(s)
    ensures Offset(s, j) <= Offset(s, k)
  {
    SubChars(s, j, k);
  }

  /** The text with character k replaced by the bytes e. */
  function Splice(s: seq<byte>, k: nat, e: seq<byte>): seq<byte>
    requires Text(s) && k < Strlen(s)
  {
    s[..Offset(s, k)] + e + s[Offset(s, k + 1)..]
  }

  lemma {:induction false} UpdateSplit<T>(xs: seq<T>, k: nat, e: T)
    requires k < |xs|
    ensures xs[k := e] == xs[..k] + ([e] + xs[k + 1..])
  {
  }

  /** Replacing a character by a character gives a text with that one character changed. */
  lemma {:induction false} SpliceChars(s: seq<byte>, k: nat, e: seq<byte>)
    requires Text(s) && k < Strlen(s) && IsChar(e)
    ensures Text(Splice(s, k, e))
    ensures Chars(Splice(s, k, e)) == Chars(s)[k := e]
  {
    var pre, post := s[..Offset(s, k)], s[Offset(s, k + 1)..];
    var cs := Chars(s);
    TakeChars(s, k);
    DropChars(s, k + 1);
    InsertChar(pre, e, post);
    UpdateSplit(cs, k, e);
    AppendAssoc(pre, e, post);
  }

  lemma {:induction false} AppendAssoc<T>(a: seq<T>, b: seq<T>, c: seq<T>)
    ensures a + (b + c) == (a + b) + c
  {
  }

  /** A character between two texts gives a text of their characters around it. */
  lemma {:induction false} InsertChar(pre: seq<byte>, e: seq<byte>, post: seq<byte>)
    requires Text(pre) && IsChar(e) && Text(post)
    ensures Text(pre + (e + post)) && Chars(pre + (e + post)) == Chars(pre) + ([e] + Chars(post))
  {
    ConsChar(e, post);
    TextConcat(pre, e + post);
  }

  /** The highest code point. */
  const MAX_CODE_POINT: int := 0x10FFFF

  /** Two bytes `110xxxxx 10xxxxxx` for a code point from 0x80 to 0x7FF. */
  function Encode2(c: int): (r: seq<byte>)
    requires 0x80 <= c < 0x800
    ensures |r| == 2 && IsChar(r)
  {
    [0xC0 + c / 64, 0x80 + c % 64]
  }

  /** Three bytes `1110xxxx 10xxxxxx 10xxxxxx` for a code point from 0x800 to 0xFFFF. */
  function Encode3(c: int): (r: seq<byte>)
    requires 0x800 <= c < 0x10000
    ensures |r| == 3 && IsChar(r)
  {
    [0xE0 + c / 4096, 0x80 + (c / 64) % 64, 0x80 + c % 64]
  }

  /** Four bytes `11110xxx 10xxxxxx 10xxxxxx 10xxxxxx` for a code point from 0x10000 to 0x10FFFF. */
  function Encode4(c: int): (r: seq<byte>)
    requires 0x10000 <= c <= MAX_CODE_POINT
    ensures |r| == 4 && IsChar(r)
  {
    [0xF0 + c / 0x40000, 0x80 + (c / 4096) % 64, 0x80 + (c / 64) % 64, 0x80 + c % 64]
  }

  /**
   * `utf8_char_to_string(buf, c)`: the encoding of code point c, `None`
   * where the library returns -1 (c outside 0 .. 0x10FFFF).
   */
  function Encode(c: int): (r: Option<seq<byte>>)
    ensures r.Some? <==> 0 <= c <= MAX_CODE_POINT
    ensures r.Some? ==> 1 <= |r.value| <= 4
    ensures 1 <= c <= MAX_CODE_POINT ==> IsChar(r.value)
    ensures c == 0 ==> r == Some([0])
  {
    if c < 0 || c > MAX_CODE_POINT then None
    else if c < 0x80 then Some([c])
    else if c < 0x800 then Some(Encode2(c))
    else if c < 0x10000 then Some(Encode3(c))
    else Some(Encode4(c))
  }

  /** `utf8_string_to_char`: the code point of an encoded character. */
  function Decode(s: seq<byte>): int
    requires IsChar(s)
  {
    var b := seq(|s|, i requires 0 <= i < |s| => s[i] as int);
    if |b| == 1 then b[0]
    else if |b| == 2 then (b[0] - 0xC0) * 64 + (b[1] - 0x80)
    else if |b| == 3 then (b[0] - 0xE0) * 4096 + (b[1] - 0x80) * 64 + (b[2] - 0x80)
    else (b[0] - 0xF0) * 0x40000 + (b[1] - 0x80) * 4096 + (b[2] - 0x80) * 64 + (b[3] - 0x80)
  }

  /** Decoding an encoded character gives its code point back. */
  lemma {:induction false} DecodeEncode(c: int)
    requires 1 <= c <= MAX_CODE_POINT
    ensures Decode(Encode(c).value) == c
  {
    var e := Encode(c).value;
    if c >= 0x10000 {
      var q, r := c / 64, c % 64;
      var q2, r2 := q / 64, q % 64;
      var q3, r3 := q2 / 64, q2 % 64;
      assert c == q * 64 + r;
      assert q == q2 * 64 + r2;
      assert q2 == q3 * 64 + r3;
      assert c / 4096 == q2 && c / 0x40000 == q3;
      assert Decode(e) == q3 * 0x40000 + r3 * 4096 + r2 * 64 + r;
    } else if c >= 0x800 {
      var q, r := c / 64, c % 64;
      var q2, r2 := q / 64, q % 64;
      assert c == q * 64 + r;
      assert q == q2 * 64 + r2;
      assert c / 4096 == q2;
      assert Decode(e) == q2 * 4096 + r2 * 64 + r;
    }
  }
}
