/**
 * The lexer of the DDP compiler (pkg/scanner/scanner.go): a cursor over the
 * runes of a source text that tracks line, column and indentation and cuts
 * the text into tokens.
 *
 * The first half of this module specifies, as functions on values, what
 * consuming runes does to the position (`Consumed`, `Moved`), how far each
 * kind of token reaches (`RunEnd`, `CommentFrom`, `QuotedEnd`) and how
 * leading whitespace turns into indentation levels (`Levels`); the lemmas
 * there state those specifications in closed form. The second half is the
 * `Scanner` class, whose methods update the scanner's fields as the
 * original does and are proved against those functions.
 */
module Scanner {
  import opened Tokens

  /** What `peek` and `peekNext` return past the end of the source. */
  const EOF: int := -1

  // Character classes of the scanner, on runes (so that EOF is none of them).

  /** `isDigit`: a digit is neither a letter nor EOF. */
  predicate IsDigit(r: int): (b: bool)
    ensures b ==> r != EOF && !IsAlpha(r)
  {
    '0' as int <= r <= '9' as int
  }

  /** `isAlpha`: the ASCII letters, `_`, `ß` and the umlauts; every capital is one, and none is a blank. */
  predicate IsAlpha(r: int): (b: bool)
    ensures IsUpper(r) ==> b
    ensures b ==> r != EOF && !IsSpace(r)
  {
    || ('a' as int <= r <= 'z' as int)
    || ('A' as int <= r <= 'Z' as int)
    || r == 'ß' as int || r == '_' as int || r == 'ä' as int
    || r == 'Ä' as int || r == 'ö' as int || r == 'Ö' as int
    || r == 'ü' as int || r == 'Ü' as int
  }

  /** `isAlphaNumeric`: the runes a name may hold; EOF and blanks never are. */
  predicate IsAlphaNumeric(r: int): (b: bool)
    ensures b ==> r != EOF && !IsSpace(r)
  {
    IsAlpha(r) || IsDigit(r)
  }

  /** `isSpace`: exactly the runes `skipWhitespace` passes over. */
  predicate IsSpace(r: int): (b: bool)
    ensures b <==> 0 <= r < 0x80 && IsBlank(r as char)
  {
    r == ' ' as int || r == '\r' as int || r == '\n' as int || r == '\t' as int
  }

  /** `isUpper`: the capitals A to Z, Ä, Ö and Ü; EOF is none. */
  predicate IsUpper(r: int): (b: bool)
    ensures b ==> r != EOF && 'A' as int <= r
  {
    ('A' as int <= r <= 'Z' as int) || r == 'Ä' as int || r == 'Ü' as int || r == 'Ö' as int
  }

  predicate IsDigitChar(c: char) { IsDigit(c as int) }

  predicate IsWordChar(c: char) { IsAlphaNumeric(c as int) }

  /** The runes `skipWhitespace` passes over. */
  predicate IsBlank(c: char) { c == ' ' || c == '\r' || c == '\t' || c == '\n' }

  /**
   * The escapes a quoted literal accepts after a backslash: a, b, n, r, t,
   * the backslash and the enclosing quote.
   */
  predicate IsEscape(r: int, quote: char)
  {
    r == 'a' as int || r == 'b' as int || r == 'n' as int || r == 'r' as int || r == 't' as int
    || r == '\\' as int || r == quote as int
  }

  /** Lower-case of one letter the scanner accepts in a name; other runes stay. */
  function LowerChar(c: char): (d: char)
    ensures 'A' <= c <= 'Z' ==> d as int == c as int + 32
    ensures c == 'Ä' ==> d == 'ä'
    ensures c == 'Ö' ==> d == 'ö'
    ensures c == 'Ü' ==> d == 'ü'
    ensures !IsUpper(c as int) ==> d == c
  {
    if 'A' <= c <= 'Z' then (c as int + 32) as char
    else if c == 'Ä' then 'ä'
    else if c == 'Ö' then 'ö'
    else if c == 'Ü' then 'ü'
    else c
  }

  /** `strings.ToLower` on a spelling. */
  function ToLower(s: string): (r: string)
    ensures |r| == |s| && forall i | 0 <= i < |s| :: r[i] == LowerChar(s[i])
  {
    seq(|s|, i requires 0 <= i < |s| => LowerChar(s[i]))
  }

  /** The errors the scanner reports to its error handler. */
  datatype ScanError =
    | UnknownEscape(rune: int)
    | OpenText
    | OpenChar
    | CharLength
    | Capitalization
    | InvalidParameterName
    | OpenParameter
    | EmptyParameter
    | ParameterNotName
    | UnexpectedChar(c: char)

  /** The literal of the `Illegal` token for the errors that produce one. */
  function Message(e: ScanError): string
    requires e.OpenText? || e.OpenChar? || e.UnexpectedChar?
  {
    match e
    case OpenText => "Offenes Text Literal"
    case OpenChar => "Offenes Buchstaben Literal"
    case UnexpectedChar(c) => "Unerwartetes Zeichen '" + [c] + "'"
  }

  // ------------------------------------------------------------------
  // Position tracking

  /** The part of the scanner state that consuming runes changes. */
  datatype Pos = Pos(line: nat, column: nat, indent: nat, shouldIndent: bool)

  /** `advance` past c: one column further; indentation stops at the first non-space. */
  function Advanced(p: Pos, c: char): Pos
  {
    p.(column := p.column + 1, shouldIndent := p.shouldIndent && IsSpace(c as int))
  }

  /** `increaseLineBeforeAdvance`. */
  function NewLine(p: Pos): (q: Pos)
    ensures q.line == p.line + 1 && q.indent == 0 && q.column == 0 && q.shouldIndent
  {
    Pos(p.line + 1, 0, 0, true)
  }

  /** Consuming one rune inside a comment, a quoted literal or whitespace. */
  function Step(p: Pos, c: char): Pos
  {
    if c == '\n' then Advanced(NewLine(p), c) else Advanced(p, c)
  }

  /** Consuming the runes of seg, one `Step` at a time. */
  function Consumed(p: Pos, seg: string): Pos
    decreases |seg|
  {
    if seg == [] then p else Step(Consumed(p, seg[..|seg| - 1]), seg[|seg| - 1])
  }

  /** Advancing over the runes of seg with no line handling. */
  function Moved(p: Pos, seg: string): Pos
    decreases |seg|
  {
    if seg == [] then p else Advanced(Moved(p, seg[..|seg| - 1]), seg[|seg| - 1])
  }

  predicate AllSpace(s: string)
  {
    forall i | 0 <= i < |s| :: IsSpace(s[i] as int)
  }

  /** Where the last line of seg starts: just after its last newline, or 0. */
  function LineStart(seg: string): (r: nat)
    ensures r <= |seg|
    ensures r > 0 ==> seg[r - 1] == '\n'
    decreases |seg|
  {
    if seg == [] then 0
    else if seg[|seg| - 1] == '\n' then |seg|
    else LineStart(seg[..|seg| - 1])
  }

  /** The runes of the last line of seg. */
  function CurrentLine(seg: string): string
  {
    seg[LineStart(seg)..]
  }

  lemma {:induction false} LineStartSnoc(seg: string, c: char)
    ensures c == '\n' ==> LineStart(seg + [c]) == |seg| + 1
    ensures c != '\n' ==> LineStart(seg + [c]) == LineStart(seg)
  {
    assert (seg + [c])[..|seg|] == seg && (seg + [c])[|seg|] == c;
  }

  lemma {:induction false} CurrentLineSnoc(seg: string, c: char)
    ensures c == '\n' ==> LineStart(seg + [c]) == |seg| + 1 && CurrentLine(seg + [c]) == []
    ensures c != '\n' ==> LineStart(seg + [c]) == LineStart(seg)
    ensures c != '\n' ==> CurrentLine(seg + [c]) == CurrentLine(seg) + [c]
  {
    LineStartSnoc(seg, c);
    var r := LineStart(seg);
    if c != '\n' {
      assert (seg + [c])[r..] == seg[r..] + [c];
    }
  }

  /**
   * Consuming seg advances the line once per newline. If seg has no
   * newline, the column advances by |seg| and the indentation stays;
   * otherwise the column counts the runes from the last newline on and the
   * indentation is reset. Indentation counting stays on exactly while only
   * spaces have been consumed on the current line.
   */
  lemma {:induction false} ConsumedClosed(p: Pos, seg: string)
    ensures Consumed(p, seg).line == p.line + multiset(seg)['\n']
    ensures LineStart(seg) == 0 ==>
      && Consumed(p, seg).column == p.column + |seg|
      && Consumed(p, seg).indent == p.indent
      && Consumed(p, seg).shouldIndent == (p.shouldIndent && AllSpace(seg))
    ensures LineStart(seg) > 0 ==>
      && Consumed(p, seg).column == |seg| - LineStart(seg) + 1
      && Consumed(p, seg).indent == 0
      && Consumed(p, seg).shouldIndent == AllSpace(CurrentLine(seg))
    decreases |seg|
  {
    if seg != [] {
      var s, c := seg[..|seg| - 1], seg[|seg| - 1];
      assert seg == s + [c];
      ConsumedClosed(p, s);
      ConsumedSnoc(p, s, c);
      CurrentLineSnoc(s, c);
      assert multiset(seg) == multiset(s) + multiset{c};
      if c != '\n' {
        AllSpaceSnoc(s, c);
        AllSpaceSnoc(CurrentLine(s), c);
      }
    }
  }

  lemma {:induction false} AllSpaceSnoc(s: string, c: char)
    ensures AllSpace(s + [c]) == (AllSpace(s) && IsSpace(c as int))
  {
    if AllSpace(s) && IsSpace(c as int) {
      forall i | 0 <= i < |s| + 1 ensures IsSpace((s + [c])[i] as int) {
        if i < |s| { assert (s + [c])[i] == s[i]; }
      }
    }
    if AllSpace(s + [c]) {
      forall i | 0 <= i < |s| ensures IsSpace(s[i] as int) {
        assert s[i] == (s + [c])[i];
      }
      assert IsSpace((s + [c])[|s|] as int);
    }
  }

  /** Advancing over seg moves the column by |seg| and changes neither the line nor the indentation. */
  lemma {:induction false} MovedClosed(p: Pos, seg: string)
    ensures Moved(p, seg).line == p.line && Moved(p, seg).indent == p.indent
    ensures Moved(p, seg).column == p.column + |seg|
    decreases |seg|
  {
    if seg != [] {
      MovedClosed(p, seg[..|seg| - 1]);
    }
  }

  /** Consuming a segment one rune further is one more `Step`. */
  lemma {:induction false} ConsumedSnoc(p: Pos, seg: string, c: char)
    ensures Consumed(p, seg + [c]) == Step(Consumed(p, seg), c)
    ensures Moved(p, seg + [c]) == Advanced(Moved(p, seg), c)
  {
    assert (seg + [c])[..|seg|] == seg && (seg + [c])[|seg|] == c;
  }

  /** `Moved` over the runes src[i..j], counted by index. */
  function MovedOver(p: Pos, src: string, i: nat, j: nat): Pos
    requires i <= j <= |src|
    decreases j - i
  {
    if j == i then p else Advanced(MovedOver(p, src, i, j - 1), src[j - 1])
  }

  /** `Consumed` over the runes src[i..j], counted by index. */
  function ConsumedOver(p: Pos, src: string, i: nat, j: nat): Pos
    requires i <= j <= |src|
    decreases j - i
  {
    if j == i then p else Step(ConsumedOver(p, src, i, j - 1), src[j - 1])
  }

  /** The index forms are the segment forms on the slice. */
  lemma {:induction false} OverSlice(p: Pos, src: string, i: nat, j: nat)
    requires i <= j <= |src|
    ensures MovedOver(p, src, i, j) == Moved(p, src[i..j])
    ensures ConsumedOver(p, src, i, j) == Consumed(p, src[i..j])
    decreases j - i
  {
    if j > i {
      OverSlice(p, src, i, j - 1);
      assert src[i..j] == src[i..j - 1] + [src[j - 1]];
      ConsumedSnoc(p, src[i..j - 1], src[j - 1]);
    }
  }

  /** Advancing from i to j passes through every k between. */
  lemma {:induction false} MovedOverJoin(p: Pos, src: string, i: nat, k: nat, j: nat)
    requires i <= k <= j <= |src|
    ensures MovedOver(p, src, i, j) == MovedOver(MovedOver(p, src, i, k), src, k, j)
    decreases j - k
  {
    if j > k {
      MovedOverJoin(p, src, i, k, j - 1);
    }
  }


  // ------------------------------------------------------------------
  // Indentation

  /** The number of spaces seg ends with. */
  function TrailingSpaces(s: string): (n: nat)
    ensures n <= |s|
    ensures n < |s| ==> s[|s| - n - 1] != ' '
    decreases |s|
  {
    if s == [] || s[|s| - 1] != ' ' then 0 else TrailingSpaces(s[..|s| - 1]) + 1
  }

  /**
   * The indentation levels `skipWhitespace` counts on one line: one per
   * tab, and one for every space that completes a run of four.
   */
  function Levels(s: string): nat
    decreases |s|
  {
    if s == [] then 0
    else
      var c := s[|s| - 1];
      Levels(s[..|s| - 1]) + (if c == '\t' || (c == ' ' && TrailingSpaces(s) % 4 == 0) then 1 else 0)
  }

  lemma {:induction false} LevelsSnoc(s: string, c: char)
    ensures TrailingSpaces(s + [c]) == if c == ' ' then TrailingSpaces(s) + 1 else 0
    ensures Levels(s + [c]) ==
      Levels(s) + (if c == '\t' || (c == ' ' && TrailingSpaces(s + [c]) % 4 == 0) then 1 else 0)
  {
    assert (s + [c])[..|s|] == s && (s + [c])[|s|] == c;
  }

  function Spaces(n: nat): (s: string)
    ensures |s| == n && forall i | 0 <= i < n :: s[i] == ' '
  {
    seq(n, i => ' ')
  }

  /** A run of n spaces is n / 4 levels. */
  lemma {:induction false} LevelsSpaces(n: nat)
    ensures TrailingSpaces(Spaces(n)) == n
    ensures Levels(Spaces(n)) == n / 4
    decreases n
  {
    if n > 0 {
      var s0 := Spaces(n - 1);
      LevelsSpaces(n - 1);
      assert Spaces(n) == s0 + [' '];
      LevelsSnoc(s0, ' ');
      assert Levels(Spaces(n)) == (n - 1) / 4 + (if n % 4 == 0 then 1 else 0);
      assert (n - 1) / 4 + (if n % 4 == 0 then 1 else 0) == n / 4;
    }
  }

  /** Past a rune that is not a space, the trailing spaces are those after it. */
  lemma {:induction false} TrailingBreak(a: string, c: char, b: string)
    requires c != ' '
    ensures TrailingSpaces(a + [c] + b) == TrailingSpaces(b)
    decreases |b|
  {
    if b == [] {
      assert a + [c] + b == a + [c];
      LevelsSnoc(a, c);
    } else {
      var b0, d := b[..|b| - 1], b[|b| - 1];
      assert b == b0 + [d];
      assert a + [c] + b == (a + [c] + b0) + [d];
      TrailingBreak(a, c, b0);
      LevelsSnoc(a + [c] + b0, d);
      LevelsSnoc(b0, d);
    }
  }

  /** The levels after a rune that is not a space do not depend on what came before it. */
  lemma {:induction false} LevelsBreak(a: string, c: char, b: string)
    requires c != ' '
    ensures Levels(a + [c] + b) == Levels(a + [c]) + Levels(b)
    decreases |b|
  {
    if b == [] {
      assert a + [c] + b == a + [c];
    } else {
      var b0, d := b[..|b| - 1], b[|b| - 1];
      assert b == b0 + [d];
      assert a + [c] + b == (a + [c] + b0) + [d];
      LevelsBreak(a, c, b0);
      LevelsSnoc(a + [c] + b0, d);
      LevelsSnoc(b0, d);
      TrailingBreak(a, c, b);
    }
  }

  /**
   * One level per tab and one per four consecutive spaces: after a rune
   * that is not a space, a tab adds one level, a carriage return none, and
   * a run of n spaces n / 4.
   */
  lemma {:induction false} LevelsRun(a: string, c: char, n: nat)
    requires c != ' '
    ensures Levels(a + [c] + Spaces(n)) == Levels(a + [c]) + n / 4
    ensures Levels(a + ['\t']) == Levels(a) + 1
    ensures Levels(a + ['\r']) == Levels(a)
  {
    LevelsBreak(a, c, Spaces(n));
    LevelsSpaces(n);
    LevelsSnoc(a, '\t');
    LevelsSnoc(a, '\r');
  }

  /**
   * The indentation after `skipWhitespace` consumed seg: the levels of the
   * last line if seg crossed a newline, otherwise the old indentation plus
   * the levels of seg if indentation was still being counted.
   */
  function WsIndent(p: Pos, seg: string): nat
  {
    if LineStart(seg) > 0 then Levels(CurrentLine(seg))
    else if p.shouldIndent then p.indent + Levels(seg)
    else p.indent
  }

  // ------------------------------------------------------------------
  // How far each kind of token reaches

  /** The end of the longest run of runes from i that satisfy p. */
  function RunEnd(src: string, i: nat, p: char -> bool): (j: nat)
    requires i <= |src|
    ensures i <= j <= |src|
    ensures j < |src| ==> !p(src[j])
    decreases |src| - i
  {
    if i < |src| && p(src[i]) then RunEnd(src, i + 1, p) else i
  }

  /** Every rune of the run satisfies p. */
  lemma {:induction false} RunEndAll(src: string, i: nat, p: char -> bool)
    requires i <= |src|
    ensures forall k | i <= k < RunEnd(src, i, p) :: p(src[k])
    decreases |src| - i
  {
    if i < |src| && p(src[i]) {
      RunEndAll(src, i + 1, p);
    }
  }

  /** Bracket depth change over s: opening minus closing brackets. */
  function Depth(s: string): int
  {
    multiset(s)['['] as int - multiset(s)[']'] as int
  }

  /**
   * The end of a comment whose bracket depth is d > 0 at i: just after the
   * bracket that brings the depth to 0, or the end of the source.
   */
  function CommentFrom(src: string, i: nat, d: nat): (j: nat)
    requires i <= |src| && d > 0
    ensures i <= j <= |src|
    decreases |src| - i
  {
    if i == |src| then i
    else
      var e := if src[i] == '[' then d + 1 else if src[i] == ']' then d - 1 else d;
      if e == 0 then i + 1 else CommentFrom(src, i + 1, e)
  }

  /**
   * A comment ends where its depth first reaches 0, or at the end of the
   * source while the depth stays positive.
   */
  lemma {:induction false} CommentFromDepth(src: string, i: nat, d: nat)
    requires i <= |src| && d > 0
    ensures var j := CommentFrom(src, i, d);
      && (forall k | i <= k < j :: d + Depth(src[i..k]) > 0)
      && (j == |src| || (j > i && d + Depth(src[i..j]) == 0))
    decreases |src| - i
  {
    if i < |src| {
      var e := if src[i] == '[' then d + 1 else if src[i] == ']' then d - 1 else d;
      DepthCons(src, i, d);
      if e != 0 {
        CommentFromDepth(src, i + 1, e);
      }
    }
  }

  lemma {:induction false} DepthCons(src: string, i: nat, d: nat)
    requires i < |src|
    ensures forall k | i < k <= |src| ::
      d + Depth(src[i..k]) == (if src[i] == '[' then d + 1 else if src[i] == ']' then d - 1 else d) + Depth(src[i + 1..k])
    ensures Depth(src[i..i]) == 0
  {
    forall k | i < k <= |src|
      ensures d + Depth(src[i..k]) == (if src[i] == '[' then d + 1 else if src[i] == ']' then d - 1 else d) + Depth(src[i + 1..k])
    {
      assert src[i..k] == [src[i]] + src[i + 1..k];
      assert multiset(src[i..k]) == multiset{src[i]} + multiset(src[i + 1..k]);
    }
  }

  /**
   * The offset of the closing quote of a literal whose content starts at i,
   * or the end of the source: a backslash followed by an accepted escape
   * skips the escaped rune, so such a quote does not close the literal.
   */
  function QuotedEnd(src: string, i: nat, quote: char): (j: nat)
    requires i <= |src|
    ensures i <= j <= |src|
    ensures j < |src| ==> src[j] == quote
    decreases |src| - i
  {
    if i == |src| || src[i] == quote then i
    else if src[i] == '\\' && i + 1 < |src| && IsEscape(src[i + 1] as int, quote) then QuotedEnd(src, i + 2, quote)
    else QuotedEnd(src, i + 1, quote)
  }

  /** Every quote inside a literal is escaped: it follows a backslash. */
  lemma {:induction false} QuotedEndEscaped(src: string, i: nat, quote: char)
    requires i <= |src|
    ensures forall k | i <= k < QuotedEnd(src, i, quote) :: src[k] == quote ==> k > i && src[k - 1] == '\\'
    decreases |src| - i
  {
    if i == |src| || src[i] == quote {
    } else if src[i] == '\\' && i + 1 < |src| && IsEscape(src[i + 1] as int, quote) {
      QuotedEndEscaped(src, i + 2, quote);
    } else {
      QuotedEndEscaped(src, i + 1, quote);
    }
  }

  /** The unknown escapes reported while scanning a literal from i to `QuotedEnd`. */
  function QuotedErrors(src: string, i: nat, quote: char): seq<ScanError>
    requires i <= |src|
    decreases |src| - i
  {
    if i == |src| || src[i] == quote then []
    else if src[i] == '\\' && i + 1 < |src| && IsEscape(src[i + 1] as int, quote) then QuotedErrors(src, i + 2, quote)
    else if src[i] == '\\' then [UnknownEscape(if i + 1 < |src| then src[i + 1] as int else EOF)] + QuotedErrors(src, i + 1, quote)
    else QuotedErrors(src, i + 1, quote)
  }

  /**
   * The rune count `char` accepts for a character literal: three, or four
   * when a backslash was seen inside it.
   */
  predicate CharLengthOk(lit: string, gotBackslash: bool)
  {
    |lit| == 3 || (|lit| == 4 && gotBackslash)
  }

  /** The number of runes of s that may not appear in a name. */
  function NonWord(s: string): (n: nat)
    ensures n <= |s|
    decreases |s|
  {
    if s == [] then 0 else NonWord(s[..|s| - 1]) + (if IsWordChar(s[|s| - 1]) then 0 else 1)
  }

  function Repeat(e: ScanError, n: nat): (r: seq<ScanError>)
    ensures |r| == n && forall i | 0 <= i < n :: r[i] == e
  {
    seq(n, i => e)
  }

  /** The token types a spelling of the keyword table stands for. */
  predicate IsKeyword(t: TokenType)
  {
    t.Keyword? || t == Binde || t == Ein
  }

  /** The keyword table maps spellings to keyword token types only. */
  predicate KeywordTable(keywords: map<string, TokenType>)
  {
    forall w | w in keywords :: IsKeyword(keywords[w])
  }

  /** A keyword table: `token.KeywordToTokenType`. */
  type KeywordMap = m: map<string, TokenType> | KeywordTable(m) witness map[]

  /** What the first rune of a token makes of it: the dispatch of `nextToken`. */
  datatype Lexeme =
    | Word          // a name or a keyword
    | Number        // an integer or a decimal
    | Punct(kind: TokenType)
    | Text          // a string literal
    | Letter        // a character literal
    | OpenComment
    | Parameter     // an alias parameter, in alias mode only
    | Unexpected

  function StartOf(c: char, aliasMode: bool): (l: Lexeme)
    ensures l.Word? <==> IsAlpha(c as int)
    ensures l.Number? <==> IsDigitChar(c)
    ensures l.Punct? ==> l.kind in {Negate, Dot, Comma, Colon, LParen, RParen}
    ensures c == '-' ==> l == Punct(Negate)
    ensures c == '.' ==> l == Punct(Dot)
    ensures c == ',' ==> l == Punct(Comma)
    ensures c == ':' ==> l == Punct(Colon)
    ensures c == '(' ==> l == Punct(LParen)
    ensures c == ')' ==> l == Punct(RParen)
    ensures l.Punct? <==> c == '-' || c == '.' || c == ',' || c == ':' || c == '(' || c == ')'
    ensures l.Text? <==> c == '"'
    ensures l.Letter? <==> c == '\''
    ensures l.OpenComment? <==> c == '['
    ensures l.Parameter? <==> c == '<' && aliasMode
    ensures l.Unexpected? <==>
      && !IsAlpha(c as int) && !IsDigitChar(c) && !l.Punct?
      && c != '"' && c != '\'' && c != '[' && !(c == '<' && aliasMode)
  {
    if IsAlpha(c as int) then Word
    else if IsDigitChar(c) then Number
    else match c
      case '-' => Punct(Negate)
      case '.' => Punct(Dot)
      case ',' => Punct(Comma)
      case ':' => Punct(Colon)
      case '(' => Punct(LParen)
      case ')' => Punct(RParen)
      case '"' => Text
      case '\'' => Letter
      case '[' => OpenComment
      case '<' => if aliasMode then Parameter else Unexpected
      case _ => Unexpected
  }

  /** The token types a lexeme starting with c can produce. */
  predicate Fits(l: Lexeme, c: char, tok: Token)
  {
    match l
      case Word => tok.kind == Identifier || IsKeyword(tok.kind)
      case Number => tok.kind == Int || tok.kind == Float
      case Punct(k) => tok.kind == k
      case Text => tok.kind == Str || (tok.kind == Illegal && tok.literal == Message(OpenText))
      case Letter => tok.kind == Char || (tok.kind == Illegal && tok.literal == Message(OpenChar))
      case OpenComment => tok.kind == Comment
      case Parameter => tok.kind == AliasParameter
      case Unexpected => tok.kind == Illegal && tok.literal == Message(UnexpectedChar(c))
  }

  /** No token that fits the rune it starts with is `Eof`. */
  lemma FitsNotEof(c: char, aliasMode: bool, tok: Token)
    requires Fits(StartOf(c, aliasMode), c, tok)
    ensures tok.kind != Eof
  {
  }

  // ------------------------------------------------------------------
  // The scanner

  class Scanner {
    /** The runes of the source text. */
    const src: string
    /** `token.KeywordToTokenType`. */
    const keywords: KeywordMap
    /** `ModeStrictCapitalization`. */
    const strict: bool
    /** `ModeAlias`. */
    const aliasMode: bool

    var start: nat
    var cur: nat
    var line: nat
    var column: nat
    var startLine: nat
    var startColumn: nat
    var indent: nat
    var shouldIndent: bool
    var shouldCapitalize: bool
    /** The errors reported to the error handler, in order. */
    var errors: seq<ScanError>

    ghost predicate Valid()
      reads this
    {
      start <= cur <= |src|
    }

    /** The position part of the state. */
    ghost function At(): Pos
      reads this
    {
      Pos(line, column, indent, shouldIndent)
    }

    /** The token `newToken(kind)` builds in the current state. */
    ghost function Current(kind: TokenType): Token
      requires Valid()
      reads this
    {
      Token(kind, src[start..cur], indent, Range(Position(startLine, startColumn), Position(line, column)))
    }

    /** `New` on a source held in memory: line and column 1, counting indentation, expecting a capital. */
    constructor (src: string, keywords: KeywordMap, strict: bool, aliasMode: bool)
      ensures Valid() && this.src == src && this.keywords == keywords
      ensures this.strict == strict && this.aliasMode == aliasMode
      ensures start == 0 && cur == 0 && startLine == 1 && startColumn == 1
      ensures At() == Pos(1, 1, 0, true) && shouldCapitalize && errors == []
    {
      this.src := src;
      this.keywords := keywords;
      this.strict := strict;
      this.aliasMode := aliasMode;
      start, cur := 0, 0;
      line, column, startLine, startColumn := 1, 1, 1, 1;
      indent := 0;
      shouldIndent, shouldCapitalize := true, true;
      errors := [];
    }

    /** `atEnd`. */
    predicate AtEnd(): (b: bool)
      reads this
      ensures Valid() ==> (b <==> cur == |src|)
      ensures !b ==> cur < |src|
    {
      cur >= |src|
    }

    /** `peek`: the rune at the cursor, EOF past the end. */
    function Peek(): (r: int)
      reads this
      ensures cur < |src| ==> r == src[cur] as int
      ensures cur >= |src| ==> r == EOF
    {
      if AtEnd() then EOF else src[cur] as int
    }

    /** `peekNext`: the rune after the cursor, EOF past the end. */
    function PeekNext(): (r: int)
      reads this
      ensures cur + 1 < |src| ==> r == src[cur + 1] as int
      ensures cur + 1 >= |src| ==> r == EOF
    {
      if AtEnd() || cur + 1 >= |src| then EOF else src[cur + 1] as int
    }

    /** `advance`: consume the rune at the cursor. */
    method Advance() returns (c: char)
      requires Valid() && cur < |src|
      modifies this`cur, this`column, this`shouldIndent
      ensures Valid() && cur == old(cur) + 1 && c == src[old(cur)]
      ensures At() == Advanced(old(At()), c)
    {
      cur := cur + 1;
      column := column + 1;
      if shouldIndent && !IsSpace(src[cur - 1] as int) {
        shouldIndent := false;
      }
      c := src[cur - 1];
    }

    /** `increaseLineBeforeAdvance`. */
    method IncreaseLineBeforeAdvance()
      modifies this`line, this`indent, this`column, this`shouldIndent
      ensures At() == NewLine(old(At()))
    {
      line := line + 1;
      indent := 0;
      column := 0;
      shouldIndent := true;
    }

    /** `err`: report e to the error handler. */
    method Err(e: ScanError)
      modifies this`errors
      ensures errors == old(errors) + [e]
    {
      errors := errors + [e];
    }

    /** `newToken`. */
    method NewToken(kind: TokenType) returns (tok: Token)
      requires Valid()
      modifies this`shouldCapitalize
      ensures tok.kind == kind && tok.literal == src[start..cur] && tok.indent == indent
      ensures tok.range == Range(Position(startLine, startColumn), Position(line, column))
      ensures shouldCapitalize <==> kind == Dot || kind == Colon
      ensures Valid() && At() == old(At()) && tok == Current(kind)
    {
      shouldCapitalize := kind == Dot || kind == Colon;
      tok := Token(kind, src[start..cur], indent, Range(Position(startLine, startColumn), Position(line, column)));
    }

    /** `errorToken`: report e and return an `Illegal` token whose literal is the message. */
    method ErrorToken(e: ScanError) returns (tok: Token)
      requires e.OpenText? || e.OpenChar? || e.UnexpectedChar?
      modifies this`errors
      ensures errors == old(errors) + [e]
      ensures tok == Token(Illegal, Message(e), 0, Range(Position(startLine, startColumn), Position(line, column)))
    {
      Err(e);
      tok := Token(Illegal, Message(e), 0, Range(Position(startLine, startColumn), Position(line, column)));
    }

    /** `skipWhitespace`: pass over spaces, tabs, carriage returns and newlines, counting indentation. */
    method SkipWhitespace()
      requires Valid()
      modifies this`cur, this`line, this`column, this`indent, this`shouldIndent
      ensures Valid() && cur == RunEnd(src, old(cur), IsBlank)
      ensures At() == WsState(old(At()), src[old(cur)..cur])
    {
      ghost var c0, p0 := cur, At();
      var count := 0;
      while true
        invariant Valid() && c0 <= cur <= |src|
        invariant forall k | c0 <= k < cur :: IsBlank(src[k])
        invariant Counted(p0, src[c0..cur], At(), count)
        decreases |src| - cur
      {
        var c := Peek();
        if !(c == ' ' as int || c == '\r' as int || c == '\t' as int || c == '\n' as int) {
          RunEndFrom(src, c0, cur, IsBlank);
          return;
        }
        count := SkipBlank(p0, c0, count);
      }
    }

    /** One turn of the loop of `skipWhitespace`, on the blank at the cursor. */
    method SkipBlank(ghost p0: Pos, ghost c0: nat, count: int) returns (next: int)
      requires Valid() && c0 <= cur < |src| && IsBlank(src[cur])
      requires forall k | c0 <= k < cur :: IsBlank(src[k])
      requires Counted(p0, src[c0..cur], At(), count)
      modifies this`cur, this`line, this`column, this`indent, this`shouldIndent
      ensures Valid() && cur == old(cur) + 1
      ensures Counted(p0, src[c0..cur], At(), next)
    {
      if src[cur] == ' ' {
        next := SkipSpace(p0, c0, count);
      } else {
        next := SkipOther(p0, c0);
      }
    }

    /** A space for `skipWhitespace`: every fourth one at the start of a line is a level of indentation. */
    method SkipSpace(ghost p0: Pos, ghost c0: nat, count: int) returns (next: int)
      requires Valid() && c0 <= cur < |src| && src[cur] == ' '
      requires forall k | c0 <= k < cur :: IsBlank(src[k])
      requires Counted(p0, src[c0..cur], At(), count)
      modifies this`cur, this`column, this`indent, this`shouldIndent
      ensures Valid() && cur == old(cur) + 1
      ensures Counted(p0, src[c0..cur], At(), next)
    {
      ghost var p := At();
      next := count + 1;
      if shouldIndent && next == 4 {
        indent := indent + 1;
        next := 0;
      }
      var _ := Advance();
      WsSpaceAt(p0, src, c0, cur - 1, p, count, At(), next);
    }

    /** A tab, carriage return or newline for `skipWhitespace`: a tab is a level of indentation at the start of a line. */
    method SkipOther(ghost p0: Pos, ghost c0: nat) returns (next: int)
      requires Valid() && c0 <= cur < |src| && (src[cur] == '\t' || src[cur] == '\r' || src[cur] == '\n')
      requires forall k | c0 <= k < cur :: IsBlank(src[k])
      requires At() == WsState(p0, src[c0..cur])
      modifies this`cur, this`line, this`column, this`indent, this`shouldIndent
      ensures Valid() && cur == old(cur) + 1
      ensures Counted(p0, src[c0..cur], At(), next)
    {
      ghost var p := At();
      next := 0;
      var c := src[cur];
      if c == '\t' {
        if shouldIndent {
          indent := indent + 1;
        }
      } else if c == '\n' {
        IncreaseLineBeforeAdvance();
      }
      var _ := Advance();
      WsOtherAt(p0, src, c0, cur - 1, p, At(), next);
    }

    /** The loops `for isDigit(s.peek())` and `for isAlphaNumeric(s.peek())`: advance over a run of runes satisfying p. */
    method AdvanceWhile(p: char -> bool)
      requires Valid()
      modifies this`cur, this`column, this`shouldIndent
      ensures Valid() && cur == RunEnd(src, old(cur), p)
      ensures At() == MovedOver(old(At()), src, old(cur), cur)
    {
      ghost var c0, p0 := cur, At();
      while cur < |src| && p(src[cur])
        invariant Valid() && c0 <= cur <= |src|
        invariant RunEnd(src, cur, p) == RunEnd(src, c0, p)
        invariant At() == MovedOver(p0, src, c0, cur)
        decreases |src| - cur
      {
        ghost var q := At();
        var _ := Advance();
      }
    }

    /**
     * `number`, after the first digit: the digit run is an `Int`; it is a
     * `Float` only when a comma and a digit follow, and then the digits
     * after the comma belong to it too.
     */
    method ScanNumber() returns (tok: Token)
      requires Valid()
      modifies this`cur, this`column, this`shouldIndent, this`shouldCapitalize
      ensures Valid()
      ensures var j := RunEnd(src, old(cur), IsDigitChar);
        if j + 1 < |src| && src[j] == ',' && IsDigitChar(src[j + 1])
        then tok.kind == Float && cur == RunEnd(src, j + 1, IsDigitChar)
        else tok.kind == Int && cur == j
      ensures At() == MovedOver(old(At()), src, old(cur), cur)
      ensures tok == Current(tok.kind) && !shouldCapitalize
    {
      ghost var c0, p0 := cur, At();
      var kind := Int;
      AdvanceWhile(IsDigitChar);
      ghost var j := cur;
      if Peek() == ',' as int && IsDigit(PeekNext()) {
        assert j + 1 < |src| && src[j] == ',' && IsDigitChar(src[j + 1]);
        kind := Float;
        ScanFraction(p0, c0);
      } else {
        assert !(j + 1 < |src| && src[j] == ',' && IsDigitChar(src[j + 1]));
      }
      tok := NewToken(kind);
    }

    /** The digits after the decimal comma of a number. */
    method ScanFraction(ghost p0: Pos, ghost c0: nat)
      requires Valid() && c0 <= cur && cur + 1 < |src| && src[cur] == ',' && IsDigitChar(src[cur + 1])
      requires At() == MovedOver(p0, src, c0, cur)
      modifies this`cur, this`column, this`shouldIndent
      ensures Valid() && cur == RunEnd(src, old(cur) + 1, IsDigitChar)
      ensures At() == MovedOver(p0, src, c0, cur)
    {
      ghost var j := cur;
      var _ := Advance();
      AdvanceWhile(IsDigitChar);
      MovedOverJoin(p0, src, c0, j + 1, cur);
    }

    /**
     * The `[` case of `nextToken`, after the bracket: a comment runs until
     * its brackets balance or the source ends, counting lines.
     */
    method ScanComment() returns (tok: Token)
      requires Valid()
      modifies this`cur, this`line, this`column, this`indent, this`shouldIndent, this`shouldCapitalize
      ensures Valid() && cur == CommentFrom(src, old(cur), 1)
      ensures At() == ConsumedOver(old(At()), src, old(cur), cur)
      ensures tok == Current(Comment) && !shouldCapitalize
    {
      ghost var c0, p0 := cur, At();
      var bracketCount: nat := 1;
      while bracketCount > 0 && !AtEnd()
        invariant Valid() && c0 <= cur <= |src|
        invariant bracketCount > 0 ==> CommentFrom(src, cur, bracketCount) == CommentFrom(src, c0, 1)
        invariant bracketCount == 0 ==> cur == CommentFrom(src, c0, 1)
        invariant At() == ConsumedOver(p0, src, c0, cur)
        decreases |src| - cur
      {
        ghost var q := At();
        var c := Peek();
        if c == '[' as int {
          bracketCount := bracketCount + 1;
        } else if c == ']' as int {
          bracketCount := bracketCount - 1;
        } else if c == '\n' as int {
          IncreaseLineBeforeAdvance();
        }
        var _ := Advance();
      }
      tok := NewToken(Comment);
    }

    /** `scanEscape`: accept the rune after the backslash at the cursor, or report it. */
    method ScanEscape(quote: char) returns (ok: bool)
      requires Valid() && cur < |src|
      modifies this`cur, this`column, this`shouldIndent, this`errors
      ensures Valid()
      ensures ok <==> IsEscape(old(PeekNext()), quote)
      ensures ok ==> cur == old(cur) + 1 && At() == Advanced(old(At()), src[old(cur)]) && errors == old(errors)
      ensures !ok ==> cur == old(cur) && At() == old(At()) && errors == old(errors) + [UnknownEscape(old(PeekNext()))]
    {
      var next := PeekNext();
      if IsEscape(next, quote) {
        var _ := Advance();
        return true;
      }
      Err(UnknownEscape(next));
      return false;
    }

    /**
     * The loop shared by `string` and `char`: consume the content of a
     * quoted literal up to its closing quote or the end of the source.
     * gotBackslash tells whether a backslash was met.
     */
    method ScanQuoted(quote: char) returns (gotBackslash: bool)
      requires Valid() && (quote == '"' || quote == '\'')
      modifies this`cur, this`line, this`column, this`indent, this`shouldIndent, this`errors
      ensures Valid() && cur == QuotedEnd(src, old(cur), quote)
      ensures At() == ConsumedOver(old(At()), src, old(cur), cur)
      ensures errors == old(errors) + QuotedErrors(src, old(cur), quote)
      ensures gotBackslash <==> '\\' in src[old(cur)..cur]
    {
      ghost var c0, p0, e0 := cur, At(), errors;
      gotBackslash := false;
      while !AtEnd()
        invariant Valid() && c0 <= cur <= |src|
        invariant QuotedEnd(src, cur, quote) == QuotedEnd(src, c0, quote)
        invariant e0 + QuotedErrors(src, c0, quote) == errors + QuotedErrors(src, cur, quote)
        invariant At() == ConsumedOver(p0, src, c0, cur)
        invariant gotBackslash <==> '\\' in src[c0..cur]
        decreases |src| - cur
      {
        if Peek() == quote as int {
          break;
        }
        gotBackslash := QuotedStep(quote, p0, c0, e0, gotBackslash);
      }
    }

    /** One turn of the loop of `ScanQuoted`, on a rune that is not the closing quote. */
    method QuotedStep(quote: char, ghost p0: Pos, ghost c0: nat, ghost e0: seq<ScanError>, seen: bool)
      returns (gotBackslash: bool)
      requires Valid() && (quote == '"' || quote == '\'') && c0 <= cur < |src| && src[cur] != quote
      requires QuotedEnd(src, cur, quote) == QuotedEnd(src, c0, quote)
      requires e0 + QuotedErrors(src, c0, quote) == errors + QuotedErrors(src, cur, quote)
      requires At() == ConsumedOver(p0, src, c0, cur)
      requires seen <==> '\\' in src[c0..cur]
      modifies this`cur, this`line, this`column, this`indent, this`shouldIndent, this`errors
      ensures Valid() && old(cur) < cur <= |src|
      ensures QuotedEnd(src, cur, quote) == QuotedEnd(src, c0, quote)
      ensures e0 + QuotedErrors(src, c0, quote) == errors + QuotedErrors(src, cur, quote)
      ensures At() == ConsumedOver(p0, src, c0, cur)
      ensures gotBackslash <==> '\\' in src[c0..cur]
    {
      gotBackslash := seen || src[cur] == '\\';
      ghost var i, p, e1 := cur, At(), errors;
      QuotedRune(quote);
      ghost var m, q := cur, At();
      var _ := Advance();
      QuotedAt(src, c0, i, m, quote, e0, e1, errors, seen, gotBackslash);
      QuotedPosAt(p0, src, c0, i, m, p, q, At());
    }

    /**
     * The body of the loop of `ScanQuoted` before its `advance`: a line break
     * moves to the next line; a backslash consumes a valid escape after it
     * or reports the invalid one.
     */
    method QuotedRune(quote: char)
      requires Valid() && cur < |src| && src[cur] != quote
      modifies this`cur, this`line, this`column, this`indent, this`shouldIndent, this`errors
      ensures Valid() && cur < |src|
      ensures cur == old(cur) || (cur == old(cur) + 1 && src[old(cur)] == '\\' && IsEscape(src[cur] as int, quote))
      ensures cur == old(cur) ==> At() == (if src[cur] == '\n' then NewLine(old(At())) else old(At()))
      ensures cur == old(cur) + 1 ==> At() == Advanced(old(At()), '\\')
      ensures old(cur) == cur && src[cur] == '\\' ==>
        && !(cur + 1 < |src| && IsEscape(src[cur + 1] as int, quote))
        && errors == old(errors) + [UnknownEscape(if cur + 1 < |src| then src[cur + 1] as int else EOF)]
      ensures !(old(cur) == cur && src[cur] == '\\') ==> errors == old(errors)
    {
      if Peek() == '\n' as int {
        IncreaseLineBeforeAdvance();
      } else if Peek() == '\\' as int {
        var _ := ScanEscape(quote);
      }
    }

    /** `string`, after the opening quote. */
    method ScanString() returns (tok: Token)
      requires Valid()
      modifies this`cur, this`line, this`column, this`indent, this`shouldIndent, this`errors, this`shouldCapitalize
      ensures Valid()
      ensures var j := QuotedEnd(src, old(cur), '"');
        && cur == (if j == |src| then j else j + 1)
        && At() == ConsumedOver(old(At()), src, old(cur), cur)
        && errors == old(errors) + QuotedErrors(src, old(cur), '"') + (if j == |src| then [OpenText] else [])
        && (j == |src| ==>
          && tok == Token(Illegal, Message(OpenText), 0, Range(Position(startLine, startColumn), Position(line, column)))
          && shouldCapitalize == old(shouldCapitalize))
        && (j < |src| ==> tok == Current(Str) && !shouldCapitalize)
    {
      ghost var c0, p0 := cur, At();
      var _ := ScanQuoted('"');
      if AtEnd() {
        tok := ErrorToken(OpenText);
        return;
      }
      tok := CloseQuoted('"', Str, p0, c0);
    }

    /** The closing quote of a literal: pass over it and take the token. */
    method CloseQuoted(quote: char, kind: TokenType, ghost p0: Pos, ghost c0: nat) returns (tok: Token)
      requires Valid() && c0 <= cur < |src| && src[cur] == quote && quote != '\n'
      requires kind == Str || kind == Char
      requires At() == ConsumedOver(p0, src, c0, cur)
      modifies this`cur, this`column, this`shouldIndent, this`shouldCapitalize
      ensures Valid() && cur == old(cur) + 1
      ensures At() == ConsumedOver(p0, src, c0, cur)
      ensures tok == Current(kind) && !shouldCapitalize
    {
      var _ := Advance();
      tok := NewToken(kind);
    }

    /**
     * `char`, after the opening quote: the literal, quotes included, must
     * have three runes, or four when it holds a backslash.
     */
    method ScanChar() returns (tok: Token)
      requires Valid()
      modifies this`cur, this`line, this`column, this`indent, this`shouldIndent, this`errors, this`shouldCapitalize
      ensures Valid()
      ensures var j := QuotedEnd(src, old(cur), '\'');
        && cur == (if j == |src| then j else j + 1)
        && At() == ConsumedOver(old(At()), src, old(cur), cur)
        && (j == |src| ==>
          && errors == old(errors) + QuotedErrors(src, old(cur), '\'') + [OpenChar]
          && tok == Token(Illegal, Message(OpenChar), 0, Range(Position(startLine, startColumn), Position(line, column)))
          && shouldCapitalize == old(shouldCapitalize))
        && (j < |src| ==>
          && errors == old(errors) + QuotedErrors(src, old(cur), '\'') +
            (if CharLengthOk(src[start..cur], '\\' in src[old(cur)..j]) then [] else [CharLength])
          && tok == Current(Char) && !shouldCapitalize)
    {
      ghost var c0, p0 := cur, At();
      var gotBackslash := ScanQuoted('\'');
      if AtEnd() {
        tok := ErrorToken(OpenChar);
        return;
      }
      tok := CloseQuoted('\'', Char, p0, c0);
      CheckCharLength(tok.literal, gotBackslash);
    }

    /** The rune count check of `char` on the literal lit. */
    method CheckCharLength(lit: string, gotBackslash: bool)
      modifies this`errors
      ensures errors == old(errors) + (if CharLengthOk(lit, gotBackslash) then [] else [CharLength])
    {
      var n := |lit|;
      if n == 3 {
      } else if n == 4 {
        if !gotBackslash {
          Err(CharLength);
        }
      } else {
        Err(CharLength);
      }
    }

    /**
     * `identifierType`: the keyword the literal spells, or failing that the
     * keyword its lower-case form spells, or `Identifier`.
     */
    function IdentifierType(): (t: TokenType)
      requires Valid()
      reads this
      ensures t == Identifier || IsKeyword(t)
      ensures var lit := src[start..cur];
        && (lit in keywords ==> t == keywords[lit])
        && (lit !in keywords && ToLower(lit) in keywords ==> t == keywords[ToLower(lit)])
        && (lit !in keywords && ToLower(lit) !in keywords ==> t == Identifier)
    {
      var lit := src[start..cur];
      var t := KeywordType(keywords, lit);
      if t == Identifier then KeywordType(keywords, ToLower(lit)) else t
    }

    /**
     * `identifier`, after the first letter: a name runs over letters and
     * digits. In strict mode a keyword that should start with a capital and
     * does not is reported.
     */
    method ScanIdentifier() returns (tok: Token)
      requires Valid() && 0 < cur
      modifies this`cur, this`column, this`shouldIndent, this`shouldCapitalize, this`errors
      ensures Valid() && cur == RunEnd(src, old(cur), IsWordChar)
      ensures At() == MovedOver(old(At()), src, old(cur), cur)
      ensures tok == Current(IdentifierType()) && !shouldCapitalize
      ensures tok.kind == Identifier || IsKeyword(tok.kind)
      ensures errors == old(errors) +
        (if strict && old(shouldCapitalize) && !IsUpper(src[old(cur) - 1] as int) && tok.kind != Identifier
         then [Capitalization] else [])
    {
      var report := strict && shouldCapitalize && !IsUpper(src[cur - 1] as int);
      AdvanceWhile(IsWordChar);
      var kind := IdentifierType();
      if report && kind != Identifier {
        Err(Capitalization);
      }
      tok := NewToken(kind);
    }

    /** `aliasParameter`, after the `<`: a parameter name up to the closing `>`. */
    method ScanAliasParameter() returns (tok: Token)
      requires Valid()
      modifies this`cur, this`column, this`shouldIndent, this`shouldCapitalize, this`errors
      ensures Valid()
      ensures var j := RunEnd(src, old(cur), NotClosing);
        && cur == (if j < |src| then j + 1 else j)
        && At() == MovedOver(old(At()), src, old(cur), cur)
        && tok == Current(AliasParameter) && !shouldCapitalize
        && errors == old(errors)
          + (if IsAlpha(old(Peek())) then [] else [InvalidParameterName])
          + Repeat(InvalidParameterName, NonWord(src[old(cur)..j]))
          + (if j == |src| then [OpenParameter] else [])
          + (if cur - start <= 2 && cur < |src| then [EmptyParameter] else [])
          + (if IdentifierType() != Identifier then [ParameterNotName] else [])
    {
      ghost var c0, p0, e0 := cur, At(), errors;
      ghost var bad := if IsAlpha(Peek()) then [] else [InvalidParameterName];
      if !IsAlpha(Peek()) {
        Err(InvalidParameterName);
      }
      AliasName();
      ghost var j, p1, e1 := cur, At(), errors;
      assert e1 == e0 + bad + Repeat(InvalidParameterName, NonWord(src[c0..j]));
      if AtEnd() {
        Err(OpenParameter);
      } else {
        var _ := Advance();
      }
      assert errors == e1 + (if j == |src| then [OpenParameter] else []);
      assert At() == MovedOver(p0, src, c0, cur);
      tok := AliasToken();
    }

    /** The end of `aliasParameter`: the checks on the whole parameter, and its token. */
    method AliasToken() returns (tok: Token)
      requires Valid()
      modifies this`errors, this`shouldCapitalize
      ensures tok == Current(AliasParameter) && !shouldCapitalize
      ensures errors == old(errors)
        + (if cur - start <= 2 && cur < |src| then [EmptyParameter] else [])
        + (if IdentifierType() != Identifier then [ParameterNotName] else [])
    {
      if cur - start <= 2 && !AtEnd() {
        Err(EmptyParameter);
      }
      if IdentifierType() != Identifier {
        Err(ParameterNotName);
      }
      tok := NewToken(AliasParameter);
    }

    /**
     * What scanning a token does once its first rune c is consumed, from
     * position p0, errors e0 and capitalization flag cap0 before, with the
     * rest of the token starting at i: where the cursor stops, the position it
     * reaches and the errors appended, for each kind of token `nextToken`
     * dispatches to.
     */
    ghost predicate Scanned(c: char, p0: Pos, e0: seq<ScanError>, cap0: bool, i: nat, tok: Token)
      requires Valid() && 0 < i <= cur
      reads this
    {
      match StartOf(c, aliasMode)
        case Word =>
          && cur == RunEnd(src, i, IsWordChar) && At() == MovedOver(p0, src, i, cur)
          && errors == e0 + (if strict && cap0 && !IsUpper(c as int) && tok.kind != Identifier then [Capitalization] else [])
        case Number =>
          && (var j := RunEnd(src, i, IsDigitChar);
              cur == if j + 1 < |src| && src[j] == ',' && IsDigitChar(src[j + 1]) then RunEnd(src, j + 1, IsDigitChar) else j)
          && At() == MovedOver(p0, src, i, cur) && errors == e0
        case Punct(_) => cur == i && At() == p0 && errors == e0
        case Text =>
          var q := QuotedEnd(src, i, '"');
          && cur == (if q == |src| then q else q + 1) && At() == ConsumedOver(p0, src, i, cur)
          && errors == e0 + QuotedErrors(src, i, '"') + (if q == |src| then [OpenText] else [])
        case Letter =>
          var q := QuotedEnd(src, i, '\'');
          && cur == (if q == |src| then q else q + 1) && At() == ConsumedOver(p0, src, i, cur)
          && errors == e0 + QuotedErrors(src, i, '\'') +
            (if q == |src| then [OpenChar]
             else if CharLengthOk(src[start..cur], '\\' in src[i..q]) then [] else [CharLength])
        case OpenComment =>
          && cur == CommentFrom(src, i, 1) && At() == ConsumedOver(p0, src, i, cur) && errors == e0
        case Parameter =>
          var q := RunEnd(src, i, NotClosing);
          && cur == (if q < |src| then q + 1 else q) && At() == MovedOver(p0, src, i, cur)
          && errors == e0
            + (if IsAlpha(if i < |src| then src[i] as int else EOF) then [] else [InvalidParameterName])
            + Repeat(InvalidParameterName, NonWord(src[i..q]))
            + (if q == |src| then [OpenParameter] else [])
            + (if cur - start <= 2 && cur < |src| then [EmptyParameter] else [])
            + (if IdentifierType() != Identifier then [ParameterNotName] else [])
        case Unexpected => cur == i && At() == p0 && errors == e0 + [UnexpectedChar(c)]
    }

    /**
     * `nextToken`: skip whitespace, then scan one token from the first rune
     * after it, or `Eof` at the end of the source.
     */
    method NextToken() returns (tok: Token)
      requires Valid()
      modifies this
      ensures Valid()
      ensures start == RunEnd(src, old(cur), IsBlank)
      ensures var p := WsState(old(At()), src[old(cur)..start]); startLine == p.line && startColumn == p.column
      ensures tok.kind == Eof <==> start == |src|
      ensures start == |src| ==>
        && cur == start && tok == Current(Eof)
        && At() == WsState(old(At()), src[old(cur)..start]) && errors == old(errors)
      ensures start < |src| ==>
        && start < cur && Fits(StartOf(src[start], aliasMode), src[start], tok)
        && Scanned(src[start], Advanced(WsState(old(At()), src[old(cur)..start]), src[start]), old(errors), old(shouldCapitalize), start + 1, tok)
      ensures tok.kind != Illegal ==> tok == Current(tok.kind)
      ensures tok.kind == Illegal ==> shouldCapitalize == old(shouldCapitalize)
      ensures tok.kind != Illegal ==> (shouldCapitalize <==> tok.kind == Dot || tok.kind == Colon)
      ensures tok.kind == Illegal ==> tok.indent == 0 && tok.range == Range(Position(startLine, startColumn), Position(line, column))
    {
      ghost var c0, p0, e0, k0 := cur, At(), errors, shouldCapitalize;
      SkipWhitespace();
      tok := ScanToken(p0, c0, e0, k0);
    }

    /**
     * The part of `nextToken` after the whitespace: the end of the source,
     * or one token. c0, p0, e0 and k0 are the cursor, position, errors and
     * capitalization flag before the whitespace.
     */
    method ScanToken(ghost p0: Pos, ghost c0: nat, ghost e0: seq<ScanError>, ghost k0: bool) returns (tok: Token)
      requires Valid() && c0 <= cur && cur == RunEnd(src, c0, IsBlank) && At() == WsState(p0, src[c0..cur])
      requires errors == e0 && shouldCapitalize == k0
      modifies this`start, this`startLine, this`startColumn, this`cur, this`line, this`column, this`indent, this`shouldIndent, this`errors, this`shouldCapitalize
      ensures Valid()
      ensures start == old(cur) && startLine == old(line) && startColumn == old(column)
      ensures tok.kind == Eof <==> start == |src|
      ensures start == |src| ==>
        && cur == start && tok == Current(Eof)
        && At() == WsState(p0, src[c0..start]) && errors == e0
      ensures start < |src| ==>
        && start < cur && Fits(StartOf(src[start], aliasMode), src[start], tok)
        && Scanned(src[start], Advanced(WsState(p0, src[c0..start]), src[start]), e0, k0, start + 1, tok)
      ensures tok.kind != Illegal ==> tok == Current(tok.kind)
      ensures tok.kind == Illegal ==> shouldCapitalize == k0
      ensures tok.kind != Illegal ==> (shouldCapitalize <==> tok.kind == Dot || tok.kind == Colon)
      ensures tok.kind == Illegal ==> tok.indent == 0 && tok.range == Range(Position(startLine, startColumn), Position(line, column))
    {
      start, startLine, startColumn := cur, line, column;
      if AtEnd() {
        tok := NewToken(Eof);
        return;
      }
      tok := ScanNext(p0, c0, e0, k0);
    }

    /** The branch of `nextToken` that consumes the first rune of a token and dispatches on it. */
    method ScanNext(ghost p0: Pos, ghost c0: nat, ghost e0: seq<ScanError>, ghost k0: bool) returns (tok: Token)
      requires Valid() && c0 <= start == cur < |src| && At() == WsState(p0, src[c0..cur])
      requires errors == e0 && shouldCapitalize == k0
      modifies this`cur, this`line, this`column, this`indent, this`shouldIndent, this`errors, this`shouldCapitalize
      ensures Valid() && start == old(start) && old(cur) < cur
      ensures Fits(StartOf(src[old(cur)], aliasMode), src[old(cur)], tok) && tok.kind != Eof
      ensures tok.kind != Illegal ==> tok == Current(tok.kind)
      ensures tok.kind == Illegal ==> shouldCapitalize == old(shouldCapitalize)
      ensures tok.kind != Illegal ==> (shouldCapitalize <==> tok.kind == Dot || tok.kind == Colon)
      ensures Scanned(src[start], Advanced(WsState(p0, src[c0..start]), src[start]), e0, k0, start + 1, tok)
      ensures startLine == old(startLine) && startColumn == old(startColumn)
      ensures tok.kind == Illegal ==> tok.indent == 0 && tok.range == Range(Position(startLine, startColumn), Position(line, column))
    {
      var c := Advance();
      tok := ScanFrom(c);
      FitsNotEof(c, aliasMode, tok);
    }

    /** The dispatch of `nextToken` on the first rune c of a token, already consumed. */
    method ScanFrom(c: char) returns (tok: Token)
      requires Valid() && start < cur && start == cur - 1 && c == src[start]
      modifies this`cur, this`line, this`column, this`indent, this`shouldIndent, this`errors, this`shouldCapitalize
      ensures Valid() && start == old(start) && start < cur
      ensures Fits(StartOf(c, aliasMode), c, tok)
      ensures Scanned(c, old(At()), old(errors), old(shouldCapitalize), old(cur), tok)
      ensures StartOf(c, aliasMode).Punct? ==> cur == start + 1
      ensures tok.kind != Illegal ==> tok == Current(tok.kind)
      ensures tok.kind == Illegal ==> shouldCapitalize == old(shouldCapitalize)
      ensures tok.kind != Illegal ==> (shouldCapitalize <==> tok.kind == Dot || tok.kind == Colon)
      ensures startLine == old(startLine) && startColumn == old(startColumn)
      ensures tok.kind == Illegal ==> tok.indent == 0 && tok.range == Range(Position(startLine, startColumn), Position(line, column))
    {
      if IsAlpha(c as int) {
        tok := ScanIdentifier();
      } else if IsDigit(c as int) {
        tok := ScanNumber();
      } else {
        tok := ScanSymbol(c);
      }
    }

    /** The `switch` of `nextToken` on a first rune c that starts neither a name nor a number. */
    method ScanSymbol(c: char) returns (tok: Token)
      requires Valid() && start < cur && start == cur - 1 && c == src[start]
      requires !IsAlpha(c as int) && !IsDigitChar(c)
      modifies this`cur, this`line, this`column, this`indent, this`shouldIndent, this`errors, this`shouldCapitalize
      ensures Valid() && start == old(start) && start < cur
      ensures Fits(StartOf(c, aliasMode), c, tok)
      ensures Scanned(c, old(At()), old(errors), old(shouldCapitalize), old(cur), tok)
      ensures StartOf(c, aliasMode).Punct? ==> cur == start + 1
      ensures tok.kind != Illegal ==> tok == Current(tok.kind)
      ensures tok.kind == Illegal ==> shouldCapitalize == old(shouldCapitalize)
      ensures tok.kind != Illegal ==> (shouldCapitalize <==> tok.kind == Dot || tok.kind == Colon)
      ensures startLine == old(startLine) && startColumn == old(startColumn)
      ensures tok.kind == Illegal ==> tok.indent == 0 && tok.range == Range(Position(startLine, startColumn), Position(line, column))
    {
      match c
      case '-' => tok := NewToken(Negate);
      case '.' => tok := NewToken(Dot);
      case ',' => tok := NewToken(Comma);
      case ':' => tok := NewToken(Colon);
      case '(' => tok := NewToken(LParen);
      case ')' => tok := NewToken(RParen);
      case '"' => tok := ScanString();
      case '\'' => tok := ScanChar();
      case '[' => tok := ScanComment();
      case _ =>
        if c == '<' && aliasMode {
          tok := ScanAliasParameter();
        } else {
          tok := ErrorToken(UnexpectedChar(c));
        }
    }

    /** `ScanAll`: the tokens up to and including the first `Eof`. */
    method ScanAll() returns (tokens: seq<Token>)
      requires Valid()
      modifies this
      ensures Valid() && cur == |src|
      ensures |tokens| > 0 && tokens[|tokens| - 1].kind == Eof
      ensures forall i | 0 <= i < |tokens| - 1 :: tokens[i].kind != Eof
    {
      tokens := [];
      var tok := NextToken();
      while tok.kind != Eof
        invariant Valid()
        invariant forall i | 0 <= i < |tokens| :: tokens[i].kind != Eof
        invariant tok.kind == Eof ==> cur == |src|
        decreases |src| - cur, if tok.kind == Eof then 0 else 1
      {
        tokens := tokens + [tok];
        tok := NextToken();
      }
      tokens := tokens + [tok];
    }

    /** The loop of `aliasParameter`: advance to the closing `>`, reporting every rune that may not be in a name. */
    method AliasName()
      requires Valid()
      modifies this`cur, this`column, this`shouldIndent, this`errors
      ensures Valid() && cur == RunEnd(src, old(cur), NotClosing)
      ensures At() == MovedOver(old(At()), src, old(cur), cur)
      ensures errors == old(errors) + Repeat(InvalidParameterName, NonWord(src[old(cur)..cur]))
    {
      ghost var c0, p0, e0 := cur, At(), errors;
      while !AtEnd() && Peek() != '>' as int
        invariant Valid() && c0 <= cur <= |src|
        invariant RunEnd(src, cur, NotClosing) == RunEnd(src, c0, NotClosing)
        invariant At() == MovedOver(p0, src, c0, cur)
        invariant errors == e0 + Repeat(InvalidParameterName, NonWord(src[c0..cur]))
        decreases |src| - cur
      {
        AliasStep(p0, c0, e0);
      }
    }

    /** One turn of the loop of `aliasParameter`, on a rune that is not the closing `>`. */
    method AliasStep(ghost p0: Pos, ghost c0: nat, ghost e0: seq<ScanError>)
      requires Valid() && c0 <= cur < |src| && src[cur] != '>'
      requires RunEnd(src, cur, NotClosing) == RunEnd(src, c0, NotClosing)
      requires At() == MovedOver(p0, src, c0, cur)
      requires errors == e0 + Repeat(InvalidParameterName, NonWord(src[c0..cur]))
      modifies this`cur, this`column, this`shouldIndent, this`errors
      ensures Valid() && cur == old(cur) + 1
      ensures RunEnd(src, cur, NotClosing) == RunEnd(src, c0, NotClosing)
      ensures At() == MovedOver(p0, src, c0, cur)
      ensures errors == e0 + Repeat(InvalidParameterName, NonWord(src[c0..cur]))
    {
      ghost var q, e := At(), errors;
      var c := Advance();
      if !IsAlphaNumeric(c as int) {
        Err(InvalidParameterName);
      }
      AliasAt(p0, src, c0, cur - 1, q, At(), e0, e, errors);
    }
  }

  /** The state `skipWhitespace` keeps while it has consumed seg. */
  function WsState(p0: Pos, seg: string): Pos
  {
    Consumed(p0, seg).(indent := WsIndent(p0, seg))
  }

  /** Over blanks only, indentation is counted from the first newline on, or from the start if it was on. */
  lemma {:induction false} BlankShouldIndent(p0: Pos, seg: string)
    requires forall k | 0 <= k < |seg| :: IsBlank(seg[k])
    ensures Consumed(p0, seg).shouldIndent == (LineStart(seg) > 0 || p0.shouldIndent)
  {
    ConsumedClosed(p0, seg);
    var line := CurrentLine(seg);
    assert AllSpace(line) by {
      forall i | 0 <= i < |line| ensures IsSpace(line[i] as int) {
        assert line[i] == seg[LineStart(seg) + i];
      }
    }
    if LineStart(seg) == 0 {
      assert line == seg;
    }
  }

  /** The indentation counted over one more blank. */
  lemma {:induction false} WsIndentSnoc(p0: Pos, seg: string, c: char)
    requires forall k | 0 <= k < |seg| :: IsBlank(seg[k])
    ensures c == '\n' ==> WsIndent(p0, seg + [c]) == 0
    ensures c != '\n' ==>
      WsIndent(p0, seg + [c]) == WsIndent(p0, seg) +
        (if Consumed(p0, seg).shouldIndent && (c == '\t' || (c == ' ' && TrailingSpaces(CurrentLine(seg) + [c]) % 4 == 0))
         then 1 else 0)
  {
    CurrentLineSnoc(seg, c);
    LevelsSnoc(CurrentLine(seg), c);
    BlankShouldIndent(p0, seg);
    if LineStart(seg) == 0 {
      assert CurrentLine(seg) == seg;
      LevelsSnoc(seg, c);
    }
  }

  /** One space more for `skipWhitespace`: the counted state and the space count. */
  lemma {:induction false} WsSpace(p0: Pos, seg: string, count: int)
    requires forall k | 0 <= k < |seg| :: IsBlank(seg[k])
    requires WsState(p0, seg).shouldIndent ==> count == TrailingSpaces(CurrentLine(seg)) % 4
    ensures var p, q := WsState(p0, seg), WsState(p0, seg + [' ']);
      && q == Advanced(p.(indent := if p.shouldIndent && count + 1 == 4 then p.indent + 1 else p.indent), ' ')
      && (q.shouldIndent ==> (if p.shouldIndent && count + 1 == 4 then 0 else count + 1) == TrailingSpaces(CurrentLine(seg + [' '])) % 4)
  {
    var c := ' ';
    ConsumedSnoc(p0, seg, c);
    WsIndentSnoc(p0, seg, c);
    CurrentLineSnoc(seg, c);
    LevelsSnoc(CurrentLine(seg), c);
    var P := Consumed(p0, seg);
    var t := TrailingSpaces(CurrentLine(seg));
    assert Consumed(p0, seg + [c]) == Advanced(P, c);
    assert TrailingSpaces(CurrentLine(seg) + [c]) == t + 1;
    ModFourStep(t);
    var inc := if P.shouldIndent && count + 1 == 4 then 1 else 0;
    assert WsIndent(p0, seg + [c]) == WsIndent(p0, seg) + inc;
  }

  /** One tab, carriage return or newline more for `skipWhitespace`; the space count restarts. */
  lemma {:induction false} WsOther(p0: Pos, seg: string, c: char)
    requires forall k | 0 <= k < |seg| :: IsBlank(seg[k])
    requires c == '\t' || c == '\r' || c == '\n'
    ensures var p, q := WsState(p0, seg), WsState(p0, seg + [c]);
      && (c == '\t' ==> q == Advanced(p.(indent := if p.shouldIndent then p.indent + 1 else p.indent), c))
      && (c == '\r' ==> q == Advanced(p, c))
      && (c == '\n' ==> q == Advanced(NewLine(p), c))
      && (q.shouldIndent ==> TrailingSpaces(CurrentLine(seg + [c])) % 4 == 0)
  {
    ConsumedSnoc(p0, seg, c);
    WsIndentSnoc(p0, seg, c);
    CurrentLineSnoc(seg, c);
    LevelsSnoc(CurrentLine(seg), c);
  }

  /** A run of spaces counted modulo four: the fourth one wraps to 0. */
  lemma {:induction false} ModFourStep(t: nat)
    ensures (t + 1) % 4 == if t % 4 == 3 then 0 else t % 4 + 1
  {
  }

  /** The blanks from c0 to i, as a segment of blanks. */
  lemma {:induction false} BlankSegment(src: string, c0: nat, i: nat)
    requires c0 <= i < |src| && forall k | c0 <= k < i :: IsBlank(src[k])
    ensures src[c0..i + 1] == src[c0..i] + [src[i]]
    ensures forall k | 0 <= k < |src[c0..i]| :: IsBlank(src[c0..i][k])
  {
    var seg := src[c0..i];
    forall k | 0 <= k < |seg| ensures IsBlank(seg[k]) {
      assert seg[k] == src[c0 + k];
    }
  }

  /**
   * `skipWhitespace` on a space at offset i, for a run of blanks that
   * started at c0: from the counted state p and space count `count`, the
   * scanner reaches q with count `next`.
   */
  lemma {:induction false} WsSpaceAt(p0: Pos, src: string, c0: nat, i: nat, p: Pos, count: int, q: Pos, next: int)
    requires c0 <= i < |src| && forall k | c0 <= k < i :: IsBlank(src[k])
    requires src[i] == ' ' && Counted(p0, src[c0..i], p, count)
    requires q == Advanced(p.(indent := if p.shouldIndent && count + 1 == 4 then p.indent + 1 else p.indent), ' ')
    requires next == if p.shouldIndent && count + 1 == 4 then 0 else count + 1
    ensures Counted(p0, src[c0..i + 1], q, next)
  {
    BlankSegment(src, c0, i);
    WsSpace(p0, src[c0..i], count);
  }

  /** `skipWhitespace` on a tab, a carriage return or a newline at offset i. */
  lemma {:induction false} WsOtherAt(p0: Pos, src: string, c0: nat, i: nat, p: Pos, q: Pos, next: int)
    requires c0 <= i < |src| && forall k | c0 <= k < i :: IsBlank(src[k])
    requires src[i] == '\t' || src[i] == '\r' || src[i] == '\n'
    requires p == WsState(p0, src[c0..i])
    requires src[i] == '\t' ==> q == Advanced(p.(indent := if p.shouldIndent then p.indent + 1 else p.indent), '\t')
    requires src[i] == '\r' ==> q == Advanced(p, '\r')
    requires src[i] == '\n' ==> q == Advanced(NewLine(p), '\n')
    requires next == 0
    ensures Counted(p0, src[c0..i + 1], q, next)
  {
    BlankSegment(src, c0, i);
    WsOther(p0, src[c0..i], src[i]);
  }

  /**
   * What `skipWhitespace` keeps while it has consumed seg: the counted
   * state, and while indentation is counted, the spaces since the last
   * completed level.
   */
  ghost predicate Counted(p0: Pos, seg: string, p: Pos, count: int)
  {
    p == WsState(p0, seg) && (p.shouldIndent ==> count == TrailingSpaces(CurrentLine(seg)) % 4)
  }

  /** The end of a run found part-way is the end of the whole run. */
  lemma {:induction false} RunEndFrom(src: string, i: nat, j: nat, p: char -> bool)
    requires i <= j <= |src| && forall k | i <= k < j :: p(src[k])
    ensures RunEnd(src, i, p) == RunEnd(src, j, p)
    decreases j - i
  {
    if i < j {
      RunEndFrom(src, i + 1, j, p);
    }
  }

  predicate NotClosing(c: char) { c != '>' }

  /** One more rune for the bad-rune count of an alias parameter. */
  lemma {:induction false} NonWordAt(src: string, c0: nat, i: nat)
    requires c0 <= i < |src|
    ensures NonWord(src[c0..i + 1]) == NonWord(src[c0..i]) + (if IsWordChar(src[i]) then 0 else 1)
  {
    assert src[c0..i + 1] == src[c0..i] + [src[i]];
    assert (src[c0..i] + [src[i]])[..|src[c0..i]|] == src[c0..i] && (src[c0..i] + [src[i]])[|src[c0..i]|] == src[i];
  }

  /** One turn of the quoted-literal loop, from i to n, in terms of `QuotedEnd` and `QuotedErrors`. */
  lemma {:induction false} QuotedAt(src: string, c0: nat, i: nat, m: nat, quote: char, e0: seq<ScanError>, e1: seq<ScanError>,
                 e2: seq<ScanError>, seen: bool, got: bool)
    requires c0 <= i <= m < |src| && src[i] != quote
    requires m == i || (m == i + 1 && src[i] == '\\' && IsEscape(src[m] as int, quote))
    requires m == i && src[i] == '\\' ==>
      && !(i + 1 < |src| && IsEscape(src[i + 1] as int, quote))
      && e2 == e1 + [UnknownEscape(if i + 1 < |src| then src[i + 1] as int else EOF)]
    requires !(m == i && src[i] == '\\') ==> e2 == e1
    requires QuotedEnd(src, i, quote) == QuotedEnd(src, c0, quote)
    requires e0 + QuotedErrors(src, c0, quote) == e1 + QuotedErrors(src, i, quote)
    requires seen <==> '\\' in src[c0..i]
    requires got <==> seen || src[i] == '\\'
    ensures QuotedEnd(src, m + 1, quote) == QuotedEnd(src, c0, quote)
    ensures e0 + QuotedErrors(src, c0, quote) == e2 + QuotedErrors(src, m + 1, quote)
    ensures got <==> '\\' in src[c0..m + 1]
  {
    assert src[c0..i + 1] == src[c0..i] + [src[i]];
    if m == i + 1 {
      assert src[c0..m + 1] == src[c0..i + 1] + [src[m]];
    }
  }

  /** The position after one turn of the loop of `ScanQuoted`. */
  lemma {:induction false} QuotedPosAt(p0: Pos, src: string, c0: nat, i: nat, m: nat, p: Pos, q: Pos, r: Pos)
    requires c0 <= i <= m < |src|
    requires m == i || (m == i + 1 && src[i] == '\\' && src[m] != '\n')
    requires p == ConsumedOver(p0, src, c0, i)
    requires m == i ==> q == (if src[i] == '\n' then NewLine(p) else p)
    requires m == i + 1 ==> q == Advanced(p, '\\')
    requires r == Advanced(q, src[m])
    ensures r == ConsumedOver(p0, src, c0, m + 1)
  {
    if m == i + 1 {
      assert ConsumedOver(p0, src, c0, i + 1) == q;
    }
  }

  /** One turn of the loop of `aliasParameter`, on the rune at i. */
  lemma {:induction false} AliasAt(p0: Pos, src: string, c0: nat, i: nat, p: Pos, q: Pos,
                e0: seq<ScanError>, e: seq<ScanError>, e2: seq<ScanError>)
    requires c0 <= i < |src| && NotClosing(src[i])
    requires p == MovedOver(p0, src, c0, i) && q == Advanced(p, src[i])
    requires e == e0 + Repeat(InvalidParameterName, NonWord(src[c0..i]))
    requires e2 == e + (if IsWordChar(src[i]) then [] else [InvalidParameterName])
    ensures q == MovedOver(p0, src, c0, i + 1)
    ensures e2 == e0 + Repeat(InvalidParameterName, NonWord(src[c0..i + 1]))
    ensures RunEnd(src, i, NotClosing) == RunEnd(src, i + 1, NotClosing)
  {
    NonWordAt(src, c0, i);
    assert Repeat(InvalidParameterName, NonWord(src[c0..i]) + 1) == Repeat(InvalidParameterName, NonWord(src[c0..i])) + [InvalidParameterName];
  }
}
