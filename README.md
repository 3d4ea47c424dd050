# DDP runtime, standard library and front end: a Dafny model

This project models five core parts of DDP ("Die Deutsche Programmiersprache"), a German-language programming language, and proves properties of them.

- **The reference-count pool** of the runtime (`RefCount`, `Bitmap`). Reference counts are handed out from blocks of 64 cells. Each block has a 64-bit `used` bitmap, and the blocks form a doubly linked chain that starts at `refc_root`.
  - The pool is the class `RefCount.RefcPool`. The general allocator's memory is a map from block addresses to block records; a cell is the pair (block, slot).
  - Its invariant `Wf`, kept by every operation, states three things:
    - a ghost chain lists every allocated block exactly once, in link order;
    - the `prev`/`next` links agree with that chain;
    - `refc_root` is the first block.
  - `NoEmptyBlock` states that no linked block is all-clear. `Issued()` is the set of cells whose bit is set.
- **Byte collections** (`ByteSammlung`, module `Bytes`): slicing, concatenation and the conversions between a `ddpint` and its 8 bytes.
  - A collection is a value: its word array is kept as little-endian bytes, together with `len`.
  - A read past the end of the array, which C leaves undefined, is the error `Overread`.
- **The runtime's string operators** on `ddpstring` (module `Operators`, class `Operators.DdpString`): 1-based indexing by UTF-8 character, in-place replacement, slicing, the three concatenations and equality.
  - A string is a byte buffer `str` together with `cap`, the number of bytes it occupies including its NUL terminator.
  - `WellFormed(str, cap)` says the buffer is exactly `cap` bytes: a UTF-8 text followed by one NUL.
  - The loops that walk the buffer character by character are `Operators.Walk`, proved against `Utf8.Offset`, the byte offset of character k.
- **The lexer** (`Scanner.Scanner`): a cursor over the runes of a source text. It tracks line, column, indentation and the capitalization flag, and cuts the text into tokens.
  - Each scanning loop is a method whose contract is a function on the source text:
    - `RunEnd` for runs of digits, letters or blanks;
    - `CommentFrom` for nested comments;
    - `QuotedEnd` and `QuotedErrors` for string and character literals;
    - `WsIndent` and `Levels` for indentation;
    - `Consumed` and `Moved` for the position.
- **The typechecker's operator rules** (`Typechecker`).
  - The typing table is a set of pure functions (`UnaryRule`, `BinaryRule`, `TernaryRule`, `IndexingRule`, `Check`). The visit methods of class `Typechecker.Typechecker` are proved to follow them.
  - `TypecheckAst` is proved to mark the AST faulty exactly when a statement erred.

Where the code and its evident intent differ, the model keeps both. A member models the code as written, a corrected member models the evident intent, and a lemma shows an input on which they differ (see "## Findings").

`pkg/token/token.go` gives a token a `Line` and a `Column`, but `scanner.go` builds tokens with a `Range` (start and end positions). The model follows the scanner.

## Model

| member | source | states |
|---|---|---|
| Bitmap.SetBit | lib/runtime/source/DDP/ddprefcount.c:83 | `used \|= 1ULL << i` sets bit i and leaves every other bit as it was |
| Bitmap.ClearBit | lib/runtime/source/DDP/ddprefcount.c:91 | `used &= ~(1ULL << i)` clears bit i and leaves every other bit as it was |
| Bitmap.Complement | lib/runtime/source/DDP/ddprefcount.c:82 | `~used` flips every bit |
| Bitmap.Ffsll | lib/runtime/source/DDP/ddprefcount.c:82 | `ffsll(x)` is 0 exactly for the zero word, and otherwise one plus the index of the lowest set bit |
| Bitmap.FirstZero | lib/runtime/source/DDP/ddprefcount.c:80-83 | on a word other than `ALL_USED`, `ffsll(~used) - 1` is a valid bit index whose bit is clear, and every bit below it is set |
| Bitmap.FreeIffNoBits | lib/runtime/source/DDP/ddprefcount.c:24 | a word equals `ALL_FREE` exactly when no bit is set |
| Bitmap.UsedIffAllBits | lib/runtime/source/DDP/ddprefcount.c:25 | a word equals `ALL_USED` exactly when every bit is set |
| Bitmap.ComplementInvolutive | lib/runtime/source/DDP/ddprefcount.c:82 | complementing twice gives the word back |
| Bitmap.PrefixGrows | lib/runtime/source/DDP/ddprefcount.c:80-86 | when bits 0..n-1 are set, the next allocation takes bit n, and afterwards bits 0..n are set |
| Bitmap.PrefixFull | lib/runtime/source/DDP/ddprefcount.c:24-25 | all 64 low bits set is `ALL_USED`; none set is `ALL_FREE` |
| RefCount.RefcPool.constructor | lib/runtime/source/DDP/ddprefcount.c:27 | the pool starts with no root, no blocks and no cells handed out; the invariant holds |
| RefCount.RefcPool.NewRefcBlock | lib/runtime/source/DDP/ddprefcount.c:29-42 | the new block is at a fresh address, has link `prev` and no `next`, an all-clear bitmap and 64 zero counts, and becomes `prev->next`; the root and chain are unchanged |
| RefCount.RefcPool.NextBlockWithCapa | lib/runtime/source/DDP/ddprefcount.c:45-59 | the result always has room. It is the first non-full block from the root; when every block is full, it is a fresh block appended after the last (made the root of an empty chain). State is otherwise unchanged, and the invariant and the handed-out set are kept |
| RefCount.RefcInBlock | lib/runtime/source/DDP/ddprefcount.c:61-67 | `refc_in_block`: the cell lies in block b, at one of its slots 0..63 (no contract of its own; `GetBlockOfRefc` is proved against it) |
| RefCount.RefcPool.GetBlockOfRefc | lib/runtime/source/DDP/ddprefcount.c:61-76 | the chain walk finds the cell's block exactly when that block is allocated and the slot lies in the inclusive range 0..63; otherwise it returns nothing |
| RefCount.RefcPool.AllocateRefc | lib/runtime/source/DDP/ddprefcount.c:80-86 | on a non-full block, it sets exactly the lowest clear bit, changes no other bit or block, and returns that cell |
| RefCount.RefcPool.FreeRefc | lib/runtime/source/DDP/ddprefcount.c:88-110 | exactly bit `slot` is cleared. If that leaves the block all-clear, the block is unlinked: the root advances when it was the root, the neighbours' links are repaired, the block is freed and the chain loses it. Otherwise only the bitmap changes. The cell leaves the handed-out set; the invariant holds and the chain has no all-clear block |
| RefCount.RefcPool.RetireBlock | lib/runtime/source/DDP/ddprefcount.c:94-109 | an all-clear block is removed from the chain and the heap, the root moving on when it was the root; the invariant and the handed-out set are kept |
| RefCount.RefcPool.AllocateRefcount | lib/runtime/source/DDP/ddprefcount.c:113-119 | the returned cell was free and is now handed out, and nothing else is. It lies in the first non-full block from the root, at its lowest clear bit; or, when every block is full, it is cell 0 of a fresh block appended to the chain |
| RefCount.RefcPool.FreeRefcount | lib/runtime/source/DDP/ddprefcount.c:122-130 | an address in no linked block's range gives runtime error 1 and changes nothing. Otherwise the cell's bit is cleared. When the bitmap becomes all-clear, the block is unlinked from the chain and freed, and `refc_root` moves to its successor if it was the root. Otherwise only that bitmap changes, and root and chain stay |
| RefCount.RefcPool.AllocateMany | lib/runtime/source/DDP/ddprefcount.c:113-119 | successive allocations without frees hand out pairwise distinct, previously free cells, and exactly these are added to the handed-out set |
| RefCount.RefcPool.FillFirstBlock | lib/runtime/source/DDP/ddprefcount.c:45-59 | from an empty pool, 64 allocations take cells 0..63 of one block, in order, and that block is then `ALL_USED` |
| RefCount.RefcPool.FreeRefcBlocks | lib/runtime/source/DDP/ddprefcount.c:133-140 | walks the chain forward from `refc_root` and frees every block on it, so no block stays allocated; `refc_root` is not reset, keeps its old value and so names freed memory |
| RefCount.FirstNonFull | lib/runtime/source/DDP/ddprefcount.c:51-58 | the index of the first block from k on whose bitmap is not `ALL_USED`; every block before it is full |
| RefCount.AppendKeepsWf | lib/runtime/source/DDP/ddprefcount.c:29-42 | linking a fresh block after the last (or as the root) keeps the chain invariant |
| RefCount.SetUsedKeepsWf | lib/runtime/source/DDP/ddprefcount.c:83 | changing a block's bitmap keeps the chain invariant |
| RefCount.UnlinkLinks | lib/runtime/source/DDP/ddprefcount.c:100-105 | after the neighbour links are repaired, the chain without block k is linked from end to end |
| RefCount.UnlinkKeepsWf | lib/runtime/source/DDP/ddprefcount.c:94-109 | unlinking and freeing block k keeps the invariant, with the root moving to `next` when k was the root |
| RefCount.WithoutDistinct | lib/runtime/source/DDP/ddprefcount.c:100-108 | the chain without block k still lists each block once, and lists exactly the other blocks |
| RefCount.UnlinkAt | lib/runtime/source/DDP/ddprefcount.c:100-108 | after the unlink, the predecessor's `next` and the successor's `prev` skip the freed block, and every other block is unchanged |
| RefCount.IssuedSetBit | lib/runtime/source/DDP/ddprefcount.c:83 | setting bit i of block b adds exactly cell (b, i) to the handed-out set |
| RefCount.IssuedClearBit | lib/runtime/source/DDP/ddprefcount.c:91 | clearing bit i of block b removes exactly cell (b, i) from the handed-out set |
| RefCount.IssuedAttach | lib/runtime/source/DDP/ddprefcount.c:39 | a new all-clear block adds no handed-out cell |
| RefCount.IssuedUnlink | lib/runtime/source/DDP/ddprefcount.c:94-108 | retiring an all-clear block removes no handed-out cell |
| RefCount.SetBitNoEmpty | lib/runtime/source/DDP/ddprefcount.c:83 | a block with a bit just set is not all-clear |
| RefCount.ClearBitNoEmpty | lib/runtime/source/DDP/ddprefcount.c:91-94 | a block left with a bit set after a free stays non-empty |
| RefCount.UnlinkNoEmpty | lib/runtime/source/DDP/ddprefcount.c:94-109 | after the all-clear block is retired, no linked block is all-clear |
| Ints.Clamp | lib/stdlib/source/DDP/bytes.c:22-25 | `clamp(i, min, max)` lies in [min, max] when that range is non-empty, is i when i is inside it, min below and max above; with an empty range it is max |
| Bytes.Up8 | lib/stdlib/source/DDP/bytes.c:8 | `UP_8(n)` is the least multiple of 8 that is at least n |
| Bytes.Ones | lib/stdlib/source/DDP/bytes.c:10 | `ONES(n)` is 2^n - 1 |
| Bytes.AndOnes | lib/stdlib/source/DDP/bytes.c:85 | masking with 2^n - 1 keeps the value modulo 2^n |
| Bytes.Unsigned | lib/stdlib/source/DDP/bytes.c:82 | the two's-complement bit pattern of a `ddpint` is a number below 2^64 that is congruent to it |
| Bytes.Signed | lib/stdlib/source/DDP/bytes.c:82 | reading a 64-bit pattern back as a `ddpint` inverts `Unsigned` |
| Bytes.SignedUnsigned | lib/stdlib/source/DDP/bytes.c:77-82 | a `ddpint` survives being stored as its bit pattern |
| Bytes.ValLE | lib/stdlib/source/DDP/bytes.c:77 | the n little-endian bytes of a number below 2^(8n) give the number back |
| Bytes.ValPrefix | lib/stdlib/source/DDP/bytes.c:85 | the value of the first k bytes is the whole value modulo 2^(8k) |
| Bytes.AllocateBytes | lib/stdlib/source/DDP/bytes.c:27-35 | sets `len = n` and allocates `UP_8(n)` bytes, a multiple of 8 that is at least n and less than n + 8; returns that count |
| Bytes.VonBis | lib/stdlib/source/DDP/bytes.c:37-60 | an empty collection gives the empty collection; otherwise both 1-based bounds become 0-based and are clamped to [0, len]. Reversed bounds are runtime error 1. Otherwise the result holds `end - start + 1` bytes copied from `start`, zero padded to a multiple of 8, and is an `Overread` exactly when the copy passes the array's end |
| Bytes.VonBisIntended | lib/stdlib/source/DDP/bytes.c:37-60 | with both bounds clamped to [0, len - 1], the slice holds exactly bytes start..end of the content, and bounds 1 <= start <= end <= len give bytes start..end |
| Bytes.Verkettet | lib/stdlib/source/DDP/bytes.c:62-72 | the result has `a.len + b.len` bytes and zero padding; its first `a.len` bytes are a's, and the next `b.len` are copied from a's array, not b's; an `Overread` exactly when either length exceeds a's array |
| Bytes.VerkettetIntended | lib/stdlib/source/DDP/bytes.c:62-72 | the content is a's content followed by b's, padded to a multiple of 8 |
| Bytes.VerkettetAssociative | lib/stdlib/source/DDP/bytes.c:62-72 | the corrected concatenation is associative |
| Bytes.ZahlAlsByteSammlung | lib/stdlib/source/DDP/bytes.c:74-78 | one word holding the bit pattern of z, with `len` 8 |
| Bytes.AlsZahl | lib/stdlib/source/DDP/bytes.c:80-86 | with `len >= 8`, the first word; otherwise the number made of its first `len` bytes. Reading a collection with no word is an `Overread` |
| Bytes.AlsZahlMask | lib/stdlib/source/DDP/bytes.c:85 | masking the first word with `ONES(len*8)` gives the value of its first `len` bytes, which is below 2^63 |
| Bytes.AlsZahlIntended | lib/stdlib/source/DDP/bytes.c:80-86 | like `AlsZahl`, but an empty collection gives 0 |
| Bytes.ZahlRoundTrip | lib/stdlib/source/DDP/bytes.c:74-86 | converting a number to a collection and back gives the number |
| Utf8.Width | lib/runtime/source/operators.c:23 | `utf8_num_bytes` / `utf8_indicated_num_bytes`: the width of a lead byte is 1..4, and 1 for ASCII |
| Utf8.Strlen | lib/runtime/source/operators.c:83 | `utf8_strlen`: the number of characters, at most the number of bytes |
| Utf8.Chars | lib/runtime/source/operators.c:21-25 | a text splits into whole encoded characters |
| Utf8.TextNoNul | lib/runtime/source/operators.c:22 | a text holds no NUL, so the walks stop only at the terminator |
| Utf8.FlattenChars | lib/runtime/source/operators.c:21-25 | joining the characters of a text gives the text back |
| Utf8.CharsFlatten | lib/runtime/source/operators.c:21-25 | joining encoded characters gives a text that splits back into them |
| Utf8.TextConcat | lib/runtime/source/operators.c:116-125 | concatenated texts are a text whose characters are those of both |
| Utf8.ConsChar | lib/runtime/source/operators.c:127-143 | a character in front of a text gives a text one character longer |
| Utf8.Offset | lib/runtime/source/operators.c:21-25 | the byte offset of character k lies within the text |
| Utf8.OffsetStep | lib/runtime/source/operators.c:22-24 | character k starts at `Offset(k)`; adding its lead byte's width gives `Offset(k + 1)`, and the bytes between are that character |
| Utf8.OffsetEnd | lib/runtime/source/operators.c:22 | the offset reaches the terminator exactly after the last character |
| Utf8.OffsetMonotone | lib/runtime/source/operators.c:92-102 | later characters start at later offsets |
| Utf8.SubChars | lib/runtime/source/operators.c:92-106 | the bytes between the offsets of characters a and b are a text holding characters a..b-1 |
| Utf8.DropChars | lib/runtime/source/operators.c:62-64 | what follows the first k characters is a text of the remaining characters |
| Utf8.TakeChars | lib/runtime/source/operators.c:62 | the bytes before character k are a text of the first k characters |
| Utf8.SpliceChars | lib/runtime/source/operators.c:53-68 | putting a character in place of character k gives a text with exactly that character changed |
| Utf8.Encode | lib/runtime/source/operators.c:51 | `utf8_char_to_string`: code points 1..0x10FFFF encode in 1..4 bytes as one character, 0 as the single byte 0, and every other value is an error (-1) |
| Utf8.DecodeEncode | lib/runtime/source/operators.c:31 | `utf8_string_to_char` inverts the encoding |
| Utf8.Decode | lib/runtime/source/operators.c:31 | `utf8_string_to_char`: the code point of one encoded character, from its lead and continuation bytes (no contract of its own; `DecodeEncode` states that it inverts `Encode`) |
| Operators.DdpString.Content | lib/runtime/source/operators.c:116-121 | the string's text, `cap - 1` bytes without the terminator |
| Operators.DdpString.StringIndex | lib/runtime/source/operators.c:16-32 | an error exactly when the index is not in 1..length (the checks against `cap` and the walk reaching the terminator); otherwise the code point of that character |
| Operators.LocateChar | lib/runtime/source/operators.c:34-46 | character `index` is found exactly when 1 <= index <= length, at its byte offset, with the whole character before the terminator |
| Operators.Walk | lib/runtime/source/operators.c:21-25 | stepping by lead-byte widths from character k0 stops at character `target` or at the terminator, at that character's offset; the byte there is NUL exactly at the end |
| Operators.DdpString.ReplaceChar | lib/runtime/source/operators.c:34-69 | out-of-range indices are an error and change nothing; an invalid character's width -1 makes the copy length wrap (an error that changes nothing); otherwise the buffer and cap become `Replaced` |
| Operators.ReplaceCharIn | lib/runtime/source/operators.c:34-69 | the same, on the buffer and cap as values |
| Operators.ReplaceBytes | lib/runtime/source/operators.c:53-68 | equal widths overwrite in place; a narrower character moves the tail left and keeps cap; a wider one builds a buffer of `cap - old + new` bytes holding the prefix, the new character and the tail |
| Operators.ReplacedAt | lib/runtime/source/operators.c:49-68 | the bytes `ReplaceBytes` leaves at character k are those of `Replaced` |
| Operators.ReplacedWider | lib/runtime/source/operators.c:53-68 | an equal or wider replacement leaves a well-formed string with exactly character k changed |
| Operators.ReplacedNarrower | lib/runtime/source/operators.c:56-58 | after a narrower replacement C still reads the new text, but cap is unchanged and the buffer is no longer well formed |
| Operators.DdpString.ReplaceCharIntended | lib/runtime/source/operators.c:34-69 | like `ReplaceChar`, with cap set to the new length in every case |
| Operators.ReplacedIntendedText | lib/runtime/source/operators.c:34-69 | the corrected replacement always leaves a well-formed string with exactly character k changed |
| Operators.DdpString.Slice | lib/runtime/source/operators.c:76-114 | an empty string stays as it is. Both indices are clamped to 1..length, and reversed bounds are an error that changes nothing. Otherwise the new buffer holds the bytes from character index1 up to and including the lead byte of character index2, then NUL, with cap `(i2 - i1) + 2` |
| Operators.SliceIn | lib/runtime/source/operators.c:79-112 | the same, on the buffer and cap as values |
| Operators.CutBytes | lib/runtime/source/operators.c:90-106 | the two walks and the copy give `SliceBytes`, with cap one more than its length |
| Operators.SliceSteps | lib/runtime/source/operators.c:92-106 | the copied range runs from the offset of character a to the lead byte of character b |
| Operators.SliceBytesText | lib/runtime/source/operators.c:104-106 | the as-written slice is a text exactly when its last character is one byte wide, and then it is the intended slice |
| Operators.DdpString.SliceIntended | lib/runtime/source/operators.c:76-114 | like `Slice`, but the result is a well-formed string holding exactly characters index1..index2 |
| Operators.CutChars | lib/runtime/source/operators.c:90-106 | the corrected copy range gives characters a..b, a text |
| Operators.SliceCharsText | lib/runtime/source/operators.c:90-106 | characters a..b of a text, joined, are a text of exactly those characters |
| Operators.DdpString.StringStringVerkettet | lib/runtime/source/operators.c:116-125 | the buffer is str1 without its terminator followed by cap2 bytes of str2, and cap is `cap1 - 1 + cap2`; for well-formed strings the text is text1 followed by text2 |
| Operators.JoinedText | lib/runtime/source/operators.c:116-125 | joining two well-formed strings gives a well-formed string whose characters are those of both |
| Operators.DdpString.CharStringVerkettet | lib/runtime/source/operators.c:127-143 | c's encoding goes in front and cap grows by its width; an invalid c adds nothing; the text gains c as its first character |
| Operators.PrependedText | lib/runtime/source/operators.c:127-143 | a character in front of a well-formed string gives a well-formed string one character longer |
| Operators.DdpString.StringCharVerkettet | lib/runtime/source/operators.c:145-160 | the encoding is appended and a new NUL written, but cap keeps its old value: C reads the longer text, and the string is not well formed for any valid c |
| Operators.DdpString.StringCharVerkettetIntended | lib/runtime/source/operators.c:145-160 | the encoding is appended and cap grows by its width; the text gains c as its last character |
| Operators.StringEqual | lib/runtime/source/operators.c:246-250 | the same object, or equal `strlen` and equal bytes over cap; for well-formed strings this is exactly equality of the texts |
| Operators.CString | lib/runtime/source/operators.c:248 | what `strlen` and printing see: the bytes before the first NUL |
| Operators.CStringOfText | lib/runtime/source/operators.c:248 | C reads a text followed by NUL as that text, whatever follows |
| Scanner.IsDigit | pkg/scanner/scanner.go:504-506 | a digit is never `eof` (-1) and never a letter |
| Scanner.IsAlpha | pkg/scanner/scanner.go:508-514 | every capital is a letter, and a letter is never `eof` and never a blank |
| Scanner.IsAlphaNumeric | pkg/scanner/scanner.go:516-518 | a letter or digit is never `eof` and never a blank |
| Scanner.IsSpace | pkg/scanner/scanner.go:520-522 | true exactly for space, carriage return, newline and tab |
| Scanner.IsUpper | pkg/scanner/scanner.go:524-527 | a capital is never `eof` and lies at or above `A` |
| Scanner.Scanner.AtEnd | pkg/scanner/scanner.go:407-409 | true exactly when the cursor is at the end of the source, and otherwise the cursor is inside it |
| Tokens.KeywordType | pkg/scanner/scanner.go:337-339 | `KeywordToTokenType`: the table's token type for a spelling it holds, `IDENTIFIER` for any other |
| Scanner.LowerChar | pkg/scanner/scanner.go:339 | `strings.ToLower` on one rune: an ASCII capital becomes its lower-case letter (code + 32), `Ä`, `Ö`, `Ü` become `ä`, `ö`, `ü`, and a rune that is not a capital stays |
| Scanner.ToLower | pkg/scanner/scanner.go:339 | `strings.ToLower` works rune by rune |
| Scanner.Scanner.constructor | pkg/scanner/scanner.go:47-97 | a new scanner starts at the first rune, at line 1 and column 1, with indentation 0, counting indentation, expecting a capital, with no errors |
| Scanner.Scanner.Peek | pkg/scanner/scanner.go:463-468 | the rune at the cursor, or `eof` (-1) at the end |
| Scanner.Scanner.PeekNext | pkg/scanner/scanner.go:470-475 | the rune after the cursor, or `eof` (-1) when there is none |
| Scanner.Scanner.Advance | pkg/scanner/scanner.go:454-461 | returns the rune at the cursor; the cursor and column move on by one, and indentation counting ends at the first rune that is not a space (`Advanced`) |
| Scanner.Scanner.IncreaseLineBeforeAdvance | pkg/scanner/scanner.go:485-490 | line + 1, indentation 0, column 0 and indentation counting on |
| Scanner.Scanner.Err | pkg/scanner/scanner.go:477-483 | the error is appended to the reported errors |
| Scanner.Scanner.NewToken | pkg/scanner/scanner.go:411-426 | the literal is `src[start:cur]`, with the current indentation and range; `shouldCapitalize` becomes true exactly for `.` and `:` |
| Scanner.Scanner.ErrorToken | pkg/scanner/scanner.go:428-437 | reports the error and returns an `ILLEGAL` token whose literal is the message |
| Scanner.Scanner.SkipWhitespace | pkg/scanner/scanner.go:374-405 | stops at the first rune that is not a space, tab, carriage return or newline, and leaves the position `WsState` gives: a line per newline, one level per tab and per four consecutive spaces while indentation is counted |
| Scanner.Scanner.SkipBlank | pkg/scanner/scanner.go:376-403 | one turn of the loop on the blank at the cursor: the cursor moves by one, and the position is `WsState` of the blanks so far, with the count of spaces since the last level kept modulo four (`Counted`) |
| Scanner.Scanner.SkipSpace | pkg/scanner/scanner.go:385-390 | the space case: the same `Counted` state one space further, the level growing on the fourth consecutive space while indentation is counted |
| Scanner.Scanner.SkipOther | pkg/scanner/scanner.go:391-400 | the tab, carriage-return and newline cases: the same `Counted` state one rune further, with the space count back at 0 |
| Scanner.LevelsSpaces | pkg/scanner/scanner.go:385-389 | a run of n spaces at the start of a line is n / 4 levels |
| Scanner.LevelsRun | pkg/scanner/scanner.go:385-397 | a tab adds one level, a carriage return none, and n spaces after another rune add n / 4 |
| Scanner.BlankShouldIndent | pkg/scanner/scanner.go:399-400 | over blanks, indentation is counted after any newline, or from the start if it was counted there |
| Scanner.WsSpace | pkg/scanner/scanner.go:378-390 | one more space advances the position, and is the fourth of a run exactly when the level count grows |
| Scanner.WsOther | pkg/scanner/scanner.go:391-400 | a tab counts one level when indenting, a carriage return only advances, a newline starts a new line; the space count restarts |
| Scanner.ConsumedClosed | pkg/scanner/scanner.go:454-461 | consuming a segment adds one line per newline. Without a newline, the column grows by the segment's length; otherwise the column counts from the last newline, the indentation is 0, and counting is on while that line holds only spaces |
| Scanner.MovedClosed | pkg/scanner/scanner.go:454-461 | advancing over a segment moves the column by its length and changes neither the line nor the indentation |
| Scanner.RunEnd | pkg/scanner/scanner.go:246-248 | the end of the longest run of runes satisfying p from i: the rune there does not satisfy p |
| Scanner.RunEndAll | pkg/scanner/scanner.go:246-248 | every rune of the run satisfies p |
| Scanner.Scanner.AdvanceWhile | pkg/scanner/scanner.go:284-286 | the loop advances exactly to the end of the run, moving the column across it |
| Scanner.Scanner.ScanNumber | pkg/scanner/scanner.go:244-259 | an `INT` over the digit run; a `FLOAT` only when a comma and a digit follow, and then its digits after the comma are included; a comma with no digit after it is not consumed |
| Scanner.Scanner.ScanFraction | pkg/scanner/scanner.go:250-256 | at a comma followed by a digit, consumes the comma and the digit run after it, moving the column across both |
| Scanner.Scanner.ScanComment | pkg/scanner/scanner.go:157-171 | the comment ends just after the bracket that brings the nesting depth to 0, or at the end of the source; a line is counted for each newline inside |
| Scanner.CommentFromDepth | pkg/scanner/scanner.go:158-170 | inside the comment the depth stays positive, and it is 0 at its end unless the source ended |
| Scanner.Scanner.ScanEscape | pkg/scanner/scanner.go:181-190 | accepts exactly a, b, n, r, t, the backslash and the enclosing quote after a backslash, advancing over the backslash; any other rune is reported, and nothing moves |
| Scanner.QuotedEnd | pkg/scanner/scanner.go:193-202 | the end of a literal's content is the closing quote or the end of the source |
| Scanner.QuotedEndEscaped | pkg/scanner/scanner.go:193-202 | every quote before the end is escaped by a backslash |
| Scanner.Scanner.ScanQuoted | pkg/scanner/scanner.go:193-202 | consumes the content up to the closing quote, counting lines, and reports the unknown escapes in order; whether a backslash was seen |
| Scanner.Scanner.QuotedStep | pkg/scanner/scanner.go:193-201 | one turn of the loop on a rune that is not the closing quote: the cursor moves on, the closing quote still ends the literal, the errors still add up to `QuotedErrors`, the position is `ConsumedOver` the runes passed, and `gotBackslash` records exactly whether a backslash was passed |
| Scanner.Scanner.QuotedRune | pkg/scanner/scanner.go:195-200 | the rune before the `advance`: a newline starts a new line, a backslash before a valid escape is passed over, and a backslash before anything else reports that rune (or `eof`) as an unknown escape; no other rune changes anything |
| Scanner.Scanner.CloseQuoted | pkg/scanner/scanner.go:208-209 | passes over the closing quote and returns the `STRING` or `CHAR` token over the whole literal; no capital is expected after it |
| Scanner.Scanner.ScanString | pkg/scanner/scanner.go:192-210 | a `STRING` up to and including the closing quote; without one, an open-text error and an `ILLEGAL` token |
| Scanner.Scanner.ScanChar | pkg/scanner/scanner.go:212-242 | a `CHAR` up to the closing quote, reported unless its rune count is 3, or 4 with a backslash inside; without a closing quote, an open-literal error and an `ILLEGAL` token |
| Scanner.Scanner.CheckCharLength | pkg/scanner/scanner.go:232-240 | a character literal is reported exactly when its rune count is neither 3 nor 4-with-a-backslash |
| Scanner.Scanner.IdentifierType | pkg/scanner/scanner.go:334-346 | the keyword the literal spells, or failing that the keyword its lower-case form spells, or `IDENTIFIER` |
| Scanner.Scanner.ScanIdentifier | pkg/scanner/scanner.go:278-293 | a name runs over letters and digits and is typed by `identifierType`; in strict mode, a keyword at a position expecting a capital that does not start with one is reported |
| Scanner.Scanner.ScanAliasParameter | pkg/scanner/scanner.go:349-372 | in alias mode a parameter runs to `>`. Reported: a first rune that is no letter, each rune that may not be in a name, a missing `>`, an empty parameter, and a parameter that spells a keyword |
| Scanner.Scanner.AliasName | pkg/scanner/scanner.go:353-357 | advances to the closing `>`, reporting each rune that may not be in a name |
| Scanner.Scanner.AliasStep | pkg/scanner/scanner.go:353-357 | one turn of the loop on a rune that is not `>`: the cursor moves by one, and the reports are still one `InvalidParameterName` per rune passed that may not be in a name |
| Scanner.Scanner.AliasToken | pkg/scanner/scanner.go:363-371 | reports an empty parameter when it spans at most two runes and the source goes on after it, then a parameter that spells a keyword, and returns the `ALIAS_PARAMETER` token over the parameter |
| Scanner.StartOf | pkg/scanner/scanner.go:133-176 | the first rune decides the token, each way round. A letter starts a name, and only a letter does; likewise a digit a number. `-`, `.`, `,`, `:`, `(`, `)` give their own punctuation token and nothing else gives punctuation. `"` starts a text, `'` a letter literal, `[` a comment, and `<` a parameter exactly in alias mode. Every other rune is unexpected |
| Scanner.Scanner.NextToken | pkg/scanner/scanner.go:113-179 | the token starts after the run of blanks, and its start line and column are those `WsState` gives. `EOF` comes exactly at the end of the source, with no new error. Otherwise the token fits its first rune (`Fits`), and `Scanned` gives its end, final position and appended errors for each kind of lexeme. A token that is not `Illegal` is built from its extent, indentation and range (`Current`), and the capitalization flag is then set exactly after `.` and `:`. An `Illegal` token has indentation 0 and the range from the start to the cursor, and leaves the flag alone |
| Scanner.Scanner.ScanToken | pkg/scanner/scanner.go:125-178 | after the whitespace: start, start line and start column are set to the cursor, line and column; then `EOF` exactly at the end of the source, otherwise one token as `Scanned` says, an `Illegal` one with indentation 0 and the range from the start to the cursor |
| Scanner.Scanner.ScanNext | pkg/scanner/scanner.go:131-178 | consumes the first rune and scans the token it starts, as `Scanned` says, from the position after that rune; the token is never `EOF`, and the start, start line and start column stay as they were |
| Scanner.Scanner.ScanFrom | pkg/scanner/scanner.go:133-178 | the dispatch on the first rune gives a token of the kind that rune starts, with the extent, final position and errors `Scanned` states for that lexeme; the start and its line and column stay, and an `Illegal` token has indentation 0 and the range from the start to the cursor |
| Scanner.Scanner.ScanSymbol | pkg/scanner/scanner.go:140-178 | the switch gives the punctuation token one rune long, a text or letter literal, a comment, an alias parameter, or an unexpected-character error (one more error, nothing consumed after the rune), each as `Scanned` states; the start and its line and column stay, and an `Illegal` token has indentation 0 and the range from the start to the cursor |
| Scanner.FitsNotEof | pkg/scanner/scanner.go:131-178 | no token that fits the lexeme a rune starts is `EOF` |
| Scanner.Scanner.ScanAll | pkg/scanner/scanner.go:100-109 | scans to the end of the source; the tokens end with exactly one `EOF`, and it is the last |
| Typechecker.IsNumeric | pkg/ast/typechecker/typechecker.go:185 | a numeric type is a single value type, no list |
| Typechecker.Check | pkg/ast/typechecker/typechecker.go:118-328 | reference definition of visiting an expression: the type left and the complaints, operands left to right (the index first for an indexing) and each node's complaints after its operands'; the visit methods are proved against it |
| Typechecker.Validate | pkg/ast/typechecker/typechecker.go:221-225 | `validate` reports, once, exactly when an operand type is not among the valid ones |
| Typechecker.NumericOperands | pkg/ast/typechecker/typechecker.go:243-245 | no report exactly when both operands are numbers |
| Typechecker.IntegerOperands | pkg/ast/typechecker/typechecker.go:264-278 | no report exactly when both operands are integers |
| Typechecker.BooleanOperands | pkg/ast/typechecker/typechecker.go:267-272 | no report exactly when both operands are truth values |
| Typechecker.ConcatRule | pkg/ast/typechecker/typechecker.go:228-237 | two single operands with a text among them give a text, accepted exactly when both are texts or letters; otherwise a list of the left operand's kind, accepted exactly when the kinds agree |
| Typechecker.StelleRule | pkg/ast/typechecker/typechecker.go:248-260 | accepted exactly when the operand is a text or a list and the index an integer; a list gives its element type, a text a letter |
| Typechecker.UnaryRule | pkg/ast/typechecker/typechecker.go:180-215 | `BETRAG`/negation keep a numeric type; `NICHT` needs and gives a truth value; `NEGIERE` accepts truth values and integers; `LOGISCHNICHT` needs an integer; `LÄNGE` needs a text or a list and gives an integer; `GRÖßE` gives an integer; an unknown operator is reported |
| Typechecker.BinaryRule | pkg/ast/typechecker/typechecker.go:216-300 | arithmetic needs numbers and is an integer exactly for two integers, else a float. Division and powers give a float. `MODULO`, shifts and the bit operators need and give integers. `UND`/`ODER` need truth values. `GLEICH`/`UNGLEICH` are reported exactly when the sides differ, the orderings need numbers, and both give a truth value |
| Typechecker.TernaryRule | pkg/ast/typechecker/typechecker.go:301-328 | `VON ... BIS` is accepted exactly for a text or a list with two integer bounds and gives the same kind; an unknown operator is reported |
| Typechecker.IndexingRule | pkg/ast/typechecker/typechecker.go:130-145 | accepted exactly for an integer index into a text or a list; a list gives its element type, anything else a letter |
| Typechecker.AcceptedIsProper | pkg/ast/typechecker/typechecker.go:118-328 | an expression whose names all resolve to variables of value types, and that the typechecker accepts without a report has a value type, never `Nichts` |
| Typechecker.IsOfType | pkg/ast/typechecker/typechecker.go:573-580 | true exactly when t is among the types |
| Typechecker.IsOfTypeBin | pkg/ast/typechecker/typechecker.go:583-586 | true exactly when both types are among the types |
| Typechecker.Typechecker.constructor | pkg/ast/typechecker/typechecker.go:20-31 | nothing erred or reported yet |
| Typechecker.Ast.constructor | pkg/ast/typechecker/typechecker.go:34-44 | a parsed AST with its statements and symbol table starts out not faulty |
| Typechecker.Typechecker.Err | pkg/ast/typechecker/typechecker.go:64-67 | `err` always sets `Errored` and hands the complaint on |
| Typechecker.Typechecker.Evaluate | pkg/ast/typechecker/typechecker.go:58-61 | visits the expression and returns the type it leaves, as `Check` gives it |
| Typechecker.Typechecker.Visit | pkg/ast/typechecker/typechecker.go:53-55 | each expression node is visited by its own rule, and the state afterwards is what `Check` says |
| Typechecker.Typechecker.VisitIndexing | pkg/ast/typechecker/typechecker.go:130-145 | visits the index, then the operand, and applies `IndexingRule` |
| Typechecker.Typechecker.VisitUnaryExpr | pkg/ast/typechecker/typechecker.go:180-215 | visits the operand, then applies `UnaryRule` |
| Typechecker.Typechecker.ApplyUnary | pkg/ast/typechecker/typechecker.go:183-214 | the operator switch leaves `UnaryRule`'s type and reports, erring exactly when it reports |
| Typechecker.Typechecker.ValidateBin | pkg/ast/typechecker/typechecker.go:221-225 | reports `Validate`'s complaint and errs exactly when there is one |
| Typechecker.Typechecker.VisitBinaryExpr | pkg/ast/typechecker/typechecker.go:216-300 | visits the left operand, then the right, then applies `BinaryRule` |
| Typechecker.Typechecker.ApplyBinary | pkg/ast/typechecker/typechecker.go:227-299 | the operator switch leaves `BinaryRule`'s type and reports, erring exactly when it reports |
| Typechecker.Typechecker.ApplyStelle | pkg/ast/typechecker/typechecker.go:248-260 | the `STELLE` case leaves `StelleRule`'s type and reports |
| Typechecker.Typechecker.VisitTernaryExpr | pkg/ast/typechecker/typechecker.go:301-328 | visits the three operands in order, then applies `TernaryRule` |
| Typechecker.Typechecker.ApplyTernary | pkg/ast/typechecker/typechecker.go:313-327 | the operator switch leaves `TernaryRule`'s type and reports |
| Typechecker.Typechecker.VisitStmt | pkg/ast/typechecker/typechecker.go:102-111 | an expression statement, a variable declaration (its value must be assignable to the declared type) or a bad statement reports and errs as `StmtErrors` and `StmtFaulty` say |
| Typechecker.ErredSome | pkg/ast/typechecker/typechecker.go:37-43 | the typechecker erred on a statement list exactly when it erred on one of its statements |
| Typechecker.ReportsErred | pkg/ast/typechecker/typechecker.go:64-67 | wherever something was reported, `Errored` is set |
| Typechecker.TypecheckAst | pkg/ast/typechecker/typechecker.go:34-44 | every statement is checked in order, and the AST becomes faulty exactly when the typechecker erred (staying faulty if it was); the handler receives the reports in order |

## Left out

- Logging (`DDP_DBGLOG`, `DBGLOG`) and the message texts and format arguments of runtime errors and diagnostics. Errors are modelled by their code and a fixed message.
- The `!DDP_ENABLE_REFC_POOL` fallback of `ddprefcount.c`, which only wraps the general allocator.
- Memory reuse by the general allocator. Addresses come from a counter that never hands out a freed address again, so a handle to a freed block cannot alias a later block.
- `ddp_runtime_error` aborts the program. `RefCount.RefcPool.FreeRefcount` returns it as an outcome with no state change; the unreachable `free_refc` after it is not modelled.
- RefCount.RefcPool.FreeRefcount: freeing a cell that is linked but not handed out (a double free inside a live block) is accepted silently, as in the code. The contract states what happens and does not exclude this case.
- Bitmap: the `used` word is modelled as its 64 bits, not as a machine integer. Only the per-bit meaning of `|`, `& ~`, `~` and `ffsll` is modelled.
- The `ull`/`ll` width of the shifts, and overflow of `size_t` and `ddpint` arithmetic on lengths. Integers are unbounded, with `int64` bounds only where the model converts `ddpint` bit patterns.
- The runtime errors in `bytes.c` and `operators.c` abort. The model returns them as `Err` values and leaves the state unchanged.
- utf8.c is not part of this model. `Utf8` stands in for its functions with the standard UTF-8 encoding. Surrogates and overlong forms are not distinguished, and a byte that starts no character counts as width 1.
- Operators.DdpString.ReplaceChar: an invalid character makes `utf8_char_to_string` return -1, and the code then copies with a wrapped-around length. The model stops with the error `CopyOverflow` and leaves the string unchanged.
- Operators.DdpString.StringIndex, Operators.DdpString.ReplaceChar, Operators.DdpString.ReplaceCharIntended, Operators.DdpString.Slice, Operators.DdpString.SliceIntended and Operators.StringEqual require a well-formed string (`Valid`). The as-written `ReplaceChar` (narrower replacement) and `StringCharVerkettet` can leave a malformed buffer, which the C code goes on reading through `strlen` and `utf8_num_bytes`; how these operations behave on such a buffer is not modelled.
- Operators.DdpString.StringStringVerkettet: appending a string to itself (an overlapping `memcpy` in C) is excluded by `other != this`, so the aliasing case is not modelled.
- The other functions of `operators.c` (number and string conversions, floating point, `inbuilt_string_length`) use libc formatting and floating point.
- Operators and scanner strings: no Unicode normalisation or case folding beyond the letters the scanner itself knows.
- Scanner: `New` (reading the file and checking its UTF-8) is a constructor on a rune sequence held in memory. The `init` lookup of `DDPPATH`, the `BINDE` include handling in `identifier` (a recursive scanner on another file) and the forwarding of an active include in `NextToken` are not modelled.
- Scanner: `err` is declared with four parameters but called with one string. It is modelled as recording an error value; the error codes, ranges, file names and the alias-mode message prefix are left out.
- Scanner.Scanner.ScanAll: the contract states that exactly one `EOF` ends the list and that the source is consumed, not the full sequence of tokens.
- Tokens: `token.KeywordToTokenType` is an abstract keyword table (a map from spellings to keyword token types). Only the token types the scanner names are distinct constructors.
- Typechecker: the visitors for casts, function calls, list literals, assignments, blocks, `if`/`while`/`for`/`return` statements and function declarations, `TypecheckNode` and the `checkBlocks` flag. `CurrentTable` is a fixed map from names to types; scopes are not modelled.
- Typechecker: `DDPType` is reduced to a primitive kind and a list flag. The message texts of `errExpected`, `errExpectedBin` and `errExpectedTern` are left out; the complaints keep the operator and the operand types.

## Findings

| source | as written | input that shows it | evidently intended | confidence | as-written member | corrected member |
|---|---|---|---|---|---|---|
| lib/stdlib/source/DDP/bytes.c:46-47 | both 0-based bounds are clamped to [0, len], so the copy can read one byte past the content, or past the array | bytes 1 to 9 of an 8-byte collection; bytes 1 to 4 of a 3-byte collection come back as 4 bytes | clamp to [0, len - 1] | not executed | Bytes.VonBisReadsPastArray | Bytes.VonBisIntended |
| lib/stdlib/source/DDP/bytes.c:66 | the second part is copied from `a->bytes.arr` | a collection holding 1 joined with one holding 2 gives 1, 1 | copy from `b->bytes.arr` | not executed | Bytes.VerkettetCopiesFirstTwice | Bytes.VerkettetIntended |
| lib/stdlib/source/DDP/bytes.c:85 | an empty collection (no element array) still reads `arr[0]` | `ByteSammlung_Als_Zahl` of the empty collection | 0 for an empty collection | not executed | Bytes.AlsZahlOfEmpty | Bytes.AlsZahlIntended |
| lib/runtime/source/operators.c:56-58 | a narrower character moves the tail left but cap is not updated | "ä" with its first character replaced by "a", then "c" appended, reads "a" | set cap to `cap - oldCharLen + newCharLen` | not executed | Operators.ReplaceThenConcat | Operators.ReplaceThenConcatIntended |
| lib/runtime/source/operators.c:104-106 | the copy stops after the lead byte of the last character | slicing "ä" from 1 to 1 gives the lone byte 0xC3 | copy up to the end of the last character | not executed | Operators.SliceCutsLastChar | Operators.DdpString.SliceIntended |
| lib/runtime/source/operators.c:154-158 | `new_cap` is computed but never stored in `str->cap` | "a" with 'b' appended, then "c" appended, gives "ac" | `str->cap = new_cap` | not executed | Operators.AppendCharThenString | Operators.DdpString.StringCharVerkettetIntended |
