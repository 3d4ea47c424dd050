/**
 * The tokens the lexer of the DDP compiler produces (package `token`): the
 * token types the scanner itself names, the keyword table it consults, and
 * a token with its literal, indentation and source range.
 */
module Tokens {

  /**
   * The token types the scanner names explicitly. Every other DDP keyword
   * is a `Keyword`, told apart by its spelling; `Binde` (the include
   * keyword) and `Ein` are the two keywords the scanner itself inspects.
   */
  datatype TokenType =
    | Illegal
    | Eof
    | Identifier
    | AliasParameter
    | Int
    | Float
    | Str
    | Char
    | Negate
    | Dot
    | Comma
    | Colon
    | LParen
    | RParen
    | Comment
    | Binde
    | Ein
    | Keyword(word: string)

  /** A line and column, both counted from 1. */
  datatype Position = Position(line: nat, column: nat)

  /** The positions at which a token starts and ends. */
  datatype Range = Range(start: Position, end: Position)

  /** A scanned token. For `Illegal` the literal is the error message. */
  datatype Token = Token(kind: TokenType, literal: string, indent: nat, range: Range)

  /**
   * The keyword table `KeywordToTokenType`: the token type of a spelling,
   * `Identifier` for every spelling the table does not hold.
   */
  function KeywordType(keywords: map<string, TokenType>, lit: string): (t: TokenType)
    ensures lit in keywords ==> t == keywords[lit]
    ensures lit !in keywords ==> t == Identifier
  {
    if lit in keywords then keywords[lit] else Identifier
  }
}
