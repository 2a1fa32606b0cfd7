/** The tokens of the Shield language. A Go string is a sequence of bytes; throughout the
    language pipeline a byte is written as the `char` with that code. */
module Tokens {

  /** The enumeration is an int32 in Go, and the wire decoder can store any int32 in it. */
  type TokenType = t: int | -0x8000_0000 <= t < 0x8000_0000

  const ILLEGAL: TokenType := 0
  const EOF: TokenType := 1
  const IDENT: TokenType := 2
  const INT: TokenType := 3
  const STRING: TokenType := 4
  const COMMA: TokenType := 5
  const SEMICOLON: TokenType := 6
  const LPAREN: TokenType := 7
  const RPAREN: TokenType := 8
  const LBRACKET: TokenType := 9
  const RBRACKET: TokenType := 10
  const AND: TokenType := 11
  const OR: TokenType := 12
  const EQ: TokenType := 13
  const NEQ: TokenType := 14
  const GT: TokenType := 15
  const LT: TokenType := 16
  const GTE: TokenType := 17
  const LTE: TokenType := 18
  const ADD: TokenType := 19
  const SUB: TokenType := 20
  const MUL: TokenType := 21
  const DIV: TokenType := 22
  const TRUE: TokenType := 23
  const FALSE: TokenType := 24

  datatype Token = Token(kind: TokenType, literal: string)

  const END := Token(EOF, "")

  /** The keyword table. */
  function LookupIdent(ident: string): TokenType {
    if ident == "true" then TRUE else if ident == "false" then FALSE else IDENT
  }
}
