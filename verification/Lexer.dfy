/** The lexer: a cursor over the input (class `Lexer`), proved against `NextLexeme`, a function
    from the unread input to the next token and what is left. */
module Lexing {
  import opened Tokens

  const NUL: char := '\0'

  predicate IsLetter(ch: char) { 'a' <= ch <= 'z' || 'A' <= ch <= 'Z' || ch == '_' }

  predicate IsDigit(ch: char) { '0' <= ch <= '9' }

  predicate IsIdentChar(ch: char) { IsLetter(ch) || IsDigit(ch) || ch == '.' }

  predicate IsSpace(ch: char) { ch == ' ' || ch == '\t' || ch == '\n' || ch == '\r' }

  predicate IsStringChar(ch: char) { ch != '"' && ch != NUL }

  /** What Go's `string(ch)` makes of a byte: the UTF-8 text of the rune with that code. */
  function RuneString(ch: char): string {
    var n := ch as int;
    if n < 0x80 || n >= 0x100 then [ch] else [(0xC0 + n / 64) as char, (0x80 + n % 64) as char]
  }

  /** The current byte of the unread input; past its end the cursor shows NUL. */
  function Peek(s: string): char { if s == "" then NUL else s[0] }

  function Skip(s: string): string { if s == "" then "" else s[1..] }

  /** Length of the longest prefix whose bytes all satisfy `f`. */
  function Span(s: string, f: char -> bool): (n: nat)
    ensures n <= |s|
    ensures forall i | 0 <= i < n :: f(s[i])
    ensures n < |s| ==> !f(s[n])
  {
    if s != "" && f(s[0]) then 1 + Span(s[1..], f) else 0
  }

  /** The operators of two bytes, ILLEGAL when `c` and `d` are none. */
  function TwoByteType(c: char, d: char): TokenType {
    if c == '&' && d == '&' then AND
    else if c == '|' && d == '|' then OR
    else if c == '>' && d == '=' then GTE
    else if c == '<' && d == '=' then LTE
    else if c == '!' && d == '=' then NEQ
    else if c == '=' && d == '=' then EQ
    else ILLEGAL
  }

  function OneByteType(c: char): TokenType {
    match c
    case '(' => LPAREN
    case ')' => RPAREN
    case ',' => COMMA
    case '[' => LBRACKET
    case ']' => RBRACKET
    case ';' => SEMICOLON
    case '>' => GT
    case '<' => LT
    case '+' => ADD
    case '-' => SUB
    case '*' => MUL
    case '/' => DIV
    case _ => ILLEGAL
  }

  datatype Lexeme = Lexeme(token: Token, rest: string)

  /** A string literal, read from behind its opening quote. */
  function StringToken(s: string): Lexeme {
    var n := Span(s, IsStringChar);
    if Peek(s[n..]) == NUL then Lexeme(Token(ILLEGAL, "\""), Skip(s[n..]))
    else Lexeme(Token(STRING, s[..n]), s[n + 1..])
  }

  /** The token at the head of `w`, which does not start with whitespace. */
  function TokenAt(w: string): Lexeme {
    var c := Peek(w);
    if c == NUL then Lexeme(END, Skip(w))
    else if TwoByteType(c, Peek(w[1..])) != ILLEGAL then
      Lexeme(Token(TwoByteType(c, Peek(w[1..])), w[..2]), w[2..])
    else if c == '"' then StringToken(w[1..])
    else if IsLetter(c) then
      var n := Span(w, IsIdentChar);
      Lexeme(Token(LookupIdent(w[..n]), w[..n]), w[n..])
    else if IsDigit(c) then
      var n := Span(w, IsDigit);
      Lexeme(Token(INT, w[..n]), w[n..])
    else Lexeme(Token(OneByteType(c), RuneString(c)), w[1..])
  }

  /** Names and numbers, the tokens that end where their characters end. */
  lemma WordAt(w: string)
    ensures IsLetter(Peek(w)) ==>
              var n := Span(w, IsIdentChar);
              n > 0 && TokenAt(w) == Lexeme(Token(LookupIdent(w[..n]), w[..n]), w[n..])
    ensures IsDigit(Peek(w)) ==>
              var n := Span(w, IsDigit);
              n > 0 && TokenAt(w) == Lexeme(Token(INT, w[..n]), w[n..])
  {
  }

  /** The operator of one or two bytes that starts with `c`: its second byte and the two types. */
  function OperatorOf(c: char): (char, TokenType, TokenType) {
    match c
    case '&' => ('&', AND, ILLEGAL)
    case '|' => ('|', OR, ILLEGAL)
    case '>' => ('=', GTE, GT)
    case '<' => ('=', LTE, LT)
    case '!' => ('=', NEQ, ILLEGAL)
    case '=' => ('=', EQ, ILLEGAL)
    case _ => (NUL, ILLEGAL, ILLEGAL)
  }

  lemma OperatorAt(w: string)
    ensures OperatorOf(Peek(w)).0 != NUL ==>
              var (second, double, single) := OperatorOf(Peek(w));
              TokenAt(w) == if Peek(Skip(w)) == second then Lexeme(Token(double, w[..2]), w[2..])
                            else Lexeme(Token(single, RuneString(w[0])), w[1..])
  {
    hide RuneString, StringToken;
  }

  lemma OtherAt(w: string)
    ensures Peek(w) == NUL ==> TokenAt(w) == Lexeme(END, Skip(w))
    ensures Peek(w) == '"' ==> TokenAt(w) == StringToken(w[1..])
    ensures var c := Peek(w);
            c != NUL && OperatorOf(c).0 == NUL && c != '"' && !IsLetter(c) && !IsDigit(c) ==>
              TokenAt(w) == Lexeme(Token(OneByteType(c), RuneString(c)), w[1..])
  {
    hide RuneString, StringToken, OneByteType;
  }

  lemma Slice(s: string, i: nat, j: nat)
    requires i <= j <= |s|
    ensures s[i..j] == s[i..][..j - i]
  {}

  function SkipSpace(s: string): (w: string)
    ensures |w| <= |s|
    ensures w != "" ==> !IsSpace(w[0])
  {
    s[Span(s, IsSpace)..]
  }

  function NextLexeme(s: string): (l: Lexeme)
    ensures SkipSpace(s) != "" ==> |l.rest| < |s|
    ensures SkipSpace(s) == "" ==> l == Lexeme(END, "")
  {
    TokenAt(SkipSpace(s))
  }

  /** All tokens of the input. A NUL byte gives an EOF token and lexing goes on behind it;
      behind the last token there is nothing but EOF. */
  function Tokenize(s: string): seq<Token>
    decreases |s|
  {
    if SkipSpace(s) == "" then [] else [NextLexeme(s).token] + Tokenize(NextLexeme(s).rest)
  }

  class Lexer {
    const input: string
    var position: nat
    var readPosition: nat
    var ch: char

    ghost predicate Valid()
      reads this
    {
      readPosition == position + 1 && ch == Peek(Rest())
    }

    /** The unread input, starting with `ch`. */
    ghost function Rest(): string
      reads this
    {
      if position < |input| then input[position..] else ""
    }

    constructor (input: string)
      ensures Valid() && Rest() == input && this.input == input
    {
      this.input := input;
      position := 0;
      readPosition := 0;
      ch := NUL;
      new;
      ReadChar();
    }

    method ReadChar()
      modifies this
      ensures Valid() && position == old(readPosition)
      ensures old(Valid()) ==> Rest() == Skip(old(Rest()))
    {
      if readPosition >= |input| {
        ch := NUL;
      } else {
        ch := input[readPosition];
      }
      position := readPosition;
      readPosition := readPosition + 1;
    }

    method PeekChar() returns (c: char)
      requires Valid()
      ensures c == Peek(Skip(Rest()))
    {
      if readPosition >= |input| {
        return NUL;
      }
      return input[readPosition];
    }

    /** The scanning loops of the lexer: move over the bytes that satisfy `f`. */
    method ReadWhile(f: char -> bool)
      requires Valid() && !f(NUL)
      modifies this
      ensures Valid()
      ensures position == old(position) + Span(old(Rest()), f)
      ensures Rest() == old(Rest())[Span(old(Rest()), f)..]
    {
      ghost var rest := Rest();
      ghost var n := 0;
      while f(ch)
        invariant Valid() && n <= |rest| && Rest() == rest[n..]
        invariant position == old(position) + n
        invariant Span(rest, f) == n + Span(rest[n..], f)
        decreases |rest| - n
      {
        assert rest[n..][1..] == rest[n + 1..];
        ReadChar();
        n := n + 1;
      }
    }

    method ReadIdentifier() returns (text: string)
      requires Valid()
      modifies this
      ensures Valid()
      ensures text == old(Rest())[..Span(old(Rest()), IsIdentChar)]
      ensures Rest() == old(Rest())[Span(old(Rest()), IsIdentChar)..]
    {
      hide Span;
      var start := position;
      ReadWhile(IsIdentChar);
      if start < |input| {
        Slice(input, start, position);
        text := input[start..position];
      } else {
        text := "";
      }
    }

    method ReadNumber() returns (text: string)
      requires Valid()
      modifies this
      ensures Valid()
      ensures text == old(Rest())[..Span(old(Rest()), IsDigit)]
      ensures Rest() == old(Rest())[Span(old(Rest()), IsDigit)..]
    {
      hide Span;
      var start := position;
      ReadWhile(IsDigit);
      if start < |input| {
        Slice(input, start, position);
        text := input[start..position];
      } else {
        text := "";
      }
    }

    /** Stops at the closing quote or at the NUL; the caller moves over it. */
    method ReadString() returns (tok: Token)
      requires Valid() && 0 < position <= |input| && input[position - 1] == '"'
      modifies this
      ensures Valid() && Lexeme(tok, Skip(Rest())) == StringToken(old(Rest()))
    {
      hide Span;
      var start := position;
      ReadWhile(IsStringChar);
      Slice(input, start, position);
      if ch == NUL {
        return Token(ILLEGAL, RuneString(input[start - 1]));
      }
      return Token(STRING, input[start..position]);
    }

    method SkipWhitespace()
      requires Valid()
      modifies this
      ensures Valid() && Rest() == SkipSpace(old(Rest()))
    {
      ReadWhile(IsSpace);
    }

    /** An operator that is legal alone (`single`) or, before `second`, of two bytes (`double`). */
    method ReadOperator(second: char, double: TokenType, single: TokenType) returns (tok: Token)
      requires Valid() && ch != NUL && second != NUL
      modifies this
      ensures Valid()
      ensures if Peek(Skip(old(Rest()))) == second
              then tok == Token(double, old(Rest())[..2]) && Rest() == old(Rest())[1..]
              else tok == Token(single, RuneString(old(ch))) && Rest() == old(Rest())
    {
      var next := PeekChar();
      if next == second {
        var first := ch;
        ReadChar();
        return Token(double, [first, ch]);
      }
      return Token(single, RuneString(ch));
    }

    /** The token of a byte that starts neither a name nor a number; the cursor is left on
        its last byte. */
    method ReadSymbol() returns (tok: Token)
      requires Valid() && !IsLetter(ch) && !IsDigit(ch)
      modifies this
      ensures Valid()
      ensures Lexeme(tok, Skip(Rest())) == TokenAt(old(Rest()))
    {
      OperatorAt(Rest());
      OtherAt(Rest());
      hide TokenAt, OneByteType, RuneString, StringToken;
      match ch {
        case '&' => tok := ReadOperator('&', AND, ILLEGAL);
        case '|' => tok := ReadOperator('|', OR, ILLEGAL);
        case '>' => tok := ReadOperator('=', GTE, GT);
        case '<' => tok := ReadOperator('=', LTE, LT);
        case '!' => tok := ReadOperator('=', NEQ, ILLEGAL);
        case '=' => tok := ReadOperator('=', EQ, ILLEGAL);
        case '"' =>
          ReadChar();
          tok := ReadString();
        case '\0' => tok := END;
        case _ => tok := Token(OneByteType(ch), RuneString(ch));
      }
    }

    method NextToken() returns (tok: Token)
      requires Valid()
      modifies this
      ensures Valid()
      ensures Lexeme(tok, Rest()) == NextLexeme(old(Rest()))
    {
      SkipWhitespace();
      ghost var w := Rest();
      assert NextLexeme(old(Rest())) == TokenAt(w) && ch == Peek(w);
      WordAt(w);
      if IsLetter(ch) {
        var text := ReadIdentifier();
        return Token(LookupIdent(text), text);
      } else if IsDigit(ch) {
        var text := ReadNumber();
        return Token(INT, text);
      }
      tok := ReadSymbol();
      ReadChar();
    }
  }
}
