/** Tokens and text: the lexer drops nothing but blanks and invents nothing, and each byte and
    each operator has one fixed reading. */
module SourceText {
  import opened Sequences
  import opened Tokens
  import opened Lexing
  import opened Ast
  import opened Parsing
  import opened Printing
  import opened Grammar

  // ----- Nothing is invented -----

  predicate IsBlank(s: string) { forall i | 0 <= i < |s| :: s[i] in {' ', '\t', '\n', '\r'} }

  /** Without quote and NUL. */
  predicate IsInside(s: string) { forall i | 0 <= i < |s| :: s[i] != '"' && s[i] != '\0' }

  /** The text a token stands for: its literal, between quotes for a string. An illegal token is a
      single byte, or a quote with everything up to a NUL or to the end of the input. */
  predicate Spells(text: string, t: Token) {
    if t.kind == STRING then text == "\"" + t.literal + "\"" && IsInside(t.literal)
    else if t.kind == EOF then text == "\0"
    else if t.kind == ILLEGAL then
      if text != "" && text[0] == '"' then t.literal == "\"" && Unclosed(text)
      else |text| == 1 && (text[0] as int < 0x80 ==> t.literal == text)
    else text == t.literal
  }

  predicate Unclosed(text: string) {
    text != "" && text[0] == '"' && (IsInside(text[1..]) || (text[|text| - 1] == '\0' && IsInside(text[1..|text| - 1])))
  }

  /** The token at the head of `w` has the first `n` bytes for its text. */
  ghost predicate Takes(w: string, n: nat) {
    0 < n <= |w| && TokenAt(w).rest == w[n..] && Spells(w[..n], TokenAt(w).token)
  }

  /** A token at the head of the input takes exactly its text away; an unclosed string takes
      everything up to its NUL, or all there is. */
  lemma TokenTakesItsText(w: string) returns (n: nat)
    requires w != ""
    ensures Takes(w, n)
    ensures w[0] == '"' && TokenAt(w).token.kind == ILLEGAL ==> n == |w| || w[n - 1] == '\0'
  {
    hide *;
    if w[0] == '"' {
      n := StringTakes(w);
    } else if IsLetter(w[0]) || IsDigit(w[0]) {
      n := WordTakes(w);
    } else {
      n := SymbolTakes(w);
    }
  }

  lemma WordTakes(w: string) returns (n: nat)
    requires w != "" && (IsLetter(w[0]) || IsDigit(w[0]))
    ensures Takes(w, n)
  {
    hide TokenAt;
    WordAt(w);
    n := if IsLetter(w[0]) then Span(w, IsIdentChar) else Span(w, IsDigit);
  }

  lemma SymbolTakes(w: string) returns (n: nat)
    requires w != "" && w[0] != '"' && !IsLetter(w[0]) && !IsDigit(w[0])
    ensures Takes(w, n)
  {
    hide TokenAt, StringToken;
    OperatorAt(w);
    OtherAt(w);
    if OperatorOf(w[0]).0 != NUL && Peek(Skip(w)) == OperatorOf(w[0]).0 {
      n := 2;
    } else {
      n := 1;
      OneByteIsAscii(w[0]);
      assert w[..1] == [w[0]];
    }
  }

  lemma OneByteIsAscii(c: char)
    ensures OneByteType(c) != ILLEGAL ==> RuneString(c) == [c]
    ensures c in {'>', '<', '!', '=', '&', '|'} ==> RuneString(c) == [c]
    ensures OneByteType(c) != STRING && OneByteType(c) != EOF
  {}

  lemma StringTakes(w: string) returns (n: nat)
    requires w != "" && w[0] == '"'
    ensures Takes(w, n)
    ensures TokenAt(w).token.kind == ILLEGAL ==> n == |w| || w[n - 1] == '\0'
  {
    OtherAt(w);
    var s := w[1..];
    var inside := InsideOf(s);
    hide TokenAt, StringToken;
    if inside == |s| {
      n := |w|;
      assert w[n..] == "" && w[..n] == w;
    } else {
      n := inside + 2;
      assert w[n..] == s[inside + 1..] && w[n - 1] == s[inside];
      TextOfString(w, inside);
    }
  }

  /** How far a string reaches, and what it is read as. */
  lemma InsideOf(s: string) returns (n: nat)
    ensures n <= |s| && IsInside(s[..n]) && (n == |s| ==> IsInside(s))
    ensures n == |s| ==> StringToken(s) == Lexeme(Token(ILLEGAL, "\""), "")
    ensures n < |s| ==> s[n] == '\0' || s[n] == '"'
    ensures n < |s| ==>
              StringToken(s)
              == Lexeme(if s[n] == '\0' then Token(ILLEGAL, "\"") else Token(STRING, s[..n]), s[n + 1..])
  {
    n := Span(s, IsStringChar);
    assert forall i | 0 <= i < n :: IsStringChar(s[i]);
    assert n == |s| ==> s[n..] == "";
  }

  lemma TextOfString(w: string, n: nat)
    requires n + 2 <= |w| && w[0] == '"' && IsInside(w[1..][..n])
    ensures w[..n + 2][1..n + 1] == w[1..][..n]
    ensures w[n + 1] == '\0' ==> Unclosed(w[..n + 2])
    ensures w[n + 1] == '"' ==> w[..n + 2] == "\"" + w[1..][..n] + "\""
  {
    assert w[..n + 2][1..n + 1] == w[1..][..n];
  }

  /** Blanks and texts in turn, beginning and ending with blanks. */
  function Woven(blanks: seq<string>, texts: seq<string>): string
    requires |blanks| == |texts| + 1
  {
    blanks[0] + if texts == [] then "" else texts[0] + Woven(blanks[1..], texts[1..])
  }

  ghost predicate Reads(blanks: seq<string>, texts: seq<string>, ts: seq<Token>) {
    && |blanks| == |texts| + 1 && |texts| == |ts|
    && (forall i | 0 <= i < |blanks| :: IsBlank(blanks[i]))
    && (forall i | 0 <= i < |ts| :: texts[i] != "" && Spells(texts[i], ts[i]))
  }

  /** Every input is the texts of its tokens, with nothing but blanks between them. */
  lemma {:induction false} NothingIsInvented(s: string) returns (blanks: seq<string>, texts: seq<string>)
    ensures Reads(blanks, texts, Tokenize(s)) && s == Woven(blanks, texts)
    decreases |s|
  {
    hide Tokenize, TokenAt, Spells, Woven, SkipSpace;
    var blank := BlanksFirst(s);
    var w := SkipSpace(s);
    if w == "" {
      blanks, texts := [blank], [];
      NothingBehind(s, blank);
    } else {
      TokenizeStep(s);
      var n := TokenTakesItsText(w);
      var moreBlanks, moreTexts := NothingIsInvented(w[n..]);
      blanks, texts := [blank] + moreBlanks, [w[..n]] + moreTexts;
      WeaveMore(blank, w[..n], moreBlanks, moreTexts);
      assert w == w[..n] + w[n..];
    }
  }

  lemma BlanksFirst(s: string) returns (blank: string)
    ensures IsBlank(blank) && s == blank + SkipSpace(s)
  {
    blank := s[..Span(s, IsSpace)];
  }

  lemma NothingBehind(s: string, blank: string)
    requires SkipSpace(s) == "" && s == blank + ""
    ensures Tokenize(s) == [] && s == Woven([blank], [])
  {}

  lemma TokenizeStep(s: string)
    requires SkipSpace(s) != ""
    ensures Tokenize(s) == [TokenAt(SkipSpace(s)).token] + Tokenize(TokenAt(SkipSpace(s)).rest)
  {}

  lemma WeaveMore(blank: string, text: string, blanks: seq<string>, texts: seq<string>)
    requires |blanks| == |texts| + 1
    ensures Woven([blank] + blanks, [text] + texts) == blank + (text + Woven(blanks, texts))
  {
    Cons(blank, blanks);
    Cons(text, texts);
  }

  lemma {:induction false} WovenSplit(blanks: seq<string>, texts: seq<string>, n: nat) returns (end: string)
    requires |blanks| == |texts| + 1 && n <= |texts|
    ensures Woven(blanks, texts) == Woven(blanks[..n + 1], texts[..n]) + end
    decreases |texts|
  {
    if n == 0 {
      assert blanks[..1] == [blanks[0]] && texts[..0] == [];
      end := if texts == [] then "" else texts[0] + Woven(blanks[1..], texts[1..]);
    } else {
      end := WovenSplit(blanks[1..], texts[1..], n - 1);
      assert blanks[..n + 1][1..] == blanks[1..][..n] && texts[..n][1..] == texts[1..][..n - 1];
      assert blanks[..n + 1][0] == blanks[0] && texts[..n][0] == texts[0];
    }
  }

  // ----- Accepted programs are made of whole tokens -----

  lemma {:induction false} DerivationIsLegal(x: Syntax)
    requires Derivation(x)
    ensures forall t | t in TokensOf(x) :: t.kind != ILLEGAL && t.kind != EOF
    decreases x, 1
  {
    match x
    case Atom(_) =>
    case Group(inner) => DerivationIsLegal(inner);
    case List(elements) => ItemsAreLegal(elements);
    case Call(callee, arguments) =>
      DerivationIsLegal(callee);
      ItemsAreLegal(arguments);
    case Minus(_, operand) => DerivationIsLegal(operand);
    case Binary(left, _, right) =>
      DerivationIsLegal(left);
      DerivationIsLegal(right);
  }

  lemma {:induction false} ItemsAreLegal(xs: seq<Syntax>)
    requires Derivations(xs)
    ensures forall t | t in ItemTokens(xs) :: t.kind != ILLEGAL && t.kind != EOF
    decreases xs, 0
  {
    hide TokensOf, Derivation;
    if xs != [] {
      DerivationIsLegal(xs[0]);
      ItemsAreLegal(xs[1..]);
    }
  }

  /** What an accepted program was accepted for is a text of whole tokens: every string in it is
      closed, and no byte of it is illegal. */
  lemma AcceptedText(s: string) returns (x: Syntax, blanks: seq<string>, texts: seq<string>, end: string)
    requires Clean(Parse(s))
    ensures Derivation(x) && TreeOf(x) == Parse(s).value
    ensures Reads(blanks, texts, TokensOf(x)) && s == Woven(blanks, texts) + end
    ensures forall t | t in TokensOf(x) :: t.kind != ILLEGAL && t.kind != EOF
  {
    hide Parse, Derivation, TokensOf, TreeOf, Woven, Spells, IsBlank;
    var rest;
    x, rest := AcceptedIsDerivation(s);
    var allBlanks, allTexts := NothingIsInvented(s);
    var n := |TokensOf(x)|;
    blanks, texts := allBlanks[..n + 1], allTexts[..n];
    end := WovenSplit(allBlanks, allTexts, n);
    DerivationIsLegal(x);
  }

  /** A program that is an unclosed string is one illegal token, and an error. */
  lemma UnclosedString(s: string)
    requires IsInside(s)
    ensures Tokenize("\"" + s) == [Token(ILLEGAL, "\"")]
    ensures Parse("\"" + s) == Parsed(NilExpr, [Token(ILLEGAL, "\"")], [NoPrefix(ILLEGAL)])
  {
    var w := "\"" + s;
    assert w[1..] == s;
    assert Span(s, IsStringChar) == |s|;
    assert s[|s|..] == "";
    OtherAt(w);
    assert TokenAt(w) == Lexeme(Token(ILLEGAL, "\""), "");
    TokenizeFirst(w);
    TokenizeNothing();
    hide Tokenize, TokenAt;
    assert [Token(ILLEGAL, "\"")] + [] == [Token(ILLEGAL, "\"")];
    NothingStarts([Token(ILLEGAL, "\"")], [], LOWEST);
    AppendNothing([NoPrefix(ILLEGAL)]);
  }

  // ----- Bytes and operators -----

  lemma ShortNames(s: string)
    requires |s| < 4
    ensures LookupIdent(s) == IDENT
  {
    assert |s| != |"true"| && |s| != |"false"|;
  }

  /** What each byte is on its own. */
  lemma SingleBytes(c: char)
    ensures Tokenize([c]) == [] <==> c in {' ', '\t', '\n', '\r'}
    ensures Tokenize([c]) == [Token(IDENT, [c])] <==> 'a' <= c <= 'z' || 'A' <= c <= 'Z' || c == '_'
    ensures Tokenize([c]) == [Token(INT, [c])] <==> '0' <= c <= '9'
  {
    if IsSpace(c) {
      assert SkipSpace([c]) == "";
    } else {
      hide Tokenize, TokenAt;
      OneToken(c);
      if IsLetter(c) || IsDigit(c) {
        WordOfOne(c);
      } else {
        SymbolOfOne(c);
      }
    }
  }

  lemma OneToken(c: char)
    requires !IsSpace(c)
    ensures Tokenize([c]) == [TokenAt([c]).token]
  {
    hide TokenAt;
    TokenizeFirst([c]);
    TokenizeNothing();
    assert TokenAt([c]).rest == "";
    hide Tokenize;
    AppendNothing([TokenAt([c]).token]);
  }

  lemma WordOfOne(c: char)
    requires IsLetter(c) || IsDigit(c)
    ensures TokenAt([c]).token == if IsLetter(c) then Token(IDENT, [c]) else Token(INT, [c])
  {
    hide TokenAt;
    ShortNames([c]);
    assert [c][..1] == [c];
    WordAt([c]);
  }

  lemma SymbolOfOne(c: char)
    requires !IsLetter(c) && !IsDigit(c)
    ensures TokenAt([c]).token.kind != IDENT && TokenAt([c]).token.kind != INT
  {
    hide TokenAt, RuneString;
    OperatorAt([c]);
    OtherAt([c]);
  }

  /** A name goes on over letters, digits, underscores and dots, and over nothing else. */
  lemma NameBytes(c: char)
    ensures Tokenize("a" + [c]) == [Token(IDENT, "a" + [c])]
       <==> 'a' <= c <= 'z' || 'A' <= c <= 'Z' || c == '_' || '0' <= c <= '9' || c == '.'
  {
    var w := "a" + [c];
    TokenizeFirst(w);
    TokenizeNothing();
    hide Tokenize, TokenAt;
    ShortNames(w);
    AppendNothing([TokenAt(w).token]);
    WordAt(w);
    var n := Span(w, IsIdentChar);
    if n == 2 {
      assert IsIdentChar(w[1]) && w[..2] == w && w[2..] == "";
    } else {
      assert !IsIdentChar(w[1]) && |w[..n]| == 1;
    }
  }

  /** The tokens that are always written alike. */
  const SPELLINGS: map<string, TokenType> := map[
    "(" := LPAREN, ")" := RPAREN, "[" := LBRACKET, "]" := RBRACKET, "," := COMMA, ";" := SEMICOLON,
    "&&" := AND, "||" := OR, "==" := EQ, "!=" := NEQ, ">" := GT, "<" := LT, ">=" := GTE, "<=" := LTE,
    "+" := ADD, "-" := SUB, "*" := MUL, "/" := DIV]

  /** Each of these texts is read as its token, in front of anything that does not make it longer. */
  lemma SpellingsAreRead(text: string, rest: string)
    requires text in SPELLINGS
    requires |text| == 2 || rest == "" || text + [rest[0]] !in SPELLINGS
    ensures TokenAt(text + rest) == Lexeme(Token(SPELLINGS[text], text), rest)
  {
    if |text| == 2 {
      TwoBytesAreRead(text, rest);
    } else {
      OneByteIsRead(text, rest);
    }
  }

  lemma TwoBytesAreRead(text: string, rest: string)
    requires text in SPELLINGS && |text| == 2
    ensures TokenAt(text + rest) == Lexeme(Token(SPELLINGS[text], text), rest)
  {
    var w := text + rest;
    assert w[2..] == rest && w[..2] == text;
    OperatorAt(w);
    hide TokenAt;
    assert text == [text[0], text[1]];
  }

  lemma OneByteIsRead(text: string, rest: string)
    requires text in SPELLINGS && |text| == 1
    requires rest == "" || text + [rest[0]] !in SPELLINGS
    ensures TokenAt(text + rest) == Lexeme(Token(SPELLINGS[text], text), rest)
  {
    var w := text + rest;
    assert w[1..] == rest && text == [text[0]];
    if rest != "" {
      assert text + [rest[0]] == [text[0], rest[0]];
      LongerOperators(text[0], rest[0]);
    }
    OperatorAt(w);
    OtherAt(w);
    hide TokenAt;
  }

  lemma LongerOperators(c: char, d: char)
    requires [c, d] !in SPELLINGS
    ensures c in {'>', '<'} ==> d != '='
  {
    assert [c, d] != ">=" && [c, d] != "<=";
  }
}
