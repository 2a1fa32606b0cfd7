# Shield and the keychain SDK, modelled in Dafny

Three connected parts of the Warden Protocol repository are modelled and proved here.

**The Shield language** decides approvals. Its pipeline is a byte lexer (`Lexer.dfy`), a Pratt parser
with a two-token window (`Parser.dfy` says what it does with a token list, `ParserClass.dfy` is the parser
with its fields), a printer (`Ast.dfy`), macro expansion (`Preprocess.dfy` on values,
`PreprocessInPlace.dfy` on the linked tree), the collector of free names (`Metadata.dfy`) and the evaluator
(`Evaluator.dfy` on values, `HeapObjects.dfy` and `HeapEvaluator.dfy` with integers as objects that `any`
counts down in place, `StoreEvaluator.dfy` on values and an explicit store of these integers).
The results: tokens and blanks are all of the text (`SourceText.dfy`); the parser accepts exactly the
derivations of a grammar with groups, calls and arrays, and returns their trees (`Grammar.dfy`); a chain of
operators has one derivation, by precedence (`Precedence.dfy`); printing and parsing undo each other
(`Printing.dfy`, `RoundTrip.dfy`); every accepted program has a normal form, and without a recorded error there
is no nil in a tree (`NormalForm.dfy`); the parser dereferences nil exactly on the programs that a scan of their
tokens finds (`PanicScan.dfy`), which all have certain patterns of parentheses that no printed program has
(`ParserPanics.dfy`); operators, names and builtins obey the laws one expects of them, on trees and as text
(`ProgramLaws.dfy`, `ProgramTexts.dfy`); well-typed programs do not go wrong (`Typing.dfy`); `any` and `all` are
quorums (`Quorum.dfy`); in-place evaluation is store-passing evaluation on every program, and evaluation on
values on those that share no threshold, and what a shared one does to two quorums is computed exactly
(`SharedThreshold.dfy`); expansion preserves meaning; the metadata are all that evaluation depends on.

**The codec** of the syntax tree is the one generated into `ast.pb.go` and `token.pb.go`. `Wire.dfy` has the
varints, `Skip.dfy` the skipping of unknown fields, `Codec.dfy` the format (what is written, and what any
bytes decode to), `CodecMethods.dfy` the code: sizes, the buffer that is filled from its end, and the decoding
loops. The results: every tree comes back from its bytes (`CodecRoundTrip.dfy`); unknown fields are transparent
at any depth (`CodecNoise.dfy`); the bytes are those of the source, tag by tag, and cutting or mistagging them
is detected (`WireLayout.dfy`); whatever decodes can be written again (`CodecDecoded.dfy`); the buffer is filled
exactly; decoding is total.

**The keychain SDK** takes requests from the chain, gives each to a handler and writes the responses back in
batches. `Writer.dfy` has the batch, `Keychain.dfy` the tracker and the whole protocol as a state machine over
the steps of its goroutines, in any interleaving, and `KeychainSafety.dfy` what every step keeps.
`Delivery.dfy` draws the conclusions: one live handler per request, an exact tracker, no two messages for one
request, and for every `Write` the outcome of its own batch, once. `RunOutcomes.dfy` ties this to the actions of
the run: what was sent with which result, what was responded, and what was reported.

## How the source is read

- A Go string is a `string` whose characters are bytes. A token type is a 32-bit integer, since the decoder can
  store any; the 64-bit arithmetic of the codec is written out where it wraps or changes sign. `big.Int` is `int`.
- A nil `*ast.Expression` is the constructor `NilExpr`, an unset oneof is `Unset`, and a nil slice is an empty one.
- Nil dereferences, failed type assertions, a division by zero and a panicking environment are outcomes
  (`Panicked`, `Abort`), not preconditions. Errors are told apart by kind.
- The parser and the lexer are proved equal to functions on the remaining tokens and bytes, and the theorems are
  about these functions; the evaluator on the heap, the in-place expansion and the codec methods are tied to
  their functions in the same way.
- An expander is any function of the identifier it is given, token included, and builds a new tree each time.
- In the protocol a step is what one goroutine does between two points where others can interfere. Sending a
  transaction succeeds or fails by choice. A panic of a handler before its response is a rejection. Runs are those
  of careful handlers, which respond at most once and do not panic after they did; the step of a careless one is
  `RespondAgain`.
- Where documentation and code differ, the code is modelled: `Parse` is documented to return an error on syntax
  errors (`shield/shield.go:19-20`), but the parser dereferences nil on some of them, such as `1((`. `PanicScan` says
  on which.

## Model

| member | source | states |
|---|---|---|
| Lexing.Lexer.constructor | shield/internal/lexer/lexer.go:14-18 | a new lexer stands on the first byte, with the whole input unread |
| Lexing.Lexer.ReadChar | shield/internal/lexer/lexer.go:118-126 | moves on by one byte; past the end the cursor shows NUL and stays there |
| Lexing.Lexer.PeekChar | shield/internal/lexer/lexer.go:128-133 | the byte behind the current one, NUL past the end |
| Lexing.Lexer.ReadIdentifier | shield/internal/lexer/lexer.go:135-141 | takes the longest run of letters, digits, underscores and dots |
| Lexing.Lexer.ReadNumber | shield/internal/lexer/lexer.go:143-149 | takes the longest run of digits |
| Lexing.Lexer.ReadString | shield/internal/lexer/lexer.go:151-165 | takes the bytes up to the closing quote, or gives ILLEGAL at a NUL or the end of the input |
| Lexing.Lexer.SkipWhitespace | shield/internal/lexer/lexer.go:167-171 | leaves exactly the input behind the leading blanks |
| Lexing.Lexer.ReadOperator | shield/internal/lexer/lexer.go:37-86 | a two-byte operator if its second byte follows, the one-byte token otherwise |
| Lexing.Lexer.ReadSymbol | shield/internal/lexer/lexer.go:23-114 | the token of a byte that starts neither a name nor a number, and the input it leaves |
| Lexing.Lexer.NextToken | shield/internal/lexer/lexer.go:20-116 | the cursor, its loops and its switch give the token and the remaining input of the specification, on every byte string |
| SourceText.TokenTakesItsText | shield/internal/lexer/lexer.go:20-116 | a token at the head of any input takes exactly its text away: its literal, between quotes for a string; what starts with a quote and is not closed is illegal, up to a NUL or the end |
| SourceText.NothingIsInvented | shield/internal/lexer/lexer.go:20-171 | every input is the texts of its tokens, in order, with nothing but blanks between them |
| SourceText.AcceptedText | shield/shield.go:19-30 | what an accepted program was accepted for is a text of whole tokens, none of them illegal: no accepted program ends inside a string |
| SourceText.UnclosedString | shield/internal/lexer/lexer.go:151-165 | a quote with no other quote behind it is one illegal token, and `Parse` reports an error |
| SourceText.SingleBytes | shield/internal/lexer/lexer.go:167-187 | exactly four bytes are blanks, letters and the underscore start names, and digits are numbers |
| SourceText.NameBytes | shield/internal/lexer/lexer.go:135-141 | a name goes on over letters, digits, underscores and dots, and over no other byte |
| SourceText.SpellingsAreRead | shield/internal/lexer/lexer.go:23-108 | the eighteen fixed texts are read as their tokens, in front of anything that does not make them longer |
| Parsing.ParseExpression | shield/internal/parser/parser.go:111-131 | parsing never gives tokens back and never drops a recorded error; the recursion ends on every input |
| ParserState.Parser.constructor | shield/internal/parser/parser.go:57-92 | the window holds the first two tokens of the input |
| ParserState.Parser.NextToken | shield/internal/parser/parser.go:94-97 | the window moves by one token and stays in step with the lexer |
| ParserState.Parser.ExpectPeek | shield/internal/parser/parser.go:268-280 | moves on if the next token is the wanted one, records an error and stays otherwise |
| ParserState.Parser.ParseExpression | shield/internal/parser/parser.go:111-131 | the prefix dispatch and the precedence loop do on the window what the specification does on the token list: tree, tokens left, errors and nil dereferences |
| ParserState.Parser.ParsePrefix | shield/internal/parser/parser.go:133-199 | the same for the registered prefix functions |
| ParserState.Parser.ParseIntegerLiteral | shield/internal/parser/parser.go:140-151 | the same for integers: the literal is rewritten as the canonical decimal of its value |
| ParserState.Parser.ParseGrouped | shield/internal/parser/parser.go:178-187 | the same for parentheses, with the nil result when the closing one is missing |
| ParserState.Parser.ParseInfix | shield/internal/parser/parser.go:201-212 | the same for binary operators |
| ParserState.Parser.ParseCall | shield/internal/parser/parser.go:214-224 | the same for calls: nil dereference on a nil callee, error and nil on a callee that is no identifier |
| ParserState.Parser.ParseList | shield/internal/parser/parser.go:226-248 | the same for the loop over elements and arguments |
| ParserState.Parser.Parse | shield/internal/parser/parser.go:107-109 | parses one expression at the lowest precedence and leaves what follows it |
| ParserState.ParseSource | shield/shield.go:21-30 | a tree exactly if no error was recorded; a nil dereference is not caught |
| Ast.Print | shield/ast/stringify.go:9-34 | the recursive printer gives the text of the tree |
| Ast.PrintList | shield/ast/stringify.go:36-51 | the builder loop puts a separator between the elements and none behind the last |
| Decimal.SetStringOfString | shield/internal/parser/parser.go:140-151 | writing an integer in decimal and reading it back gives the integer, for all integers |
| Decimal.StringOfSetString | shield/internal/parser/parser.go:140-151 | every digit string is a number; rewriting it gives a canonical decimal of the same value and leaves canonical ones alone |
| Printing.LexPrinted | shield/ast/stringify.go:9-51 | the text of every printable tree lexes to the tokens of that tree, whatever delimiter follows |
| Printing.LexWord | shield/internal/lexer/lexer.go:135-141 | a name before a byte that cannot continue it is one IDENT or keyword token |
| Printing.LexNumber | shield/internal/lexer/lexer.go:143-149 | digits before a byte that is no digit are one INT token |
| Printing.LexText | shield/internal/lexer/lexer.go:151-165 | a quoted text without quote and NUL is one STRING token |
| Grammar.StrengthIsPrecedence | shield/internal/parser/parser.go:12-39 | the binary operators of the grammar are the parser's twelve, on the same six levels |
| Grammar.DerivationParses | shield/internal/parser/parser.go:111-131 | on the tokens of any derivation of the grammar, groups, calls and arrays of chains included, with any tokens behind them that do not bind into it, the parser arrives at its loop with the tree of that derivation as the left operand |
| Grammar.ExpressionDerives | shield/internal/parser/parser.go:111-131 | conversely, what an error-free run has consumed is a derivation whose tree it returns, with operators above the precedence it was called with and none left behind that binds tighter |
| Grammar.ParserAcceptsGrammar | shield/shield.go:19-30 | for every byte string and every tree: `Parse` records no error and returns that tree exactly if the tokens start with a derivation of it that nothing behind it binds into |
| Grammar.GrammarIsUnambiguous | shield/internal/parser/parser.go:111-131 | derivations with the same tokens have the same tree |
| RoundTrip.PrintedIsWritten | shield/ast/stringify.go:9-51 | the tokens of a printed tree are a derivation, with parentheses around every operator, whose tree is the printed one |
| RoundTrip.ParsePrinted | shield/internal/parser/parser.go:111-131 | on the tokens of a printed tree, with any tokens behind them and below the precedence of a call, the parser arrives at its loop with that tree as the left operand |
| NormalForm.ParseStringify | shield/ast/stringify.go:9-51 | parsing the text of a printable tree records no error, leaves nothing but the last token, and gives the tree with the parser's own tokens in its nodes |
| Printing.TokenizeWellLexed | shield/internal/lexer/lexer.go:20-116 | every token the lexer makes of any input has a literal that fits its type |
| NormalForm.ParseExpressionDisciplined | shield/internal/parser/parser.go:111-131 | a nil dereference comes only after an error was recorded, and an error-free run gives a complete, printable tree |
| NormalForm.ParseListDisciplined | shield/internal/parser/parser.go:226-248 | the same for lists: no nil list and no nil element without an error |
| NormalForm.AcceptedProgramsAreNormal | shield/shield.go:19-30 | for every byte string: if it is accepted, the tree has no nil child and printing and parsing it again gives the same tree and the same text; if the parser dereferences nil, it had recorded an error |
| NormalForm.CallOnFailedCallPanics | shield/internal/parser/parser.go:214-224 | two opening parentheses behind an operand that is no identifier always end in the nil dereference |
| NormalForm.SyntaxErrorsCanPanic | shield/shield.go:19-30 | a concrete program, `1((`, on which `Parse` panics and does not return the error its documentation promises |
| PanicScan.PanicsExactly | shield/shield.go:19-30 | for every byte string: the parser dereferences nil exactly if one pass over the kinds of the tokens says so, which keeps the open brackets, the precedences of the waiting operators and whether the operand at hand is nil, a name or neither |
| PanicScan.OnlyKindsMatter | shield/shield.go:19-30 | programs whose tokens are of the same kinds panic together, whatever their names, numbers and texts |
| PanicScan.ExpressionScans | shield/internal/parser/parser.go:111-131 | one parse of an expression and the scan of its tokens go on together: at the next token with the same operand, or with the dereference on both sides |
| PanicScan.OperandScans | shield/internal/parser/parser.go:189-212 | the same below an operator, whose right operand may be missing and which leaves no name and no nil |
| PanicScan.ListScans | shield/internal/parser/parser.go:226-248 | the same for elements and arguments, closed or not |
| ParserPanics.TamePrograms | shield/shield.go:19-30 | `Parse` returns, with a tree or with errors, on every program without three patterns: two opening parentheses behind an operand that is no name; two behind a token that stands for an operand and starts none; a parenthesis around such a token with, behind any closing ones, an opening one |
| ParserPanics.ProgramsAreTame | shield/shield.go:19-30 | no derivation of the grammar has one of these patterns, whatever its parentheses, if its calls are of plain names |
| ParserPanics.PrintedProgramsAreTame | shield/ast/stringify.go:9-51 | no printed program has one |
| ParserPanics.CallsOfNoName | shield/internal/parser/parser.go:214-224 | on every program in which an opening parenthesis, and then no binary operator, follows a complete expression that does not end in a name: the parser dereferences nil exactly if a second one follows, and otherwise returns exactly one error |
| ParserPanics.TwoOpenBehindPrinted | shield/internal/parser/parser.go:214-224 | the text of any printable tree but a name, two opening parentheses and any text behind it end in the nil dereference |
| ParserPanics.EmptyParentheses | shield/internal/parser/parser.go:178-187 | on every program that starts with n parentheses around a token that starts no expression, and goes on with no binary operator: the parser dereferences nil exactly if an opening parenthesis follows, and otherwise returns exactly one error |
| ParserPanics.ParseGroupedSurvives | shield/internal/parser/parser.go:178-187 | without the three patterns a group is parsed without a nil dereference, and a nil group has no opening parenthesis behind it |
| PrecedenceGrammar.BuildOfYield | shield/internal/parser/parser.go:25-39 | a derivation, nested by precedence and to the left on each level, is determined by the operands and operators of its chain |
| PrecedenceGrammar.ChainHasOneTree | shield/internal/parser/parser.go:25-39 | every chain of operands and binary operators has exactly one derivation; operands may be groups, calls and arrays of chains |
| PrecedenceGrammar.ChainParsesToItsTree | shield/internal/parser/parser.go:111-131 | every program whose tokens start with a chain and go on with no operator parses, without errors, to the one tree of that chain, however it is spaced |
| Wire.SovIsExact | shield/ast/ast.pb.go:1540-1542 | the size formula is the length of the varint, for every number |
| Wire.VarintLength | shield/ast/ast.pb.go:1540-1542 | a 64-bit number takes one to ten bytes |
| Wire.ReadVarintOfVarint | shield/ast/ast.pb.go:1282-1291 | reading back what was written gives the number and leaves the rest, for every number below 2^64 |
| Wire.VarintMeans | shield/ast/ast.pb.go:1282-1291 | a varint has the bits of its number in groups of seven, the lowest first, the high bit on all bytes but the last, and no superfluous group |
| Wire.ReadVarintMeans | shield/ast/ast.pb.go:1549-1564 | any such bytes, ten at most, are read as their groups modulo 2^64 |
| Wire.UnendedVarint | shield/ast/ast.pb.go:1549-1564 | without a last byte there is an error: overflow from ten bytes on, a missing end before |
| Wire.ConversionsTruncate | shield/ast/ast.pb.go:1565 | conversions to signed 32 and 64 bits take off a multiple of 2^32 or 2^64 |
| Wire.EncodeVarint | shield/ast/ast.pb.go:1282-1291 | the loop writes the varint in front of `offset`, exactly as many bytes as were reserved for it, and touches no other byte |
| Wire.DecodeVarint | shield/ast/ast.pb.go:1549-1564 | the shift loop with its 64-bit accumulator reads in bounds and gives the number, the overflow error or the end-of-input error of the specification |
| Wire.Int32RoundTrip | shield/token/token.pb.go:220-238 | a token type survives the sign extension to 64 bits and the truncation back |
| Skipping.SkipField | shield/ast/ast.pb.go:2932-3009 | the skipping loop, with its 64-bit index that can wrap around, gives the specified length or error on arbitrary bytes, and reads in bounds |
| Skipping.SkipOne | shield/ast/ast.pb.go:2936-3007 | one turn of the loop: the tag, the body and the group depth |
| Skipping.MeasureBody | shield/ast/ast.pb.go:2953-3002 | the length of a field body by wire type, with negative lengths refused |
| Skipping.SkipUnknown | shield/ast/ast.pb.go:2932-3009 | a well-formed field, groups nested to any depth included, is skipped exactly |
| Skipping.SkipExtends | shield/ast/ast.pb.go:2932-3009 | skipping does not look behind the field |
| WireLayout.SkippedSizes | shield/ast/ast.pb.go:2953-3002 | how many bytes an unknown field takes, by the wire type in its tag, and which wire types are refused |
| CodecRoundTrip.KnownTurn | shield/ast/ast.pb.go:1546-1875 | one turn of a decoding loop on an encoded known field stores it and leaves the rest |
| CodecRoundTrip.UnmarshalFields | shield/ast/ast.pb.go:1546-1875 | decoding encoded fields is storing them one after the other |
| CodecRoundTrip.NodeRoundTrip | shield/ast/ast.pb.go:1876-2931 | each of the eight node messages comes back from its bytes |
| CodecRoundTrip.NameBack | shield/ast/ast.pb.go:1876-1990 | an identifier comes back, its token and an empty name included |
| CodecRoundTrip.TokenBack | shield/token/token.pb.go:273-372 | a token comes back, with any 32-bit type |
| CodecRoundTrip.CallRoundTrip | shield/ast/ast.pb.go:2441-2593 | a call comes back, with or without a callee |
| CodecRoundTrip.InfixRoundTrip | shield/ast/ast.pb.go:2594-2780 | an infix expression comes back, nil operands included |
| CodecRoundTrip.ElementsRoundTrip | shield/ast/ast.pb.go:2324-2440 | each element of a list comes back from its own bytes |
| CodecRoundTrip.ListApplied | shield/ast/ast.pb.go:2324-2440 | storing the elements of a list one after the other rebuilds the list in its order |
| CodecRoundTrip.DecodeOfEncode | shield/ast/ast.pb.go:1546-1875 | for every tree without nil list elements, texts of bytes and a size below 2^63, decoding the encoding gives the tree |
| CodecDecoded.UnmarshalWritable | shield/ast/ast.pb.go:1546-1875 | whatever bytes are decoded into it, a message stays one that can be encoded |
| CodecDecoded.DecodeEncodeDecode | shield/ast/ast.pb.go:1546-1875 | what any bytes decode to can be encoded, and, below a size of 2^63, decoding that gives the same tree |
| WireLayout.EncodingIsLaidOut | shield/ast/ast.pb.go:729-1280 | the encoding of every tree, byte by byte, with each tag as the byte the source writes |
| WireLayout.FirstByte | shield/ast/ast.pb.go:729-896 | the first byte of an encoding is 0x0a, 0x12, 0x1a, 0x22, 0x2a, 0x32, 0x3a or 0x42, by what the expression is |
| WireLayout.LayoutDecodes | shield/ast/ast.pb.go:1546-1875 | these bytes decode to the tree |
| WireLayout.LastRecordNames | shield/ast/ast.pb.go:1577-1855 | a record behind one of the eight tag bytes decodes, if at all, to what the byte names, and replaces whatever was decoded before |
| WireLayout.AnyNumberIsTrue | shield/ast/ast.pb.go:2168-2187 | a boolean is true for every number but zero |
| WireLayout.OtherFirstBytes | shield/ast/ast.pb.go:1565-1580 | which error each other tag byte of a known or missing field gives |
| WireLayout.TruncationIsDetected | shield/ast/ast.pb.go:1546-1875 | an encoding that is cut anywhere gives the end-of-input error and no tree |
| CodecNoise.NoiseIsTransparent | shield/ast/ast.pb.go:1856-1869 | unknown fields between complete fields, at any depth and with nested groups, change neither the decoded message nor the error |
| CodecNoise.NoisyRoundTrip | shield/ast/ast.pb.go:1856-1869 | the encoding of a tree with any such noise in it decodes to the tree |
| CodecNoise.UnmarshalConcat | shield/ast/ast.pb.go:1546-1875 | decoding is incremental: the fields of a second message are added to what the first one decoded to |
| CodecMethods.UnmarshalMessage | shield/ast/ast.pb.go:1546-1875 | the index-driven loops decode as specified and end, with every read in bounds, on arbitrary bytes |
| CodecMethods.UnmarshalOne | shield/ast/ast.pb.go:1549-1873 | the body of the loop: tag, end-group and illegal-tag errors, known field or skipping |
| CodecMethods.ReadKnown | shield/ast/ast.pb.go:1578-1612 | wire type check, length and overflow checks of a known field |
| CodecMethods.Store | shield/ast/ast.pb.go:1577-1858 | the switch over the field number: oneofs are replaced, lists grow, other messages are filled in |
| CodecMethods.SizeToken | shield/token/token.pb.go:251-265 | the computed size of a token is the length of its encoding |
| CodecMethods.Size | shield/ast/ast.pb.go:1293-1304 | the computed size of an expression is the length of its encoding |
| CodecMethods.SizeNode | shield/ast/ast.pb.go:1401-1476 | the same for what an oneof holds |
| CodecMethods.SizeCall | shield/ast/ast.pb.go:1477-1497 | the same for calls |
| CodecMethods.SizeInfix | shield/ast/ast.pb.go:1498-1520 | the same for infix expressions |
| CodecMethods.SizePrefix | shield/ast/ast.pb.go:1521-1538 | the same for prefix expressions |
| CodecMethods.MarshalToken | shield/token/token.pb.go:220-238 | a token is written backwards so that the bytes in front of the end are its encoding, and nothing else changes |
| CodecMethods.MarshalExpression | shield/ast/ast.pb.go:712-728 | the same for an expression: the forward concatenation of its fields stands in front of the end |
| CodecMethods.MarshalName | shield/ast/ast.pb.go:912-935 | the same for identifiers |
| CodecMethods.MarshalNode | shield/ast/ast.pb.go:729-896 | the same for the messages an oneof holds |
| CodecMethods.MarshalBoolean | shield/ast/ast.pb.go:992-1018 | the same for booleans, whose false is not written |
| CodecMethods.PutList | shield/ast/ast.pb.go:1081-1093 | list elements are written from the last to the first and end up in order |
| CodecMethods.MarshalCall | shield/ast/ast.pb.go:1122-1164 | the same for calls |
| CodecMethods.MarshalInfix | shield/ast/ast.pb.go:1181-1228 | the same for infix expressions, absent operands left out |
| CodecMethods.MarshalPrefix | shield/ast/ast.pb.go:1245-1280 | the same for prefix expressions |
| CodecMethods.Marshal | shield/ast/ast.pb.go:697-705 | a buffer of exactly the computed size is filled exactly with the encoding |
| CodecMethods.MarshalUnmarshal | shield/ast/ast.pb.go:697-705 | a tree that was written into a buffer and decoded from it is the tree |
| Evaluation.IntegersCompare | shield/internal/evaluator/evaluator.go:137-161 | the six comparisons of integers are those of the numbers |
| Evaluation.IntegersCompute | shield/internal/evaluator/evaluator.go:198-205 | sum, difference, product and negative are those of the numbers |
| Evaluation.StringsCompare | shield/internal/evaluator/evaluator.go:163-195 | for all strings: they are equal as texts, and ordered as the numbers they spell or an Error if one spells none; equality agrees with that of the numbers exactly if the texts are the same or the numbers differ |
| Evaluation.CanonicalTextsCompare | shield/internal/evaluator/evaluator.go:164-171 | on canonical texts equality is that of the numbers |
| Evaluation.LeadingZerosDiffer | shield/internal/evaluator/evaluator.go:163-195 | `007` is not equal to `7`, at most `7` and at least `7` |
| Evaluation.DivisionIsEuclidean | shield/internal/evaluator/evaluator.go:198-209 | division leaves a non-negative remainder whatever the signs, and panics exactly on zero |
| ProgramLaws.LeftComesFirst | shield/internal/evaluator/evaluator.go:105-116 | of an operator the left operand is evaluated first; a panic or an Error of it is the outcome, and then the right one is not evaluated |
| ProgramLaws.Conjunction | shield/internal/evaluator/evaluator.go:122-125 | for all programs: `l && r` is TRUE exactly if both are, and FALSE exactly if both are truth values and one is FALSE |
| ProgramLaws.Disjunction | shield/internal/evaluator/evaluator.go:118-121 | for all programs: `l || r` is FALSE exactly if both are, and TRUE exactly if both are truth values and one is TRUE |
| ProgramLaws.Equality | shield/internal/evaluator/evaluator.go:127-167 | for all programs: `l == r` is TRUE exactly if both evaluate to the same number, truth value or text |
| ProgramLaws.Inequality | shield/internal/evaluator/evaluator.go:132-171 | `!=` is the negation of `==`, and has the same outcome where that is no truth value |
| ProgramLaws.DeMorgan | shield/internal/evaluator/evaluator.go:118-135 | the laws of De Morgan, with equality to FALSE for negation |
| ProgramLaws.SumLaws | shield/internal/evaluator/evaluator.go:198-199 | on programs that give numbers, sums commute and associate |
| ProgramLaws.SubtractionLaws | shield/internal/evaluator/evaluator.go:200-201 | subtraction undoes addition and is the addition of the negative |
| ProgramLaws.ProductLaws | shield/internal/evaluator/evaluator.go:202-203 | products commute, associate and distribute over sums |
| ProgramLaws.Minus | shield/internal/evaluator/evaluator.go:81-103 | minus gives the negative of a number, passes on what stops, and is an Error of the rest |
| ProgramLaws.Names | shield/internal/evaluator/evaluator.go:33-46 | the three builtins have their names in every environment; any other name is looked up |
| ProgramLaws.ElementsEvaluate | shield/internal/evaluator/evaluator.go:59-66 | a list evaluates exactly if every element does, to their objects in order; otherwise the first panic decides |
| ProgramLaws.OnlyBuiltinsAreCalled | shield/internal/evaluator/evaluator.go:68-75 | the call of anything but a builtin is an Error, once its arguments are evaluated |
| ProgramLaws.ArgumentChecks | shield/internal/evaluator/builtins.go:10-84 | when builtins refuse the number of their arguments, and on which arguments `any` and `all` panic; `contains` never does |
| ProgramLaws.IncompleteTrees | shield/internal/evaluator/evaluator.go:12-57 | what trees with a nil, an empty oneof or a bad number evaluate to |
| ProgramTexts.PrintedTextMeans | shield/ast/stringify.go:9-51 | the text of a printable tree parses without errors and evaluates to what the tree evaluates to |
| ProgramTexts.NumberText | shield/internal/parser/parser.go:140-151 | the text of a natural number evaluates to that number |
| ProgramTexts.QuotedText | shield/internal/lexer/lexer.go:151-165 | a text in quotes evaluates to that text |
| ProgramTexts.TruthText | shield/internal/parser/parser.go:153-155 | `true` and `false` evaluate to the truth values |
| ProgramTexts.DecimalPlaces | shield/internal/parser/parser.go:140-151 | one more digit makes the number ten times as large and adds the digit; a minus sign makes it negative |
| ProgramTexts.BinaryTextGives | shield/internal/parser/parser.go:201-212 | the text of two natural numbers with any operator between them evaluates to the operator applied to them in this order |
| ProgramTexts.ArithmeticTexts | shield/internal/evaluator/evaluator.go:137-205 | for instance, to their sum, difference and product, and to how they compare |
| ProgramTexts.TiersInOrder | shield/internal/parser/parser.go:12-39 | the operators from the loosest to the tightest |
| Typing.TypedEvaluation | shield/internal/evaluator/evaluator.go:12-57 | type soundness: a well-typed expression evaluates to an object of its type, an Error only at type Bool, or panics by a division by zero, which needs a division in the expression; the type assertions of `any` and `all` do not fail |
| Typing.InfixOfTyped | shield/internal/evaluator/evaluator.go:105-209 | the typing table has an entry exactly where the operator switch has a case: on objects other than Errors the operator is unknown precisely without an entry, and the result has the tabled type or the divisor is zero |
| Typing.TypedApplication | shield/internal/evaluator/builtins.go:10-86 | a builtin on arguments of the types it wants returns a boolean or an Error and does not panic |
| Quorum.AnyIsQuorum | shield/internal/evaluator/builtins.go:10-35 | with a positive threshold and booleans, `any(k, xs)` is TRUE exactly if at least k elements are true |
| Quorum.AnyBelowOne | shield/internal/evaluator/builtins.go:10-35 | what the loop answers for a threshold of zero and for negative ones |
| Quorum.AnyOfPermutation | shield/internal/evaluator/builtins.go:10-35 | the order of the approvals does not matter |
| Quorum.AnyIsMonotone | shield/internal/evaluator/builtins.go:10-35 | more approvals never turn a quorum down |
| Quorum.AllIsFullQuorum | shield/internal/evaluator/builtins.go:37-57 | on a non-empty list `all(xs)` is `any(|xs|, xs)` |
| Quorum.AllIsAllTrue | shield/internal/evaluator/builtins.go:37-57 | `all` is TRUE exactly if every element is true, on the empty list too |
| Quorum.AllErrorsExactly | shield/internal/evaluator/builtins.go:37-57 | on any list: `all` is TRUE exactly if every element is an approval, FALSE exactly if a refusal has only approvals in front of it, and an Error exactly if a non-boolean has |
| Quorum.AnyErrorsExactly | shield/internal/evaluator/builtins.go:17-31 | on mixed arrays `any` is an Error exactly if its first non-boolean comes before the quorum is reached |
| Quorum.AnyIsTrueExactly | shield/internal/evaluator/builtins.go:17-31 | on any list and for any positive threshold: `any` is TRUE exactly if the quorum is reached before the first non-boolean |
| Quorum.AnyBelowOneExactly | shield/internal/evaluator/builtins.go:17-31 | on any list, what `any` answers for a threshold of zero and for negative ones |
| ProgramLaws.AllByName | shield/internal/evaluator/builtins.go:37-57 | the program `all([..])` is TRUE exactly if every element is |
| ProgramLaws.AnyByName | shield/internal/evaluator/builtins.go:10-35 | the program `any(k, [..])` of votes, with a positive threshold, is TRUE if at least that many are and FALSE otherwise |
| ProgramLaws.ConnectivesAreQuorums | shield/internal/evaluator/builtins.go:10-57 | on truth values `l && r` is `all([l, r])` and `l || r` is `any(1, [l, r])` |
| ProgramLaws.ContainsIsMembership | shield/internal/evaluator/builtins.go:59-104 | `contains` is membership of a number, a truth value or a text, and an Error for any other item |
| ProgramLaws.ContainsByName | shield/internal/evaluator/builtins.go:59-104 | the program `contains(item, [..])` is TRUE exactly if some element evaluates to what the item does |
| HeapEvaluation.CountDown | shield/internal/evaluator/builtins.go:16-33 | the loop over the threshold object gives the answer of the pure loop and leaves in the object what the pure loop has left |
| HeapEvaluation.ApplyAnyInPlace | shield/internal/evaluator/builtins.go:11-34 | `any` on heap objects: argument count, type assertions, answer, and the new value of the threshold |
| HeapEvaluation.ApplyAllOn | shield/internal/evaluator/builtins.go:38-56 | `all` on heap objects gives the pure answer |
| HeapEvaluation.ApplyContainsOn | shield/internal/evaluator/builtins.go:60-86 | `contains` on heap objects gives the pure answer, and TRUE exactly if some element is the item |
| HeapEvaluation.SameObject | shield/internal/evaluator/builtins.go:89-104 | `compare` on heap objects compares their values |
| HeapEvaluation.Combine | shield/internal/evaluator/evaluator.go:105-209 | an infix operator on heap objects gives the pure result, in a new integer |
| HeapEvaluation.Negate | shield/internal/evaluator/evaluator.go:81-103 | the prefix operator on heap objects gives the pure result, in a new integer |
| HeapEvaluation.ResolveIn | shield/internal/evaluator/evaluator.go:33-46 | an identifier gives a builtin or the object of the environment itself, not a copy |
| HeapEvaluation.ApplyIn | shield/internal/evaluator/builtins.go:10-86 | a builtin on heap objects gives the outcome, and leaves the integers of the environment, that the store-passing application says |
| HeapEvaluation.EvaluateAll | shield/internal/evaluator/evaluator.go:59-66 | elements and arguments, evaluated from the left up to the first panic, are those of the store-passing evaluator, and so are the integers left behind |
| HeapEvaluation.EvaluatePrefix | shield/internal/evaluator/evaluator.go:81-103 | the same for prefix operators |
| HeapEvaluation.EvaluateInfix | shield/internal/evaluator/evaluator.go:105-116 | the same for infix operators: the right operand sees what the left one left |
| HeapEvaluation.EvaluateCall | shield/internal/evaluator/evaluator.go:50-53 | the same for calls, which give a boolean or an Error |
| HeapEvaluation.Evaluate | shield/internal/evaluator/evaluator.go:12-57 | for every program in every environment: the outcome, with the identities of the environment's integers in it, and the values left in these integers are those of the store-passing evaluator, and nothing else that existed before is modified |
| StoreEvaluation.SafeEvaluation | shield/internal/evaluator/evaluator.go:12-57 | if no threshold is a bare identifier and the environment has no functions, store-passing evaluation gives the outcome of pure evaluation and leaves the store as it was |
| HeapEvaluation.EvaluateSafely | shield/internal/evaluator/evaluator.go:12-57 | hence in-place evaluation of such programs refines pure evaluation and changes no integer of the environment |
| StoreEvaluation.RemainingExactly | shield/internal/evaluator/builtins.go:16-33 | `any` leaves its threshold alone exactly if it sees no approval before it stops |
| SharedThresholds.RemainingCounts | shield/internal/evaluator/builtins.go:16-33 | what `any` leaves of its threshold, for every threshold and list: nothing if it answers TRUE, else all but the approvals it has seen |
| SharedThresholds.AskTwice | shield/internal/evaluator/builtins.go:16-33 | the same threshold object used for two lists: the first answer is the quorum of the first list, the second one starts from what is left |
| SharedThresholds.SecondAnswerIs | shield/internal/evaluator/builtins.go:16-33 | the second answer, exactly, for every positive threshold and any two lists of booleans: approvals add up until the quorum, and after it only the first element counts, the wrong way round |
| SharedThresholds.SecondAnswerAgrees | shield/internal/evaluator/builtins.go:16-33 | when the second answer is the quorum of the second list, exactly |
| SharedThresholds.SharedThresholdProgram | shield/internal/evaluator/evaluator.go:105-129 | the program `any(k, xs) op any(k, ys)`, for any votes and operator: evaluation combines the first quorum with the second answer and leaves in `k` what both have left, where pure evaluation combines the two quorums |
| SharedThresholds.ConjunctionDiffers | shield/internal/evaluator/evaluator.go:122-125 | with `&&` the two evaluations of that program differ exactly if the first quorum is reached, and the second list reaches it with an approval in front or misses it with a refusal in front |
| SharedThresholds.DisjunctionDiffers | shield/internal/evaluator/evaluator.go:118-121 | with `||` they differ exactly if neither list reaches the quorum and both together do |
| Expanding.NodesAreIdentifiers | shield/internal/metadata/metadata.go:32-51 | the identifiers that preprocessing expands are those the metadata list, in order |
| Expanding.FailsExactly | shield/internal/preprocess/preprocess.go:9-60 | preprocessing fails exactly if the expansion of an identifier of the program fails |
| Expanding.EvalOfPreprocess | shield/internal/preprocess/preprocess.go:9-60 | expansion preserves meaning: evaluating the expanded program gives the outcome, Errors and panics included, of evaluating the program with each identifier meaning what its expansion evaluates to |
| Expanding.EvalOfElements | shield/internal/preprocess/preprocess.go:26-35 | the same for elements and arguments |
| Expanding.MetadataOfPreprocess | shield/internal/preprocess/preprocess.go:9-60 | the identifiers of the expanded program are those of the expansions, in order; its functions are those of the program and of the expansions, counted |
| Expanding.ExpandedUpToError | shield/internal/preprocess/preprocess.go:26-56 | with or without an error: the identifiers of the new tree are those of the expansions up to the first error, and the old ones behind it |
| ExpandingInPlace.PreprocessNode | shield/internal/preprocess/preprocess.go:9-24 | on the tree itself: the returned tree and the error are the specified ones, the parts after an error stay as they were, and only nodes of this tree are modified |
| ExpandingInPlace.PreprocessPart | shield/internal/preprocess/preprocess.go:37-56 | one link is overwritten with what its target expands to, nil on an error without an expression, and the rest of the node stays |
| ExpandingInPlace.PreprocessNodes | shield/internal/preprocess/preprocess.go:26-35 | the loop over elements or arguments rewrites them up to the first error |
| ExpandingInPlace.Build | shield/ast/expander.go:9-18 | an expander's tree: new nodes, separate from every other tree |
| ProgramMetadata.Metadata.AddIdentifier | shield/internal/metadata/metadata.go:17-19 | appends to the identifiers and leaves the functions |
| ProgramMetadata.Metadata.AddFunction | shield/internal/metadata/metadata.go:21-23 | appends to the functions and leaves the identifiers |
| ProgramMetadata.Metadata.ProcessNode | shield/internal/metadata/metadata.go:32-51 | the traversal appends the names of the tree, in order, to what was there |
| ProgramMetadata.ExtractMetadata | shield/internal/metadata/metadata.go:26-30 | the metadata are the names of the tree in order of appearance |
| ProgramMetadata.AgreeingEnvironments | shield/internal/metadata/metadata.go:26-51 | the metadata are complete: environments that agree on these names give the same outcome |
| ProgramMetadata.AskedNamesAreMetadata | shield/internal/evaluator/evaluator.go:33-54 | evaluation asks the environment for no other name: one that panics on all others makes no difference |
| ProgramMetadata.BoundNamesAreFound | shield/internal/evaluator/evaluator.go:38-46 | if all these names are builtins or bound, the not-found and the nil-environment branches are not taken |
| ProgramTexts.NamesOfDerivation | shield/internal/metadata/metadata.go:32-51 | the metadata of a program with plain calls are the names among its tokens, each as often as it stands there and in that order; those in front of a parenthesis are the functions |
| ProgramTexts.MetadataOfText | shield/internal/metadata/metadata.go:26-51 | so they can be read off the text of an accepted program |
| Batching.StepConserves | keychain-sdk/internal/writer/writer.go:158-177 | every step of `Append` and `Clear` keeps the items in order, the batches within the capacity, and enough items in the channel for the `Clear` under way |
| Batching.RunConserves | keychain-sdk/internal/writer/writer.go:148-177 | over every interleaving: the cleared batches, what is being taken and the channel are together the appended items in order |
| Batching.ClearNeverBlocks | keychain-sdk/internal/writer/writer.go:167-177 | a `Clear` that holds the mutex always finds the items it still wants |
| Batching.Channel.Append | keychain-sdk/internal/writer/writer.go:158-161 | an attempt to send is the `Append` step: the item goes to the end and the count is the new length, or the channel is full, the call waits and nothing has changed |
| Batching.Channel.Clear | keychain-sdk/internal/writer/writer.go:167-177 | a `Clear` that nobody interrupts is a lock, one take per item and an unlock, and gives all items in order |
| Keychain.Tracker.IsNew | keychain-sdk/internal/tracker/tracker.go:18-23 | new exactly if the request is not in the tracker |
| Keychain.Tracker.Ingested | keychain-sdk/internal/tracker/tracker.go:25-29 | adds exactly this request |
| Keychain.Tracker.Done | keychain-sdk/internal/tracker/tracker.go:31-35 | removes exactly this request |
| KeychainSafety.TrackingOfIngest | keychain-sdk/key_requests.go:59-81 | polling, checking and marking keep the tracker exact; marking adds the checked request, which was not in it |
| KeychainSafety.TrackingOfHandOff | keychain-sdk/keychain.go:92-97 | handing off the marked request starts one handler, for it, and keeps the tracker exact |
| KeychainSafety.TrackingOfComplete | keychain-sdk/key_requests.go:96-98 | `onComplete` removes its handler's request from the tracker, which was in it and has no open handler left |
| KeychainSafety.StepTracks | keychain-sdk/sign_requests.go:71-130 | every step of every goroutine keeps the tracker exact and one open handler per request |
| KeychainSafety.DeliveryOfAppend | keychain-sdk/internal/writer/writer.go:74-84 | the item of the writer, which had none on the way, goes behind all others |
| KeychainSafety.DeliveryOfError | keychain-sdk/internal/writer/writer.go:118-123 | delivering an error answers the writer of the first item on the way, which was receiving, with that error, takes the item off and moves no other handler |
| KeychainSafety.DeliveryOfNil | keychain-sdk/internal/writer/writer.go:107-111 | closing a channel after a success takes the first item off the way, and exactly its writer's receive returns nil from then on that did not before |
| KeychainSafety.DeliveryOfClose | keychain-sdk/internal/writer/writer.go:107-111 | closing after a failure takes nothing off the way and makes no receive return nil that did not before |
| KeychainSafety.StepDelivers | keychain-sdk/internal/writer/writer.go:74-126 | every step of every goroutine keeps items, waiting writers, closed channels and results consistent |
| KeychainSafety.ReachableIsSafe | keychain-sdk/keychain.go:64-100 | all of this holds in every state that any interleaving reaches |
| Delivery.AtMostOneLiveHandler | keychain-sdk/key_requests.go:83-110 | no request has two live handlers |
| Delivery.TrackerIsExact | keychain-sdk/internal/tracker/tracker.go:18-35 | the trackers hold exactly the requests that were ingested and not completed |
| Delivery.NoDuplicateMessages | keychain-sdk/internal/writer/writer.go:74-126 | the channel, the batch being cleared and the batch being sent never hold two messages for one request |
| Delivery.WriteGetsItsOutcome | keychain-sdk/internal/writer/writer.go:74-126 | a `Write` that returned has the result of the one flush that contained its item, after that flush was sent |
| RunOutcomes.FlushesRecordWhatWasSent | keychain-sdk/internal/writer/writer.go:100-126 | over every run: the results of the flushes with something to send are the results that sending gave, in order |
| RunOutcomes.ReturnedResultWasSent | keychain-sdk/internal/writer/writer.go:74-126 | a `Write` that returned has the result that sending gave, in the run, for the batch with its message, and that message is the one response of its handler to its request |
| RunOutcomes.ItemsAreResponses | keychain-sdk/key_requests.go:20-57 | every message carries the one response that its handler gave in the run, and the request that the handler was started for |
| RunOutcomes.FlushedChannelsAreClosed | keychain-sdk/internal/writer/writer.go:107-111 | after a flush, whatever its result, the channels of all its items are closed |
| RunOutcomes.NoRequestIsPassedOver | keychain-sdk/key_requests.go:59-81 | every request that a poll reported has been tracked by the time the ingester polls again |
| RunOutcomes.HandlersAreReported | keychain-sdk/key_requests.go:59-81 | handlers are started for reported requests only |
| RunOutcomes.NoFunctionNoMessage | keychain-sdk/key_requests.go:83-88 | for a kind of request without a handler function no message is ever written |
| Delivery.NoCompletionIsLost | keychain-sdk/internal/writer/writer.go:100-126 | a `Write` under way has its item in the queue or with the flusher, or its batch was sent and its channel is closed |
| Delivery.FlusherNeverStuck | keychain-sdk/internal/writer/writer.go:100-126 | the flusher always has a step to take, or one after the next step of the writer it has an error for |
| Delivery.NothingLeftWaiting | keychain-sdk/internal/writer/writer.go:74-84 | when nothing is queued or being flushed, every `Write` under way can go on to return |
| Delivery.FlushesKeepOrder | keychain-sdk/internal/writer/writer.go:148-177 | the flushed batches followed by the queue are the written items in order, and every batch fits the channel |
| Delivery.NoCapacityNoReturn | keychain-sdk/internal/writer/writer.go:38-52 | with a batch size of zero no `Write` ever returns |
| Delivery.SecondResponseDuplicates | keychain-sdk/key_requests.go:99-108 | why handlers must respond once: from every state in which a completed request can be ingested again, a second response of its handler, whatever it is, leads to two messages for that request in the batch |

## Left out

- gRPC clients, transaction building and signing, connections and configuration: input and output.
- The second, reflection-based copy of the codec under `api/`, and the generated getters and descriptors.
- Key derivation, encryption and address encoding. Encrypting a signature either works or the handler may go on.
- Error texts: errors are told apart by kind, and their order is kept.
- ParserPanics.TamePrograms: a pattern that can be searched for, and goes one way; `PanicScan.PanicsExactly` is exact. The
  pattern alone is exact behind a complete expression that does not end in a name (`CallsOfNoName`) and for parentheses
  around a token that starts no expression (`EmptyParentheses`). Names called in parentheses, as in `(f)((1))`, are
  derivations with it, and `ProgramsAreTame` leaves them out.
- NormalForm.ParseStringify: about printable trees, that is, names that lex as one IDENT, canonical numbers, strings
  without quote and NUL, the parser's operators and no nil; other trees have texts that mean something else.
- A oneof wrapper around a nil message, which no parser or decoder makes: such an expression is not a value of the model.
- CodecRoundTrip.DecodeOfEncode: asks for no nil list element, on which the generated code panics, and for a size below 2^63.
- Expanding.EvalOfPreprocess: asks that calls name builtins, that no builtin name is a plain identifier and that the
  expander looks at names only; expansion does not rewrite function names, it does rewrite plain identifiers that
  evaluation would take for builtins, and environments know nothing but names.
- SharedThresholds.SharedThresholdProgram: about thresholds of at least one and lists of boolean literals and names of
  booleans; for every other program `HeapEvaluation.Evaluate` says what evaluation does.
- ExpandingInPlace.PreprocessNode: a node and the struct its oneof points to are one object.
- ExpandingInPlace.Build: an expander's tree is always new; the interface would let it hand out nodes of the tree or of
  an earlier expansion, and what sharing them does is not modelled.
- ProgramMetadata.Metadata.ProcessNode: asks for a tree without nil, on which the source panics.
- Handlers that respond twice or panic after their response, but for `Delivery.SecondResponseDuplicates`.
- Batching.Channel.Clear: without other goroutines; interleavings are in the state machine of steps.
- Shutdown through the context, real time, and fairness of scheduling: what is proved of progress is that a step exists.
- Errors of a flush that are reported to the dispatcher: it only logs them.
