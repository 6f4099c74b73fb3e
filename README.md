# TextLexer in Dafny

A model of the two programs of TextLexer, a teaching compiler front end for
a small imperative language with `int`, `float` and `bool` declarations,
assignments, `if`, `while`, `for`, `read` and `write`:

- **the lexer** (text_lexer.cpp). A `Lexer` object walks an immutable source
  string with a cursor (`pos`, `line`, `column`). It skips blanks, `#` and
  `//` line comments and `/* */` block comments. It then recognises
  identifiers and keywords, integer and floating literals, operators, bit
  operators and separators, and error tokens with a message. The driver
  writes every token as a record `(code, "lexeme", line, column)`.
- **the parser** (parse.cpp). `readTokens` turns the lines of a token file
  into `(type, value)` tokens. A `Parser` object walks that vector with a
  cursor `current` and builds a syntax tree:
  - declarations are parsed by recursive descent;
  - expressions use operator precedence with an operand stack and an
    operator stack;
  - a syntax error prints a message and exits.

  `printTree` / `nodeTypeToString` dump the tree, one indented line per node.

Every stateful piece keeps its form:

- `TextLexer.Lexer` and `Parse.Parser` are classes with the source's fields.
- Their methods are loops over that state.
- Each method is proved to compute a pure specification function:
  - `LexSpec` for the lexer;
  - `ParseSpec` for the parser;
  - the same token or tree, the same final cursor, the same error.
- What the source promises is proved about those functions in `LexProps`
  and `ParseProps`.
- `TokenCodec` models the token file; `TreePrint` models the tree dump.

The model follows what the code does where that differs from what its own
messages and comments say it expects. Examples are the message
`Expected ')' after condition` (parse.cpp:483), the `(TYPE, VALUE)` record
layout named at parse.cpp:806, and the four-field record named at
text_lexer.cpp:330. The notable cases:

- The parser's `if` and `while` statements can never be accepted. The
  condition is parsed by the expression parser, which stops only at `;`,
  `,`, `then`, `do`, `else`, `{` or the end, never at the `)` that is
  required next. (`IfNeverParses`, `WhileNeverParses`.)
- The update clause of `for` is accepted only in the `id++` / `id--` form,
  for the same reason. (`ForUpdateShape`.)
- An assignment as the initializer of `for` needs two `;`: its own and the
  one `for` consumes. (`ForInitAssign`.)
- The comparison branch of `parseBoolExpr` is unreachable: the comparison
  operators are already binary operators of the expression parser.
  (`BoolExprIsArithmetic`.)
- A `-` with no operand before it becomes `neg`, which is reduced as a
  binary operator and has precedence 0, because the table has no entry for
  it. So `- 1 ;` is refused while `- 1 2 ;` is accepted. (`NegIsBinary`.)
- `readTokens` reads the two-field layout `(type, value)`. The lexer
  writes four fields and numbers its error kind 8, so its records do not
  round-trip: the value read is the quoted lexeme together with the line
  and column, and bit operators become error tokens. (`RecordsDoNotRoundTrip`.)
- An illegal character produces an error token at line 0, column 0, not at
  the character's position. (`IllegalCharacter`.)

## Model

| member | source | states |
|---|---|---|
| Chars.NatToString | text_lexer.cpp:163 | the decimal digits of a natural number, non-empty and without a leading zero |
| Chars.IntToString | text_lexer.cpp:163 | `to_string` of an integer is non-empty and made of digits and `-` |
| Chars.RemoveSpaces | parse.cpp:815 | erasing `isspace` characters leaves no white space, never lengthens, and keeps a space-free string unchanged |
| LexSpec.RunEnd | text_lexer.cpp:198-199 | a `while (class(peek())) advance()` loop stops at the end of the maximal run of its class starting at the cursor |
| LexSpec.BlockCommentEnd | text_lexer.cpp:137-142 | the body of a block comment ends just after the first `*/`, or at a NUL with the comment open, and nothing before that point closes it |
| LexSpec.SkipWs | text_lexer.cpp:124-153 | `skipWhitespace` stops at a position where nothing more is skipped: NUL, or a character that is neither blank nor the start of a comment |
| LexSpec.MakeError | text_lexer.cpp:161-164 | an error token carries the message followed by its position, so its value is longer than the message |
| LexSpec.Fraction | text_lexer.cpp:202-226 | the fraction part always records the decimal point and ends inside the text |
| LexSpec.NumberBody | text_lexer.cpp:197-226 | the number body covers at least the integer digit run |
| LexSpec.NumberScan | text_lexer.cpp:197-234 | `recognizeNumber` consumes from the start of the number up to at most the end of the text |
| LexSpec.RecognizeOpOrSep | text_lexer.cpp:245-268 | one or two characters are consumed; an operator token is in the operator table, a bit-operator token is only in the bit-operator table, a separator token is a one-character separator, and the end sentinel is never produced |
| LexSpec.Scan | text_lexer.cpp:274-300 | `getNextToken` yields the end sentinel exactly when the lookahead after skipping is NUL, and otherwise consumes at least one character |
| LexSpec.Next | text_lexer.cpp:110-119 | no contract; `LexProps.TrackWithoutNewline` and `LexProps.TrackAfterNewline` state its effect: a newline moves to column 1 of the next line, any other character one column right |
| LexSpec.Track | text_lexer.cpp:108-121 | no contract; `LexProps.TrackWithoutNewline` states that a stretch without newline keeps the line and adds its length to the column, `LexProps.TrackAfterNewline` that a newline resets the column to 1 and adds one line |
| LexSpec.At | text_lexer.cpp:102-105 | no contract; `TextLexer.Lexer.Peek` reads it and `TextLexer.Lexer.Advance` ensures the character returned is `At` of the old cursor: the character there, NUL past the end |
| LexSpec.MakeToken | text_lexer.cpp:156-159 | no contract; `LexProps.LexemeWithoutNewline` and `LexProps.TokenStartsWhereLexemeStarts` state that the column it computes is that of the lexeme's first character |
| LexSpec.WordKind | text_lexer.cpp:182-186 | no contract; `LexProps.WordClassification` states that a word is a boolean exactly when it is `true` or `false`, a keyword exactly when it is one of the nine keywords, and an identifier otherwise |
| LexSpec.RecognizeWord | text_lexer.cpp:167-187 | no contract; `LexProps.WordClassification` states that it takes the maximal run of letters, digits and `_` and classifies it; `LexProps.DigitLedWordUnreachable` that its digit-led branch is never reached from `getNextToken` |
| LexSpec.RecognizeNumber | text_lexer.cpp:190-242 | no contract; `LexProps.IntegerLiteral`, `LexProps.FloatLiteral` and `LexProps.MalformedNumber` state which texts become integer, float and error tokens and how far each reaches |
| LexSpec.LexFrom | text_lexer.cpp:324-333 | no contract; `TextLexer.Lexer.Tokenize` ensures the driver loop computes it, `LexProps.LexedTokensAreNotEnd` that none of its tokens is the end sentinel, `LexProps.LexFromLength` that it has at most one token per character |
| TextLexer.Lexer.constructor | text_lexer.cpp:96-99 | a new lexer is at position 0, line 1, column 1 over the given source |
| TextLexer.Lexer.Peek | text_lexer.cpp:102-105 | no contract; it is `LexSpec.At` of the cursor, which `TextLexer.Lexer.Advance` ensures is the character returned |
| TextLexer.Lexer.Advance | text_lexer.cpp:108-121 | `advance` returns the character under the cursor (NUL past the end), moves only while text is left, and goes to column 1 of the next line on a newline |
| TextLexer.Lexer.AdvanceWhile | text_lexer.cpp:198-199 | a run loop consumes exactly the maximal run, returns its text and tracks line and column over it |
| TextLexer.Lexer.SkipCommentBody | text_lexer.cpp:137-142 | the inner loop of a block comment stops before the first `*/` or at NUL, as `BlockCommentEnd` says |
| TextLexer.Lexer.SkipBlockComment | text_lexer.cpp:133-145 | the block-comment branch consumes `/*`, the body and, when it is closed, `*/` |
| TextLexer.Lexer.SkipWhitespace | text_lexer.cpp:124-153 | `skipWhitespace` leaves the cursor at `SkipWs` of where it started, with line and column tracked over the skipped text |
| TextLexer.Lexer.RecognizeIdOrKeyword | text_lexer.cpp:167-187 | `recognizeIdOrKeyword` returns the token, end and position of `RecognizeWord` |
| TextLexer.Lexer.ReadFraction | text_lexer.cpp:202-226 | the fraction loop consumes what `Fraction` says and flags the same malformations |
| TextLexer.Lexer.ReadNumberBody | text_lexer.cpp:197-226 | the integer and fraction loops consume what `NumberBody` says |
| TextLexer.Lexer.RecognizeNumber | text_lexer.cpp:190-242 | `recognizeNumber` returns the token, end and position of `LexSpec.RecognizeNumber` |
| TextLexer.Lexer.RecognizeOpOrSep | text_lexer.cpp:245-268 | `recognizeOpOrSep` returns the token, end and position of `LexSpec.RecognizeOpOrSep` |
| TextLexer.Lexer.GetNextToken | text_lexer.cpp:274-300 | `getNextToken` returns the token, end and position of `Scan` |
| TextLexer.Lexer.Tokenize | text_lexer.cpp:324-333 | the driver loop collects exactly `LexFrom` of the source, and no collected token is the end sentinel |
| LexProps.LexedTokensAreNotEnd | text_lexer.cpp:324-328 | no token the driver collects is the end sentinel: every real error carries a message |
| LexProps.LexFromLength | text_lexer.cpp:324-333 | the driver loop yields at most one token per character, so it terminates |
| LexProps.TrackWithoutNewline | text_lexer.cpp:108-121 | over text without a newline the line stays and the column grows by the text's length |
| LexProps.TrackAfterNewline | text_lexer.cpp:111-115 | after a newline the column is 1 and the line one more, whatever came before |
| LexProps.TokenStartsWhereLexemeStarts | text_lexer.cpp:156-159 | every non-error token's value is its lexeme, and its line and column are those of the lexeme's first character |
| LexProps.LexemeWithoutNewline | text_lexer.cpp:156-159 | `makeToken` at the end of a lexeme without a newline gets the lexeme's starting line and column |
| LexProps.NumberWithoutNewline | text_lexer.cpp:190-242 | a well-formed number contains no newline and is made by `makeToken` from its own text |
| LexProps.OpWithoutNewline | text_lexer.cpp:245-268 | an operator or separator lexeme contains no newline and is made by `makeToken` from its own text |
| LexProps.SkipIsIdempotent | text_lexer.cpp:124-153 | skipping again where skipping stopped skips nothing |
| LexProps.LeadingBlanksDoNotMatter | text_lexer.cpp:146-149 | scanning after some blanks, from the position they lead to, gives the same token, end and position as scanning before them |
| LexProps.BlanksSkipped | text_lexer.cpp:146-149 | skipping from before a run of blanks stops where skipping from after it stops |
| LexProps.SkippedTextDoesNotMatter | text_lexer.cpp:124-153 | text that skipping passes over anyway, blanks or comments, changes no token: the driver started after it, at the position it leads to, collects the same tokens as started before it |
| LexProps.BlanksBeforeTokens | text_lexer.cpp:146-149 | blanks before the next token change none of the tokens the driver collects |
| LexProps.LineCommentStopsAtNewline | text_lexer.cpp:128-132 | a `#` or `//` comment runs to the next newline or the end, not past it, and skipping resumes there |
| LexProps.UnclosedBlockCommentEndsInput | text_lexer.cpp:137-140 | an unclosed block comment silently ends the input: no token, not even an error, follows it |
| LexProps.UnclosedRunsToEnd | text_lexer.cpp:137-140 | the body of an unclosed comment runs to the end of the text |
| LexProps.BodyEndsAtFirstClose | text_lexer.cpp:137-144 | block comments do not nest: the body ends at the first `*/` |
| LexProps.WordClassification | text_lexer.cpp:179-186 | a word is the maximal letter, digit and `_` run; it is a boolean literal exactly for `true`/`false`, a keyword exactly for the other table words, else an identifier |
| LexProps.ScanAtWord | text_lexer.cpp:279-282 | a letter or `_` after the skipped text is handed to `recognizeIdOrKeyword` |
| LexProps.DigitLedWordUnreachable | text_lexer.cpp:283-286 | a digit goes to `recognizeNumber`, so the digit-led branch of `recognizeIdOrKeyword` is never taken |
| LexProps.IntegerLiteral | text_lexer.cpp:198-199 | a digit run followed by neither `.`, a letter nor `_` is an integer token of exactly those digits |
| LexProps.FloatLiteral | text_lexer.cpp:202-216 | `digits.digits` followed by neither `.`, a letter nor `_` is a float token of exactly that text |
| LexProps.MalformedNumber | text_lexer.cpp:202-241 | a number is an error exactly when the fraction is missing, a second decimal point follows, or a letter or `_` follows; the error covers the whole consumed text |
| LexProps.SingleToken | text_lexer.cpp:324-333 | a text whose first token is followed only by blanks and comments lexes to that one token |
| LexProps.NumberWithLetters | text_lexer.cpp:229-239 | `12abc` lexes to one malformed-number error |
| LexProps.NumberWithTwoPoints | text_lexer.cpp:219-239 | `1.2.3` lexes to one malformed-number error |
| LexProps.NumberWithoutFraction | text_lexer.cpp:208-239 | `3.` lexes to one malformed-number error |
| LexProps.TwoCharacterOperatorFirst | text_lexer.cpp:252-257 | a two-character entry of the operator or bit-operator table is taken whole, as an operator when the operator table lists it |
| LexProps.OneCharacterFallback | text_lexer.cpp:260-267 | otherwise one character is taken and classified as operator, then bit operator, then separator, in that order |
| LexProps.TwoCharacterOperatorExamples | text_lexer.cpp:252-257 | `<<` is a bit operator and `&&` an operator |
| LexProps.OneCharacterOperatorExamples | text_lexer.cpp:260-263 | a lone `&` or `\|` is an operator although the bit-operator table also lists it |
| LexProps.OpOrSepFromScanIsClassified | text_lexer.cpp:287-290 | from `getNextToken`, `recognizeOpOrSep` always yields an operator, bit operator or separator and never the `[]` separator |
| LexProps.IllegalCharacter | text_lexer.cpp:295-299 | a character in no table is one illegal-character error token at line 0, column 0, and is skipped |
| LexProps.TildeIsIllegal | text_lexer.cpp:287-299 | `~` is an illegal character although the bit-operator table lists it |
| ParseSpec.Advance | parse.cpp:152-157 | `advance` moves exactly when not at the end |
| ParseSpec.Peek | parse.cpp:126-133 | no contract; `ParseSpec.Consume` states that a consume succeeds exactly when the token it looks at has the wanted kind, and `ParseSpec.ConsumeValue` that a failure reports that token's value |
| ParseSpec.Previous | parse.cpp:136-143 | no contract; `Parse.Parser.Advance` ensures `advance` returns it after moving |
| ParseSpec.IsAtEnd | parse.cpp:146-149 | no contract; `ParseSpec.Advance` states that the cursor stays exactly when it holds |
| ParseSpec.Check | parse.cpp:160-165 | no contract; `ParseSpec.Consume` states that a consume succeeds exactly when it holds |
| ParseSpec.CheckValue | parse.cpp:168-173 | no contract; `ParseSpec.ConsumeValue` states that a consume succeeds exactly when it holds, and then on a token of that kind and value |
| ParseSpec.CheckText | parse.cpp:176-181 | no contract; `ParseSpec.ConsumeText` states that a consume succeeds exactly when it holds |
| ParseSpec.ErrorAt | parse.cpp:217-221 | no contract; `ParseSpec.ConsumeValue` states that its error names the value of the token under the cursor |
| ParseSpec.Consume | parse.cpp:224-232 | `consume(type)` succeeds exactly when the lookahead has that type, and then moves one token |
| ParseSpec.ConsumeValue | parse.cpp:235-243 | `consume(type, value)` succeeds exactly on that token, and otherwise reports the actual token |
| ParseSpec.ConsumeText | parse.cpp:246-254 | `consume(value)` succeeds exactly on a token with that value |
| ParseSpec.ProcessOp | parse.cpp:274-301 | `processOp` pops exactly the top operator |
| ParseSpec.Prec | parse.cpp:267-272 | no contract; `ParseProps.TwoBinaryOperators` states that the operator with the higher precedence is reduced first and equal precedences associate to the left; `ParseProps.ProductBindsTighter` and `ParseProps.SubtractionIsLeftAssociative` are instances |
| ParseSpec.IsUnary | parse.cpp:281-297 | no contract; `ParseProps.ProcessOpReduces` states that `processOp` takes one operand for `!`, `++` and `--` and two for every other operator, `neg` included |
| ParseSpec.CloseParen | parse.cpp:309-315 | no contract; `ParseProps.CloseParenPopsToParen` states that it pops the operators above the nearest `(` and that `(`, and fails when none is stacked |
| ParseSpec.ReduceWhile | parse.cpp:325-328 | no contract; `ParseProps.ReduceWhileStops` states that exactly the operators above the nearest `(` binding at least as tightly are reduced |
| ParseSpec.Drain | parse.cpp:349-354 | no contract; `ParseProps.DrainEmpties` states that it empties the operator stack and fails on a `(` left on it |
| ParseSpec.ExprStops | parse.cpp:303-305 | no contract; `ParseProps.ExprLoopStops` states that the expression loop ends only where it holds, and `ParseProps.StopIsNoComparison` that it never holds at a comparison operator or a `)` |
| ParseSpec.Incoming | parse.cpp:317-323 | no contract; `ParseProps.OperatorStep` states that an operator token is pushed as it says, `ParseProps.NegIsBinary` that a `neg` made at the start takes two operands, `ParseProps.ParenthesesGroupFirst` that a `-` right after `(` becomes `neg` |
| ParseSpec.OperandKind | parse.cpp:333-343 | no contract; `ParseProps.OperandStep` states that an operand token pushes its leaf, `ParseProps.NotAnOperand` that any other token is an error |
| ParseSpec.ExprLoop | parse.cpp:303-346 | the main expression loop only moves forward, and leaves the stacks alone when it consumes nothing |
| ParseSpec.ParseArithmeticExpr | parse.cpp:256-366 | an accepted expression consumes at least one token |
| ParseSpec.ParseBoolExpr | parse.cpp:369-391 | an accepted condition consumes at least one token |
| ParseSpec.AtComparison | parse.cpp:377-379 | no contract; `ParseProps.StopIsNoComparison` states that it never holds where the arithmetic parser stops, so the comparison branch is dead |
| ParseSpec.TypeKeyword | parse.cpp:84-92 | the type found is `int`, `float` or `bool` and is the keyword under the cursor, or nothing |
| ParseSpec.Initializer | parse.cpp:104-107 | the optional initializer only moves forward |
| ParseSpec.Declarator | parse.cpp:99-107 | a declarator consumes at least its name |
| ParseSpec.Declarators | parse.cpp:98-108 | the declarator loop consumes at least one token |
| ParseSpec.MoreDeclarators | parse.cpp:108 | the `,` test only moves forward |
| ParseSpec.DeclaratorsEndAtSemicolon | parse.cpp:413 | in `parseDecls` a `;` where a name is expected ends the list and is consumed |
| ParseSpec.ParseDecl | parse.cpp:80-112 | a declaration consumes at least one token |
| ParseSpec.DeclsLoop | parse.cpp:397-429 | the `parseDecls` loop stops where no type keyword follows |
| ParseSpec.ParseDecls | parse.cpp:394-431 | `parseDecls` stops where no type keyword follows |
| ParseSpec.ParseAssign | parse.cpp:434-472 | an assignment consumes at least one token |
| ParseSpec.AssignOperator | parse.cpp:438-466 | the operator part consumes at least the operator |
| ParseSpec.RhsLooksBoolean | parse.cpp:457-461 | no contract; `ParseProps.BoolExprIsArithmetic` states that the two parsers it chooses between give the same result |
| ParseSpec.IdList | parse.cpp:604-608 | an identifier list consumes at least one token |
| ParseSpec.ParseRead | parse.cpp:597-613 | a `read` statement consumes at least one token |
| ParseSpec.ParseWrite | parse.cpp:616-636 | a `write` statement consumes at least one token |
| ParseSpec.WriteArgs | parse.cpp:622-632 | the arguments of `write` consume at least one token |
| ParseSpec.ForInit | parse.cpp:546-562 | the `for` initializer consumes at least one token |
| ParseSpec.IfHeader | parse.cpp:477-486 | the `if` head consumes at least one token |
| ParseSpec.ThenBranch | parse.cpp:489-499 | the then-branch consumes at least one token |
| ParseSpec.ParseIf | parse.cpp:475-513 | an `if` statement consumes at least one token |
| ParseSpec.ElseBranch | parse.cpp:506-511 | the optional else-branch only moves forward |
| ParseSpec.ParseWhile | parse.cpp:516-535 | a `while` statement consumes at least one token |
| ParseSpec.ForHeader | parse.cpp:540-581 | the `for` header consumes at least one token |
| ParseSpec.ForRest | parse.cpp:566-581 | the condition and update clauses consume at least one token |
| ParseSpec.ForCond | parse.cpp:566-571 | the condition clause consumes at least its `;` |
| ParseSpec.ForUpdate | parse.cpp:575-581 | the update clause consumes at least its `)` |
| ParseSpec.ParseFor | parse.cpp:538-594 | a `for` statement consumes at least one token |
| ParseSpec.ForBody | parse.cpp:584-591 | the body of `for` consumes at least one token |
| ParseSpec.ParseStmt | parse.cpp:639-661 | a statement consumes at least one token, so the statement loops terminate |
| ParseSpec.StmtList | parse.cpp:668-673 | the statement loop only moves forward |
| ParseSpec.ParseBlock | parse.cpp:663-677 | a block consumes at least one token |
| ParseSpec.ParseStmts | parse.cpp:114-123 | `parseStmts` only moves forward |
| ParseSpec.Parse | parse.cpp:757-768 | `parse` stops inside the vector |
| Parse.CloseParenthesis | parse.cpp:309-315 | the `)` loop computes `CloseParen` |
| Parse.ReduceBefore | parse.cpp:325-328 | the loop before pushing an operator computes `ReduceWhile` |
| Parse.ReduceAll | parse.cpp:349-354 | the drain loop computes `Drain` |
| Parse.Parser.constructor | parse.cpp:754 | a new parser is at token 0 of the given vector |
| Parse.Parser.Advance | parse.cpp:152-157 | `advance` moves as `ParseSpec.Advance` says and returns `previous()` |
| Parse.Parser.MatchKind | parse.cpp:184-192 | `match(type)` succeeds and moves one token exactly when `check(type)` holds |
| Parse.Parser.Match | parse.cpp:195-203 | `match(type, value)` succeeds and moves one token exactly when `check(type, value)` holds |
| Parse.Parser.Consume | parse.cpp:224-232 | `consume(type)` moves or fails as `ParseSpec.Consume` says |
| Parse.Parser.ConsumeValue | parse.cpp:235-243 | `consume(type, value)` moves or fails as `ParseSpec.ConsumeValue` says |
| Parse.Parser.ParseArithmeticExpr | parse.cpp:256-366 | `parseArithmeticExpr` returns the tree, cursor or error of `ParseSpec.ParseArithmeticExpr` |
| Parse.Parser.ExpressionLoop | parse.cpp:303-346 | the main loop with its two stacks computes `ExprLoop` from empty stacks |
| Parse.Parser.ParseBoolExpr | parse.cpp:369-391 | `parseBoolExpr` returns what `ParseSpec.ParseBoolExpr` says |
| Parse.Parser.ParseDecl | parse.cpp:80-112 | `parseDecl` (and the `parseDecls` loop body) returns what `ParseSpec.ParseDecl` says |
| Parse.Parser.ParseDeclarators | parse.cpp:98-108 | the declarator loop returns what `Declarators` says |
| Parse.Parser.DeclaratorsPass | parse.cpp:99-108 | one pass of the declarator loop either fails as `Declarators` does, or goes round with the rest of the loop still computing the same list, or ends with the list `Declarators` computes |
| Parse.Parser.ParseDeclarator | parse.cpp:99-107 | one declarator returns what `Declarator` says |
| Parse.Parser.ParseInitializer | parse.cpp:104-107 | the optional initializer returns what `Initializer` says |
| Parse.Parser.ParseDecls | parse.cpp:394-431 | `parseDecls` returns what `ParseSpec.ParseDecls` says |
| Parse.Parser.ParseAssignStmt | parse.cpp:434-472 | `parseAssignStmt` returns what `ParseAssign` says |
| Parse.Parser.ParseAssignOperator | parse.cpp:438-466 | the operator part of an assignment returns what `AssignOperator` says |
| Parse.Parser.IdentifierList | parse.cpp:604-608 | the identifier list returns what `IdList` says |
| Parse.Parser.ParseReadStmt | parse.cpp:597-613 | `parseReadStmt` returns what `ParseRead` says |
| Parse.Parser.ParseWriteStmt | parse.cpp:616-636 | `parseWriteStmt` returns what `ParseWrite` says |
| Parse.Parser.ParseIfHeader | parse.cpp:477-486 | the head of `parseIfStmt` returns what `IfHeader` says |
| Parse.Parser.ParseIfStmt | parse.cpp:475-513 | `parseIfStmt` returns what `ParseIf` says |
| Parse.Parser.ParseThenBranch | parse.cpp:489-499 | the then-branch returns what `ThenBranch` says |
| Parse.Parser.ParseElseBranch | parse.cpp:506-511 | the else-branch returns what `ElseBranch` says |
| Parse.Parser.ParseWhileStmt | parse.cpp:516-535 | `parseWhileStmt` returns what `ParseWhile` says |
| Parse.Parser.ParseForHeader | parse.cpp:540-581 | the `for` header returns what `ForHeader` says |
| Parse.Parser.ParseForInit | parse.cpp:546-562 | the `for` initializer returns what `ForInit` says |
| Parse.Parser.ParseForCond | parse.cpp:566-571 | the `for` condition returns what `ForCond` says |
| Parse.Parser.ParseForUpdate | parse.cpp:575-581 | the `for` update returns what `ForUpdate` says |
| Parse.Parser.ParseForStmt | parse.cpp:538-594 | `parseForStmt` returns what `ParseFor` says |
| Parse.Parser.ParseStmt | parse.cpp:639-661 | `parseStmt` returns what `ParseSpec.ParseStmt` says |
| Parse.Parser.ParseBlock | parse.cpp:663-677 | `parseBlock` returns what `ParseSpec.ParseBlock` says |
| Parse.Parser.ParseStmts | parse.cpp:114-123 | `parseStmts` returns what `ParseSpec.ParseStmts` says |
| Parse.Parser.Parse | parse.cpp:757-768 | `parse` returns what `ParseSpec.Parse` says |
| ParseProps.ProcessOpReduces | parse.cpp:274-301 | `processOp` fails exactly when too few operands are stacked; otherwise it replaces the operator's operands, left one first, by one `OP` node |
| ParseProps.ProcessOpKeepsOperands | parse.cpp:274-301 | a reduction builds operand trees out of operand trees |
| ParseProps.CloseParenKeepsOperands | parse.cpp:309-315 | the `)` branch keeps the operand stack made of operand trees |
| ParseProps.CloseParenPopsToParen | parse.cpp:309-315 | the `)` branch pops the operators above the nearest `(` and that `(`, and fails when no `(` is stacked |
| ParseProps.ReduceWhileKeepsOperands | parse.cpp:325-328 | reducing before a push keeps the operand stack made of operand trees |
| ParseProps.ReduceWhileStops | parse.cpp:325-328 | before an operator is pushed, exactly the operators above the nearest `(` that bind at least as tightly are reduced |
| ParseProps.DrainKeepsOperands | parse.cpp:349-354 | the final reductions keep the operand stack made of operand trees |
| ParseProps.DrainEmpties | parse.cpp:349-354 | the final reductions empty the operator stack and fail on any `(` left on it |
| ParseProps.ExprLoopKeepsOperands | parse.cpp:303-346 | the main loop keeps the operand stack made of operand trees |
| ParseProps.ExprLoopStops | parse.cpp:303-305 | the main loop ends only at one of its stop tokens, never at `)` |
| ParseProps.ArithmeticExprShape | parse.cpp:256-366 | a `;` is refused outright; an accepted expression is an `EXPR` node over one operand tree, and the cursor is on a stop token |
| ParseProps.StopIsNoComparison | parse.cpp:303-305 | a stop token is neither a comparison operator nor `)` |
| ParseProps.TwoBinaryOperators | parse.cpp:316-329 | in `a o1 b o2 d ;` with binary operators, `o2` is reduced first exactly when it binds more tightly than `o1`; otherwise `o1` is, so one precedence level associates to the left |
| ParseProps.ProductBindsTighter | parse.cpp:267-272 | `x + y * z ;` is the tree `EXPR(+(x, *(y, z)))` |
| ParseProps.SubtractionIsLeftAssociative | parse.cpp:325-329 | `x - y - z ;` is the tree `EXPR(-(-(x, y), z))` |
| ParseProps.NegIsBinary | parse.cpp:281-323 | a leading `-` becomes `neg`, which is reduced as a binary operator: `- a ;` fails with "Missing operands for binary operator" at `;`, and `- a b ;` is accepted as `neg(a, b)` |
| ParseProps.EmptyExpression | parse.cpp:303-357 | an expression starting on a stop token other than `;` fails with "Empty expression" |
| ParseProps.EmptyParentheses | parse.cpp:306-357 | `( )` before a stop token fails with "Empty expression" |
| ParseProps.JuxtaposedOperands | parse.cpp:330-360 | two operands with no operator between them, `a b ;`, fail with "Malformed expression" |
| ParseProps.NotAnOperand | parse.cpp:330-343 | a token that is no stop token, parenthesis, operator or operand makes the main loop, and an expression starting there, fail with "Expected operand in expression" at that token |
| ParseProps.SingleOperand | parse.cpp:330-365 | one operand before a stop token is an `EXPR` over its leaf |
| ParseProps.ParenthesesGroupFirst | parse.cpp:306-329 | in `( a o1 b ) o2 d ;` the group is reduced first whatever the precedences, giving `o2(o1(a, b), d)`; a `-` as `o1` is pushed as `neg` because `(` is on top of the operator stack |
| ParseProps.ParenthesisedSum | parse.cpp:306-315 | `( x + y ) * z ;` is the tree `EXPR(*(+(x, y), z))` |
| ParseProps.BoolExprIsArithmetic | parse.cpp:369-391 | `parseBoolExpr` equals `parseArithmeticExpr`: its comparison branch is unreachable |
| ParseProps.InitializerShape | parse.cpp:104-107 | an initializer is present exactly when the lookahead is `=`, and is then one expression |
| ParseProps.InitializerIgnoresType | parse.cpp:105 | the declared type does not change what an initializer accepts |
| ParseProps.DeclaratorShape | parse.cpp:99-107 | a declarator is the identifier leaf of the name under the cursor, then its initializer if any |
| ParseProps.AppendDeclarator | parse.cpp:101-106 | appending a declarator keeps the list well formed and its front unchanged |
| ParseProps.DeclaratorsExtend | parse.cpp:98-108 | the declarator loop only appends, and outside `parseDecls` adds at least one declarator |
| ParseProps.MoreDeclaratorsExtend | parse.cpp:108 | the `,` test only appends |
| ParseProps.DeclaratorsShape | parse.cpp:98-108 | the declarator loop builds a well-formed declarator list |
| ParseProps.MoreDeclaratorsShape | parse.cpp:108 | the `,` test keeps the declarator list well formed |
| ParseProps.ParseDeclShape | parse.cpp:80-112 | a declaration needs a type keyword, builds a `LIST` of the `TYPE` leaf and the declarators, and ends after a `;` |
| ParseProps.DeclaratorsAccepts | parse.cpp:98-108 | declarators `id , ... , id` without initializers are read as exactly those identifier leaves, in order, ending where neither `=` nor `,` follows |
| ParseProps.ParseDeclAccepts | parse.cpp:80-112 | `type id , ... , id ;` is read as the `LIST` of the type leaf and exactly those identifier leaves, in order, with the cursor after `;` |
| ParseProps.DeclaratorWithInitializer | parse.cpp:99-107 | a name followed by `=` is its identifier leaf and the expression after `=`, whatever the declared type |
| ParseProps.DeclarationWithInitializer | parse.cpp:80-112 | `int a , b = x ;` is `LIST[TYPE int, ID a, ID b, EXPR(NUM x)]` |
| ParseProps.DeclsLoopShape | parse.cpp:397-429 | the `parseDecls` loop collects `LIST` nodes |
| ParseProps.ParseDeclsShape | parse.cpp:394-431 | `parseDecls` builds a `DECLS` node of `LIST` nodes and stops where no type keyword follows |
| ParseProps.AssignOperatorShape | parse.cpp:438-466 | after the target comes an operator token; `++` and `--` stand alone, any other operator is followed by one expression |
| ParseProps.ParseAssignShape | parse.cpp:434-472 | an assignment is an `ASSIGN` node labelled with the operator token over the target leaf and the right-hand side; outside a `for` header it ends after `;` |
| ParseProps.SpellsIdsLength | parse.cpp:604-608 | a spelled identifier list `id , ... , id` of n leaves has 2n - 1 tokens, and its leaves are identifier leaves |
| ParseProps.IdListShape | parse.cpp:604-608 | the identifier list keeps its front and appends n >= 1 leaves: the leaf of each `TOKEN_ID` at c, c + 2, ..., with a `,` between two; it ends at c + 2n - 1, where no `,` follows |
| ParseProps.IdListFromStart | parse.cpp:604-608 | started empty, the identifier list holds exactly the leaves its tokens spell, and no `,` follows them |
| ParseProps.IdListAccepts | parse.cpp:604-608 | conversely, `id , ... , id` followed by anything but `,` is read as one identifier list of exactly those leaves |
| ParseProps.ReadShape | parse.cpp:597-613 | `read` succeeds only on `read ( id , ... , id ) ;`; its `READ` node holds the leaves of those identifiers in order, and the cursor ends after the `;` |
| ParseProps.ReadIsStmt | parse.cpp:597-613 | `read` builds a `READ` statement of one or more identifier leaves |
| ParseProps.WriteShape | parse.cpp:616-636 | `write` succeeds only on `write ( id , ... , id ) ;` or `write id ;`; its `WRITE` node holds the leaves of those identifiers, or of the one identifier, in order, and the cursor ends after the `;` |
| ParseProps.WriteIsStmt | parse.cpp:616-636 | `write` builds a `WRITE` statement of one or more identifier leaves |
| ParseProps.WriteArgsShape | parse.cpp:622-632 | after `(` the arguments of `write` are the leaves of a spelled identifier list closed by `)`; otherwise they are the leaf of the one identifier under the cursor |
| ParseProps.ReadAccepts | parse.cpp:597-613 | conversely, `read ( id , ... , id ) ;` is the `READ` node of exactly those leaves, with the cursor after `;` |
| ParseProps.WriteListAccepts | parse.cpp:616-636 | conversely, `write ( id , ... , id ) ;` is the `WRITE` node of exactly those leaves, with the cursor after `;` |
| ParseProps.BareWriteAccepts | parse.cpp:616-636 | `write id ;` is the `WRITE` node of that one identifier's leaf |
| ParseProps.IfHeaderNeverParses | parse.cpp:477-483 | after `if (` the condition never ends at the required `)`, so the head always fails |
| ParseProps.IfNeverParses | parse.cpp:475-513 | no `if` statement is ever accepted |
| ParseProps.WhileNeverParses | parse.cpp:516-535 | no `while` statement is ever accepted |
| ParseProps.ForInitDecl | parse.cpp:548-552 | a declaration as the `for` initializer is a `LIST` node ending in its own `;` |
| ParseProps.ForInitAssign | parse.cpp:553-558 | an assignment as the `for` initializer is parsed with its own `;` and then needs a second `;` |
| ParseProps.ForInitShape | parse.cpp:546-562 | the initializer is absent exactly for a bare `;`, is otherwise a declaration or an assignment, and always ends after a `;` |
| ParseProps.ForCondShape | parse.cpp:566-571 | the condition is absent exactly for a bare `;`, otherwise one expression, and is followed by `;` |
| ParseProps.ForUpdateShape | parse.cpp:575-581 | the update is absent exactly before `)`, otherwise an `id++` or `id--` assignment, and is followed by `)` |
| ParseProps.ForRestShape | parse.cpp:566-581 | after the initializer, the header yields a well-formed condition and update |
| ParseProps.ForHeaderShape | parse.cpp:540-581 | the `for` header yields three well-formed clauses |
| ParseProps.StmtShape | parse.cpp:639-661 | every accepted statement has one of the statement shapes |
| ParseProps.BlockShape | parse.cpp:663-677 | a block is a `BLOCK` node whose children are statements, from its `{` to its `}` |
| ParseProps.StmtListShape | parse.cpp:668-673 | the statement loop collects statements and stops at the end or at `}` |
| ParseProps.ForShape | parse.cpp:538-594 | a `for` statement has its three clauses and a block body |
| ParseProps.ForBodyShape | parse.cpp:584-591 | the body of `for` is a block, a single statement being wrapped in one |
| ParseProps.EmptyForLoop | parse.cpp:538-594 | `for ( ; ; ) { }` is `FOR[Null, Null, Null, BLOCK[]]`, with the cursor after `}` |
| ParseProps.ParseShape | parse.cpp:757-768 | `parse` builds a `BLOCK` root of a `DECLS` node of `LIST`s and a `STMTS` node of statements, and stops at the end or at `}` without checking for leftover tokens |
| TokenCodec.Find | parse.cpp:801 | `find` returns the first index of the character, or the length for `npos` |
| TokenCodec.RFind | parse.cpp:813 | `rfind` returns the last index of the character, or the length when there is none |
| TokenCodec.DecodeLine | parse.cpp:799-839 | a decoded value never holds white space |
| TokenCodec.SkippedLines | parse.cpp:801-810 | a line is skipped exactly when it lacks a `(`, a `)` or a `,` |
| TokenCodec.DecodeAll | parse.cpp:799-839 | no more tokens than lines, and no value holds white space |
| TokenCodec.ReadTokens | parse.cpp:787-843 | the `getline` loop collects exactly `DecodeAll` of the lines |
| TokenCodec.DecodeAllAppend | parse.cpp:799-839 | decoding works line by line: two files read one after the other give the first's tokens then the second's |
| TokenCodec.DecodeRecord | parse.cpp:807-838 | a line `(code,value)` whose code has no comma decodes to the kind of that code and the value with white space erased |
| TokenCodec.RecordLandmarks | parse.cpp:807-814 | where `readTokens` finds the brackets and the comma of such a line |
| TokenCodec.PairRoundTrip | parse.cpp:807-838 | a token with a space-free value written as `(code, value)` reads back as itself |
| TokenCodec.KindCodeRoundTrip | parse.cpp:820-836 | reading a kind's code gives the kind back |
| TokenCodec.KindOfCode | parse.cpp:820-836 | no contract; `TokenCodec.KindCodeRoundTrip` states that it inverts the code of every kind, `TokenCodec.LexerCodeRead` that it reads the lexer's codes 7 and 8 as errors |
| TokenCodec.LexerCode | text_lexer.cpp:10-21 | no contract; `TokenCodec.LexerCodeRead` states that the parser's table reads its codes 0 to 6 as the same kinds and 7 and 8 as errors |
| TokenCodec.FormatRecord | text_lexer.cpp:331-332 | no contract; `TokenCodec.RecordDecoding` states what `readTokens` makes of the line it writes, `TokenCodec.RecordsDoNotRoundTrip` that the lexeme does not come back |
| TokenCodec.RecordDecoding | text_lexer.cpp:331-332 | a lexer record decodes to the kind read with the parser's table and to the quoted lexeme, line and column without spaces; the kind is an error exactly for bit operators and lexical errors |
| TokenCodec.RecordValueErased | parse.cpp:815 | erasing white space from a record's value part drops exactly its spaces |
| TokenCodec.ErasingTwice | parse.cpp:815-818 | the second erasure changes nothing |
| TokenCodec.LexerCodeRead | parse.cpp:820-836 | the parser's table reads the lexer's codes 0 to 6 as the same kinds, and 7 and 8 as errors |
| TokenCodec.RecordsDoNotRoundTrip | text_lexer.cpp:331-332 | a lexer record always decodes, never to its own lexeme, and a bit operator becomes an error token |
| TreePrint.NodeTypeNameRoundTrip | parse.cpp:708-751 | every node type prints a name that gives the type back |
| TreePrint.NodeTypeNamesDistinct | parse.cpp:708-751 | no two node types share a name |
| TreePrint.NodeTypeName | parse.cpp:708-751 | no contract; `TreePrint.NodeTypeNameRoundTrip` states that every name gives its node type back, `TreePrint.NodeTypeNamesDistinct` that no two types share one |
| TreePrint.NodeLabel | parse.cpp:693-698 | no contract; `TreePrint.NodeLineShift` states that a node's line at two depths differs only by indentation |
| TreePrint.NodeLine | parse.cpp:687-698 | no contract; `TreePrint.NodeLineShift` states that the line at depth a + b is the line at depth b indented by a more levels |
| TreePrint.Indent | parse.cpp:687-690 | the indentation is two spaces per level |
| TreePrint.PrintTreeLines | parse.cpp:681-705 | the dump has exactly one line per node; null children print nothing |
| TreePrint.PrintChildrenLines | parse.cpp:701-704 | the children's dumps have one line per node |
| TreePrint.PrintTreeShift | parse.cpp:681-705 | the dump at a greater depth is the same dump with each line indented further |
| TreePrint.PrintTree | parse.cpp:681-705 | no contract; `TreePrint.PrintTreeLines` states one line per node, `TreePrint.PrintTreeShift` that a deeper dump is the same dump indented further |
| TreePrint.PrintChildrenShift | parse.cpp:701-704 | the same holds for the children's dumps |
| TreePrint.PrintChildren | parse.cpp:701-704 | no contract; `TreePrint.PrintChildrenLines` and `TreePrint.PrintChildrenShift` state the same for the children's dumps |

## Left out

- File I/O is left out: opening and closing files, the error messages when a file cannot be opened, and writing to `cout`/`cerr`.
  - A source text is a string.
  - A token file is the sequence of lines that `getline` returns; the splitting into lines is not modelled.
  - A tree dump is its sequence of lines; the `endl` after each is not modelled.
- The lexer's `main` driver is modelled only as the token loop `Tokenize` and the record format `FormatRecord`. Its `outFile <<` output is not modelled.
- The parser's `main` is not modelled: it prints the tokens, parses and calls `outputTree`, which is `printTree` from depth 0.
- The `DEBUG:` lines written to `cerr` are not modelled.
- `error` prints a message and calls `exit(1)`. It is modelled as a `Failure(SyntaxError(message, token))` value that every caller propagates, so the rest of the run is not modelled.
- The lexer's error messages are Chinese in the source. The model uses English texts with the same structure: a message, then the lexeme, then ` at line L:C`.
- Character classes are those of the "C" locale, over ASCII. Locale-dependent classification is not modelled.
  - A Dafny `char` is a Unicode code point, while the C++ lexer reads bytes. A non-ASCII character is therefore one illegal-character token in the model, but one such token per byte of its encoding in the program (text_lexer.cpp:295-299).
- Allocation and freeing of tree nodes are not modelled; a tree is a value.
- The `"UNKNOWN"` branch of `nodeTypeToString` is not modelled: every node type has its own case, so it cannot be reached.
- Some source functions are split into smaller Dafny members, such as `AdvanceWhile`, `ReadFraction`, `DeclaratorsPass`, `ForRest` and `WriteArgs`. Each piece is one loop or branch of the cited function, and the composition is the function.
- `int`/`size_t` widths are not modelled.
  - Line and column counters are unbounded.
  - The unsigned wrap-around of `substr` lengths in `readTokens` is modelled by its effect: the rest of the line is taken.
- The parse and lexer specification functions' own contracts state only where the cursor may go. What each builds is stated by the lemmas in `ParseProps` and `LexProps`.
- LexProps.LeadingBlanksDoNotMatter and LexProps.SkippedTextDoesNotMatter state the invariance under blanks and comments within one text: resuming after skipped text gives the same tokens. Inserting blanks or comments into a text, and comparing the tokens of the two texts, is not proved.
  - The full property does not hold in the program. Every token records its line and column, and a malformed-number error embeds ` at line L:C` in its value (text_lexer.cpp:163, text_lexer.cpp:239), so padding changes those tokens.
  - A restricted form (kinds and values of the other tokens) would need every recogniser shown to depend only on its own characters and one lookahead character. That proof is not part of this model.
