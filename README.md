# Monkey front end: tokens, lexer, syntax tree and Pratt parser

This project models the front end of a small C++ interpreter for the Monkey
language and proves properties of the model. There are four pieces.

- **Tokens** (`token.dfy`, module `Tokens`). A token is a kind and a
  literal, both strings. The kind constants are pairwise distinct.
  `LookupIdent` classifies a word through the seven-entry keyword table.
- **Lexer**. `lexer_spec.dfy` (module `LexerSpec`) describes the
  character cursor (`input`, `position`, `readPosition`, `ch`) as
  functions on a `LexState` value. `lexer.dfy` (module `Lexing`) holds
  class `Lexer`, whose fields the methods update in place. Each method is
  proved to move the fields exactly as the corresponding `LexerSpec`
  function says (the constructor as `Start`, `SkipWhitespace` as
  `ReadWhile`, `PeekCharacter` as `Peek`, `ReadIdentifier` and `ReadNumber`
  as `ReadRun`, the others as the function of the same name).
  A second, index-based description of the tokens (`RunEnd`, `TokenAt`) is
  proved equal to the cursor machine. The token properties are stated on it.
- **Syntax tree** (`ast.dfy`, module `Ast`, with the bracket-counting
  helpers of `parens.dfy`). Expressions, statements and programs are
  datatypes. `TokenLiteral` and `String` render them as the C++ classes do.
- **Parser**. `parser_spec.dfy` (module `ParserSpec`) gives every parse
  routine as a function of a `ParserState` value. `parser.dfy` (module
  `Parsing`) holds class `Parser`, whose methods, loops included, are proved
  equal to those functions. `parser_theory.dfy` (module `ParserTheory`)
  proves what precedence climbing guarantees:
  - the tree is complete;
  - each operator's operands bind as tightly as the precedences demand;
  - equal precedences associate to the left;
  - the tokens of the tree are exactly the tokens consumed.

  `parser_examples.dfy` (module `ParserExamples`) steps through whole
  parses.

`std::to_string` of a character and `std::stoi` are modelled in
`decimal.dfy` (module `Decimal`). `Option` is in `wrappers.dfy`.

The parser reads from a token source: a finite sequence of tokens that keeps
handing out an EOF token once it is used up. The field `next` is the index
of the token the next pull returns. A pull before the first one (index below
zero) is the default token `Token()`, whose kind and literal are both empty.

Behaviour of the code that the model reproduces although the code evidently
intends otherwise:

- The lexer never returns an EOF token. At the end of the input `ch`
  becomes 0. The `case EOF` label only matches -1, so a 0 goes straight to
  `default`. Every call from then on returns ILLEGAL holding the character
  0 and changes no field. Even a -1 would end as ILLEGAL: the `case EOF`
  body has no `break` and falls through into `default`.
- A word or number that runs to the end of the input loses its last
  character, because `readChar` does not move `position` at the end.
  Input `x` lexes to IDENT with an empty literal.
- The literals of `==` and `!=` are `"6161"` and `"3361"`, the decimal codes
  of their two characters, not the source text.
- The constructor does not pull the first two tokens. So a parser made by
  `New` first parses the default token. The result is an expression
  statement with no expression, plus the error
  `no prefix parse function for  found`. An input such as `return 10;`
  therefore never parses without an error.
- `parseExpressionStatement` steps one token further when the peek token is
  *not* `;`, the opposite of skipping a trailing `;`. A trailing `;` thus
  becomes a statement of its own with an error, and any other token after
  an expression is stepped over unparsed. Statements whose expression
  failed to parse are kept.
- A literal that `stoi` rejects, such as the empty literal the lexer leaves
  for a one-digit number at the very end of the input, gives the error
  `could not parse <literal> as integer` and a null expression.
- Let and return statements skip to the next `;` without parsing the value.
  `let x = 5;` renders as `let x=;`. Without a later `;` the skip loop never
  ends; the model returns `Diverges` for this case.

## Model

| member | source | states |
|---|---|---|
| Tokens.LookupIdent | token/token.cpp:51-60 | the kind is IDENT or a keyword kind, and it differs from IDENT exactly when the word is one of the seven keywords |
| Tokens.LookupIdentKeywords | token/token.cpp:51-53 | each of `fn let true false if else return` maps to its own keyword kind |
| Tokens.LookupIdentNeverOther | token/token.cpp:55-60 | no word, the empty one included, is classified as ILLEGAL, EOF, INT or an operator or delimiter kind |
| Tokens.KindsDistinct | token/token.cpp:16-49 | the token-kind constants are pairwise distinct strings |
| Decimal.NatToString | lexer/lexer.cpp:76 | `std::to_string` of a character code is a non-empty digit string without a leading zero |
| Decimal.NatToStringRoundTrip | lexer/lexer.cpp:76 | the digits written for `n` denote `n` |
| Decimal.Stoi | parser/parser.cpp:147 | no contract; `std::stoi` in base 10 (white space, one optional sign, the longest run of digits, `invalid_argument` without one); stated by StoiDigits, StoiNoDigit and StoiNatToString |
| Decimal.StoiDigits | parser/parser.cpp:145-153 | `stoi` of a non-empty digit string is the number the digits denote |
| Decimal.StoiNatToString | parser/parser.cpp:145-153 | `stoi` reads back what `to_string` writes |
| Decimal.StoiNoDigit | parser/parser.cpp:146-152 | a string with no digit, the empty one included, makes `stoi` throw `invalid_argument` |
| LexerSpec.IsLetter | lexer/lexer.cpp:7-9 | no contract; the same test as `isLetter`: `a`-`z`, `A`-`Z` or `_`; stated by WordToken |
| LexerSpec.IsDigit | lexer/lexer.cpp:11 | no contract; the same test as `isDigit`: `0`-`9`; stated by WordToken |
| LexerSpec.NewToken | lexer/lexer.cpp:13-15 | no contract; a token whose literal is the one character; stated by OperatorToken and IllegalToken |
| LexerSpec.IsWhitespace | lexer/lexer.cpp:39 | no contract; the loop condition of `skipeWhiteSpace`: space, tab, carriage return or line feed; stated by WhitespaceSkipped and NoWhitespaceInLiteral |
| LexerSpec.ReadToken | lexer/lexer.cpp:71-146 | the `switch` and the final `readChar` keep the cursor well formed on the same input and never move it back; the token it returns is stated by WordToken, OperatorToken, IllegalToken and NextTokenAt |
| LexerSpec.ReadChar | lexer/lexer.cpp:28-36 | reading keeps the cursor in bounds and never moves `position` or `readPosition` back |
| LexerSpec.ReadCharCursor | lexer/lexer.cpp:28-36 | from the cursor on character `i` a read moves to `i + 1`, and at the end stays put |
| LexerSpec.Start | lexer/lexer.cpp:23-26 | the constructor leaves the cursor on character 0 |
| LexerSpec.ReadWhile | lexer/lexer.cpp:38-42 | the skip loop keeps the cursor well formed, stops on a character outside the class and never moves back |
| LexerSpec.ReadWhileCursor | lexer/lexer.cpp:38-42 | a loop started on character `i` stops at the end of the run of the class that starts there |
| LexerSpec.NextToken | lexer/lexer.cpp:68-147 | a call keeps the cursor well formed and never moves `position` or `readPosition` back |
| LexerSpec.RunEnd | lexer/lexer.cpp:52-66 | the run of a class from `i` ends at the first character outside the class, or at the end |
| LexerSpec.TokenAt | lexer/lexer.cpp:68-147 | reading a token moves past at least one character unless the input is used up, and never past its end |
| LexerSpec.NextTokenAt | lexer/lexer.cpp:68-147 | the cursor machine returns the token `TokenAt` describes at the first character that is not white space, and stops where `TokenAt` says |
| LexerSpec.CharCodes | lexer/lexer.cpp:72-97 | `to_string('=')` is "61" and `to_string('!')` is "33" |
| LexerSpec.WhitespaceSkipped | lexer/lexer.cpp:38-42 | white space before a token does not change the token read |
| LexerSpec.NoWhitespaceInLiteral | lexer/lexer.cpp:52-66 | no literal read at a character other than white space holds white space |
| LexerSpec.WordToken | lexer/lexer.cpp:52-66 | a word is a maximal run of letters with the kind `LookupIdent` gives, a number a maximal run of digits with kind INT. The literal is the run, minus its last character when the run reaches the end of the input. Scanning goes on where the run ends |
| LexerSpec.OperatorToken | lexer/lexer.cpp:72-127 | `==` and `!=` take two characters and carry "6161" and "3361". A lone `=` or `!` and each of `+ - / * < > ; , { } ( )` take one character and carry it |
| LexerSpec.IllegalToken | lexer/lexer.cpp:128-145 | any other character, and the 0 that stands for the end, gives ILLEGAL holding that character |
| LexerSpec.NeverEof | lexer/lexer.cpp:68-147 | a token's kind is one of the kinds the switch names, and never EOF |
| LexerSpec.NextTokenNeverEof | lexer/lexer.cpp:128-131 | no call from any well-formed state returns the EOF kind |
| LexerSpec.ExhaustedFixpoint | lexer/lexer.cpp:128-145 | once the input is used up a call returns ILLEGAL holding 0 and leaves all four fields as they are |
| LexerSpec.Progress | lexer/lexer.cpp:68-147 | before the input is used up every call strictly lowers the distance to the end |
| LexerSpec.After | lexer/lexer.cpp:68-147 | the state after any number of calls is well formed, on the same input |
| LexerSpec.ExhaustedStays | lexer/lexer.cpp:28-30 | from a used-up state, any number of calls changes nothing |
| LexerSpec.ExhaustedAfter | lexer/lexer.cpp:68-147 | after as many calls as the measure of the start state the input is used up |
| LexerSpec.IllegalForever | lexer/lexer.cpp:128-145 | from call number `Measure(s)` on, every call returns ILLEGAL holding 0 and leaves the state unchanged: no EOF token ever comes |
| LexerSpec.StepAt | lexer/lexer.cpp:68-147 | one call from a cursor, stated through `RunEnd` and `TokenAt` |
| LexerSpec.TruncatedWord | lexer/lexer.cpp:52-58 | input `x` lexes to IDENT with an empty literal |
| LexerSpec.TruncatedNumber | lexer/lexer.cpp:60-66 | input `5` lexes to INT with an empty literal |
| LexerSpec.TruncatedLongWord | lexer/lexer.cpp:52-58 | a word at the end of the input keeps all characters but its last |
| LexerSpec.WholeWord | lexer/lexer.cpp:52-58 | a word followed by another character keeps all its characters |
| LexerSpec.TruncationExamples | lexer/lexer.cpp:28-36 | the truncation examples, from a cursor |
| LexerSpec.LetKeyword | lexer/lexer.cpp:132-135 | in `let x = 5;` the token at index 0 is LET "let" and scanning goes on at 3 |
| LexerSpec.LetName | lexer/lexer.cpp:132-135 | the token at index 4 is IDENT "x" |
| LexerSpec.LetOthers | lexer/lexer.cpp:72-139 | the tokens at indices 6, 8 and 9 are ASSIGN, INT "5" and SEMICOLON |
| LexerSpec.LetSpaces | lexer/lexer.cpp:38-42 | where each white-space skip of `let x = 5;` stops |
| LexerSpec.LetExample | lexer/lexer.cpp:68-147 | `let x = 5;` lexes, call after call, to LET, IDENT "x", ASSIGN, INT "5", SEMICOLON, each from where the one before stopped, and then to ILLEGAL holding 0 without moving, not to EOF |
| Lexing.Lexer.constructor | lexer/lexer.cpp:23-26 | the new lexer is well formed and stands on character 0 |
| Lexing.Lexer.ReadChar | lexer/lexer.cpp:28-36 | the fields move as `LexerSpec.ReadChar` says |
| Lexing.Lexer.SkipWhitespace | lexer/lexer.cpp:38-42 | the loop ends; the fields stay well formed and end where `ReadWhile` over white space ends |
| Lexing.Lexer.PeekCharacter | lexer/lexer.cpp:44-50 | the character after the current one, or 0 at the end, with no field changed |
| Lexing.Lexer.ReadIdentifier | lexer/lexer.cpp:52-58 | the literal and the new fields are those of `ReadRun` over letters |
| Lexing.Lexer.ReadNumber | lexer/lexer.cpp:60-66 | the literal and the new fields are those of `ReadRun` over digits |
| Lexing.Lexer.NextToken | lexer/lexer.cpp:68-147 | the token and the new fields are those of `LexerSpec.NextToken`, so every property above holds of the class |
| Lexing.New | lexer/lexer.cpp:150-153 | a fresh, well-formed lexer standing on character 0 |
| Ast.Expression.TokenLiteral | ast/ast.cpp:160-221 | no contract; the node's token literal, as each expression class returns; used by the statements' renderings |
| Ast.Expression.String | ast/ast.cpp:160-221 | no contract; an identifier renders its name, an integer literal its token text, prefix and infix nodes fully bracketed; stated by RenderingBalanced, PrefixEnclosed, InfixEnclosed and IntegerRendersText |
| Ast.Statement.TokenLiteral | ast/ast.cpp:98-152 | no contract; the statement's token literal, as each statement class returns; stated by FreshProgramTokenLiteral |
| Ast.Statement.String | ast/ast.cpp:100-159 | no contract; `let <name>=<value>;`, `return <value>;` or the expression, with null children rendered as nothing; stated by NullChildRendering |
| Ast.OptionalString | ast/ast.cpp:103-105 | no contract; a null child renders as nothing, as the statements' null checks do; stated by NullChildRendering |
| Ast.Program.TokenLiteral | ast/ast.cpp:51-57 | no contract; the first statement's token literal, or the empty string; stated by FreshProgramTokenLiteral |
| Ast.Program.String | ast/ast.cpp:59-65 | no contract; the statements' renderings in order; stated by WriteProgram, ConcatAppend and SingleStatement |
| Ast.Concat | ast/ast.cpp:59-65 | no contract; the renderings of a statement list, one after the other; stated by ConcatAppend |
| Ast.WriteProgram | ast/ast.cpp:59-65 | the stream loop writes exactly `Program.String`, the statements' renderings in order |
| Ast.ConcatAppend | ast/ast.cpp:59-65 | rendering the concatenation of two statement lists is the concatenation of their renderings |
| Ast.SingleStatement | ast/ast.cpp:59-65 | a one-statement program renders as its statement |
| Ast.PrefixEnclosed | ast/ast.cpp:190-194 | a prefix rendering around a balanced operand is one bracketed group |
| Ast.InfixEnclosed | ast/ast.cpp:217-221 | an infix rendering around balanced operands is one bracketed group |
| Ast.RenderingBalanced | ast/ast.cpp:190-221 | renderings are balanced, and each prefix or infix node renders as a single bracketed group, when no name, number or operator holds a bracket |
| Ast.IntegerRendersText | ast/ast.cpp:171-172 | an integer literal renders its token text ("007"), not its value |
| Ast.NullChildRendering | ast/ast.cpp:100-159 | a let statement without a value renders `let x=;`, a return without a value `return ;`, an expression statement without an expression nothing |
| ParserSpec.PrecedenceTable | parser/parser.cpp:8-23 | EQUALS for `== !=`, LESSGREATER for `< >`, SUM for `+ -`, PRODUCT for `* /`, CALL for `(`, LOWEST otherwise, always within LOWEST..CALL |
| ParserSpec.NoFuelAtEof | parser/parser.cpp:134-137 | once the token source is used up, the current and peek tokens are both EOF |
| ParserSpec.NextToken | parser/parser.cpp:134-137 | the peek token becomes current, the next token of the source becomes peek, and nothing else changes |
| ParserSpec.ExpectPeek | parser/parser.cpp:169-190 | true exactly when the peek kind is `t`; then one step and no error, otherwise no step and exactly the one "expected next token" error appended |
| ParserSpec.ParseIntegerLiteral | parser/parser.cpp:143-155 | a literal exactly when `stoi` converts the token text, holding the value it converts to, with the state unchanged; otherwise null and exactly the error "could not parse <literal> as integer" appended; no step either way |
| ParserSpec.ParseExpression | parser/parser.cpp:74-90 | registries and source unchanged, errors only appended, a complete tree when no error is added; with no prefix handler: null, no step, one "no prefix parse function" error |
| ParserSpec.CallPrefix | parser/parser.cpp:75-81 | the registered prefix handler keeps the invariants and returns a complete tree when it adds no error |
| ParserSpec.InfixLoop | parser/parser.cpp:82-88 | the loop keeps the invariants and keeps a complete left operand complete when it adds no error |
| ParserSpec.CallInfix | parser/parser.cpp:83-87 | the registered infix handler moves at least one token on |
| ParserSpec.ParsePrefixExpression | parser/parser.cpp:157-162 | a prefix node on the current token, at least one token on, complete when no error is added |
| ParserSpec.ParseInfixExpression | parser/parser.cpp:92-98 | an infix node on the current token with the given left operand, at least one token on |
| ParserSpec.SkipToSemicolon | parser/parser.cpp:57-59 | when the skip loop ends it stands on a `;`, having added no error |
| ParserSpec.ParseLetStatement | parser/parser.cpp:44-62 | a statement exactly when no error is added, otherwise exactly one error; the statement is a let on the current token |
| ParserSpec.ParseReturnStatement | parser/parser.cpp:64-72 | when it ends, a return statement on the current token with no value and no error |
| ParserSpec.ParseExpressionStatement | parser/parser.cpp:100-107 | an expression statement on the current token holding the expression parsed at LOWEST, kept whatever it is, with that parse's errors; it stops where the expression stopped when the peek token is `;`, and otherwise takes one more step, onto the peek token |
| ParserSpec.ParseStatement | parser/parser.cpp:109-118 | anything other than `let` or `return` gives an expression statement; only a failed let gives null, with exactly one error |
| ParserSpec.ParseProgramFrom | parser/parser.cpp:124-130 | when the loop ends the current token is EOF and the statements gathered so far come first |
| ParserSpec.ParseProgram | parser/parser.cpp:120-132 | when the parse ends the current token is EOF; source and registries unchanged, errors only appended |
| ParserSpec.Constructed | parser/parser.cpp:39-42 | the constructor leaves both tokens as the default token |
| ParserSpec.NewState | parser/parser.cpp:221-236 | `New` leaves both tokens as the default token and no error |
| ParserTheory.InfixLoopStep | parser/parser.cpp:82-88 | unfolding helper: one round of the loop: step onto the operator, parse the infix expression, go on |
| ParserTheory.ParseExpressionNested | parser/parser.cpp:74-98 | with no new error, the tree is well nested: each infix node's left operand binds no looser than it, and its right operand strictly tighter, so equal precedences associate to the left. The whole tree binds tighter than the precedence the parse started at, and the loop stopped on a token it may not take |
| ParserTheory.CallPrefixNested | parser/parser.cpp:75-81 | a prefix handler's tree is well nested and binds tightest |
| ParserTheory.InfixLoopNested | parser/parser.cpp:82-88 | the loop keeps the tree well nested and binding tighter than its precedence |
| ParserTheory.PrefixNested | parser/parser.cpp:157-162 | a prefix operand binds tighter than PREFIX |
| ParserTheory.InfixNested | parser/parser.cpp:92-98 | an infix node binds at its operator's precedence, with its right operand tighter |
| ParserTheory.MatchesYield | parser/parser.cpp:74-98 | a tree whose tokens sit at their places in the source yields exactly that slice of the source |
| ParserTheory.PrefixMatchesYield | parser/parser.cpp:157-162 | the same for a prefix node |
| ParserTheory.InfixMatchesYield | parser/parser.cpp:92-98 | the same for an infix node |
| ParserTheory.ParseExpressionYield | parser/parser.cpp:74-90 | with no new error, the tree's tokens sit, in order, at the places in the source the parse consumed |
| ParserTheory.CallPrefixYield | parser/parser.cpp:75-81 | the same for a prefix handler |
| ParserTheory.InfixLoopYield | parser/parser.cpp:82-88 | the same for the infix loop |
| ParserTheory.InfixLoopStepYield | parser/parser.cpp:82-88 | the same for one round of the loop |
| ParserTheory.CurrentToken | parser/parser.cpp:134-137 | a current token other than EOF is the source token two pulls back |
| ParserTheory.PrefixUnfold | parser/parser.cpp:157-162 | unfolding helper: a prefix expression is the operator followed by its operand parsed at PREFIX |
| ParserTheory.InfixUnfold | parser/parser.cpp:92-98 | unfolding helper: an infix expression's right operand is parsed at the operator's own precedence |
| ParserTheory.PrefixYield | parser/parser.cpp:157-162 | a prefix node's tokens are the operator then its operand's tokens |
| ParserTheory.JoinPrefix | parser/parser.cpp:157-162 | an operator placed before a consumed operand gives a consumed prefix node |
| ParserTheory.InfixYield | parser/parser.cpp:92-98 | an infix node's tokens are the left operand's, the operator, then the right operand's |
| ParserTheory.InfixYieldFrom | parser/parser.cpp:92-98 | the same, from the state the operator was reached in |
| ParserTheory.JoinInfix | parser/parser.cpp:92-98 | consumed operands around an operator give a consumed infix node |
| ParserTheory.ParseExpressionTokens | parser/parser.cpp:74-98 | with no new error the tree is present, and its tokens, left to right, are exactly the source tokens from the first current token to the last |
| ParserTheory.SkipFindsSemicolon | parser/parser.cpp:57-59 | the skip loop runs forever exactly when no `;` is current or follows; otherwise it stops on the first one with no error |
| ParserTheory.LetCases | parser/parser.cpp:44-62 | no name: null and one error. Name but no `=`: null and one error, one step on. Both, but no later `;`: never ends. Both and a later `;`: a let with that name and no value, on the `;` |
| ParserTheory.ReturnCases | parser/parser.cpp:64-72 | a return runs forever exactly when no `;` follows the keyword, and otherwise stops on one |
| ParserTheory.ProgramStep | parser/parser.cpp:124-130 | unfolding helper: one round of the program loop: parse a statement, keep it unless null, step |
| ParserTheory.ProgramAccumulates | parser/parser.cpp:120-132 | the program loop appends in order: what it gathers from a state does not depend on what came before |
| ParserTheory.Primed | parser/parser.cpp:134-137 | two pulls make the first two source tokens current and peek |
| ParserTheory.FreshParserJunk | parser/parser.cpp:120-132 | a parser from `New` first yields an expression statement on the default token with no expression, and the error "no prefix parse function for  found", then parses as a primed parser would |
| ParserTheory.JunkStatement | parser/parser.cpp:100-107 | the first statement of a fresh parser, and the state after it |
| ParserTheory.FreshProgramTokenLiteral | ast/ast.cpp:51-57 | the program a parser from `New` returns has the empty token literal, as its first statement is the junk statement on the default token |
| ParserTheory.IntegerLiteralDigits | parser/parser.cpp:143-155 | a non-empty literal of digits only gives an integer node holding the number the digits denote, and no error |
| ParserTheory.IntegerLiteralNoDigit | parser/parser.cpp:146-152 | a literal without a digit, the empty one included, gives null and exactly the error "could not parse <literal> as integer" |
| ParserTheory.ExpressionSpan | parser/parser.cpp:74-90 | an expression parsed without a new error started on a kind with a prefix handler and took the source tokens up to index `j`, which is then the peek token |
| ParserTheory.RoundStopsShort | parser/parser.cpp:100-107 | one program round over an expression statement whose expression is followed by `;`: the loop's own step makes that `;` current |
| ParserTheory.RoundSteps | parser/parser.cpp:100-107 | one program round over an expression statement whose expression is followed by another token: the statement's step and the loop's step leave the token after it current |
| ParserTheory.NoPrefixStatement | parser/parser.cpp:100-107 | a statement on a kind with no prefix handler has no expression and adds exactly one "no prefix parse function" error |
| ParserTheory.SemicolonNext | parser/parser.cpp:100-107 | with `;` as the peek token, the next statement is an expression statement on it with no expression and one error |
| ParserTheory.ExpressionStatementSemicolon | parser/parser.cpp:100-107 | when the expression of a statement takes the source up to a `;` at `j` without an error, the program goes on from a state whose current token is that `;` |
| ParserTheory.SemicolonStatement | parser/parser.cpp:100-107 | in that case the `;` at `j` is parsed as a statement of its own, with no expression and the error "no prefix parse function for ; found" |
| ParserTheory.ExpressionStatementSkips | parser/parser.cpp:100-107 | when the token at `j` is not `;`, the program goes on from the token at `j + 1`, so the one at `j` is never parsed, and no error is added |
| Parsing.Parser.constructor | parser/parser.cpp:39-42 | empty registries and errors, no token pulled |
| Parsing.Parser.Errors | parser/parser.cpp:165-167 | the errors recorded so far |
| Parsing.Parser.PeekPrecedence | parser/parser.cpp:206-211 | within LOWEST..CALL, LOWEST for a kind outside the table |
| Parsing.Parser.CurPrecedence | parser/parser.cpp:213-218 | within LOWEST..CALL, LOWEST for a kind outside the table |
| Parsing.Parser.NextToken | parser/parser.cpp:134-137 | the fields move as `ParserSpec.NextToken` says |
| Parsing.Parser.PeekError | parser/parser.cpp:169-172 | exactly one message appended, naming the expected and the actual kind |
| Parsing.Parser.CurTokenIs | parser/parser.cpp:174-176 | no contract; the current token's kind is `t`, as `curTokenIs`; used by SkipToSemicolon and ParseProgram |
| Parsing.Parser.PeekTokenIs | parser/parser.cpp:178-180 | no contract; the peek token's kind is `t`, as `peekTokenIs`; used by ExpectPeek, ParseExpression and ParseExpressionStatement |
| Parsing.Parser.ExpectPeek | parser/parser.cpp:182-190 | result and fields as `ParserSpec.ExpectPeek` |
| Parsing.Parser.RegisterPrefix | parser/parser.cpp:193-195 | the prefix registry maps `t` to `fn`, nothing else changes |
| Parsing.Parser.RegisterInfix | parser/parser.cpp:197-199 | the infix registry maps `t` to `fn`, nothing else changes |
| Parsing.Parser.NoPrefixParseFnError | parser/parser.cpp:201-204 | exactly one "no prefix parse function for t found" appended |
| Parsing.Parser.ParseIdentifier | parser/parser.cpp:139-141 | an identifier on the current token with its literal as name |
| Parsing.Parser.ParseIntegerLiteral | parser/parser.cpp:143-155 | result and fields as `ParserSpec.ParseIntegerLiteral` |
| Parsing.Parser.ParseExpression | parser/parser.cpp:74-90 | result and fields as `ParserSpec.ParseExpression`, so every theorem of `ParserTheory` holds of the method |
| Parsing.Parser.CallPrefix | parser/parser.cpp:75-81 | dispatch on the registered prefix handler, as `ParserSpec.CallPrefix` |
| Parsing.Parser.CallInfix | parser/parser.cpp:83-87 | dispatch on the registered infix handler, as `ParserSpec.CallInfix` |
| Parsing.Parser.ParsePrefixExpression | parser/parser.cpp:157-162 | result and fields as `ParserSpec.ParsePrefixExpression` |
| Parsing.Parser.ParseInfixExpression | parser/parser.cpp:92-98 | result and fields as `ParserSpec.ParseInfixExpression` |
| Parsing.Parser.SkipToSemicolon | parser/parser.cpp:57-59 | the flag is set exactly when the loop would run forever; otherwise the fields are those `ParserSpec.SkipToSemicolon` gives |
| Parsing.Parser.ParseLetStatement | parser/parser.cpp:44-62 | the flag is set exactly when the statement never ends; otherwise the statement and fields as `ParserSpec.ParseLetStatement` |
| Parsing.Parser.ParseReturnStatement | parser/parser.cpp:64-72 | the same for `ParserSpec.ParseReturnStatement` |
| Parsing.Parser.ParseExpressionStatement | parser/parser.cpp:100-107 | statement and fields as `ParserSpec.ParseExpressionStatement` |
| Parsing.Parser.ParseStatement | parser/parser.cpp:109-118 | the same for `ParserSpec.ParseStatement` |
| Parsing.Parser.ParseProgram | parser/parser.cpp:120-132 | the flag is set exactly when the parse never ends; otherwise the program and fields as `ParserSpec.ParseProgram` |
| Parsing.New | parser/parser.cpp:221-236 | a fresh parser with the four prefix and eight infix handlers registered and no token pulled |
| ParserExamples.IdentifierFirst | parser/parser.cpp:75-81 | an identifier as left operand |
| ParserExamples.PrefixFirst | parser/parser.cpp:75-81 | a prefix operator as left operand |
| ParserExamples.LoopStops | parser/parser.cpp:82 | the loop returns its left operand when the peek token may not be taken |
| ParserExamples.OperatorPrecedences | parser/parser.cpp:19-23 | `+` and `-` are at SUM, `*` at PRODUCT |
| ParserExamples.SumProductParse | parser/parser.cpp:74-98 | `a + b * c` parses to `a + (b * c)`, consuming all tokens |
| ParserExamples.SumProductExample | parser/parser.cpp:74-98 | `a + b * c` renders `(a + (b * c))` |
| ParserExamples.SumDifferenceParse | parser/parser.cpp:74-98 | `a + b - c` parses to `(a + b) - c` |
| ParserExamples.SumDifferenceExample | parser/parser.cpp:74-98 | `a + b - c` renders `((a + b) - c)` |
| ParserExamples.NegatedProductParse | parser/parser.cpp:157-162 | `-a * b` parses to `(-a) * b` |
| ParserExamples.NegatedProductExample | parser/parser.cpp:157-162 | `-a * b` renders `((-a) * b)` |
| ParserExamples.LetProgramExample | parser/parser.cpp:44-62 | from `New`, the tokens of `let x = 5;` parse to the junk statement and a let named `x`, with the one junk error, and render `let x=;` |
| ParserExamples.SemicolonProgramExample | parser/parser.cpp:100-107 | from `New`, `a;` gives the junk statement, `a`, and an expression statement on `;` with no expression: the inverted check stops short of the `;`, which is then parsed as a statement with a second error |
| ParserExamples.DroppedTokenExample | parser/parser.cpp:100-107 | from `New`, `a b` gives the junk statement and `a`: the inverted check steps over `b`, which is never parsed |

## Left out

- `repl/repl.cpp` is not part of this model. It is an interactive loop on
  standard input and output and holds no logic of its own.
- Lexer and parser are not composed. The lexer never returns EOF, so
  `ParseProgram` on a real lexer never ends. The parser is modelled over a
  finite token sequence followed by EOF. `LexerSpec.IllegalForever` states
  what the lexer does instead.
- Divergence is not a Dafny non-terminating loop. A let or return skip
  without a later `;` yields `Diverges` in the functions and a `diverges`
  flag from the methods. The flag is raised once the token source is used
  up and the current token is EOF for good.
- Destructors, freeing and the leaks on the null-return paths are not
  modelled. Uninitialised or null child pointers are `None`. Rendering a
  prefix or infix node with a missing child dereferences null in C++; the
  model requires the child (`Renderable`).
- Handlers are stored as plain function pointers although `New` passes
  pointers to member functions; this registration does not compile as
  written. The model uses the evident registration and dispatch, with
  registries mapping kinds to handler tags.
- `New(Lexer*)` lacks its `return p`. That compiles, but using the result
  is undefined behaviour at run time. The model's `New` returns the parser
  it builds.
- The default entries that `std::map::operator[]` inserts during lookups are
  not modelled; the observable effect is a lookup with a default.
- Integers are unbounded. `stoi`'s `out_of_range` exception and the 32-bit
  `int` of `IntegerLiteral::Value` are not modelled, nor is the `INT64_MAX`
  placeholder.
- Characters are Dafny `char`. The signedness of `char` and `EOF == -1` are
  not modelled; the character 0 stands for the end of the input.
- Parsing.Parser.RegisterPrefix: keeps `Valid()` only for a kind other than
  EOF. Some EOF prefix handlers loop in the code: `parsePrefixExpression`
  registered for EOF, reached with `-` at the end, parses its operand on EOF
  again without end. An identifier or integer handler on EOF would simply
  return. The model bans every EOF entry so that one measure (`Fuel`) bounds
  every parse function.
- Parsing.Parser.RegisterInfix: keeps `Valid()` only for a kind other than
  EOF, for that measure alone. An EOF infix handler is never called in the
  code: EOF has precedence LOWEST, and the infix loop takes the peek token
  only when that is above the precedence the parse started at, which is
  never below LOWEST.
- The `Token` constructors are the datatype constructor `Token(kind,
  literal)` and the constant `Blank` (both fields empty); neither has a
  contract of its own.
