/**
 * Worked parses over token sequences, stepped through the parse functions
 * one call at a time.
 */
module ParserExamples {
  import opened Wrappers
  import opened Tokens
  import opened Ast
  import opened ParserSpec
  import opened ParserTheory

  /** The state of a parser with the standard handlers and the given errors that is about to pull token `i`. */
  function AtWith(source: seq<Token>, i: nat, errors: seq<string>): (st: ParserState)
    ensures WellFormed(st)
  {
    ParserState(source, i, SourceAt(source, i - 2), SourceAt(source, i - 1), errors, StandardPrefixFns, StandardInfixFns)
  }

  /** The same state with no error. */
  function At(source: seq<Token>, i: nat): (st: ParserState)
    ensures WellFormed(st)
  {
    ParserState(source, i, SourceAt(source, i - 2), SourceAt(source, i - 1), [], StandardPrefixFns, StandardInfixFns)
  }

  lemma AtNext(source: seq<Token>, i: nat)
    ensures NextToken(At(source, i)) == At(source, i + 1)
  {
  }

  lemma AtWithNext(source: seq<Token>, i: nat, errors: seq<string>)
    ensures NextToken(AtWith(source, i, errors)) == AtWith(source, i + 1, errors)
  {
  }

  lemma PrimedAt(source: seq<Token>)
    ensures Primed(source) == At(source, 2)
  {
  }

  /** An identifier as left operand. */
  lemma IdentifierFirst(st: ParserState, precedence: int)
    requires WellFormed(st) && st.curToken.kind in st.prefixParseFns
    requires st.prefixParseFns[st.curToken.kind] == ParseIdentifierFn
    ensures ParseExpression(st, precedence) == InfixLoop(st, precedence, Some(Identifier(st.curToken, st.curToken.literal)))
  {
  }

  /** A prefix operator as left operand. */
  lemma PrefixFirst(st: ParserState, precedence: int)
    requires WellFormed(st) && st.curToken.kind in st.prefixParseFns
    requires st.prefixParseFns[st.curToken.kind] == ParsePrefixExpressionFn
    ensures ParseExpression(st, precedence) == var p := ParsePrefixExpression(st); InfixLoop(p.1, precedence, p.0)
  {
  }

  lemma LoopStops(st: ParserState, precedence: int, left: Option<Expression>)
    requires WellFormed(st) && !Continues(st, precedence)
    ensures InfixLoop(st, precedence, left) == (left, st)
  {
  }

  /** The binding powers of the operators in the examples below. */
  lemma OperatorPrecedences()
    ensures Precedence(PLUS) == SUM && Precedence(MINUS) == SUM && Precedence(ASTERISK) == PRODUCT
  {
    assert PLUS in Precedences && Precedences[PLUS] == SUM;
    assert MINUS in Precedences && Precedences[MINUS] == SUM;
    assert ASTERISK in Precedences && Precedences[ASTERISK] == PRODUCT;
  }

  /** An identifier at index `i - 2` as left operand of a parse from `At(source, i)`. */
  lemma IdentifierAt(source: seq<Token>, i: nat, precedence: int)
    requires 2 <= i <= |source| + 1 && source[i - 2].kind == IDENT
    ensures ParseExpression(At(source, i), precedence) ==
            InfixLoop(At(source, i), precedence, Some(Identifier(source[i - 2], source[i - 2].literal)))
  {
    IdentifierFirst(At(source, i), precedence);
  }

  /** The infix loop stops before an operator at index `i - 1` that binds no tighter than `precedence`. */
  lemma StopsAt(source: seq<Token>, i: nat, precedence: int, left: Option<Expression>)
    requires 1 <= i <= |source| && Precedence(source[i - 1].kind) <= precedence
    ensures InfixLoop(At(source, i), precedence, left) == (left, At(source, i))
  {
    LoopStops(At(source, i), precedence, left);
  }

  const A := Token(IDENT, "a")
  const B := Token(IDENT, "b")
  const C := Token(IDENT, "c")
  const Plus := Token(PLUS, "+")
  const Minus := Token(MINUS, "-")
  const Times := Token(ASTERISK, "*")

  function Id(t: Token): Option<Expression> {
    Some(Identifier(t, t.literal))
  }

  // ---------------------------------------------------------------------------
  // a + b * c

  const SumProduct := [A, Plus, B, Times, C]

  lemma SumProductRight()
    ensures ParseExpression(At(SumProduct, 4), SUM) ==
            (Some(InfixExpression(Times, "*", Id(B), Id(C))), At(SumProduct, 6))
  {
    OperatorPrecedences();
    var s := SumProduct;
    IdentifierFirst(At(s, 4), SUM);
    assert Continues(At(s, 4), SUM);
    InfixLoopStep(At(s, 4), SUM, Id(B));
    AtNext(s, 4);
    InfixUnfold(At(s, 5), Id(B));
    AtNext(s, 5);
    IdentifierFirst(At(s, 6), PRODUCT);
    LoopStops(At(s, 6), PRODUCT, Id(C));
    LoopStops(At(s, 6), SUM, Some(InfixExpression(Times, "*", Id(B), Id(C))));
  }

  const SumProductTree := InfixExpression(Plus, "+", Id(A), Some(InfixExpression(Times, "*", Id(B), Id(C))))

  lemma SumProductParse()
    ensures ParseExpression(Primed(SumProduct), LOWEST) == (Some(SumProductTree), At(SumProduct, 6))
  {
    PrimedAt(SumProduct);
    IdentifierFirst(At(SumProduct, 2), LOWEST);
    SumProductLoop();
  }

  lemma SumProductLoop()
    ensures InfixLoop(At(SumProduct, 2), LOWEST, Id(A)) == (Some(SumProductTree), At(SumProduct, 6))
  {
    OperatorPrecedences();
    var s := SumProduct;
    InfixLoopStep(At(s, 2), LOWEST, Id(A));
    AtNext(s, 2);
    InfixUnfold(At(s, 3), Id(A));
    AtNext(s, 3);
    SumProductRight();
    LoopStops(At(s, 6), LOWEST, Some(SumProductTree));
  }

  /** Product binds tighter than sum. */
  lemma SumProductExample()
    ensures var r := ParseExpression(Primed(SumProduct), LOWEST);
            r.0.Some? && r.0.value.Renderable() && r.0.value.String() == "(a + (b * c))"
  {
    SumProductParse();
    SumProductRendering();
  }

  lemma SumProductRendering()
    ensures SumProductTree.Renderable() && SumProductTree.String() == "(a + (b * c))"
  {
    var bc := InfixExpression(Times, "*", Id(B), Id(C));
    assert bc.String() == "(b * c)";
    assert SumProductTree.String() == "(a + " + bc.String() + ")";
  }

  // ---------------------------------------------------------------------------
  // a + b - c

  const SumDifference := [A, Plus, B, Minus, C]

  lemma SumDifferenceLeft()
    ensures InfixLoop(At(SumDifference, 2), LOWEST, Id(A)) ==
            InfixLoop(At(SumDifference, 4), LOWEST, Some(InfixExpression(Plus, "+", Id(A), Id(B))))
  {
    OperatorPrecedences();
    InfixLoopStep(At(SumDifference, 2), LOWEST, Id(A));
    AtNext(SumDifference, 2);
    SumDifferencePlus();
  }

  lemma SumDifferencePlus()
    ensures ParseInfixExpression(At(SumDifference, 3), Id(A)) ==
            (Some(InfixExpression(Plus, "+", Id(A), Id(B))), At(SumDifference, 4))
  {
    var s := SumDifference;
    InfixUnfold(At(s, 3), Id(A));
    AtNext(s, 3);
    IdentifierAt(s, 4, SUM);
    OperatorPrecedences();
    StopsAt(s, 4, SUM, Id(B));
  }

  const SumDifferenceTree := InfixExpression(Minus, "-", Some(InfixExpression(Plus, "+", Id(A), Id(B))), Id(C))

  lemma SumDifferenceParse()
    ensures ParseExpression(Primed(SumDifference), LOWEST) == (Some(SumDifferenceTree), At(SumDifference, 6))
  {
    var s := SumDifference;
    var ab := Some(InfixExpression(Plus, "+", Id(A), Id(B)));
    PrimedAt(s);
    IdentifierFirst(At(s, 2), LOWEST);
    SumDifferenceLeft();
    SumDifferenceRight(ab);
  }

  lemma SumDifferenceRight(ab: Option<Expression>)
    ensures InfixLoop(At(SumDifference, 4), LOWEST, ab) == (Some(InfixExpression(Minus, "-", ab, Id(C))), At(SumDifference, 6))
  {
    OperatorPrecedences();
    var s := SumDifference;
    InfixLoopStep(At(s, 4), LOWEST, ab);
    AtNext(s, 4);
    InfixUnfold(At(s, 5), ab);
    AtNext(s, 5);
    IdentifierFirst(At(s, 6), SUM);
    LoopStops(At(s, 6), SUM, Id(C));
    LoopStops(At(s, 6), LOWEST, Some(InfixExpression(Minus, "-", ab, Id(C))));
  }

  /** Equal precedences associate to the left. */
  lemma SumDifferenceExample()
    ensures var r := ParseExpression(Primed(SumDifference), LOWEST);
            r.0.Some? && r.0.value.Renderable() && r.0.value.String() == "((a + b) - c)"
  {
    SumDifferenceParse();
    SumDifferenceRendering();
  }

  lemma SumDifferenceRendering()
    ensures SumDifferenceTree.Renderable() && SumDifferenceTree.String() == "((a + b) - c)"
  {
    var ab := InfixExpression(Plus, "+", Id(A), Id(B));
    assert ab.String() == "(a + b)";
    assert SumDifferenceTree.String() == "(" + ab.String() + " - c)";
  }

  // ---------------------------------------------------------------------------
  // -a * b

  const NegatedProduct := [Minus, A, Times, B]

  lemma NegatedProductLeft()
    ensures ParsePrefixExpression(At(NegatedProduct, 2)) ==
            (Some(PrefixExpression(Minus, "-", Id(A))), At(NegatedProduct, 3))
  {
    OperatorPrecedences();
    var s := NegatedProduct;
    PrefixUnfold(At(s, 2));
    AtNext(s, 2);
    IdentifierFirst(At(s, 3), PREFIX);
    LoopStops(At(s, 3), PREFIX, Id(A));
  }

  const NegatedProductTree := InfixExpression(Times, "*", Some(PrefixExpression(Minus, "-", Id(A))), Id(B))

  lemma NegatedProductParse()
    ensures ParseExpression(Primed(NegatedProduct), LOWEST) == (Some(NegatedProductTree), At(NegatedProduct, 5))
  {
    PrimedAt(NegatedProduct);
    PrefixFirst(At(NegatedProduct, 2), LOWEST);
    NegatedProductLeft();
    NegatedProductLoop();
  }

  lemma NegatedProductLoop()
    ensures InfixLoop(At(NegatedProduct, 3), LOWEST, Some(PrefixExpression(Minus, "-", Id(A)))) ==
            (Some(NegatedProductTree), At(NegatedProduct, 5))
  {
    OperatorPrecedences();
    var s := NegatedProduct;
    var na := Some(PrefixExpression(Minus, "-", Id(A)));
    InfixLoopStep(At(s, 3), LOWEST, na);
    AtNext(s, 3);
    InfixUnfold(At(s, 4), na);
    AtNext(s, 4);
    IdentifierFirst(At(s, 5), PRODUCT);
    LoopStops(At(s, 5), PRODUCT, Id(B));
    LoopStops(At(s, 5), LOWEST, Some(NegatedProductTree));
  }

  /** A prefix operator takes only its own operand. */
  lemma NegatedProductExample()
    ensures var r := ParseExpression(Primed(NegatedProduct), LOWEST);
            r.0.Some? && r.0.value.Renderable() && r.0.value.String() == "((-a) * b)"
  {
    NegatedProductParse();
    NegatedProductRendering();
  }

  lemma NegatedProductRendering()
    ensures NegatedProductTree.Renderable() && NegatedProductTree.String() == "((-a) * b)"
  {
    var na := PrefixExpression(Minus, "-", Id(A));
    assert na.String() == "(-a)";
    assert NegatedProductTree.String() == "(" + na.String() + " * b)";
  }

  // ---------------------------------------------------------------------------
  // Whole programs from a parser made by `New`

  const Junk := ExpressionStatement(Blank, None)
  const FirstError := NoPrefixMessage("")

  lemma MessageTexts()
    ensures FirstError == "no prefix parse function for  found"
    ensures NoPrefixMessage(SEMICOLON) == "no prefix parse function for ; found"
  {
    assert FirstError == "no prefix parse function for " + "" + " found";
    assert NoPrefixMessage(SEMICOLON) == "no prefix parse function for " + ";" + " found";
  }

  /** A new parser reaches the real first token with the junk statement and its error behind it. */
  lemma FromNew(source: seq<Token>, p: Program, st: ParserState)
    requires ParseProgramFrom(AtWith(source, 2, [FirstError]), []) == Done(p, st)
    ensures ParseProgram(NewState(source)) == Done(Program([Junk] + p.statements), st)
  {
    FreshParserJunk(source);
    assert Primed(source).(errors := [FirstError]) == AtWith(source, 2, [FirstError]);
  }

  lemma ProgramEnds(source: seq<Token>, i: nat, errors: seq<string>, acc: seq<Statement>)
    requires i >= |source| + 2
    ensures ParseProgramFrom(AtWith(source, i, errors), acc) == Done(Program(acc), AtWith(source, i, errors))
  {
  }

  /** One round of the program loop over a statement that is kept. */
  lemma ProgramKeeps(st: ParserState, acc: seq<Statement>, s: Statement, st1: ParserState)
    requires WellFormed(st) && st.curToken.kind != EOF && ParseStatement(st) == Done(Some(s), st1)
    ensures ParseProgramFrom(st, acc) == ParseProgramFrom(NextToken(st1), acc + [s])
  {
    ProgramStep(st, acc);
  }

  lemma SkipStep(st: ParserState)
    requires WellFormed(st) && st.curToken.kind != SEMICOLON && Fuel(st) > 0
    ensures SkipToSemicolon(st) == SkipToSemicolon(NextToken(st))
  {
  }

  const Let := Token(LET, "let")
  const X := Token(IDENT, "x")
  const Assign := Token(ASSIGN, "=")
  const Five := Token(INT, "5")
  const Semicolon := Token(SEMICOLON, ";")

  /** The tokens of `let x = 5;`. */
  const LetSource := [Let, X, Assign, Five, Semicolon]

  const LetX := LetStatement(Let, Identifier(X, "x"), None)

  lemma LetSkip()
    ensures SkipToSemicolon(AtWith(LetSource, 4, [FirstError])) == Some(AtWith(LetSource, 6, [FirstError]))
  {
    SkipStep(AtWith(LetSource, 4, [FirstError]));
    AtWithNext(LetSource, 4, [FirstError]);
    SkipStep(AtWith(LetSource, 5, [FirstError]));
    AtWithNext(LetSource, 5, [FirstError]);
  }

  lemma LetStatementParse()
    ensures ParseStatement(AtWith(LetSource, 2, [FirstError])) == Done(Some(LetX), AtWith(LetSource, 6, [FirstError]))
  {
    var st := AtWith(LetSource, 2, [FirstError]);
    assert ParseStatement(st) == ParseLetStatement(st);
    AtWithNext(LetSource, 2, [FirstError]);
    assert ExpectPeek(st, IDENT) == (true, AtWith(LetSource, 3, [FirstError]));
    AtWithNext(LetSource, 3, [FirstError]);
    assert ExpectPeek(AtWith(LetSource, 3, [FirstError]), ASSIGN) == (true, AtWith(LetSource, 4, [FirstError]));
    LetSkip();
  }

  lemma LetProgramParse()
    ensures ParseProgram(NewState(LetSource)) == Done(Program([Junk, LetX]), AtWith(LetSource, 7, [FirstError]))
  {
    LetStatementParse();
    ProgramKeeps(AtWith(LetSource, 2, [FirstError]), [], LetX, AtWith(LetSource, 6, [FirstError]));
    AtWithNext(LetSource, 6, [FirstError]);
    assert [] + [LetX] == [LetX];
    ProgramEnds(LetSource, 7, [FirstError], [LetX]);
    FromNew(LetSource, Program([LetX]), AtWith(LetSource, 7, [FirstError]));
    assert [Junk] + [LetX] == [Junk, LetX];
  }

  lemma LetProgramRendering()
    ensures Program([Junk, LetX]).Renderable() && Program([Junk, LetX]).String() == "let x=;"
  {
    ConcatAppend([Junk], [LetX]);
    assert [Junk] + [LetX] == [Junk, LetX];
    SingleStatement(Junk);
    SingleStatement(LetX);
  }

  /**
   * `let x = 5;` from a new parser: the junk statement, then a let
   * statement named `x` with no value; it renders as `let x=;`.
   */
  lemma LetProgramExample()
    ensures var r := ParseProgram(NewState(LetSource));
            && r.Done? && r.value == Program([Junk, LetX]) && r.state.errors == ["no prefix parse function for  found"]
            && r.value.Renderable() && r.value.String() == "let x=;"
  {
    LetProgramParse();
    LetProgramRendering();
    MessageTexts();
  }

  /** The tokens of `a;`. */
  const SemicolonSource := [A, Semicolon]

  const SemicolonErrors := [FirstError, NoPrefixMessage(SEMICOLON)]

  lemma SemicolonFirst()
    ensures ParseStatement(AtWith(SemicolonSource, 2, [FirstError])) ==
            Done(Some(ExpressionStatement(A, Id(A))), AtWith(SemicolonSource, 2, [FirstError]))
  {
    var st := AtWith(SemicolonSource, 2, [FirstError]);
    IdentifierFirst(st, LOWEST);
    LoopStops(st, LOWEST, Id(A));
  }

  lemma SemicolonSecond()
    ensures ParseStatement(AtWith(SemicolonSource, 3, [FirstError])) ==
            Done(Some(ExpressionStatement(Semicolon, None)), AtWith(SemicolonSource, 4, SemicolonErrors))
  {
    var st := AtWith(SemicolonSource, 3, [FirstError]);
    assert SEMICOLON !in StandardPrefixFns;
    assert [FirstError] + [NoPrefixMessage(SEMICOLON)] == SemicolonErrors;
    assert ParseExpression(st, LOWEST) == (None, AtWith(SemicolonSource, 3, SemicolonErrors));
    AtWithNext(SemicolonSource, 3, SemicolonErrors);
  }

  lemma SemicolonProgramParse()
    ensures ParseProgram(NewState(SemicolonSource)) ==
            Done(Program([Junk, ExpressionStatement(A, Id(A)), ExpressionStatement(Semicolon, None)]),
                 AtWith(SemicolonSource, 5, SemicolonErrors))
  {
    var s1, s2 := ExpressionStatement(A, Id(A)), ExpressionStatement(Semicolon, None);
    SemicolonFirst();
    ProgramKeeps(AtWith(SemicolonSource, 2, [FirstError]), [], s1, AtWith(SemicolonSource, 2, [FirstError]));
    AtWithNext(SemicolonSource, 2, [FirstError]);
    assert [] + [s1] == [s1];
    SemicolonSecond();
    ProgramKeeps(AtWith(SemicolonSource, 3, [FirstError]), [s1], s2, AtWith(SemicolonSource, 4, SemicolonErrors));
    AtWithNext(SemicolonSource, 4, SemicolonErrors);
    assert [s1] + [s2] == [s1, s2];
    ProgramEnds(SemicolonSource, 5, SemicolonErrors, [s1, s2]);
    FromNew(SemicolonSource, Program([s1, s2]), AtWith(SemicolonSource, 5, SemicolonErrors));
    assert [Junk] + [s1, s2] == [Junk, s1, s2];
  }

  /**
   * `a;` from a new parser: a parser that stops short of the `;` leaves it
   * to start a statement of its own, which has no expression and adds an
   * error for `;`.
   */
  lemma SemicolonProgramExample()
    ensures var r := ParseProgram(NewState(SemicolonSource));
            && r.Done?
            && r.value == Program([Junk, ExpressionStatement(A, Id(A)), ExpressionStatement(Semicolon, None)])
            && r.state.errors == ["no prefix parse function for  found", "no prefix parse function for ; found"]
  {
    SemicolonProgramParse();
    MessageTexts();
  }

  /** The tokens of `a b`. */
  const DroppedSource := [A, B]

  lemma DroppedFirst()
    ensures ParseStatement(AtWith(DroppedSource, 2, [FirstError])) ==
            Done(Some(ExpressionStatement(A, Id(A))), AtWith(DroppedSource, 3, [FirstError]))
  {
    var st := AtWith(DroppedSource, 2, [FirstError]);
    IdentifierFirst(st, LOWEST);
    LoopStops(st, LOWEST, Id(A));
    AtWithNext(DroppedSource, 2, [FirstError]);
  }

  /**
   * `a b` from a new parser: the expression statement for `a` steps onto
   * `b`, and the loop of `ParseProgram` steps past it, so `b` is dropped
   * without an error.
   */
  lemma DroppedTokenExample()
    ensures var r := ParseProgram(NewState(DroppedSource));
            && r.Done?
            && r.value == Program([Junk, ExpressionStatement(A, Id(A))])
            && r.state.errors == ["no prefix parse function for  found"]
  {
    var s1 := ExpressionStatement(A, Id(A));
    DroppedFirst();
    ProgramKeeps(AtWith(DroppedSource, 2, [FirstError]), [], s1, AtWith(DroppedSource, 3, [FirstError]));
    AtWithNext(DroppedSource, 3, [FirstError]);
    assert [] + [s1] == [s1];
    ProgramEnds(DroppedSource, 4, [FirstError], [s1]);
    FromNew(DroppedSource, Program([s1]), AtWith(DroppedSource, 4, [FirstError]));
    assert [Junk] + [s1] == [Junk, s1];
    MessageTexts();
  }
}
