/**
 * What the parser guarantees. An expression parsed without a new error is
 * a complete tree in which every operator binds at least as tightly as the
 * precedence the parse was started at, left operands bind no looser than
 * their operator and right operands strictly tighter (so equal precedences
 * associate to the left), and whose tokens, read left to right, are exactly
 * the tokens the parse consumed.
 */
module ParserTheory {
  import opened Wrappers
  import opened Tokens
  import opened Ast
  import opened ParserSpec
  import Decimal

  /** Binds tighter than any operator. */
  const TOP := CALL + 1

  /** How tightly a node binds: its operator's precedence for an infix node, TOP for all others. */
  function Binding(e: Option<Expression>): int {
    if e.Some? && e.value.InfixExpression? then Precedence(e.value.token.kind) else TOP
  }

  /** Every child is present and binds as precedence climbing demands of it. */
  predicate WellNested(e: Expression) {
    match e
    case Identifier(_, _) => true
    case IntegerLiteral(_, _) => true
    case PrefixExpression(_, _, r) => r.Some? && Binding(r) > PREFIX && WellNested(r.value)
    case InfixExpression(t, _, l, r) =>
      && l.Some? && r.Some?
      && Binding(l) >= Precedence(t.kind) && Binding(r) > Precedence(t.kind)
      && WellNested(l.value) && WellNested(r.value)
  }

  /** The infix loop of a parse at `precedence` would stop here. */
  predicate Stopped(st: ParserState, precedence: int) {
    var kind := st.peekToken.kind;
    kind == SEMICOLON || Precedence(kind) <= precedence || kind !in st.infixParseFns
  }

  /** The tokens of a tree, left to right. */
  function Yield(e: Expression): seq<Token> {
    match e
    case Identifier(t, _) => [t]
    case IntegerLiteral(t, _) => [t]
    case PrefixExpression(t, _, r) => [t] + (if r.Some? then Yield(r.value) else [])
    case InfixExpression(t, _, l, r) =>
      (if l.Some? then Yield(l.value) else []) + [t] + (if r.Some? then Yield(r.value) else [])
  }

  /** The infix loop of a parse at `precedence` goes round once more. */
  predicate Continues(st: ParserState, precedence: int) {
    var kind := st.peekToken.kind;
    kind != SEMICOLON && precedence < Precedence(kind) && kind in st.infixParseFns
  }

  /** One round of the infix loop: the operator becomes current and its right operand is parsed. */
  lemma InfixLoopStep(st: ParserState, precedence: int, left: Option<Expression>)
    requires WellFormed(st) && Continues(st, precedence)
    ensures NextToken(st).curToken.kind != EOF
    ensures var step := ParseInfixExpression(NextToken(st), left);
            InfixLoop(st, precedence, left) == InfixLoop(step.1, precedence, step.0)
  {
    assert CallInfix(NextToken(st), st.infixParseFns[st.peekToken.kind], left) == ParseInfixExpression(NextToken(st), left);
  }

  lemma ErrorsGrew(a: ParserState, b: ParserState, c: ParserState)
    requires a.errors <= b.errors <= c.errors && c.errors == a.errors
    ensures b.errors == a.errors
  {
  }

  // ---------------------------------------------------------------------------
  // Precedence climbing

  lemma {:induction false} ParseExpressionNested(st: ParserState, precedence: int)
    requires WellFormed(st) && precedence < TOP
    ensures var r := ParseExpression(st, precedence);
            r.1.errors == st.errors ==> WellNested(r.0.value) && Binding(r.0) > precedence && Stopped(r.1, precedence)
    decreases Fuel(st), 4
  {
    var kind := st.curToken.kind;
    if kind in st.prefixParseFns {
      var first := CallPrefix(st, st.prefixParseFns[kind]);
      var r := InfixLoop(first.1, precedence, first.0);
      if r.1.errors == st.errors {
        ErrorsGrew(st, first.1, r.1);
        CallPrefixNested(st, st.prefixParseFns[kind]);
        PrecedenceTable(first.1.peekToken.kind);
        InfixLoopNested(first.1, precedence, first.0);
      }
    }
  }

  lemma {:induction false} CallPrefixNested(st: ParserState, fn: PrefixFn)
    requires WellFormed(st) && st.curToken.kind != EOF
    ensures var r := CallPrefix(st, fn);
            r.1.errors == st.errors ==> WellNested(r.0.value) && Binding(r.0) == TOP
    decreases Fuel(st), 3
  {
    if fn == ParsePrefixExpressionFn {
      PrefixNested(st);
    }
  }

  lemma {:induction false} InfixLoopNested(st: ParserState, precedence: int, left: Option<Expression>)
    requires WellFormed(st) && Complete(left) && WellNested(left.value)
    requires Binding(left) > precedence && Stopped(st, Binding(left))
    ensures var r := InfixLoop(st, precedence, left);
            r.1.errors == st.errors ==> WellNested(r.0.value) && Binding(r.0) > precedence && Stopped(r.1, precedence)
    decreases Fuel(st), 1
  {
    if Continues(st, precedence) {
      var st1 := NextToken(st);
      var step := ParseInfixExpression(st1, left);
      InfixLoopStep(st, precedence, left);
      var r := InfixLoop(step.1, precedence, step.0);
      if r.1.errors == st.errors {
        ErrorsGrew(st, step.1, r.1);
        InfixNested(st1, left);
        InfixLoopNested(step.1, precedence, step.0);
      }
    }
  }

  lemma {:induction false} PrefixNested(st: ParserState)
    requires WellFormed(st) && st.curToken.kind != EOF
    ensures var r := ParsePrefixExpression(st);
            r.1.errors == st.errors ==> WellNested(r.0.value)
    decreases Fuel(st), 2
  {
    ParseExpressionNested(NextToken(st), PREFIX);
  }

  lemma {:induction false} InfixNested(st: ParserState, left: Option<Expression>)
    requires WellFormed(st) && st.curToken.kind != EOF
    requires Complete(left) && WellNested(left.value) && Binding(left) >= Precedence(st.curToken.kind)
    ensures var r := ParseInfixExpression(st, left);
            r.1.errors == st.errors ==>
              WellNested(r.0.value) && Binding(r.0) == Precedence(st.curToken.kind) && Stopped(r.1, Binding(r.0))
    decreases Fuel(st), 2
  {
    PrecedenceTable(st.curToken.kind);
    ParseExpressionNested(NextToken(st), Precedence(st.curToken.kind));
  }

  // ---------------------------------------------------------------------------
  // The tokens a parse consumes

  lemma SliceJoin(s: seq<Token>, a: nat, b: nat, c: nat)
    requires a <= b < c <= |s|
    ensures s[a..b] + [s[b]] + s[b + 1..c] == s[a..c]
  {
  }

  /** The number of tokens of a tree. */
  function Width(e: Expression): (n: nat)
    ensures n >= 1
  {
    match e
    case Identifier(_, _) => 1
    case IntegerLiteral(_, _) => 1
    case PrefixExpression(_, _, r) => 1 + (if r.Some? then Width(r.value) else 0)
    case InfixExpression(_, _, l, r) =>
      (if l.Some? then Width(l.value) else 0) + 1 + (if r.Some? then Width(r.value) else 0)
  }

  /** Every child of `e` is present and each token of `e` sits at its place in `source` from `start` on. */
  predicate Matches(source: seq<Token>, start: int, e: Expression)
    decreases e
  {
    match e
    case Identifier(t, _) => SourceAt(source, start) == t
    case IntegerLiteral(t, _) => SourceAt(source, start) == t
    case PrefixExpression(t, _, r) =>
      SourceAt(source, start) == t && r.Some? && Matches(source, start + 1, r.value)
    case InfixExpression(t, _, l, r) =>
      && l.Some? && r.Some?
      && Matches(source, start, l.value)
      && SourceAt(source, start + Width(l.value)) == t
      && Matches(source, start + Width(l.value) + 1, r.value)
  }

  /** `e` is present and its tokens are exactly those of `source` from `start` up to `end`. */
  predicate Consumed(source: seq<Token>, start: int, e: Option<Expression>, end: int) {
    e.Some? && 0 <= start && end <= |source| && end == start + Width(e.value) && Matches(source, start, e.value)
  }

  lemma {:induction false} MatchesYield(source: seq<Token>, start: int, e: Expression)
    requires 0 <= start && start + Width(e) <= |source| && Matches(source, start, e)
    ensures Yield(e) == source[start..start + Width(e)]
    decreases e, 1
  {
    if e.PrefixExpression? {
      PrefixMatchesYield(source, start, e);
    } else if e.InfixExpression? {
      InfixMatchesYield(source, start, e);
    }
  }

  lemma {:induction false} PrefixMatchesYield(source: seq<Token>, start: int, e: Expression)
    requires e.PrefixExpression? && 0 <= start && start + Width(e) <= |source| && Matches(source, start, e)
    ensures Yield(e) == source[start..start + Width(e)]
    decreases e, 0
  {
    var r := e.right.value;
    MatchesYield(source, start + 1, r);
    PrefixSlice(source, start, start + Width(e), e.token, e.operator, r);
  }

  lemma {:induction false} InfixMatchesYield(source: seq<Token>, start: int, e: Expression)
    requires e.InfixExpression? && 0 <= start && start + Width(e) <= |source| && Matches(source, start, e)
    ensures Yield(e) == source[start..start + Width(e)]
    decreases e, 0
  {
    var l, r := e.left.value, e.right.value;
    var mid := start + Width(l);
    MatchesYield(source, start, l);
    MatchesYield(source, mid + 1, r);
    InfixSlice(source, start, mid, start + Width(e), e.token, e.operator, l, r);
  }

  lemma PrefixSlice(source: seq<Token>, b: int, c: int, t: Token, op: string, r: Expression)
    requires 0 <= b < c <= |source| && SourceAt(source, b) == t && Yield(r) == source[b + 1..c]
    ensures Yield(PrefixExpression(t, op, Some(r))) == source[b..c]
  {
    SliceJoin(source, b, b, c);
  }

  lemma InfixSlice(source: seq<Token>, a: int, b: int, c: int, t: Token, op: string, l: Expression, r: Expression)
    requires 0 <= a <= b < c <= |source| && SourceAt(source, b) == t
    requires Yield(l) == source[a..b] && Yield(r) == source[b + 1..c]
    ensures Yield(InfixExpression(t, op, Some(l), Some(r))) == source[a..c]
  {
    SliceJoin(source, a, b, c);
  }

  /** Parsing from a primed state without a new error consumes one token per token of the tree, in place. */
  lemma {:induction false} ParseExpressionYield(st: ParserState, precedence: int)
    requires WellFormed(st) && st.next >= 2
    ensures var r := ParseExpression(st, precedence);
            r.1.errors == st.errors ==> Consumed(st.source, st.next - 2, r.0, r.1.next - 1)
    decreases Fuel(st), 4
  {
    var kind := st.curToken.kind;
    if kind in st.prefixParseFns {
      var first := CallPrefix(st, st.prefixParseFns[kind]);
      var r := InfixLoop(first.1, precedence, first.0);
      if r.1.errors == st.errors {
        ErrorsGrew(st, first.1, r.1);
        CallPrefixYield(st, st.prefixParseFns[kind]);
        InfixLoopYield(first.1, precedence, first.0, st.next - 2);
      }
    }
  }

  lemma {:induction false} CallPrefixYield(st: ParserState, fn: PrefixFn)
    requires WellFormed(st) && st.next >= 2 && st.curToken.kind != EOF
    ensures var r := CallPrefix(st, fn);
            r.1.errors == st.errors ==> Consumed(st.source, st.next - 2, r.0, r.1.next - 1)
    decreases Fuel(st), 3
  {
    if fn == ParsePrefixExpressionFn {
      PrefixYield(st);
    } else {
      CurrentToken(st);
    }
  }

  lemma {:induction false} InfixLoopYield(st: ParserState, precedence: int, left: Option<Expression>, start: nat)
    requires WellFormed(st) && st.next >= 2 && Consumed(st.source, start, left, st.next - 1)
    ensures var r := InfixLoop(st, precedence, left);
            r.1.errors == st.errors ==> Consumed(st.source, start, r.0, r.1.next - 1)
    decreases Fuel(st), 1
  {
    if Continues(st, precedence) {
      InfixLoopStepYield(st, precedence, left, start);
    }
  }

  lemma {:induction false} InfixLoopStepYield(st: ParserState, precedence: int, left: Option<Expression>, start: nat)
    requires WellFormed(st) && st.next >= 2 && Consumed(st.source, start, left, st.next - 1)
    requires Continues(st, precedence)
    ensures var r := InfixLoop(st, precedence, left);
            r.1.errors == st.errors ==> Consumed(st.source, start, r.0, r.1.next - 1)
    decreases Fuel(st), 0
  {
    var st1 := NextToken(st);
    var step := ParseInfixExpression(st1, left);
    InfixLoopStep(st, precedence, left);
    var r := InfixLoop(step.1, precedence, step.0);
    if r.1.errors == st.errors {
      ErrorsGrew(st, step.1, r.1);
      InfixYield(st1, left, start);
      InfixLoopYield(step.1, precedence, step.0, start);
    }
  }

  /** A current token other than EOF is the default token or a real token of the source, so a pull is left. */
  lemma CurrentToken(st: ParserState)
    requires WellFormed(st) && st.curToken.kind != EOF
    ensures st.next - 2 < |st.source| && Fuel(st) > 0
    ensures st.next >= 2 ==> st.curToken == st.source[st.next - 2]
  {
  }

  lemma PrefixUnfold(st: ParserState)
    requires WellFormed(st) && st.curToken.kind != EOF
    ensures var inner := ParseExpression(NextToken(st), PREFIX);
            ParsePrefixExpression(st) == (Some(PrefixExpression(st.curToken, st.curToken.literal, inner.0)), inner.1)
  {
  }

  lemma InfixUnfold(st: ParserState, left: Option<Expression>)
    requires WellFormed(st) && st.curToken.kind != EOF
    ensures var inner := ParseExpression(NextToken(st), Precedence(st.curToken.kind));
            ParseInfixExpression(st, left) == (Some(InfixExpression(st.curToken, st.curToken.literal, left, inner.0)), inner.1)
  {
  }

  lemma {:induction false} PrefixYield(st: ParserState)
    requires WellFormed(st) && st.next >= 2 && st.curToken.kind != EOF
    ensures var r := ParsePrefixExpression(st);
            r.1.errors == st.errors ==> Consumed(st.source, st.next - 2, r.0, r.1.next - 1)
    decreases Fuel(st), 2
  {
    var st1 := NextToken(st);
    var inner := ParseExpression(st1, PREFIX);
    PrefixUnfold(st);
    CurrentToken(st);
    if inner.1.errors == st.errors {
      ParseExpressionYield(st1, PREFIX);
      JoinPrefix(st.source, st.next - 2, inner.1.next - 1, st.curToken, inner.0);
    }
  }

  lemma JoinPrefix(s: seq<Token>, b: int, c: int, t: Token, right: Option<Expression>)
    requires Consumed(s, b + 1, right, c) && t == SourceAt(s, b) && 0 <= b
    ensures Consumed(s, b, Some(PrefixExpression(t, t.literal, right)), c)
  {
  }

  lemma {:induction false} InfixYield(st: ParserState, left: Option<Expression>, start: nat)
    requires WellFormed(st) && st.next >= 2 && st.curToken.kind != EOF
    requires Consumed(st.source, start, left, st.next - 2)
    ensures var r := ParseInfixExpression(st, left);
            r.1.errors == st.errors ==> Consumed(st.source, start, r.0, r.1.next - 1)
    decreases Fuel(st), 2
  {
    var inner := ParseExpression(NextToken(st), Precedence(st.curToken.kind));
    InfixUnfold(st, left);
    if inner.1.errors == st.errors {
      InfixYieldFrom(st, left, start, inner.0, inner.1);
    }
  }

  /** The infix node over `left` and the right operand parsed after the operator. */
  lemma {:induction false} InfixYieldFrom(st: ParserState, left: Option<Expression>, start: nat,
                                          right: Option<Expression>, after: ParserState)
    requires WellFormed(st) && st.next >= 2 && st.curToken.kind != EOF
    requires Consumed(st.source, start, left, st.next - 2)
    requires (right, after) == ParseExpression(NextToken(st), Precedence(st.curToken.kind)) && after.errors == st.errors
    ensures Consumed(st.source, start, Some(InfixExpression(st.curToken, st.curToken.literal, left, right)), after.next - 1)
    decreases Fuel(st), 1
  {
    var st1 := NextToken(st);
    CurrentToken(st);
    ParseExpressionYield(st1, Precedence(st.curToken.kind));
    var b := st.next - 2;
    assert st1.source == st.source && st1.next - 2 == b + 1;
    JoinInfix(st.source, start, b, after.next - 1, st.curToken, left, right);
  }

  lemma JoinInfix(s: seq<Token>, a: int, b: int, c: int, t: Token, left: Option<Expression>, right: Option<Expression>)
    requires Consumed(s, a, left, b) && Consumed(s, b + 1, right, c) && t == SourceAt(s, b)
    ensures Consumed(s, a, Some(InfixExpression(t, t.literal, left, right)), c)
  {
  }

  /**
   * Parsing from a primed state without a new error consumes the tokens
   * from the current one to the last current one, and these are exactly the
   * tokens of the tree, read left to right.
   */
  lemma ParseExpressionTokens(st: ParserState, precedence: int)
    requires WellFormed(st) && st.next >= 2
    ensures var r := ParseExpression(st, precedence);
            r.1.errors == st.errors ==>
              && r.0.Some? && st.next - 2 < r.1.next - 1 <= |st.source|
              && Yield(r.0.value) == st.source[st.next - 2..r.1.next - 1]
  {
    var r := ParseExpression(st, precedence);
    ParseExpressionYield(st, precedence);
    if r.1.errors == st.errors {
      MatchesYield(st.source, st.next - 2, r.0.value);
    }
  }

  // ---------------------------------------------------------------------------
  // Integer literals

  /** A literal of digits only becomes an integer node holding the number the digits denote, with no error. */
  lemma IntegerLiteralDigits(st: ParserState)
    requires WellFormed(st) && |st.curToken.literal| > 0 && Decimal.AllDigits(st.curToken.literal)
    ensures ParseIntegerLiteral(st) == (Some(IntegerLiteral(st.curToken, Decimal.DigitsValue(st.curToken.literal))), st)
  {
    Decimal.StoiDigits(st.curToken.literal);
  }

  /** A literal without a digit, the empty one included, gives null and the one error naming the literal. */
  lemma IntegerLiteralNoDigit(st: ParserState)
    requires WellFormed(st) && forall i :: 0 <= i < |st.curToken.literal| ==> !Decimal.IsDigitChar(st.curToken.literal[i])
    ensures ParseIntegerLiteral(st) ==
            (None, st.(errors := st.errors + ["could not parse " + st.curToken.literal + " as integer"]))
  {
    Decimal.StoiNoDigit(st.curToken.literal);
  }

  // ---------------------------------------------------------------------------
  // Statements

  /** No token of kind `;` at an index in `[from, to)`. */
  predicate NoSemicolon(source: seq<Token>, from: int, to: int) {
    forall k :: from <= k < to && 0 <= k < |source| ==> source[k].kind != SEMICOLON
  }

  /**
   * The skip loop of let and return statements ends exactly when a `;` is
   * current now or comes later, and then it stops at the first one, having
   * recorded nothing.
   */
  lemma {:induction false} SkipFindsSemicolon(st: ParserState)
    requires WellFormed(st)
    ensures SkipToSemicolon(st).None? <==> NoSemicolon(st.source, st.next - 2, |st.source|)
    ensures SkipToSemicolon(st).Some? ==>
              var r := SkipToSemicolon(st).value;
              && st.next <= r.next && 0 <= r.next - 2 < |st.source|
              && st.source[r.next - 2].kind == SEMICOLON
              && NoSemicolon(st.source, st.next - 2, r.next - 2)
    decreases Fuel(st)
  {
    if st.curToken.kind != SEMICOLON && Fuel(st) > 0 {
      SkipFindsSemicolon(NextToken(st));
    }
  }

  /**
   * A let statement needs a name and then `=`; without either it returns
   * null with one error and the cursor where the check failed. With both,
   * it loops forever when no `;` follows, and otherwise returns a statement
   * with that name and no value, standing on the first `;`.
   */
  lemma LetCases(st: ParserState)
    requires WellFormed(st)
    ensures var r := ParseLetStatement(st);
            var after := SourceAt(st.source, st.next);
            && (st.peekToken.kind != IDENT ==> r == Done(None, PeekError(st, IDENT)))
            && (st.peekToken.kind == IDENT && after.kind != ASSIGN ==> r == Done(None, PeekError(NextToken(st), ASSIGN)))
            && (st.peekToken.kind == IDENT && after.kind == ASSIGN ==>
                  && (r.Diverges? <==> NoSemicolon(st.source, st.next, |st.source|))
                  && (r.Done? ==>
                        && r.value == Some(LetStatement(st.curToken, Identifier(st.peekToken, st.peekToken.literal), None))
                        && r.state.errors == st.errors && r.state.curToken.kind == SEMICOLON))
  {
    if st.peekToken.kind == IDENT && SourceAt(st.source, st.next).kind == ASSIGN {
      SkipFindsSemicolon(NextToken(NextToken(st)));
    }
  }

  /** A return statement loops forever when no `;` follows the keyword, and otherwise stops on the first one. */
  lemma ReturnCases(st: ParserState)
    requires WellFormed(st)
    ensures var r := ParseReturnStatement(st);
            && (r.Diverges? <==> NoSemicolon(st.source, st.next - 1, |st.source|))
            && (r.Done? ==> r.state.curToken.kind == SEMICOLON)
  {
    SkipFindsSemicolon(NextToken(st));
  }

  // ---------------------------------------------------------------------------
  // Programs

  lemma ProgramStep(st: ParserState, acc: seq<Statement>)
    requires WellFormed(st) && st.curToken.kind != EOF && ParseStatement(st).Done?
    ensures var o := ParseStatement(st);
            ParseProgramFrom(st, acc) == ParseProgramFrom(NextToken(o.state), acc + Kept(o.value))
  {
  }

  lemma ConcatAssociates<T>(a: seq<T>, b: seq<T>, c: seq<T>)
    ensures (a + b) + c == a + (b + c)
  {
  }

  /** The loop gathers statements in order: what it gathers from a state does not depend on what came before. */
  lemma {:induction false} ProgramAccumulates(st: ParserState, acc: seq<Statement>)
    requires WellFormed(st)
    ensures var r, q := ParseProgramFrom(st, acc), ParseProgramFrom(st, []);
            && (r.Done? <==> q.Done?)
            && (r.Done? ==> r.state == q.state && r.value.statements == acc + q.value.statements)
    decreases Fuel(st)
  {
    if st.curToken.kind != EOF {
      var o := ParseStatement(st);
      if o.Done? {
        var kept := Kept(o.value);
        var st2 := NextToken(o.state);
        ProgramStep(st, acc);
        ProgramStep(st, []);
        assert [] + kept == kept;
        ProgramAccumulates(st2, acc + kept);
        ProgramAccumulates(st2, kept);
        var tail := ParseProgramFrom(st2, []);
        if tail.Done? {
          ConcatAssociates(acc, kept, tail.value.statements);
        }
      }
    }
  }

  /** One round of the program loop over an expression statement whose expression stops short of a `;`. */
  lemma RoundStopsShort(st: ParserState, acc: seq<Statement>)
    requires WellFormed(st) && st.curToken.kind != LET && st.curToken.kind != RETURN && st.curToken.kind != EOF
    requires ParseExpression(st, LOWEST).1.peekToken.kind == SEMICOLON
    ensures var r := ParseExpression(st, LOWEST);
            ParseProgramFrom(st, acc) == ParseProgramFrom(NextToken(r.1), acc + [ExpressionStatement(st.curToken, r.0)])
  {
    ProgramStep(st, acc);
  }

  /** One round of the program loop over an expression statement whose expression is followed by another token. */
  lemma RoundSteps(st: ParserState, acc: seq<Statement>)
    requires WellFormed(st) && st.curToken.kind != LET && st.curToken.kind != RETURN && st.curToken.kind != EOF
    requires ParseExpression(st, LOWEST).1.peekToken.kind != SEMICOLON
    ensures var r := ParseExpression(st, LOWEST);
            ParseProgramFrom(st, acc) == ParseProgramFrom(NextToken(NextToken(r.1)), acc + [ExpressionStatement(st.curToken, r.0)])
  {
    ProgramStep(st, acc);
  }

  /** A statement on a token with no prefix handler has no expression and records one error. */
  lemma NoPrefixStatement(st: ParserState)
    requires WellFormed(st) && st.curToken.kind != LET && st.curToken.kind != RETURN
    requires st.curToken.kind !in st.prefixParseFns
    ensures var o := ParseStatement(st);
            && o.Done? && o.value == Some(ExpressionStatement(st.curToken, None))
            && o.state.errors == st.errors + [NoPrefixMessage(st.curToken.kind)]
  {
  }

  /** An expression parsed without a new error started on a token other than EOF and took the source up to `j`. */
  lemma ExpressionSpan(st: ParserState, precedence: int)
    requires WellFormed(st) && st.next >= 2 && ParseExpression(st, precedence).1.errors == st.errors
    ensures var r := ParseExpression(st, precedence);
            && st.curToken.kind in st.prefixParseFns && r.0.Some? && st.next - 2 < r.1.next - 1 <= |st.source|
            && Yield(r.0.value) == st.source[st.next - 2..r.1.next - 1]
            && r.1.peekToken == SourceAt(st.source, r.1.next - 1)
  {
    ParseExpressionTokens(st, precedence);
  }

  /** With `;` as the peek token, the next statement is on the `;`. */
  lemma SemicolonNext(st: ParserState)
    requires WellFormed(st) && st.peekToken.kind == SEMICOLON && SEMICOLON !in st.prefixParseFns
    ensures var o := ParseStatement(NextToken(st));
            && o.Done? && o.value == Some(ExpressionStatement(st.peekToken, None))
            && o.state.errors == st.errors + [NoPrefixMessage(SEMICOLON)]
  {
    NoPrefixStatement(NextToken(st));
  }

  /**
   * After an expression that stops short of a `;`, the next statement is
   * on the `;`: it has no expression and records one error for the missing
   * prefix handler.
   */
  lemma SemicolonStatement(st: ParserState, precedence: int)
    requires WellFormed(st) && SEMICOLON !in st.prefixParseFns
    requires ParseExpression(st, precedence).1.errors == st.errors
    requires SourceAt(st.source, ParseExpression(st, precedence).1.next - 1).kind == SEMICOLON
    ensures var r := ParseExpression(st, precedence);
            var o := ParseStatement(NextToken(r.1));
            && 0 <= r.1.next - 1 < |st.source| && NextToken(r.1).curToken == st.source[r.1.next - 1]
            && o.Done? && o.value == Some(ExpressionStatement(st.source[r.1.next - 1], None))
            && o.state.errors == st.errors + [NoPrefixMessage(SEMICOLON)]
  {
    var r := ParseExpression(st, precedence);
    SemicolonNext(r.1);
  }

  /**
   * An expression statement whose expression takes the tokens from the
   * current one up to index `j` without a new error (`ExpressionSpan`),
   * when the token at `j` is `;`: the statement stops short of the `;`, so
   * the next round of the program loop starts on it, and parses it as a
   * statement of its own (`SemicolonStatement`).
   */
  lemma ExpressionStatementSemicolon(st: ParserState, acc: seq<Statement>)
    requires WellFormed(st) && st.next >= 2 && st.curToken.kind != LET && st.curToken.kind != RETURN
    requires ParseExpression(st, LOWEST).1.errors == st.errors
    requires SourceAt(st.source, ParseExpression(st, LOWEST).1.next - 1).kind == SEMICOLON
    ensures var r := ParseExpression(st, LOWEST);
            && ParseProgramFrom(st, acc) == ParseProgramFrom(NextToken(r.1), acc + [ExpressionStatement(st.curToken, r.0)])
            && NextToken(r.1).curToken == SourceAt(st.source, r.1.next - 1) && NextToken(r.1).errors == st.errors
  {
    ExpressionSpan(st, LOWEST);
    RoundStopsShort(st, acc);
  }

  /**
   * The same when the token at `j` is not `;`: the statement steps onto it,
   * and the program loop steps past it, so the next statement starts at
   * `j + 1` and the token at `j` is never parsed.
   */
  lemma ExpressionStatementSkips(st: ParserState, acc: seq<Statement>)
    requires WellFormed(st) && st.next >= 2 && st.curToken.kind != LET && st.curToken.kind != RETURN
    requires ParseExpression(st, LOWEST).1.errors == st.errors
    requires SourceAt(st.source, ParseExpression(st, LOWEST).1.next - 1).kind != SEMICOLON
    ensures var r := ParseExpression(st, LOWEST);
            var resumed := NextToken(NextToken(r.1));
            && ParseProgramFrom(st, acc) == ParseProgramFrom(resumed, acc + [ExpressionStatement(st.curToken, r.0)])
            && resumed.curToken == SourceAt(st.source, r.1.next) && resumed.errors == st.errors
  {
    ExpressionSpan(st, LOWEST);
    RoundSteps(st, acc);
  }

  /** A parser that has pulled its first two tokens, with the standard handlers. */
  function Primed(source: seq<Token>): (st: ParserState)
    ensures WellFormed(st) && st.next == 2 && st.errors == []
    ensures st.curToken == SourceAt(source, 0) && st.peekToken == SourceAt(source, 1)
  {
    NextToken(NextToken(NewState(source)))
  }

  /**
   * The constructor pulls no token, so a parser made by `New` first parses
   * the default token: a statement with no expression, and an error for the
   * empty kind. After that it goes on as a primed parser would.
   */
  lemma FreshParserJunk(source: seq<Token>)
    ensures var r := ParseProgram(NewState(source));
            var q := ParseProgramFrom(Primed(source).(errors := [NoPrefixMessage("")]), []);
            && (r.Done? <==> q.Done?)
            && (r.Done? ==> r.state == q.state && r.value.statements == [ExpressionStatement(Blank, None)] + q.value.statements)
    ensures var r := ParseProgram(NewState(source));
            r.Done? ==> && |r.value.statements| >= 1 && r.value.statements[0] == ExpressionStatement(Blank, None)
                        && |r.state.errors| >= 1 && r.state.errors[0] == "no prefix parse function for  found"
  {
    var st := NewState(source);
    var msg := NoPrefixMessage("");
    var junk := ExpressionStatement(Blank, None);
    JunkStatement(source);
    ProgramStep(st, []);
    assert [] + [junk] == [junk];
    assert NextToken(NextToken(st.(errors := [msg]))) == Primed(source).(errors := [msg]);
    ProgramAccumulates(Primed(source).(errors := [msg]), [junk]);
  }

  /** The program a parser made by `New` returns starts with the junk statement on the default token, so its token literal is empty. */
  lemma FreshProgramTokenLiteral(source: seq<Token>)
    ensures var r := ParseProgram(NewState(source));
            r.Done? ==> r.value.TokenLiteral() == ""
  {
    FreshParserJunk(source);
  }

  lemma JunkStatement(source: seq<Token>)
    ensures var st := NewState(source);
            ParseStatement(st) == Done(Some(ExpressionStatement(Blank, None)), NextToken(st.(errors := [NoPrefixMessage("")])))
  {
    var st := NewState(source);
    assert Blank.kind !in StandardPrefixFns;
    var e := ParseExpression(st, LOWEST);
    assert e.1.errors == [NoPrefixMessage("")];
    assert e == (None, st.(errors := [NoPrefixMessage("")]));
  }
}
