/**
 * Class `Parser` of parser/parser.cpp: its fields updated in place by its
 * methods, each proved to leave the fields as the corresponding function of
 * `ParserSpec` says: the constructor as `Constructed`, `New` as `NewState`,
 * `PeekPrecedence` and `CurPrecedence` as `Precedence`, the others as the
 * function of the same name. `Errors`, `RegisterPrefix` and `RegisterInfix`
 * have no counterpart and state their effect on the fields directly. The lexer the parser pulls from is the token
 * sequence `source` with the index `next` of the token the next pull hands
 * out (EOF once the sequence is used up).
 */
module Parsing {
  import opened Wrappers
  import opened Tokens
  import opened Ast
  import opened ParserSpec
  import ParserTheory
  import Decimal

  class Parser {
    var source: seq<Token>
    var next: nat
    var curToken: Token
    var peekToken: Token
    var errors: seq<string>
    var prefixParseFns: map<TokenType, PrefixFn>
    var infixParseFns: map<TokenType, InfixFn>

    /** The fields as a value. */
    function State(): ParserState
      reads this
    {
      ParserState(source, next, curToken, peekToken, errors, prefixParseFns, infixParseFns)
    }

    /** The invariant every parse method keeps. */
    predicate Valid()
      reads this
    {
      WellFormed(State())
    }

    /** No token is pulled: both tokens stay the default token, and no handler is registered. */
    constructor (source: seq<Token>)
      ensures Valid() && State() == Constructed(source)
    {
      this.source := source;
      next := 0;
      curToken := Blank;
      peekToken := Blank;
      errors := [];
      prefixParseFns := map[];
      infixParseFns := map[];
    }

    /** The messages recorded so far, oldest first. */
    method Errors() returns (messages: seq<string>)
      ensures messages == State().errors
    {
      messages := errors;
    }

    predicate CurTokenIs(t: TokenType)
      reads this
    {
      curToken.kind == t
    }

    predicate PeekTokenIs(t: TokenType)
      reads this
    {
      peekToken.kind == t
    }

    function PeekPrecedence(): (p: int)
      reads this
      ensures LOWEST <= p <= CALL
      ensures peekToken.kind !in Precedences ==> p == LOWEST
    {
      PrecedenceTable(peekToken.kind);
      Precedence(peekToken.kind)
    }

    function CurPrecedence(): (p: int)
      reads this
      ensures LOWEST <= p <= CALL
      ensures curToken.kind !in Precedences ==> p == LOWEST
    {
      PrecedenceTable(curToken.kind);
      Precedence(curToken.kind)
    }

    method NextToken()
      requires Valid()
      modifies this
      ensures Valid() && State() == ParserSpec.NextToken(old(State()))
    {
      curToken := peekToken;
      peekToken := SourceAt(source, next);
      next := next + 1;
    }

    method PeekError(t: TokenType)
      modifies this
      ensures State() == ParserSpec.PeekError(old(State()), t)
    {
      errors := errors + [PeekErrorMessage(t, peekToken.kind)];
    }

    method ExpectPeek(t: TokenType) returns (ok: bool)
      requires Valid()
      modifies this
      ensures Valid() && (ok, State()) == ParserSpec.ExpectPeek(old(State()), t)
    {
      if PeekTokenIs(t) {
        NextToken();
        ok := true;
      } else {
        PeekError(t);
        ok := false;
      }
    }

    /**
     * Binds `fn` to kind `t`, replacing an earlier binding. The parse
     * methods are proved for registries without EOF, so only a kind other
     * than EOF keeps the invariant.
     */
    method RegisterPrefix(t: TokenType, fn: PrefixFn)
      modifies this
      ensures State() == old(State()).(prefixParseFns := old(prefixParseFns)[t := fn])
      ensures old(Valid()) && t != EOF ==> Valid()
    {
      prefixParseFns := prefixParseFns[t := fn];
    }

    method RegisterInfix(t: TokenType, fn: InfixFn)
      modifies this
      ensures State() == old(State()).(infixParseFns := old(infixParseFns)[t := fn])
      ensures old(Valid()) && t != EOF ==> Valid()
    {
      infixParseFns := infixParseFns[t := fn];
    }

    method NoPrefixParseFnError(t: TokenType)
      modifies this
      ensures State() == ParserSpec.NoPrefixParseFnError(old(State()), t)
    {
      errors := errors + [NoPrefixMessage(t)];
    }

    // -------------------------------------------------------------------------
    // Expressions

    method ParseIdentifier() returns (e: Option<Expression>)
      ensures e == Some(ParserSpec.ParseIdentifier(State()))
    {
      e := Some(Identifier(curToken, curToken.literal));
    }

    method ParseIntegerLiteral() returns (e: Option<Expression>)
      requires Valid()
      modifies this
      ensures Valid() && (e, State()) == ParserSpec.ParseIntegerLiteral(old(State()))
    {
      var lit := curToken.literal;
      match Decimal.Stoi(lit)
      case InvalidArgument =>
        errors := errors + [IntegerErrorMessage(lit)];
        e := None;
      case Converted(v) =>
        e := Some(IntegerLiteral(curToken, v));
    }

    method ParseExpression(precedence: int) returns (leftExp: Option<Expression>)
      requires Valid()
      modifies this
      ensures Valid() && (leftExp, State()) == ParserSpec.ParseExpression(old(State()), precedence)
      decreases Fuel(State()), 4
    {
      var kind := curToken.kind;
      if kind !in prefixParseFns {
        NoPrefixParseFnError(kind);
        return None;
      }
      leftExp := CallPrefix(prefixParseFns[kind]);
      while !PeekTokenIs(SEMICOLON) && precedence < PeekPrecedence()
        invariant Valid() && Preserves(old(State()), State())
        invariant InfixLoop(State(), precedence, leftExp) == ParserSpec.ParseExpression(old(State()), precedence)
        decreases Fuel(State())
      {
        var infixKind := peekToken.kind;
        if infixKind !in infixParseFns {
          return;
        }
        ghost var before := State();
        var infix := infixParseFns[infixKind];
        NextToken();
        leftExp := CallInfix(infix, leftExp);
        assert Fuel(State()) < Fuel(before);
      }
    }

    /** `prefix(this)` through the function pointer registered for the current kind. */
    method CallPrefix(fn: PrefixFn) returns (e: Option<Expression>)
      requires Valid() && curToken.kind != EOF
      modifies this
      ensures Valid() && (e, State()) == ParserSpec.CallPrefix(old(State()), fn)
      decreases Fuel(State()), 3
    {
      match fn
      case ParseIdentifierFn => e := ParseIdentifier();
      case ParseIntegerLiteralFn => e := ParseIntegerLiteral();
      case ParsePrefixExpressionFn => e := ParsePrefixExpression();
    }

    /** `infix(this, leftExp)` through the function pointer registered for the current kind. */
    method CallInfix(fn: InfixFn, left: Option<Expression>) returns (e: Option<Expression>)
      requires Valid() && curToken.kind != EOF
      modifies this
      ensures Valid() && (e, State()) == ParserSpec.CallInfix(old(State()), fn, left)
      decreases Fuel(State()), 3
    {
      match fn
      case ParseInfixExpressionFn => e := ParseInfixExpression(left);
    }

    method ParsePrefixExpression() returns (e: Option<Expression>)
      requires Valid() && curToken.kind != EOF
      modifies this
      ensures Valid() && (e, State()) == ParserSpec.ParsePrefixExpression(old(State()))
      decreases Fuel(State()), 2
    {
      var tok := curToken;
      NextToken();
      var right := ParseExpression(PREFIX);
      e := Some(PrefixExpression(tok, tok.literal, right));
    }

    method ParseInfixExpression(left: Option<Expression>) returns (e: Option<Expression>)
      requires Valid() && curToken.kind != EOF
      modifies this
      ensures Valid() && (e, State()) == ParserSpec.ParseInfixExpression(old(State()), left)
      decreases Fuel(State()), 2
    {
      var tok := curToken;
      var precedence := CurPrecedence();
      NextToken();
      var right := ParseExpression(precedence);
      e := Some(InfixExpression(tok, tok.literal, left, right));
    }

    // -------------------------------------------------------------------------
    // Statements

    /**
     * The `while (!curTokenIs(SEMICOLON)) nextToken();` loop of the let and
     * return statements. Once the tokens are used up and the current token
     * is still not `;`, the loop in the source never ends; here it stops
     * and reports `diverges`.
     */
    method SkipToSemicolon() returns (diverges: bool)
      requires Valid()
      modifies this
      ensures Valid()
      ensures var r := ParserSpec.SkipToSemicolon(old(State()));
              (diverges <==> r.None?) && (r.Some? ==> State() == r.value)
    {
      while !CurTokenIs(SEMICOLON)
        invariant Valid()
        invariant ParserSpec.SkipToSemicolon(State()) == ParserSpec.SkipToSemicolon(old(State()))
        decreases Fuel(State())
      {
        if Fuel(State()) == 0 {
          return true;
        }
        NextToken();
      }
      return false;
    }

    method ParseLetStatement() returns (stmt: Option<Statement>, diverges: bool)
      requires Valid()
      modifies this
      ensures Valid()
      ensures var r := ParserSpec.ParseLetStatement(old(State()));
              (diverges <==> r.Diverges?) && (r.Done? ==> stmt == r.value && State() == r.state)
    {
      var tok := curToken;
      var sawName := ExpectPeek(IDENT);
      if !sawName {
        return None, false;
      }
      var name := Identifier(curToken, curToken.literal);
      var sawAssign := ExpectPeek(ASSIGN);
      if !sawAssign {
        return None, false;
      }
      diverges := SkipToSemicolon();
      stmt := Some(LetStatement(tok, name, None));
    }

    method ParseReturnStatement() returns (stmt: Option<Statement>, diverges: bool)
      requires Valid()
      modifies this
      ensures Valid()
      ensures var r := ParserSpec.ParseReturnStatement(old(State()));
              (diverges <==> r.Diverges?) && (r.Done? ==> stmt == r.value && State() == r.state)
    {
      var tok := curToken;
      NextToken();
      diverges := SkipToSemicolon();
      stmt := Some(ReturnStatement(tok, None));
    }

    method ParseExpressionStatement() returns (stmt: Statement)
      requires Valid()
      modifies this
      ensures Valid() && (stmt, State()) == ParserSpec.ParseExpressionStatement(old(State()))
    {
      var tok := curToken;
      var e := ParseExpression(LOWEST);
      stmt := ExpressionStatement(tok, e);
      if !PeekTokenIs(SEMICOLON) {
        NextToken();
      }
    }

    method ParseStatement() returns (stmt: Option<Statement>, diverges: bool)
      requires Valid()
      modifies this
      ensures Valid()
      ensures var r := ParserSpec.ParseStatement(old(State()));
              (diverges <==> r.Diverges?) && (r.Done? ==> stmt == r.value && State() == r.state)
    {
      var kind := curToken.kind;
      if kind == LET {
        stmt, diverges := ParseLetStatement();
      } else if kind == RETURN {
        stmt, diverges := ParseReturnStatement();
      } else {
        var s := ParseExpressionStatement();
        stmt, diverges := Some(s), false;
      }
    }

    /**
     * Statements until the current token is EOF, null ones dropped. When a
     * statement never ends, so does the loop in the source; here it stops
     * and reports `diverges`.
     */
    method ParseProgram() returns (program: Program, diverges: bool)
      requires Valid()
      modifies this
      ensures Valid()
      ensures var r := ParserSpec.ParseProgram(old(State()));
              (diverges <==> r.Diverges?) && (r.Done? ==> program == r.value && State() == r.state)
    {
      var statements: seq<Statement> := [];
      while !CurTokenIs(EOF)
        invariant Valid()
        invariant ParseProgramFrom(State(), statements) == ParserSpec.ParseProgram(old(State()))
        decreases Fuel(State())
      {
        ghost var before, gathered := State(), statements;
        var s, d := ParseStatement();
        if d {
          return Program(statements), true;
        }
        ParserTheory.ProgramStep(before, gathered);
        if s.Some? {
          statements := statements + [s.value];
        }
        assert statements == gathered + Kept(s);
        NextToken();
        assert Fuel(State()) < Fuel(before);
      }
      return Program(statements), false;
    }
  }

  /** `New`: a parser over `source` with the standard prefix and infix handlers registered. */
  method New(source: seq<Token>) returns (p: Parser)
    ensures fresh(p) && p.Valid() && p.State() == NewState(source)
  {
    p := new Parser(source);
    p.RegisterPrefix(IDENT, ParseIdentifierFn);
    p.RegisterPrefix(INT, ParseIntegerLiteralFn);
    p.RegisterPrefix(BANG, ParsePrefixExpressionFn);
    p.RegisterPrefix(MINUS, ParsePrefixExpressionFn);

    p.RegisterInfix(PLUS, ParseInfixExpressionFn);
    p.RegisterInfix(MINUS, ParseInfixExpressionFn);
    p.RegisterInfix(ASTERISK, ParseInfixExpressionFn);
    p.RegisterInfix(SLASH, ParseInfixExpressionFn);
    p.RegisterInfix(EQ, ParseInfixExpressionFn);
    p.RegisterInfix(NOT_EQ, ParseInfixExpressionFn);
    p.RegisterInfix(LT, ParseInfixExpressionFn);
    p.RegisterInfix(GT, ParseInfixExpressionFn);
  }
}
