/**
 * The syntax tree of ast/ast.cpp as closed datatypes. A child pointer that
 * may be null is an `Option`. Each node gives the literal of the token it
 * started at (`TokenLiteral`) and its rendering (`String`).
 */
module Ast {
  import opened Wrappers
  import opened Tokens
  import opened Parens

  datatype Expression =
    | Identifier(token: Token, value: string)
    | IntegerLiteral(token: Token, number: int)
    | PrefixExpression(token: Token, operator: string, right: Option<Expression>)
    | InfixExpression(token: Token, operator: string, left: Option<Expression>, right: Option<Expression>)
  {
    function TokenLiteral(): string {
      token.literal
    }

    /**
     * No child pointer on the way down is null. The source's `String`
     * dereferences the children of prefix and infix nodes without a check,
     * so only such trees can be rendered.
     */
    predicate Renderable() {
      match this
      case Identifier(_, _) => true
      case IntegerLiteral(_, _) => true
      case PrefixExpression(_, _, r) => r.Some? && r.value.Renderable()
      case InfixExpression(_, _, l, r) => l.Some? && r.Some? && l.value.Renderable() && r.value.Renderable()
    }

    /** An identifier renders as its name, an integer literal as its token's text, and operators fully bracketed. */
    function String(): string
      requires Renderable()
    {
      match this
      case Identifier(_, v) => v
      case IntegerLiteral(t, _) => t.literal
      case PrefixExpression(_, op, r) => "(" + op + r.value.String() + ")"
      case InfixExpression(_, op, l, r) => "(" + l.value.String() + " " + op + " " + r.value.String() + ")"
    }

    /** Names, integer texts and operators hold no round bracket. */
    predicate ParenFreeText() {
      match this
      case Identifier(_, v) => ParenFree(v)
      case IntegerLiteral(t, _) => ParenFree(t.literal)
      case PrefixExpression(_, op, r) => ParenFree(op) && (r.Some? ==> r.value.ParenFreeText())
      case InfixExpression(_, op, l, r) =>
        ParenFree(op) && (l.Some? ==> l.value.ParenFreeText()) && (r.Some? ==> r.value.ParenFreeText())
    }
  }

  /** The name of a let statement is always an identifier. */
  type Ident = e: Expression | e.Identifier? witness Identifier(Blank, "")

  datatype Statement =
    | LetStatement(token: Token, name: Ident, value: Option<Expression>)
    | ReturnStatement(token: Token, returnValue: Option<Expression>)
    | ExpressionStatement(token: Token, expression: Option<Expression>)
  {
    function TokenLiteral(): string {
      token.literal
    }

    /** The statement's own null checks cover its value; what lies below must be renderable. */
    predicate Renderable() {
      match this
      case LetStatement(_, _, v) => v.Some? ==> v.value.Renderable()
      case ReturnStatement(_, v) => v.Some? ==> v.value.Renderable()
      case ExpressionStatement(_, e) => e.Some? ==> e.value.Renderable()
    }

    function String(): string
      requires Renderable()
    {
      match this
      case LetStatement(t, name, v) => t.literal + " " + name.String() + "=" + OptionalString(v) + ";"
      case ReturnStatement(t, v) => t.literal + " " + OptionalString(v) + ";"
      case ExpressionStatement(_, e) => OptionalString(e)
    }
  }

  /** A child that may be null: nothing for null. */
  function OptionalString(e: Option<Expression>): string
    requires e.Some? ==> e.value.Renderable()
  {
    if e.Some? then e.value.String() else ""
  }

  datatype Program = Program(statements: seq<Statement>) {
    /** The literal of the first statement's token, or the empty string for an empty program. */
    function TokenLiteral(): string {
      if |statements| > 0 then statements[0].TokenLiteral() else ""
    }

    predicate Renderable() {
      forall i :: 0 <= i < |statements| ==> statements[i].Renderable()
    }

    /** The renderings of the statements, in order, with nothing between them. */
    function String(): string
      requires Renderable()
    {
      Concat(statements)
    }
  }

  function Concat(ss: seq<Statement>): string
    requires forall i :: 0 <= i < |ss| ==> ss[i].Renderable()
  {
    if ss == [] then "" else Concat(ss[..|ss| - 1]) + ss[|ss| - 1].String()
  }

  /** `Program::String`: the loop appending each statement's rendering to the output stream. */
  method WriteProgram(p: Program) returns (out: string)
    requires p.Renderable()
    ensures out == p.String()
  {
    out := "";
    var i := 0;
    while i < |p.statements|
      invariant 0 <= i <= |p.statements|
      invariant out == Concat(p.statements[..i])
    {
      assert p.statements[..i + 1][..i] == p.statements[..i];
      out := out + p.statements[i].String();
      i := i + 1;
    }
    assert p.statements[..i] == p.statements;
  }

  // ---------------------------------------------------------------------------
  // Properties of the rendering

  /** Rendering a program is a homomorphism from statement lists to strings. */
  lemma {:induction false} ConcatAppend(a: seq<Statement>, b: seq<Statement>)
    requires Program(a).Renderable() && Program(b).Renderable()
    ensures Program(a + b).Renderable()
    ensures Program(a + b).String() == Program(a).String() + Program(b).String()
    decreases |b|
  {
    if b == [] {
      assert a + b == a;
    } else {
      var b' := b[..|b| - 1];
      assert (a + b)[..|a + b| - 1] == a + b';
      ConcatAppend(a, b');
    }
  }

  /** A one-statement program renders as that statement. */
  lemma SingleStatement(s: Statement)
    requires s.Renderable()
    ensures Program([s]).Renderable() && Program([s]).String() == s.String()
  {
    assert [s][..0] == [];
    assert Concat([s]) == "" + s.String();
  }

  lemma PrefixEnclosed(op: string, rs: string)
    requires ParenFree(op) && Balanced(rs)
    ensures Enclosed("(" + op + rs + ")")
  {
    ParenFreeBalanced(op);
    BalancedAppend(op, rs);
    Wrap(op + rs);
    assert "(" + op + rs + ")" == "(" + (op + rs) + ")";
  }

  lemma InfixEnclosed(ls: string, op: string, rs: string)
    requires ParenFree(op) && Balanced(ls) && Balanced(rs)
    ensures Enclosed("(" + ls + " " + op + " " + rs + ")")
  {
    var mid := " " + op + " ";
    assert ParenFree(mid);
    ParenFreeBalanced(mid);
    BalancedAppend(ls, mid);
    BalancedAppend(ls + mid, rs);
    Wrap(ls + mid + rs);
    assert "(" + ls + " " + op + " " + rs + ")" == "(" + (ls + mid + rs) + ")";
  }

  /**
   * Renderings are fully parenthesized: when no name, integer text or
   * operator holds a bracket, the rendering of an expression is balanced,
   * and that of a prefix or infix expression is a single bracketed group.
   */
  lemma {:induction false} RenderingBalanced(e: Expression)
    requires e.Renderable() && e.ParenFreeText()
    ensures Balanced(e.String())
    ensures (e.PrefixExpression? || e.InfixExpression?) ==> Enclosed(e.String())
  {
    match e
    case Identifier(_, v) =>
      ParenFreeBalanced(v);
    case IntegerLiteral(t, _) =>
      ParenFreeBalanced(t.literal);
    case PrefixExpression(_, op, r) =>
      RenderingBalanced(r.value);
      PrefixEnclosed(op, r.value.String());
    case InfixExpression(_, op, l, r) =>
      RenderingBalanced(l.value);
      RenderingBalanced(r.value);
      InfixEnclosed(l.value.String(), op, r.value.String());
  }

  /** An integer literal renders as the text it was read from, not as its value. */
  lemma IntegerRendersText()
    ensures IntegerLiteral(Token(INT, "007"), 7).String() == "007"
  {
  }

  /**
   * A statement with a null child renders that child as nothing: a let
   * statement gives its name and `=` with no space between them, a return
   * statement its keyword and a space, an expression statement nothing.
   */
  lemma NullChildRendering()
    ensures LetStatement(Token(LET, "let"), Identifier(Token(IDENT, "x"), "x"), None).String() == "let x=;"
    ensures ReturnStatement(Token(RETURN, "return"), None).String() == "return ;"
    ensures ExpressionStatement(Token(IDENT, "x"), None).String() == ""
  {
  }
}
