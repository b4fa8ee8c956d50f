/**
 * Token kinds and the keyword table. A token kind is a plain string; a token
 * is an immutable pair of a kind and the literal text it was read from.
 */
module Tokens {

  type TokenType = string

  /** `Token(t, l)` keeps exactly `t` and `l`. */
  datatype Token = Token(kind: TokenType, literal: string)

  /** What the default constructor `Token()` makes: empty kind and literal. */
  const Blank: Token := Token("", "")

  const ILLEGAL: TokenType := "ILLEGAL"
  const EOF: TokenType := "EOF"

  const IDENT: TokenType := "IDENT"
  const INT: TokenType := "INT"

  const ASSIGN: TokenType := "="
  const PLUS: TokenType := "+"
  const MINUS: TokenType := "-"
  const BANG: TokenType := "!"
  const ASTERISK: TokenType := "*"
  const SLASH: TokenType := "/"

  const LT: TokenType := "<"
  const GT: TokenType := ">"

  const EQ: TokenType := "=="
  const NOT_EQ: TokenType := "!="

  const COMMA: TokenType := ","
  const SEMICOLON: TokenType := ";"

  const LPAREN: TokenType := "("
  const RPAREN: TokenType := ")"
  const LBRACE: TokenType := "{"
  const RBRACE: TokenType := "}"

  const FUNCTION: TokenType := "FUNCTION"
  const LET: TokenType := "LET"
  const TRUE: TokenType := "TRUE"
  const FALSE: TokenType := "FALSE"
  const IF: TokenType := "IF"
  const ELSE: TokenType := "ELSE"
  const RETURN: TokenType := "RETURN"

  /** Every kind constant, in the order of their declarations. */
  const AllKinds: seq<TokenType> := [
    ILLEGAL, EOF, IDENT, INT,
    ASSIGN, PLUS, MINUS, BANG, ASTERISK, SLASH, LT, GT, EQ, NOT_EQ,
    COMMA, SEMICOLON, LPAREN, RPAREN, LBRACE, RBRACE,
    FUNCTION, LET, TRUE, FALSE, IF, ELSE, RETURN]

  /** The seven keyword kinds. */
  const KeywordKinds: set<TokenType> := {FUNCTION, LET, TRUE, FALSE, IF, ELSE, RETURN}

  const Keywords: map<string, TokenType> := map[
    "fn" := FUNCTION, "let" := LET, "true" := TRUE, "false" := FALSE,
    "if" := IF, "else" := ELSE, "return" := RETURN]

  /** `keywords[ident]`: the table entry, or the empty kind that `operator[]` yields for a missing key. */
  function KeywordEntry(ident: string): TokenType {
    if ident in Keywords then Keywords[ident] else ""
  }

  /** The kind of a word: its keyword kind when it is one of the seven keywords, IDENT otherwise. */
  function LookupIdent(ident: string): (kind: TokenType)
    ensures kind == IDENT || kind in KeywordKinds
    ensures kind != IDENT <==> ident in {"fn", "let", "true", "false", "if", "else", "return"}
  {
    if KeywordEntry(ident) != "" then KeywordEntry(ident) else IDENT
  }

  /** Each keyword gets its own kind. */
  lemma LookupIdentKeywords()
    ensures LookupIdent("fn") == FUNCTION && LookupIdent("let") == LET
    ensures LookupIdent("true") == TRUE && LookupIdent("false") == FALSE
    ensures LookupIdent("if") == IF && LookupIdent("else") == ELSE
    ensures LookupIdent("return") == RETURN
  {
  }

  /** No word is classified as ILLEGAL, EOF, INT or an operator or delimiter kind. */
  lemma LookupIdentNeverOther(ident: string)
    ensures LookupIdent(ident) !in {ILLEGAL, EOF, INT, ASSIGN, PLUS, MINUS, BANG, ASTERISK, SLASH,
                                    LT, GT, EQ, NOT_EQ, COMMA, SEMICOLON, LPAREN, RPAREN, LBRACE, RBRACE}
  {
  }

  /** The kind constants are pairwise distinct, so comparing kinds never confuses two of them. */
  lemma KindsDistinct()
    ensures forall i, j :: 0 <= i < j < |AllKinds| ==> AllKinds[i] != AllKinds[j]
  {
  }
}
