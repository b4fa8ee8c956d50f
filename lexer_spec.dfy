/**
 * The lexer's behaviour as functions of its cursor: the fields `input`,
 * `position`, `readPosition` and `ch` of class `Lexer` (lexer/lexer.cpp)
 * gathered in a `LexState`. Every method of the class is proved to move its
 * state as the corresponding function here says: the constructor as
 * `Start`, `SkipWhitespace` as `ReadWhile`, `PeekCharacter` as `Peek`,
 * `ReadIdentifier` and `ReadNumber` as `ReadRun`, the others as the function
 * of the same name.
 *
 * The cursor stands on a character `input[position]` held in `ch`; at the end
 * of the input `ch` is 0 and `position` stays on the last character. An
 * index-level scanner, `TokenAt`, describes the same tokens in terms of
 * positions in the input only, and `NextTokenAt` proves the two agree.
 */
module LexerSpec {
  import opened Wrappers
  import opened Tokens
  import Decimal

  /** The character that stands for "no more input". */
  const NUL: char := 0 as char

  predicate IsLetter(c: char) {
    'a' <= c <= 'z' || 'A' <= c <= 'Z' || c == '_'
  }

  predicate IsDigit(c: char) {
    '0' <= c <= '9'
  }

  predicate IsWhitespace(c: char) {
    c == ' ' || c == '\t' || c == '\r' || c == '\n'
  }

  /** A token whose literal is the one character `c`. */
  function NewToken(kind: TokenType, c: char): Token {
    Token(kind, [c])
  }

  /** `std::to_string(c)` of a `char`: the decimal code of the character, not the character. */
  function CharCode(c: char): string {
    Decimal.NatToString(c as int)
  }

  /** The three character classes the lexer's `while` loops run over. */
  datatype CharClass = Whitespace | Letter | Digit

  predicate InClass(cls: CharClass, c: char) {
    match cls
    case Whitespace => IsWhitespace(c)
    case Letter => IsLetter(c)
    case Digit => IsDigit(c)
  }

  /** The one-character tokens of the `switch` in `NextToken`, apart from `=` and `!`, which may start two-character tokens. */
  function Delimiter(c: char): Option<TokenType> {
    match c
    case '+' => Some(PLUS)
    case '-' => Some(MINUS)
    case '/' => Some(SLASH)
    case '*' => Some(ASTERISK)
    case '<' => Some(LT)
    case '>' => Some(GT)
    case ';' => Some(SEMICOLON)
    case ',' => Some(COMMA)
    case '{' => Some(LBRACE)
    case '}' => Some(RBRACE)
    case '(' => Some(LPAREN)
    case ')' => Some(RPAREN)
    case _ => None
  }

  datatype LexState = LexState(input: string, position: int, readPosition: int, ch: char)

  /** The bounds `readChar` needs. */
  predicate InBounds(s: LexState) {
    0 <= s.position <= s.readPosition <= |s.input|
  }

  /**
   * What the constructor establishes and every method keeps: the cursor
   * stands on `input[position]`, the next character to read is the one after
   * it, and `ch` holds the current character or 0 once the input is used up.
   */
  predicate WellFormed(s: LexState) {
    && InBounds(s)
    && if |s.input| == 0 then s.readPosition == 0 && s.ch == NUL
       else
         && 1 <= s.readPosition
         && s.position == s.readPosition - 1
         && (s.ch == s.input[s.position] || (s.readPosition == |s.input| && s.ch == NUL))
  }

  /** Nothing is left to read and `ch` is 0. */
  predicate Exhausted(s: LexState) {
    s.readPosition == |s.input| && s.ch == NUL
  }

  /** Drops with every character read and at the final read that sets `ch` to 0. */
  function Measure(s: LexState): nat
    requires InBounds(s)
  {
    2 * (|s.input| - s.readPosition) + if s.ch == NUL then 0 else 1
  }

  /** The well-formed state whose current character is `input[i]`, or the exhausted state when `i == |input|`. */
  function Cursor(input: string, i: nat): (s: LexState)
    requires i <= |input|
    ensures WellFormed(s) && s.input == input
    ensures i == |input| ==> Exhausted(s)
  {
    if i < |input| then LexState(input, i, i + 1, input[i])
    else LexState(input, if |input| == 0 then 0 else |input| - 1, |input|, NUL)
  }

  /** The index of the character a well-formed state stands on. */
  function Index(s: LexState): (i: nat)
    requires WellFormed(s)
    ensures i <= |s.input| && Cursor(s.input, i) == s
  {
    if Exhausted(s) then |s.input| else s.position
  }

  /** `readChar`: read the next character; at the end set `ch` to 0 and leave `position` where it is. */
  function ReadChar(s: LexState): (r: LexState)
    requires InBounds(s)
    ensures InBounds(r) && r.input == s.input
    ensures s.position <= r.position && s.readPosition <= r.readPosition
  {
    if s.readPosition >= |s.input| then s.(ch := NUL)
    else s.(ch := s.input[s.readPosition], position := s.readPosition, readPosition := s.readPosition + 1)
  }

  /** The state the constructor leaves: zeroed fields, then one `readChar`. */
  function Start(input: string): (s: LexState)
    ensures s == Cursor(input, 0)
  {
    ReadChar(LexState(input, 0, 0, NUL))
  }

  /** `peekCharacter`: the character after the current one, or 0 at the end. */
  function Peek(s: LexState): char
    requires 0 <= s.readPosition
  {
    if s.readPosition >= |s.input| then NUL else s.input[s.readPosition]
  }

  /** Reading moves the cursor one character on, and never past the end. */
  lemma ReadCharCursor(input: string, i: nat)
    requires i <= |input|
    ensures ReadChar(Cursor(input, i)) == Cursor(input, if i < |input| then i + 1 else i)
  {
  }

  /** A loop `while (InClass(cls, ch)) readChar();`, as the three loops of the lexer run it. */
  function ReadWhile(s: LexState, cls: CharClass): (r: LexState)
    requires WellFormed(s)
    ensures WellFormed(r) && r.input == s.input
    ensures !InClass(cls, r.ch)
    ensures s.position <= r.position && s.readPosition <= r.readPosition
    ensures Measure(r) <= Measure(s)
    decreases Measure(s)
  {
    if InClass(cls, s.ch) then ReadWhile(ReadChar(s), cls) else s
  }

  /** `readIdentifier` and `readNumber`: the loop, then the text from where it started to where `position` stopped. */
  function ReadRun(s: LexState, cls: CharClass): (r: (string, LexState))
    requires WellFormed(s)
    ensures WellFormed(r.1)
  {
    var s' := ReadWhile(s, cls);
    (s.input[s.position..s'.position], s')
  }

  /** `NextToken`: skip white space, then read one token. */
  function NextToken(s: LexState): (r: (Token, LexState))
    requires WellFormed(s)
    ensures WellFormed(r.1) && r.1.input == s.input
    ensures s.position <= r.1.position && s.readPosition <= r.1.readPosition
  {
    ReadToken(ReadWhile(s, Whitespace))
  }

  /** The `switch` of `NextToken`, on the first character after the white space. */
  function ReadToken(s1: LexState): (r: (Token, LexState))
    requires WellFormed(s1)
    ensures WellFormed(r.1) && r.1.input == s1.input
    ensures s1.position <= r.1.position && s1.readPosition <= r.1.readPosition
  {
    if s1.ch == '=' then
      if Peek(s1) == '=' then
        var s2 := ReadChar(s1);
        (Token(EQ, CharCode(s1.ch) + CharCode(s2.ch)), ReadChar(s2))
      else
        (NewToken(ASSIGN, s1.ch), ReadChar(s1))
    else if s1.ch == '!' then
      if Peek(s1) == '=' then
        var s2 := ReadChar(s1);
        (Token(NOT_EQ, CharCode(s1.ch) + CharCode(s2.ch)), ReadChar(s2))
      else
        (NewToken(BANG, s1.ch), ReadChar(s1))
    else if Delimiter(s1.ch).Some? then
      (NewToken(Delimiter(s1.ch).value, s1.ch), ReadChar(s1))
    else if IsLetter(s1.ch) then
      var (lit, s2) := ReadRun(s1, Letter);
      (Token(LookupIdent(lit), lit), s2)
    else if IsDigit(s1.ch) then
      var (lit, s2) := ReadRun(s1, Digit);
      (Token(INT, lit), s2)
    else
      (NewToken(ILLEGAL, s1.ch), ReadChar(s1))
  }

  // ---------------------------------------------------------------------------
  // The same tokens, described by positions in the input

  /** The end of the run of characters of class `cls` that starts at index `i`. */
  function RunEnd(input: string, i: nat, cls: CharClass): (e: nat)
    requires i <= |input|
    ensures i <= e <= |input|
    ensures forall k :: i <= k < e ==> InClass(cls, input[k])
    ensures e == |input| || !InClass(cls, input[e])
    decreases |input| - i
  {
    if i == |input| || !InClass(cls, input[i]) then i else RunEnd(input, i + 1, cls)
  }

  /**
   * The token that starts at index `p` and the index where scanning goes on.
   * A word or number that runs to the very end of the input loses its last
   * character; `==` and `!=` carry the decimal codes of their two characters;
   * past the end there is an ILLEGAL token holding 0.
   */
  function TokenAt(input: string, p: nat): (r: (Token, nat))
    requires p <= |input|
    ensures p < |input| ==> p < r.1 <= |input|
    ensures p == |input| ==> r.1 == p
  {
    var n := |input|;
    if p == n then (Token(ILLEGAL, [NUL]), n)
    else
      var c := input[p];
      if c == '=' && p + 1 < n && input[p + 1] == '=' then (Token(EQ, "6161"), p + 2)
      else if c == '!' && p + 1 < n && input[p + 1] == '=' then (Token(NOT_EQ, "3361"), p + 2)
      else if c == '=' then (Token(ASSIGN, "="), p + 1)
      else if c == '!' then (Token(BANG, "!"), p + 1)
      else if Delimiter(c).Some? then (Token(Delimiter(c).value, [c]), p + 1)
      else if IsLetter(c) then
        var e := RunEnd(input, p, Letter);
        var lit := input[p..if e < n then e else n - 1];
        (Token(LookupIdent(lit), lit), e)
      else if IsDigit(c) then
        var e := RunEnd(input, p, Digit);
        (Token(INT, input[p..if e < n then e else n - 1]), e)
      else (Token(ILLEGAL, [c]), p + 1)
  }

  /** Running a loop from index `i` stops at the end of the run that starts there. */
  lemma {:induction false} ReadWhileCursor(input: string, i: nat, cls: CharClass)
    requires i <= |input|
    ensures ReadWhile(Cursor(input, i), cls) == Cursor(input, RunEnd(input, i, cls))
    decreases |input| - i
  {
    if i < |input| && InClass(cls, input[i]) {
      ReadCharCursor(input, i);
      ReadWhileCursor(input, i + 1, cls);
    }
  }

  lemma CharCodes()
    ensures CharCode('=') == "61" && CharCode('!') == "33"
  {
    assert Decimal.NatToString(6) == "6";
    assert Decimal.NatToString(3) == "3";
  }

  /** The cursor machine reads the token `TokenAt` describes at the first character that is not white space. */
  lemma NextTokenAt(input: string, i: nat)
    requires i <= |input|
    ensures var p := RunEnd(input, i, Whitespace);
            NextToken(Cursor(input, i)) == (TokenAt(input, p).0, Cursor(input, TokenAt(input, p).1))
  {
    ReadWhileCursor(input, i, Whitespace);
    ReadTokenAt(input, RunEnd(input, i, Whitespace));
  }

  lemma ReadTokenAt(input: string, p: nat)
    requires p <= |input|
    ensures ReadToken(Cursor(input, p)) == (TokenAt(input, p).0, Cursor(input, TokenAt(input, p).1))
  {
    if p < |input| {
      var c := input[p];
      if c == '=' || c == '!' {
        ReadOperatorAt(input, p);
      } else if Delimiter(c).None? && IsLetter(c) {
        ReadWordAt(input, p, Letter);
      } else if Delimiter(c).None? && IsDigit(c) {
        ReadWordAt(input, p, Digit);
      } else {
        ReadCharCursor(input, p);
      }
    }
  }

  lemma ReadOperatorAt(input: string, p: nat)
    requires p < |input| && (input[p] == '=' || input[p] == '!')
    ensures ReadToken(Cursor(input, p)) == (TokenAt(input, p).0, Cursor(input, TokenAt(input, p).1))
  {
    var s1 := Cursor(input, p);
    ReadCharCursor(input, p);
    if p + 1 < |input| && input[p + 1] == '=' {
      ReadCharCursor(input, p + 1);
      CharCodes();
      assert ReadChar(s1).ch == '=';
      assert CharCode('=') + CharCode('=') == "6161";
      assert CharCode('!') + CharCode('=') == "3361";
    }
  }

  lemma ReadWordAt(input: string, p: nat, cls: CharClass)
    requires p < |input| && cls != Whitespace && InClass(cls, input[p])
    requires input[p] != '=' && input[p] != '!' && Delimiter(input[p]).None?
    ensures ReadToken(Cursor(input, p)) == (TokenAt(input, p).0, Cursor(input, TokenAt(input, p).1))
  {
    ReadWhileCursor(input, p, cls);
  }

  // ---------------------------------------------------------------------------
  // Properties of the tokens

  /** White space before a token is skipped: the token is the one at the first other character. */
  lemma WhitespaceSkipped(input: string, i: nat)
    requires i <= |input|
    ensures NextToken(Cursor(input, i)) == NextToken(Cursor(input, RunEnd(input, i, Whitespace)))
  {
    NextTokenAt(input, i);
    NextTokenAt(input, RunEnd(input, i, Whitespace));
  }

  /** No token read at a character other than white space has white space in its literal. */
  lemma NoWhitespaceInLiteral(input: string, p: nat)
    requires p <= |input| && (p == |input| || !IsWhitespace(input[p]))
    ensures var lit := TokenAt(input, p).0.literal;
            forall k :: 0 <= k < |lit| ==> !IsWhitespace(lit[k])
  {
    var n := |input|;
    if p < n && (IsLetter(input[p]) || IsDigit(input[p])) {
      var cls := if IsLetter(input[p]) then Letter else Digit;
      var e := RunEnd(input, p, cls);
      var lit := input[p..if e < n then e else n - 1];
      assert TokenAt(input, p).0.literal == lit;
      forall k | 0 <= k < |lit| ensures !IsWhitespace(lit[k]) {
        assert lit[k] == input[p + k] && InClass(cls, input[p + k]);
      }
    }
  }

  /**
   * A word is a maximal run of letters, a number a maximal run of digits, and
   * a word's kind comes from `LookupIdent`. A run that reaches the end of the
   * input loses its last character in the literal and scanning goes on at the
   * end; otherwise it goes on at the character that ended the run.
   */
  lemma WordToken(input: string, p: nat, cls: CharClass)
    requires p < |input| && cls != Whitespace && InClass(cls, input[p])
    ensures var e := RunEnd(input, p, cls);
            var (tok, j) := TokenAt(input, p);
            && tok.kind == (if cls == Letter then LookupIdent(tok.literal) else INT)
            && j == e && p + |tok.literal| <= e && tok.literal == input[p..p + |tok.literal|]
            && (forall k :: p <= k < e ==> InClass(cls, input[k]))
            && (e < |input| ==> |tok.literal| == e - p && !InClass(cls, input[e]))
            && (e == |input| ==> |tok.literal| == e - p - 1)
  {
  }

  /**
   * `==` and `!=` take two characters and carry the decimal codes of both as
   * literal; a lone `=` or `!` and each of `+ - / * < > ; , { } ( )` take one
   * character and carry it as literal.
   */
  lemma OperatorToken(input: string, p: nat)
    requires p < |input| && (input[p] == '=' || input[p] == '!' || Delimiter(input[p]).Some?)
    ensures var c := input[p];
            var two := (c == '=' || c == '!') && p + 1 < |input| && input[p + 1] == '=';
            var (tok, j) := TokenAt(input, p);
            && (two ==> tok == Token(if c == '=' then EQ else NOT_EQ, if c == '=' then "6161" else "3361") && j == p + 2)
            && (!two ==> tok == Token(if c == '=' then ASSIGN else if c == '!' then BANG else Delimiter(c).value, [c])
                         && j == p + 1)
  {
  }

  /** Any other character, and the 0 that stands for the end, is an ILLEGAL token holding that character. */
  lemma IllegalToken(input: string, p: nat)
    requires p <= |input|
    requires p == |input| ||
             var c := input[p]; c != '=' && c != '!' && Delimiter(c).None? && !IsLetter(c) && !IsDigit(c)
    ensures TokenAt(input, p) == if p < |input| then (Token(ILLEGAL, [input[p]]), p + 1) else (Token(ILLEGAL, [NUL]), p)
  {
  }

  /** The kinds a token can have: the EOF kind is not among them. */
  lemma NeverEof(input: string, p: nat)
    requires p <= |input|
    ensures var k := TokenAt(input, p).0.kind;
            k != EOF && (k == ILLEGAL || k == IDENT || k == INT || k in KeywordKinds || k == EQ || k == NOT_EQ ||
                         k == ASSIGN || k == BANG || exists c :: Delimiter(c) == Some(k))
  {
    if p < |input| && Delimiter(input[p]).Some? {
      assert Delimiter(input[p]) == Some(TokenAt(input, p).0.kind);
    }
  }

  /** NextToken never returns the EOF kind, from any state. */
  lemma NextTokenNeverEof(s: LexState)
    requires WellFormed(s)
    ensures NextToken(s).0.kind != EOF
  {
    NextTokenAt(s.input, Index(s));
    NeverEof(s.input, RunEnd(s.input, Index(s), Whitespace));
  }

  /** Once the input is used up every call returns ILLEGAL holding 0 and leaves the fields as they are. */
  lemma ExhaustedFixpoint(s: LexState)
    requires WellFormed(s) && Exhausted(s)
    ensures NextToken(s) == (Token(ILLEGAL, [NUL]), s)
  {
  }

  lemma {:induction false} MeasureCursor(input: string, k: nat, k': nat)
    requires k < k' <= |input| && !Exhausted(Cursor(input, k))
    ensures Measure(Cursor(input, k')) < Measure(Cursor(input, k))
  {
  }

  /** Before the input is used up, every call brings the lexer strictly closer to it. */
  lemma Progress(s: LexState)
    requires WellFormed(s) && !Exhausted(s)
    ensures Measure(NextToken(s).1) < Measure(s)
  {
    var i := Index(s);
    var p := RunEnd(s.input, i, Whitespace);
    NextTokenAt(s.input, i);
    MeasureCursor(s.input, i, TokenAt(s.input, p).1);
  }

  /** The state after `j` calls. */
  function After(s: LexState, j: nat): (r: LexState)
    requires WellFormed(s)
    ensures WellFormed(r) && r.input == s.input
    decreases j
  {
    if j == 0 then s else After(NextToken(s).1, j - 1)
  }

  lemma {:induction false} ExhaustedStays(s: LexState, j: nat)
    requires WellFormed(s) && Exhausted(s)
    ensures After(s, j) == s
    decreases j
  {
    if j > 0 {
      ExhaustedFixpoint(s);
      ExhaustedStays(s, j - 1);
    }
  }

  /** After `Measure(s)` calls the input is used up. */
  lemma {:induction false} ExhaustedAfter(s: LexState, j: nat)
    requires WellFormed(s) && Measure(s) <= j
    ensures Exhausted(After(s, j))
    decreases j
  {
    if Exhausted(s) {
      ExhaustedStays(s, j);
    } else {
      Progress(s);
      ExhaustedAfter(NextToken(s).1, j - 1);
    }
  }

  /**
   * The lexer never signals the end: from the call numbered `Measure(s)` on
   * (counting from 0), every call returns ILLEGAL holding 0 and leaves the
   * fields as they are.
   */
  lemma IllegalForever(s: LexState, j: nat)
    requires WellFormed(s) && Measure(s) <= j
    ensures NextToken(After(s, j)) == (Token(ILLEGAL, [NUL]), After(s, j))
  {
    ExhaustedAfter(s, j);
    ExhaustedFixpoint(After(s, j));
  }

  // ---------------------------------------------------------------------------
  // Worked examples

  /** One call from a cursor, stated through the reference scanner. */
  lemma StepAt(input: string, i: nat, p: nat, t: Token, j: nat)
    requires i <= p <= |input| && j <= |input|
    requires RunEnd(input, i, Whitespace) == p && TokenAt(input, p) == (t, j)
    ensures NextToken(Cursor(input, i)) == (t, Cursor(input, j))
  {
    NextTokenAt(input, i);
  }

  lemma TruncatedWord()
    ensures TokenAt("x", 0) == (Token(IDENT, ""), 1)
  {
    assert RunEnd("x", 0, Letter) == 1;
    LookupIdentKeywords();
  }

  lemma TruncatedNumber()
    ensures TokenAt("5", 0) == (Token(INT, ""), 1)
  {
    assert RunEnd("5", 0, Digit) == 1;
  }

  lemma TruncatedLongWord()
    ensures TokenAt("abc", 0) == (Token(IDENT, "ab"), 3)
  {
    assert RunEnd("abc", 0, Letter) == 3 by {
      assert RunEnd("abc", 2, Letter) == 3;
    }
    assert "abc"[0..2] == "ab";
    LookupIdentKeywords();
  }

  lemma WholeWord()
    ensures TokenAt("abc ", 0) == (Token(IDENT, "abc"), 3)
  {
    assert RunEnd("abc ", 0, Letter) == 3 by {
      assert RunEnd("abc ", 2, Letter) == 3;
    }
    assert "abc "[0..3] == "abc";
    LookupIdentKeywords();
  }

  /** A word or number at the very end of the input loses its last character. */
  lemma TruncationExamples()
    ensures NextToken(Start("x")).0 == Token(IDENT, "")
    ensures NextToken(Start("5")).0 == Token(INT, "")
    ensures NextToken(Start("abc")).0 == Token(IDENT, "ab")
    ensures NextToken(Start("abc ")).0 == Token(IDENT, "abc")
  {
    TruncatedWord();
    StepAt("x", 0, 0, Token(IDENT, ""), 1);
    TruncatedNumber();
    StepAt("5", 0, 0, Token(INT, ""), 1);
    TruncatedLongWord();
    StepAt("abc", 0, 0, Token(IDENT, "ab"), 3);
    WholeWord();
    StepAt("abc ", 0, 0, Token(IDENT, "abc"), 3);
  }

  const LetInput := "let x = 5;"

  lemma LetKeyword()
    ensures TokenAt(LetInput, 0) == (Token(LET, "let"), 3)
  {
    LookupIdentKeywords();
    assert RunEnd(LetInput, 0, Letter) == 3 by {
      assert RunEnd(LetInput, 2, Letter) == 3;
    }
    assert LetInput[0..3] == "let";
  }

  lemma LetName()
    ensures TokenAt(LetInput, 4) == (Token(IDENT, "x"), 5)
  {
    LookupIdentKeywords();
    assert RunEnd(LetInput, 4, Letter) == 5;
    assert LetInput[4..5] == "x";
  }

  lemma LetOthers()
    ensures TokenAt(LetInput, 6) == (Token(ASSIGN, "="), 7)
    ensures TokenAt(LetInput, 8) == (Token(INT, "5"), 9)
    ensures TokenAt(LetInput, 9) == (Token(SEMICOLON, ";"), 10)
    ensures TokenAt(LetInput, 10) == (Token(ILLEGAL, [NUL]), 10)
  {
    assert RunEnd(LetInput, 8, Digit) == 9;
    assert LetInput[8..9] == "5";
  }

  lemma LetSpaces()
    ensures RunEnd(LetInput, 0, Whitespace) == 0
    ensures RunEnd(LetInput, 3, Whitespace) == 4
    ensures RunEnd(LetInput, 5, Whitespace) == 6
    ensures RunEnd(LetInput, 7, Whitespace) == 8
    ensures RunEnd(LetInput, 9, Whitespace) == 9
    ensures RunEnd(LetInput, 10, Whitespace) == 10
  {
  }

  /**
   * `let x = 5;` lexes to its five tokens, each call starting where the one
   * before stopped, and from then on to ILLEGAL holding 0 without moving.
   */
  lemma LetExample()
    ensures Start(LetInput) == Cursor(LetInput, 0)
    ensures NextToken(Cursor(LetInput, 0)) == (Token(LET, "let"), Cursor(LetInput, 3))
    ensures NextToken(Cursor(LetInput, 3)) == (Token(IDENT, "x"), Cursor(LetInput, 5))
    ensures NextToken(Cursor(LetInput, 5)) == (Token(ASSIGN, "="), Cursor(LetInput, 7))
    ensures NextToken(Cursor(LetInput, 7)) == (Token(INT, "5"), Cursor(LetInput, 9))
    ensures NextToken(Cursor(LetInput, 9)) == (Token(SEMICOLON, ";"), Cursor(LetInput, 10))
    ensures NextToken(Cursor(LetInput, 10)) == (Token(ILLEGAL, [NUL]), Cursor(LetInput, 10))
  {
    LetKeyword();
    LetName();
    LetOthers();
    LetSpaces();
    StepAt(LetInput, 0, 0, Token(LET, "let"), 3);
    StepAt(LetInput, 3, 4, Token(IDENT, "x"), 5);
    StepAt(LetInput, 5, 6, Token(ASSIGN, "="), 7);
    StepAt(LetInput, 7, 8, Token(INT, "5"), 9);
    StepAt(LetInput, 9, 9, Token(SEMICOLON, ";"), 10);
    StepAt(LetInput, 10, 10, Token(ILLEGAL, [NUL]), 10);
  }
}
