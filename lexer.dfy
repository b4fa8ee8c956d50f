/**
 * Class `Lexer` of lexer/lexer.cpp: the four fields the methods update in
 * place, and each method proved to move them exactly as the corresponding
 * function of `LexerSpec` does: the constructor as `Start`, `SkipWhitespace`
 * as `ReadWhile`, `PeekCharacter` as `Peek`, `ReadIdentifier` and
 * `ReadNumber` as `ReadRun`, the others as the function of the same name.
 */
module Lexing {
  import opened Tokens
  import opened LexerSpec

  class Lexer {
    var input: string
    var position: int
    var readPosition: int
    var ch: char

    /** The fields as a value. */
    function State(): LexState
      reads this
    {
      LexState(input, position, readPosition, ch)
    }

    /** The invariant every method keeps. */
    predicate Valid()
      reads this
    {
      WellFormed(State())
    }

    /** Zeroed fields, then one `readChar`: the cursor stands on the first character. */
    constructor (input: string)
      ensures Valid() && State() == Start(input) && State() == Cursor(input, 0)
    {
      this.input := input;
      position := 0;
      readPosition := 0;
      ch := NUL;
      new;
      ReadChar();
    }

    method ReadChar()
      requires InBounds(State())
      modifies this
      ensures State() == LexerSpec.ReadChar(old(State()))
    {
      if readPosition >= |input| {
        ch := NUL;
      } else {
        ch := input[readPosition];
        position := readPosition;
        readPosition := readPosition + 1;
      }
    }

    /** `skipeWhiteSpace` in the source. */
    method SkipWhitespace()
      requires Valid()
      modifies this
      ensures Valid() && State() == ReadWhile(old(State()), Whitespace)
    {
      while IsWhitespace(ch)
        invariant Valid() && input == old(input)
        invariant ReadWhile(State(), Whitespace) == ReadWhile(old(State()), Whitespace)
        decreases Measure(State())
      {
        ReadChar();
      }
    }

    method PeekCharacter() returns (c: char)
      requires Valid()
      ensures c == Peek(State())
    {
      if readPosition >= |input| {
        c := NUL;
      } else {
        c := input[readPosition];
      }
    }

    method ReadIdentifier() returns (lit: string)
      requires Valid()
      modifies this
      ensures Valid() && (lit, State()) == ReadRun(old(State()), Letter)
    {
      var pos := position;
      while IsLetter(ch)
        invariant Valid() && input == old(input) && old(position) <= position
        invariant ReadWhile(State(), Letter) == ReadWhile(old(State()), Letter)
        decreases Measure(State())
      {
        ReadChar();
      }
      lit := input[pos..position];
    }

    method ReadNumber() returns (lit: string)
      requires Valid()
      modifies this
      ensures Valid() && (lit, State()) == ReadRun(old(State()), Digit)
    {
      var pos := position;
      while IsDigit(ch)
        invariant Valid() && input == old(input) && old(position) <= position
        invariant ReadWhile(State(), Digit) == ReadWhile(old(State()), Digit)
        decreases Measure(State())
      {
        ReadChar();
      }
      lit := input[pos..position];
    }

    method NextToken() returns (tok: Token)
      requires Valid()
      modifies this
      ensures Valid() && (tok, State()) == LexerSpec.NextToken(old(State()))
    {
      SkipWhitespace();
      if ch == '=' {
        var next := PeekCharacter();
        if next == '=' {
          var c := ch;
          ReadChar();
          tok := Token(EQ, CharCode(c) + CharCode(ch));
        } else {
          tok := NewToken(ASSIGN, ch);
        }
      } else if ch == '!' {
        var next := PeekCharacter();
        if next == '=' {
          var c := ch;
          ReadChar();
          tok := Token(NOT_EQ, CharCode(c) + CharCode(ch));
        } else {
          tok := NewToken(BANG, ch);
        }
      } else if Delimiter(ch).Some? {
        tok := NewToken(Delimiter(ch).value, ch);
      } else if IsLetter(ch) {
        var lit := ReadIdentifier();
        return Token(LookupIdent(lit), lit);
      } else if IsDigit(ch) {
        var lit := ReadNumber();
        return Token(INT, lit);
      } else {
        tok := NewToken(ILLEGAL, ch);
      }
      ReadChar();
    }
  }

  /** `New`: a lexer on `input`, standing on its first character. */
  method New(input: string) returns (l: Lexer)
    ensures fresh(l) && l.Valid() && l.State() == Cursor(input, 0)
  {
    l := new Lexer(input);
  }
}
