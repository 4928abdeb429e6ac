/**
 * The scanner as the object it is: a cursor over the source text whose
 * position, current character, line and column are advanced in place. Every
 * method is proved to leave the cursor where the matching function of
 * `Scanning` says and to produce the token that function produces.
 */
module LexicalAnalysis {
  import opened Wrappers
  import opened Text
  import opened Tokens
  import opened Scanning

  /** A method's token result agrees with a scanning function's result when the cursor is left at `position`. */
  predicate Agrees(r: Result<Token, LexicalError>, spec: Result<Scanned, LexicalError>, position: nat)
  {
    match spec
    case Success(s) => r == Success(s.token) && position == s.next
    case Failure(e) => r == Failure(e)
  }

  /** The tokens already produced in front of the result of scanning the rest. */
  function Prepend(tokens: seq<Token>, r: Result<seq<Token>, LexicalError>): Result<seq<Token>, LexicalError>
  {
    match r
    case Success(rest) => Success(tokens + rest)
    case Failure(e) => Failure(e)
  }

  lemma PrependNothing(r: Result<seq<Token>, LexicalError>)
    ensures Prepend([], r) == r
  {
    if r.Success? {
      assert [] + r.value == r.value;
    }
  }

  /** One token read moves from the tokens still to come to the tokens read. */
  lemma TokenizeStep(src: string, p: nat, tokens: seq<Token>)
    requires p <= |src|
    requires NextToken(src, p).Success? && NextToken(src, p).value.token.kind != Eof
    ensures NextToken(src, p).value.next <= |src|
    ensures Prepend(tokens, Tokenize(src, p))
      == Prepend(tokens + [NextToken(src, p).value.token], Tokenize(src, NextToken(src, p).value.next))
  {
    var s := NextToken(src, p).value;
    if Tokenize(src, s.next).Success? {
      assert tokens + ([s.token] + Tokenize(src, s.next).value) == tokens + [s.token] + Tokenize(src, s.next).value;
    }
  }

  class LexicalAnalyzer {
    const sourceCode: string
    var position: nat
    var currentCharacter: Option<char>
    var line: int
    var column: int

    /** The current character, line and column are those of `position`, which is within the text or just past it. */
    ghost predicate Valid()
      reads this
    {
      && position <= |sourceCode|
      && currentCharacter == CharAt(sourceCode, position)
      && (line, column) == LineColumn(sourceCode, position)
    }

    constructor (sourceCode: string)
      ensures Valid() && this.sourceCode == sourceCode && position == 0
      ensures line == 1 && column == 1
    {
      this.sourceCode := sourceCode;
      position := 0;
      currentCharacter := if |sourceCode| > 0 then Some(sourceCode[0]) else None;
      line := 1;
      column := 1;
    }

    /** `_advance`: one step further; a '\n' starts a new line at column 1, anything else moves one column. */
    method Advance()
      requires Valid()
      modifies this
      ensures position == old(position) + 1 && currentCharacter == CharAt(sourceCode, position)
      ensures old(currentCharacter) == Some('\n') ==> line == old(line) + 1 && column == 1
      ensures old(currentCharacter) != Some('\n') ==> line == old(line) && column == old(column) + 1
      ensures old(position) < |sourceCode| ==> Valid()
    {
      if currentCharacter == Some('\n') {
        line := line + 1;
        column := 1;
      } else {
        column := column + 1;
      }
      position := position + 1;
      currentCharacter := if position < |sourceCode| then Some(sourceCode[position]) else None;
    }

    /** `_peek`: the character `offset` places ahead, or None past the end. */
    function Peek(offset: nat): (c: Option<char>)
      reads this
      ensures c.Some? <==> position + offset < |sourceCode|
      ensures c.Some? ==> c.value == sourceCode[position + offset]
    {
      var index := position + offset;
      if index < |sourceCode| then Some(sourceCode[index]) else None
    }

    method SkipWhitespace()
      requires Valid()
      modifies this
      ensures Valid() && position == Scanning.SkipWhitespace(sourceCode, old(position))
    {
      while currentCharacter.Some? && IsBlank(currentCharacter.value)
        invariant Valid() && old(position) <= position
        invariant Scanning.SkipWhitespace(sourceCode, position) == Scanning.SkipWhitespace(sourceCode, old(position))
        decreases |sourceCode| - position
      {
        Advance();
      }
    }

    method SkipComment()
      requires Valid() && currentCharacter == Some('#')
      modifies this
      ensures Valid() && position == Scanning.SkipComment(sourceCode, old(position))
    {
      Advance();
      while currentCharacter.Some? && currentCharacter.value != '\n'
        invariant Valid() && old(position) < position
        invariant SkipToNewline(sourceCode, position) == Scanning.SkipComment(sourceCode, old(position))
        decreases |sourceCode| - position
      {
        Advance();
      }
    }

    method SkipConsecutiveNewlines()
      requires Valid()
      modifies this
      ensures Valid() && position == SkipNewlines(sourceCode, old(position))
    {
      while currentCharacter == Some('\n')
        invariant Valid() && old(position) <= position
        invariant SkipNewlines(sourceCode, position) == SkipNewlines(sourceCode, old(position))
        decreases |sourceCode| - position
      {
        Advance();
      }
    }

    method TokenizeNumber() returns (r: Result<Token, LexicalError>)
      requires Valid()
      modifies this
      ensures Valid() && Agrees(r, ScanNumber(sourceCode, old(position)), position)
    {
      var startLine, startColumn := line, column;
      var numberLexeme := "";
      var hasDot := false;
      while currentCharacter.Some? && (IsDigit(currentCharacter.value) || currentCharacter.value == '.')
        invariant Valid() && old(position) <= position
        invariant numberLexeme == sourceCode[old(position)..position]
        invariant NumberEnd(sourceCode, position, hasDot) == NumberEnd(sourceCode, old(position), false)
        decreases |sourceCode| - position
      {
        if currentCharacter.value == '.' {
          var next := Peek(1);
          if hasDot || !(next.Some? && IsDigit(next.value)) {
            break;
          }
          hasDot := true;
        }
        numberLexeme := numberLexeme + [currentCharacter.value];
        Advance();
      }
      if numberLexeme == "" || numberLexeme == "." {
        return Failure(LexicalError(InvalidNumberFormat, "Invalid number: '" + numberLexeme + "'", position, line, column));
      }
      return Success(TokenWithLexeme(NumberLiteral, startLine, startColumn, numberLexeme));
    }

    method TokenizeString() returns (r: Result<Token, LexicalError>)
      requires Valid() && currentCharacter.Some?
      modifies this
      ensures Valid() && Agrees(r, ScanString(sourceCode, old(position)), position)
    {
      var startLine, startColumn := line, column;
      var quote := currentCharacter.value;
      Advance();
      var stringLexeme := [quote];
      while currentCharacter.Some? && currentCharacter.value != quote
        invariant Valid() && old(position) < position
        invariant StringBody(sourceCode, position, quote, stringLexeme) == StringBody(sourceCode, old(position) + 1, quote, [quote])
        decreases |sourceCode| - position
      {
        if currentCharacter.value == '\n' {
          return Failure(LexicalError(UnterminatedString, "Unterminated string (newline)", position, line, column));
        }
        if currentCharacter.value == '\\' {
          Advance();
          if currentCharacter.None? {
            return Failure(LexicalError(UnterminatedString, "Unterminated string (escape end)", position, line, column));
          }
          stringLexeme := stringLexeme + [Escape(currentCharacter.value)];
        } else {
          stringLexeme := stringLexeme + [currentCharacter.value];
        }
        Advance();
      }
      if currentCharacter != Some(quote) {
        return Failure(LexicalError(UnterminatedString, "Unterminated string, expected '" + [quote] + "'", position, line, column));
      }
      stringLexeme := stringLexeme + [quote];
      Advance();
      return Success(TokenWithLexeme(StringLiteral, startLine, startColumn, stringLexeme));
    }

    method TokenizeIdentifier() returns (t: Token)
      requires Valid() && currentCharacter.Some? && IsAlphabeticUnderscoreDollar(currentCharacter.value)
      modifies this
      ensures Valid() && t == ScanIdentifier(sourceCode, old(position)).token
      ensures position == ScanIdentifier(sourceCode, old(position)).next
    {
      var startLine, startColumn := line, column;
      var identifierLexeme := "";
      while currentCharacter.Some? && IsAlphanumericUnderscoreDollar(currentCharacter.value)
        invariant Valid() && old(position) <= position
        invariant identifierLexeme == sourceCode[old(position)..position]
        invariant IdentifierEnd(sourceCode, position) == IdentifierEnd(sourceCode, old(position))
        decreases |sourceCode| - position
      {
        identifierLexeme := identifierLexeme + [currentCharacter.value];
        Advance();
      }
      t := ClassifyWord(identifierLexeme, startLine, startColumn);
    }

    /** `_matches_operator`: the first character is the current one, the others are peeked at. */
    method MatchesOperator(operatorLexeme: string) returns (b: bool)
      requires Valid()
      ensures b == Matches(sourceCode, position, operatorLexeme)
    {
      for i := 0 to |operatorLexeme|
        invariant forall j | 0 <= j < i :: CharAt(sourceCode, position + j) == Some(operatorLexeme[j])
      {
        if i == 0 {
          if currentCharacter != Some(operatorLexeme[i]) {
            return false;
          }
        } else {
          if Peek(i) != Some(operatorLexeme[i]) {
            return false;
          }
        }
      }
      return true;
    }

    method TokenizeMultiCharacterOperator() returns (t: Option<Token>)
      requires Valid()
      modifies this
      ensures Valid()
      ensures match FirstMatch(sourceCode, old(position), MultiCharacterOperators)
        case None => t.None? && position == old(position)
        case Some((op, kind)) =>
          t == Some(Token(kind, old(line), old(column))) && position == old(position) + |op|
    {
      var startLine, startColumn := line, column;
      ghost var start := position;
      var k := 0;
      while k < |MultiCharacterOperators|
        invariant k <= |MultiCharacterOperators|
        invariant Valid() && position == start
        invariant FirstMatch(sourceCode, start, MultiCharacterOperators) == FirstMatch(sourceCode, start, MultiCharacterOperators[k..])
      {
        var (operatorLexeme, tokenType) := MultiCharacterOperators[k];
        var matches := MatchesOperator(operatorLexeme);
        if matches {
          assert FirstMatch(sourceCode, start, MultiCharacterOperators[k..]) == Some((operatorLexeme, tokenType));
          MatchesMeansSlice(sourceCode, position, operatorLexeme);
          for i := 0 to |operatorLexeme|
            invariant Valid() && position == start + i
          {
            Advance();
          }
          return Some(Token(tokenType, startLine, startColumn));
        }
        assert MultiCharacterOperators[k..][1..] == MultiCharacterOperators[k + 1..];
        k := k + 1;
      }
      return None;
    }

    /** The branches of `next_token` once whitespace and comments are behind it. */
    method ScanToken() returns (r: Result<Token, LexicalError>)
      requires Valid() && currentCharacter.Some? && currentCharacter.value != '#'
      modifies this
      ensures Valid() && Agrees(r, ScanAt(sourceCode, old(position)), position)
    {
      var c := currentCharacter.value;
      if c == '\n' {
        var newlineToken := Token(Newline, line, column);
        Advance();
        SkipConsecutiveNewlines();
        return Success(newlineToken);
      }
      var next := Peek(1);
      if IsDigit(c) || (c == '.' && next.Some? && IsDigit(next.value)) {
        r := TokenizeNumber();
        return;
      }
      if c == '\'' || c == '"' {
        r := TokenizeString();
        return;
      }
      if IsAlphabeticUnderscoreDollar(c) || c == '_' {
        var t := TokenizeIdentifier();
        return Success(t);
      }
      var token := TokenizeMultiCharacterOperator();
      if token.Some? {
        return Success(token.value);
      }
      if c in SingleCharacterLexemes {
        var tokenType := SingleCharacterLexemes[c];
        var startLine, startColumn := line, column;
        Advance();
        return Success(Token(tokenType, startLine, startColumn));
      }
      return Failure(LexicalError(InvalidCharacter, "Invalid character: '" + [c] + "'", position, line, column));
    }

    /** `next_token`: skip whitespace and comments, then scan one token. */
    method NextToken() returns (r: Result<Token, LexicalError>)
      requires Valid()
      modifies this
      ensures Valid() && Agrees(r, Scanning.NextToken(sourceCode, old(position)), position)
    {
      while true
        invariant Valid() && old(position) <= position
        invariant Scanning.NextToken(sourceCode, position) == Scanning.NextToken(sourceCode, old(position))
        decreases |sourceCode| - position
      {
        SkipWhitespace();
        if currentCharacter == Some('#') {
          SkipComment();
          continue;
        }
        if currentCharacter.None? {
          return Success(Token(Eof, line, column));
        }
        r := ScanToken();
        return;
      }
    }

    /** `tokenize`: tokens up to and including the first EOF. */
    method Tokenize() returns (r: Result<seq<Token>, LexicalError>)
      requires Valid()
      modifies this
      ensures Valid() && r == Scanning.Tokenize(sourceCode, old(position))
    {
      var tokens: seq<Token> := [];
      PrependNothing(Scanning.Tokenize(sourceCode, position));
      while true
        invariant Valid() && old(position) <= position
        invariant Scanning.Tokenize(sourceCode, old(position)) == Prepend(tokens, Scanning.Tokenize(sourceCode, position))
        decreases |sourceCode| - position
      {
        ghost var before := position;
        var token := NextToken();
        if token.Failure? {
          return Failure(token.error);
        }
        if token.value.kind == Eof {
          return Success(tokens + [token.value]);
        }
        TokenizeStep(sourceCode, before, tokens);
        tokens := tokens + [token.value];
      }
    }
  }
}
