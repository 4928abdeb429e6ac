/**
 * The scanner as functions of the source text and a position in it.
 *
 * Each function here describes one loop or one step of `LexicalAnalyzer`
 * (lexical_analyzer.dfy): it returns where that loop leaves the cursor and
 * what it has built. Line and column are never stored; they are a function
 * of the position, `LineColumn`.
 */
module Scanning {
  import opened Wrappers
  import opened Text
  import opened Tokens

  /** The character at `p`, or None past the end (the analyzer's `current_character`). */
  function CharAt(src: string, p: nat): (r: Option<char>)
    ensures r.Some? <==> p < |src|
    ensures r.Some? ==> r.value == src[p]
  {
    if p < |src| then Some(src[p]) else None
  }

  /** Line and column after advancing `p` times from the start at line 1, column 1. */
  function LineColumn(src: string, p: nat): (lc: (int, int))
    ensures lc.0 >= 1 && lc.1 >= 1
  {
    if p == 0 then (1, 1)
    else
      var (line, column) := LineColumn(src, p - 1);
      if CharAt(src, p - 1) == Some('\n') then (line + 1, 1) else (line, column + 1)
  }

  /** Intra-line whitespace: space, tab, carriage return, form feed and vertical tab, never '\n'. */
  predicate IsBlank(c: char)
  {
    c == ' ' || c == '\t' || c == '\r' || c == '\U{C}' || c == '\U{B}'
  }

  predicate IsAlphabeticUnderscoreDollar(c: char)
  {
    ('a' <= c <= 'z') || ('A' <= c <= 'Z') || c == '_' || c == '$'
  }

  predicate IsAlphanumericUnderscoreDollar(c: char)
  {
    IsDigit(c) || IsAlphabeticUnderscoreDollar(c)
  }

  /** Whether the character at `p` exists and is a digit. */
  predicate DigitAt(src: string, p: nat)
  {
    CharAt(src, p).Some? && IsDigit(CharAt(src, p).value)
  }

  datatype LexicalErrorCode = InvalidNumberFormat | UnterminatedString | InvalidCharacter

  /** A lexical error carries the position, line and column at which it was raised. */
  datatype LexicalError = LexicalError(code: LexicalErrorCode, message: string, position: nat, line: int, column: int)

  function ErrorAt(src: string, code: LexicalErrorCode, message: string, p: nat): LexicalError
  {
    var (line, column) := LineColumn(src, p);
    LexicalError(code, message, p, line, column)
  }

  /** A token and the position the analyzer is left at after producing it. */
  datatype Scanned = Scanned(token: Token, next: nat)

  // ---------------------------------------------------------------- skipping

  /** Where `_skip_whitespace` stops when started at `p`. */
  function SkipWhitespace(src: string, p: nat): (q: nat)
    ensures p <= q && (p <= |src| ==> q <= |src|)
    decreases |src| - p
  {
    if CharAt(src, p).Some? && IsBlank(CharAt(src, p).value) then SkipWhitespace(src, p + 1) else p
  }

  /** Where the loop of `_skip_comment` stops: at the next '\n' or the end. */
  function SkipToNewline(src: string, p: nat): (q: nat)
    ensures p <= q && (p <= |src| ==> q <= |src|)
    decreases |src| - p
  {
    if CharAt(src, p).Some? && CharAt(src, p).value != '\n' then SkipToNewline(src, p + 1) else p
  }

  /** `_skip_comment` steps over the '#' and then up to the next '\n'. */
  function SkipComment(src: string, p: nat): (q: nat)
    ensures p < q && (p < |src| ==> q <= |src|)
  {
    SkipToNewline(src, p + 1)
  }

  /** Where `_skip_consecutive_newlines` stops. */
  function SkipNewlines(src: string, p: nat): (q: nat)
    ensures p <= q && (p <= |src| ==> q <= |src|)
    decreases |src| - p
  {
    if CharAt(src, p) == Some('\n') then SkipNewlines(src, p + 1) else p
  }

  lemma {:induction false} SkipWhitespaceMeaning(src: string, p: nat)
    requires p <= |src|
    ensures forall i | p <= i < SkipWhitespace(src, p) :: IsBlank(src[i]) && src[i] != '\n'
    ensures CharAt(src, SkipWhitespace(src, p)).None? || !IsBlank(CharAt(src, SkipWhitespace(src, p)).value)
    decreases |src| - p
  {
    if p < |src| && IsBlank(src[p]) {
      SkipWhitespaceMeaning(src, p + 1);
    }
  }

  /** A comment is skipped up to, but not including, the next '\n'. */
  lemma {:induction false} SkipToNewlineMeaning(src: string, p: nat)
    requires p <= |src|
    ensures forall i | p <= i < SkipToNewline(src, p) :: src[i] != '\n'
    ensures CharAt(src, SkipToNewline(src, p)) in {None, Some('\n')}
    decreases |src| - p
  {
    if p < |src| && src[p] != '\n' {
      SkipToNewlineMeaning(src, p + 1);
    }
  }

  lemma {:induction false} SkipNewlinesMeaning(src: string, p: nat)
    requires p <= |src|
    ensures forall i | p <= i < SkipNewlines(src, p) :: src[i] == '\n'
    ensures CharAt(src, SkipNewlines(src, p)) != Some('\n')
    decreases |src| - p
  {
    if p < |src| && src[p] == '\n' {
      SkipNewlinesMeaning(src, p + 1);
    }
  }

  // ---------------------------------------------------------------- numbers

  /**
   * Where the loop of `_tokenize_number` stops: it takes digits, and a '.'
   * only when no '.' was taken yet and a digit follows it.
   */
  function NumberEnd(src: string, p: nat, hasDot: bool): (q: nat)
    ensures p <= q && (p <= |src| ==> q <= |src|)
    decreases |src| - p
  {
    if CharAt(src, p).None? then p
    else
      var c := CharAt(src, p).value;
      if IsDigit(c) then NumberEnd(src, p + 1, hasDot)
      else if c == '.' && !hasDot && DigitAt(src, p + 1) then NumberEnd(src, p + 1, true)
      else p
  }

  /** `_tokenize_number` started at `p`; its error case is kept although `next_token` never reaches it. */
  function ScanNumber(src: string, p: nat): (r: Result<Scanned, LexicalError>)
    requires p <= |src|
    ensures r.Success? ==> p < r.value.next <= |src| && WellFormed(r.value.token) && r.value.token.kind == NumberLiteral
    ensures r.Success? ==> (r.value.token.line, r.value.token.column) == LineColumn(src, p)
  {
    var q := NumberEnd(src, p, false);
    var lexeme := src[p..q];
    if lexeme == "" || lexeme == "." then
      Failure(ErrorAt(src, InvalidNumberFormat, "Invalid number: '" + lexeme + "'", q))
    else
      var (line, column) := LineColumn(src, p);
      Success(Scanned(TokenWithLexeme(NumberLiteral, line, column, lexeme), q))
  }

  /** The lexemes `_tokenize_number` can produce: digits with at most one '.', each '.' followed by a digit. */
  ghost predicate NumberLexeme(s: string)
  {
    && |s| > 0
    && (forall i | 0 <= i < |s| :: IsDigit(s[i]) || s[i] == '.')
    && (forall i, j | 0 <= i < j < |s| && s[i] == '.' :: s[j] != '.')
    && (forall i | 0 <= i < |s| && s[i] == '.' :: i + 1 < |s| && IsDigit(s[i + 1]))
  }

  /** The characters from `p0` up to `p`: digits and dots, at most one dot, each dot followed by a digit. */
  ghost predicate NumberChars(src: string, p0: nat, p: nat)
  {
    && p0 <= p <= |src|
    && (forall i | p0 <= i < p :: IsDigit(src[i]) || src[i] == '.')
    && (forall i, j | p0 <= i < j < p && src[i] == '.' :: src[j] != '.')
    && (forall i | p0 <= i < p && src[i] == '.' :: DigitAt(src, i + 1))
  }

  /** The loop keeps `NumberChars` and stops where no digit is. */
  lemma {:induction false} NumberEndShape(src: string, p0: nat, p: nat, hasDot: bool)
    requires NumberChars(src, p0, p)
    requires !hasDot ==> forall i | p0 <= i < p :: src[i] != '.'
    ensures NumberChars(src, p0, NumberEnd(src, p, hasDot)) && !DigitAt(src, NumberEnd(src, p, hasDot))
    decreases |src| - p
  {
    if p < |src| {
      var c := src[p];
      if IsDigit(c) {
        NumberEndShape(src, p0, p + 1, hasDot);
      } else if c == '.' && !hasDot && DigitAt(src, p + 1) {
        NumberEndShape(src, p0, p + 1, true);
      }
    }
  }

  /** A number scan from a digit, or from a '.' followed by a digit, always succeeds with a well-formed lexeme. */
  lemma ScanNumberSucceeds(src: string, p: nat)
    requires p < |src| && (IsDigit(src[p]) || (src[p] == '.' && DigitAt(src, p + 1)))
    ensures ScanNumber(src, p).Success?
    ensures var s := ScanNumber(src, p).value;
      p < s.next <= |src| && s.token.lexeme == src[p..s.next] && NumberLexeme(s.token.lexeme)
  {
    var q := NumberEnd(src, p, false);
    NumberEndShape(src, p, p, false);
    assert p < q;
    var s := src[p..q];
    assert forall i | 0 <= i < |s| :: s[i] == src[p + i];
    forall i | 0 <= i < |s| && s[i] == '.' ensures i + 1 < |s| && IsDigit(s[i + 1]) {
      assert DigitAt(src, p + i + 1);
    }
    assert s != ".";
  }

  // ---------------------------------------------------------------- strings

  /** The escape table of `_tokenize_string`; an unknown escaped character stands for itself. */
  function Escape(c: char): char
  {
    match c
    case 'n' => '\n'
    case 't' => '\t'
    case 'r' => '\r'
    case _ => c
  }

  /**
   * The loop of `_tokenize_string` from `p`, having built `acc`: the text up to
   * the closing quote with escapes translated, and the position of that quote.
   */
  function StringBody(src: string, p: nat, quote: char, acc: string): (r: Result<(string, nat), LexicalError>)
    ensures r.Success? ==> p <= r.value.1 < |src| && src[r.value.1] == quote
    ensures r.Success? ==> |acc| <= |r.value.0| && (|acc| > 0 ==> r.value.0[0] == acc[0])
    ensures r.Failure? ==> r.error.code == UnterminatedString
    decreases |src| - p
  {
    if CharAt(src, p).None? then
      Failure(ErrorAt(src, UnterminatedString, "Unterminated string, expected '" + [quote] + "'", p))
    else
      var c := CharAt(src, p).value;
      if c == quote then Success((acc, p))
      else if c == '\n' then Failure(ErrorAt(src, UnterminatedString, "Unterminated string (newline)", p))
      else if c == '\\' then
        if CharAt(src, p + 1).None? then Failure(ErrorAt(src, UnterminatedString, "Unterminated string (escape end)", p + 1))
        else StringBody(src, p + 2, quote, acc + [Escape(src[p + 1])])
      else StringBody(src, p + 1, quote, acc + [c])
  }

  /** `_tokenize_string` at an opening quote: the lexeme is the quote, the translated text and the quote again. */
  function ScanString(src: string, p: nat): (r: Result<Scanned, LexicalError>)
    requires p < |src|
    ensures r.Success? ==> p < r.value.next <= |src| && r.value.token.kind == StringLiteral && WellFormed(r.value.token)
    ensures r.Success? ==> (r.value.token.line, r.value.token.column) == LineColumn(src, p)
    ensures r.Success? ==> var t := r.value.token;
      t.TokenWithLexeme? && |t.lexeme| >= 2 && t.lexeme[0] == src[p] && t.lexeme[|t.lexeme| - 1] == src[p]
  {
    var quote := src[p];
    match StringBody(src, p + 1, quote, [quote])
    case Failure(e) => Failure(e)
    case Success((text, q)) =>
      var (line, column) := LineColumn(src, p);
      Success(Scanned(TokenWithLexeme(StringLiteral, line, column, text + [quote]), q + 1))
  }

  /** Source text for `text` between `quote`s: backslash, the quote and a newline are written as escapes. */
  function Quoted(text: string, quote: char): string
  {
    if text == [] then [] else Chunk(text[0], quote) + Quoted(text[1..], quote)
  }

  /** How `Quoted` writes one character. */
  function Chunk(c: char, quote: char): (chunk: string)
    ensures 1 <= |chunk| <= 2
  {
    if c == '\\' || c == quote then ['\\', c] else if c == '\n' then ['\\', 'n'] else [c]
  }

  /** The string body reads one written character back and goes on after it. */
  lemma StringBodyOfChunk(src: string, p: nat, c: char, quote: char, acc: string)
    requires quote == '\'' || quote == '"'
    requires p + |Chunk(c, quote)| <= |src| && src[p..p + |Chunk(c, quote)|] == Chunk(c, quote)
    ensures StringBody(src, p, quote, acc) == StringBody(src, p + |Chunk(c, quote)|, quote, acc + [c])
  {
    var chunk := Chunk(c, quote);
    assert src[p] == chunk[0] by { assert src[p..p + |chunk|][0] == src[p]; }
    if |chunk| == 2 {
      assert src[p + 1] == chunk[1] by { assert src[p..p + |chunk|][1] == src[p + 1]; }
    }
  }

  lemma SliceParts(src: string, p: nat, a: string, b: string)
    requires p + |a + b| <= |src| && src[p..p + |a + b|] == a + b
    ensures src[p..p + |a|] == a && src[p + |a|..p + |a| + |b|] == b
  {
    assert src[p..p + |a|] == src[p..p + |a + b|][..|a|];
    assert src[p + |a|..p + |a| + |b|] == src[p..p + |a + b|][|a|..];
  }

  /** The string body reads back exactly the text that `Quoted` wrote. */
  lemma {:induction false} StringBodyOfQuoted(src: string, p: nat, text: string, quote: char, acc: string)
    requires quote == '\'' || quote == '"'
    requires p + |Quoted(text, quote)| < |src|
    requires src[p..p + |Quoted(text, quote)|] == Quoted(text, quote)
    requires src[p + |Quoted(text, quote)|] == quote
    ensures StringBody(src, p, quote, acc) == Success((acc + text, p + |Quoted(text, quote)|))
    decreases |text|
  {
    if text != [] {
      var chunk := Chunk(text[0], quote);
      var rest := Quoted(text[1..], quote);
      var n := |chunk|;
      assert Quoted(text, quote) == chunk + rest;
      SliceParts(src, p, chunk, rest);
      StringBodyOfChunk(src, p, text[0], quote, acc);
      StringBodyOfQuoted(src, p + n, text[1..], quote, acc + [text[0]]);
      assert acc + [text[0]] + text[1..] == acc + text;
      assert p + n + |rest| == p + |Quoted(text, quote)|;
      calc {
        StringBody(src, p, quote, acc);
        StringBody(src, p + n, quote, acc + [text[0]]);
        Success((acc + [text[0]] + text[1..], p + n + |rest|));
      }
    } else {
      StringBodyAtQuote(src, p, quote, acc);
      assert acc + text == acc;
    }
  }

  /** The string body ends at the closing quote. */
  lemma StringBodyAtQuote(src: string, p: nat, quote: char, acc: string)
    requires p < |src| && src[p] == quote
    ensures StringBody(src, p, quote, acc) == Success((acc, p))
  {
  }

  /** A string literal written with `Quoted` scans to a token whose string value is the original text. */
  lemma ScanStringOfQuoted(src: string, p: nat, text: string, quote: char)
    requires quote == '\'' || quote == '"'
    requires p + 1 + |Quoted(text, quote)| < |src| && src[p] == quote
    requires src[p + 1..p + 1 + |Quoted(text, quote)|] == Quoted(text, quote)
    requires src[p + 1 + |Quoted(text, quote)|] == quote
    ensures ScanString(src, p).Success?
    ensures var s := ScanString(src, p).value;
      && s.token.lexeme == [quote] + text + [quote]
      && s.next == p + 2 + |Quoted(text, quote)|
      && StringValue(s.token) == Success(text)
  {
    StringBodyOfQuoted(src, p + 1, text, quote, [quote]);
    var lexeme := [quote] + text + [quote];
    assert lexeme[1..|lexeme| - 1] == text;
  }

  // ---------------------------------------------------------------- identifiers and keywords

  /** Where the loop of `_tokenize_identifier` stops. */
  function IdentifierEnd(src: string, p: nat): (q: nat)
    ensures p <= q && (p <= |src| ==> q <= |src|)
    decreases |src| - p
  {
    if CharAt(src, p).Some? && IsAlphanumericUnderscoreDollar(CharAt(src, p).value) then IdentifierEnd(src, p + 1) else p
  }

  /** The token for a scanned word: a boolean literal, a keyword (without lexeme) or an identifier. */
  function ClassifyWord(lexeme: string, line: int, column: int): (t: Token)
    ensures t.kind != Eof && t.line == line && t.column == column
    ensures t.TokenWithLexeme? ==> t.lexeme == lexeme
  {
    if lexeme == "true" || lexeme == "false" then TokenWithLexeme(BooleanLiteral, line, column, lexeme)
    else match LookupKeyword(lexeme)
      case Some(kind) => Token(kind, line, column)
      case None => TokenWithLexeme(Identifier, line, column, lexeme)
  }

  /** `_tokenize_identifier` started at `p`. */
  function ScanIdentifier(src: string, p: nat): (s: Scanned)
    requires p < |src| && IsAlphabeticUnderscoreDollar(src[p])
    ensures p < s.next <= |src| && WellFormed(s.token) && s.token.kind != Eof
    ensures (s.token.line, s.token.column) == LineColumn(src, p)
  {
    var q := IdentifierEnd(src, p);
    var (line, column) := LineColumn(src, p);
    Scanned(ClassifyWord(src[p..q], line, column), q)
  }

  lemma {:induction false} IdentifierEndMeaning(src: string, p: nat)
    requires p <= |src|
    ensures forall i | p <= i < IdentifierEnd(src, p) :: IsAlphanumericUnderscoreDollar(src[i])
    ensures CharAt(src, IdentifierEnd(src, p)).None? || !IsAlphanumericUnderscoreDollar(CharAt(src, IdentifierEnd(src, p)).value)
    decreases |src| - p
  {
    if p < |src| && IsAlphanumericUnderscoreDollar(src[p]) {
      IdentifierEndMeaning(src, p + 1);
    }
  }

  /** A word starting with a letter, '_' or '$' is the longest run of letters, digits, '_' and '$'. */
  lemma ScanIdentifierSpan(src: string, p: nat)
    requires p < |src| && IsAlphabeticUnderscoreDollar(src[p])
    ensures var q := ScanIdentifier(src, p).next;
      && p < q <= |src|
      && (forall i | p <= i < q :: IsAlphanumericUnderscoreDollar(src[i]))
      && (q == |src| || !IsAlphanumericUnderscoreDollar(src[q]))
  {
    IdentifierEndMeaning(src, p);
  }

  /**
   * "true" and "false" become boolean literals, a keyword becomes its
   * keyword token without a lexeme, and any other word an identifier.
   */
  lemma ClassifyWordKinds(word: string, line: int, column: int)
    ensures var t := ClassifyWord(word, line, column);
      && (t.kind == BooleanLiteral <==> word == "true" || word == "false")
      && (t.kind == Identifier <==> word != "true" && word != "false" && LookupKeyword(word).None?)
      && (t.TokenWithLexeme? <==> t.kind in {BooleanLiteral, Identifier})
      && (t.TokenWithLexeme? ==> t.lexeme == word)
      && (t.Token? ==> Value(t.kind) == word)
      && t.line == line && t.column == column
  {
    if word != "true" && word != "false" && LookupKeyword(word).Some? {
      LookupKeywordValue(word);
    }
  }

  // ---------------------------------------------------------------- operators

  /** `_matches_operator`: the characters from `p` on spell `op`. */
  predicate Matches(src: string, p: nat, op: string)
  {
    forall i | 0 <= i < |op| :: CharAt(src, p + i) == Some(op[i])
  }

  lemma MatchesMeansSlice(src: string, p: nat, op: string)
    requires p <= |src|
    ensures Matches(src, p, op) <==> p + |op| <= |src| && src[p..p + |op|] == op
  {
    if Matches(src, p, op) && |op| > 0 {
      var last := |op| - 1;
      assert CharAt(src, p + last) == Some(op[last]);
      assert p + |op| <= |src|;
      forall i | 0 <= i < |op| ensures src[p..p + |op|][i] == op[i] {
        assert CharAt(src, p + i) == Some(op[i]);
      }
    }
    if p + |op| <= |src| && src[p..p + |op|] == op {
      forall i | 0 <= i < |op| ensures CharAt(src, p + i) == Some(op[i]) {
        assert src[p..p + |op|][i] == src[p + i];
      }
    }
  }

  /** The first entry of `ops` that matches at `p`. */
  function FirstMatch(src: string, p: nat, ops: seq<(string, TokenType)>): (r: Option<(string, TokenType)>)
    ensures r.Some? ==> r.value in ops && Matches(src, p, r.value.0)
    ensures r.None? <==> forall i | 0 <= i < |ops| :: !Matches(src, p, ops[i].0)
  {
    if ops == [] then None
    else if Matches(src, p, ops[0].0) then Some(ops[0])
    else
      var r := FirstMatch(src, p, ops[1..]);
      assert forall i | 1 <= i < |ops| :: ops[i] == ops[1..][i - 1];
      r
  }

  /**
   * The operator table is already in order of non-increasing length, so the
   * stable longest-first sort of `_tokenize_multi_character_operator` leaves
   * it as it is, and no key is repeated.
   */
  lemma MultiCharacterOperatorsLongestFirst()
    ensures forall i, j | 0 <= i < j < |MultiCharacterOperators| ::
      |MultiCharacterOperators[i].0| >= |MultiCharacterOperators[j].0| && MultiCharacterOperators[i].0 != MultiCharacterOperators[j].0
  {
  }

  // ---------------------------------------------------------------- next_token and tokenize

  /** Whether `next_token` reads the character at `q` as the start of a number. */
  predicate StartsNumber(src: string, q: nat)
    requires q < |src|
  {
    IsDigit(src[q]) || (src[q] == '.' && DigitAt(src, q + 1))
  }

  /** The operator branch of `next_token` at `q`: the first matching operator of two characters, else one character. */
  function ScanOperator(src: string, q: nat): (r: Result<Scanned, LexicalError>)
    requires q < |src|
    ensures r.Success? ==> q < r.value.next <= |src| && r.value.token.Token? && r.value.token.kind != Eof
    ensures r.Success? ==> (r.value.token.line, r.value.token.column) == LineColumn(src, q)
    ensures r.Failure? <==> FirstMatch(src, q, MultiCharacterOperators).None? && src[q] !in SingleCharacterLexemes
    ensures r.Failure? ==> r.error.code == InvalidCharacter && r.error.position == q
  {
    var (line, column) := LineColumn(src, q);
    match FirstMatch(src, q, MultiCharacterOperators)
    case Some((op, kind)) =>
      MultiCharacterOperatorsMatchValues();
      MatchesMeansSlice(src, q, op);
      Success(Scanned(Token(kind, line, column), q + |op|))
    case None =>
      var c := src[q];
      if c in SingleCharacterLexemes then
        Success(Scanned(Token(SingleCharacterLexemes[c], line, column), q + 1))
      else
        Failure(ErrorAt(src, InvalidCharacter, "Invalid character: '" + [c] + "'", q))
  }

  /** `next_token` once whitespace is skipped, at a character that does not start a comment. */
  function ScanAt(src: string, q: nat): (r: Result<Scanned, LexicalError>)
    requires q < |src| && src[q] != '#'
    ensures r.Success? ==> q < r.value.next <= |src| && WellFormed(r.value.token) && r.value.token.kind != Eof
    ensures r.Success? ==> (r.value.token.line, r.value.token.column) == LineColumn(src, q)
  {
    var c := src[q];
    var (line, column) := LineColumn(src, q);
    if c == '\n' then Success(Scanned(Token(Newline, line, column), SkipNewlines(src, q + 1)))
    else if StartsNumber(src, q) then ScanNumber(src, q)
    else if c == '\'' || c == '"' then ScanString(src, q)
    else if IsAlphabeticUnderscoreDollar(c) then Success(ScanIdentifier(src, q))
    else ScanOperator(src, q)
  }

  /** The EOF token: it stands at the line and column just past the text. */
  function EofToken(src: string): Token
  {
    Token(Eof, LineColumn(src, |src|).0, LineColumn(src, |src|).1)
  }

  /** `next_token` from position `p`: whitespace and comments are skipped, then one token is scanned. */
  function NextToken(src: string, p: nat): (r: Result<Scanned, LexicalError>)
    requires p <= |src|
    ensures r.Success? ==> p <= r.value.next <= |src| && WellFormed(r.value.token)
    ensures r.Success? && r.value.token.kind == Eof ==> r.value == Scanned(EofToken(src), |src|)
    ensures r.Success? && r.value.token.kind != Eof ==> p < r.value.next
    decreases |src| - p
  {
    var q := SkipWhitespace(src, p);
    if q == |src| then
      var (line, column) := LineColumn(src, q);
      Success(Scanned(Token(Eof, line, column), q))
    else if src[q] == '#' then NextToken(src, SkipComment(src, q))
    else ScanAt(src, q)
  }

  /** `tokenize` from position `p`: every token up to and including EOF. */
  function Tokenize(src: string, p: nat): (r: Result<seq<Token>, LexicalError>)
    requires p <= |src|
    ensures r.Success? ==> |r.value| > 0 && r.value[|r.value| - 1].kind == Eof
    ensures r.Success? ==> forall i | 0 <= i < |r.value| - 1 :: r.value[i].kind != Eof
    ensures r.Success? ==> forall i | 0 <= i < |r.value| :: WellFormed(r.value[i])
    decreases |src| - p
  {
    match NextToken(src, p)
    case Failure(e) => Failure(e)
    case Success(s) =>
      if s.token.kind == Eof then Success([s.token])
      else match Tokenize(src, s.next)
        case Failure(e) => Failure(e)
        case Success(rest) => Success([s.token] + rest)
  }

  // ---------------------------------------------------------------- properties of next_token

  lemma {:induction false} SkipNewlinesOverRun(src: string, p: nat, k: nat)
    requires p <= k <= |src|
    requires forall i | p <= i < k :: src[i] == '\n'
    requires CharAt(src, k) != Some('\n')
    ensures SkipNewlines(src, p) == k
    decreases k - p
  {
    if p < k {
      SkipNewlinesOverRun(src, p + 1, k);
    }
  }

  /** A run of consecutive '\n' is one NEWLINE token, at the first of them, and scanning resumes after the run. */
  lemma NewlineRunIsOneToken(src: string, p: nat, k: nat)
    requires p < k <= |src|
    requires forall i | p <= i < k :: src[i] == '\n'
    requires CharAt(src, k) != Some('\n')
    ensures NextToken(src, p) == Success(Scanned(Token(Newline, LineColumn(src, p).0, LineColumn(src, p).1), k))
  {
    assert src[p] == '\n';
    assert SkipWhitespace(src, p) == p;
    assert NextToken(src, p) == ScanAt(src, p);
    var (line, column) := LineColumn(src, p);
    assert ScanAt(src, p) == Success(Scanned(Token(Newline, line, column), SkipNewlines(src, p + 1)));
    SkipNewlinesOverRun(src, p + 1, k);
  }

  /** In a table of distinct two-character keys, the entry spelled at `q` is the first match. */
  lemma {:induction false} FirstMatchOfDistinct(src: string, q: nat, ops: seq<(string, TokenType)>, i: nat)
    requires q + 2 <= |src| && i < |ops|
    requires forall j | 0 <= j < |ops| :: |ops[j].0| == 2
    requires forall j, k | 0 <= j < k < |ops| :: ops[j].0 != ops[k].0
    requires src[q..q + 2] == ops[i].0
    ensures FirstMatch(src, q, ops) == Some(ops[i])
    decreases |ops|
  {
    MatchesMeansSlice(src, q, ops[0].0);
    if i > 0 {
      assert ops[0].0 != ops[i].0;
      FirstMatchOfDistinct(src, q, ops[1..], i - 1);
    }
  }

  /**
   * Where two characters spell a multi-character operator, `next_token`
   * yields that operator as one token: "<=" is never LESS then ASSIGN.
   */
  lemma MultiCharacterOperatorIsOneToken(src: string, q: nat, i: nat)
    requires i < |MultiCharacterOperators|
    requires q + 2 <= |src| && src[q..q + 2] == MultiCharacterOperators[i].0
    requires SkipWhitespace(src, q) == q
    ensures NextToken(src, q) == Success(Scanned(Token(MultiCharacterOperators[i].1, LineColumn(src, q).0, LineColumn(src, q).1), q + 2))
  {
    MultiCharacterOperatorsMatchValues();
    MultiCharacterOperatorsLongestFirst();
    FirstMatchOfDistinct(src, q, MultiCharacterOperators, i);
    assert src[q] == MultiCharacterOperators[i].0[0] by { assert src[q..q + 2][0] == src[q]; }
    OperatorFirstCharacters(i);
    NextTokenAtOperator(src, q);
  }

  /** The characters multi-character operators start with. */
  lemma OperatorFirstCharacters(i: nat)
    requires i < |MultiCharacterOperators|
    ensures |MultiCharacterOperators[i].0| > 0 && MultiCharacterOperators[i].0[0] in {'-', '*', '/', '=', '!', '<', '>'}
  {
  }

  /** At such a character, with no whitespace before it, `next_token` takes the operator branch. */
  lemma NextTokenAtOperator(src: string, q: nat)
    requires q < |src| && src[q] in {'-', '*', '/', '=', '!', '<', '>'}
    requires SkipWhitespace(src, q) == q
    ensures NextToken(src, q) == ScanOperator(src, q)
  {
    OperatorStartIsNotOtherToken(src, q);
  }

  /** The first character of a multi-character operator starts no other kind of token. */
  lemma OperatorStartIsNotOtherToken(src: string, q: nat)
    requires q < |src| && src[q] in {'-', '*', '/', '=', '!', '<', '>'}
    ensures src[q] != '#' && src[q] != '\n' && !StartsNumber(src, q) && src[q] != '\'' && src[q] != '"'
    ensures !IsAlphabeticUnderscoreDollar(src[q])
  {
  }

  /** No character starts `next_token`'s number branch and still fails to give a number. */
  lemma {:induction false} NextTokenNeverInvalidNumber(src: string, p: nat)
    requires p <= |src|
    ensures NextToken(src, p).Failure? ==> NextToken(src, p).error.code != InvalidNumberFormat
    decreases |src| - p
  {
    var q := SkipWhitespace(src, p);
    if q < |src| {
      if src[q] == '#' {
        NextTokenNeverInvalidNumber(src, SkipComment(src, q));
      } else if src[q] != '\n' && StartsNumber(src, q) {
        ScanNumberSucceeds(src, q);
      } else if src[q] != '\n' && !(src[q] == '\'' || src[q] == '"') && !IsAlphabeticUnderscoreDollar(src[q]) {
        assert ScanAt(src, q) == ScanOperator(src, q);
      }
    }
  }

  /** Whether some branch of `next_token` accepts the character at `q`. */
  predicate Scannable(src: string, q: nat)
    requires q < |src|
  {
    var c := src[q];
    || c == '\n' || StartsNumber(src, q) || c == '\'' || c == '"' || IsAlphabeticUnderscoreDollar(c)
    || FirstMatch(src, q, MultiCharacterOperators).Some? || c in SingleCharacterLexemes
  }

  /** At a character no branch accepts, and only there, `next_token` raises an invalid-character error. */
  lemma InvalidCharacterExactly(src: string, p: nat)
    requires p <= |src|
    requires var q := SkipWhitespace(src, p); q < |src| && src[q] != '#'
    ensures var q := SkipWhitespace(src, p);
      (NextToken(src, p).Failure? && NextToken(src, p).error.code == InvalidCharacter)
      <==> !Scannable(src, q)
    ensures var q := SkipWhitespace(src, p);
      !Scannable(src, q) ==> NextToken(src, p).error.position == q
  {
    var q := SkipWhitespace(src, p);
    if StartsNumber(src, q) && src[q] != '\n' {
      ScanNumberSucceeds(src, q);
    }
  }
}
