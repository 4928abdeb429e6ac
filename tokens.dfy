/**
 * Token kinds, the scanner's lookup tables, and tokens with their validating
 * constructors and value accessors.
 */
module Tokens {
  import opened Wrappers
  import opened Text

  datatype TokenType =
    | LeftBrace | RightBrace | LeftParenthesis | RightParenthesis | Comma | Colon | Assign
    | Plus | Minus | Multiply | Divide | Modulo | FloorDivide | Power
    | Less | Greater | LessEqual | GreaterEqual | Equal | NotEqual | Arrow
    | Let | Keep | Give | Func | Proc | Exec | And | Or | Not
    | If | Elif | Else | While | For | To | Step | Skip | Stop | Show
    | NumberType | StringType | BooleanType
    | NumberLiteral | StringLiteral | BooleanLiteral | Identifier | Newline | Eof

  /** The enumeration value of each kind. */
  function Value(t: TokenType): string
  {
    match t
    case LeftBrace => "{"
    case RightBrace => "}"
    case LeftParenthesis => "("
    case RightParenthesis => ")"
    case Comma => ","
    case Colon => ":"
    case Assign => "="
    case Plus => "+"
    case Minus => "-"
    case Multiply => "*"
    case Divide => "/"
    case Modulo => "%"
    case FloorDivide => "//"
    case Power => "**"
    case Less => "<"
    case Greater => ">"
    case LessEqual => "<="
    case GreaterEqual => ">="
    case Equal => "=="
    case NotEqual => "!="
    case Arrow => "->"
    case Let => "let"
    case Keep => "keep"
    case Give => "give"
    case Func => "func"
    case Proc => "proc"
    case Exec => "exec"
    case And => "and"
    case Or => "or"
    case Not => "not"
    case If => "if"
    case Elif => "elif"
    case Else => "else"
    case While => "while"
    case For => "for"
    case To => "to"
    case Step => "step"
    case Skip => "skip"
    case Stop => "stop"
    case Show => "show"
    case NumberType => "number"
    case StringType => "string"
    case BooleanType => "boolean"
    case NumberLiteral => "NUMBER_LITERAL"
    case StringLiteral => "STRING_LITERAL"
    case BooleanLiteral => "BOOLEAN_LITERAL"
    case Identifier => "IDENTIFIER"
    case Newline => "NEWLINE"
    case Eof => "EOF"
  }

  const SingleCharacterLexemes: map<char, TokenType> := map[
    '{' := LeftBrace, '}' := RightBrace, '(' := LeftParenthesis, ')' := RightParenthesis,
    ',' := Comma, ':' := Colon, '=' := Assign, '+' := Plus, '-' := Minus,
    '*' := Multiply, '/' := Divide, '%' := Modulo, '<' := Less, '>' := Greater]

  /** In the table's own order, which is also the order the scanner tries them in. */
  const MultiCharacterOperators: seq<(string, TokenType)> := [
    ("->", Arrow), ("**", Power), ("//", FloorDivide), ("==", Equal),
    ("!=", NotEqual), ("<=", LessEqual), (">=", GreaterEqual)]

  /** The keyword table in its own order; `LookupKeyword` reads it as the dictionary it is. */
  const Keywords: seq<(string, TokenType)> := [
    ("let", Let), ("keep", Keep), ("give", Give), ("func", Func), ("proc", Proc),
    ("exec", Exec), ("number", NumberType), ("string", StringType),
    ("boolean", BooleanType), ("and", And), ("or", Or), ("not", Not), ("if", If),
    ("elif", Elif), ("else", Else), ("while", While), ("for", For), ("to", To),
    ("step", Step), ("skip", Skip), ("stop", Stop), ("show", Show)]

  /** The kind of the first entry of `table` whose key is `key`. */
  function Lookup(table: seq<(string, TokenType)>, key: string): (r: Option<TokenType>)
    ensures r.None? <==> forall i :: 0 <= i < |table| ==> table[i].0 != key
    ensures r.Some? ==> exists i :: 0 <= i < |table| && table[i] == (key, r.value)
  {
    if table == [] then None
    else if table[0].0 == key then Some(table[0].1)
    else
      var r := Lookup(table[1..], key);
      assert r.Some? ==> exists i :: 0 <= i < |table[1..]| && table[1..][i] == (key, r.value);
      assert r.Some? ==> exists i :: 0 <= i < |table| && table[i] == (key, r.value) by {
        if r.Some? {
          var i :| 0 <= i < |table[1..]| && table[1..][i] == (key, r.value);
          assert table[i + 1] == (key, r.value);
        }
      }
      r
  }

  /** The reserved words: keyword kinds and the three type names. */
  predicate IsKeyword(k: TokenType)
  {
    k in {Let, Keep, Give, Func, Proc, Exec, And, Or, Not, If, Elif, Else, While, For, To,
          Step, Skip, Stop, Show, NumberType, StringType, BooleanType}
  }

  lemma KeywordKinds()
    ensures forall i | 0 <= i < |Keywords| :: IsKeyword(Keywords[i].1)
  {
  }

  /** The `KEYWORDS` lookup: only reserved-word kinds are found. */
  function LookupKeyword(lexeme: string): (r: Option<TokenType>)
    ensures r.Some? ==> IsKeyword(r.value)
  {
    KeywordKinds();
    Lookup(Keywords, lexeme)
  }

  /** Every keyword lexeme maps to the kind whose value is that lexeme. */
  lemma KeywordsMatchValues()
    ensures forall i | 0 <= i < |Keywords| :: Value(Keywords[i].1) == Keywords[i].0
  {
    KeywordsMatchValuesLow();
    KeywordsMatchValuesMiddle();
    KeywordsMatchValuesHigh();
  }

  lemma KeywordsMatchValuesLow()
    ensures forall i | 0 <= i < 8 :: Value(Keywords[i].1) == Keywords[i].0
  {
  }

  lemma KeywordsMatchValuesMiddle()
    ensures forall i | 8 <= i < 16 :: Value(Keywords[i].1) == Keywords[i].0
  {
  }

  lemma KeywordsMatchValuesHigh()
    ensures forall i | 16 <= i < 22 :: Value(Keywords[i].1) == Keywords[i].0
  {
  }

  /** Whatever kind a keyword lookup finds has the looked-up lexeme as its value. */
  lemma LookupKeywordValue(lexeme: string)
    requires LookupKeyword(lexeme).Some?
    ensures Value(LookupKeyword(lexeme).value) == lexeme
  {
    KeywordsMatchValues();
  }

  /** Every multi-character operator is two characters long and maps to the kind with that value. */
  lemma MultiCharacterOperatorsMatchValues()
    ensures forall i | 0 <= i < |MultiCharacterOperators| ::
      |MultiCharacterOperators[i].0| == 2 && Value(MultiCharacterOperators[i].1) == MultiCharacterOperators[i].0
  {
  }

  /** Every single-character lexeme maps to the kind with that value. */
  lemma SingleCharacterLexemesMatchValues()
    ensures forall c | c in SingleCharacterLexemes :: Value(SingleCharacterLexemes[c]) == [c]
  {
  }

  datatype Token =
    | Token(kind: TokenType, line: int, column: int)
    | TokenWithLexeme(kind: TokenType, line: int, column: int, lexeme: string)

  /** What construction guarantees of every token that exists. */
  predicate WellFormed(t: Token)
  {
    t.line >= 1 && t.column >= 1 && (t.TokenWithLexeme? ==> |t.lexeme| > 0)
  }

  datatype TokenErrorCode = WrongPositionalAttributeValue | InvalidLexeme | InvalidTokenType

  datatype TokenError = TokenError(code: TokenErrorCode, message: string, token: Token)

  /** Positions are checked line first, then column. */
  function PositionError(t: Token): Option<TokenError>
  {
    if t.line < 1 then Some(TokenError(WrongPositionalAttributeValue, "Line number must be >= 1", t))
    else if t.column < 1 then Some(TokenError(WrongPositionalAttributeValue, "Column number must be >= 1", t))
    else None
  }

  /** Construct a lexeme-less token, rejecting a line or column below 1. */
  function NewToken(kind: TokenType, line: int, column: int): (r: Result<Token, TokenError>)
    ensures r.Success? <==> line >= 1 && column >= 1
    ensures r.Success? ==> r.value == Token(kind, line, column) && WellFormed(r.value)
    ensures r.Failure? ==> (r.error.code == WrongPositionalAttributeValue
      && r.error.message == (if line < 1 then "Line number must be >= 1" else "Column number must be >= 1"))
  {
    var t := Token(kind, line, column);
    match PositionError(t)
    case Some(e) => Failure(e)
    case None => Success(t)
  }

  /** Construct a token with a lexeme: the position checks come first, then an empty lexeme is refused. */
  function NewTokenWithLexeme(kind: TokenType, line: int, column: int, lexeme: string): (r: Result<Token, TokenError>)
    ensures r.Success? <==> line >= 1 && column >= 1 && |lexeme| > 0
    ensures r.Success? ==> r.value == TokenWithLexeme(kind, line, column, lexeme) && WellFormed(r.value)
    ensures r.Failure? && line >= 1 && column >= 1 ==> r.error.code == InvalidLexeme
    ensures r.Failure? && !(line >= 1 && column >= 1) ==> r.error.code == WrongPositionalAttributeValue
  {
    var t := TokenWithLexeme(kind, line, column, lexeme);
    match PositionError(t)
    case Some(e) => Failure(e)
    case None =>
      if lexeme == [] then Failure(TokenError(InvalidLexeme, "Lexeme cannot be empty", t)) else Success(t)
  }

  /** Python's numbers as far as they are modelled: integers, and float lexemes kept as their text. */
  datatype Numeric = Integer(i: int) | Float(text: string)

  /**
   * The value of a number literal: `int(lexeme)` when the lexeme has no '.',
   * otherwise `float(lexeme)`; a lexeme either of them rejects is an invalid
   * lexeme.
   */
  function NumericValue(t: Token): (r: Result<Numeric, TokenError>)
    requires t.TokenWithLexeme? && WellFormed(t)
    ensures t.kind != NumberLiteral ==> r.Failure? && r.error.code == InvalidTokenType
    ensures r.Success? ==> t.kind == NumberLiteral && (r.value.Float? <==> '.' in t.lexeme)
    ensures r.Success? && r.value.Integer? ==> IsIntegerText(t.lexeme) && r.value.i == IntegerTextValue(t.lexeme)
    ensures r.Success? && r.value.Float? ==> IsFloatText(t.lexeme) && r.value.text == t.lexeme
    ensures t.kind == NumberLiteral ==> (r.Success? <==> ('.' in t.lexeme && IsFloatText(t.lexeme)) || ('.' !in t.lexeme && IsIntegerText(t.lexeme)))
    ensures t.kind == NumberLiteral && r.Failure? ==> r.error.code == InvalidLexeme
  {
    if t.kind != NumberLiteral then
      Failure(TokenError(InvalidTokenType, "Expected number literal, got " + Value(t.kind), t))
    else if '.' in t.lexeme then
      if IsFloatText(t.lexeme) then Success(Float(t.lexeme))
      else Failure(TokenError(InvalidLexeme, "Invalid number format: " + t.lexeme, t))
    else if IsIntegerText(t.lexeme) then
      Success(Integer(IntegerTextValue(t.lexeme)))
    else
      Failure(TokenError(InvalidLexeme, "Invalid number format: " + t.lexeme, t))
  }

  /** `float("1.2.3")` is a `ValueError`, so the lexeme is invalid. */
  lemma TwoPointsRejected()
    ensures NumericValue(TokenWithLexeme(NumberLiteral, 1, 1, "1.2.3")).Failure?
  {
    var a := "1.2.3";
    assert Unsigned(a) == a;
    forall k | 0 <= k < |a| && a[k] == '.'
      ensures !(IsDigits(a[..k]) && IsDigits(a[k + 1..]))
    {
      if k == 1 {
        assert a[k + 1..][1] == '.';
      } else {
        assert a[..k][1] == '.';
      }
    }
  }

  /** `float(".")` is a `ValueError`, so the lexeme is invalid. */
  lemma LonePointRejected()
    ensures NumericValue(TokenWithLexeme(NumberLiteral, 1, 1, ".")).Failure?
  {
    assert Unsigned(".") == ".";
  }

  /** `int()` takes a sign: `"+5"` is 5 and `"-5"` is -5. */
  lemma SignedIntegers()
    ensures NumericValue(TokenWithLexeme(NumberLiteral, 1, 1, "+5")) == Success(Integer(5))
    ensures NumericValue(TokenWithLexeme(NumberLiteral, 1, 1, "-5")) == Success(Integer(-5))
  {
    assert Unsigned("+5") == "5" && Unsigned("-5") == "5";
    assert DigitsValue("5") == 5 by { assert "5"[..0] == []; }
  }

  /** `float(".5")` is a float: digits may be missing on one side of the point. */
  lemma PointFirstFloat()
    ensures NumericValue(TokenWithLexeme(NumberLiteral, 1, 1, ".5")) == Success(Float(".5"))
  {
    var a := ".5";
    assert Unsigned(a) == a;
    assert a[0] == '.' && IsDigits(a[..0]) && IsDigits(a[1..]);
  }

  /** A number token carrying `str(n)` reads back as `n`, for every integer `n`. */
  lemma NumericValueOfDecimalText(line: int, column: int, n: int)
    requires line >= 1 && column >= 1
    ensures NumericValue(TokenWithLexeme(NumberLiteral, line, column, IntToString(n))) == Success(Integer(n))
  {
    var s := IntToString(n);
    IntegerTextOfIntToString(n);
    IntegerTextIsNoFloatText(s);
    assert s == [s[0]] + Unsigned(s) || s == Unsigned(s);
  }

  /** The text of a string literal: the lexeme without its first and last characters. */
  function StringValue(t: Token): (r: Result<string, TokenError>)
    requires t.TokenWithLexeme? && WellFormed(t)
    ensures r.Success? <==> t.kind == StringLiteral && |t.lexeme| >= 2
    ensures t.kind != StringLiteral ==> r.error.code == InvalidTokenType
    ensures t.kind == StringLiteral && |t.lexeme| < 2 ==> r.error.code == InvalidLexeme
    ensures r.Success? ==> t.lexeme == [t.lexeme[0]] + r.value + [t.lexeme[|t.lexeme| - 1]]
  {
    if t.kind != StringLiteral then
      Failure(TokenError(InvalidTokenType, "Expected string literal, got " + Value(t.kind), t))
    else if |t.lexeme| < 2 then
      Failure(TokenError(InvalidLexeme, "String literal too short: " + t.lexeme, t))
    else
      Success(t.lexeme[1..|t.lexeme| - 1])
  }

  /** "true" is true and "false" is false; any other lexeme or kind is an error. */
  function BooleanValue(t: Token): (r: Result<bool, TokenError>)
    requires t.TokenWithLexeme? && WellFormed(t)
    ensures r.Success? <==> t.kind == BooleanLiteral && (t.lexeme == "true" || t.lexeme == "false")
    ensures r.Success? ==> (r.value <==> t.lexeme == "true")
    ensures t.kind != BooleanLiteral ==> r.error.code == InvalidTokenType
    ensures t.kind == BooleanLiteral && r.Failure? ==> r.error.code == InvalidLexeme
  {
    if t.kind != BooleanLiteral then
      Failure(TokenError(InvalidTokenType, "Expected boolean literal, got " + Value(t.kind), t))
    else if t.lexeme == "true" then Success(true)
    else if t.lexeme == "false" then Success(false)
    else Failure(TokenError(InvalidLexeme, "Invalid boolean value: " + t.lexeme, t))
  }

  /** The name of an identifier token is its lexeme. */
  function IdentifierName(t: Token): (r: Result<string, TokenError>)
    requires t.TokenWithLexeme? && WellFormed(t)
    ensures r.Success? <==> t.kind == Identifier
    ensures r.Success? ==> r.value == t.lexeme && |r.value| > 0
    ensures r.Failure? ==> r.error.code == InvalidTokenType
  {
    if t.kind != Identifier then
      Failure(TokenError(InvalidTokenType, "Expected identifier, got " + Value(t.kind), t))
    else Success(t.lexeme)
  }
}
