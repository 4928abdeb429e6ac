/**
 * The recursive-descent parser as functions over its state: the current
 * token and the scanner's position just after it. Each rule returns the node
 * it builds with the state it leaves, or the first error raised, lexical or
 * syntactic. The functions follow the parser's methods one for one (the
 * `while` loops become tail-recursive `...Rest` functions) and are the
 * specification the `SyntacticAnalyzer` class is proved against.
 */
module Parsing {
  import opened Wrappers
  import opened Tokens
  import opened Scanning
  import opened Ast

  /**
   * What successive `next_token()` calls of the scanner return, in order:
   * tokens up to EOF, or up to the lexical error that stops the scanner.
   */
  type Lexed = seq<Result<Token, LexicalError>>

  /** Only the last result can be EOF or an error. */
  predicate ValidStream(ts: Lexed)
  {
    && |ts| > 0
    && (forall k | 0 <= k < |ts| - 1 :: ts[k].Success? && ts[k].value.kind != Eof)
    && (ts[|ts| - 1].Success? ==> ts[|ts| - 1].value.kind == Eof)
  }

  /** The results of `next_token()` called again and again from position `p` of the text. */
  function LexedFrom(src: string, p: nat): (ts: Lexed)
    requires p <= |src|
    ensures ValidStream(ts)
    decreases |src| - p
  {
    match Scanning.NextToken(src, p)
    case Failure(e) => [Failure(e)]
    case Success(s) => if s.token.kind == Eof then [Success(s.token)] else [Success(s.token)] + LexedFrom(src, s.next)
  }

  /**
   * The parser's state is the number of tokens read before the current one;
   * the current token is the result at that index, which is a token.
   */
  predicate ValidState(ts: Lexed, st: nat)
  {
    st < |ts| && ts[st].Success?
  }

  function Current(ts: Lexed, st: nat): Token
    requires ValidState(ts, st)
  {
    ts[st].value
  }

  datatype SyntacticErrorCode = UnexpectedToken | WrongNumberOfExpressions

  datatype ParseError =
    | LexicalFailure(lexical: LexicalError)
    | SyntacticFailure(code: SyntacticErrorCode, message: string, token: Token)

  datatype Parsed<T> = Parsed(node: T, next: nat)

  /** A successful rule leaves a valid state and has consumed at least one token. */
  predicate Progress<T>(ts: Lexed, st: nat, r: Result<Parsed<T>, ParseError>)
  {
    r.Success? ==> ValidState(ts, r.value.next) && st < r.value.next
  }

  /** A successful rule leaves a valid state and has not gone back. */
  predicate NoRegress<T>(ts: Lexed, st: nat, r: Result<Parsed<T>, ParseError>)
  {
    r.Success? ==> ValidState(ts, r.value.next) && st <= r.value.next
  }

  /** The text a token contributes to the tree: its lexeme if it has one, otherwise its kind's value. */
  function TokenValue(t: Token): (s: string)
    ensures t.Token? ==> s == Value(t.kind)
  {
    if t.TokenWithLexeme? then t.lexeme else Value(t.kind)
  }

  function Unexpected<T>(expected: string, t: Token): Result<T, ParseError>
  {
    Failure(SyntacticFailure(UnexpectedToken, "Expected " + expected + ", got " + Value(t.kind), t))
  }

  /** `next_token()`: the next result; past EOF the scanner keeps returning EOF. */
  function NextState(ts: Lexed, st: nat): (r: Result<nat, ParseError>)
    requires ValidStream(ts) && ValidState(ts, st)
    ensures r.Success? ==> ValidState(ts, r.value)
    ensures Current(ts, st).kind != Eof ==> st + 1 < |ts| && (r.Success? <==> ts[st + 1].Success?)
    ensures r.Success? && Current(ts, st).kind != Eof ==> r.value == st + 1
    ensures r.Failure? ==> st + 1 < |ts| && ts[st + 1].Failure? && r.error == LexicalFailure(ts[st + 1].error)
  {
    if st + 1 == |ts| then Success(st)
    else if ts[st + 1].Failure? then Failure(LexicalFailure(ts[st + 1].error))
    else Success(st + 1)
  }

  /** The parser's first state: the first result must be a token. */
  function Start(ts: Lexed): (r: Result<nat, ParseError>)
    requires ValidStream(ts)
    ensures r.Success? ==> r.value == 0 && ValidState(ts, 0)
  {
    if ts[0].Failure? then Failure(LexicalFailure(ts[0].error)) else Success(0)
  }

  /** `_consume`: the current token, and the next one read in its place, only when its kind is the expected one. */
  function Consume(ts: Lexed, st: nat, expected: TokenType): (r: Result<Parsed<Token>, ParseError>)
    requires ValidStream(ts) && ValidState(ts, st)
    ensures r.Success? ==> Current(ts, st).kind == expected && r.value.node == Current(ts, st)
    ensures expected != Eof ==> Progress(ts, st, r)
    ensures r.Success? && expected != Eof ==> r.value.next == st + 1
    ensures Current(ts, st).kind != expected ==> r.Failure? && r.error.SyntacticFailure? && r.error.code == UnexpectedToken
  {
    if Current(ts, st).kind == expected then
      var next :- NextState(ts, st);
      Success(Parsed(Current(ts, st), next))
    else Unexpected(Value(expected), Current(ts, st))
  }

  /** `_peek_next_token`: the token after the current one; the state itself is kept. */
  function PeekNextToken(ts: Lexed, st: nat): (r: Result<Token, ParseError>)
    requires ValidStream(ts) && ValidState(ts, st)
    ensures r.Success? <==> NextState(ts, st).Success?
    ensures r.Success? ==> r.value == Current(ts, NextState(ts, st).value)
  {
    var next :- NextState(ts, st);
    Success(Current(ts, next))
  }

  /** `parse`: a program, and then nothing but EOF. */
  function Parse(ts: Lexed, st: nat): (r: Result<Parsed<Program>, ParseError>)
    requires ValidStream(ts) && ValidState(ts, st)
    ensures r.Success? ==> ValidState(ts, r.value.next) && Current(ts, r.value.next).kind == Eof && r.value.next == |ts| - 1
    ensures r.Success? ==> Current(ts, st).kind == LeftBrace
  {
    var program :- ProgramRule(ts, st);
    if Current(ts, program.next).kind != Eof then Unexpected("EOF", Current(ts, program.next))
    else Success(program)
  }

  /** The whole pipeline from text to tree: the constructor reads the first token, then `parse` runs. */
  function ParseSource(src: string): (r: Result<Program, ParseError>)
    ensures r.Success? ==> LexedFrom(src, 0)[0].Success? && LexedFrom(src, 0)[0].value.kind == LeftBrace
    ensures r.Success? ==> forall k | 0 <= k < |LexedFrom(src, 0)| :: LexedFrom(src, 0)[k].Success?
  {
    var ts := LexedFrom(src, 0);
    var st :- Start(ts);
    var program :- Parse(ts, st);
    Success(program.node)
  }

  function ProgramRule(ts: Lexed, st: nat): (r: Result<Parsed<Program>, ParseError>)
    requires ValidStream(ts) && ValidState(ts, st)
    ensures Progress(ts, st, r)
    ensures r.Success? ==> Current(ts, st).kind == LeftBrace
  {
    var block :- BlockRule(ts, st);
    Success(Parsed(NodeProgram(block.node), block.next))
  }

  /** A NEWLINE is consumed if it is the current token. */
  function OptionalNewline(ts: Lexed, st: nat): (r: Result<nat, ParseError>)
    requires ValidStream(ts) && ValidState(ts, st)
    ensures r.Success? ==> ValidState(ts, r.value) && st <= r.value
    ensures r.Success? && Current(ts, st).kind != Newline ==> r.value == st
  {
    if Current(ts, st).kind == Newline then
      var n :- Consume(ts, st, Newline);
      Success(n.next)
    else Success(st)
  }

  /**
   * `_block`: '{', an optional NEWLINE, statements each followed by NEWLINE
   * or '}', then '}'. No statements gives an absent list.
   */
  function BlockRule(ts: Lexed, st: nat): (r: Result<Parsed<Block>, ParseError>)
    requires ValidStream(ts) && ValidState(ts, st)
    ensures Progress(ts, st, r)
    ensures r.Success? ==> Current(ts, st).kind == LeftBrace
    ensures r.Success? && r.value.node.statements.Statements? ==> |r.value.node.statements.items| > 0
    decreases |ts| - st, 35
  {
    var open :- Consume(ts, st, LeftBrace);
    var afterOpen :- OptionalNewline(ts, open.next);
    var body :- BlockStatements(ts, afterOpen, []);
    var close :- Consume(ts, body.next, RightBrace);
    Success(Parsed(NodeBlock(if body.node == [] then NoStatements else Statements(body.node)), close.next))
  }

  /** The loop of `_block`: statements are appended to `acc` until the current token is '}'. */
  function BlockStatements(ts: Lexed, st: nat, acc: seq<Statement>): (r: Result<Parsed<seq<Statement>>, ParseError>)
    requires ValidStream(ts) && ValidState(ts, st)
    ensures NoRegress(ts, st, r)
    ensures r.Success? ==> Current(ts, r.value.next).kind == RightBrace
    ensures r.Success? ==> acc <= r.value.node
    decreases |ts| - st, 34
  {
    if Current(ts, st).kind == RightBrace then Success(Parsed(acc, st))
    else if Current(ts, st).kind == Newline then
      var n :- Consume(ts, st, Newline);
      BlockStatements(ts, n.next, acc)
    else
      var s :- StatementRule(ts, st);
      if Current(ts, s.next).kind == Newline then
        var n :- Consume(ts, s.next, Newline);
        BlockStatements(ts, n.next, acc + [s.node])
      else if Current(ts, s.next).kind != RightBrace then Unexpected("NEWLINE or RIGHT_BRACE", Current(ts, s.next))
      else BlockStatements(ts, s.next, acc + [s.node])
  }

  /** The kinds a statement can start with. */
  predicate StartsStatement(k: TokenType)
  {
    k == Let || k == Keep || k == Func || k == Proc || k == Exec || k == Identifier || k == Give || k == Show || k == If || k == While || k == Skip || k == Stop
  }

  /** `_statement`: the rule is chosen by the current token alone; an identifier always starts an assignment. */
  function StatementRule(ts: Lexed, st: nat): (r: Result<Parsed<Statement>, ParseError>)
    requires ValidStream(ts) && ValidState(ts, st)
    ensures Progress(ts, st, r)
    ensures r.Success? && Current(ts, st).kind == Identifier ==> r.value.node.NodeAssignmentStatement?
    decreases |ts| - st, 33
  {
    var kind := Current(ts, st).kind;
    if kind == Let then VariableDeclaration(ts, st)
    else if kind == Keep then ConstantDeclaration(ts, st)
    else if kind == Func then FunctionDeclaration(ts, st)
    else if kind == Proc then ProcedureDeclaration(ts, st)
    else if kind == Exec then ProcedureCall(ts, st)
    else if kind == Identifier then AssignmentStatement(ts, st)
    else if kind == Give then GiveStatement(ts, st)
    else if kind == Show then ShowStatement(ts, st)
    else if kind == If then IfStatement(ts, st)
    else if kind == While then WhileStatement(ts, st)
    else if kind == Skip then
      var t :- Consume(ts, st, Skip);
      Success(Parsed(NodeSkipStatement, t.next))
    else if kind == Stop then
      var t :- Consume(ts, st, Stop);
      Success(Parsed(NodeStopStatement, t.next))
    else Unexpected("statement", Current(ts, st))
  }

  function WrongNumber<T>(identifiers: nat, expressions: nat, t: Token): Result<T, ParseError>
  {
    Failure(SyntacticFailure(WrongNumberOfExpressions,
      "Expected " + Text.IntToString(identifiers) + " expressions, got " + Text.IntToString(expressions), t))
  }

  /** `_variable_declaration`: `let` type identifiers, and optionally '=' and one expression per identifier. */
  function VariableDeclaration(ts: Lexed, st: nat): (r: Result<Parsed<Statement>, ParseError>)
    requires ValidStream(ts) && ValidState(ts, st)
    ensures Progress(ts, st, r)
    ensures r.Success? ==> Current(ts, st).kind == Let && r.value.node.NodeVariableDeclaration?
    ensures r.Success? ==> |r.value.node.identifiers| > 0
    ensures r.Success? && r.value.node.initializers.Expressions? ==>
      |r.value.node.initializers.items| == |r.value.node.identifiers|
    decreases |ts| - st, 32
  {
    var let_ :- Consume(ts, st, Let);
    var varType :- TypeRule(ts, let_.next);
    var identifiers :- IdentifierList(ts, varType.next);
    if Current(ts, identifiers.next).kind == Assign then
      var expressions :- Initializers(ts, identifiers.next, |identifiers.node|);
      Success(Parsed(NodeVariableDeclaration(varType.node, identifiers.node, Expressions(expressions.node)), expressions.next))
    else
      Success(Parsed(NodeVariableDeclaration(varType.node, identifiers.node, NoExpressions), identifiers.next))
  }

  /** `_constant_declaration`: `keep` type identifiers '=' and one expression per identifier; the '=' is required. */
  function ConstantDeclaration(ts: Lexed, st: nat): (r: Result<Parsed<Statement>, ParseError>)
    requires ValidStream(ts) && ValidState(ts, st)
    ensures Progress(ts, st, r)
    ensures r.Success? ==> Current(ts, st).kind == Keep && r.value.node.NodeConstantDeclaration?
    ensures r.Success? ==> 0 < |r.value.node.identifiers| == |r.value.node.expressions|
    decreases |ts| - st, 32
  {
    var keep :- Consume(ts, st, Keep);
    var constType :- TypeRule(ts, keep.next);
    var identifiers :- IdentifierList(ts, constType.next);
    var expressions :- Initializers(ts, identifiers.next, |identifiers.node|);
    Success(Parsed(NodeConstantDeclaration(constType.node, identifiers.node, expressions.node), expressions.next))
  }

  /**
   * The '=' part of both declarations: '=' and an expression list, which
   * must hold exactly one expression per declared identifier.
   */
  function Initializers(ts: Lexed, st: nat, identifiers: nat): (r: Result<Parsed<seq<Expression>>, ParseError>)
    requires ValidStream(ts) && ValidState(ts, st)
    ensures Progress(ts, st, r)
    ensures r.Success? ==> Current(ts, st).kind == Assign && |r.value.node| == identifiers
    ensures r.Success? ==> forall i | 0 <= i < |r.value.node| :: IsBoolean(r.value.node[i]) && WellTyped(r.value.node[i])
    decreases |ts| - st, 31
  {
    var assign :- Consume(ts, st, Assign);
    var expressions :- ExpressionList(ts, assign.next);
    if identifiers != |expressions.node| then
      WrongNumber(identifiers, |expressions.node|, Current(ts, expressions.next))
    else Success(expressions)
  }

  /** `_identifier`: an IDENTIFIER token, kept as its name. */
  function IdentifierRule(ts: Lexed, st: nat): (r: Result<Parsed<string>, ParseError>)
    requires ValidStream(ts) && ValidState(ts, st)
    ensures Progress(ts, st, r)
    ensures r.Success? ==> Current(ts, st).kind == Identifier && r.value.node == TokenValue(Current(ts, st))
  {
    var t :- Consume(ts, st, Identifier);
    Success(Parsed(TokenValue(t.node), t.next))
  }

  /** `_identifier_list`: one identifier, then more after each ','. */
  function IdentifierList(ts: Lexed, st: nat): (r: Result<Parsed<seq<string>>, ParseError>)
    requires ValidStream(ts) && ValidState(ts, st)
    ensures Progress(ts, st, r)
    ensures r.Success? ==> |r.value.node| > 0 && Current(ts, r.value.next).kind != Comma
  {
    var first :- IdentifierRule(ts, st);
    IdentifierRest(ts, first.next, [first.node])
  }

  function IdentifierRest(ts: Lexed, st: nat, acc: seq<string>): (r: Result<Parsed<seq<string>>, ParseError>)
    requires ValidStream(ts) && ValidState(ts, st)
    ensures NoRegress(ts, st, r)
    ensures r.Success? ==> acc <= r.value.node && Current(ts, r.value.next).kind != Comma
    decreases |ts| - st
  {
    if Current(ts, st).kind == Comma then
      var comma :- Consume(ts, st, Comma);
      var next :- IdentifierRule(ts, comma.next);
      IdentifierRest(ts, next.next, acc + [next.node])
    else Success(Parsed(acc, st))
  }

  /**
   * `_expression_list`, and `_argument_list`, whose body is the same: one
   * expression, then more after each ','.
   */
  function ExpressionList(ts: Lexed, st: nat): (r: Result<Parsed<seq<Expression>>, ParseError>)
    requires ValidStream(ts) && ValidState(ts, st)
    ensures Progress(ts, st, r)
    ensures r.Success? ==> |r.value.node| > 0 && Current(ts, r.value.next).kind != Comma
    ensures r.Success? ==> forall i | 0 <= i < |r.value.node| :: IsBoolean(r.value.node[i]) && WellTyped(r.value.node[i])
    decreases |ts| - st, 31
  {
    var first :- BooleanExpression(ts, st);
    ExpressionRest(ts, first.next, [first.node])
  }

  function ExpressionRest(ts: Lexed, st: nat, acc: seq<Expression>): (r: Result<Parsed<seq<Expression>>, ParseError>)
    requires ValidStream(ts) && ValidState(ts, st)
    requires forall i | 0 <= i < |acc| :: IsBoolean(acc[i]) && WellTyped(acc[i])
    ensures NoRegress(ts, st, r)
    ensures r.Success? ==> acc <= r.value.node && Current(ts, r.value.next).kind != Comma
    ensures r.Success? ==> forall i | 0 <= i < |r.value.node| :: IsBoolean(r.value.node[i]) && WellTyped(r.value.node[i])
    decreases |ts| - st, 31
  {
    if Current(ts, st).kind == Comma then
      var comma :- Consume(ts, st, Comma);
      var next :- BooleanExpression(ts, comma.next);
      ExpressionRest(ts, next.next, acc + [next.node])
    else Success(Parsed(acc, st))
  }

  /** An optional parenthesised list is absent exactly when ')' follows '(' directly. */
  function ParenthesisedArguments(ts: Lexed, st: nat): (r: Result<Parsed<ExpressionList>, ParseError>)
    requires ValidStream(ts) && ValidState(ts, st)
    ensures Progress(ts, st, r)
    ensures r.Success? ==> Current(ts, st).kind == LeftParenthesis
    ensures r.Success? && r.value.node.Expressions? ==> |r.value.node.items| > 0
    ensures r.Success? && r.value.node.Expressions? ==>
      forall i | 0 <= i < |r.value.node.items| :: IsBoolean(r.value.node.items[i]) && WellTyped(r.value.node.items[i])
    decreases |ts| - st, 12
  {
    var open :- Consume(ts, st, LeftParenthesis);
    if Current(ts, open.next).kind != RightParenthesis then
      var arguments :- ExpressionList(ts, open.next);
      var close :- Consume(ts, arguments.next, RightParenthesis);
      Success(Parsed(Expressions(arguments.node), close.next))
    else
      var close :- Consume(ts, open.next, RightParenthesis);
      Success(Parsed(NoExpressions, close.next))
  }

  /** `_function_declaration`: `func` name '(' optional parameters ')' '->' type block. */
  function FunctionDeclaration(ts: Lexed, st: nat): (r: Result<Parsed<Statement>, ParseError>)
    requires ValidStream(ts) && ValidState(ts, st)
    ensures Progress(ts, st, r)
    ensures r.Success? ==> Current(ts, st).kind == Func && r.value.node.NodeFunctionDeclaration?
    ensures r.Success? && r.value.node.parameters.Some? ==> |r.value.node.parameters.value| > 0
    decreases |ts| - st, 32
  {
    var header :- Header(ts, st, Func);
    var arrow :- Consume(ts, header.next, Arrow);
    var giveType :- TypeRule(ts, arrow.next);
    var block :- BlockRule(ts, giveType.next);
    Success(Parsed(NodeFunctionDeclaration(header.node.0, header.node.1, giveType.node, block.node), block.next))
  }

  /** `_procedure_declaration`: `proc` name '(' optional parameters ')' block; no give type. */
  function ProcedureDeclaration(ts: Lexed, st: nat): (r: Result<Parsed<Statement>, ParseError>)
    requires ValidStream(ts) && ValidState(ts, st)
    ensures Progress(ts, st, r)
    ensures r.Success? ==> Current(ts, st).kind == Proc && r.value.node.NodeProcedureDeclaration?
    ensures r.Success? && r.value.node.parameters.Some? ==> |r.value.node.parameters.value| > 0
    decreases |ts| - st, 32
  {
    var header :- Header(ts, st, Proc);
    var block :- BlockRule(ts, header.next);
    Success(Parsed(NodeProcedureDeclaration(header.node.0, header.node.1, block.node), block.next))
  }

  /** The part both declarations share: the keyword, the name and the parenthesised parameters. */
  function Header(ts: Lexed, st: nat, keyword: TokenType): (r: Result<Parsed<(string, Option<seq<Parameter>>)>, ParseError>)
    requires ValidStream(ts) && ValidState(ts, st)
    requires keyword != Eof
    ensures Progress(ts, st, r)
    ensures r.Success? ==> Current(ts, st).kind == keyword
    ensures r.Success? && r.value.node.1.Some? ==> |r.value.node.1.value| > 0
  {
    var key :- Consume(ts, st, keyword);
    var name :- IdentifierRule(ts, key.next);
    var parameters :- ParenthesisedParameters(ts, name.next);
    Success(Parsed((name.node, parameters.node), parameters.next))
  }

  /** '(' then, unless ')' follows at once, `_parameter_list`, then ')'. */
  function ParenthesisedParameters(ts: Lexed, st: nat): (r: Result<Parsed<Option<seq<Parameter>>>, ParseError>)
    requires ValidStream(ts) && ValidState(ts, st)
    ensures Progress(ts, st, r)
    ensures r.Success? && r.value.node.Some? ==> |r.value.node.value| > 0
  {
    var open :- Consume(ts, st, LeftParenthesis);
    if Current(ts, open.next).kind != RightParenthesis then
      var parameters :- ParameterList(ts, open.next);
      var close :- Consume(ts, parameters.next, RightParenthesis);
      Success(Parsed(Some(parameters.node), close.next))
    else
      var close :- Consume(ts, open.next, RightParenthesis);
      Success(Parsed(None, close.next))
  }

  /** `_parameter_list`: one parameter, then more after each ','. */
  function ParameterList(ts: Lexed, st: nat): (r: Result<Parsed<seq<Parameter>>, ParseError>)
    requires ValidStream(ts) && ValidState(ts, st)
    ensures Progress(ts, st, r)
    ensures r.Success? ==> |r.value.node| > 0
  {
    var first :- ParameterRule(ts, st);
    ParameterRest(ts, first.next, [first.node])
  }

  function ParameterRest(ts: Lexed, st: nat, acc: seq<Parameter>): (r: Result<Parsed<seq<Parameter>>, ParseError>)
    requires ValidStream(ts) && ValidState(ts, st)
    ensures NoRegress(ts, st, r)
    ensures r.Success? ==> acc <= r.value.node && Current(ts, r.value.next).kind != Comma
    decreases |ts| - st
  {
    if Current(ts, st).kind == Comma then
      var comma :- Consume(ts, st, Comma);
      var next :- ParameterRule(ts, comma.next);
      ParameterRest(ts, next.next, acc + [next.node])
    else Success(Parsed(acc, st))
  }

  /** `_parameter`: a type, then the parameter's name. */
  function ParameterRule(ts: Lexed, st: nat): (r: Result<Parsed<Parameter>, ParseError>)
    requires ValidStream(ts) && ValidState(ts, st)
    ensures Progress(ts, st, r)
    ensures r.Success? ==> IsTypeKeyword(Current(ts, st).kind)
  {
    var paramType :- TypeRule(ts, st);
    var name :- IdentifierRule(ts, paramType.next);
    Success(Parsed(NodeParameter(name.node, paramType.node), name.next))
  }

  /** `_type`: one of the three type keywords. */
  function TypeRule(ts: Lexed, st: nat): (r: Result<Parsed<NodeType>, ParseError>)
    requires ValidStream(ts) && ValidState(ts, st)
    ensures Progress(ts, st, r)
    ensures r.Success? <==> IsTypeKeyword(Current(ts, st).kind) && NextState(ts, st).Success?
    ensures r.Success? ==> r.value.node == NodeTypeOf(Current(ts, st))
  {
    if IsTypeKeyword(Current(ts, st).kind) then
      var t :- Consume(ts, st, Current(ts, st).kind);
      Success(Parsed(NodeTypeOf(t.node), t.next))
    else Unexpected("type", Current(ts, st))
  }

  /** `_procedure_call`: `exec` name '(' optional arguments ')'. */
  function ProcedureCall(ts: Lexed, st: nat): (r: Result<Parsed<Statement>, ParseError>)
    requires ValidStream(ts) && ValidState(ts, st)
    ensures Progress(ts, st, r)
    ensures r.Success? ==> Current(ts, st).kind == Exec && r.value.node.NodeProcedureCall?
    decreases |ts| - st, 32
  {
    var exec :- Consume(ts, st, Exec);
    var name :- IdentifierRule(ts, exec.next);
    var arguments :- ParenthesisedArguments(ts, name.next);
    Success(Parsed(NodeProcedureCall(name.node, arguments.node), arguments.next))
  }

  /** `_assignment_statement`: name '=' expression. */
  function AssignmentStatement(ts: Lexed, st: nat): (r: Result<Parsed<Statement>, ParseError>)
    requires ValidStream(ts) && ValidState(ts, st)
    ensures Progress(ts, st, r)
    ensures r.Success? ==> Current(ts, st).kind == Identifier && r.value.node.NodeAssignmentStatement?
    ensures r.Success? ==> r.value.node.identifier == TokenValue(Current(ts, st))
    ensures r.Success? ==> IsBoolean(r.value.node.expression) && WellTyped(r.value.node.expression)
    decreases |ts| - st, 32
  {
    var name :- IdentifierRule(ts, st);
    var assign :- Consume(ts, name.next, Assign);
    var expression :- BooleanExpression(ts, assign.next);
    Success(Parsed(NodeAssignmentStatement(name.node, expression.node), expression.next))
  }

  /** `_give_statement`: `give`, with no expression exactly when NEWLINE or '}' comes next. */
  function GiveStatement(ts: Lexed, st: nat): (r: Result<Parsed<Statement>, ParseError>)
    requires ValidStream(ts) && ValidState(ts, st)
    ensures Progress(ts, st, r)
    ensures r.Success? ==> Current(ts, st).kind == Give && r.value.node.NodeGiveStatement?
    ensures r.Success? ==>
      var next := NextState(ts, st);
      next.Success? && (r.value.node.value.None? <==> Current(ts, next.value).kind in {Newline, RightBrace})
    decreases |ts| - st, 32
  {
    var give :- Consume(ts, st, Give);
    if Current(ts, give.next).kind in {Newline, RightBrace} then Success(Parsed(NodeGiveStatement(None), give.next))
    else
      var expression :- BooleanExpression(ts, give.next);
      Success(Parsed(NodeGiveStatement(Some(expression.node)), expression.next))
  }

  /** `_show_statement`: `show` and a required expression. */
  function ShowStatement(ts: Lexed, st: nat): (r: Result<Parsed<Statement>, ParseError>)
    requires ValidStream(ts) && ValidState(ts, st)
    ensures Progress(ts, st, r)
    ensures r.Success? ==> Current(ts, st).kind == Show && r.value.node.NodeShowStatement?
    decreases |ts| - st, 32
  {
    var show :- Consume(ts, st, Show);
    var expression :- BooleanExpression(ts, show.next);
    Success(Parsed(NodeShowStatement(expression.node), expression.next))
  }

  /** `_if_statement`: `if` condition block, then any `elif` branches, then an optional `else` branch. */
  function IfStatement(ts: Lexed, st: nat): (r: Result<Parsed<Statement>, ParseError>)
    requires ValidStream(ts) && ValidState(ts, st)
    ensures Progress(ts, st, r)
    ensures r.Success? ==> Current(ts, st).kind == If && r.value.node.NodeIfStatement?
    ensures r.Success? && r.value.node.elifs.Elifs? ==> |r.value.node.elifs.items| > 0
    decreases |ts| - st, 32
  {
    var if_ :- Consume(ts, st, If);
    var condition :- BooleanExpression(ts, if_.next);
    var block :- BlockRule(ts, condition.next);
    var elifs :- OptionalElifs(ts, block.next);
    var else_ :- OptionalElse(ts, elifs.next);
    Success(Parsed(NodeIfStatement(condition.node, block.node, elifs.node, else_.node), else_.next))
  }

  /** `_elifs` when the current token is `elif`; otherwise no elif branches. */
  function OptionalElifs(ts: Lexed, st: nat): (r: Result<Parsed<ElifList>, ParseError>)
    requires ValidStream(ts) && ValidState(ts, st)
    ensures NoRegress(ts, st, r)
    ensures r.Success? ==> (r.value.node.Elifs? <==> Current(ts, st).kind == Elif)
    ensures r.Success? && r.value.node.Elifs? ==> |r.value.node.items| > 0
    ensures r.Success? ==> Current(ts, r.value.next).kind != Elif
    decreases |ts| - st, 32
  {
    if Current(ts, st).kind == Elif then
      var branches :- ElifRest(ts, st, []);
      Success(Parsed(Elifs(branches.node), branches.next))
    else Success(Parsed(NoElifs, st))
  }

  /** The loop of `_elifs`: one `_elif` branch for each leading `elif`. */
  function ElifRest(ts: Lexed, st: nat, acc: seq<Elif>): (r: Result<Parsed<seq<Elif>>, ParseError>)
    requires ValidStream(ts) && ValidState(ts, st)
    ensures NoRegress(ts, st, r)
    ensures r.Success? ==> acc <= r.value.node && Current(ts, r.value.next).kind != Elif
    ensures r.Success? && Current(ts, st).kind == Elif ==> |r.value.node| > |acc|
    decreases |ts| - st, 31
  {
    if Current(ts, st).kind == Elif then
      var branch :- ElifRule(ts, st);
      ElifRest(ts, branch.next, acc + [branch.node])
    else Success(Parsed(acc, st))
  }

  /** `_elif`: `elif` condition block. */
  function ElifRule(ts: Lexed, st: nat): (r: Result<Parsed<Elif>, ParseError>)
    requires ValidStream(ts) && ValidState(ts, st)
    ensures Progress(ts, st, r)
    ensures r.Success? ==> Current(ts, st).kind == Elif
    decreases |ts| - st, 30
  {
    var elif_ :- Consume(ts, st, Elif);
    var condition :- BooleanExpression(ts, elif_.next);
    var block :- BlockRule(ts, condition.next);
    Success(Parsed(NodeElif(condition.node, block.node), block.next))
  }

  /** `_else` when the current token is `else`; otherwise no else branch. */
  function OptionalElse(ts: Lexed, st: nat): (r: Result<Parsed<ElsePart>, ParseError>)
    requires ValidStream(ts) && ValidState(ts, st)
    ensures NoRegress(ts, st, r)
    ensures r.Success? ==> (r.value.node.SomeElse? <==> Current(ts, st).kind == Else)
    decreases |ts| - st, 32
  {
    if Current(ts, st).kind == Else then
      var else_ :- Consume(ts, st, Else);
      var block :- BlockRule(ts, else_.next);
      Success(Parsed(SomeElse(NodeElse(block.node)), block.next))
    else Success(Parsed(NoElse, st))
  }

  /** `_while_statement`: `while` condition block. */
  function WhileStatement(ts: Lexed, st: nat): (r: Result<Parsed<Statement>, ParseError>)
    requires ValidStream(ts) && ValidState(ts, st)
    ensures Progress(ts, st, r)
    ensures r.Success? ==> Current(ts, st).kind == While && r.value.node.NodeWhileStatement?
    ensures r.Success? ==> IsBoolean(r.value.node.condition) && WellTyped(r.value.node.condition)
    decreases |ts| - st, 32
  {
    var while_ :- Consume(ts, st, While);
    var condition :- BooleanExpression(ts, while_.next);
    var block :- BlockRule(ts, condition.next);
    Success(Parsed(NodeWhileStatement(condition.node, block.node), block.next))
  }

  // ---------------------------------------------------------------------------
  // Expressions, lowest precedence first
  // ---------------------------------------------------------------------------

  /** The kinds an arithmetic expression can start with. */
  predicate StartsArithmetic(k: TokenType)
  {
    k == Plus || k == Minus || k == NumberLiteral || k == StringLiteral || k == Identifier || k == LeftParenthesis
  }

  /** The kinds a primary boolean expression can start with: a boolean literal, or what an arithmetic expression starts with. */
  predicate StartsPrimaryBoolean(k: TokenType)
  {
    k == BooleanLiteral || StartsArithmetic(k)
  }

  /** `_expression` and `_boolean_expression`: both are the logical-or level, so every expression is a boolean node. */
  function BooleanExpression(ts: Lexed, st: nat): (r: Result<Parsed<Expression>, ParseError>)
    requires ValidStream(ts) && ValidState(ts, st)
    ensures Progress(ts, st, r)
    ensures r.Success? ==> IsBoolean(r.value.node) && WellTyped(r.value.node)
    ensures r.Success? ==> Current(ts, st).kind == Not || StartsPrimaryBoolean(Current(ts, st).kind)
    decreases |ts| - st, 30
  {
    LogicalOrExpression(ts, st)
  }

  /** `_logical_or_expression`: and-level operands joined by `or`, grouped to the left. */
  function LogicalOrExpression(ts: Lexed, st: nat): (r: Result<Parsed<Expression>, ParseError>)
    requires ValidStream(ts) && ValidState(ts, st)
    ensures Progress(ts, st, r)
    ensures r.Success? ==> IsBoolean(r.value.node) && WellTyped(r.value.node)
    ensures r.Success? ==> Current(ts, st).kind == Not || StartsPrimaryBoolean(Current(ts, st).kind)
    decreases |ts| - st, 28
  {
    var left :- LogicalAndExpression(ts, st);
    OrRest(ts, left.next, left.node)
  }

  function OrRest(ts: Lexed, st: nat, left: Expression): (r: Result<Parsed<Expression>, ParseError>)
    requires ValidStream(ts) && ValidState(ts, st)
    requires IsBoolean(left) && WellTyped(left)
    ensures NoRegress(ts, st, r)
    ensures r.Success? ==> IsBoolean(r.value.node) && WellTyped(r.value.node) && Current(ts, r.value.next).kind != Or
    decreases |ts| - st, 27
  {
    if Current(ts, st).kind == Or then
      var operator :- Consume(ts, st, Or);
      var right :- LogicalAndExpression(ts, operator.next);
      OrRest(ts, right.next, NodeBinaryBooleanOperation(left, TokenValue(operator.node), right.node))
    else Success(Parsed(left, st))
  }

  /** `_logical_and_expression`: not-level operands joined by `and`, grouped to the left. */
  function LogicalAndExpression(ts: Lexed, st: nat): (r: Result<Parsed<Expression>, ParseError>)
    requires ValidStream(ts) && ValidState(ts, st)
    ensures Progress(ts, st, r)
    ensures r.Success? ==> IsBoolean(r.value.node) && WellTyped(r.value.node)
    ensures r.Success? ==> Current(ts, st).kind == Not || StartsPrimaryBoolean(Current(ts, st).kind)
    decreases |ts| - st, 26
  {
    var left :- LogicalNotExpression(ts, st);
    AndRest(ts, left.next, left.node)
  }

  function AndRest(ts: Lexed, st: nat, left: Expression): (r: Result<Parsed<Expression>, ParseError>)
    requires ValidStream(ts) && ValidState(ts, st)
    requires IsBoolean(left) && WellTyped(left)
    ensures NoRegress(ts, st, r)
    ensures r.Success? ==> IsBoolean(r.value.node) && WellTyped(r.value.node) && Current(ts, r.value.next).kind != And
    decreases |ts| - st, 25
  {
    if Current(ts, st).kind == And then
      var operator :- Consume(ts, st, And);
      var right :- LogicalNotExpression(ts, operator.next);
      AndRest(ts, right.next, NodeBinaryBooleanOperation(left, TokenValue(operator.node), right.node))
    else Success(Parsed(left, st))
  }

  /** `_logical_not_expression`: `not` applies to a primary boolean expression only. */
  function LogicalNotExpression(ts: Lexed, st: nat): (r: Result<Parsed<Expression>, ParseError>)
    requires ValidStream(ts) && ValidState(ts, st)
    ensures Progress(ts, st, r)
    ensures r.Success? ==> IsBoolean(r.value.node) && WellTyped(r.value.node)
    ensures r.Success? ==> Current(ts, st).kind == Not || StartsPrimaryBoolean(Current(ts, st).kind)
    ensures r.Success? && r.value.node.NodeUnaryBooleanOperation? ==> Current(ts, st).kind in {Not, LeftParenthesis}
    decreases |ts| - st, 24
  {
    if Current(ts, st).kind == Not then
      var operator :- Consume(ts, st, Not);
      var operand :- PrimaryBooleanExpression(ts, operator.next);
      Success(Parsed(NodeUnaryBooleanOperation(TokenValue(operator.node), operand.node), operand.next))
    else PrimaryBooleanExpression(ts, st)
  }

  /** `_primary_boolean_expression`: a boolean literal, a parenthesised boolean expression, or a comparison. */
  function PrimaryBooleanExpression(ts: Lexed, st: nat): (r: Result<Parsed<Expression>, ParseError>)
    requires ValidStream(ts) && ValidState(ts, st)
    ensures Progress(ts, st, r)
    ensures r.Success? ==> IsBoolean(r.value.node) && WellTyped(r.value.node)
    ensures r.Success? ==> StartsPrimaryBoolean(Current(ts, st).kind)
    ensures r.Success? && r.value.node.NodeUnaryBooleanOperation? ==> Current(ts, st).kind == LeftParenthesis
    decreases |ts| - st, 23
  {
    if Current(ts, st).kind == BooleanLiteral then
      var literal :- Consume(ts, st, BooleanLiteral);
      Success(Parsed(NodeBooleanLiteral(TokenValue(literal.node)), literal.next))
    else if Current(ts, st).kind == LeftParenthesis then
      var open :- Consume(ts, st, LeftParenthesis);
      var inner :- BooleanExpression(ts, open.next);
      var close :- Consume(ts, inner.next, RightParenthesis);
      Success(Parsed(inner.node, close.next))
    else ComparisonExpression(ts, st)
  }

  predicate IsComparator(k: TokenType)
  {
    k == Equal || k == NotEqual || k == Less || k == Greater || k == LessEqual || k == GreaterEqual
  }

  /** `_comparison_expression`: two arithmetic expressions around one comparator, or one wrapped as a boolean. */
  function ComparisonExpression(ts: Lexed, st: nat): (r: Result<Parsed<Expression>, ParseError>)
    requires ValidStream(ts) && ValidState(ts, st)
    ensures Progress(ts, st, r)
    ensures r.Success? ==> WellTyped(r.value.node)
    ensures r.Success? ==> r.value.node.NodeComparisonExpression? || r.value.node.NodeArithmeticExpressionAsBoolean?
    ensures r.Success? ==> (ArithmeticExpression(ts, st).Success? &&
      (r.value.node.NodeComparisonExpression? <==> IsComparator(Current(ts, ArithmeticExpression(ts, st).value.next).kind)))
    ensures r.Success? ==> StartsArithmetic(Current(ts, st).kind)
    decreases |ts| - st, 22
  {
    var left :- ArithmeticExpression(ts, st);
    if IsComparator(Current(ts, left.next).kind) then
      var operator :- Consume(ts, left.next, Current(ts, left.next).kind);
      var right :- ArithmeticExpression(ts, operator.next);
      Success(Parsed(NodeComparisonExpression(left.node, TokenValue(operator.node), right.node), right.next))
    else Success(Parsed(NodeArithmeticExpressionAsBoolean(left.node), left.next))
  }

  /** `_arithmetic_expression`: the additive level. */
  function ArithmeticExpression(ts: Lexed, st: nat): (r: Result<Parsed<Expression>, ParseError>)
    requires ValidStream(ts) && ValidState(ts, st)
    ensures Progress(ts, st, r)
    ensures r.Success? ==> IsArithmetic(r.value.node) && WellTyped(r.value.node)
    ensures r.Success? ==> StartsArithmetic(Current(ts, st).kind)
    decreases |ts| - st, 21
  {
    AdditiveExpression(ts, st)
  }

  predicate IsAdditive(k: TokenType) { k == Plus || k == Minus }

  predicate IsMultiplicative(k: TokenType) { k == Multiply || k == Divide || k == FloorDivide || k == Modulo }

  /** `_additive_expression`: multiplicative operands joined by '+' and '-'. */
  function AdditiveExpression(ts: Lexed, st: nat): (r: Result<Parsed<Expression>, ParseError>)
    requires ValidStream(ts) && ValidState(ts, st)
    ensures Progress(ts, st, r)
    ensures r.Success? ==> IsArithmetic(r.value.node) && WellTyped(r.value.node)
    ensures r.Success? ==> StartsArithmetic(Current(ts, st).kind)
    ensures r.Success? ==> !IsAdditive(Current(ts, r.value.next).kind)
    decreases |ts| - st, 20
  {
    var left :- MultiplicativeExpression(ts, st);
    AdditiveRest(ts, left.next, left.node)
  }

  function AdditiveRest(ts: Lexed, st: nat, left: Expression): (r: Result<Parsed<Expression>, ParseError>)
    requires ValidStream(ts) && ValidState(ts, st)
    requires IsArithmetic(left) && WellTyped(left)
    ensures NoRegress(ts, st, r)
    ensures r.Success? ==> IsArithmetic(r.value.node) && WellTyped(r.value.node) && !IsAdditive(Current(ts, r.value.next).kind)
    ensures r.Success? && !IsAdditive(Current(ts, st).kind) ==> r.value == Parsed(left, st)
    decreases |ts| - st, 19
  {
    if IsAdditive(Current(ts, st).kind) then
      var operator :- Consume(ts, st, Current(ts, st).kind);
      var right :- MultiplicativeExpression(ts, operator.next);
      AdditiveRest(ts, right.next, NodeBinaryArithmeticOperation(left, TokenValue(operator.node), right.node))
    else Success(Parsed(left, st))
  }

  /** `_multiplicative_expression`: power-level operands joined by '*', '/', '//' and '%'. */
  function MultiplicativeExpression(ts: Lexed, st: nat): (r: Result<Parsed<Expression>, ParseError>)
    requires ValidStream(ts) && ValidState(ts, st)
    ensures Progress(ts, st, r)
    ensures r.Success? ==> IsArithmetic(r.value.node) && WellTyped(r.value.node)
    ensures r.Success? ==> StartsArithmetic(Current(ts, st).kind)
    ensures r.Success? ==> !IsMultiplicative(Current(ts, r.value.next).kind)
    decreases |ts| - st, 18
  {
    var left :- PowerExpression(ts, st);
    MultiplicativeRest(ts, left.next, left.node)
  }

  function MultiplicativeRest(ts: Lexed, st: nat, left: Expression): (r: Result<Parsed<Expression>, ParseError>)
    requires ValidStream(ts) && ValidState(ts, st)
    requires IsArithmetic(left) && WellTyped(left)
    ensures NoRegress(ts, st, r)
    ensures r.Success? ==> IsArithmetic(r.value.node) && WellTyped(r.value.node) && !IsMultiplicative(Current(ts, r.value.next).kind)
    ensures r.Success? && !IsMultiplicative(Current(ts, st).kind) ==> r.value == Parsed(left, st)
    decreases |ts| - st, 17
  {
    if IsMultiplicative(Current(ts, st).kind) then
      var operator :- Consume(ts, st, Current(ts, st).kind);
      var right :- PowerExpression(ts, operator.next);
      MultiplicativeRest(ts, right.next, NodeBinaryArithmeticOperation(left, TokenValue(operator.node), right.node))
    else Success(Parsed(left, st))
  }

  /**
   * `_power_expression`: a unary operand, and if '**' follows, the power
   * expression after it as the right operand, so `**` groups to the right.
   */
  function PowerExpression(ts: Lexed, st: nat): (r: Result<Parsed<Expression>, ParseError>)
    requires ValidStream(ts) && ValidState(ts, st)
    ensures Progress(ts, st, r)
    ensures r.Success? ==> IsArithmetic(r.value.node) && WellTyped(r.value.node)
    ensures r.Success? ==> StartsArithmetic(Current(ts, st).kind)
    ensures r.Success? ==> Current(ts, r.value.next).kind != Power
    ensures r.Success? && UnaryExpression(ts, st).Success? && Current(ts, UnaryExpression(ts, st).value.next).kind == Power ==>
      && r.value.node.NodeBinaryArithmeticOperation?
      && r.value.node.left == UnaryExpression(ts, st).value.node
    decreases |ts| - st, 16
  {
    var left :- UnaryExpression(ts, st);
    if Current(ts, left.next).kind == Power then
      var operator :- Consume(ts, left.next, Power);
      var right :- PowerExpression(ts, operator.next);
      Success(Parsed(NodeBinaryArithmeticOperation(left.node, TokenValue(operator.node), right.node), right.next))
    else Success(left)
  }

  /** `_unary_expression`: any number of leading '+' and '-' signs over a primary expression. */
  function UnaryExpression(ts: Lexed, st: nat): (r: Result<Parsed<Expression>, ParseError>)
    requires ValidStream(ts) && ValidState(ts, st)
    ensures Progress(ts, st, r)
    ensures r.Success? ==> IsArithmetic(r.value.node) && WellTyped(r.value.node)
    ensures r.Success? ==> StartsArithmetic(Current(ts, st).kind)
    decreases |ts| - st, 15
  {
    if IsAdditive(Current(ts, st).kind) then
      var operator :- Consume(ts, st, Current(ts, st).kind);
      var operand :- UnaryExpression(ts, operator.next);
      Success(Parsed(NodeUnaryArithmeticOperation(TokenValue(operator.node), operand.node), operand.next))
    else PrimaryExpression(ts, st)
  }

  /**
   * `_primary_expression`: a number or string literal, an identifier or a
   * call (an identifier followed by '('; the scanner is put back and the
   * call is parsed from the identifier), or a parenthesised arithmetic
   * expression.
   */
  function PrimaryExpression(ts: Lexed, st: nat): (r: Result<Parsed<Expression>, ParseError>)
    requires ValidStream(ts) && ValidState(ts, st)
    ensures Progress(ts, st, r)
    ensures r.Success? ==> IsArithmetic(r.value.node) && WellTyped(r.value.node)
    ensures r.Success? ==> StartsArithmetic(Current(ts, st).kind)
    decreases |ts| - st, 14
  {
    var kind := Current(ts, st).kind;
    if kind == NumberLiteral then
      var literal :- Consume(ts, st, NumberLiteral);
      Success(Parsed(NodeNumberLiteral(TokenValue(literal.node)), literal.next))
    else if kind == StringLiteral then
      var literal :- Consume(ts, st, StringLiteral);
      Success(Parsed(NodeStringLiteral(TokenValue(literal.node)), literal.next))
    else if kind == Identifier then
      var name :- Consume(ts, st, Identifier);
      if Current(ts, name.next).kind == LeftParenthesis then FunctionCall(ts, st)
      else Success(Parsed(NodeIdentifier(TokenValue(Current(ts, st))), name.next))
    else if kind == LeftParenthesis then
      var open :- Consume(ts, st, LeftParenthesis);
      var inner :- ArithmeticExpression(ts, open.next);
      var close :- Consume(ts, inner.next, RightParenthesis);
      Success(Parsed(inner.node, close.next))
    else Unexpected("arithmetic expression", Current(ts, st))
  }

  /** `_function_call`: name '(' optional arguments ')'. */
  function FunctionCall(ts: Lexed, st: nat): (r: Result<Parsed<Expression>, ParseError>)
    requires ValidStream(ts) && ValidState(ts, st)
    ensures Progress(ts, st, r)
    ensures r.Success? ==> Current(ts, st).kind == Identifier && r.value.node.NodeFunctionCall? && WellTyped(r.value.node)
    ensures r.Success? ==> r.value.node.identifier == TokenValue(Current(ts, st))
    decreases |ts| - st, 13
  {
    var name :- IdentifierRule(ts, st);
    var arguments :- ParenthesisedArguments(ts, name.next);
    Success(Parsed(NodeFunctionCall(name.node, arguments.node), arguments.next))
  }
}
