/**
 * The parser as the object it is: a scanner it pulls tokens from one at a
 * time and the current token, which `_consume` replaces. The ghost `ts` is
 * what the scanner's successive `next_token()` calls return from where the
 * parser started, and the ghost `st` says how many of them are behind the
 * current token; `Valid()` ties the scanner's cursor to the rest of `ts`.
 * Each method is proved to do what the rule of the same name in `Parsing`
 * says, from the state it was called in.
 */
module SyntacticAnalysis {
  import opened Wrappers
  import opened Tokens
  import Scanning
  import opened Ast
  import Parsing
  import opened LexicalAnalysis

  /** A method's result agrees with a rule's result when the parser is left in state `st`. */
  predicate Follows<T(==)>(r: Result<T, Parsing.ParseError>, spec: Result<Parsing.Parsed<T>, Parsing.ParseError>, st: nat)
  {
    match spec
    case Success(p) => r == Success(p.node) && st == p.next
    case Failure(e) => r == Failure(e)
  }

  /**
   * The scanner's cursor `p` in `src` is where the results behind the current
   * one, `ts[st]`, were read from: the rest of `ts` is what it returns from
   * there on, and once `ts` is used up it sits at the end, on EOF.
   */
  ghost predicate Cursor(ts: Parsing.Lexed, st: nat, src: string, p: nat)
  {
    && Parsing.ValidStream(ts) && Parsing.ValidState(ts, st) && p <= |src|
    && (st + 1 < |ts| ==> Parsing.LexedFrom(src, p) == ts[st + 1..])
    && (st + 1 == |ts| ==> p == |src| && Parsing.Current(ts, st) == Scanning.EofToken(src))
  }

  /** What one more `next_token()` call adds in front of the stream read from where it leaves the cursor. */
  lemma LexedFromStep(src: string, p: nat)
    requires p <= |src|
    ensures Scanning.NextToken(src, p).Failure? ==> Parsing.LexedFrom(src, p) == [Failure(Scanning.NextToken(src, p).error)]
    ensures Scanning.NextToken(src, p).Success? ==>
      var s := Scanning.NextToken(src, p).value;
      && (s.token.kind == Eof ==> Parsing.LexedFrom(src, p) == [Success(s.token)])
      && (s.token.kind != Eof ==> Parsing.LexedFrom(src, p) == [Success(s.token)] + Parsing.LexedFrom(src, s.next))
  {
  }

  /** The first `next_token()` call gives the stream's first result, and leaves the cursor behind it. */
  lemma LexedFromStart(src: string, p: nat)
    requires p <= |src|
    ensures Scanning.NextToken(src, p).Failure? ==> Parsing.LexedFrom(src, p)[0] == Failure(Scanning.NextToken(src, p).error)
    ensures Scanning.NextToken(src, p).Success? ==>
      Parsing.LexedFrom(src, p)[0] == Success(Scanning.NextToken(src, p).value.token)
      && Cursor(Parsing.LexedFrom(src, p), 0, src, Scanning.NextToken(src, p).value.next)
  {
    LexedFromStep(src, p);
  }

  /** A `next_token()` call that fails is the failure the stream holds next. */
  lemma AdvanceFails(ts: Parsing.Lexed, st: nat, src: string, p: nat)
    requires Cursor(ts, st, src, p) && Scanning.NextToken(src, p).Failure?
    ensures Parsing.NextState(ts, st) == Failure(Parsing.LexicalFailure(Scanning.NextToken(src, p).error))
  {
    LexedFromStep(src, p);
    NextTokenAtEnd(src);
  }

  /** A `next_token()` call that succeeds reads the stream's next token and moves the cursor along with the state. */
  lemma AdvanceSucceeds(ts: Parsing.Lexed, st: nat, src: string, p: nat)
    requires Cursor(ts, st, src, p) && Scanning.NextToken(src, p).Success?
    ensures Parsing.NextState(ts, st).Success?
    ensures Parsing.Current(ts, Parsing.NextState(ts, st).value) == Scanning.NextToken(src, p).value.token
    ensures Cursor(ts, Parsing.NextState(ts, st).value, src, Scanning.NextToken(src, p).value.next)
  {
    var s := Scanning.NextToken(src, p).value;
    if st + 1 == |ts| {
      NextTokenAtEnd(src);
    } else {
      LexedFromStep(src, p);
      assert ts[st + 1] == Success(s.token) by {
        assert ts[st + 1..][0] == ts[st + 1];
      }
      if s.token.kind != Eof {
        assert ts[st + 2..] == ts[st + 1..][1..];
      }
    }
  }

  /** Appending a well-typed boolean expression keeps a list of them well-typed. */
  lemma ExpressionAppended(es: seq<Expression>, e: Expression)
    requires forall i | 0 <= i < |es| :: IsBoolean(es[i]) && WellTyped(es[i])
    requires IsBoolean(e) && WellTyped(e)
    ensures forall i | 0 <= i < |es + [e]| :: IsBoolean((es + [e])[i]) && WellTyped((es + [e])[i])
  {
  }

  /** At the end of the text the scanner keeps returning the same EOF token and stays where it is. */
  lemma NextTokenAtEnd(src: string)
    ensures Scanning.NextToken(src, |src|) == Success(Scanning.Scanned(Scanning.EofToken(src), |src|))
  {
    NothingToSkipAtEnd(src);
  }

  /** No whitespace is left to skip at the end of the text. */
  lemma NothingToSkipAtEnd(src: string)
    ensures Scanning.SkipWhitespace(src, |src|) == |src|
  {
    assert Scanning.CharAt(src, |src|) == None;
  }

  class SyntacticAnalyzer {
    const lexer: LexicalAnalyzer
    var currentToken: Token
    ghost const ts: Parsing.Lexed
    ghost var st: nat

    ghost predicate Valid()
      reads this, lexer
    {
      && lexer.Valid()
      && Cursor(ts, st, lexer.sourceCode, lexer.position)
      && currentToken == Parsing.Current(ts, st)
    }

    constructor Init(lexer: LexicalAnalyzer, first: Token, ghost ts: Parsing.Lexed)
      requires lexer.Valid() && Cursor(ts, 0, lexer.sourceCode, lexer.position) && ts[0] == Success(first)
      ensures Valid() && this.lexer == lexer && this.ts == ts && st == 0
    {
      this.lexer := lexer;
      currentToken := first;
      this.ts := ts;
      st := 0;
    }

    /**
     * `SyntacticAnalyzer(lexer)`: the first token is read at once, so a
     * lexical error there is raised by the constructor.
     */
    static method Create(lexer: LexicalAnalyzer) returns (r: Result<SyntacticAnalyzer, Parsing.ParseError>)
      requires lexer.Valid()
      modifies lexer
      ensures var ts := Parsing.LexedFrom(lexer.sourceCode, old(lexer.position));
        match Parsing.Start(ts)
        case Success(_) => r.Success? && fresh(r.value) && r.value.Valid() && r.value.lexer == lexer
          && r.value.ts == ts && r.value.st == 0
        case Failure(e) => r == Failure(e)
    {
      ghost var ts := Parsing.LexedFrom(lexer.sourceCode, lexer.position);
      ghost var p := lexer.position;
      var first := lexer.NextToken();
      LexedFromStart(lexer.sourceCode, p);
      if first.Failure? {
        return Failure(Parsing.LexicalFailure(first.error));
      }
      var parser := new SyntacticAnalyzer.Init(lexer, first.value, ts);
      return Success(parser);
    }

    /** `_consume`: the current token is returned and the next one read in its place, if its kind is the expected one. */
    method Consume(expected: TokenType) returns (r: Result<Token, Parsing.ParseError>)
      requires Valid()
      modifies this, lexer
      ensures Follows(r, Parsing.Consume(ts, old(st), expected), st)
      ensures r.Success? ==> Valid()
    {
      if currentToken.kind != expected {
        return Parsing.Unexpected(Value(expected), currentToken);
      }
      var token := currentToken;
      ghost var p := lexer.position;
      var next := lexer.NextToken();
      if next.Failure? {
        AdvanceFails(ts, st, lexer.sourceCode, p);
        return Failure(Parsing.LexicalFailure(next.error));
      }
      AdvanceSucceeds(ts, st, lexer.sourceCode, p);
      currentToken := next.value;
      st := Parsing.NextState(ts, st).value;
      return Success(token);
    }

    /**
     * `_peek_next_token`: the token after the current one. The scanner's
     * cursor is saved before and put back after, so neither it nor the
     * current token changes; a lexical error is raised before the restore.
     */
    method PeekNextToken() returns (r: Result<Token, Parsing.ParseError>)
      requires Valid()
      modifies lexer
      ensures r == Parsing.PeekNextToken(ts, st)
      ensures r.Success? ==> Valid()
      ensures r.Success? ==>
        lexer.position == old(lexer.position) && lexer.currentCharacter == old(lexer.currentCharacter)
        && lexer.line == old(lexer.line) && lexer.column == old(lexer.column)
    {
      var position, character, line, column := lexer.position, lexer.currentCharacter, lexer.line, lexer.column;
      var next := lexer.NextToken();
      if next.Failure? {
        AdvanceFails(ts, st, lexer.sourceCode, position);
        return Failure(Parsing.LexicalFailure(next.error));
      }
      AdvanceSucceeds(ts, st, lexer.sourceCode, position);
      lexer.position, lexer.currentCharacter, lexer.line, lexer.column := position, character, line, column;
      return Success(next.value);
    }

    /** `_identifier`: an IDENTIFIER token, kept as its name. */
    method IdentifierRule() returns (r: Result<string, Parsing.ParseError>)
      requires Valid()
      modifies this, lexer
      ensures Follows(r, Parsing.IdentifierRule(ts, old(st)), st)
      ensures r.Success? ==> Valid()
    {
      var t :- Consume(Identifier);
      return Success(Parsing.TokenValue(t));
    }

    /** `_type`: one of the three type keywords. */
    method TypeRule() returns (r: Result<NodeType, Parsing.ParseError>)
      requires Valid()
      modifies this, lexer
      ensures Follows(r, Parsing.TypeRule(ts, old(st)), st)
      ensures r.Success? ==> Valid()
    {
      var token := currentToken;
      if !IsTypeKeyword(token.kind) {
        return Parsing.Unexpected("type", token);
      }
      var _ :- Consume(token.kind);
      return Success(NodeTypeOf(token));
    }

    /** `_identifier_list`: one identifier, then one more after each ','. */
    method IdentifierList() returns (r: Result<seq<string>, Parsing.ParseError>)
      requires Valid()
      modifies this, lexer
      ensures Follows(r, Parsing.IdentifierList(ts, old(st)), st)
      ensures r.Success? ==> Valid()
    {
      var first :- IdentifierRule();
      var identifiers := [first];
      while currentToken.kind == Comma
        invariant Valid() && old(st) <= st
        invariant Parsing.IdentifierList(ts, old(st)) == Parsing.IdentifierRest(ts, st, identifiers)
        decreases |ts| - st
      {
        var _ :- Consume(Comma);
        var next :- IdentifierRule();
        identifiers := identifiers + [next];
      }
      return Success(identifiers);
    }

    /** `parse`: a program, and then nothing but EOF. */
    method Parse() returns (r: Result<Program, Parsing.ParseError>)
      requires Valid()
      modifies this, lexer
      ensures Follows(r, Parsing.Parse(ts, old(st)), st)
      ensures r.Success? ==> Valid()
    {
      var program :- ProgramRule();
      if currentToken.kind != Eof {
        return Parsing.Unexpected("EOF", currentToken);
      }
      return Success(program);
    }

    method ProgramRule() returns (r: Result<Program, Parsing.ParseError>)
      requires Valid()
      modifies this, lexer
      ensures Follows(r, Parsing.ProgramRule(ts, old(st)), st)
      ensures r.Success? ==> Valid()
    {
      var block :- BlockRule();
      return Success(NodeProgram(block));
    }

    /** `_block`: '{', an optional NEWLINE, statements each followed by NEWLINE or '}', then '}'. */
    method BlockRule() returns (r: Result<Block, Parsing.ParseError>)
      requires Valid()
      modifies this, lexer
      ensures Follows(r, Parsing.BlockRule(ts, old(st)), st)
      ensures r.Success? ==> Valid()
      decreases |ts| - st, 35
    {
      var _ :- Consume(LeftBrace);
      if currentToken.kind == Newline {
        var _ :- Consume(Newline);
      }
      var statements :- BlockStatements();
      var _ :- Consume(RightBrace);
      return Success(NodeBlock(if statements == [] then NoStatements else Statements(statements)));
    }

    /** The loop of `_block`: blank NEWLINEs are skipped and statements collected until the current token is '}'. */
    method BlockStatements() returns (r: Result<seq<Statement>, Parsing.ParseError>)
      requires Valid()
      modifies this, lexer
      ensures Follows(r, Parsing.BlockStatements(ts, old(st), []), st)
      ensures r.Success? ==> Valid()
      decreases |ts| - st, 34
    {
      var statements: seq<Statement> := [];
      while currentToken.kind != RightBrace
        invariant Valid() && old(st) <= st
        invariant Parsing.BlockStatements(ts, old(st), []) == Parsing.BlockStatements(ts, st, statements)
        decreases |ts| - st
      {
        if currentToken.kind == Newline {
          var _ :- Consume(Newline);
          continue;
        }
        var statement :- StatementRule();
        statements := statements + [statement];
        if currentToken.kind == Newline {
          var _ :- Consume(Newline);
        } else if currentToken.kind != RightBrace {
          return Parsing.Unexpected("NEWLINE or RIGHT_BRACE", currentToken);
        }
      }
      return Success(statements);
    }

    /** `_statement`: the rule is chosen by the current token alone; an identifier always starts an assignment. */
    method StatementRule() returns (r: Result<Statement, Parsing.ParseError>)
      requires Valid()
      modifies this, lexer
      ensures Follows(r, Parsing.StatementRule(ts, old(st)), st)
      ensures r.Success? ==> Valid()
      decreases |ts| - st, 33
    {
      var kind := currentToken.kind;
      if kind == Let {
        r := VariableDeclaration();
      } else if kind == Keep {
        r := ConstantDeclaration();
      } else if kind == Func {
        r := FunctionDeclaration();
      } else if kind == Proc {
        r := ProcedureDeclaration();
      } else if kind == Exec {
        r := ProcedureCall();
      } else if kind == Identifier {
        r := AssignmentStatement();
      } else {
        r := ControlStatement();
      }
    }

    /** The cases of `_statement` from `give` on. */
    method ControlStatement() returns (r: Result<Statement, Parsing.ParseError>)
      requires Valid()
      requires var k := currentToken.kind; k != Let && k != Keep && k != Func && k != Proc && k != Exec && k != Identifier
      modifies this, lexer
      ensures Follows(r, Parsing.StatementRule(ts, old(st)), st)
      ensures r.Success? ==> Valid()
      decreases |ts| - st, 33, 0
    {
      var kind := currentToken.kind;
      if kind == Give {
        r := GiveStatement();
      } else if kind == Show {
        r := ShowStatement();
      } else if kind == If {
        r := IfStatement();
      } else if kind == While {
        r := WhileStatement();
      } else if kind == Skip {
        var _ :- Consume(Skip);
        r := Success(NodeSkipStatement);
      } else if kind == Stop {
        var _ :- Consume(Stop);
        r := Success(NodeStopStatement);
      } else {
        r := Parsing.Unexpected("statement", currentToken);
      }
    }

    /** `_variable_declaration`: `let` type identifiers, and optionally '=' and one expression per identifier. */
    method VariableDeclaration() returns (r: Result<Statement, Parsing.ParseError>)
      requires Valid()
      modifies this, lexer
      ensures Follows(r, Parsing.VariableDeclaration(ts, old(st)), st)
      ensures r.Success? ==> Valid()
      decreases |ts| - st, 32
    {
      var _ :- Consume(Let);
      var varType :- TypeRule();
      var identifiers :- IdentifierList();
      if currentToken.kind == Assign {
        var expressions :- Initializers(|identifiers|);
        return Success(NodeVariableDeclaration(varType, identifiers, Expressions(expressions)));
      }
      return Success(NodeVariableDeclaration(varType, identifiers, NoExpressions));
    }

    /** `_constant_declaration`: `keep` type identifiers '=' and one expression per identifier. */
    method ConstantDeclaration() returns (r: Result<Statement, Parsing.ParseError>)
      requires Valid()
      modifies this, lexer
      ensures Follows(r, Parsing.ConstantDeclaration(ts, old(st)), st)
      ensures r.Success? ==> Valid()
      decreases |ts| - st, 32
    {
      var _ :- Consume(Keep);
      var constType :- TypeRule();
      var identifiers :- IdentifierList();
      var expressions :- Initializers(|identifiers|);
      return Success(NodeConstantDeclaration(constType, identifiers, expressions));
    }

    /** '=' and an expression list holding exactly one expression per declared identifier. */
    method Initializers(identifiers: nat) returns (r: Result<seq<Expression>, Parsing.ParseError>)
      requires Valid()
      modifies this, lexer
      ensures Follows(r, Parsing.Initializers(ts, old(st), identifiers), st)
      ensures r.Success? ==> Valid()
      decreases |ts| - st, 31
    {
      var _ :- Consume(Assign);
      var expressions :- ExpressionList();
      if identifiers != |expressions| {
        return Parsing.WrongNumber(identifiers, |expressions|, currentToken);
      }
      return Success(expressions);
    }

    /** `_expression_list` and `_argument_list`: one expression, then one more after each ','. */
    method ExpressionList() returns (r: Result<seq<Expression>, Parsing.ParseError>)
      requires Valid()
      modifies this, lexer
      ensures Follows(r, Parsing.ExpressionList(ts, old(st)), st)
      ensures r.Success? ==> Valid()
      decreases |ts| - st, 31
    {
      var first :- BooleanExpression();
      var expressions := [first];
      while currentToken.kind == Comma
        invariant Valid() && old(st) < st
        invariant forall i | 0 <= i < |expressions| :: IsBoolean(expressions[i]) && WellTyped(expressions[i])
        invariant Parsing.ExpressionList(ts, old(st)) == Parsing.ExpressionRest(ts, st, expressions)
        decreases |ts| - st
      {
        var _ :- Consume(Comma);
        var next :- BooleanExpression();
        ExpressionAppended(expressions, next);
        expressions := expressions + [next];
      }
      return Success(expressions);
    }

    /** An optional parenthesised argument list: absent exactly when ')' follows '(' directly. */
    method ParenthesisedArguments() returns (r: Result<ExpressionList, Parsing.ParseError>)
      requires Valid()
      modifies this, lexer
      ensures Follows(r, Parsing.ParenthesisedArguments(ts, old(st)), st)
      ensures r.Success? ==> Valid()
      decreases |ts| - st, 12
    {
      var _ :- Consume(LeftParenthesis);
      if currentToken.kind != RightParenthesis {
        var arguments :- ExpressionList();
        var _ :- Consume(RightParenthesis);
        return Success(Expressions(arguments));
      }
      var _ :- Consume(RightParenthesis);
      return Success(NoExpressions);
    }

    /** `_function_declaration`: `func` name '(' optional parameters ')' '->' type block. */
    method FunctionDeclaration() returns (r: Result<Statement, Parsing.ParseError>)
      requires Valid()
      modifies this, lexer
      ensures Follows(r, Parsing.FunctionDeclaration(ts, old(st)), st)
      ensures r.Success? ==> Valid()
      decreases |ts| - st, 32
    {
      var header :- Header(Func);
      var _ :- Consume(Arrow);
      var giveType :- TypeRule();
      var block :- BlockRule();
      return Success(NodeFunctionDeclaration(header.0, header.1, giveType, block));
    }

    /** `_procedure_declaration`: `proc` name '(' optional parameters ')' block. */
    method ProcedureDeclaration() returns (r: Result<Statement, Parsing.ParseError>)
      requires Valid()
      modifies this, lexer
      ensures Follows(r, Parsing.ProcedureDeclaration(ts, old(st)), st)
      ensures r.Success? ==> Valid()
      decreases |ts| - st, 32
    {
      var header :- Header(Proc);
      var block :- BlockRule();
      return Success(NodeProcedureDeclaration(header.0, header.1, block));
    }

    /** The keyword, the name and the parenthesised parameters both declarations start with. */
    method Header(keyword: TokenType) returns (r: Result<(string, Option<seq<Parameter>>), Parsing.ParseError>)
      requires Valid() && keyword != Eof
      modifies this, lexer
      ensures Follows(r, Parsing.Header(ts, old(st), keyword), st)
      ensures r.Success? ==> Valid()
    {
      var _ :- Consume(keyword);
      var name :- IdentifierRule();
      var parameters :- ParenthesisedParameters();
      return Success((name, parameters));
    }

    /** '(' then, unless ')' follows at once, `_parameter_list`, then ')'. */
    method ParenthesisedParameters() returns (r: Result<Option<seq<Parameter>>, Parsing.ParseError>)
      requires Valid()
      modifies this, lexer
      ensures Follows(r, Parsing.ParenthesisedParameters(ts, old(st)), st)
      ensures r.Success? ==> Valid()
    {
      var _ :- Consume(LeftParenthesis);
      if currentToken.kind != RightParenthesis {
        var parameters :- ParameterList();
        var _ :- Consume(RightParenthesis);
        return Success(Some(parameters));
      }
      var _ :- Consume(RightParenthesis);
      return Success(None);
    }

    /** `_parameter_list`: one parameter, then one more after each ','. */
    method ParameterList() returns (r: Result<seq<Parameter>, Parsing.ParseError>)
      requires Valid()
      modifies this, lexer
      ensures Follows(r, Parsing.ParameterList(ts, old(st)), st)
      ensures r.Success? ==> Valid()
    {
      var first :- ParameterRule();
      var parameters := [first];
      while currentToken.kind == Comma
        invariant Valid() && old(st) <= st
        invariant Parsing.ParameterList(ts, old(st)) == Parsing.ParameterRest(ts, st, parameters)
        decreases |ts| - st
      {
        var _ :- Consume(Comma);
        var next :- ParameterRule();
        parameters := parameters + [next];
      }
      return Success(parameters);
    }

    /** `_parameter`: a type, then the parameter's name. */
    method ParameterRule() returns (r: Result<Parameter, Parsing.ParseError>)
      requires Valid()
      modifies this, lexer
      ensures Follows(r, Parsing.ParameterRule(ts, old(st)), st)
      ensures r.Success? ==> Valid()
    {
      var paramType :- TypeRule();
      var name :- IdentifierRule();
      return Success(NodeParameter(name, paramType));
    }

    /** `_procedure_call`: `exec` name '(' optional arguments ')'. */
    method ProcedureCall() returns (r: Result<Statement, Parsing.ParseError>)
      requires Valid()
      modifies this, lexer
      ensures Follows(r, Parsing.ProcedureCall(ts, old(st)), st)
      ensures r.Success? ==> Valid()
      decreases |ts| - st, 32
    {
      var _ :- Consume(Exec);
      var name :- IdentifierRule();
      var arguments :- ParenthesisedArguments();
      return Success(NodeProcedureCall(name, arguments));
    }

    /** `_assignment_statement`: name '=' expression. */
    method AssignmentStatement() returns (r: Result<Statement, Parsing.ParseError>)
      requires Valid()
      modifies this, lexer
      ensures Follows(r, Parsing.AssignmentStatement(ts, old(st)), st)
      ensures r.Success? ==> Valid()
      decreases |ts| - st, 32
    {
      var name :- IdentifierRule();
      var _ :- Consume(Assign);
      var expression :- BooleanExpression();
      return Success(NodeAssignmentStatement(name, expression));
    }

    /** `_give_statement`: `give`, with no expression when NEWLINE or '}' comes next. */
    method GiveStatement() returns (r: Result<Statement, Parsing.ParseError>)
      requires Valid()
      modifies this, lexer
      ensures Follows(r, Parsing.GiveStatement(ts, old(st)), st)
      ensures r.Success? ==> Valid()
      decreases |ts| - st, 32
    {
      var _ :- Consume(Give);
      if currentToken.kind == Newline || currentToken.kind == RightBrace {
        return Success(NodeGiveStatement(None));
      }
      var expression :- BooleanExpression();
      return Success(NodeGiveStatement(Some(expression)));
    }

    /** `_show_statement`: `show` and a required expression. */
    method ShowStatement() returns (r: Result<Statement, Parsing.ParseError>)
      requires Valid()
      modifies this, lexer
      ensures Follows(r, Parsing.ShowStatement(ts, old(st)), st)
      ensures r.Success? ==> Valid()
      decreases |ts| - st, 32
    {
      var _ :- Consume(Show);
      var expression :- BooleanExpression();
      return Success(NodeShowStatement(expression));
    }

    /** `_if_statement`: `if` condition block, any `elif` branches, an optional `else` branch. */
    method IfStatement() returns (r: Result<Statement, Parsing.ParseError>)
      requires Valid()
      modifies this, lexer
      ensures Follows(r, Parsing.IfStatement(ts, old(st)), st)
      ensures r.Success? ==> Valid()
      decreases |ts| - st, 32
    {
      var _ :- Consume(If);
      var condition :- BooleanExpression();
      var block :- BlockRule();
      var elifs :- OptionalElifs();
      var else_ :- OptionalElse();
      return Success(NodeIfStatement(condition, block, elifs, else_));
    }

    /** `_elifs` when the current token is `elif`: one branch per leading `elif`. */
    method OptionalElifs() returns (r: Result<ElifList, Parsing.ParseError>)
      requires Valid()
      modifies this, lexer
      ensures Follows(r, Parsing.OptionalElifs(ts, old(st)), st)
      ensures r.Success? ==> Valid()
      decreases |ts| - st, 32
    {
      if currentToken.kind != Elif {
        return Success(NoElifs);
      }
      var branches: seq<Elif> := [];
      while currentToken.kind == Elif
        invariant Valid() && old(st) <= st
        invariant Parsing.ElifRest(ts, old(st), []) == Parsing.ElifRest(ts, st, branches)
        decreases |ts| - st
      {
        var branch :- ElifRule();
        branches := branches + [branch];
      }
      return Success(Elifs(branches));
    }

    /** `_elif`: `elif` condition block. */
    method ElifRule() returns (r: Result<Elif, Parsing.ParseError>)
      requires Valid()
      modifies this, lexer
      ensures Follows(r, Parsing.ElifRule(ts, old(st)), st)
      ensures r.Success? ==> Valid()
      decreases |ts| - st, 30
    {
      var _ :- Consume(Elif);
      var condition :- BooleanExpression();
      var block :- BlockRule();
      return Success(NodeElif(condition, block));
    }

    /** `_else` when the current token is `else`. */
    method OptionalElse() returns (r: Result<ElsePart, Parsing.ParseError>)
      requires Valid()
      modifies this, lexer
      ensures Follows(r, Parsing.OptionalElse(ts, old(st)), st)
      ensures r.Success? ==> Valid()
      decreases |ts| - st, 32
    {
      if currentToken.kind != Else {
        return Success(NoElse);
      }
      var _ :- Consume(Else);
      var block :- BlockRule();
      return Success(SomeElse(NodeElse(block)));
    }

    /** `_while_statement`: `while` condition block. */
    method WhileStatement() returns (r: Result<Statement, Parsing.ParseError>)
      requires Valid()
      modifies this, lexer
      ensures Follows(r, Parsing.WhileStatement(ts, old(st)), st)
      ensures r.Success? ==> Valid()
      decreases |ts| - st, 32
    {
      var _ :- Consume(While);
      var condition :- BooleanExpression();
      var block :- BlockRule();
      return Success(NodeWhileStatement(condition, block));
    }

    /** `_expression` and `_boolean_expression`: the logical-or level. */
    method BooleanExpression() returns (r: Result<Expression, Parsing.ParseError>)
      requires Valid()
      modifies this, lexer
      ensures Follows(r, Parsing.BooleanExpression(ts, old(st)), st)
      ensures r.Success? ==> Valid()
      decreases |ts| - st, 30
    {
      r := LogicalOrExpression();
    }

    /** `_logical_or_expression`: and-level operands joined by `or`, grouped to the left. */
    method LogicalOrExpression() returns (r: Result<Expression, Parsing.ParseError>)
      requires Valid()
      modifies this, lexer
      ensures Follows(r, Parsing.LogicalOrExpression(ts, old(st)), st)
      ensures r.Success? ==> Valid()
      decreases |ts| - st, 28
    {
      var left :- LogicalAndExpression();
      while currentToken.kind == Or
        invariant Valid() && old(st) <= st
        invariant IsBoolean(left) && WellTyped(left)
        invariant Parsing.LogicalOrExpression(ts, old(st)) == Parsing.OrRest(ts, st, left)
        decreases |ts| - st
      {
        var operator := currentToken;
        var _ :- Consume(Or);
        var right :- LogicalAndExpression();
        left := NodeBinaryBooleanOperation(left, Parsing.TokenValue(operator), right);
      }
      return Success(left);
    }

    /** `_logical_and_expression`: not-level operands joined by `and`, grouped to the left. */
    method LogicalAndExpression() returns (r: Result<Expression, Parsing.ParseError>)
      requires Valid()
      modifies this, lexer
      ensures Follows(r, Parsing.LogicalAndExpression(ts, old(st)), st)
      ensures r.Success? ==> Valid()
      decreases |ts| - st, 26
    {
      var left :- LogicalNotExpression();
      while currentToken.kind == And
        invariant Valid() && old(st) <= st
        invariant IsBoolean(left) && WellTyped(left)
        invariant Parsing.LogicalAndExpression(ts, old(st)) == Parsing.AndRest(ts, st, left)
        decreases |ts| - st
      {
        var operator := currentToken;
        var _ :- Consume(And);
        var right :- LogicalNotExpression();
        left := NodeBinaryBooleanOperation(left, Parsing.TokenValue(operator), right);
      }
      return Success(left);
    }

    /** `_logical_not_expression`: `not` applies to a primary boolean expression only. */
    method LogicalNotExpression() returns (r: Result<Expression, Parsing.ParseError>)
      requires Valid()
      modifies this, lexer
      ensures Follows(r, Parsing.LogicalNotExpression(ts, old(st)), st)
      ensures r.Success? ==> Valid()
      decreases |ts| - st, 24
    {
      if currentToken.kind == Not {
        var operator := currentToken;
        var _ :- Consume(Not);
        var operand :- PrimaryBooleanExpression();
        return Success(NodeUnaryBooleanOperation(Parsing.TokenValue(operator), operand));
      }
      r := PrimaryBooleanExpression();
    }

    /** `_primary_boolean_expression`: a boolean literal, a parenthesised boolean expression, or a comparison. */
    method PrimaryBooleanExpression() returns (r: Result<Expression, Parsing.ParseError>)
      requires Valid()
      modifies this, lexer
      ensures Follows(r, Parsing.PrimaryBooleanExpression(ts, old(st)), st)
      ensures r.Success? ==> Valid()
      decreases |ts| - st, 23
    {
      if currentToken.kind == BooleanLiteral {
        var literal :- Consume(BooleanLiteral);
        return Success(NodeBooleanLiteral(Parsing.TokenValue(literal)));
      }
      if currentToken.kind == LeftParenthesis {
        var _ :- Consume(LeftParenthesis);
        var inner :- BooleanExpression();
        var _ :- Consume(RightParenthesis);
        return Success(inner);
      }
      r := ComparisonExpression();
    }

    /** `_comparison_expression`: two arithmetic expressions around one comparator, or one wrapped as a boolean. */
    method ComparisonExpression() returns (r: Result<Expression, Parsing.ParseError>)
      requires Valid()
      modifies this, lexer
      ensures Follows(r, Parsing.ComparisonExpression(ts, old(st)), st)
      ensures r.Success? ==> Valid()
      decreases |ts| - st, 22
    {
      var left :- ArithmeticExpression();
      if Parsing.IsComparator(currentToken.kind) {
        var operator :- Consume(currentToken.kind);
        var right :- ArithmeticExpression();
        return Success(NodeComparisonExpression(left, Parsing.TokenValue(operator), right));
      }
      return Success(NodeArithmeticExpressionAsBoolean(left));
    }

    /** `_arithmetic_expression`: the additive level. */
    method ArithmeticExpression() returns (r: Result<Expression, Parsing.ParseError>)
      requires Valid()
      modifies this, lexer
      ensures Follows(r, Parsing.ArithmeticExpression(ts, old(st)), st)
      ensures r.Success? ==> Valid()
      decreases |ts| - st, 21
    {
      r := AdditiveExpression();
    }

    /** `_additive_expression`: multiplicative operands joined by '+' and '-', grouped to the left. */
    method AdditiveExpression() returns (r: Result<Expression, Parsing.ParseError>)
      requires Valid()
      modifies this, lexer
      ensures Follows(r, Parsing.AdditiveExpression(ts, old(st)), st)
      ensures r.Success? ==> Valid()
      decreases |ts| - st, 20
    {
      var left :- MultiplicativeExpression();
      while Parsing.IsAdditive(currentToken.kind)
        invariant Valid() && old(st) <= st
        invariant IsArithmetic(left) && WellTyped(left)
        invariant Parsing.AdditiveExpression(ts, old(st)) == Parsing.AdditiveRest(ts, st, left)
        decreases |ts| - st
      {
        var operator :- Consume(currentToken.kind);
        var right :- MultiplicativeExpression();
        left := NodeBinaryArithmeticOperation(left, Parsing.TokenValue(operator), right);
      }
      return Success(left);
    }

    /** `_multiplicative_expression`: power-level operands joined by '*', '/', '//' and '%', grouped to the left. */
    method MultiplicativeExpression() returns (r: Result<Expression, Parsing.ParseError>)
      requires Valid()
      modifies this, lexer
      ensures Follows(r, Parsing.MultiplicativeExpression(ts, old(st)), st)
      ensures r.Success? ==> Valid()
      decreases |ts| - st, 18
    {
      var left :- PowerExpression();
      while Parsing.IsMultiplicative(currentToken.kind)
        invariant Valid() && old(st) <= st
        invariant IsArithmetic(left) && WellTyped(left)
        invariant Parsing.MultiplicativeExpression(ts, old(st)) == Parsing.MultiplicativeRest(ts, st, left)
        decreases |ts| - st
      {
        var operator :- Consume(currentToken.kind);
        var right :- PowerExpression();
        left := NodeBinaryArithmeticOperation(left, Parsing.TokenValue(operator), right);
      }
      return Success(left);
    }

    /** `_power_expression`: a unary operand, and if '**' follows, a power expression as the right operand. */
    method PowerExpression() returns (r: Result<Expression, Parsing.ParseError>)
      requires Valid()
      modifies this, lexer
      ensures Follows(r, Parsing.PowerExpression(ts, old(st)), st)
      ensures r.Success? ==> Valid()
      decreases |ts| - st, 16
    {
      var left :- UnaryExpression();
      if currentToken.kind == Power {
        var operator :- Consume(Power);
        var right :- PowerExpression();
        return Success(NodeBinaryArithmeticOperation(left, Parsing.TokenValue(operator), right));
      }
      return Success(left);
    }

    /** `_unary_expression`: any number of leading '+' and '-' signs over a primary expression. */
    method UnaryExpression() returns (r: Result<Expression, Parsing.ParseError>)
      requires Valid()
      modifies this, lexer
      ensures Follows(r, Parsing.UnaryExpression(ts, old(st)), st)
      ensures r.Success? ==> Valid()
      decreases |ts| - st, 15
    {
      if Parsing.IsAdditive(currentToken.kind) {
        var operator :- Consume(currentToken.kind);
        var operand :- UnaryExpression();
        return Success(NodeUnaryArithmeticOperation(Parsing.TokenValue(operator), operand));
      }
      r := PrimaryExpression();
    }

    /** `_primary_expression`: a number or string literal, an identifier or a call, or a parenthesised arithmetic expression. */
    method PrimaryExpression() returns (r: Result<Expression, Parsing.ParseError>)
      requires Valid()
      modifies this, lexer
      ensures Follows(r, Parsing.PrimaryExpression(ts, old(st)), st)
      ensures r.Success? ==> Valid()
      decreases |ts| - st, 14
    {
      var token := currentToken;
      if token.kind == NumberLiteral {
        var _ :- Consume(NumberLiteral);
        return Success(NodeNumberLiteral(Parsing.TokenValue(token)));
      }
      if token.kind == StringLiteral {
        var _ :- Consume(StringLiteral);
        return Success(NodeStringLiteral(Parsing.TokenValue(token)));
      }
      if token.kind == Identifier {
        r := IdentifierOrCall();
        return;
      }
      if token.kind == LeftParenthesis {
        var _ :- Consume(LeftParenthesis);
        var inner :- ArithmeticExpression();
        var _ :- Consume(RightParenthesis);
        return Success(inner);
      }
      return Parsing.Unexpected("arithmetic expression", token);
    }

    /**
     * The identifier case of `_primary_expression`. The scanner's cursor is
     * saved and the identifier consumed; if '(' follows, the cursor and the
     * current token are put back and the call is parsed from the identifier.
     * On an error they are put back as well, before it is raised.
     */
    method IdentifierOrCall() returns (r: Result<Expression, Parsing.ParseError>)
      requires Valid() && currentToken.kind == Identifier
      modifies this, lexer
      ensures Follows(r, Parsing.PrimaryExpression(ts, old(st)), st)
      ensures r.Success? ==> Valid()
      ensures r.Failure? ==>
        lexer.position == old(lexer.position) && lexer.currentCharacter == old(lexer.currentCharacter)
        && lexer.line == old(lexer.line) && lexer.column == old(lexer.column)
        && currentToken == old(currentToken)
      decreases |ts| - st, 14, 0
    {
      var token := currentToken;
      var position, character, line, column := lexer.position, lexer.currentCharacter, lexer.line, lexer.column;
      ghost var saved := st;
      var name := Consume(Identifier);
      if name.Success? && currentToken.kind != LeftParenthesis {
        return Success(NodeIdentifier(Parsing.TokenValue(token)));
      }
      if name.Success? {
        lexer.position, lexer.currentCharacter, lexer.line, lexer.column := position, character, line, column;
        currentToken, st := token, saved;
        r := FunctionCall();
      } else {
        r := Failure(name.error);
      }
      if r.Failure? {
        lexer.position, lexer.currentCharacter, lexer.line, lexer.column := position, character, line, column;
        currentToken, st := token, saved;
      }
    }

    /** `_function_call`: name '(' optional arguments ')'. */
    method FunctionCall() returns (r: Result<Expression, Parsing.ParseError>)
      requires Valid()
      modifies this, lexer
      ensures Follows(r, Parsing.FunctionCall(ts, old(st)), st)
      ensures r.Success? ==> Valid()
      decreases |ts| - st, 13
    {
      var name :- IdentifierRule();
      var arguments :- ParenthesisedArguments();
      return Success(NodeFunctionCall(name, arguments));
    }
  }

  /**
   * The whole pipeline: a scanner over the text, the parser's constructor,
   * which reads the first token, and `parse`.
   */
  method ParseSource(src: string) returns (r: Result<Program, Parsing.ParseError>)
    ensures r == Parsing.ParseSource(src)
  {
    var lexer := new LexicalAnalyzer(src);
    var parser :- SyntacticAnalyzer.Create(lexer);
    var program := parser.Parse();
    return program;
  }
}
