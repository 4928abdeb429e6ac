/**
 * What the semantic analysis accepts and rejects, stated against the scope
 * chain: the scope discipline, declarations in the current scope, the
 * checks on references, calls and assignments, and where give, skip and
 * stop may appear.
 */
module SemanticProperties {
  import opened Wrappers
  import opened Ast
  import opened SymbolTable
  import opened Semantics

  // ---------------------------------------------------------------------------
  // Scopes
  // ---------------------------------------------------------------------------

  /** The analysis starts in one level-1 program scope named "global" that holds the built-in types. */
  lemma GlobalScope()
    ensures |GlobalChain()| == 1
    ensures Current(GlobalChain()).name == "global" && Current(GlobalChain()).scopeType == ProgramScope
    ensures Current(GlobalChain()).level == 1
    ensures Current(GlobalChain()).symbols.Keys == {"number", "string", "boolean"}
  {
    BuiltInScope(1);
  }

  /** Entering a scope and leaving it again gives back the chain one started from. */
  lemma EnterThenExit(chain: seq<Scope>, name: string, scopeType: ScopeType, parameters: seq<Symbol>)
    requires |chain| > 0
    ensures Exit(Enter(chain, name, scopeType, parameters)) == chain
  {
  }

  /** The outermost scope is never left. */
  lemma ExitAtRoot(scope: Scope)
    ensures Exit([scope]) == [scope]
  {
  }

  /** Defining a list of symbols adds exactly their identifiers to the keys. */
  lemma {:induction false} DefineAllKeys(symbols: map<string, Symbol>, ss: seq<Symbol>)
    ensures DefineAll(symbols, ss).Keys == symbols.Keys + set j | 0 <= j < |ss| :: ss[j].identifier
    decreases |ss|
  {
    if ss != [] {
      DefineAllKeys(Defined(symbols, ss[0]), ss[1..]);
      var rest := set j | 0 <= j < |ss[1..]| :: ss[1..][j].identifier;
      var all := set j | 0 <= j < |ss| :: ss[j].identifier;
      assert all == {ss[0].identifier} + rest by {
        forall x | x in all ensures x in {ss[0].identifier} + rest {
          var j :| 0 <= j < |ss| && ss[j].identifier == x;
          if j > 0 { assert ss[1..][j - 1] == ss[j]; }
        }
        forall x | x in rest ensures x in all {
          var j :| 0 <= j < |ss[1..]| && ss[1..][j].identifier == x;
          assert ss[j + 1] == ss[1..][j];
        }
      }
    }
  }

  /**
   * When the parameters' identifiers are distinct, each parameter is
   * defined under its own identifier in the scope entered for the body.
   */
  lemma {:induction false} DefineAllDistinct(symbols: map<string, Symbol>, ss: seq<Symbol>, j: nat)
    requires j < |ss|
    requires forall k | j < k < |ss| :: ss[k].identifier != ss[j].identifier
    ensures ss[j].identifier in DefineAll(symbols, ss) && DefineAll(symbols, ss)[ss[j].identifier] == ss[j]
    decreases |ss|
  {
    if j == 0 {
      DefineAllKeeps(Defined(symbols, ss[0]), ss[1..], ss[0].identifier);
    } else {
      assert forall k | j - 1 < k < |ss[1..]| :: ss[1..][k].identifier != ss[1..][j - 1].identifier by {
        forall k | j - 1 < k < |ss[1..]| ensures ss[1..][k].identifier != ss[1..][j - 1].identifier {
          assert ss[1..][k] == ss[k + 1];
        }
      }
      DefineAllDistinct(Defined(symbols, ss[0]), ss[1..], j - 1);
    }
  }

  /** A key none of the symbols names keeps its entry. */
  lemma {:induction false} DefineAllKeeps(symbols: map<string, Symbol>, ss: seq<Symbol>, name: string)
    requires name in symbols
    requires forall k | 0 <= k < |ss| :: ss[k].identifier != name
    ensures name in DefineAll(symbols, ss) && DefineAll(symbols, ss)[name] == symbols[name]
    decreases |ss|
  {
    if ss != [] {
      assert forall k | 0 <= k < |ss[1..]| :: ss[1..][k].identifier != name by {
        forall k | 0 <= k < |ss[1..]| ensures ss[1..][k].identifier != name {
          assert ss[1..][k] == ss[k + 1];
        }
      }
      DefineAllKeeps(Defined(symbols, ss[0]), ss[1..], name);
    }
  }

  /** A child scope is one level deeper, has the given name and type, and holds the parameters. */
  lemma EnteredScope(chain: seq<Scope>, name: string, scopeType: ScopeType, parameters: seq<Symbol>)
    requires |chain| > 0 && Current(chain).level >= 1
    ensures Current(Enter(chain, name, scopeType, parameters)).level == Current(chain).level + 1
    ensures Current(Enter(chain, name, scopeType, parameters)).name == name
    ensures Current(Enter(chain, name, scopeType, parameters)).scopeType == scopeType
    ensures Current(Enter(chain, name, scopeType, parameters)).symbols.Keys == set j | 0 <= j < |parameters| :: parameters[j].identifier
  {
    DefineAllKeys(map[], parameters);
  }

  // ---------------------------------------------------------------------------
  // Declarations
  // ---------------------------------------------------------------------------

  /**
   * A single declared variable is rejected exactly when the current scope
   * already has the name; otherwise it is defined there, whatever the outer
   * scopes hold.
   */
  lemma DeclareOneVariable(chain: seq<Scope>, t: NodeType, name: string)
    requires |chain| > 0
    ensures name in Current(chain).symbols ==>
      VisitStatement(chain, NodeVariableDeclaration(t, [name], NoExpressions))
        == Failure(SemanticError(DuplicateIdentifier, "Variable '" + name + "' already declared in this scope"))
    ensures name !in Current(chain).symbols ==>
      VisitStatement(chain, NodeVariableDeclaration(t, [name], NoExpressions))
        == Success(DefineInnermost(chain, VariableSymbol(name, t.name)))
  {
    if name !in Current(chain).symbols {
      var c := DefineInnermost(chain, VariableSymbol(name, t.name));
      assert DeclareVariables(c, t.name, [name], NoExpressions, 1) == Success(c);
    }
  }

  /** A name declared in an outer scope may be declared again in the current one, and then it resolves to the new symbol. */
  lemma RedeclarationShadows(outer: seq<Scope>, inner: Scope, t: NodeType, name: string)
    requires name !in inner.symbols
    ensures var r := VisitStatement(outer + [inner], NodeVariableDeclaration(t, [name], NoExpressions));
      r.Success? && LookupChain(r.value, name) == Some(VariableSymbol(name, t.name))
  {
    DeclareOneVariable(outer + [inner], t, name);
    DefineThenLookup(outer + [inner], VariableSymbol(name, t.name), name);
  }

  /**
   * A variable declaration that passes declares names that were new to the
   * current scope and distinct from each other, and binds each of them to a
   * variable of the declared type.
   */
  lemma {:induction false} VariablesDeclared(chain: seq<Scope>, typeName: string, identifiers: seq<string>, initializers: ExpressionList, i: nat)
    requires |chain| > 0 && i <= |identifiers|
    requires DeclareVariables(chain, typeName, identifiers, initializers, i).Success?
    ensures forall k | i <= k < |identifiers| :: identifiers[k] !in Current(chain).symbols
    ensures forall k, m | i <= k < m < |identifiers| :: identifiers[k] != identifiers[m]
    ensures var c := DeclareVariables(chain, typeName, identifiers, initializers, i).value;
      forall x | x in Current(chain).symbols :: x in Current(c).symbols && Current(c).symbols[x] == Current(chain).symbols[x]
    ensures var c := DeclareVariables(chain, typeName, identifiers, initializers, i).value;
      forall k | i <= k < |identifiers| :: identifiers[k] in Current(c).symbols && Current(c).symbols[identifiers[k]] == VariableSymbol(identifiers[k], typeName)
    decreases |identifiers| - i
  {
    if i < |identifiers| {
      var name := identifiers[i];
      var c := DefineInnermost(chain, VariableSymbol(name, typeName));
      var r := DeclareVariables(c, typeName, identifiers, initializers, i + 1);
      assert DeclareVariables(chain, typeName, identifiers, initializers, i) == r;
      VariablesDeclared(c, typeName, identifiers, initializers, i + 1);
      assert Current(c).symbols == Defined(Current(chain).symbols, VariableSymbol(name, typeName));
      assert OnlyCurrentChanged(c, r.value);
    }
  }

  /** A constant declaration with fewer expressions than names runs out at the first name without one. */
  lemma ConstantWithoutExpression(chain: seq<Scope>, t: NodeType, name: string)
    requires |chain| > 0 && name !in Current(chain).symbols
    ensures VisitStatement(chain, NodeConstantDeclaration(t, [name], [])) == Failure(MissingExpression(0))
  {
  }

  /**
   * A function declaration passes exactly when its name is new to the
   * current scope and its body passes in a function scope entered after the
   * function symbol was defined; the chain afterwards is the one before with
   * that symbol added.
   */
  lemma FunctionDeclared(chain: seq<Scope>, name: string, parameters: Option<seq<Parameter>>, giveType: NodeType, block: Block)
    requires |chain| > 0
    ensures var r := VisitStatement(chain, NodeFunctionDeclaration(name, parameters, giveType, block));
      var ps := ParameterSymbols(parameters);
      var c := DefineInnermost(chain, FunctionSymbol(name, StoredParameters(ps), giveType.name, block));
      && (r.Success? <==> name !in Current(chain).symbols && VisitBlock(Enter(c, name, FunctionScope, ps), block).Success?)
      && (r.Success? ==> r.value == c)
  {
    var s := NodeFunctionDeclaration(name, parameters, giveType, block);
    assert VisitStatement(chain, s) == VisitSubroutineDeclaration(chain, s);
    var ps := ParameterSymbols(parameters);
    var c := DefineInnermost(chain, FunctionSymbol(name, StoredParameters(ps), giveType.name, block));
    if name !in Current(chain).symbols {
      assert VisitSubroutineDeclaration(chain, s) == VisitNested(c, name, FunctionScope, ps, block);
    }
  }

  /** The same for procedures. */
  lemma ProcedureDeclared(chain: seq<Scope>, name: string, parameters: Option<seq<Parameter>>, block: Block)
    requires |chain| > 0
    ensures var r := VisitStatement(chain, NodeProcedureDeclaration(name, parameters, block));
      var ps := ParameterSymbols(parameters);
      var c := DefineInnermost(chain, ProcedureSymbol(name, StoredParameters(ps), block));
      && (r.Success? <==> name !in Current(chain).symbols && VisitBlock(Enter(c, name, ProcedureScope, ps), block).Success?)
      && (r.Success? ==> r.value == c)
  {
    var s := NodeProcedureDeclaration(name, parameters, block);
    assert VisitStatement(chain, s) == VisitSubroutineDeclaration(chain, s);
    var ps := ParameterSymbols(parameters);
    var c := DefineInnermost(chain, ProcedureSymbol(name, StoredParameters(ps), block));
    if name !in Current(chain).symbols {
      assert VisitSubroutineDeclaration(chain, s) == VisitNested(c, name, ProcedureScope, ps, block);
    }
  }

  /** Inside the body, the subroutine's own name resolves to it unless a parameter has that name. */
  lemma SubroutineVisibleInBody(chain: seq<Scope>, symbol: Symbol, scopeType: ScopeType, parameters: seq<Symbol>)
    requires |chain| > 0
    requires forall j | 0 <= j < |parameters| :: parameters[j].identifier != symbol.identifier
    requires Current(chain).level >= 1
    ensures LookupChain(Enter(DefineInnermost(chain, symbol), symbol.identifier, scopeType, parameters), symbol.identifier) == Some(symbol)
  {
    var c := DefineInnermost(chain, symbol);
    var e := Enter(c, symbol.identifier, scopeType, parameters);
    EnteredScope(c, symbol.identifier, scopeType, parameters);
    assert e == c + [Current(e)];
    LookupSkipsScope(c, Current(e), symbol.identifier);
    DefineThenLookup(chain, symbol, symbol.identifier);
  }

  // ---------------------------------------------------------------------------
  // References in expressions
  // ---------------------------------------------------------------------------

  /** What an expression refers to: a name, or a call of a name with some number of arguments. */
  datatype Reference = Name(name: string) | Call(callee: string, argumentCount: nat)

  /** Every reference made anywhere in an expression. */
  function References(e: Expression): set<Reference>
    decreases e
  {
    match e
    case NodeIdentifier(name) => {Name(name)}
    case NodeFunctionCall(identifier, arguments) =>
      {Call(identifier, ArgumentCount(arguments))} + (if arguments.Expressions? then ReferencesAll(arguments.items, 0) else {})
    case NodeBinaryArithmeticOperation(left, _, right) => References(left) + References(right)
    case NodeUnaryArithmeticOperation(_, operand) => References(operand)
    case NodeArithmeticExpressionAsBoolean(expression) => References(expression)
    case NodeBinaryBooleanOperation(left, _, right) => References(left) + References(right)
    case NodeUnaryBooleanOperation(_, operand) => References(operand)
    case NodeComparisonExpression(left, _, right) => References(left) + References(right)
    case _ => {}
  }

  /** The references of the expressions from the `i`-th on. */
  function ReferencesAll(es: seq<Expression>, i: nat): set<Reference>
    requires i <= |es|
    decreases es, |es| - i
  {
    if i == |es| then {} else References(es[i]) + ReferencesAll(es, i + 1)
  }

  /** A name must resolve somewhere on the chain; a call must resolve to a function taking that many arguments. */
  predicate Resolved(chain: seq<Scope>, r: Reference)
  {
    var symbol := LookupChain(chain, if r.Name? then r.name else r.callee);
    match r
    case Name(_) => symbol.Some?
    case Call(_, count) => symbol.Some? && symbol.value.FunctionSymbol? && ParameterCount(symbol.value.parameters) == count
  }

  /** An expression passes exactly when everything it refers to resolves. */
  lemma {:induction false} ExpressionPasses(chain: seq<Scope>, e: Expression)
    ensures VisitExpression(chain, e).Success? <==> forall r | r in References(e) :: Resolved(chain, r)
    decreases e
  {
    match e
    case NodeIdentifier(name) =>
      assert References(e) == {Name(name)};
      assert Resolved(chain, Name(name)) <==> LookupChain(chain, name).Some?;
    case NodeFunctionCall(identifier, arguments) =>
      var call := Call(identifier, ArgumentCount(arguments));
      assert call in References(e);
      var symbol := LookupChain(chain, identifier);
      assert Resolved(chain, call) <==>
        symbol.Some? && symbol.value.FunctionSymbol? && ParameterCount(symbol.value.parameters) == ArgumentCount(arguments);
      if arguments.Expressions? { ExpressionsPass(chain, arguments.items, 0); }
    case NodeBinaryArithmeticOperation(left, _, right) => ExpressionPasses(chain, left); ExpressionPasses(chain, right);
    case NodeUnaryArithmeticOperation(_, operand) => ExpressionPasses(chain, operand);
    case NodeArithmeticExpressionAsBoolean(expression) => ExpressionPasses(chain, expression);
    case NodeBinaryBooleanOperation(left, _, right) => ExpressionPasses(chain, left); ExpressionPasses(chain, right);
    case NodeUnaryBooleanOperation(_, operand) => ExpressionPasses(chain, operand);
    case NodeComparisonExpression(left, _, right) => ExpressionPasses(chain, left); ExpressionPasses(chain, right);
    case NodeNumberLiteral(_) =>
    case NodeStringLiteral(_) =>
    case NodeBooleanLiteral(_) =>
  }

  lemma {:induction false} ExpressionsPass(chain: seq<Scope>, es: seq<Expression>, i: nat)
    requires i <= |es|
    ensures VisitExpressions(chain, es, i).Success? <==> forall r | r in ReferencesAll(es, i) :: Resolved(chain, r)
    decreases es, |es| - i
  {
    if i < |es| {
      ExpressionPasses(chain, es[i]);
      ExpressionsPass(chain, es, i + 1);
    }
  }

  /** An identifier reference passes exactly when some scope of the chain has the name. */
  lemma IdentifierPasses(chain: seq<Scope>, name: string)
    ensures VisitExpression(chain, NodeIdentifier(name)).Success? <==> exists i | 0 <= i < |chain| :: name in chain[i].symbols
  {
    LookupNone(chain, name);
  }

  /** A call passes only when its name resolves to a function whose parameter count is the argument count. */
  lemma CallPasses(chain: seq<Scope>, identifier: string, arguments: ExpressionList)
    ensures VisitExpression(chain, NodeFunctionCall(identifier, arguments)).Success? ==>
      && LookupChain(chain, identifier).Some? && LookupChain(chain, identifier).value.FunctionSymbol?
      && ParameterCount(LookupChain(chain, identifier).value.parameters) == ArgumentCount(arguments)
  {
    ExpressionPasses(chain, NodeFunctionCall(identifier, arguments));
  }

  /** A procedure call passes exactly when its name resolves to a procedure of that many parameters and its arguments pass. */
  lemma ProcedureCallPasses(chain: seq<Scope>, identifier: string, arguments: ExpressionList)
    requires |chain| > 0
    ensures var r := VisitStatement(chain, NodeProcedureCall(identifier, arguments));
      var symbol := LookupChain(chain, identifier);
      && (r.Success? <==>
           && symbol.Some? && symbol.value.ProcedureSymbol?
           && ParameterCount(symbol.value.parameters) == ArgumentCount(arguments)
           && (arguments.Expressions? ==> forall x | x in ReferencesAll(arguments.items, 0) :: Resolved(chain, x)))
      && (r.Success? ==> r.value == chain)
  {
    if arguments.Expressions? { ExpressionsPass(chain, arguments.items, 0); }
  }

  // ---------------------------------------------------------------------------
  // Assignments
  // ---------------------------------------------------------------------------

  /**
   * An assignment to an undeclared name, to a constant, or to anything but
   * a variable fails with its own code; to a variable it passes exactly
   * when the assigned expression does, and then changes nothing.
   */
  lemma AssignmentOutcome(chain: seq<Scope>, identifier: string, e: Expression)
    requires |chain| > 0
    ensures var r := VisitStatement(chain, NodeAssignmentStatement(identifier, e));
      var symbol := LookupChain(chain, identifier);
      && (symbol.None? ==> r.Failure? && r.error == SemanticError(UndeclaredIdentifier, "Undeclared variable '" + identifier + "'"))
      && (symbol.Some? && symbol.value.ConstantSymbol? ==>
           r.Failure? && r.error == SemanticError(AssignmentToConstant, "Cannot assign to constant '" + identifier + "'"))
      && (symbol.Some? && !symbol.value.ConstantSymbol? && !symbol.value.VariableSymbol? ==>
           r.Failure? && r.error == SemanticError(WrongSymbolType, "'" + identifier + "' is not a variable"))
      && (symbol.Some? && symbol.value.VariableSymbol? ==>
           (r.Success? <==> forall x | x in References(e) :: Resolved(chain, x)) && (r.Success? ==> r.value == chain))
  {
    ExpressionPasses(chain, e);
  }

  // ---------------------------------------------------------------------------
  // give, skip and stop
  // ---------------------------------------------------------------------------

  /**
   * A give passes only below a function or procedure scope whose name, in
   * the scopes around it, is a function when the give has a value and a
   * procedure when it has none.
   */
  lemma GiveLegal(chain: seq<Scope>, value: Option<Expression>)
    ensures VisitGive(chain, value).Success? ==>
      && NearestSubroutine(chain).Some? && NearestSubroutine(chain).value > 0
      && var i := NearestSubroutine(chain).value;
         var symbol := LookupChain(chain[..i], chain[i].name);
         && symbol.Some?
         && (symbol.value.FunctionSymbol? ==> value.Some?)
         && (symbol.value.ProcedureSymbol? ==> value.None?)
         && (symbol.value.FunctionSymbol? || symbol.value.ProcedureSymbol?)
  {
  }

  /** With no function or procedure scope on the chain, every give is rejected. */
  lemma GiveOutside(chain: seq<Scope>, value: Option<Expression>)
    requires forall i | 0 <= i < |chain| :: !IsSubroutine(chain[i].scopeType)
    ensures VisitGive(chain, value) == Fail(WrongSymbolType, "Give statement outside of function or procedure")
  {
  }

  /** In the body of a function declared in the current scope, an empty give is rejected and a give of a passing expression accepted. */
  lemma GiveInFunction(chain: seq<Scope>, name: string, ps: Option<seq<Symbol>>, giveType: string, b: Block, e: Expression)
    requires |chain| > 0 && Current(chain).level >= 1
    ensures var body := Enter(DefineInnermost(chain, FunctionSymbol(name, ps, giveType, b)), name, FunctionScope, []);
      && VisitGive(body, None) == Fail(FunctionEmptyGive, "Function '" + name + "' must give a value")
      && VisitGive(body, Some(e)) == VisitExpression(body, e)
  {
    var c := DefineInnermost(chain, FunctionSymbol(name, ps, giveType, b));
    var body := Enter(c, name, FunctionScope, []);
    assert NearestSubroutine(body) == Some(|c|);
    assert body[..|c|] == c;
    DefineThenLookup(chain, FunctionSymbol(name, ps, giveType, b), name);
  }

  /** In the body of a procedure, a give with a value is rejected and one without accepted. */
  lemma GiveInProcedure(chain: seq<Scope>, name: string, ps: Option<seq<Symbol>>, b: Block, e: Expression)
    requires |chain| > 0 && Current(chain).level >= 1
    ensures var body := Enter(DefineInnermost(chain, ProcedureSymbol(name, ps, b)), name, ProcedureScope, []);
      && VisitGive(body, Some(e)) == Fail(ProcedureGivingValue, "Procedure '" + name + "' cannot give a value")
      && VisitGive(body, None) == Success(())
  {
    var c := DefineInnermost(chain, ProcedureSymbol(name, ps, b));
    var body := Enter(c, name, ProcedureScope, []);
    assert NearestSubroutine(body) == Some(|c|);
    assert body[..|c|] == c;
    DefineThenLookup(chain, ProcedureSymbol(name, ps, b), name);
  }

  /** skip passes exactly when some scope on the chain is a while block, and changes nothing. */
  lemma SkipNeedsWhile(chain: seq<Scope>)
    requires |chain| > 0
    ensures VisitStatement(chain, NodeSkipStatement) ==
      if exists i | 0 <= i < |chain| :: chain[i].scopeType == WhileBlock then Success(chain)
      else Fail(SkipStatementOutsideWhile, "skip statements can only be used inside while blocks")
  {
  }

  /** stop passes exactly when some scope on the chain is a while block, and changes nothing. */
  lemma StopNeedsWhile(chain: seq<Scope>)
    requires |chain| > 0
    ensures VisitStatement(chain, NodeStopStatement) ==
      if exists i | 0 <= i < |chain| :: chain[i].scopeType == WhileBlock then Success(chain)
      else Fail(StopStatementOutsideWhile, "stop statements can only be used inside while blocks")
  {
  }

  /** At the top level of a program, skip is rejected. */
  lemma SkipAtTopLevel()
    ensures VisitStatement(GlobalChain(), NodeSkipStatement)
      == Fail(SkipStatementOutsideWhile, "skip statements can only be used inside while blocks")
  {
  }

  /**
   * The walk for skip and stop passes function and procedure scopes: a skip
   * in the body of a procedure declared inside a while block is accepted,
   * although no loop surrounds it when the procedure is called.
   */
  lemma SkipAcceptedInSubroutineInWhile(chain: seq<Scope>, name: string, ps: seq<Symbol>)
    requires |chain| > 0
    ensures var loop := Enter(chain, "while_statement_1", WhileBlock, []);
      VisitStatement(Enter(loop, name, ProcedureScope, ps), NodeSkipStatement) == Success(Enter(loop, name, ProcedureScope, ps))
  {
    var loop := Enter(chain, "while_statement_1", WhileBlock, []);
    assert Enter(loop, name, ProcedureScope, ps)[|chain|].scopeType == WhileBlock;
  }
}
