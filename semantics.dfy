/**
 * What the semantic analyzer checks, as functions over the scope chain
 * (outermost scope first, the current scope last). Each `visit_X` becomes a
 * function from the chain before to the chain after, or to the first
 * semantic error it raises. Only the current scope's symbols ever change:
 * nested scopes are entered, used and left within the statement that opens
 * them.
 */
module Semantics {
  import opened Wrappers
  import opened Ast
  import opened SymbolTable
  import Text

  datatype SemanticErrorCode =
    | UndeclaredIdentifier | WrongSymbolType | WrongNumberOfArguments | AssignmentToConstant
    | DuplicateIdentifier | FunctionEmptyGive | ProcedureGivingValue
    | SkipStatementOutsideWhile | StopStatementOutsideWhile

  /**
   * A semantic error, or the `IndexError` a constant declaration with fewer
   * expressions than identifiers runs into.
   */
  datatype SemanticError =
    | SemanticError(code: SemanticErrorCode, message: string)
    | MissingExpression(index: nat)

  type Unit = ()

  function Fail<T>(code: SemanticErrorCode, message: string): Result<T, SemanticError>
  {
    Failure(SemanticError(code, message))
  }

  /** The analyzer's first scope: "global", of type PROGRAM, at level 1. */
  function GlobalChain(): seq<Scope>
  {
    [Scope("global", ProgramScope, 1, InitialSymbols(1))]
  }

  function Current(chain: seq<Scope>): Scope
    requires |chain| > 0
  {
    chain[|chain| - 1]
  }

  /** `_enter_scope`: a child of the current scope, one level deeper, holding the given parameters. */
  function Enter(chain: seq<Scope>, name: string, scopeType: ScopeType, parameters: seq<Symbol>): (c: seq<Scope>)
    requires |chain| > 0
    ensures |c| == |chain| + 1 && c[..|chain|] == chain
  {
    var level := Current(chain).level + 1;
    chain + [Scope(name, scopeType, level, DefineAll(InitialSymbols(level), parameters))]
  }

  /** `_exit_scope`: back to the enclosing scope; the outermost scope is never left. */
  function Exit(chain: seq<Scope>): (c: seq<Scope>)
    requires |chain| > 0
    ensures |c| > 0
  {
    if |chain| > 1 then chain[..|chain| - 1] else chain
  }

  /**
   * A statement changed nothing but the current scope, which keeps its
   * name, type and level and has gained symbols at most.
   */
  ghost predicate OnlyCurrentChanged(before: seq<Scope>, after: seq<Scope>)
  {
    && |before| > 0 && |after| == |before|
    && after[..|after| - 1] == before[..|before| - 1]
    && Current(after).name == Current(before).name
    && Current(after).scopeType == Current(before).scopeType
    && Current(after).level == Current(before).level
    && Current(before).symbols.Keys <= Current(after).symbols.Keys
  }

  lemma OnlyCurrentChangedTransitive(a: seq<Scope>, b: seq<Scope>, c: seq<Scope>)
    requires OnlyCurrentChanged(a, b) && OnlyCurrentChanged(b, c)
    ensures OnlyCurrentChanged(a, c)
  {
  }

  /** The variable symbols a parameter list defines, in order. */
  function ParameterSymbols(parameters: Option<seq<Parameter>>): (ss: seq<Symbol>)
    ensures parameters.None? ==> ss == []
    ensures parameters.Some? ==> |ss| == |parameters.value|
    ensures forall i | 0 <= i < |ss| :: ss[i] == VariableSymbol(parameters.value[i].identifier, parameters.value[i].paramType.name)
  {
    if parameters.None? then [] else
    seq(|parameters.value|, i requires 0 <= i < |parameters.value| =>
      VariableSymbol(parameters.value[i].identifier, parameters.value[i].paramType.name))
  }

  /** `parameters if parameters else None`: an empty list is stored as absent. */
  function StoredParameters(ss: seq<Symbol>): Option<seq<Symbol>>
  {
    if ss == [] then None else Some(ss)
  }

  /** `len(symbol.parameters) if symbol.parameters else 0`. */
  function ParameterCount(parameters: Option<seq<Symbol>>): nat
  {
    if parameters.Some? then |parameters.value| else 0
  }

  /** `len(node.arguments) if node.arguments else 0`. */
  function ArgumentCount(arguments: ExpressionList): nat
  {
    if arguments.Expressions? then |arguments.items| else 0
  }

  // ---------------------------------------------------------------------------
  // Expressions: they only read the chain
  // ---------------------------------------------------------------------------

  /** The errors an expression can raise: an unknown name, a call of a non-function, a wrong argument count. */
  predicate ExpressionError(err: SemanticError)
  {
    err.SemanticError? && err.code in {UndeclaredIdentifier, WrongSymbolType, WrongNumberOfArguments}
  }

  /**
   * `visit` of an expression: every identifier and called name must resolve,
   * a called name to a function given as many arguments as it has parameters.
   */
  function VisitExpression(chain: seq<Scope>, e: Expression): (r: Result<Unit, SemanticError>)
    ensures r.Failure? ==> ExpressionError(r.error)
    ensures e.NodeIdentifier? ==> (r.Success? <==> LookupChain(chain, e.name).Some?)
    ensures e.NodeFunctionCall? && r.Success? ==> LookupChain(chain, e.identifier).Some? && LookupChain(chain, e.identifier).value.FunctionSymbol?
    ensures e.NodeNumberLiteral? || e.NodeStringLiteral? || e.NodeBooleanLiteral? ==> r.Success?
    decreases e
  {
    match e
    case NodeIdentifier(name) =>
      if LookupChain(chain, name).None? then Fail(UndeclaredIdentifier, "Undeclared identifier '" + name + "'")
      else Success(())
    case NodeFunctionCall(identifier, arguments) =>
      var symbol := LookupChain(chain, identifier);
      if symbol.None? then Fail(UndeclaredIdentifier, "Undeclared function '" + identifier + "'")
      else if !symbol.value.FunctionSymbol? then Fail(WrongSymbolType, "'" + identifier + "' is not a function")
      else CheckArguments(chain, identifier, symbol.value.parameters, arguments)
    case NodeBinaryArithmeticOperation(left, _, right) =>
      var _ :- VisitExpression(chain, left);
      VisitExpression(chain, right)
    case NodeUnaryArithmeticOperation(_, operand) => VisitExpression(chain, operand)
    case NodeArithmeticExpressionAsBoolean(expression) => VisitExpression(chain, expression)
    case NodeBinaryBooleanOperation(left, _, right) =>
      var _ :- VisitExpression(chain, left);
      VisitExpression(chain, right)
    case NodeUnaryBooleanOperation(_, operand) => VisitExpression(chain, operand)
    case NodeComparisonExpression(left, _, right) =>
      var _ :- VisitExpression(chain, left);
      VisitExpression(chain, right)
    case NodeNumberLiteral(_) => Success(())
    case NodeStringLiteral(_) => Success(())
    case NodeBooleanLiteral(_) => Success(())
  }

  /** The argument count must be the parameter count; then each argument is visited. */
  function CheckArguments(chain: seq<Scope>, identifier: string, parameters: Option<seq<Symbol>>, arguments: ExpressionList): (r: Result<Unit, SemanticError>)
    ensures r.Failure? ==> ExpressionError(r.error)
    ensures ParameterCount(parameters) != ArgumentCount(arguments) ==> r.Failure? && r.error.code == WrongNumberOfArguments
    ensures r.Success? && arguments.Expressions? ==> forall j | 0 <= j < |arguments.items| :: VisitExpression(chain, arguments.items[j]).Success?
    decreases arguments, 1
  {
    var expected, actual := ParameterCount(parameters), ArgumentCount(arguments);
    if expected != actual then
      Fail(WrongNumberOfArguments,
        "'" + identifier + "' expects " + Text.IntToString(expected) + " arguments, got " + Text.IntToString(actual))
    else if arguments.NoExpressions? then Success(())
    else VisitExpressions(chain, arguments.items, 0)
  }

  /** The expressions from the `i`-th on, in order, stopping at the first error. */
  function VisitExpressions(chain: seq<Scope>, es: seq<Expression>, i: nat): (r: Result<Unit, SemanticError>)
    requires i <= |es|
    ensures r.Failure? ==> ExpressionError(r.error)
    ensures r.Success? <==> forall j | i <= j < |es| :: VisitExpression(chain, es[j]).Success?
    decreases es, |es| - i
  {
    if i == |es| then Success(())
    else
      var _ :- VisitExpression(chain, es[i]);
      VisitExpressions(chain, es, i + 1)
  }

  // ---------------------------------------------------------------------------
  // Statements
  // ---------------------------------------------------------------------------

  /** `visit_NodeBlock`: the statements in order, none for an absent list. */
  function VisitBlock(chain: seq<Scope>, b: Block): (r: Result<seq<Scope>, SemanticError>)
    requires |chain| > 0
    ensures r.Success? ==> OnlyCurrentChanged(chain, r.value)
    decreases b, 1
  {
    match b.statements
    case NoStatements => Success(chain)
    case Statements(items) => VisitStatements(chain, items, 0)
  }

  /** The statements from the `i`-th on, in order, stopping at the first error. */
  function VisitStatements(chain: seq<Scope>, ss: seq<Statement>, i: nat): (r: Result<seq<Scope>, SemanticError>)
    requires |chain| > 0 && i <= |ss|
    ensures r.Success? ==> OnlyCurrentChanged(chain, r.value)
    decreases ss, |ss| - i
  {
    if i == |ss| then Success(chain)
    else
      var c :- VisitStatement(chain, ss[i]);
      var d := VisitStatements(c, ss, i + 1);
      if d.Success? then OnlyCurrentChangedTransitive(chain, c, d.value); d else d
  }

  /** A block run in a child scope of the given type, which is then left. */
  function VisitNested(chain: seq<Scope>, name: string, scopeType: ScopeType, parameters: seq<Symbol>, b: Block): (r: Result<seq<Scope>, SemanticError>)
    requires |chain| > 0
    ensures r.Success? ==> r.value == chain
    decreases b, 2
  {
    var inner :- VisitBlock(Enter(chain, name, scopeType, parameters), b);
    assert inner[..|inner| - 1] == chain;
    Success(Exit(inner))
  }

  /** `visit(statement)`: the visit of the statement's node class. */
  function VisitStatement(chain: seq<Scope>, s: Statement): (r: Result<seq<Scope>, SemanticError>)
    requires |chain| > 0
    ensures r.Success? ==> OnlyCurrentChanged(chain, r.value)
    decreases s
  {
    match s
    case NodeVariableDeclaration(varType, identifiers, initializers) =>
      DeclareVariables(chain, varType.name, identifiers, initializers, 0)
    case NodeConstantDeclaration(constType, identifiers, expressions) =>
      DeclareConstants(chain, constType.name, identifiers, expressions, 0)
    case NodeFunctionDeclaration(_, _, _, _) => VisitSubroutineDeclaration(chain, s)
    case NodeProcedureDeclaration(_, _, _) => VisitSubroutineDeclaration(chain, s)
    case NodeAssignmentStatement(identifier, expression) => VisitAssignment(chain, identifier, expression)
    case NodeProcedureCall(identifier, arguments) => VisitProcedureCall(chain, identifier, arguments)
    case NodeGiveStatement(value) =>
      var _ :- VisitGive(chain, value);
      Success(chain)
    case NodeShowStatement(expression) =>
      var _ :- VisitExpression(chain, expression);
      Success(chain)
    case NodeIfStatement(_, _, _, _) => VisitIf(chain, s)
    case NodeWhileStatement(_, _) => VisitWhile(chain, s)
    case NodeSkipStatement => VisitLoopControl(chain, s)
    case NodeStopStatement => VisitLoopControl(chain, s)
  }

  /** `visit_NodeSkipStatement` and `visit_NodeStopStatement`: some scope out from the current one must be a while block. */
  function VisitLoopControl(chain: seq<Scope>, s: Statement): (r: Result<seq<Scope>, SemanticError>)
    requires s.NodeSkipStatement? || s.NodeStopStatement?
    ensures r.Success? ==> r.value == chain
  {
    if InsideWhile(chain) then Success(chain)
    else if s.NodeSkipStatement? then Fail(SkipStatementOutsideWhile, "skip statements can only be used inside while blocks")
    else Fail(StopStatementOutsideWhile, "stop statements can only be used inside while blocks")
  }

  /**
   * `visit_NodeFunctionDeclaration` and `visit_NodeProcedureDeclaration`:
   * the name must be new to the current scope; its symbol is defined there,
   * and the body is visited in a child scope holding the parameters.
   */
  function VisitSubroutineDeclaration(chain: seq<Scope>, s: Statement): (r: Result<seq<Scope>, SemanticError>)
    requires |chain| > 0 && (s.NodeFunctionDeclaration? || s.NodeProcedureDeclaration?)
    ensures r.Success? ==> OnlyCurrentChanged(chain, r.value)
    decreases s, 0
  {
    var name := s.identifier;
    if LookupCurrent(Current(chain), name).Some? then
      Fail(DuplicateIdentifier, (if s.NodeFunctionDeclaration? then "Function '" else "Procedure '") + name + "' already declared in this scope")
    else
      var ps := ParameterSymbols(s.parameters);
      if s.NodeFunctionDeclaration? then
        VisitNested(DefineInnermost(chain, FunctionSymbol(name, StoredParameters(ps), s.giveType.name, s.block)), name, FunctionScope, ps, s.block)
      else
        VisitNested(DefineInnermost(chain, ProcedureSymbol(name, StoredParameters(ps), s.block)), name, ProcedureScope, ps, s.block)
  }

  /** `visit_NodeAssignmentStatement`: the name must resolve to a variable; then the expression is visited. */
  function VisitAssignment(chain: seq<Scope>, identifier: string, expression: Expression): (r: Result<seq<Scope>, SemanticError>)
    ensures r.Success? ==> r.value == chain
  {
    var symbol := LookupChain(chain, identifier);
    if symbol.None? then Fail(UndeclaredIdentifier, "Undeclared variable '" + identifier + "'")
    else if symbol.value.ConstantSymbol? then Fail(AssignmentToConstant, "Cannot assign to constant '" + identifier + "'")
    else if !symbol.value.VariableSymbol? then Fail(WrongSymbolType, "'" + identifier + "' is not a variable")
    else
      var _ :- VisitExpression(chain, expression);
      Success(chain)
  }

  /** `visit_NodeProcedureCall`: the name must resolve to a procedure taking as many arguments as are given. */
  function VisitProcedureCall(chain: seq<Scope>, identifier: string, arguments: ExpressionList): (r: Result<seq<Scope>, SemanticError>)
    ensures r.Success? ==> r.value == chain
  {
    var symbol := LookupChain(chain, identifier);
    if symbol.None? then Fail(UndeclaredIdentifier, "Undeclared procedure '" + identifier + "'")
    else if !symbol.value.ProcedureSymbol? then Fail(WrongSymbolType, "'" + identifier + "' is not a procedure")
    else
      var _ :- CheckArguments(chain, identifier, symbol.value.parameters, arguments);
      Success(chain)
  }

  /** `visit_NodeIfStatement`: the condition, the block in an if scope, each elif, then the else branch if there is one. */
  function VisitIf(chain: seq<Scope>, s: Statement): (r: Result<seq<Scope>, SemanticError>)
    requires |chain| > 0 && s.NodeIfStatement?
    ensures r.Success? ==> r.value == chain
    decreases s, 0
  {
    var _ :- VisitExpression(chain, s.condition);
    var level := Text.IntToString(Current(chain).level);
    var _ :- VisitNested(chain, "if_statement_" + level, IfBlock, [], s.block);
    var _ :- (match s.elifs
      case NoElifs => Success(chain)
      case Elifs(items) => VisitElifs(chain, items, 0));
    match s.elseBranch
    case NoElse => Success(chain)
    case SomeElse(e) => VisitElse(chain, e)
  }

  /** `visit_NodeElse`: the block in an else scope. */
  function VisitElse(chain: seq<Scope>, e: Else): (r: Result<seq<Scope>, SemanticError>)
    requires |chain| > 0
    ensures r.Success? ==> r.value == chain
    decreases e
  {
    VisitNested(chain, "else_statement_" + Text.IntToString(Current(chain).level), ElseBlock, [], e.block)
  }

  /** `visit_NodeWhileStatement`: the condition, then the block in a while scope. */
  function VisitWhile(chain: seq<Scope>, s: Statement): (r: Result<seq<Scope>, SemanticError>)
    requires |chain| > 0 && s.NodeWhileStatement?
    ensures r.Success? ==> r.value == chain
    decreases s, 0
  {
    var _ :- VisitExpression(chain, s.condition);
    VisitNested(chain, "while_statement_" + Text.IntToString(Current(chain).level), WhileBlock, [], s.block)
  }

  /** `visit_NodeElif` for each branch from the `i`-th on, in turn. */
  function VisitElifs(chain: seq<Scope>, elifs: seq<Elif>, i: nat): (r: Result<seq<Scope>, SemanticError>)
    requires |chain| > 0 && i <= |elifs|
    ensures r.Success? ==> r.value == chain
    decreases elifs, |elifs| - i
  {
    if i == |elifs| then Success(chain)
    else
      var _ :- VisitElif(chain, elifs[i]);
      VisitElifs(chain, elifs, i + 1)
  }

  /** `visit_NodeElif`: the condition, then the block in an elif scope. */
  function VisitElif(chain: seq<Scope>, e: Elif): (r: Result<seq<Scope>, SemanticError>)
    requires |chain| > 0
    ensures r.Success? ==> r.value == chain
    decreases e
  {
    var _ :- VisitExpression(chain, e.condition);
    VisitNested(chain, "elif_statement_" + Text.IntToString(Current(chain).level), ElifBlock, [], e.block)
  }

  /**
   * `visit_NodeVariableDeclaration` from identifier `i` on, one identifier
   * at a time.
   */
  function DeclareVariables(chain: seq<Scope>, typeName: string, identifiers: seq<string>, initializers: ExpressionList, i: nat): (r: Result<seq<Scope>, SemanticError>)
    requires |chain| > 0 && i <= |identifiers|
    ensures r.Success? ==> OnlyCurrentChanged(chain, r.value)
    decreases |identifiers| - i
  {
    if i == |identifiers| then Success(chain)
    else
      var c :- DeclareVariable(chain, identifiers[i], typeName, Initializer(initializers, i));
      DeclareVariables(c, typeName, identifiers, initializers, i + 1)
  }

  /** The initializer of the `i`-th identifier, if the declaration has one for it. */
  function Initializer(initializers: ExpressionList, i: nat): Option<Expression>
  {
    if initializers.Expressions? && i < |initializers.items| then Some(initializers.items[i]) else None
  }

  /** One identifier: it must be new to the current scope; it is defined there, then its initializer, if any, is visited. */
  function DeclareVariable(chain: seq<Scope>, name: string, typeName: string, initializer: Option<Expression>): (r: Result<seq<Scope>, SemanticError>)
    requires |chain| > 0
    ensures r.Success? ==> r.value == DefineInnermost(chain, VariableSymbol(name, typeName))
  {
    if LookupCurrent(Current(chain), name).Some? then
      Fail(DuplicateIdentifier, "Variable '" + name + "' already declared in this scope")
    else
      var c := DefineInnermost(chain, VariableSymbol(name, typeName));
      var _ :- if initializer.Some? then VisitExpression(c, initializer.value) else Success(());
      Success(c)
  }

  /** `visit_NodeConstantDeclaration` from identifier `i` on; every name needs its expression. */
  function DeclareConstants(chain: seq<Scope>, typeName: string, identifiers: seq<string>, expressions: seq<Expression>, i: nat): (r: Result<seq<Scope>, SemanticError>)
    requires |chain| > 0 && i <= |identifiers|
    ensures r.Success? ==> OnlyCurrentChanged(chain, r.value)
    decreases |identifiers| - i
  {
    if i == |identifiers| then Success(chain)
    else
      var c :- DeclareConstant(chain, identifiers[i], typeName, expressions, i);
      DeclareConstants(c, typeName, identifiers, expressions, i + 1)
  }

  /**
   * The `i`-th identifier of a constant declaration: new to the current
   * scope, defined there, and then its expression visited; a missing
   * expression ends the declaration.
   */
  function DeclareConstant(chain: seq<Scope>, name: string, typeName: string, expressions: seq<Expression>, i: nat): (r: Result<seq<Scope>, SemanticError>)
    requires |chain| > 0
    ensures r.Success? ==> r.value == DefineInnermost(chain, ConstantSymbol(name, typeName))
  {
    if LookupCurrent(Current(chain), name).Some? then
      Fail(DuplicateIdentifier, "Constant '" + name + "' already declared in this scope")
    else
      var c := DefineInnermost(chain, ConstantSymbol(name, typeName));
      if i >= |expressions| then Failure(MissingExpression(i))
      else
        var _ :- VisitExpression(c, expressions[i]);
        Success(c)
  }

  // ---------------------------------------------------------------------------
  // Where give, skip and stop may appear
  // ---------------------------------------------------------------------------

  predicate IsSubroutine(t: ScopeType)
  {
    t == FunctionScope || t == ProcedureScope
  }

  /** The index of the innermost function or procedure scope at or below `n`, searching outwards. */
  function NearestSubroutineFrom(chain: seq<Scope>, n: nat): (r: Option<nat>)
    requires n <= |chain|
    ensures r.Some? ==> r.value < n && IsSubroutine(chain[r.value].scopeType)
    ensures r.Some? ==> forall j | r.value < j < n :: !IsSubroutine(chain[j].scopeType)
    ensures r.None? ==> forall j | 0 <= j < n :: !IsSubroutine(chain[j].scopeType)
    decreases n
  {
    if n == 0 then None
    else if IsSubroutine(chain[n - 1].scopeType) then Some(n - 1)
    else NearestSubroutineFrom(chain, n - 1)
  }

  /** The innermost function or procedure scope of the chain. */
  function NearestSubroutine(chain: seq<Scope>): Option<nat>
  {
    NearestSubroutineFrom(chain, |chain|)
  }

  /** A function or procedure scope with no other one nested inside it is the one the search finds. */
  lemma NearestSubroutineAt(chain: seq<Scope>, k: nat)
    requires k < |chain| && IsSubroutine(chain[k].scopeType)
    requires forall j | k < j < |chain| :: !IsSubroutine(chain[j].scopeType)
    ensures NearestSubroutine(chain) == Some(k)
  {
  }

  /**
   * `visit_NodeGiveStatement`: the nearest function or procedure scope is
   * found, and the symbol its name has in the scope around it decides: a
   * function needs a value, a procedure must not have one.
   */
  function VisitGive(chain: seq<Scope>, value: Option<Expression>): (r: Result<Unit, SemanticError>)
    ensures NearestSubroutine(chain).None? ==> r.Failure? && r.error == SemanticError(WrongSymbolType, "Give statement outside of function or procedure")
    ensures r.Failure? && r.error.SemanticError? && r.error.code == FunctionEmptyGive ==> value.None?
    ensures r.Failure? && r.error.SemanticError? && r.error.code == ProcedureGivingValue ==> value.Some?
    ensures r.Success? ==> NearestSubroutine(chain).Some? && NearestSubroutine(chain).value > 0
  {
    var found := NearestSubroutine(chain);
    if found.None? then Fail(WrongSymbolType, "Give statement outside of function or procedure")
    else if found.value == 0 then Fail(WrongSymbolType, "Invalid scope structure")
    else
      var name := chain[found.value].name;
      GiveBySymbol(chain, name, LookupChain(chain[..found.value], name), value)
  }

  /** The decision of a give once the symbol of the nearest function or procedure scope's name is known. */
  function GiveBySymbol(chain: seq<Scope>, name: string, symbol: Option<Symbol>, value: Option<Expression>): Result<Unit, SemanticError>
  {
    if symbol.Some? && symbol.value.FunctionSymbol? then
      if value.None? then Fail(FunctionEmptyGive, "Function '" + name + "' must give a value")
      else VisitExpression(chain, value.value)
    else if symbol.Some? && symbol.value.ProcedureSymbol? then
      if value.Some? then Fail(ProcedureGivingValue, "Procedure '" + name + "' cannot give a value")
      else Success(())
    else Fail(WrongSymbolType, "Give statement in invalid context: " + name)
  }

  /** Some scope of the chain, however far out, is a while block. */
  predicate InsideWhile(chain: seq<Scope>)
  {
    exists i | 0 <= i < |chain| :: chain[i].scopeType == WhileBlock
  }

  /** `analyze`: the program's block in the global scope. */
  function Analyze(program: Program): (r: Result<seq<Scope>, SemanticError>)
    ensures r.Success? ==> |r.value| == 1 && r.value[0].name == "global" && r.value[0].scopeType == ProgramScope
    ensures r.Success? ==> r.value[0].level == 1 && {"number", "string", "boolean"} <= r.value[0].symbols.Keys
  {
    BuiltInScope(1);
    VisitBlock(GlobalChain(), program.block)
  }
}
