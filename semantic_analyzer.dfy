/**
 * The semantic analyzer as an object: it keeps a reference to the current
 * scope object, creates a child scope object on entering a block and moves
 * back to the enclosing one on leaving it, and defines symbols in the
 * current scope. Every visit is proved against the function of the same
 * name over the scope chain (module Semantics): its outcome is that
 * function's outcome, and when it passes, the analyzer is back in the scope
 * it started in, whose chain is the one the function computes.
 */
module SemanticAnalysis {
  import opened Wrappers
  import opened Ast
  import opened SymbolTable
  import Semantics
  import Text

  type SemanticError = Semantics.SemanticError

  /** A visit and its specification agree: both pass, or both fail with the same error. */
  predicate SameOutcome<T, U>(r: Result<T, SemanticError>, x: Result<U, SemanticError>)
  {
    r.Success? == x.Success? && (r.Failure? ==> r.error == x.error)
  }

  /** `SemanticAnalyzer().analyze(tree)` on a program tree. */
  method AnalyzeProgram(program: Program) returns (r: Result<Semantics.Unit, SemanticError>)
    ensures SameOutcome(r, Semantics.Analyze(program))
  {
    var analyzer := new SemanticAnalyzer();
    r := analyzer.Analyze(program);
  }

  /** A scope not of the given types extends, one step outwards, a run of such scopes. */
  lemma NoneOfTypeBelow(chain: seq<Scope>, types: set<ScopeType>, n: nat)
    requires 0 < n <= |chain| && chain[n - 1].scopeType !in types
    requires forall j | n <= j < |chain| :: chain[j].scopeType !in types
    ensures forall j | n - 1 <= j < |chain| :: chain[j].scopeType !in types
  {
  }

  /** What the walk for `{FunctionScope, ProcedureScope}` finds is the search of the specification. */
  lemma SubroutineFound(chain: seq<Scope>, n: nat)
    requires 0 < n <= |chain| && chain[n - 1].scopeType in {FunctionScope, ProcedureScope}
    requires forall j | n <= j < |chain| :: chain[j].scopeType !in {FunctionScope, ProcedureScope}
    ensures Semantics.NearestSubroutine(chain) == Some(n - 1)
  {
    Semantics.NearestSubroutineAt(chain, n - 1);
  }

  /** A walk for `{FunctionScope, ProcedureScope}` that finds nothing agrees with the search of the specification. */
  lemma NoSubroutineFound(chain: seq<Scope>)
    requires forall j | 0 <= j < |chain| :: chain[j].scopeType !in {FunctionScope, ProcedureScope}
    ensures Semantics.NearestSubroutine(chain).None?
  {
  }

  /** The walk for `{WhileBlock}` finds a scope exactly when the chain holds a while block. */
  lemma WhileFound(chain: seq<Scope>, found: bool, n: nat)
    requires found ==> 0 < n <= |chain| && chain[n - 1].scopeType in {WhileBlock}
    requires !found ==> forall j | 0 <= j < |chain| :: chain[j].scopeType !in {WhileBlock}
    ensures Semantics.InsideWhile(chain) == found
  {
    if found {
      assert chain[n - 1].scopeType == WhileBlock;
    }
  }

  /** The statements whose visit is about blocks and loops. */
  predicate IsControlStatement(s: Statement)
  {
    s.NodeIfStatement? || s.NodeWhileStatement? || s.NodeSkipStatement? || s.NodeStopStatement?
  }

  class SemanticAnalyzer {
    var currentScope: ScopedSymbolTable

    ghost predicate Valid()
      reads this
    {
      currentScope.Valid()
    }

    /** The scope chain the analyzer is in, outermost first. */
    ghost function Chain(): (c: seq<Scope>)
      requires Valid()
      reads this, currentScope.Repr
      ensures |c| > 0
    {
      currentScope.Chain()
    }

    /** The analyzer starts in the level-1 program scope "global". */
    constructor ()
      ensures Valid() && fresh(currentScope)
      ensures Chain() == Semantics.GlobalChain()
    {
      currentScope := new ScopedSymbolTable("global", ProgramScope, 1, null);
    }

    /** `analyze`: the program's block, from the current scope. */
    method Analyze(program: Program) returns (r: Result<Semantics.Unit, SemanticError>)
      requires Valid()
      modifies this, currentScope
      ensures SameOutcome(r, Semantics.VisitBlock(old(Chain()), program.block))
      ensures r.Success? ==> currentScope == old(currentScope) && Valid() && Chain() == Semantics.VisitBlock(old(Chain()), program.block).value
    {
      r := VisitBlock(program.block);
    }

    // -------------------------------------------------------------------------
    // Scopes
    // -------------------------------------------------------------------------

    /** `_enter_scope`: a child of the current scope, one level deeper, with the parameters defined in it, becomes current. */
    method EnterScope(name: string, scopeType: ScopeType, parameters: seq<Symbol>)
      requires Valid()
      modifies this
      ensures Valid() && fresh(currentScope) && currentScope.enclosingScope == old(currentScope)
      ensures Chain() == Semantics.Enter(old(Chain()), name, scopeType, parameters)
    {
      ghost var before := Chain();
      var level := currentScope.level + 1;
      var scope := new ScopedSymbolTable(name, scopeType, level, currentScope);
      DefineParameters(scope, parameters);
      assert currentScope.Chain() == before;
      var own := Scope(name, scopeType, level, DefineAll(InitialSymbols(level), parameters));
      assert scope.Chain() == before + [own];
      assert Semantics.Enter(before, name, scopeType, parameters) == before + [own];
      currentScope := scope;
    }

    /** The loop of `_enter_scope` that defines each parameter, in order, in the new scope. */
    method DefineParameters(scope: ScopedSymbolTable, parameters: seq<Symbol>)
      requires scope.Valid()
      modifies scope
      ensures scope.symbols == DefineAll(old(scope.symbols), parameters)
    {
      for i := 0 to |parameters|
        invariant DefineAll(scope.symbols, parameters[i..]) == DefineAll(old(scope.symbols), parameters)
      {
        assert parameters[i..][1..] == parameters[i + 1..];
        scope.Define(parameters[i]);
      }
      assert parameters[|parameters|..] == [];
    }

    /** `_exit_scope`: the enclosing scope becomes current; the outermost scope is never left. */
    method ExitScope()
      requires Valid()
      modifies this
      ensures Valid() && Chain() == Semantics.Exit(old(Chain()))
      ensures currentScope == if old(currentScope.enclosingScope) == null then old(currentScope) else old(currentScope.enclosingScope)
    {
      if currentScope.enclosingScope != null {
        currentScope.EnclosingChain();
        currentScope := currentScope.enclosingScope;
      }
    }

    /** A block in a child scope: enter, visit, and on success leave again. */
    method VisitNestedBlock(name: string, scopeType: ScopeType, parameters: seq<Symbol>, b: Block) returns (r: Result<Semantics.Unit, SemanticError>)
      requires Valid()
      modifies this, currentScope
      ensures SameOutcome(r, Semantics.VisitNested(old(Chain()), name, scopeType, parameters, b))
      ensures r.Success? ==> currentScope == old(currentScope) && Valid() && Chain() == old(Chain())
      decreases b, 3
    {
      ghost var before := Chain();
      EnterScope(name, scopeType, parameters);
      ghost var inner := currentScope;
      r := VisitBlock(b);
      if r.Success? {
        assert currentScope == inner && inner.enclosingScope == old(currentScope);
        ExitScope();
        assert Chain()[..|Chain()|] == before;
      }
    }

    // -------------------------------------------------------------------------
    // Blocks and statements
    // -------------------------------------------------------------------------

    /** `visit_NodeBlock`: each statement in order, stopping at the first error. */
    method VisitBlock(b: Block) returns (r: Result<Semantics.Unit, SemanticError>)
      requires Valid()
      modifies this, currentScope
      ensures SameOutcome(r, Semantics.VisitBlock(old(Chain()), b))
      ensures r.Success? ==> currentScope == old(currentScope) && Valid() && Chain() == Semantics.VisitBlock(old(Chain()), b).value
      decreases b, 2
    {
      match b.statements
      case NoStatements => r := Success(());
      case Statements(items) => r := VisitStatements(items);
    }

    method VisitStatements(items: seq<Statement>) returns (r: Result<Semantics.Unit, SemanticError>)
      requires Valid()
      modifies this, currentScope
      ensures SameOutcome(r, Semantics.VisitStatements(old(Chain()), items, 0))
      ensures r.Success? ==> currentScope == old(currentScope) && Valid() && Chain() == Semantics.VisitStatements(old(Chain()), items, 0).value
      decreases items, 2
    {
      ghost var before := Chain();
      var i := 0;
      while i < |items|
        invariant 0 <= i <= |items|
        invariant currentScope == old(currentScope) && Valid()
        invariant Semantics.VisitStatements(before, items, 0) == Semantics.VisitStatements(Chain(), items, i)
      {
        ghost var mid := Chain();
        r := VisitStatement(items[i]);
        if r.Failure? {
          return;
        }
        assert Chain() == Semantics.VisitStatement(mid, items[i]).value;
        i := i + 1;
      }
      r := Success(());
    }

    /** `visit(statement)`: the visit of the statement's node class. */
    method VisitStatement(s: Statement) returns (r: Result<Semantics.Unit, SemanticError>)
      requires Valid()
      modifies this, currentScope
      ensures SameOutcome(r, Semantics.VisitStatement(old(Chain()), s))
      ensures r.Success? ==> currentScope == old(currentScope) && Valid() && Chain() == Semantics.VisitStatement(old(Chain()), s).value
      decreases s, 6
    {
      if IsControlStatement(s) {
        r := VisitControlStatement(s);
      } else {
        r := VisitSimpleStatement(s);
      }
    }

    /** The visits of the statements that hold no block. */
    method VisitSimpleStatement(s: Statement) returns (r: Result<Semantics.Unit, SemanticError>)
      requires Valid() && !IsControlStatement(s)
      modifies this, currentScope
      ensures SameOutcome(r, Semantics.VisitStatement(old(Chain()), s))
      ensures r.Success? ==> currentScope == old(currentScope) && Valid() && Chain() == Semantics.VisitStatement(old(Chain()), s).value
      decreases s, 5
    {
      ghost var before := Chain();
      ghost var spec := Semantics.VisitStatement(before, s);
      match s
      case NodeVariableDeclaration(varType, identifiers, initializers) =>
        assert spec == Semantics.DeclareVariables(before, varType.name, identifiers, initializers, 0);
        r := VisitVariableDeclaration(s);
      case NodeConstantDeclaration(constType, identifiers, expressions) =>
        assert spec == Semantics.DeclareConstants(before, constType.name, identifiers, expressions, 0);
        r := VisitConstantDeclaration(s);
      case NodeFunctionDeclaration(_, _, _, _) =>
        assert spec == Semantics.VisitSubroutineDeclaration(before, s);
        r := VisitSubroutineDeclaration(s);
      case NodeProcedureDeclaration(_, _, _) =>
        assert spec == Semantics.VisitSubroutineDeclaration(before, s);
        r := VisitSubroutineDeclaration(s);
      case NodeAssignmentStatement(identifier, expression) =>
        assert spec == Semantics.VisitAssignment(before, identifier, expression);
        r := VisitAssignmentStatement(s);
      case NodeProcedureCall(identifier, arguments) =>
        assert spec == Semantics.VisitProcedureCall(before, identifier, arguments);
        r := VisitProcedureCall(s);
      case NodeGiveStatement(value) =>
        ghost var give := Semantics.VisitGive(before, value);
        assert spec == if give.Success? then Success(before) else Failure(give.error);
        r := VisitGiveStatement(value);
      case NodeShowStatement(e) =>
        ghost var show := Semantics.VisitExpression(before, e);
        assert spec == if show.Success? then Success(before) else Failure(show.error);
        r := VisitExpression(e);
    }

    /** The visits of the if and while statements and of skip and stop. */
    method VisitControlStatement(s: Statement) returns (r: Result<Semantics.Unit, SemanticError>)
      requires Valid() && IsControlStatement(s)
      modifies this, currentScope
      ensures SameOutcome(r, Semantics.VisitStatement(old(Chain()), s))
      ensures r.Success? ==> currentScope == old(currentScope) && Valid() && Chain() == Semantics.VisitStatement(old(Chain()), s).value
      decreases s, 5
    {
      ghost var before := Chain();
      ghost var spec := Semantics.VisitStatement(before, s);
      match s
      case NodeIfStatement(_, _, _, _) =>
        assert spec == Semantics.VisitIf(before, s);
        r := VisitIfStatement(s);
      case NodeWhileStatement(_, _) =>
        assert spec == Semantics.VisitWhile(before, s);
        r := VisitWhileStatement(s);
      case NodeSkipStatement =>
        assert spec == Semantics.VisitLoopControl(before, s);
        r := VisitLoopControl(s);
      case NodeStopStatement =>
        assert spec == Semantics.VisitLoopControl(before, s);
        r := VisitLoopControl(s);
    }

    /** `visit_NodeVariableDeclaration`: the identifiers in order, stopping at the first error. */
    method VisitVariableDeclaration(s: Statement) returns (r: Result<Semantics.Unit, SemanticError>)
      requires Valid() && s.NodeVariableDeclaration?
      modifies currentScope
      ensures SameOutcome(r, Semantics.DeclareVariables(old(Chain()), s.varType.name, s.identifiers, s.initializers, 0))
      ensures r.Success? ==> Valid() && Chain() == Semantics.DeclareVariables(old(Chain()), s.varType.name, s.identifiers, s.initializers, 0).value
    {
      var identifiers, typeName, initializers := s.identifiers, s.varType.name, s.initializers;
      ghost var before := Chain();
      var i := 0;
      while i < |identifiers|
        invariant 0 <= i <= |identifiers|
        invariant Semantics.DeclareVariables(before, typeName, identifiers, initializers, 0)
          == Semantics.DeclareVariables(Chain(), typeName, identifiers, initializers, i)
      {
        var initializer := if initializers.Expressions? && i < |initializers.items| then Some(initializers.items[i]) else None;
        assert initializer == Semantics.Initializer(initializers, i);
        ghost var mid := Chain();
        r := DeclareVariable(identifiers[i], typeName, initializer);
        if r.Failure? {
          return;
        }
        assert Chain() == Semantics.DeclareVariable(mid, identifiers[i], typeName, initializer).value;
        i := i + 1;
      }
      r := Success(());
    }

    /** One identifier of a variable declaration: new to the current scope, defined, then its initializer visited. */
    method DeclareVariable(name: string, typeName: string, initializer: Option<Expression>) returns (r: Result<Semantics.Unit, SemanticError>)
      requires Valid()
      modifies currentScope
      ensures SameOutcome(r, Semantics.DeclareVariable(old(Chain()), name, typeName, initializer))
      ensures r.Success? ==> Chain() == Semantics.DeclareVariable(old(Chain()), name, typeName, initializer).value
    {
      if currentScope.Lookup(name, true).Some? {
        return Failure(Semantics.SemanticError(Semantics.DuplicateIdentifier, "Variable '" + name + "' already declared in this scope"));
      }
      currentScope.Define(VariableSymbol(name, typeName));
      r := Success(());
      if initializer.Some? {
        r := VisitExpression(initializer.value);
      }
    }

    /** `visit_NodeConstantDeclaration`: as for variables, and every name needs its expression. */
    method VisitConstantDeclaration(s: Statement) returns (r: Result<Semantics.Unit, SemanticError>)
      requires Valid() && s.NodeConstantDeclaration?
      modifies currentScope
      ensures SameOutcome(r, Semantics.DeclareConstants(old(Chain()), s.constType.name, s.identifiers, s.expressions, 0))
      ensures r.Success? ==> Valid() && Chain() == Semantics.DeclareConstants(old(Chain()), s.constType.name, s.identifiers, s.expressions, 0).value
    {
      var identifiers, typeName, expressions := s.identifiers, s.constType.name, s.expressions;
      ghost var before := Chain();
      var i := 0;
      while i < |identifiers|
        invariant 0 <= i <= |identifiers|
        invariant Semantics.DeclareConstants(before, typeName, identifiers, expressions, 0)
          == Semantics.DeclareConstants(Chain(), typeName, identifiers, expressions, i)
      {
        ghost var mid := Chain();
        r := DeclareConstant(identifiers[i], typeName, expressions, i);
        if r.Failure? {
          return;
        }
        assert Chain() == Semantics.DeclareConstant(mid, identifiers[i], typeName, expressions, i).value;
        i := i + 1;
      }
      r := Success(());
    }

    /** The `i`-th identifier of a constant declaration; indexing past the expressions fails. */
    method DeclareConstant(name: string, typeName: string, expressions: seq<Expression>, i: nat) returns (r: Result<Semantics.Unit, SemanticError>)
      requires Valid()
      modifies currentScope
      ensures SameOutcome(r, Semantics.DeclareConstant(old(Chain()), name, typeName, expressions, i))
      ensures r.Success? ==> Chain() == Semantics.DeclareConstant(old(Chain()), name, typeName, expressions, i).value
    {
      if currentScope.Lookup(name, true).Some? {
        return Failure(Semantics.SemanticError(Semantics.DuplicateIdentifier, "Constant '" + name + "' already declared in this scope"));
      }
      currentScope.Define(ConstantSymbol(name, typeName));
      if i >= |expressions| {
        return Failure(Semantics.MissingExpression(i));
      }
      r := VisitExpression(expressions[i]);
    }

    /**
     * `visit_NodeFunctionDeclaration` and `visit_NodeProcedureDeclaration`:
     * the name must be new to the current scope; the symbol is defined there
     * before the body is visited in a scope holding the parameters.
     */
    method VisitSubroutineDeclaration(s: Statement) returns (r: Result<Semantics.Unit, SemanticError>)
      requires Valid() && (s.NodeFunctionDeclaration? || s.NodeProcedureDeclaration?)
      modifies this, currentScope
      ensures SameOutcome(r, Semantics.VisitSubroutineDeclaration(old(Chain()), s))
      ensures r.Success? ==> currentScope == old(currentScope) && Valid() && Chain() == Semantics.VisitSubroutineDeclaration(old(Chain()), s).value
      decreases s, 4
    {
      var name := s.identifier;
      if currentScope.Lookup(name, true).Some? {
        var kind := if s.NodeFunctionDeclaration? then "Function '" else "Procedure '";
        return Failure(Semantics.SemanticError(Semantics.DuplicateIdentifier, kind + name + "' already declared in this scope"));
      }
      var parameters := Semantics.ParameterSymbols(s.parameters);
      var stored := Semantics.StoredParameters(parameters);
      if s.NodeFunctionDeclaration? {
        currentScope.Define(FunctionSymbol(name, stored, s.giveType.name, s.block));
        r := VisitNestedBlock(name, FunctionScope, parameters, s.block);
      } else {
        currentScope.Define(ProcedureSymbol(name, stored, s.block));
        r := VisitNestedBlock(name, ProcedureScope, parameters, s.block);
      }
    }

    /** `visit_NodeAssignmentStatement`: the name must resolve to a variable; then the expression is visited. */
    method VisitAssignmentStatement(s: Statement) returns (r: Result<Semantics.Unit, SemanticError>)
      requires Valid() && s.NodeAssignmentStatement?
      ensures SameOutcome(r, Semantics.VisitAssignment(Chain(), s.identifier, s.expression))
    {
      var identifier := s.identifier;
      var symbol := currentScope.Lookup(identifier, false);
      if symbol.None? {
        return Failure(Semantics.SemanticError(Semantics.UndeclaredIdentifier, "Undeclared variable '" + identifier + "'"));
      }
      if symbol.value.ConstantSymbol? {
        return Failure(Semantics.SemanticError(Semantics.AssignmentToConstant, "Cannot assign to constant '" + identifier + "'"));
      }
      if !symbol.value.VariableSymbol? {
        return Failure(Semantics.SemanticError(Semantics.WrongSymbolType, "'" + identifier + "' is not a variable"));
      }
      r := VisitExpression(s.expression);
    }

    /** `visit_NodeProcedureCall`: the name must resolve to a procedure taking as many arguments as are given. */
    method VisitProcedureCall(s: Statement) returns (r: Result<Semantics.Unit, SemanticError>)
      requires Valid() && s.NodeProcedureCall?
      ensures SameOutcome(r, Semantics.VisitProcedureCall(Chain(), s.identifier, s.arguments))
    {
      var identifier := s.identifier;
      var symbol := currentScope.Lookup(identifier, false);
      if symbol.None? {
        return Failure(Semantics.SemanticError(Semantics.UndeclaredIdentifier, "Undeclared procedure '" + identifier + "'"));
      }
      if !symbol.value.ProcedureSymbol? {
        return Failure(Semantics.SemanticError(Semantics.WrongSymbolType, "'" + identifier + "' is not a procedure"));
      }
      r := CheckArguments(identifier, symbol.value.parameters, s.arguments);
    }

    /**
     * The walk `visit_NodeGiveStatement` and the skip and stop visits make:
     * from the current scope outwards along the enclosing scopes, up to the
     * first scope whose type is one of `types`; null past the outermost one.
     * The scope found is the `n`-th of the chain, counting from 1.
     */
    method InnermostOfType(types: set<ScopeType>) returns (scope: ScopedSymbolTable?, ghost n: nat)
      requires Valid()
      ensures scope == null ==> forall j | 0 <= j < |Chain()| :: Chain()[j].scopeType !in types
      ensures scope != null ==>
        && 0 < n <= |Chain()| && scope.Valid() && scope.Chain() == Chain()[..n]
        && scope.scopeType == Chain()[n - 1].scopeType && scope.scopeType in types
        && scope.name == Chain()[n - 1].name
        && forall j | n <= j < |Chain()| :: Chain()[j].scopeType !in types
    {
      ghost var chain := Chain();
      scope := currentScope;
      n := |chain|;
      while scope != null && scope.scopeType !in types
        invariant 0 <= n <= |chain|
        invariant scope == null ==> n == 0
        invariant scope != null ==> scope.Valid() && n > 0 && scope.Chain() == chain[..n]
        invariant forall j | n <= j < |chain| :: chain[j].scopeType !in types
        decreases n
      {
        scope.ChainStep(chain, n);
        NoneOfTypeBelow(chain, types, n);
        scope := scope.enclosingScope;
        n := n - 1;
      }
      if scope != null {
        scope.ChainStep(chain, n);
      }
    }

    /**
     * `visit_NodeGiveStatement`: the nearest function or procedure scope, and
     * the symbol its name has in the scope around it, decide the give.
     */
    method VisitGiveStatement(value: Option<Expression>) returns (r: Result<Semantics.Unit, SemanticError>)
      requires Valid()
      ensures r == Semantics.VisitGive(Chain(), value)
    {
      var scope;
      ghost var n;
      scope, n := InnermostOfType({FunctionScope, ProcedureScope});
      ghost var chain := Chain();
      if scope == null {
        NoSubroutineFound(chain);
        return Failure(Semantics.SemanticError(Semantics.WrongSymbolType, "Give statement outside of function or procedure"));
      }
      SubroutineFound(chain, n);
      if scope.enclosingScope == null {
        return Failure(Semantics.SemanticError(Semantics.WrongSymbolType, "Invalid scope structure"));
      }
      scope.ChainStep(chain, n);
      var symbol := scope.enclosingScope.Lookup(scope.name, false);
      assert scope.name == chain[n - 1].name && symbol == LookupChain(chain[..n - 1], scope.name);
      assert Semantics.VisitGive(chain, value) == Semantics.GiveBySymbol(chain, scope.name, symbol, value);
      if symbol.Some? && symbol.value.FunctionSymbol? {
        if value.None? {
          return Failure(Semantics.SemanticError(Semantics.FunctionEmptyGive, "Function '" + scope.name + "' must give a value"));
        }
        r := VisitExpression(value.value);
      } else if symbol.Some? && symbol.value.ProcedureSymbol? {
        if value.Some? {
          return Failure(Semantics.SemanticError(Semantics.ProcedureGivingValue, "Procedure '" + scope.name + "' cannot give a value"));
        }
        r := Success(());
      } else {
        r := Failure(Semantics.SemanticError(Semantics.WrongSymbolType, "Give statement in invalid context: " + scope.name));
      }
    }

    /** `visit_NodeSkipStatement` and `visit_NodeStopStatement`: some scope on the way out must be a while block. */
    method VisitLoopControl(s: Statement) returns (r: Result<Semantics.Unit, SemanticError>)
      requires Valid() && (s.NodeSkipStatement? || s.NodeStopStatement?)
      ensures SameOutcome(r, Semantics.VisitLoopControl(Chain(), s))
    {
      var scope;
      ghost var n;
      scope, n := InnermostOfType({WhileBlock});
      WhileFound(Chain(), scope != null, n);
      if scope != null {
        r := Success(());
      } else if s.NodeSkipStatement? {
        r := Failure(Semantics.SemanticError(Semantics.SkipStatementOutsideWhile, "skip statements can only be used inside while blocks"));
      } else {
        r := Failure(Semantics.SemanticError(Semantics.StopStatementOutsideWhile, "stop statements can only be used inside while blocks"));
      }
    }

    /** `visit_NodeIfStatement`: the condition, the block in an if scope, each elif, then the else branch if there is one. */
    method VisitIfStatement(s: Statement) returns (r: Result<Semantics.Unit, SemanticError>)
      requires Valid() && s.NodeIfStatement?
      modifies this, currentScope
      ensures SameOutcome(r, Semantics.VisitIf(old(Chain()), s))
      ensures r.Success? ==> currentScope == old(currentScope) && Valid() && Chain() == old(Chain())
      decreases s, 4
    {
      r := VisitExpression(s.condition);
      if r.Failure? {
        return;
      }
      r := VisitNestedBlock("if_statement_" + Text.IntToString(currentScope.level), IfBlock, [], s.block);
      if r.Failure? {
        return;
      }
      match s.elifs {
        case NoElifs =>
        case Elifs(items) =>
          r := VisitElifs(items);
          if r.Failure? {
            return;
          }
      }
      match s.elseBranch {
        case NoElse => r := Success(());
        case SomeElse(e) => r := VisitElse(e);
      }
    }

    method VisitElifs(elifs: seq<Elif>) returns (r: Result<Semantics.Unit, SemanticError>)
      requires Valid()
      modifies this, currentScope
      ensures SameOutcome(r, Semantics.VisitElifs(old(Chain()), elifs, 0))
      ensures r.Success? ==> currentScope == old(currentScope) && Valid() && Chain() == old(Chain())
      decreases elifs, 4
    {
      ghost var before := Chain();
      var k := 0;
      while k < |elifs|
        invariant 0 <= k <= |elifs|
        invariant currentScope == old(currentScope) && Valid() && Chain() == before
        invariant Semantics.VisitElifs(before, elifs, 0) == Semantics.VisitElifs(before, elifs, k)
      {
        r := VisitElif(elifs[k]);
        if r.Failure? {
          return;
        }
        k := k + 1;
      }
      r := Success(());
    }

    /** `visit_NodeElif`: the condition, then the block in an elif scope. */
    method VisitElif(e: Elif) returns (r: Result<Semantics.Unit, SemanticError>)
      requires Valid()
      modifies this, currentScope
      ensures SameOutcome(r, Semantics.VisitElif(old(Chain()), e))
      ensures r.Success? ==> currentScope == old(currentScope) && Valid() && Chain() == old(Chain())
      decreases e, 4
    {
      r := VisitExpression(e.condition);
      if r.Failure? {
        return;
      }
      r := VisitNestedBlock("elif_statement_" + Text.IntToString(currentScope.level), ElifBlock, [], e.block);
    }

    /** `visit_NodeElse`: the block in an else scope. */
    method VisitElse(e: Else) returns (r: Result<Semantics.Unit, SemanticError>)
      requires Valid()
      modifies this, currentScope
      ensures SameOutcome(r, Semantics.VisitElse(old(Chain()), e))
      ensures r.Success? ==> currentScope == old(currentScope) && Valid() && Chain() == old(Chain())
      decreases e, 4
    {
      r := VisitNestedBlock("else_statement_" + Text.IntToString(currentScope.level), ElseBlock, [], e.block);
    }

    /** `visit_NodeWhileStatement`: the condition, then the block in a while scope. */
    method VisitWhileStatement(s: Statement) returns (r: Result<Semantics.Unit, SemanticError>)
      requires Valid() && s.NodeWhileStatement?
      modifies this, currentScope
      ensures SameOutcome(r, Semantics.VisitWhile(old(Chain()), s))
      ensures r.Success? ==> currentScope == old(currentScope) && Valid() && Chain() == old(Chain())
      decreases s, 4
    {
      r := VisitExpression(s.condition);
      if r.Failure? {
        return;
      }
      r := VisitNestedBlock("while_statement_" + Text.IntToString(currentScope.level), WhileBlock, [], s.block);
    }

    // -------------------------------------------------------------------------
    // Expressions: they only look names up
    // -------------------------------------------------------------------------

    /** `visit(expression)`: every identifier and call in it must resolve; nothing changes. */
    method VisitExpression(e: Expression) returns (r: Result<Semantics.Unit, SemanticError>)
      requires Valid()
      ensures r == Semantics.VisitExpression(Chain(), e)
      decreases e
    {
      match e
      case NodeIdentifier(name) =>
        if currentScope.Lookup(name, false).None? {
          return Failure(Semantics.SemanticError(Semantics.UndeclaredIdentifier, "Undeclared identifier '" + name + "'"));
        }
        r := Success(());
      case NodeFunctionCall(identifier, arguments) =>
        var symbol := currentScope.Lookup(identifier, false);
        if symbol.None? {
          return Failure(Semantics.SemanticError(Semantics.UndeclaredIdentifier, "Undeclared function '" + identifier + "'"));
        }
        if !symbol.value.FunctionSymbol? {
          return Failure(Semantics.SemanticError(Semantics.WrongSymbolType, "'" + identifier + "' is not a function"));
        }
        r := CheckArguments(identifier, symbol.value.parameters, arguments);
      case NodeBinaryArithmeticOperation(left, _, right) =>
        r := VisitExpression(left);
        if r.Success? {
          r := VisitExpression(right);
        }
      case NodeUnaryArithmeticOperation(_, operand) => r := VisitExpression(operand);
      case NodeArithmeticExpressionAsBoolean(expression) => r := VisitExpression(expression);
      case NodeBinaryBooleanOperation(left, _, right) =>
        r := VisitExpression(left);
        if r.Success? {
          r := VisitExpression(right);
        }
      case NodeUnaryBooleanOperation(_, operand) => r := VisitExpression(operand);
      case NodeComparisonExpression(left, _, right) =>
        r := VisitExpression(left);
        if r.Success? {
          r := VisitExpression(right);
        }
      case NodeNumberLiteral(_) => r := Success(());
      case NodeStringLiteral(_) => r := Success(());
      case NodeBooleanLiteral(_) => r := Success(());
    }

    /** The argument count must equal the parameter count, an absent list counting as 0; then each argument is visited. */
    method CheckArguments(identifier: string, parameters: Option<seq<Symbol>>, arguments: ExpressionList) returns (r: Result<Semantics.Unit, SemanticError>)
      requires Valid()
      ensures r == Semantics.CheckArguments(Chain(), identifier, parameters, arguments)
      decreases arguments
    {
      var expected := if parameters.Some? then |parameters.value| else 0;
      var actual := if arguments.Expressions? then |arguments.items| else 0;
      if expected != actual {
        return Failure(Semantics.SemanticError(Semantics.WrongNumberOfArguments,
          "'" + identifier + "' expects " + Text.IntToString(expected) + " arguments, got " + Text.IntToString(actual)));
      }
      match arguments
      case NoExpressions => r := Success(());
      case Expressions(items) => r := VisitArguments(items);
    }

    method VisitArguments(es: seq<Expression>) returns (r: Result<Semantics.Unit, SemanticError>)
      requires Valid()
      ensures r == Semantics.VisitExpressions(Chain(), es, 0)
      decreases es
    {
      ghost var chain := Chain();
      var k := 0;
      while k < |es|
        invariant 0 <= k <= |es|
        invariant Semantics.VisitExpressions(chain, es, 0) == Semantics.VisitExpressions(chain, es, k)
      {
        r := VisitExpression(es[k]);
        if r.Failure? {
          assert Semantics.VisitExpressions(chain, es, k) == r;
          return;
        }
        k := k + 1;
      }
      r := Success(());
    }
  }
}
