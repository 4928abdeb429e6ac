/**
 * The interpreter as an object: a call stack of activation-record objects,
 * the dictionaries of declared functions and procedures, and the printed
 * lines. Every visit is proved against the function of the same name in
 * module Interpretation: what it reports (a value, a raised signal or a
 * failure) is that function's outcome, and the state it leaves is the
 * state that function reaches.
 */
module Interpreting {
  import opened Wrappers
  import opened Ast
  import opened SymbolTable
  import opened CallStacks
  import opened Interpretation
  import Semantics

  /** What a visit reports; the state it reached is in the interpreter object. */
  datatype Status<T> = Ok(value: T) | Raised(signal: Signal) | Stopped(fault: Fault)

  function StatusOf<T>(o: Outcome<T>): Status<T>
  {
    match o
    case Done(_, v) => Ok(v)
    case Escaped(_, g) => Raised(g)
    case Failed(_, f) => Stopped(f)
  }

  function Propagate<T, U>(s: Status<T>): Status<U>
    requires !s.Ok?
  {
    if s.Raised? then Raised(s.signal) else Stopped(s.fault)
  }

  function StatusOfResult<T>(r: Result<T, Fault>): Status<T>
  {
    match r
    case Success(v) => Ok(v)
    case Failure(f) => Stopped(f)
  }

  /** A visit reported `o`'s outcome and left the state `o` carries. */
  predicate Reports<T(==)>(r: Status<T>, o: Outcome<T>, now: State)
  {
    r == StatusOf(o) && now == o.state
  }

  /** `a` is a prefix of `b`: the records below were neither popped nor replaced. */
  ghost predicate Extends(a: seq<ActivationRecord>, b: seq<ActivationRecord>)
  {
    |a| <= |b| && forall k | 0 <= k < |a| :: b[k] == a[k]
  }

  /** A call once its arguments are evaluated: the caller's frame is the current one, and the symbol must be a routine. */
  ghost function Entry(st: State, symbol: Option<Symbol>, recordType: RecordType, values: seq<Value>, fuel: nat): Outcome<Flow>
  {
    var (_, caller) :- Current(st);
    if symbol.None? || !IsRoutine(symbol.value) then Failed(st, Crash("AttributeError"))
    else if fuel == 0 then Failed(st, OutOfFuel)
    else Activation(st, CalleeFrame(caller, symbol.value, recordType, values), symbol.value.block, fuel - 1)
  }

  /** The second half of an assignment: the value is bound in the current frame. */
  ghost function Assigned(st: State, name: string, v: Value): Outcome<Flow>
  {
    var (_, _) :- Current(st);
    Done(Bind(st, |st.stack| - 1, name, v), Next)
  }

  /** An assignment evaluates its expression and then binds the value. */
  lemma AssignmentSteps(st: State, s: Statement, fuel: nat)
    requires s.NodeAssignmentStatement?
    ensures var o := Interpretation.Eval(st, s.expression, fuel);
      Interpretation.ExecAssignment(st, s, fuel) ==
        if o.Done? then Assigned(o.state, s.identifier, o.value) else o.PropagateFailure()
  {
  }

  /** A call evaluates its arguments and then enters the routine. */
  lemma InvokeSteps(st: State, symbol: Option<Symbol>, recordType: RecordType, arguments: ExpressionList, fuel: nat)
    ensures var o := Interpretation.EvalArguments(st, arguments, fuel);
      Interpretation.Invoke(st, symbol, recordType, arguments, fuel) ==
        if o.Done? then Entry(o.state, symbol, recordType, o.value, fuel) else o.PropagateFailure()
  {
  }

  /** The value the `i`-th variable of a declaration starts with: its initializer's, or its type's default. */
  ghost function Initializer(st: State, s: Statement, i: nat, fuel: nat): Outcome<Value>
    requires s.NodeVariableDeclaration?
  {
    var initializers := s.initializers;
    if initializers.Expressions? && i < |initializers.items| then Interpretation.Eval(st, initializers.items[i], fuel)
    else Lift(st, DefaultValue(s.varType.name))
  }

  /** One identifier of a variable declaration: its value is computed, then bound in the frame at `at`. */
  lemma DeclareVariablesStep(st: State, at: nat, s: Statement, i: nat, fuel: nat)
    requires s.NodeVariableDeclaration? && i < |s.identifiers| && at < |st.stack|
    ensures var o := Initializer(st, s, i, fuel);
      && at < |o.state.stack|
      && Interpretation.DeclareVariables(st, at, s, i, fuel) ==
        if o.Done? then Interpretation.DeclareVariables(Bind(o.state, at, s.identifiers[i], o.value), at, s, i + 1, fuel)
        else o.PropagateFailure()
  {
  }

  /** One identifier of a constant declaration; its expression must exist. */
  lemma DeclareConstantsStep(st: State, at: nat, s: Statement, i: nat, fuel: nat)
    requires s.NodeConstantDeclaration? && i < |s.identifiers| && i < |s.expressions| && at < |st.stack|
    ensures var o := Interpretation.Eval(st, s.expressions[i], fuel);
      && at < |o.state.stack|
      && Interpretation.DeclareConstants(st, at, s, i, fuel) ==
        if o.Done? then Interpretation.DeclareConstants(Bind(o.state, at, s.identifiers[i], o.value), at, s, i + 1, fuel)
        else o.PropagateFailure()
  {
  }

  /** An if statement evaluates its condition, then runs its block or goes on to the elifs. */
  lemma IfSteps(st: State, s: Statement, fuel: nat)
    requires s.NodeIfStatement?
    ensures var c := Interpretation.EvalBool(st, s.condition, fuel);
      Interpretation.ExecIf(st, s, fuel) ==
        if !c.Done? then c.PropagateFailure()
        else if c.value then Interpretation.ExecBlock(c.state, s.block, fuel)
        else ExecElifs(c.state, s, 0, fuel)
  {
  }

  /** One elif branch: its condition decides between its block and the next branch. */
  lemma ElifStep(st: State, s: Statement, i: nat, fuel: nat)
    requires s.NodeIfStatement? && i < |ElifItems(s.elifs)|
    ensures var c := Interpretation.EvalBool(st, ElifItems(s.elifs)[i].condition, fuel);
      ExecElifs(st, s, i, fuel) ==
        if !c.Done? then c.PropagateFailure()
        else if c.value then Interpretation.ExecBlock(c.state, ElifItems(s.elifs)[i].block, fuel)
        else ExecElifs(c.state, s, i + 1, fuel)
  {
  }

  /** What the loop does once its body has run: a skip or a normal end goes on, a stop ends the loop, a give ends it with the give. */
  ghost function AfterBody(b: Outcome<Flow>, s: Statement, fuel: nat): Outcome<Flow>
    requires s.NodeWhileStatement? && fuel > 0
  {
    if b.Failed? then b
    else if b.Escaped? then (if b.signal == SkipSignal then Interpretation.ExecWhile(b.state, s, fuel - 1) else Done(b.state, Next))
    else if b.value.Gave? then b
    else Interpretation.ExecWhile(b.state, s, fuel - 1)
  }

  /** One iteration of a while loop. */
  lemma WhileStep(st: State, s: Statement, fuel: nat)
    requires s.NodeWhileStatement? && fuel > 0
    ensures var c := Interpretation.EvalBool(st, s.condition, fuel);
      Interpretation.ExecWhile(st, s, fuel) ==
        if c.Failed? then Failed(c.state, c.fault)
        else if c.Escaped? then (if c.signal == SkipSignal then Interpretation.ExecWhile(c.state, s, fuel - 1) else Done(c.state, Next))
        else if !c.value then Done(c.state, Next)
        else AfterBody(Interpretation.ExecBlock(c.state, s.block, fuel), s, fuel)
  {
  }

  /** The push of the callee's frame, the body, and the pop of the frame on top when the body completes. */
  ghost function Activation(st: State, callee: Frame, block: Block, fuel: nat): Outcome<Flow>
  {
    var (st1, flow) :- Interpretation.ExecBlock(st.(stack := PushFrame(st.stack, callee)), block, fuel);
    Done(st1.(stack := st1.stack[..|st1.stack| - 1]), flow)
  }

  /** `Interpreter().interpret(tree)`. */
  method Interpret(p: Program, fuel: nat) returns (r: Status<Flow>, output: seq<string>)
    ensures r == StatusOf(Interpretation.Interpret(p, fuel))
    ensures output == Interpretation.Interpret(p, fuel).state.output
  {
    var interpreter := new Interpreter();
    r := interpreter.VisitProgram(p, fuel);
    output := interpreter.output;
  }

  /** The loop of a call that copies every member of the caller's record into the callee's. */
  method SeedMembers(callee: ActivationRecord, caller: ActivationRecord)
    requires callee != caller && callee.members == map[]
    modifies callee
    ensures callee.members == caller.members
  {
    var keys := caller.members.Keys;
    while keys != {}
      invariant keys <= caller.members.Keys
      invariant callee.members == map k | k in caller.members.Keys - keys :: caller.members[k]
      decreases keys
    {
      var k :| k in keys;
      callee.Set(k, caller.members[k]);
      keys := keys - {k};
    }
  }

  /** The loop over `zip(parameters, arguments)` that binds each parameter in the callee's record. */
  method BindParameters(callee: ActivationRecord, parameters: seq<Symbol>, arguments: seq<Value>)
    modifies callee
    ensures callee.members == BindFrom(old(callee.members), parameters, arguments, 0)
  {
    var n := if |parameters| < |arguments| then |parameters| else |arguments|;
    for i := 0 to n
      invariant BindFrom(callee.members, parameters, arguments, i) == BindFrom(old(callee.members), parameters, arguments, 0)
    {
      callee.Set(parameters[i].identifier, arguments[i]);
    }
  }

  class Interpreter {
    const callStack: CallStack
    var functions: map<string, Symbol>
    var procedures: map<string, Symbol>
    var output: seq<string>
    ghost var Repr: set<object>
    /** Where each record on the stack sits; that there is one position per record keeps the records distinct. */
    ghost var position: map<ActivationRecord, int>

    /** The call stack and every record on it belong to the interpreter, and no record is on the stack twice. */
    ghost predicate Valid()
      reads this, Repr
    {
      && callStack in Repr
      && (forall i | 0 <= i < |callStack.records| ::
            callStack.records[i] in Repr && callStack.records[i] in position && position[callStack.records[i]] == i)
    }

    /** The interpreter as a state of module Interpretation. */
    ghost function Snapshot(): State
      reads this, callStack, callStack.records
    {
      State(callStack.Frames(), functions, procedures, output)
    }

    /** Since the visit began, the interpreter has only gained objects, and the records it had are still at the bottom of the stack. */
    twostate predicate Kept()
      reads this, callStack
    {
      old(Repr) <= Repr && fresh(Repr - old(Repr)) && old(callStack.records) <= callStack.records
    }

    /** A new interpreter: an empty stack, no functions or procedures, nothing printed. */
    constructor ()
      ensures Valid() && fresh(Repr)
      ensures Snapshot() == InitialState()
    {
      callStack := new CallStack();
      functions, procedures, output := map[], map[], [];
      Repr := {callStack};
      position := map[];
    }

    /** `current_activation_record[name] = value` on the record at position `at`. */
    method Store(ghost at: nat, record: ActivationRecord, name: string, value: Value)
      requires Valid() && at < |callStack.records| && callStack.records[at] == record
      modifies record
      ensures Valid()
      ensures Snapshot() == Bind(old(Snapshot()), at, name, value)
    {
      ghost var before := callStack.Frames();
      record.Set(name, value);
      assert callStack.Frames() == before[at := record.Value()];
    }

    /** `visit_NodeProgram`. */
    method VisitProgram(p: Program, fuel: nat) returns (r: Status<Flow>)
      requires Valid()
      modifies this, Repr
      ensures Valid() && old(Repr) <= Repr && fresh(Repr - old(Repr))
      ensures Reports(r, RunProgram(old(Snapshot()), p, fuel), Snapshot())
    {
      ghost var before := Snapshot();
      var record := new ActivationRecord("program", ProgramRecord, 1);
      Enter(record);
      r := ExecBlock(p.block, fuel);
      if !r.Ok? {
        return;
      }
      r := Ok(Next);
      Leave();
    }

    // -------------------------------------------------------------------------
    // Expressions
    // -------------------------------------------------------------------------

    /** `visit(expression)`. */
    method Eval(e: Expression, fuel: nat) returns (r: Status<Value>)
      requires Valid()
      modifies this, Repr
      ensures Valid() && Kept()
      ensures Reports(r, Interpretation.Eval(old(Snapshot()), e, fuel), Snapshot())
      decreases fuel, e, 1
    {
      match e
      case NodeIdentifier(_) => r := EvalIdentifier(e, fuel);
      case NodeFunctionCall(name, arguments) => r := CallFunction(name, arguments, fuel);
      case NodeBinaryArithmeticOperation(_, _, _) => r := EvalBinary(e, fuel);
      case NodeUnaryArithmeticOperation(_, _) => r := EvalUnary(e, fuel);
      case NodeNumberLiteral(lexeme) => r := StatusOfResult(NumberLiteral(lexeme));
      case NodeStringLiteral(lexeme) => r := Ok(Str(StringLiteral(lexeme)));
      case NodeArithmeticExpressionAsBoolean(_) => r := EvalAsBoolean(e, fuel);
      case NodeBinaryBooleanOperation(_, _, _) => r := EvalLogical(e, fuel);
      case NodeUnaryBooleanOperation(_, _) => r := EvalNot(e, fuel);
      case NodeComparisonExpression(_, _, _) => r := EvalComparison(e, fuel);
      case NodeBooleanLiteral(lexeme) => r := Ok(Boolean(lexeme == "true"));
    }

    /** `visit_NodeIdentifier`: the name's value in the current record. */
    method EvalIdentifier(e: Expression, fuel: nat) returns (r: Status<Value>)
      requires Valid() && e.NodeIdentifier?
      ensures Reports(r, Interpretation.Eval(Snapshot(), e, fuel), Snapshot())
    {
      var name := e.name;
      var top := callStack.Peek();
      if top.None? {
        return Stopped(Crash("IndexError"));
      }
      var value := top.value.Get(name);
      if value.None? {
        return Stopped(RuntimeError(UndeclaredIdentifier, "Identifier '" + name + "' is not defined."));
      }
      r := Ok(value.value);
    }

    method EvalBinary(e: Expression, fuel: nat) returns (r: Status<Value>)
      requires Valid() && e.NodeBinaryArithmeticOperation?
      modifies this, Repr
      ensures Valid() && Kept()
      ensures Reports(r, Interpretation.Eval(old(Snapshot()), e, fuel), Snapshot())
      decreases fuel, e, 0
    {
      ghost var before := Snapshot();
      var a := Eval(e.left, fuel);
      if !a.Ok? {
        return Propagate(a);
      }
      ghost var mid := Snapshot();
      var b := Eval(e.right, fuel);
      if !b.Ok? {
        return Propagate(b);
      }
      r := StatusOfResult(ApplyBinary(a.value, e.operator, b.value));
    }

    method EvalUnary(e: Expression, fuel: nat) returns (r: Status<Value>)
      requires Valid() && e.NodeUnaryArithmeticOperation?
      modifies this, Repr
      ensures Valid() && Kept()
      ensures Reports(r, Interpretation.Eval(old(Snapshot()), e, fuel), Snapshot())
      decreases fuel, e, 0
    {
      var a := Eval(e.operand, fuel);
      if !a.Ok? {
        return Propagate(a);
      }
      r := StatusOfResult(ApplyUnary(e.operator, a.value));
    }

    method EvalAsBoolean(e: Expression, fuel: nat) returns (r: Status<Value>)
      requires Valid() && e.NodeArithmeticExpressionAsBoolean?
      modifies this, Repr
      ensures Valid() && Kept()
      ensures Reports(r, Interpretation.Eval(old(Snapshot()), e, fuel), Snapshot())
      decreases fuel, e, 0
    {
      var a := Eval(e.expression, fuel);
      if !a.Ok? {
        return Propagate(a);
      }
      r := Ok(Boolean(Truthy(a.value)));
    }

    method EvalNot(e: Expression, fuel: nat) returns (r: Status<Value>)
      requires Valid() && e.NodeUnaryBooleanOperation?
      modifies this, Repr
      ensures Valid() && Kept()
      ensures Reports(r, Interpretation.Eval(old(Snapshot()), e, fuel), Snapshot())
      decreases fuel, e, 0
    {
      var a := EvalBool(e.operand, fuel);
      if !a.Ok? {
        return Propagate(a);
      }
      if e.logicalOperator == "not" {
        r := Ok(Boolean(!a.value));
      } else {
        r := Stopped(RuntimeError(InvalidOperation, "Unknown unary boolean operator '" + e.logicalOperator + "'"));
      }
    }

    method EvalComparison(e: Expression, fuel: nat) returns (r: Status<Value>)
      requires Valid() && e.NodeComparisonExpression?
      modifies this, Repr
      ensures Valid() && Kept()
      ensures Reports(r, Interpretation.Eval(old(Snapshot()), e, fuel), Snapshot())
      decreases fuel, e, 0
    {
      ghost var before := Snapshot();
      var a := Eval(e.left, fuel);
      if !a.Ok? {
        return Propagate(a);
      }
      ghost var mid := Snapshot();
      var b := Eval(e.right, fuel);
      if !b.Ok? {
        return Propagate(b);
      }
      var c := Compare(a.value, e.comparator, b.value);
      r := if c.Success? then Ok(Boolean(c.value)) else Stopped(c.error);
    }

    /** `visit_NodeBinaryBooleanOperation`. */
    method EvalLogical(e: Expression, fuel: nat) returns (r: Status<Value>)
      requires Valid() && e.NodeBinaryBooleanOperation?
      modifies this, Repr
      ensures Valid() && Kept()
      ensures Reports(r, Interpretation.EvalLogical(old(Snapshot()), e, fuel), Snapshot())
      decreases fuel, e, 0
    {
      var op := e.logicalOperator;
      if op != "and" && op != "or" {
        return Stopped(RuntimeError(InvalidOperation, "Unknown boolean operator '" + op + "'"));
      }
      var a := EvalBool(e.left, fuel);
      if !a.Ok? {
        return Propagate(a);
      }
      if (op == "and" && !a.value) || (op == "or" && a.value) {
        return Ok(Boolean(a.value));
      }
      var b := EvalBool(e.right, fuel);
      if !b.Ok? {
        return Propagate(b);
      }
      r := Ok(Boolean(b.value));
    }

    /** `_evaluate_boolean_expression`. */
    method EvalBool(e: Expression, fuel: nat) returns (r: Status<bool>)
      requires Valid()
      modifies this, Repr
      ensures Valid() && Kept()
      ensures Reports(r, Interpretation.EvalBool(old(Snapshot()), e, fuel), Snapshot())
      decreases fuel, e, 2
    {
      var v := Eval(e, fuel);
      if !v.Ok? {
        return Propagate(v);
      }
      if v.value.Boolean? {
        r := Ok(v.value.b);
      } else {
        r := Stopped(RuntimeError(InvalidOperation, "Expected boolean expression, got " + TypeName(v.value)));
      }
    }

    /** The list comprehension over the arguments. */
    method EvalArguments(arguments: ExpressionList, fuel: nat) returns (r: Status<seq<Value>>)
      requires Valid()
      modifies this, Repr
      ensures Valid() && Kept()
      ensures Reports(r, Interpretation.EvalArguments(old(Snapshot()), arguments, fuel), Snapshot())
      decreases fuel, arguments, 1
    {
      if arguments.NoExpressions? {
        return Ok([]);
      }
      ghost var before := Snapshot();
      var items := arguments.items;
      var values := [];
      var i := 0;
      while i < |items|
        invariant 0 <= i <= |items|
        invariant Valid() && Kept()
        invariant EvalFrom(Snapshot(), items, i, values, fuel) == EvalFrom(before, items, 0, [], fuel)
        decreases |items| - i
      {
        var v := Eval(items[i], fuel);
        if !v.Ok? {
          return Propagate(v);
        }
        values := values + [v.value];
        i := i + 1;
      }
      r := Ok(values);
    }

    // -------------------------------------------------------------------------
    // Calls
    // -------------------------------------------------------------------------

    /** What `visit_NodeFunctionCall` and `visit_NodeProcedureCall` share, up to and including the `pop`. */
    method Invoke(symbol: Option<Symbol>, recordType: RecordType, arguments: ExpressionList, fuel: nat) returns (r: Status<Flow>)
      requires Valid()
      modifies this, Repr
      ensures Valid() && Kept()
      ensures Reports(r, Interpretation.Invoke(old(Snapshot()), symbol, recordType, arguments, fuel), Snapshot())
      decreases fuel, arguments, 2
    {
      InvokeSteps(old(Snapshot()), symbol, recordType, arguments, fuel);
      var values := EvalArguments(arguments, fuel);
      if !values.Ok? {
        return Propagate(values);
      }
      r := Call(symbol, recordType, values.value, fuel, arguments);
    }

    /** The call once its arguments are known: the caller's record is the current one. */
    method Call(symbol: Option<Symbol>, recordType: RecordType, values: seq<Value>, fuel: nat, ghost arguments: ExpressionList) returns (r: Status<Flow>)
      requires Valid()
      modifies this, Repr
      ensures Valid() && Kept()
      ensures Reports(r, Entry(old(Snapshot()), symbol, recordType, values, fuel), Snapshot())
      decreases fuel, arguments, 1
    {
      var caller := callStack.Peek();
      if caller.None? {
        return Stopped(Crash("IndexError"));
      }
      if symbol.None? || !IsRoutine(symbol.value) {
        return Stopped(Crash("AttributeError"));
      }
      if fuel == 0 {
        return Stopped(OutOfFuel);
      }
      r := Open(caller.value, symbol.value, recordType, values, fuel - 1);
    }

    /** The callee's record is built from the caller's and the routine then runs in it. */
    method Open(caller: ActivationRecord, routine: Symbol, recordType: RecordType, values: seq<Value>, fuel: nat) returns (r: Status<Flow>)
      requires Valid() && IsRoutine(routine)
      modifies this, Repr
      ensures Valid() && Kept()
      ensures Reports(r, Activation(old(Snapshot()), CalleeFrame(old(caller.Value()), routine, recordType, values), routine.block, fuel), Snapshot())
      decreases fuel, routine.block, 3
    {
      var callee := NewCallee(caller, routine, recordType, values);
      r := Activate(callee, routine.block, fuel);
    }

    /** The push, the body and the pop of a call, for a record not yet on the stack. */
    method Activate(callee: ActivationRecord, block: Block, fuel: nat) returns (r: Status<Flow>)
      requires Valid() && callee !in Repr
      modifies this, Repr, callee
      ensures Valid()
      ensures old(Repr) + {callee} <= Repr && fresh(Repr - old(Repr) - {callee})
      ensures old(callStack.records) <= callStack.records
      ensures Reports(r, Activation(old(Snapshot()), old(callee.Value()), block, fuel), Snapshot())
      decreases fuel, block, 2
    {
      Enter(callee);
      r := ExecBlock(block, fuel);
      if !r.Ok? {
        return;
      }
      Leave();
    }

    /** The callee's record, before it is pushed. */
    static method NewCallee(caller: ActivationRecord, routine: Symbol, recordType: RecordType, arguments: seq<Value>) returns (callee: ActivationRecord)
      requires IsRoutine(routine)
      ensures fresh(callee)
      ensures callee.Value() == CalleeFrame(caller.Value(), routine, recordType, arguments)
    {
      callee := new ActivationRecord(routine.identifier, recordType, caller.nestingLevel + 1);
      SeedMembers(callee, caller);
      if routine.parameters.Some? {
        BindParameters(callee, routine.parameters.value, arguments);
      }
    }

    /** `call_stack.push(record)` for a record the interpreter did not hold before. */
    method Enter(record: ActivationRecord)
      requires Valid() && record !in Repr
      modifies this, callStack
      ensures Valid() && Repr == old(Repr) + {record} && callStack.records == old(callStack.records) + [record]
      ensures Snapshot() == old(Snapshot()).(stack := PushFrame(old(Snapshot()).stack, record.Value()))
    {
      position := position[record := |callStack.records|];
      callStack.Push(record);
      Repr := Repr + {record};
    }

    /** `call_stack.pop()` on a stack that holds the record pushed on entry. */
    method Leave()
      requires Valid() && callStack.records != []
      modifies callStack
      ensures Valid() && callStack.records == old(callStack.records)[..|old(callStack.records)| - 1]
      ensures Snapshot() == old(Snapshot()).(stack := old(Snapshot()).stack[..|old(Snapshot()).stack| - 1])
    {
      var _ := callStack.Pop();
    }

    /** `visit_NodeFunctionCall`. */
    method CallFunction(name: string, arguments: ExpressionList, fuel: nat) returns (r: Status<Value>)
      requires Valid()
      modifies this, Repr
      ensures Valid() && Kept()
      ensures Reports(r, Interpretation.CallFunction(old(Snapshot()), name, arguments, fuel), Snapshot())
      decreases fuel, arguments, 3
    {
      var symbol := Lookup(functions, name);
      var flow := Invoke(symbol, FunctionRecord, arguments, fuel);
      if !flow.Ok? {
        return Propagate(flow);
      }
      var identifier := symbol.value.identifier;
      match flow.value
      case Gave(Some(v)) => r := Ok(v);
      case Gave(None) =>
        r := Stopped(RuntimeError(FunctionEmptyGive, "Empty give statement is not allowed in function '" + identifier + "'."));
      case Next => r := Stopped(RuntimeError(FunctionNotGiving, "Function '" + identifier + "' must give a value."));
    }

    /** `visit_NodeProcedureCall`. */
    method CallProcedure(name: string, arguments: ExpressionList, fuel: nat) returns (r: Status<Flow>)
      requires Valid()
      modifies this, Repr
      ensures Valid() && Kept()
      ensures Reports(r, Interpretation.CallProcedure(old(Snapshot()), name, arguments, fuel), Snapshot())
      decreases fuel, arguments, 3
    {
      var symbol := Lookup(procedures, name);
      var flow := Invoke(symbol, ProcedureRecord, arguments, fuel);
      if !flow.Ok? {
        return Propagate(flow);
      }
      if flow.value.Gave? && flow.value.given.Some? {
        r := Stopped(RuntimeError(ProcedureGivingValue, "Procedure '" + symbol.value.identifier + "' cannot give a value."));
      } else {
        r := Ok(Next);
      }
    }

    // -------------------------------------------------------------------------
    // Statements
    // -------------------------------------------------------------------------

    /** `visit_NodeBlock`. */
    method ExecBlock(b: Block, fuel: nat) returns (r: Status<Flow>)
      requires Valid()
      modifies this, Repr
      ensures Valid() && Kept()
      ensures Reports(r, Interpretation.ExecBlock(old(Snapshot()), b, fuel), Snapshot())
      decreases fuel, b, 1
    {
      if b.statements.NoStatements? {
        return Ok(Next);
      }
      ghost var before := Snapshot();
      var items := b.statements.items;
      var i := 0;
      while i < |items|
        invariant 0 <= i <= |items|
        invariant Valid() && Kept()
        invariant ExecFrom(Snapshot(), items, i, fuel) == ExecFrom(before, items, 0, fuel)
        decreases |items| - i
      {
        var flow := ExecStatement(items[i], fuel);
        if !flow.Ok? || flow.value.Gave? {
          return flow;
        }
        i := i + 1;
      }
      r := Ok(Next);
    }

    /** `visit(statement)`. */
    method ExecStatement(s: Statement, fuel: nat) returns (r: Status<Flow>)
      requires Valid()
      modifies this, Repr
      ensures Valid() && Kept()
      ensures Reports(r, Interpretation.ExecStatement(old(Snapshot()), s, fuel), Snapshot())
      decreases fuel, s, 2
    {
      match s
      case NodeVariableDeclaration(_, _, _) => r := ExecVariableDeclaration(s, fuel);
      case NodeConstantDeclaration(_, _, _) => r := ExecConstantDeclaration(s, fuel);
      case NodeAssignmentStatement(_, _) => r := ExecAssignment(s, fuel);
      case NodeGiveStatement(_) => r := ExecGive(s, fuel);
      case NodeShowStatement(_) => r := ExecShow(s, fuel);
      case NodeFunctionDeclaration(identifier, parameters, giveType, block) =>
        functions := functions[identifier := FunctionSymbol(identifier, Some(Semantics.ParameterSymbols(parameters)), giveType.name, block)];
        r := Ok(Next);
      case NodeProcedureDeclaration(identifier, parameters, block) =>
        procedures := procedures[identifier := ProcedureSymbol(identifier, Some(Semantics.ParameterSymbols(parameters)), block)];
        r := Ok(Next);
      case NodeProcedureCall(identifier, arguments) => r := CallProcedure(identifier, arguments, fuel);
      case NodeIfStatement(_, _, _, _) => r := ExecIf(s, fuel);
      case NodeWhileStatement(_, _) => r := ExecWhile(s, fuel);
      case NodeSkipStatement => r := Raised(SkipSignal);
      case NodeStopStatement => r := Raised(StopSignal);
    }

    /** `visit_NodeVariableDeclaration`. */
    method ExecVariableDeclaration(s: Statement, fuel: nat) returns (r: Status<Flow>)
      requires Valid() && s.NodeVariableDeclaration?
      modifies this, Repr
      ensures Valid() && Kept()
      ensures Reports(r, Interpretation.ExecVariableDeclaration(old(Snapshot()), s, fuel), Snapshot())
      decreases fuel, s, 1
    {
      if callStack.records == [] {
        return Stopped(Crash("IndexError"));
      }
      r := DeclareVariables(s, fuel);
    }

    /** The identifiers of a variable declaration, bound one by one in the record that is current at the start. */
    method DeclareVariables(s: Statement, fuel: nat) returns (r: Status<Flow>)
      requires Valid() && s.NodeVariableDeclaration? && callStack.records != []
      modifies this, Repr
      ensures Valid() && Kept()
      ensures Reports(r, Interpretation.DeclareVariables(old(Snapshot()), |old(callStack.records)| - 1, s, 0, fuel), Snapshot())
      decreases fuel, s, 0, 1
    {
      ghost var before := Snapshot();
      var record := callStack.records[|callStack.records| - 1];
      ghost var at := |callStack.records| - 1;
      for i := 0 to |s.identifiers|
        invariant Valid() && Kept()
        invariant at < |callStack.records| && callStack.records[at] == record
        invariant Interpretation.DeclareVariables(Snapshot(), at, s, i, fuel) == Interpretation.DeclareVariables(before, at, s, 0, fuel)
      {
        var step := DeclareVariable(s, i, at, record, fuel);
        if !step.Ok? {
          return step;
        }
      }
      r := Ok(Next);
    }

    /** One identifier of a variable declaration: its value is bound in the record at `at`. */
    method DeclareVariable(s: Statement, i: nat, ghost at: nat, record: ActivationRecord, fuel: nat) returns (r: Status<Flow>)
      requires Valid() && s.NodeVariableDeclaration? && i < |s.identifiers|
      requires at < |callStack.records| && callStack.records[at] == record
      modifies this, Repr
      ensures Valid() && Kept()
      ensures at < |callStack.records| && callStack.records[at] == record
      ensures r.Ok? ==> Interpretation.DeclareVariables(old(Snapshot()), at, s, i, fuel) == Interpretation.DeclareVariables(Snapshot(), at, s, i + 1, fuel)
      ensures !r.Ok? ==> Reports(r, Interpretation.DeclareVariables(old(Snapshot()), at, s, i, fuel), Snapshot())
      decreases fuel, s, 0, 0
    {
      DeclareVariablesStep(Snapshot(), at, s, i, fuel);
      var initializers := s.initializers;
      var value;
      if initializers.Expressions? && i < |initializers.items| {
        value := Eval(initializers.items[i], fuel);
      } else {
        value := StatusOfResult(DefaultValue(s.varType.name));
      }
      if !value.Ok? {
        return Propagate(value);
      }
      Store(at, record, s.identifiers[i], value.value);
      r := Ok(Next);
    }

    /** `visit_NodeConstantDeclaration`. */
    method ExecConstantDeclaration(s: Statement, fuel: nat) returns (r: Status<Flow>)
      requires Valid() && s.NodeConstantDeclaration?
      modifies this, Repr
      ensures Valid() && Kept()
      ensures Reports(r, Interpretation.ExecConstantDeclaration(old(Snapshot()), s, fuel), Snapshot())
      decreases fuel, s, 1
    {
      if callStack.records == [] {
        return Stopped(Crash("IndexError"));
      }
      r := DeclareConstants(s, fuel);
    }

    /** The identifiers of a constant declaration, bound one by one in the record that is current at the start. */
    method DeclareConstants(s: Statement, fuel: nat) returns (r: Status<Flow>)
      requires Valid() && s.NodeConstantDeclaration? && callStack.records != []
      modifies this, Repr
      ensures Valid() && Kept()
      ensures Reports(r, Interpretation.DeclareConstants(old(Snapshot()), |old(callStack.records)| - 1, s, 0, fuel), Snapshot())
      decreases fuel, s, 0, 1
    {
      ghost var before := Snapshot();
      var record := callStack.records[|callStack.records| - 1];
      ghost var at := |callStack.records| - 1;
      for i := 0 to |s.identifiers|
        invariant Valid() && Kept()
        invariant at < |callStack.records| && callStack.records[at] == record
        invariant Interpretation.DeclareConstants(Snapshot(), at, s, i, fuel) == Interpretation.DeclareConstants(before, at, s, 0, fuel)
      {
        var step := DeclareConstant(s, i, at, record, fuel);
        if !step.Ok? {
          return step;
        }
      }
      r := Ok(Next);
    }

    /** One identifier of a constant declaration: its expression's value is bound in the record at `at`. */
    method DeclareConstant(s: Statement, i: nat, ghost at: nat, record: ActivationRecord, fuel: nat) returns (r: Status<Flow>)
      requires Valid() && s.NodeConstantDeclaration? && i < |s.identifiers|
      requires at < |callStack.records| && callStack.records[at] == record
      modifies this, Repr
      ensures Valid() && Kept()
      ensures at < |callStack.records| && callStack.records[at] == record
      ensures r.Ok? ==> Interpretation.DeclareConstants(old(Snapshot()), at, s, i, fuel) == Interpretation.DeclareConstants(Snapshot(), at, s, i + 1, fuel)
      ensures !r.Ok? ==> Reports(r, Interpretation.DeclareConstants(old(Snapshot()), at, s, i, fuel), Snapshot())
      decreases fuel, s, 0, 0
    {
      if i >= |s.expressions| {
        return Stopped(Crash("IndexError"));
      }
      DeclareConstantsStep(Snapshot(), at, s, i, fuel);
      var value := Eval(s.expressions[i], fuel);
      if !value.Ok? {
        return Propagate(value);
      }
      Store(at, record, s.identifiers[i], value.value);
      r := Ok(Next);
    }

    /** `visit_NodeAssignmentStatement`: the value is computed first, then written to the record current at that point. */
    method ExecAssignment(s: Statement, fuel: nat) returns (r: Status<Flow>)
      requires Valid() && s.NodeAssignmentStatement?
      modifies this, Repr
      ensures Valid() && Kept()
      ensures Reports(r, Interpretation.ExecAssignment(old(Snapshot()), s, fuel), Snapshot())
      decreases fuel, s, 1
    {
      AssignmentSteps(Snapshot(), s, fuel);
      var value := Eval(s.expression, fuel);
      if !value.Ok? {
        return Propagate(value);
      }
      r := Assign(s.identifier, value.value);
    }

    /** The store into the current record that ends an assignment. */
    method Assign(name: string, value: Value) returns (r: Status<Flow>)
      requires Valid()
      modifies this, Repr
      ensures Valid() && Kept()
      ensures Reports(r, Assigned(old(Snapshot()), name, value), Snapshot())
    {
      var current := callStack.Peek();
      if current.None? {
        return Stopped(Crash("IndexError"));
      }
      Store(|callStack.records| - 1, current.value, name, value);
      r := Ok(Next);
    }

    /** `visit_NodeGiveStatement`. */
    method ExecGive(s: Statement, fuel: nat) returns (r: Status<Flow>)
      requires Valid() && s.NodeGiveStatement?
      modifies this, Repr
      ensures Valid() && Kept()
      ensures Reports(r, Interpretation.ExecGive(old(Snapshot()), s, fuel), Snapshot())
      decreases fuel, s, 1
    {
      if s.value.None? {
        return Ok(Gave(None));
      }
      var value := Eval(s.value.value, fuel);
      if !value.Ok? {
        return Propagate(value);
      }
      r := Ok(Gave(Some(value.value)));
    }

    /** `visit_NodeShowStatement`: `print` becomes a line appended to the output. */
    method ExecShow(s: Statement, fuel: nat) returns (r: Status<Flow>)
      requires Valid() && s.NodeShowStatement?
      modifies this, Repr
      ensures Valid() && Kept()
      ensures Reports(r, Interpretation.ExecShow(old(Snapshot()), s, fuel), Snapshot())
      decreases fuel, s, 1
    {
      var value := Eval(s.expression, fuel);
      if !value.Ok? {
        return Propagate(value);
      }
      output := output + [PyStr(value.value)];
      r := Ok(Next);
    }

    /** `visit_NodeIfStatement`. */
    method ExecIf(s: Statement, fuel: nat) returns (r: Status<Flow>)
      requires Valid() && s.NodeIfStatement?
      modifies this, Repr
      ensures Valid() && Kept()
      ensures Reports(r, Interpretation.ExecIf(old(Snapshot()), s, fuel), Snapshot())
      decreases fuel, s, 1
    {
      IfSteps(Snapshot(), s, fuel);
      var c := EvalBool(s.condition, fuel);
      if !c.Ok? {
        return Propagate(c);
      }
      if c.value {
        r := ExecBlock(s.block, fuel);
      } else {
        r := ExecBranches(s, fuel);
      }
    }

    /** The `elif` loop of `visit_NodeIfStatement`, then the `else` branch. */
    method ExecBranches(s: Statement, fuel: nat) returns (r: Status<Flow>)
      requires Valid() && s.NodeIfStatement?
      modifies this, Repr
      ensures Valid() && Kept()
      ensures Reports(r, ExecElifs(old(Snapshot()), s, 0, fuel), Snapshot())
      decreases fuel, s, 0, 1
    {
      ghost var before := Snapshot();
      var elifs := if s.elifs.Elifs? then s.elifs.items else [];
      assert elifs == ElifItems(s.elifs);
      var i := 0;
      while i < |elifs|
        invariant 0 <= i <= |elifs|
        invariant Valid() && Kept()
        invariant ExecElifs(Snapshot(), s, i, fuel) == ExecElifs(before, s, 0, fuel)
        decreases |elifs| - i
      {
        var taken;
        r, taken := TryElif(s, i, fuel);
        if taken {
          return;
        }
        i := i + 1;
      }
      if s.elseBranch.SomeElse? {
        r := ExecBlock(s.elseBranch.node.block, fuel);
      } else {
        r := Ok(Next);
      }
    }

    /** One `elif`: when its condition holds (or fails), the if statement ends here. */
    method TryElif(s: Statement, i: nat, fuel: nat) returns (r: Status<Flow>, taken: bool)
      requires Valid() && s.NodeIfStatement? && i < |ElifItems(s.elifs)|
      modifies this, Repr
      ensures Valid() && Kept()
      ensures taken ==> Reports(r, ExecElifs(old(Snapshot()), s, i, fuel), Snapshot())
      ensures !taken ==> ExecElifs(old(Snapshot()), s, i, fuel) == ExecElifs(Snapshot(), s, i + 1, fuel)
      decreases fuel, s, 0, 0
    {
      ElifStep(Snapshot(), s, i, fuel);
      var branch := s.elifs.items[i];
      var c := EvalBool(branch.condition, fuel);
      if !c.Ok? {
        return Propagate(c), true;
      }
      if c.value {
        r := ExecBlock(branch.block, fuel);
        return r, true;
      }
      return Ok(Next), false;
    }

    /** `visit_NodeWhileStatement`: the `while True` loop; each iteration costs one unit of fuel. */
    method ExecWhile(s: Statement, fuel: nat) returns (r: Status<Flow>)
      requires Valid() && s.NodeWhileStatement?
      modifies this, Repr
      ensures Valid() && Kept()
      ensures Reports(r, Interpretation.ExecWhile(old(Snapshot()), s, fuel), Snapshot())
      decreases fuel, s, 1
    {
      ghost var before := Snapshot();
      var f: nat := fuel;
      while true
        invariant f <= fuel
        invariant Valid() && Kept()
        invariant Interpretation.ExecWhile(Snapshot(), s, f) == Interpretation.ExecWhile(before, s, fuel)
        decreases f
      {
        var again;
        r, again := Iterate(s, f);
        if !again {
          return;
        }
        f := f - 1;
      }
    }

    /** One iteration, the body of the `try`: a skip goes on to the next iteration, a stop or a false condition ends the loop, a give ends it with the give. */
    method Iterate(s: Statement, fuel: nat) returns (r: Status<Flow>, again: bool)
      requires Valid() && s.NodeWhileStatement?
      modifies this, Repr
      ensures Valid() && Kept()
      ensures again ==> fuel > 0 && Interpretation.ExecWhile(old(Snapshot()), s, fuel) == Interpretation.ExecWhile(Snapshot(), s, fuel - 1)
      ensures !again ==> Reports(r, Interpretation.ExecWhile(old(Snapshot()), s, fuel), Snapshot())
      decreases fuel, s, 0, 1
    {
      if fuel == 0 {
        return Stopped(OutOfFuel), false;
      }
      WhileStep(Snapshot(), s, fuel);
      var c := EvalBool(s.condition, fuel);
      if c.Stopped? {
        return Propagate(c), false;
      }
      if c == Raised(StopSignal) || c == Ok(false) {
        return Ok(Next), false;
      }
      if c == Raised(SkipSignal) {
        return Ok(Next), true;
      }
      r, again := RunBody(s, fuel);
    }

    /** The body of one iteration, once the condition held. */
    method RunBody(s: Statement, fuel: nat) returns (r: Status<Flow>, again: bool)
      requires Valid() && s.NodeWhileStatement? && fuel > 0
      modifies this, Repr
      ensures Valid() && Kept()
      ensures again ==> AfterBody(Interpretation.ExecBlock(old(Snapshot()), s.block, fuel), s, fuel) == Interpretation.ExecWhile(Snapshot(), s, fuel - 1)
      ensures !again ==> Reports(r, AfterBody(Interpretation.ExecBlock(old(Snapshot()), s.block, fuel), s, fuel), Snapshot())
      decreases fuel, s, 0, 0
    {
      var flow := ExecBlock(s.block, fuel);
      if flow.Stopped? || (flow.Ok? && flow.value.Gave?) {
        return flow, false;
      }
      if flow == Raised(StopSignal) {
        return Ok(Next), false;
      }
      return Ok(Next), true;
    }
  }
}
