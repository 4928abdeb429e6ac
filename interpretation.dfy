/**
 * What the tree-walking interpreter computes, as functions from a state to
 * an outcome. The state is the call stack as a sequence of frames (the
 * innermost last), the declared functions and procedures, and the lines
 * `show` has printed. Every visit either completes with a value, escapes
 * with the skip or stop signal that the interpreter raises as an exception
 * and only a `while` catches, or fails with a runtime error or with a Python
 * exception the interpreter does not handle. Function calls and `while`
 * iterations consume one unit of fuel each, so every visit terminates.
 */
module Interpretation {
  import opened Wrappers
  import opened Ast
  import opened SymbolTable
  import opened CallStacks
  import Semantics
  import Text

  // ---------------------------------------------------------------------------
  // Outcomes
  // ---------------------------------------------------------------------------

  datatype RuntimeErrorCode =
    | UndeclaredIdentifier | DivisionByZero | InvalidOperation
    | FunctionEmptyGive | FunctionNotGiving | ProcedureGivingValue

  /**
   * Why a run stops: a `RuntimeError` the interpreter raises, a Python
   * exception it runs into (`IndexError`, `KeyError`, `TypeError`, ...),
   * something that needs floating point, or the fuel running out.
   */
  datatype Fault =
    | RuntimeError(code: RuntimeErrorCode, message: string)
    | Crash(exception: string)
    | NotModelled(feature: string)
    | OutOfFuel

  /** `SkipException` and `StopException`. */
  datatype Signal = SkipSignal | StopSignal

  /** What a statement hands to its block: nothing, or the `{"give": value}` dictionary. */
  datatype Flow = Next | Gave(given: Option<Value>)

  datatype State = State(stack: seq<Frame>, functions: map<string, Symbol>, procedures: map<string, Symbol>, output: seq<string>)

  /** Completion with a value, an escaping signal, or a failure; each carries the state reached. */
  datatype Outcome<T> = Done(state: State, value: T) | Escaped(state: State, signal: Signal) | Failed(state: State, fault: Fault)
  {
    predicate IsFailure() { !Done? }

    function PropagateFailure<U>(): Outcome<U>
      requires !Done?
    {
      if Escaped? then Escaped(state, signal) else Failed(state, fault)
    }

    function Extract(): (State, T)
      requires Done?
    {
      (state, value)
    }
  }

  function Lift<T>(st: State, r: Result<T, Fault>): Outcome<T>
  {
    match r
    case Success(v) => Done(st, v)
    case Failure(f) => Failed(st, f)
  }

  /**
   * The frames below the top one at entry are the same afterwards, and the
   * stack is no shorter: a visit writes only the frame that was current
   * when it started, or frames pushed since.
   */
  predicate KeepsBelow(before: seq<Frame>, after: seq<Frame>, n: int)
  {
    n <= |before| <= |after| && forall k :: 0 <= k < n ==> after[k] == before[k]
  }

  predicate KeepsOuterFrames(before: seq<Frame>, after: seq<Frame>)
  {
    KeepsBelow(before, after, |before| - 1)
  }

  // ---------------------------------------------------------------------------
  // Values, with Python's meaning of the operators on int, str and bool
  // ---------------------------------------------------------------------------

  /** `bool` is a subclass of `int`: True and False take part in arithmetic as 1 and 0. */
  predicate IsNumeric(v: Value)
  {
    v.Number? || v.Boolean?
  }

  function NumericValue(v: Value): int
    requires IsNumeric(v)
  {
    if v.Number? then v.n else if v.b then 1 else 0
  }

  /** `type(v).__name__`. */
  function TypeName(v: Value): string
  {
    match v
    case Number(_) => "int"
    case Str(_) => "str"
    case Boolean(_) => "bool"
  }

  /** `str(v)`. */
  function PyStr(v: Value): string
  {
    match v
    case Number(n) => Text.IntToString(n)
    case Str(s) => s
    case Boolean(b) => if b then "True" else "False"
  }

  /** `v == 0`: true of 0 and of False, never of a string. */
  predicate IsZero(v: Value)
  {
    IsNumeric(v) && NumericValue(v) == 0
  }

  /** Python's `//`, which rounds towards negative infinity. */
  function FloorDiv(a: int, b: int): int
    requires b != 0
  {
    if b > 0 || a % b == 0 then a / b else a / b - 1
  }

  /** Python's `%`, whose result takes the sign of the divisor. */
  function FloorMod(a: int, b: int): int
    requires b != 0
  {
    if b > 0 || a % b == 0 then a % b else a % b + b
  }

  /** `//` and `%` divide with remainder, the remainder lying between zero and the divisor. */
  lemma FloorDivision(a: int, b: int)
    requires b != 0
    ensures a == b * FloorDiv(a, b) + FloorMod(a, b)
    ensures b > 0 ==> 0 <= FloorMod(a, b) < b
    ensures b < 0 ==> b < FloorMod(a, b) <= 0
  {
  }

  /** `a ** n` for a non-negative exponent. */
  function Pow(a: int, n: nat): int
  {
    if n == 0 then 1 else a * Pow(a, n - 1)
  }

  /** `s * n`: the string repeated, empty for a count below one. */
  function Repeat(s: string, n: int): (r: string)
    ensures |r| == if n <= 0 then 0 else |s| * n
    decreases n
  {
    if n <= 0 then "" else s + Repeat(s, n - 1)
  }

  function TypeError<T>(): Result<T, Fault>
  {
    Failure(Crash("TypeError"))
  }

  function Fail<T>(code: RuntimeErrorCode, message: string): Result<T, Fault>
  {
    Failure(RuntimeError(code, message))
  }

  /** `visit_NodeBinaryArithmeticOperation` once both operands are known. */
  function ApplyBinary(left: Value, op: string, right: Value): (r: Result<Value, Fault>)
    ensures r.Success? && r.value.Str? ==> (op == "+" || op == "*") && (left.Str? || right.Str?)
    ensures r.Success? && !r.value.Str? ==> r.value.Number? && IsNumeric(left) && IsNumeric(right)
    ensures (op == "/" || op == "//" || op == "%") && IsZero(right) ==> r.Failure? && r.error.RuntimeError? && r.error.code == DivisionByZero
    ensures r.Failure? && r.error.RuntimeError? && r.error.code == DivisionByZero ==> (op == "/" || op == "//" || op == "%") && IsZero(right)
    ensures (r.Failure? && r.error.RuntimeError? && r.error.code == InvalidOperation) <==> op !in {"+", "-", "*", "/", "//", "%", "**"}
  {
    var numeric := IsNumeric(left) && IsNumeric(right);
    if op == "+" then
      if left.Str? || right.Str? then Success(Str(PyStr(left) + PyStr(right)))
      else Success(Number(NumericValue(left) + NumericValue(right)))
    else if op == "-" then
      if numeric then Success(Number(NumericValue(left) - NumericValue(right))) else TypeError()
    else if op == "*" then
      if numeric then Success(Number(NumericValue(left) * NumericValue(right)))
      else if left.Str? && IsNumeric(right) then Success(Str(Repeat(left.s, NumericValue(right))))
      else if IsNumeric(left) && right.Str? then Success(Str(Repeat(right.s, NumericValue(left))))
      else TypeError()
    else if op == "/" then
      if IsZero(right) then Fail(DivisionByZero, "Division by zero")
      else if numeric then Failure(NotModelled("true division"))
      else TypeError()
    else if op == "//" then
      if IsZero(right) then Fail(DivisionByZero, "Division by zero")
      else if numeric then Success(Number(FloorDiv(NumericValue(left), NumericValue(right))))
      else TypeError()
    else if op == "%" then
      if IsZero(right) then Fail(DivisionByZero, "Modulo by zero")
      else if numeric then Success(Number(FloorMod(NumericValue(left), NumericValue(right))))
      else if left.Str? then Failure(NotModelled("string formatting"))
      else TypeError()
    else if op == "**" then
      if !numeric then TypeError()
      else if NumericValue(right) >= 0 then Success(Number(Pow(NumericValue(left), NumericValue(right))))
      else if NumericValue(left) == 0 then Failure(Crash("ZeroDivisionError"))
      else Failure(NotModelled("negative exponent"))
    else Fail(InvalidOperation, "Unknown binary operator '" + op + "'")
  }

  /** `visit_NodeUnaryArithmeticOperation` once the operand is known; a string fails its `assert`. */
  function ApplyUnary(op: string, operand: Value): (r: Result<Value, Fault>)
    ensures r.Success? <==> IsNumeric(operand) && (op == "+" || op == "-")
    ensures r.Success? && op == "+" ==> r.value.Number? && r.value.n == NumericValue(operand)
    ensures r.Success? && op == "-" ==> r.value.Number? && r.value.n + NumericValue(operand) == 0
    ensures !IsNumeric(operand) ==> r == Failure(Crash("AssertionError"))
  {
    if !IsNumeric(operand) then Failure(Crash("AssertionError"))
    else if op == "+" then Success(Number(NumericValue(operand)))
    else if op == "-" then Success(Number(-NumericValue(operand)))
    else Fail(InvalidOperation, "Unknown unary operator '" + op + "'")
  }

  /** Python's `==`: numbers and booleans compare by value, strings by content, a string never equals a number. */
  predicate PyEqual(a: Value, b: Value)
    ensures a == b ==> PyEqual(a, b)
    ensures PyEqual(a, b) && a.Str? ==> b.Str? && a.s == b.s
  {
    if IsNumeric(a) && IsNumeric(b) then NumericValue(a) == NumericValue(b)
    else a.Str? && b.Str? && a.s == b.s
  }

  /** The order of two strings, character by character from the `i`-th on: -1, 0 or 1. */
  function LexCompare(a: string, b: string, i: nat): int
    requires i <= |a| && i <= |b|
    decreases |a| - i
  {
    if i == |a| && i == |b| then 0
    else if i == |a| then -1
    else if i == |b| then 1
    else if a[i] < b[i] then -1
    else if a[i] > b[i] then 1
    else LexCompare(a, b, i + 1)
  }

  function IntCompare(a: int, b: int): int
  {
    if a < b then -1 else if a == b then 0 else 1
  }

  predicate IsOrdering(op: string)
  {
    op == "<" || op == ">" || op == "<=" || op == ">="
  }

  /** Whether an ordering operator holds of a comparison result. */
  predicate Holds(op: string, c: int)
    requires IsOrdering(op)
  {
    if op == "<" then c < 0 else if op == ">" then c > 0 else if op == "<=" then c <= 0 else c >= 0
  }

  /** `visit_NodeComparisonExpression` once both operands are known; ordering a string against a number is a `TypeError`. */
  function Compare(left: Value, op: string, right: Value): (r: Result<bool, Fault>)
    ensures r.Success? <==> op == "==" || op == "!=" || (IsOrdering(op) && ((IsNumeric(left) && IsNumeric(right)) || (left.Str? && right.Str?)))
    ensures r.Success? && IsOrdering(op) && IsNumeric(left) && IsNumeric(right) ==> (r.value <==> Holds(op, NumericValue(left) - NumericValue(right)))
    ensures r.Failure? ==> r.error == Crash("TypeError") || (r.error.RuntimeError? && r.error.code == InvalidOperation)
  {
    if op == "==" then Success(PyEqual(left, right))
    else if op == "!=" then Success(!PyEqual(left, right))
    else if IsOrdering(op) then
      if IsNumeric(left) && IsNumeric(right) then Success(Holds(op, IntCompare(NumericValue(left), NumericValue(right))))
      else if left.Str? && right.Str? then Success(Holds(op, LexCompare(left.s, right.s, 0)))
      else TypeError()
    else Fail(InvalidOperation, "Unknown comparison operator '" + op + "'")
  }

  /** `visit_NodeArithmeticExpressionAsBoolean`: a number is true unless zero, a string unless empty. */
  predicate Truthy(v: Value)
    ensures IsNumeric(v) ==> (Truthy(v) <==> !IsZero(v))
  {
    match v
    case Boolean(b) => b
    case Number(n) => n != 0
    case Str(s) => |s| > 0
  }

  /** `visit_NodeNumberLiteral`: `int(lexeme)`, or a float when the lexeme has a '.'. */
  function NumberLiteral(lexeme: string): (r: Result<Value, Fault>)
    ensures r.Success? <==> '.' !in lexeme && Text.IsIntegerText(lexeme)
    ensures r.Success? ==> r.value.Number? && r.value.n == Text.IntegerTextValue(lexeme)
    ensures r.Failure? ==> r.error == Crash("ValueError") || (r.error == NotModelled("float literal") && Text.IsFloatText(lexeme))
  {
    if '.' in lexeme then
      if Text.IsFloatText(lexeme) then Failure(NotModelled("float literal")) else Failure(Crash("ValueError"))
    else if Text.IsIntegerText(lexeme) then Success(Number(Text.IntegerTextValue(lexeme)))
    else Failure(Crash("ValueError"))
  }

  /** `lexeme[1:-1]`, which is empty for a lexeme shorter than two characters. */
  function StringLiteral(lexeme: string): (s: string)
    ensures |s| == if |lexeme| >= 2 then |lexeme| - 2 else 0
    ensures |lexeme| >= 2 ==> lexeme == lexeme[..1] + s + lexeme[|lexeme| - 1..]
  {
    if |lexeme| >= 2 then lexeme[1..|lexeme| - 1] else ""
  }

  /** `DEFAULT_VALUES[type_name]`; any other type name is a `KeyError`. */
  function DefaultValue(typeName: string): (r: Result<Value, Fault>)
    ensures r.Success? <==> typeName in {"number", "string", "boolean"}
    ensures r.Success? ==> !Truthy(r.value)
    ensures r.Success? ==> (r.value.Number? <==> typeName == "number") && (r.value.Str? <==> typeName == "string")
    ensures r.Failure? ==> r.error == Crash("KeyError")
  {
    if typeName == "number" then Success(Number(0))
    else if typeName == "string" then Success(Str(""))
    else if typeName == "boolean" then Success(Boolean(false))
    else Failure(Crash("KeyError"))
  }

  // ---------------------------------------------------------------------------
  // Frames
  // ---------------------------------------------------------------------------

  /** `peek()`, which is an `IndexError` on an empty stack. */
  function Current(st: State): (r: Outcome<Frame>)
    ensures r.state == st
    ensures r.Done? <==> st.stack != []
    ensures r.Done? ==> r.value == st.stack[|st.stack| - 1]
  {
    match PeekFrame(st.stack)
    case None => Failed(st, Crash("IndexError"))
    case Some(f) => Done(st, f)
  }

  /** `record[name] = value` on the `at`-th frame. */
  function Bind(st: State, at: nat, name: string, value: Value): (s: State)
    requires at < |st.stack|
    ensures s.functions == st.functions && s.procedures == st.procedures && s.output == st.output
    ensures |s.stack| == |st.stack| && forall k | 0 <= k < |st.stack| && k != at :: s.stack[k] == st.stack[k]
    ensures GetMember(s.stack[at], name) == Some(value)
    ensures s.stack[at].members.Keys == st.stack[at].members.Keys + {name}
  {
    st.(stack := st.stack[at := SetMember(st.stack[at], name, value)])
  }

  /** A function or procedure symbol: the only symbols with `parameters` and `block`. */
  predicate IsRoutine(s: Symbol)
  {
    s.FunctionSymbol? || s.ProcedureSymbol?
  }

  /** `zip(parameters, arguments)` from the `i`-th pair on, each parameter bound to its argument. */
  function BindFrom(members: map<string, Value>, parameters: seq<Symbol>, arguments: seq<Value>, i: nat): (m: map<string, Value>)
    requires i <= |parameters| && i <= |arguments|
    ensures members.Keys <= m.Keys
    ensures forall j | i <= j < |parameters| && j < |arguments| :: parameters[j].identifier in m
    decreases |parameters| - i
  {
    if i == |parameters| || i == |arguments| then members
    else BindFrom(members[parameters[i].identifier := arguments[i]], parameters, arguments, i + 1)
  }

  /**
   * The callee's record: one level below the caller's, holding a copy of the
   * caller's members and then the parameters bound positionally.
   */
  function CalleeFrame(caller: Frame, routine: Symbol, recordType: RecordType, arguments: seq<Value>): (f: Frame)
    requires IsRoutine(routine)
    ensures f.name == routine.identifier && f.recordType == recordType && f.nestingLevel == caller.nestingLevel + 1
    ensures caller.members.Keys <= f.members.Keys
  {
    var seeded := caller.members;
    var members := if routine.parameters.Some? then BindFrom(seeded, routine.parameters.value, arguments, 0) else seeded;
    Frame(routine.identifier, recordType, caller.nestingLevel + 1, members)
  }

  function Lookup(routines: map<string, Symbol>, name: string): Option<Symbol>
  {
    if name in routines then Some(routines[name]) else None
  }

  // ---------------------------------------------------------------------------
  // Programs whose skip and stop stay inside a loop of the same body
  // ---------------------------------------------------------------------------

  /**
   * Every skip and stop of the statement lies inside a `while` of the same
   * function or procedure body (`inWhile` says whether the statement itself
   * does). The semantic analyzer is weaker: it also accepts a skip or stop
   * in a function declared inside a while.
   */
  predicate Contained(s: Statement, inWhile: bool)
    decreases s
  {
    match s
    case NodeSkipStatement => inWhile
    case NodeStopStatement => inWhile
    case NodeWhileStatement(_, block) => BlockContained(block, true)
    case NodeIfStatement(_, block, elifs, elseBranch) =>
      && BlockContained(block, inWhile)
      && (match elifs
          case NoElifs => true
          case Elifs(items) => forall e | e in items :: BlockContained(e.block, inWhile))
      && (match elseBranch
          case NoElse => true
          case SomeElse(e) => BlockContained(e.block, inWhile))
    case NodeFunctionDeclaration(_, _, _, block) => BlockContained(block, false)
    case NodeProcedureDeclaration(_, _, block) => BlockContained(block, false)
    case _ => true
  }

  predicate BlockContained(b: Block, inWhile: bool)
    decreases b
  {
    match b.statements
    case NoStatements => true
    case Statements(items) => forall s | s in items :: Contained(s, inWhile)
  }

  /** Every function and procedure body the interpreter has recorded is contained. */
  predicate Clean(st: State)
  {
    && (forall name | name in st.functions :: RoutineContained(Some(st.functions[name])))
    && (forall name | name in st.procedures :: RoutineContained(Some(st.procedures[name])))
  }

  predicate RoutineContained(symbol: Option<Symbol>)
  {
    symbol.Some? && IsRoutine(symbol.value) ==> BlockContained(symbol.value.block, false)
  }

  /**
   * Push and pop balance: a visit that does not fail leaves the stack as
   * long as it found it, a signal escapes only where a loop will catch it,
   * and the recorded bodies stay contained.
   */
  predicate Balanced<T>(st: State, r: Outcome<T>, inWhile: bool)
  {
    && Clean(r.state)
    && (r.Escaped? ==> inWhile)
    && (!r.Failed? ==> |r.state.stack| == |st.stack|)
  }

  // ---------------------------------------------------------------------------
  // Expressions
  // ---------------------------------------------------------------------------

  /** `visit(expression)`. */
  function Eval(st: State, e: Expression, fuel: nat): (r: Outcome<Value>)
    ensures KeepsOuterFrames(st.stack, r.state.stack)
    ensures Clean(st) ==> Balanced(st, r, false)
    decreases fuel, e, 1
  {
    match e
    case NodeIdentifier(name) =>
      var (_, top) :- Current(st);
      if name in top.members then Done(st, top.members[name])
      else Failed(st, RuntimeError(UndeclaredIdentifier, "Identifier '" + name + "' is not defined."))
    case NodeFunctionCall(name, arguments) => CallFunction(st, name, arguments, fuel)
    case NodeBinaryArithmeticOperation(left, op, right) =>
      var (st1, a) :- Eval(st, left, fuel);
      var (st2, b) :- Eval(st1, right, fuel);
      Lift(st2, ApplyBinary(a, op, b))
    case NodeUnaryArithmeticOperation(op, operand) =>
      var (st1, a) :- Eval(st, operand, fuel);
      Lift(st1, ApplyUnary(op, a))
    case NodeNumberLiteral(lexeme) => Lift(st, NumberLiteral(lexeme))
    case NodeStringLiteral(lexeme) => Done(st, Str(StringLiteral(lexeme)))
    case NodeArithmeticExpressionAsBoolean(expression) =>
      var (st1, a) :- Eval(st, expression, fuel);
      Done(st1, Boolean(Truthy(a)))
    case NodeBinaryBooleanOperation(_, _, _) => EvalLogical(st, e, fuel)
    case NodeUnaryBooleanOperation(op, operand) =>
      var (st1, a) :- EvalBool(st, operand, fuel);
      if op == "not" then Done(st1, Boolean(!a))
      else Failed(st1, RuntimeError(InvalidOperation, "Unknown unary boolean operator '" + op + "'"))
    case NodeComparisonExpression(left, op, right) =>
      var (st1, a) :- Eval(st, left, fuel);
      var (st2, b) :- Eval(st1, right, fuel);
      (match Compare(a, op, b)
       case Success(c) => Done(st2, Boolean(c))
       case Failure(f) => Failed(st2, f))
    case NodeBooleanLiteral(lexeme) => Done(st, Boolean(lexeme == "true"))
  }

  /** `visit_NodeBinaryBooleanOperation`: `and` and `or` evaluate their right operand only when the left does not decide. */
  function EvalLogical(st: State, e: Expression, fuel: nat): (r: Outcome<Value>)
    requires e.NodeBinaryBooleanOperation?
    ensures KeepsOuterFrames(st.stack, r.state.stack)
    ensures Clean(st) ==> Balanced(st, r, false)
    decreases fuel, e, 0
  {
    var NodeBinaryBooleanOperation(left, op, right) := e;
    if op == "and" then
      var (st1, a) :- EvalBool(st, left, fuel);
      if !a then Done(st1, Boolean(false))
      else
        var (st2, b) :- EvalBool(st1, right, fuel);
        Done(st2, Boolean(b))
    else if op == "or" then
      var (st1, a) :- EvalBool(st, left, fuel);
      if a then Done(st1, Boolean(true))
      else
        var (st2, b) :- EvalBool(st1, right, fuel);
        Done(st2, Boolean(b))
    else Failed(st, RuntimeError(InvalidOperation, "Unknown boolean operator '" + op + "'"))
  }

  /** `_evaluate_boolean_expression`: the value must be a bool. */
  function EvalBool(st: State, e: Expression, fuel: nat): (r: Outcome<bool>)
    ensures KeepsOuterFrames(st.stack, r.state.stack)
    ensures Clean(st) ==> Balanced(st, r, false)
    decreases fuel, e, 2
  {
    var (st1, v) :- Eval(st, e, fuel);
    if v.Boolean? then Done(st1, v.b)
    else Failed(st1, RuntimeError(InvalidOperation, "Expected boolean expression, got " + TypeName(v)))
  }

  /** The argument values, left to right; none for an absent list. */
  function EvalArguments(st: State, arguments: ExpressionList, fuel: nat): (r: Outcome<seq<Value>>)
    ensures KeepsOuterFrames(st.stack, r.state.stack)
    ensures Clean(st) ==> Balanced(st, r, false)
    decreases fuel, arguments, 1
  {
    match arguments
    case NoExpressions => Done(st, [])
    case Expressions(items) => EvalFrom(st, items, 0, [], fuel)
  }

  /** The values of the expressions from the `i`-th on, appended to `acc`. */
  function EvalFrom(st: State, es: seq<Expression>, i: nat, acc: seq<Value>, fuel: nat): (r: Outcome<seq<Value>>)
    requires i <= |es|
    ensures KeepsOuterFrames(st.stack, r.state.stack)
    ensures Clean(st) ==> Balanced(st, r, false)
    decreases fuel, es, |es| - i
  {
    if i == |es| then Done(st, acc)
    else
      var (st1, v) :- Eval(st, es[i], fuel);
      EvalFrom(st1, es, i + 1, acc + [v], fuel)
  }

  /**
   * The part of a call the function and procedure visits share: the symbol
   * is looked up before the arguments are evaluated, the callee's record is
   * pushed, the body runs, and the record on top is popped unless the body
   * escaped or failed. The result is what the body handed back.
   */
  function Invoke(st: State, symbol: Option<Symbol>, recordType: RecordType, arguments: ExpressionList, fuel: nat): (r: Outcome<Flow>)
    ensures KeepsOuterFrames(st.stack, r.state.stack)
    ensures r.Done? ==> symbol.Some? && IsRoutine(symbol.value)
    ensures Clean(st) && RoutineContained(symbol) ==> Balanced(st, r, false)
    decreases fuel, arguments, 2
  {
    var (st1, values) :- EvalArguments(st, arguments, fuel);
    var (_, caller) :- Current(st1);
    if symbol.None? || !IsRoutine(symbol.value) then Failed(st1, Crash("AttributeError"))
    else if fuel == 0 then Failed(st1, OutOfFuel)
    else
      var callee := CalleeFrame(caller, symbol.value, recordType, values);
      var (st2, flow) :- ExecBlock(st1.(stack := PushFrame(st1.stack, callee)), symbol.value.block, fuel - 1);
      Done(st2.(stack := st2.stack[..|st2.stack| - 1]), flow)
  }

  /** `visit_NodeFunctionCall`: the body must give a value. */
  function CallFunction(st: State, name: string, arguments: ExpressionList, fuel: nat): (r: Outcome<Value>)
    ensures KeepsOuterFrames(st.stack, r.state.stack)
    ensures Clean(st) ==> Balanced(st, r, false)
    decreases fuel, arguments, 3
  {
    var symbol := Lookup(st.functions, name);
    var (st1, flow) :- Invoke(st, symbol, FunctionRecord, arguments, fuel);
    var identifier := symbol.value.identifier;
    match flow
    case Gave(Some(v)) => Done(st1, v)
    case Gave(None) =>
      Failed(st1, RuntimeError(FunctionEmptyGive, "Empty give statement is not allowed in function '" + identifier + "'."))
    case Next => Failed(st1, RuntimeError(FunctionNotGiving, "Function '" + identifier + "' must give a value."))
  }

  /** `visit_NodeProcedureCall`: the body must not give a value. */
  function CallProcedure(st: State, name: string, arguments: ExpressionList, fuel: nat): (r: Outcome<Flow>)
    ensures KeepsOuterFrames(st.stack, r.state.stack)
    ensures r.Done? ==> r.value == Next
    ensures Clean(st) ==> Balanced(st, r, false)
    decreases fuel, arguments, 3
  {
    var symbol := Lookup(st.procedures, name);
    var (st1, flow) :- Invoke(st, symbol, ProcedureRecord, arguments, fuel);
    if flow.Gave? && flow.given.Some? then
      Failed(st1, RuntimeError(ProcedureGivingValue, "Procedure '" + symbol.value.identifier + "' cannot give a value."))
    else Done(st1, Next)
  }

  // ---------------------------------------------------------------------------
  // Statements
  // ---------------------------------------------------------------------------

  /** `visit_NodeBlock`: the statements in order, up to the first that gives. */
  function ExecBlock(st: State, b: Block, fuel: nat): (r: Outcome<Flow>)
    ensures KeepsOuterFrames(st.stack, r.state.stack)
    ensures Clean(st) && BlockContained(b, false) ==> Balanced(st, r, false)
    ensures Clean(st) && BlockContained(b, true) ==> Balanced(st, r, true)
    decreases fuel, b, 1
  {
    match b.statements
    case NoStatements => Done(st, Next)
    case Statements(items) => ExecFrom(st, items, 0, fuel)
  }

  function ExecFrom(st: State, ss: seq<Statement>, i: nat, fuel: nat): (r: Outcome<Flow>)
    requires i <= |ss|
    ensures KeepsOuterFrames(st.stack, r.state.stack)
    ensures Clean(st) && (forall j | i <= j < |ss| :: Contained(ss[j], false)) ==> Balanced(st, r, false)
    ensures Clean(st) && (forall j | i <= j < |ss| :: Contained(ss[j], true)) ==> Balanced(st, r, true)
    decreases fuel, ss, |ss| - i
  {
    if i == |ss| then Done(st, Next)
    else
      var (st1, flow) :- ExecStatement(st, ss[i], fuel);
      if flow.Gave? then Done(st1, flow) else ExecFrom(st1, ss, i + 1, fuel)
  }

  /** `visit(statement)`. */
  function ExecStatement(st: State, s: Statement, fuel: nat): (r: Outcome<Flow>)
    ensures KeepsOuterFrames(st.stack, r.state.stack)
    ensures Clean(st) && Contained(s, false) ==> Balanced(st, r, false)
    ensures Clean(st) && Contained(s, true) ==> Balanced(st, r, true)
    decreases fuel, s, 2
  {
    match s
    case NodeVariableDeclaration(_, _, _) => ExecVariableDeclaration(st, s, fuel)
    case NodeConstantDeclaration(_, _, _) => ExecConstantDeclaration(st, s, fuel)
    case NodeAssignmentStatement(_, _) => ExecAssignment(st, s, fuel)
    case NodeGiveStatement(_) => ExecGive(st, s, fuel)
    case NodeShowStatement(_) => ExecShow(st, s, fuel)
    case NodeFunctionDeclaration(identifier, parameters, giveType, block) =>
      var symbol := FunctionSymbol(identifier, Some(Semantics.ParameterSymbols(parameters)), giveType.name, block);
      Done(st.(functions := st.functions[identifier := symbol]), Next)
    case NodeProcedureDeclaration(identifier, parameters, block) =>
      var symbol := ProcedureSymbol(identifier, Some(Semantics.ParameterSymbols(parameters)), block);
      Done(st.(procedures := st.procedures[identifier := symbol]), Next)
    case NodeProcedureCall(identifier, arguments) => CallProcedure(st, identifier, arguments, fuel)
    case NodeIfStatement(_, _, _, _) => ExecIf(st, s, fuel)
    case NodeWhileStatement(_, _) => ExecWhile(st, s, fuel)
    case NodeSkipStatement => Escaped(st, SkipSignal)
    case NodeStopStatement => Escaped(st, StopSignal)
  }

  /** `visit_NodeVariableDeclaration`: the identifiers are bound in the current frame, the top one. */
  function ExecVariableDeclaration(st: State, s: Statement, fuel: nat): (r: Outcome<Flow>)
    requires s.NodeVariableDeclaration?
    ensures KeepsOuterFrames(st.stack, r.state.stack)
    ensures Clean(st) ==> Balanced(st, r, false)
    decreases fuel, s, 1
  {
    var (_, _) :- Current(st);
    DeclareVariables(st, |st.stack| - 1, s, 0, fuel)
  }

  /** `visit_NodeConstantDeclaration`. */
  function ExecConstantDeclaration(st: State, s: Statement, fuel: nat): (r: Outcome<Flow>)
    requires s.NodeConstantDeclaration?
    ensures KeepsOuterFrames(st.stack, r.state.stack)
    ensures Clean(st) ==> Balanced(st, r, false)
    decreases fuel, s, 1
  {
    var (_, _) :- Current(st);
    DeclareConstants(st, |st.stack| - 1, s, 0, fuel)
  }

  /** `visit_NodeAssignmentStatement`: the value is computed first, then bound in the frame current at that point. */
  function ExecAssignment(st: State, s: Statement, fuel: nat): (r: Outcome<Flow>)
    requires s.NodeAssignmentStatement?
    ensures KeepsOuterFrames(st.stack, r.state.stack)
    ensures Clean(st) ==> Balanced(st, r, false)
    decreases fuel, s, 1
  {
    var (st1, v) :- Eval(st, s.expression, fuel);
    var (_, _) :- Current(st1);
    Done(Bind(st1, |st1.stack| - 1, s.identifier, v), Next)
  }

  /** `visit_NodeGiveStatement`: the given value, if any, travels up as the statement's result. */
  function ExecGive(st: State, s: Statement, fuel: nat): (r: Outcome<Flow>)
    requires s.NodeGiveStatement?
    ensures KeepsOuterFrames(st.stack, r.state.stack)
    ensures Clean(st) ==> Balanced(st, r, false)
    decreases fuel, s, 1
  {
    if s.value.None? then Done(st, Gave(None))
    else
      var (st1, v) :- Eval(st, s.value.value, fuel);
      Done(st1, Gave(Some(v)))
  }

  /** `visit_NodeShowStatement`: `print` appends the value's `str` to the output. */
  function ExecShow(st: State, s: Statement, fuel: nat): (r: Outcome<Flow>)
    requires s.NodeShowStatement?
    ensures KeepsOuterFrames(st.stack, r.state.stack)
    ensures Clean(st) ==> Balanced(st, r, false)
    decreases fuel, s, 1
  {
    var (st1, v) :- Eval(st, s.expression, fuel);
    Done(st1.(output := st1.output + [PyStr(v)]), Next)
  }

  /**
   * `visit_NodeVariableDeclaration` from the `i`-th identifier on: each is
   * bound, in the record that was current when the declaration started, to
   * its initializer's value or to its type's default.
   */
  function DeclareVariables(st: State, at: nat, s: Statement, i: nat, fuel: nat): (r: Outcome<Flow>)
    requires s.NodeVariableDeclaration? && i <= |s.identifiers| && at < |st.stack|
    ensures KeepsBelow(st.stack, r.state.stack, at)
    ensures Clean(st) ==> Balanced(st, r, false)
    decreases fuel, s, 1, |s.identifiers| - i
  {
    if i == |s.identifiers| then Done(st, Next)
    else
      var initializers := s.initializers;
      var (st1, v) :-
        if initializers.Expressions? && i < |initializers.items| then Eval(st, initializers.items[i], fuel)
        else Lift(st, DefaultValue(s.varType.name));
      DeclareVariables(Bind(st1, at, s.identifiers[i], v), at, s, i + 1, fuel)
  }

  /** `visit_NodeConstantDeclaration` from the `i`-th identifier on; an identifier without an expression is an `IndexError`. */
  function DeclareConstants(st: State, at: nat, s: Statement, i: nat, fuel: nat): (r: Outcome<Flow>)
    requires s.NodeConstantDeclaration? && i <= |s.identifiers| && at < |st.stack|
    ensures KeepsBelow(st.stack, r.state.stack, at)
    ensures Clean(st) ==> Balanced(st, r, false)
    decreases fuel, s, 1, |s.identifiers| - i
  {
    if i == |s.identifiers| then Done(st, Next)
    else if i >= |s.expressions| then Failed(st, Crash("IndexError"))
    else
      var (st1, v) :- Eval(st, s.expressions[i], fuel);
      DeclareConstants(Bind(st1, at, s.identifiers[i], v), at, s, i + 1, fuel)
  }

  function ElifItems(elifs: ElifList): seq<Elif>
  {
    match elifs
    case NoElifs => []
    case Elifs(items) => items
  }

  /** `visit_NodeIfStatement`: the first branch whose condition holds runs, and its result is the statement's. */
  function ExecIf(st: State, s: Statement, fuel: nat): (r: Outcome<Flow>)
    requires s.NodeIfStatement?
    ensures KeepsOuterFrames(st.stack, r.state.stack)
    ensures Clean(st) && Contained(s, false) ==> Balanced(st, r, false)
    ensures Clean(st) && Contained(s, true) ==> Balanced(st, r, true)
    decreases fuel, s, 1
  {
    var (st1, c) :- EvalBool(st, s.condition, fuel);
    if c then ExecBlock(st1, s.block, fuel) else ExecElifs(st1, s, 0, fuel)
  }

  /** The `elif` branches from the `i`-th on, then the `else` branch. */
  function ExecElifs(st: State, s: Statement, i: nat, fuel: nat): (r: Outcome<Flow>)
    requires s.NodeIfStatement? && i <= |ElifItems(s.elifs)|
    ensures KeepsOuterFrames(st.stack, r.state.stack)
    ensures Clean(st) && Contained(s, false) ==> Balanced(st, r, false)
    ensures Clean(st) && Contained(s, true) ==> Balanced(st, r, true)
    decreases fuel, s, 0, |ElifItems(s.elifs)| - i
  {
    var elifs := ElifItems(s.elifs);
    if i == |elifs| then
      match s.elseBranch
      case NoElse => Done(st, Next)
      case SomeElse(e) => ExecBlock(st, e.block, fuel)
    else
      var (st1, c) :- EvalBool(st, elifs[i].condition, fuel);
      if c then ExecBlock(st1, elifs[i].block, fuel) else ExecElifs(st1, s, i + 1, fuel)
  }

  /**
   * `visit_NodeWhileStatement`: the condition is evaluated before every
   * iteration; a skip signal from the condition or the body goes on to the
   * next iteration, a stop signal ends the loop, and a give ends it with the
   * give. Each iteration costs one unit of fuel.
   */
  function ExecWhile(st: State, s: Statement, fuel: nat): (r: Outcome<Flow>)
    requires s.NodeWhileStatement?
    ensures KeepsOuterFrames(st.stack, r.state.stack)
    ensures Clean(st) && BlockContained(s.block, true) ==> Balanced(st, r, false)
    decreases fuel, s, 1
  {
    if fuel == 0 then Failed(st, OutOfFuel)
    else
      match EvalBool(st, s.condition, fuel)
      case Failed(st1, f) => Failed(st1, f)
      case Escaped(st1, SkipSignal) => ExecWhile(st1, s, fuel - 1)
      case Escaped(st1, StopSignal) => Done(st1, Next)
      case Done(st1, false) => Done(st1, Next)
      case Done(st1, true) =>
        match ExecBlock(st1, s.block, fuel)
        case Failed(st2, f) => Failed(st2, f)
        case Escaped(st2, SkipSignal) => ExecWhile(st2, s, fuel - 1)
        case Escaped(st2, StopSignal) => Done(st2, Next)
        case Done(st2, Gave(v)) => Done(st2, Gave(v))
        case Done(st2, Next) => ExecWhile(st2, s, fuel - 1)
  }

  /** The program's activation record. */
  function ProgramFrame(): Frame
  {
    NewFrame("program", ProgramRecord, 1)
  }

  /** `visit_NodeProgram`: the program's record is pushed, the block runs, and the record on top is popped. */
  function RunProgram(st: State, p: Program, fuel: nat): (r: Outcome<Flow>)
    ensures r.Done? ==> r.value == Next && |r.state.stack| >= |st.stack|
    ensures !r.Done? ==> |r.state.stack| > |st.stack|
  {
    var (st1, _) :- ExecBlock(st.(stack := PushFrame(st.stack, ProgramFrame())), p.block, fuel);
    Done(st1.(stack := st1.stack[..|st1.stack| - 1]), Next)
  }

  /** A new interpreter: an empty call stack, no functions or procedures, nothing printed. */
  function InitialState(): State
  {
    State([], map[], map[], [])
  }

  /** `Interpreter().interpret(tree)`. */
  function Interpret(p: Program, fuel: nat): (r: Outcome<Flow>)
    ensures r.Done? ==> r.value == Next
    ensures !r.Done? ==> r.state.stack != []
  {
    RunProgram(InitialState(), p, fuel)
  }
}
