/**
 * Properties of the interpreter's meaning (module Interpretation): push and
 * pop balance over a whole program, the frame a `stop` leaves behind when it
 * escapes a procedure, short-circuit evaluation, Python's arithmetic and
 * ordering, how a call's record is seeded and bound, and how a block runs
 * its statements.
 */
module InterpretationProperties {
  import opened Wrappers
  import opened Ast
  import opened SymbolTable
  import opened CallStacks
  import opened Interpretation
  import Text
  import Semantics

  // ---------------------------------------------------------------------------
  // Values and operators
  // ---------------------------------------------------------------------------

  /** `/`, `//` and `%` report a division by zero exactly when the divisor is 0 or False. */
  lemma DivisionByZeroExactly(left: Value, op: string, right: Value)
    requires op == "/" || op == "//" || op == "%"
    ensures var r := ApplyBinary(left, op, right);
      (r.Failure? && r.error.RuntimeError? && r.error.code == DivisionByZero) <==> IsZero(right)
  {
  }

  /** On numbers and booleans, `-` undoes `+`. */
  lemma SubtractUndoesAdd(a: Value, b: Value)
    requires IsNumeric(a) && IsNumeric(b)
    ensures var sum := ApplyBinary(a, "+", b);
      sum.Success? && ApplyBinary(sum.value, "-", b) == Success(Number(NumericValue(a)))
  {
  }

  /** `+` with a string on either side joins the two `str` forms, so its length is the sum of theirs. */
  lemma ConcatenationLength(a: Value, b: Value)
    requires a.Str? || b.Str?
    ensures var r := ApplyBinary(a, "+", b);
      r.Success? && r.value.Str? && |r.value.s| == |PyStr(a)| + |PyStr(b)|
      && r.value.s[..|PyStr(a)|] == PyStr(a) && r.value.s[|PyStr(a)|..] == PyStr(b)
  {
  }

  /** `//` and `%` on numbers: the quotient times the divisor plus the remainder is the dividend. */
  lemma DivModReconstruct(a: Value, b: Value)
    requires IsNumeric(a) && IsNumeric(b) && !IsZero(b)
    ensures var q := ApplyBinary(a, "//", b);
      var m := ApplyBinary(a, "%", b);
      && q.Success? && m.Success? && q.value.Number? && m.value.Number?
      && NumericValue(b) * q.value.n + m.value.n == NumericValue(a)
      && (NumericValue(b) > 0 ==> 0 <= m.value.n < NumericValue(b))
      && (NumericValue(b) < 0 ==> NumericValue(b) < m.value.n <= 0)
  {
    FloorDivision(NumericValue(a), NumericValue(b));
  }

  /** A value is true exactly when it differs from the default value of its type in the language. */
  lemma TruthyUnlessDefault(v: Value)
    ensures var typeName := match v case Number(_) => "number" case Str(_) => "string" case Boolean(_) => "boolean";
      DefaultValue(typeName).Success? && (Truthy(v) <==> v != DefaultValue(typeName).value)
  {
    if v.Str? {
      assert v.s == "" <==> |v.s| == 0;
    }
  }

  /** A number literal spelled as `str(n)` evaluates to `n`, and showing `n` prints that spelling back. */
  lemma NumberLiteralShown(n: int)
    ensures NumberLiteral(Text.IntToString(n)) == Success(Number(n))
    ensures PyStr(Number(n)) == Text.IntToString(n)
  {
    var s := Text.IntToString(n);
    Text.IntegerTextOfIntToString(n);
    Text.IntegerTextIsNoFloatText(s);
    assert s == [s[0]] + Text.Unsigned(s) || s == Text.Unsigned(s);
  }

  // ---------------------------------------------------------------------------
  // Ordering of strings
  // ---------------------------------------------------------------------------

  /** Comparing the other way round gives the opposite result. */
  lemma {:induction false} LexCompareAntisymmetric(a: string, b: string, i: nat)
    requires i <= |a| && i <= |b|
    ensures LexCompare(a, b, i) == -LexCompare(b, a, i)
    decreases |a| - i
  {
    if i < |a| && i < |b| && a[i] == b[i] {
      LexCompareAntisymmetric(a, b, i + 1);
    }
  }

  /** Two strings compare equal from `i` on exactly when they agree from `i` on. */
  lemma {:induction false} LexCompareZero(a: string, b: string, i: nat)
    requires i <= |a| && i <= |b|
    ensures LexCompare(a, b, i) == 0 <==> a[i..] == b[i..]
    decreases |a| - i
  {
    if i < |a| && i < |b| {
      if a[i] == b[i] {
        LexCompareZero(a, b, i + 1);
        assert a[i..] == [a[i]] + a[i + 1..];
        assert b[i..] == [b[i]] + b[i + 1..];
      } else {
        assert a[i..][0] != b[i..][0];
      }
    } else if i == |a| && i < |b| {
      assert |a[i..]| != |b[i..]|;
    } else if i < |a| && i == |b| {
      assert |a[i..]| != |b[i..]|;
    }
  }

  /** A proper prefix orders first. */
  lemma {:induction false} PrefixOrdersFirst(a: string, b: string, i: nat)
    requires i <= |a| < |b| && a == b[..|a|]
    ensures LexCompare(a, b, i) == -1
    decreases |a| - i
  {
    if i < |a| {
      assert a[i] == b[..|a|][i];
      PrefixOrdersFirst(a, b, i + 1);
    }
  }

  /** `a < b` and `b > a` agree, and `==` is symmetric, for every pair the comparison accepts. */
  lemma CompareConverse(a: Value, b: Value)
    ensures Compare(a, "<", b) == Compare(b, ">", a)
    ensures Compare(a, "<=", b) == Compare(b, ">=", a)
    ensures Compare(a, "==", b) == Compare(b, "==", a)
    ensures Compare(a, "!=", b).Success? && Compare(a, "!=", b).value == !Compare(a, "==", b).value
  {
    if a.Str? && b.Str? {
      LexCompareAntisymmetric(a.s, b.s, 0);
    }
  }

  /** String equality by `==` agrees with the ordering: equal exactly when neither `<` nor `>` holds. */
  lemma StringEqualityIsOrderEquality(a: string, b: string)
    ensures Compare(Str(a), "==", Str(b)) == Success(Compare(Str(a), "<=", Str(b)).value && Compare(Str(a), ">=", Str(b)).value)
  {
    LexCompareZero(a, b, 0);
    assert a[0..] == a && b[0..] == b;
  }

  // ---------------------------------------------------------------------------
  // The callee's record
  // ---------------------------------------------------------------------------

  /** Binding from the `i`-th pair on adds exactly the parameters paired with an argument. */
  lemma {:induction false} BindFromKeys(members: map<string, Value>, parameters: seq<Symbol>, arguments: seq<Value>, i: nat, k: string)
    requires i <= |parameters| && i <= |arguments|
    ensures k in BindFrom(members, parameters, arguments, i) <==>
      k in members || exists j | i <= j < |parameters| && j < |arguments| :: parameters[j].identifier == k
    decreases |parameters| - i
  {
    if i < |parameters| && i < |arguments| {
      BindFromKeys(members[parameters[i].identifier := arguments[i]], parameters, arguments, i + 1, k);
      if parameters[i].identifier == k {
        assert i <= i < |parameters| && i < |arguments| && parameters[i].identifier == k;
      }
    }
  }

  /** A name that is no parameter from the `i`-th pair on keeps the value it had. */
  lemma {:induction false} BindFromKeeps(members: map<string, Value>, parameters: seq<Symbol>, arguments: seq<Value>, i: nat, k: string)
    requires i <= |parameters| && i <= |arguments| && k in members
    requires forall j | i <= j < |parameters| && j < |arguments| :: parameters[j].identifier != k
    ensures k in BindFrom(members, parameters, arguments, i) && BindFrom(members, parameters, arguments, i)[k] == members[k]
    decreases |parameters| - i
  {
    if i < |parameters| && i < |arguments| {
      BindFromKeeps(members[parameters[i].identifier := arguments[i]], parameters, arguments, i + 1, k);
    }
  }

  /** A parameter gets the argument of its last position among the pairs (`zip` stops at the shorter list). */
  lemma {:induction false} BindFromLastWins(members: map<string, Value>, parameters: seq<Symbol>, arguments: seq<Value>, i: nat, j: nat)
    requires i <= j < |parameters| && j < |arguments|
    requires forall l | j < l < |parameters| && l < |arguments| :: parameters[l].identifier != parameters[j].identifier
    ensures var k := parameters[j].identifier;
      k in BindFrom(members, parameters, arguments, i) && BindFrom(members, parameters, arguments, i)[k] == arguments[j]
    decreases |parameters| - i
  {
    var next := members[parameters[i].identifier := arguments[i]];
    if i < j {
      BindFromLastWins(next, parameters, arguments, i + 1, j);
    } else {
      BindFromKeeps(next, parameters, arguments, i + 1, parameters[j].identifier);
    }
  }

  /**
   * The callee's record is one level below the caller's; it can see every
   * member of the caller's record that no parameter hides, and each
   * parameter with an argument holds that argument (the last one of its
   * name, when names repeat).
   */
  lemma CalleeSees(caller: Frame, routine: Symbol, recordType: RecordType, arguments: seq<Value>, k: string)
    requires IsRoutine(routine)
    ensures var callee := CalleeFrame(caller, routine, recordType, arguments);
      && callee.name == routine.identifier && callee.recordType == recordType
      && callee.nestingLevel == caller.nestingLevel + 1
      && (k in caller.members && (routine.parameters.None? || forall j | 0 <= j < |routine.parameters.value| && j < |arguments| :: routine.parameters.value[j].identifier != k)
          ==> k in callee.members && callee.members[k] == caller.members[k])
  {
    if routine.parameters.Some? && k in caller.members
      && forall j | 0 <= j < |routine.parameters.value| && j < |arguments| :: routine.parameters.value[j].identifier != k
    {
      BindFromKeeps(caller.members, routine.parameters.value, arguments, 0, k);
    }
  }

  /** A parameter of a routine with distinct parameter names holds its argument in the callee's record. */
  lemma ParameterBound(caller: Frame, routine: Symbol, recordType: RecordType, arguments: seq<Value>, j: nat)
    requires IsRoutine(routine) && routine.parameters.Some?
    requires j < |routine.parameters.value| && j < |arguments|
    requires forall l, m | 0 <= l < m < |routine.parameters.value| :: routine.parameters.value[l].identifier != routine.parameters.value[m].identifier
    ensures var callee := CalleeFrame(caller, routine, recordType, arguments);
      var k := routine.parameters.value[j].identifier;
      k in callee.members && callee.members[k] == arguments[j]
  {
    BindFromLastWins(caller.members, routine.parameters.value, arguments, 0, j);
  }

  // ---------------------------------------------------------------------------
  // Expressions
  // ---------------------------------------------------------------------------

  /**
   * `and` and `or` agree with the connectives whenever both operands give a
   * bool, and the right operand is not evaluated (its effects do not
   * happen) when the left one decides.
   */
  lemma LogicalConnectives(st: State, left: Expression, op: string, right: Expression, fuel: nat)
    requires op == "and" || op == "or"
    ensures var l := EvalBool(st, left, fuel);
      var r := EvalBool(l.state, right, fuel);
      var e := EvalLogical(st, NodeBinaryBooleanOperation(left, op, right), fuel);
      && (l.Done? && l.value == (op == "or") ==> e == Done(l.state, Boolean(l.value)))
      && (l.Done? && r.Done? ==> e.Done? && e.value == Boolean(if op == "and" then l.value && r.value else l.value || r.value))
      && (!l.Done? ==> e == l.PropagateFailure())
  {
  }

  // ---------------------------------------------------------------------------
  // Blocks
  // ---------------------------------------------------------------------------

  /** The statements after the first give are not run: appending more statements changes nothing. */
  lemma {:induction false} GiveEndsBlock(st: State, ss: seq<Statement>, rest: seq<Statement>, i: nat, fuel: nat)
    requires i <= |ss|
    requires ExecFrom(st, ss, i, fuel).Done? && ExecFrom(st, ss, i, fuel).value.Gave?
    ensures ExecFrom(st, ss + rest, i, fuel) == ExecFrom(st, ss, i, fuel)
    decreases |ss| - i
  {
    assert (ss + rest)[i] == ss[i];
    var o := ExecStatement(st, ss[i], fuel);
    if o.Done? && !o.value.Gave? {
      GiveEndsBlock(o.state, ss, rest, i + 1, fuel);
    }
  }

  /** A block that ends without a give is followed by the statements appended to it, from the state it reached. */
  lemma {:induction false} BlockSequence(st: State, ss: seq<Statement>, rest: seq<Statement>, i: nat, fuel: nat)
    requires i <= |ss|
    requires ExecFrom(st, ss, i, fuel) == Done(ExecFrom(st, ss, i, fuel).state, Next)
    ensures ExecFrom(st, ss + rest, i, fuel) == ExecFrom(ExecFrom(st, ss, i, fuel).state, rest, 0, fuel)
    decreases |ss| - i
  {
    if i == |ss| {
      ExecFromShift(st, ss, rest, 0, fuel);
    } else {
      assert (ss + rest)[i] == ss[i];
      var o := ExecStatement(st, ss[i], fuel);
      BlockSequence(o.state, ss, rest, i + 1, fuel);
    }
  }

  /** Running `ss + rest` from position `|ss| + j` is running `rest` from `j`. */
  lemma {:induction false} ExecFromShift(st: State, ss: seq<Statement>, rest: seq<Statement>, j: nat, fuel: nat)
    requires j <= |rest|
    ensures ExecFrom(st, ss + rest, |ss| + j, fuel) == ExecFrom(st, rest, j, fuel)
    decreases |rest| - j
  {
    if j < |rest| {
      assert (ss + rest)[|ss| + j] == rest[j];
      var o := ExecStatement(st, rest[j], fuel);
      if o.Done? && !o.value.Gave? {
        ExecFromShift(o.state, ss, rest, j + 1, fuel);
      }
    }
  }

  /** A variable declared without an initializer holds its type's default in the current record; an unknown type is a `KeyError`. */
  lemma DeclaredWithDefault(st: State, t: NodeType, name: string, fuel: nat)
    requires st.stack != []
    ensures var r := ExecStatement(st, NodeVariableDeclaration(t, [name], NoExpressions), fuel);
      var top := |st.stack| - 1;
      match DefaultValue(t.name)
      case Success(v) => r == Done(Bind(st, top, name, v), Next) && r.state.stack[top].members[name] == v
      case Failure(f) => r == Failed(st, f)
  {
    var s := NodeVariableDeclaration(t, [name], NoExpressions);
    var top := |st.stack| - 1;
    var o := Lift(st, DefaultValue(t.name));
    assert ExecStatement(st, s, fuel) == DeclareVariables(st, top, s, 0, fuel);
    if o.Done? {
      assert DeclareVariables(Bind(o.state, top, name, o.value), top, s, 1, fuel) == Done(Bind(st, top, name, o.value), Next);
    }
  }

  // ---------------------------------------------------------------------------
  // Programs
  // ---------------------------------------------------------------------------

  /**
   * A program whose skips and stops all lie inside a loop of the same body
   * never lets a signal escape, and when it completes the call stack is
   * exactly as it was before: the program's record was pushed and popped.
   */
  lemma ContainedProgramBalances(st: State, p: Program, fuel: nat)
    requires Clean(st) && BlockContained(p.block, false)
    ensures var r := RunProgram(st, p, fuel);
      !r.Escaped? && (r.Done? ==> r.state.stack == st.stack)
  {
    var pushed := st.(stack := PushFrame(st.stack, ProgramFrame()));
    var b := ExecBlock(pushed, p.block, fuel);
    assert Clean(pushed);
    if b.Done? {
      assert |b.state.stack| == |st.stack| + 1;
      assert b.state.stack[..|b.state.stack| - 1] == st.stack;
    }
  }

  /** Any program leaves the records it found on the stack untouched, whatever its outcome. */
  lemma RunProgramKeepsRecords(st: State, p: Program, fuel: nat)
    ensures KeepsBelow(st.stack, RunProgram(st, p, fuel).state.stack, |st.stack|)
  {
    var pushed := st.(stack := PushFrame(st.stack, ProgramFrame()));
    var b := ExecBlock(pushed, p.block, fuel);
    assert forall k | 0 <= k < |st.stack| :: pushed.stack[k] == st.stack[k];
  }

  /** `Interpreter().interpret(tree)` on such a program ends, when it completes, with an empty call stack. */
  lemma InterpretEmptiesStack(p: Program, fuel: nat)
    requires BlockContained(p.block, false)
    ensures !Interpret(p, fuel).Escaped?
    ensures Interpret(p, fuel).Done? ==> Interpret(p, fuel).state.stack == []
  {
    ContainedProgramBalances(InitialState(), p, fuel);
  }

  /** A skip at the top level of a program escapes `interpret` as the uncaught `SkipException`. */
  lemma SkipEscapesProgram(fuel: nat)
    ensures Interpret(NodeProgram(NodeBlock(Statements([NodeSkipStatement]))), fuel)
      == Escaped(State([ProgramFrame()], map[], map[], []), SkipSignal)
  {
    var pushed := State([ProgramFrame()], map[], map[], []);
    assert InitialState().(stack := PushFrame([], ProgramFrame())) == pushed;
    assert ExecStatement(pushed, NodeSkipStatement, fuel) == Escaped(pushed, SkipSignal);
    assert ExecFrom(pushed, [NodeSkipStatement], 0, fuel) == Escaped(pushed, SkipSignal);
    assert ExecBlock(pushed, NodeBlock(Statements([NodeSkipStatement])), fuel) == Escaped(pushed, SkipSignal);
  }

  /** `while true { procedure leave() { stop } leave() }`. */
  function LoopLeavingThroughProcedure(): Program
  {
    NodeProgram(NodeBlock(Statements([NodeWhileStatement(NodeBooleanLiteral("true"), LoopBody())])))
  }

  function LoopBody(): Block
  {
    NodeBlock(Statements([LeaveDeclaration(), NodeProcedureCall("leave", NoExpressions)]))
  }

  function LeaveDeclaration(): Statement
  {
    NodeProcedureDeclaration("leave", None, NodeBlock(Statements([NodeStopStatement])))
  }

  /** The state once `leave` is declared, and the one the stop escapes with: the procedure's record is still on top. */
  function Declared(): State
  {
    State([ProgramFrame()], map[], map["leave" := ProcedureSymbol("leave", Some([]), NodeBlock(Statements([NodeStopStatement])))], [])
  }

  function Left(): State
  {
    Declared().(stack := [ProgramFrame(), Frame("leave", ProcedureRecord, 2, map[])])
  }

  /** Calling `leave` pushes its record, and the stop escapes before the pop. */
  lemma CallOfLeaveEscapes()
    ensures ExecStatement(Declared(), NodeProcedureCall("leave", NoExpressions), 1) == Escaped(Left(), StopSignal)
  {
    var stop := NodeBlock(Statements([NodeStopStatement]));
    var symbol := ProcedureSymbol("leave", Some([]), stop);
    assert CalleeFrame(ProgramFrame(), symbol, ProcedureRecord, []) == Frame("leave", ProcedureRecord, 2, map[]);
    assert Declared().(stack := PushFrame(Declared().stack, Frame("leave", ProcedureRecord, 2, map[]))) == Left();
    assert ExecFrom(Left(), [NodeStopStatement], 0, 0) == Escaped(Left(), StopSignal);
    assert ExecBlock(Left(), stop, 0) == Escaped(Left(), StopSignal);
    assert Invoke(Declared(), Some(symbol), ProcedureRecord, NoExpressions, 1) == Escaped(Left(), StopSignal);
  }

  /** The outcome of running `routine`'s block in the record a call pushes, once the arguments are evaluated. */
  ghost function CalleeRun(st: State, routine: Symbol, recordType: RecordType, arguments: ExpressionList, fuel: nat): Outcome<Flow>
    requires IsRoutine(routine) && fuel > 0
    requires EvalArguments(st, arguments, fuel).Done? && EvalArguments(st, arguments, fuel).state.stack != []
  {
    var a := EvalArguments(st, arguments, fuel);
    var callee := CalleeFrame(a.state.stack[|a.state.stack| - 1], routine, recordType, a.value);
    ExecBlock(a.state.(stack := PushFrame(a.state.stack, callee)), routine.block, fuel - 1)
  }

  /** Invoking a routine runs its block in the pushed record and pops that record when the block completes. */
  lemma InvokeRuns(st: State, routine: Symbol, recordType: RecordType, arguments: ExpressionList, fuel: nat)
    requires IsRoutine(routine) && fuel > 0
    requires EvalArguments(st, arguments, fuel).Done? && EvalArguments(st, arguments, fuel).state.stack != []
    ensures var b := CalleeRun(st, routine, recordType, arguments, fuel);
            var r := Invoke(st, Some(routine), recordType, arguments, fuel);
            && (b.Done? ==> |b.state.stack| > 0 && r == Done(b.state.(stack := b.state.stack[..|b.state.stack| - 1]), b.value))
            && (!b.Done? ==> r == b.PropagateFailure())
  {
    var a := EvalArguments(st, arguments, fuel);
    assert Current(a.state) == Done(a.state, a.state.stack[|a.state.stack| - 1]);
  }

  /** A function call yields the value its body gives, in the state with its record popped; an empty give,
      a body that ends without giving, and a body that fails or escapes end the call as the source says. */
  lemma FunctionCallOutcome(st: State, name: string, arguments: ExpressionList, fuel: nat)
    requires name in st.functions && IsRoutine(st.functions[name]) && fuel > 0
    requires EvalArguments(st, arguments, fuel).Done? && EvalArguments(st, arguments, fuel).state.stack != []
    ensures var b := CalleeRun(st, st.functions[name], FunctionRecord, arguments, fuel);
            var r := CallFunction(st, name, arguments, fuel);
            && (b.Done? && b.value.Gave? && b.value.given.Some? ==>
                  |b.state.stack| > 0 && r == Done(b.state.(stack := b.state.stack[..|b.state.stack| - 1]), b.value.given.value))
            && (b.Done? && b.value == Gave(None) ==> r.Failed? && r.fault.RuntimeError? && r.fault.code == FunctionEmptyGive)
            && (b.Done? && b.value == Next ==> r.Failed? && r.fault.RuntimeError? && r.fault.code == FunctionNotGiving)
            && (!b.Done? ==> r == b.PropagateFailure())
  {
    assert Lookup(st.functions, name) == Some(st.functions[name]);
    InvokeRuns(st, st.functions[name], FunctionRecord, arguments, fuel);
  }

  /** A procedure call fails with `PROCEDURE_GIVING_VALUE` exactly when its body gives a value; otherwise it
      completes with its record popped, and a body that fails or escapes ends the call the same way. */
  lemma ProcedureGivesNoValue(st: State, name: string, arguments: ExpressionList, fuel: nat)
    requires name in st.procedures && IsRoutine(st.procedures[name]) && fuel > 0
    requires EvalArguments(st, arguments, fuel).Done? && EvalArguments(st, arguments, fuel).state.stack != []
    ensures var b := CalleeRun(st, st.procedures[name], ProcedureRecord, arguments, fuel);
            var r := CallProcedure(st, name, arguments, fuel);
            && (b.Done? ==> ((r.Failed? && r.fault.RuntimeError? && r.fault.code == ProcedureGivingValue) <==>
                             (b.value.Gave? && b.value.given.Some?)))
            && (b.Done? && !(b.value.Gave? && b.value.given.Some?) ==>
                  |b.state.stack| > 0 && r == Done(b.state.(stack := b.state.stack[..|b.state.stack| - 1]), Next))
            && (!b.Done? ==> r == b.PropagateFailure())
  {
    assert Lookup(st.procedures, name) == Some(st.procedures[name]);
    InvokeRuns(st, st.procedures[name], ProcedureRecord, arguments, fuel);
  }

  /** Calling a name no routine is declared under fails with the `AttributeError` of `None.identifier`. */
  lemma UnknownRoutineCrashes(st: State, name: string, arguments: ExpressionList, fuel: nat)
    requires EvalArguments(st, arguments, fuel).Done? && EvalArguments(st, arguments, fuel).state.stack != []
    ensures name !in st.functions ==>
              CallFunction(st, name, arguments, fuel).Failed? && CallFunction(st, name, arguments, fuel).fault == Crash("AttributeError")
    ensures name !in st.procedures ==>
              CallProcedure(st, name, arguments, fuel).Failed? && CallProcedure(st, name, arguments, fuel).fault == Crash("AttributeError")
  {
  }

  /** The loop's body declares `leave` and calls it. */
  lemma LoopBodyEscapes()
    ensures ExecBlock(State([ProgramFrame()], map[], map[], []), LoopBody(), 1) == Escaped(Left(), StopSignal)
  {
    var st0 := State([ProgramFrame()], map[], map[], []);
    var call := NodeProcedureCall("leave", NoExpressions);
    assert ExecStatement(st0, LeaveDeclaration(), 1) == Done(Declared(), Next);
    CallOfLeaveEscapes();
    assert ExecFrom(Declared(), [LeaveDeclaration(), call], 1, 1) == Escaped(Left(), StopSignal);
  }

  /** The loop catches the stop and ends, with the procedure's record still pushed. */
  lemma LoopEndsWithRecordPushed()
    ensures ExecWhile(State([ProgramFrame()], map[], map[], []), NodeWhileStatement(NodeBooleanLiteral("true"), LoopBody()), 1) == Done(Left(), Next)
  {
    var st0 := State([ProgramFrame()], map[], map[], []);
    assert EvalBool(st0, NodeBooleanLiteral("true"), 1) == Done(st0, true);
    LoopBodyEscapes();
  }

  /**
   * A stop inside a procedure declared inside a loop escapes the call before
   * the procedure's record is popped; the loop catches it, and the pop at
   * the end of the program removes the procedure's record instead of the
   * program's, which stays on the stack.
   */
  lemma StopInProcedureLeavesRecord()
    ensures var r := Interpret(LoopLeavingThroughProcedure(), 1);
      r.Done? && r.state.stack == [ProgramFrame()]
  {
    var st0 := State([ProgramFrame()], map[], map[], []);
    var loop := NodeWhileStatement(NodeBooleanLiteral("true"), LoopBody());
    assert InitialState().(stack := PushFrame([], ProgramFrame())) == st0;
    LoopEndsWithRecordPushed();
    assert ExecFrom(st0, [loop], 0, 1) == Done(Left(), Next);
  }

  /** The scope chain inside the loop, and the same chain once `leave` is defined in the loop's scope. */
  function LoopChain(): seq<Scope>
  {
    Semantics.Enter(Semantics.GlobalChain(), "while_statement_1", WhileBlock, [])
  }

  function LeaveDefined(): seq<Scope>
  {
    DefineInnermost(LoopChain(), ProcedureSymbol("leave", None, NodeBlock(Statements([NodeStopStatement]))))
  }

  /** Inside the body of `leave`, the stop finds the loop's scope on the chain. */
  lemma LeaveBodyAccepted()
    ensures var inner := Semantics.Enter(LeaveDefined(), "leave", ProcedureScope, []);
      Semantics.VisitBlock(inner, NodeBlock(Statements([NodeStopStatement]))) == Success(inner)
  {
    var inner := Semantics.Enter(LeaveDefined(), "leave", ProcedureScope, []);
    assert inner[1].scopeType == WhileBlock;
    assert Semantics.VisitStatement(inner, NodeStopStatement) == Success(inner);
  }

  /** The body of `leave`, run in its own scope, leaves the chain as it was. */
  lemma LeaveNestedAccepted()
    ensures Semantics.VisitNested(LeaveDefined(), "leave", ProcedureScope, [], NodeBlock(Statements([NodeStopStatement]))) == Success(LeaveDefined())
  {
    LeaveBodyAccepted();
  }

  /** The declaration of `leave` passes: the name is new to the loop's scope and the body passes. */
  lemma LeaveDeclarationAccepted()
    ensures Semantics.VisitStatement(LoopChain(), LeaveDeclaration()) == Success(LeaveDefined())
  {
    assert LookupCurrent(Semantics.Current(LoopChain()), "leave").None?;
    assert Semantics.ParameterSymbols(None) == [];
    LeaveNestedAccepted();
  }

  /** The call of `leave` passes: the name is found and no arguments are expected. */
  lemma LeaveCallAccepted()
    ensures Semantics.VisitStatement(LeaveDefined(), NodeProcedureCall("leave", NoExpressions)) == Success(LeaveDefined())
  {
    DefineThenLookup(LoopChain(), ProcedureSymbol("leave", None, NodeBlock(Statements([NodeStopStatement]))), "leave");
  }

  /** The loop's body passes, defining `leave` in the loop's scope. */
  lemma LoopBodyAccepted()
    ensures Semantics.VisitBlock(LoopChain(), LoopBody()) == Success(LeaveDefined())
  {
    LeaveDeclarationAccepted();
    LeaveCallAccepted();
    var body := [LeaveDeclaration(), NodeProcedureCall("leave", NoExpressions)];
    assert Semantics.VisitStatements(LeaveDefined(), body, 1) == Success(LeaveDefined());
  }

  /** The loop passes and leaves the global chain as it was. */
  lemma LoopAccepted()
    ensures Semantics.VisitStatement(Semantics.GlobalChain(), NodeWhileStatement(NodeBooleanLiteral("true"), LoopBody())) == Success(Semantics.GlobalChain())
  {
    var global := Semantics.GlobalChain();
    var loop := NodeWhileStatement(NodeBooleanLiteral("true"), LoopBody());
    assert Semantics.Current(global).level == 1;
    assert Text.IntToString(1) == "1";
    assert "while_statement_" + "1" == "while_statement_1";
    LoopBodyAccepted();
    assert Semantics.Exit(LeaveDefined()) == global;
    assert Semantics.VisitNested(global, "while_statement_1", WhileBlock, [], LoopBody()) == Success(global);
    assert Semantics.VisitWhile(global, loop) == Success(global);
  }

  /** The semantic analyzer accepts that program. */
  lemma LoopLeavingThroughProcedureAccepted()
    ensures Semantics.Analyze(LoopLeavingThroughProcedure()).Success?
  {
    LoopAccepted();
  }
}
