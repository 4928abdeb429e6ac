/**
 * The abstract syntax tree: one constructor per node class. Identifiers are
 * kept as their names, and optional children (`None` in the tree) as
 * `Option`. The visitor base class becomes a dispatch function over the node
 * classes that says which `visit_X` runs or what error is raised.
 */
module Ast {
  import opened Wrappers
  import opened Tokens

  /** A type annotation; its name is the value string of the type keyword it was built from. */
  datatype NodeType = NodeType(name: string)

  datatype Expression =
    | NodeIdentifier(name: string)
    | NodeFunctionCall(identifier: string, arguments: ExpressionList)
    | NodeBinaryArithmeticOperation(left: Expression, operator: string, right: Expression)
    | NodeUnaryArithmeticOperation(operator: string, operand: Expression)
    | NodeNumberLiteral(lexeme: string)
    | NodeStringLiteral(lexeme: string)
    | NodeArithmeticExpressionAsBoolean(expression: Expression)
    | NodeBinaryBooleanOperation(left: Expression, logicalOperator: string, right: Expression)
    | NodeUnaryBooleanOperation(logicalOperator: string, operand: Expression)
    | NodeComparisonExpression(left: Expression, comparator: string, right: Expression)
    | NodeBooleanLiteral(lexeme: string)

  /**
   * An optional list of expressions (call arguments, declaration
   * initializers). This and the three types below play the part of
   * `list[...] | None` for children the tree recurses through.
   */
  datatype ExpressionList = NoExpressions | Expressions(items: seq<Expression>)

  datatype StatementList = NoStatements | Statements(items: seq<Statement>)

  datatype ElifList = NoElifs | Elifs(items: seq<Elif>)

  datatype ElsePart = NoElse | SomeElse(node: Else)

  datatype Statement =
    | NodeVariableDeclaration(varType: NodeType, identifiers: seq<string>, initializers: ExpressionList)
    | NodeConstantDeclaration(constType: NodeType, identifiers: seq<string>, expressions: seq<Expression>)
    | NodeAssignmentStatement(identifier: string, expression: Expression)
    | NodeGiveStatement(value: Option<Expression>)
    | NodeShowStatement(expression: Expression)
    | NodeIfStatement(condition: Expression, block: Block, elifs: ElifList, elseBranch: ElsePart)
    | NodeWhileStatement(condition: Expression, block: Block)
    | NodeSkipStatement
    | NodeStopStatement
    | NodeFunctionDeclaration(identifier: string, parameters: Option<seq<Parameter>>, giveType: NodeType, block: Block)
    | NodeProcedureDeclaration(identifier: string, parameters: Option<seq<Parameter>>, block: Block)
    | NodeProcedureCall(identifier: string, arguments: ExpressionList)

  /** A block's statement list is absent, not empty, when the block has no statements. */
  datatype Block = NodeBlock(statements: StatementList)

  datatype Elif = NodeElif(condition: Expression, block: Block)

  datatype Else = NodeElse(block: Block)

  datatype Parameter = NodeParameter(identifier: string, paramType: NodeType)

  datatype Program = NodeProgram(block: Block)

  /** `NodeType(token)`: the node keeps the value string of the token's kind. */
  function NodeTypeOf(t: Token): (n: NodeType)
    ensures n.name == Value(t.kind)
  {
    NodeType(Value(t.kind))
  }

  /** The names a type node can carry when it is built from one of the three type keywords. */
  predicate IsTypeKeyword(k: TokenType)
  {
    k == NumberType || k == StringType || k == BooleanType
  }

  /** Type keywords give the names "number", "string" and "boolean", and different keywords give different names. */
  lemma NodeTypeNames(t: Token, u: Token)
    requires IsTypeKeyword(t.kind) && IsTypeKeyword(u.kind)
    ensures NodeTypeOf(t).name in {"number", "string", "boolean"}
    ensures NodeTypeOf(t) == NodeTypeOf(u) <==> t.kind == u.kind
  {
  }

  /** The arithmetic node classes: identifiers, calls, number and string literals, arithmetic operations. */
  predicate IsArithmetic(e: Expression)
  {
    e.NodeIdentifier? || e.NodeFunctionCall? || e.NodeBinaryArithmeticOperation? || e.NodeUnaryArithmeticOperation?
    || e.NodeNumberLiteral? || e.NodeStringLiteral?
  }

  /** The boolean node classes: boolean literals, comparisons, as-boolean wrappers, boolean operations. */
  predicate IsBoolean(e: Expression)
  {
    e.NodeArithmeticExpressionAsBoolean? || e.NodeBinaryBooleanOperation? || e.NodeUnaryBooleanOperation?
    || e.NodeComparisonExpression? || e.NodeBooleanLiteral?
  }

  /** Every expression is of exactly one of the two families. */
  lemma ArithmeticOrBoolean(e: Expression)
    ensures IsArithmetic(e) <==> !IsBoolean(e)
  {
  }

  /** Children have the families the node classes' annotations give them; call arguments may be of either. */
  predicate WellTyped(e: Expression)
  {
    match e
    case NodeFunctionCall(_, Expressions(arguments)) => forall i | 0 <= i < |arguments| :: WellTyped(arguments[i])
    case NodeBinaryArithmeticOperation(left, _, right) =>
      IsArithmetic(left) && IsArithmetic(right) && WellTyped(left) && WellTyped(right)
    case NodeUnaryArithmeticOperation(_, operand) => IsArithmetic(operand) && WellTyped(operand)
    case NodeArithmeticExpressionAsBoolean(expression) => IsArithmetic(expression) && WellTyped(expression)
    case NodeBinaryBooleanOperation(left, _, right) =>
      IsBoolean(left) && IsBoolean(right) && WellTyped(left) && WellTyped(right)
    case NodeUnaryBooleanOperation(_, operand) => IsBoolean(operand) && WellTyped(operand)
    case NodeComparisonExpression(left, _, right) =>
      IsArithmetic(left) && IsArithmetic(right) && WellTyped(left) && WellTyped(right)
    case _ => true
  }

  // ---------------------------------------------------------------------------
  // Visitor dispatch
  // ---------------------------------------------------------------------------

  /** The node classes a visitor can be asked to visit. */
  datatype NodeClass =
    | ProgramClass | BlockClass | TypeClass | IdentifierClass
    | VariableDeclarationClass | ConstantDeclarationClass | AssignmentStatementClass
    | GiveStatementClass | ShowStatementClass | ElifClass | ElseClass | IfStatementClass
    | WhileStatementClass | SkipStatementClass | StopStatementClass | ParameterClass
    | FunctionDeclarationClass | ProcedureDeclarationClass | FunctionCallClass | ProcedureCallClass
    | BinaryArithmeticOperationClass | UnaryArithmeticOperationClass | ArithmeticExpressionAsBooleanClass
    | BinaryBooleanOperationClass | UnaryBooleanOperationClass | ComparisonExpressionClass
    | NumberLiteralClass | StringLiteralClass | BooleanLiteralClass

  /** Any node of the tree. */
  datatype Node =
    | ProgramNode(program: Program)
    | BlockNode(block: Block)
    | TypeNode(nodeType: NodeType)
    | ExpressionNode(expression: Expression)
    | StatementNode(statement: Statement)
    | ElifNode(elif: Elif)
    | ElseNode(elseNode: Else)
    | ParameterNode(parameter: Parameter)

  /** `accept`: the class whose `visit_X` a node calls back. */
  function ClassOf(n: Node): NodeClass
  {
    match n
    case ProgramNode(_) => ProgramClass
    case BlockNode(_) => BlockClass
    case TypeNode(_) => TypeClass
    case ElifNode(_) => ElifClass
    case ElseNode(_) => ElseClass
    case ParameterNode(_) => ParameterClass
    case ExpressionNode(e) => (
      match e
      case NodeIdentifier(_) => IdentifierClass
      case NodeFunctionCall(_, _) => FunctionCallClass
      case NodeBinaryArithmeticOperation(_, _, _) => BinaryArithmeticOperationClass
      case NodeUnaryArithmeticOperation(_, _) => UnaryArithmeticOperationClass
      case NodeNumberLiteral(_) => NumberLiteralClass
      case NodeStringLiteral(_) => StringLiteralClass
      case NodeArithmeticExpressionAsBoolean(_) => ArithmeticExpressionAsBooleanClass
      case NodeBinaryBooleanOperation(_, _, _) => BinaryBooleanOperationClass
      case NodeUnaryBooleanOperation(_, _) => UnaryBooleanOperationClass
      case NodeComparisonExpression(_, _, _) => ComparisonExpressionClass
      case NodeBooleanLiteral(_) => BooleanLiteralClass)
    case StatementNode(s) => (
      match s
      case NodeVariableDeclaration(_, _, _) => VariableDeclarationClass
      case NodeConstantDeclaration(_, _, _) => ConstantDeclarationClass
      case NodeAssignmentStatement(_, _) => AssignmentStatementClass
      case NodeGiveStatement(_) => GiveStatementClass
      case NodeShowStatement(_) => ShowStatementClass
      case NodeIfStatement(_, _, _, _) => IfStatementClass
      case NodeWhileStatement(_, _) => WhileStatementClass
      case NodeSkipStatement => SkipStatementClass
      case NodeStopStatement => StopStatementClass
      case NodeFunctionDeclaration(_, _, _, _) => FunctionDeclarationClass
      case NodeProcedureDeclaration(_, _, _) => ProcedureDeclarationClass
      case NodeProcedureCall(_, _) => ProcedureCallClass)
  }

  /** The Python class name of a node class. */
  function ClassName(c: NodeClass): string
  {
    match c
    case ProgramClass => "NodeProgram"
    case BlockClass => "NodeBlock"
    case TypeClass => "NodeType"
    case IdentifierClass => "NodeIdentifier"
    case VariableDeclarationClass => "NodeVariableDeclaration"
    case ConstantDeclarationClass => "NodeConstantDeclaration"
    case AssignmentStatementClass => "NodeAssignmentStatement"
    case GiveStatementClass => "NodeGiveStatement"
    case ShowStatementClass => "NodeShowStatement"
    case ElifClass => "NodeElif"
    case ElseClass => "NodeElse"
    case IfStatementClass => "NodeIfStatement"
    case WhileStatementClass => "NodeWhileStatement"
    case SkipStatementClass => "NodeSkipStatement"
    case StopStatementClass => "NodeStopStatement"
    case ParameterClass => "NodeParameter"
    case FunctionDeclarationClass => "NodeFunctionDeclaration"
    case ProcedureDeclarationClass => "NodeProcedureDeclaration"
    case FunctionCallClass => "NodeFunctionCall"
    case ProcedureCallClass => "NodeProcedureCall"
    case BinaryArithmeticOperationClass => "NodeBinaryArithmeticOperation"
    case UnaryArithmeticOperationClass => "NodeUnaryArithmeticOperation"
    case ArithmeticExpressionAsBooleanClass => "NodeArithmeticExpressionAsBoolean"
    case BinaryBooleanOperationClass => "NodeBinaryBooleanOperation"
    case UnaryBooleanOperationClass => "NodeUnaryBooleanOperation"
    case ComparisonExpressionClass => "NodeComparisonExpression"
    case NumberLiteralClass => "NodeNumberLiteral"
    case StringLiteralClass => "NodeStringLiteral"
    case BooleanLiteralClass => "NodeBooleanLiteral"
  }

  /** A visitor: its class name and the node classes whose `visit_X` it overrides. */
  datatype Visitor = Visitor(name: string, handlers: set<NodeClass>)

  /** `visit_NodeProgram` is abstract, so every concrete visitor overrides it. */
  predicate Concrete(v: Visitor)
  {
    ProgramClass in v.handlers
  }

  /**
   * `visit(node)`: the node's `accept` calls the visitor's `visit_X` for its
   * class; a `visit_X` the visitor does not override raises
   * `NotImplementedError` naming the visitor and the method.
   */
  function Dispatch(v: Visitor, n: Node): (r: Result<NodeClass, string>)
    ensures r.Success? <==> ClassOf(n) in v.handlers
    ensures r.Success? ==> r.value == ClassOf(n)
  {
    var c := ClassOf(n);
    if c in v.handlers then Success(c)
    else Failure("Visitor " + v.name + " does not implement visit_" + ClassName(c))
  }

  /** Every class is handled by the visitor that overrides all of them. */
  const AllClasses: set<NodeClass> :=
    {ProgramClass, BlockClass, TypeClass, IdentifierClass,
     VariableDeclarationClass, ConstantDeclarationClass, AssignmentStatementClass,
     GiveStatementClass, ShowStatementClass, ElifClass, ElseClass, IfStatementClass,
     WhileStatementClass, SkipStatementClass, StopStatementClass, ParameterClass,
     FunctionDeclarationClass, ProcedureDeclarationClass, FunctionCallClass, ProcedureCallClass,
     BinaryArithmeticOperationClass, UnaryArithmeticOperationClass, ArithmeticExpressionAsBooleanClass,
     BinaryBooleanOperationClass, UnaryBooleanOperationClass, ComparisonExpressionClass,
     NumberLiteralClass, StringLiteralClass, BooleanLiteralClass}

  /** The semantic analyzer overrides every `visit_X` except those of types and parameters. */
  const SemanticAnalyzerVisitor: Visitor := Visitor("SemanticAnalyzer", AllClasses - {TypeClass, ParameterClass})

  /** The interpreter also leaves elif and else branches to `visit_NodeIfStatement`. */
  const InterpreterVisitor: Visitor :=
    Visitor("Interpreter", AllClasses - {TypeClass, ParameterClass, ElifClass, ElseClass})

  /** Which nodes each of the two visitors can be handed without raising `NotImplementedError`. */
  lemma VisitorCoverage(n: Node)
    ensures Concrete(SemanticAnalyzerVisitor) && Concrete(InterpreterVisitor)
    ensures Dispatch(SemanticAnalyzerVisitor, n).Success? <==> !(n.TypeNode? || n.ParameterNode?)
    ensures Dispatch(InterpreterVisitor, n).Success? <==> !(n.TypeNode? || n.ParameterNode? || n.ElifNode? || n.ElseNode?)
  {
  }
}
