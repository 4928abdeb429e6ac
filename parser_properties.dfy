/**
 * What the parser's rules promise taken together: how its operators group,
 * which inputs it turns away, and how the token stream it reads relates to
 * the scanner's `tokenize`.
 */
module ParsingProperties {
  import opened Wrappers
  import opened Tokens
  import opened Scanning
  import opened Ast
  import opened Parsing

  /**
   * `_comparison_expression` builds a comparison exactly when a comparator
   * follows its left arithmetic expression, and then reads one more
   * arithmetic expression; otherwise it wraps the left expression as a
   * boolean and reads nothing more.
   */
  lemma ComparisonShape(ts: Lexed, st: nat)
    requires ValidStream(ts) && ValidState(ts, st)
    ensures var r := ComparisonExpression(ts, st);
      var left := ArithmeticExpression(ts, st);
      r.Success? ==> (left.Success? &&
        if IsComparator(Current(ts, left.value.next).kind) then
          && r.value.node.NodeComparisonExpression?
          && r.value.node.left == left.value.node
          && r.value.node.comparator == TokenValue(Current(ts, left.value.next))
          && ArithmeticExpression(ts, left.value.next + 1).Success?
          && r.value.node.right == ArithmeticExpression(ts, left.value.next + 1).value.node
          && r.value.next == ArithmeticExpression(ts, left.value.next + 1).value.next
        else
          r.value == Parsed(NodeArithmeticExpressionAsBoolean(left.value.node), left.value.next))
  {
  }

  /** A successful round of the loop of `_additive_expression` has read its operator. */
  lemma AdditiveOperatorRead(ts: Lexed, st: nat, left: Expression)
    requires ValidStream(ts) && ValidState(ts, st)
    requires IsArithmetic(left) && WellTyped(left)
    requires AdditiveRest(ts, st, left).Success? && IsAdditive(Current(ts, st).kind)
    ensures ValidState(ts, st + 1)
  {
    assert Consume(ts, st, Current(ts, st).kind).Success?;
  }

  /** A successful round of the same loop has read its operand after the operator. */
  lemma AdditiveOperandRead(ts: Lexed, st: nat, left: Expression)
    requires ValidStream(ts) && ValidState(ts, st) && ValidState(ts, st + 1)
    requires IsArithmetic(left) && WellTyped(left)
    requires AdditiveRest(ts, st, left).Success? && IsAdditive(Current(ts, st).kind)
    ensures MultiplicativeExpression(ts, st + 1).Success?
  {
    if MultiplicativeExpression(ts, st + 1).Failure? {
      AdditiveOperandFails(ts, st, left);
      assert false;
    }
  }

  /** One round of the loop of `_additive_expression`: the operator, then one operand of the next level down. */
  lemma AdditiveUnfold(ts: Lexed, st: nat, left: Expression)
    requires ValidStream(ts) && ValidState(ts, st) && ValidState(ts, st + 1)
    requires IsArithmetic(left) && WellTyped(left)
    requires IsAdditive(Current(ts, st).kind)
    requires MultiplicativeExpression(ts, st + 1).Success?
    ensures var right := MultiplicativeExpression(ts, st + 1).value;
      AdditiveRest(ts, st, left) == AdditiveRest(ts, right.next, NodeBinaryArithmeticOperation(left, TokenValue(Current(ts, st)), right.node))
  {
    assert Consume(ts, st, Current(ts, st).kind) == Success(Parsed(Current(ts, st), st + 1));
  }

  /** A round whose operand fails fails the whole loop with the same error. */
  lemma AdditiveOperandFails(ts: Lexed, st: nat, left: Expression)
    requires ValidStream(ts) && ValidState(ts, st) && ValidState(ts, st + 1)
    requires IsArithmetic(left) && WellTyped(left)
    requires IsAdditive(Current(ts, st).kind)
    requires MultiplicativeExpression(ts, st + 1).Failure?
    ensures AdditiveRest(ts, st, left) == Failure(MultiplicativeExpression(ts, st + 1).error)
  {
    assert Consume(ts, st, Current(ts, st).kind) == Success(Parsed(Current(ts, st), st + 1));
  }

  /** `x` is `e` or lies down the chain of left operands of `e`'s binary arithmetic nodes. */
  ghost predicate OnLeftSpine(x: Expression, e: Expression)
    decreases e
  {
    e == x || (e.NodeBinaryArithmeticOperation? && OnLeftSpine(x, e.left))
  }

  lemma {:induction false} LeftSpineTransitive(x: Expression, y: Expression, e: Expression)
    requires OnLeftSpine(x, y) && OnLeftSpine(y, e)
    ensures OnLeftSpine(x, e)
    decreases e
  {
    if e != y {
      LeftSpineTransitive(x, y, e.left);
    }
  }

  /** The loop of `_additive_expression` only ever builds on top of the operand it started with. */
  lemma {:induction false} AdditiveRestKeepsLeft(ts: Lexed, st: nat, left: Expression)
    requires ValidStream(ts) && ValidState(ts, st)
    requires IsArithmetic(left) && WellTyped(left)
    requires AdditiveRest(ts, st, left).Success?
    ensures OnLeftSpine(left, AdditiveRest(ts, st, left).value.node)
    decreases |ts| - st
  {
    if IsAdditive(Current(ts, st).kind) {
      AdditiveOperatorRead(ts, st, left);
      AdditiveOperandRead(ts, st, left);
      AdditiveUnfold(ts, st, left);
      var right := MultiplicativeExpression(ts, st + 1).value;
      var node := NodeBinaryArithmeticOperation(left, TokenValue(Current(ts, st)), right.node);
      AdditiveRestKeepsLeft(ts, right.next, node);
      LeftSpineTransitive(left, node, AdditiveRest(ts, st, left).value.node);
    }
  }

  /**
   * `+` and `-` group to the left: in `a - b - c` the node for `a - b` is
   * built first and every later operator is applied on top of it.
   */
  lemma AdditiveGroupsLeft(ts: Lexed, st: nat, left: Expression)
    requires ValidStream(ts) && ValidState(ts, st)
    requires IsArithmetic(left) && WellTyped(left)
    requires AdditiveRest(ts, st, left).Success? && IsAdditive(Current(ts, st).kind)
    ensures ValidState(ts, st + 1) && MultiplicativeExpression(ts, st + 1).Success?
    ensures var first := NodeBinaryArithmeticOperation(left, TokenValue(Current(ts, st)), MultiplicativeExpression(ts, st + 1).value.node);
      OnLeftSpine(first, AdditiveRest(ts, st, left).value.node)
  {
    AdditiveOperatorRead(ts, st, left);
    AdditiveOperandRead(ts, st, left);
    AdditiveUnfold(ts, st, left);
    var right := MultiplicativeExpression(ts, st + 1).value;
    AdditiveRestKeepsLeft(ts, right.next, NodeBinaryArithmeticOperation(left, TokenValue(Current(ts, st)), right.node));
  }


  /** A successful round of the loop of `_multiplicative_expression` has read its operator. */
  lemma MultiplicativeOperatorRead(ts: Lexed, st: nat, left: Expression)
    requires ValidStream(ts) && ValidState(ts, st)
    requires IsArithmetic(left) && WellTyped(left)
    requires MultiplicativeRest(ts, st, left).Success? && IsMultiplicative(Current(ts, st).kind)
    ensures ValidState(ts, st + 1)
  {
    assert Consume(ts, st, Current(ts, st).kind).Success?;
  }

  /** A successful round of the same loop has read its operand after the operator. */
  lemma MultiplicativeOperandRead(ts: Lexed, st: nat, left: Expression)
    requires ValidStream(ts) && ValidState(ts, st) && ValidState(ts, st + 1)
    requires IsArithmetic(left) && WellTyped(left)
    requires MultiplicativeRest(ts, st, left).Success? && IsMultiplicative(Current(ts, st).kind)
    ensures PowerExpression(ts, st + 1).Success?
  {
    if PowerExpression(ts, st + 1).Failure? {
      MultiplicativeOperandFails(ts, st, left);
      assert false;
    }
  }

  /** One round of the loop of `_multiplicative_expression`: the operator, then one operand of the next level down. */
  lemma MultiplicativeUnfold(ts: Lexed, st: nat, left: Expression)
    requires ValidStream(ts) && ValidState(ts, st) && ValidState(ts, st + 1)
    requires IsArithmetic(left) && WellTyped(left)
    requires IsMultiplicative(Current(ts, st).kind)
    requires PowerExpression(ts, st + 1).Success?
    ensures var right := PowerExpression(ts, st + 1).value;
      MultiplicativeRest(ts, st, left) == MultiplicativeRest(ts, right.next, NodeBinaryArithmeticOperation(left, TokenValue(Current(ts, st)), right.node))
  {
    assert Consume(ts, st, Current(ts, st).kind) == Success(Parsed(Current(ts, st), st + 1));
  }

  /** A round whose operand fails fails the whole loop with the same error. */
  lemma MultiplicativeOperandFails(ts: Lexed, st: nat, left: Expression)
    requires ValidStream(ts) && ValidState(ts, st) && ValidState(ts, st + 1)
    requires IsArithmetic(left) && WellTyped(left)
    requires IsMultiplicative(Current(ts, st).kind)
    requires PowerExpression(ts, st + 1).Failure?
    ensures MultiplicativeRest(ts, st, left) == Failure(PowerExpression(ts, st + 1).error)
  {
    assert Consume(ts, st, Current(ts, st).kind) == Success(Parsed(Current(ts, st), st + 1));
  }


  /** The loop of `_multiplicative_expression` only ever builds on top of the operand it started with. */
  lemma {:induction false} MultiplicativeRestKeepsLeft(ts: Lexed, st: nat, left: Expression)
    requires ValidStream(ts) && ValidState(ts, st)
    requires IsArithmetic(left) && WellTyped(left)
    requires MultiplicativeRest(ts, st, left).Success?
    ensures OnLeftSpine(left, MultiplicativeRest(ts, st, left).value.node)
    decreases |ts| - st
  {
    if IsMultiplicative(Current(ts, st).kind) {
      MultiplicativeOperatorRead(ts, st, left);
      MultiplicativeOperandRead(ts, st, left);
      MultiplicativeUnfold(ts, st, left);
      var right := PowerExpression(ts, st + 1).value;
      var node := NodeBinaryArithmeticOperation(left, TokenValue(Current(ts, st)), right.node);
      MultiplicativeRestKeepsLeft(ts, right.next, node);
      LeftSpineTransitive(left, node, MultiplicativeRest(ts, st, left).value.node);
    }
  }

  /** `*`, `/`, `//` and `%` group to the left in the same way, over power-level operands. */
  lemma MultiplicativeGroupsLeft(ts: Lexed, st: nat, left: Expression)
    requires ValidStream(ts) && ValidState(ts, st)
    requires IsArithmetic(left) && WellTyped(left)
    requires MultiplicativeRest(ts, st, left).Success? && IsMultiplicative(Current(ts, st).kind)
    ensures ValidState(ts, st + 1) && PowerExpression(ts, st + 1).Success?
    ensures var first := NodeBinaryArithmeticOperation(left, TokenValue(Current(ts, st)), PowerExpression(ts, st + 1).value.node);
      OnLeftSpine(first, MultiplicativeRest(ts, st, left).value.node)
  {
    MultiplicativeOperatorRead(ts, st, left);
    MultiplicativeOperandRead(ts, st, left);
    MultiplicativeUnfold(ts, st, left);
    var right := PowerExpression(ts, st + 1).value;
    MultiplicativeRestKeepsLeft(ts, right.next, NodeBinaryArithmeticOperation(left, TokenValue(Current(ts, st)), right.node));
  }

  /** `not` applies to a primary boolean expression only, so `not not x` is turned away. */
  lemma NotNotRejected(ts: Lexed, st: nat)
    requires ValidStream(ts) && ValidState(ts, st) && ValidState(ts, st + 1)
    requires Current(ts, st).kind == Not && Current(ts, st + 1).kind == Not
    ensures LogicalNotExpression(ts, st).Failure?
  {
    var operator := Consume(ts, st, Not);
    assert operator.Success? && operator.value.next == st + 1;
    assert PrimaryBooleanExpression(ts, st + 1).Failure?;
  }

  /** Each token of a list as the successful result of one `next_token()` call. */
  function Lifted(tokens: seq<Token>): (ts: Lexed)
    ensures |ts| == |tokens|
    ensures forall i | 0 <= i < |ts| :: ts[i] == Success(tokens[i])
  {
    if tokens == [] then [] else [Success(tokens[0])] + Lifted(tokens[1..])
  }

  /**
   * The stream the parser reads is `tokenize`'s result read one call at a
   * time: when `tokenize` succeeds, the same tokens in the same order.
   */
  lemma {:induction false} LexedFromTokenize(src: string, p: nat)
    requires p <= |src|
    requires Tokenize(src, p).Success?
    ensures LexedFrom(src, p) == Lifted(Tokenize(src, p).value)
    decreases |src| - p
  {
    var s := Scanning.NextToken(src, p).value;
    if s.token.kind != Eof {
      LexedFromTokenize(src, s.next);
      var tokens := [s.token] + Tokenize(src, s.next).value;
      assert tokens[1..] == Tokenize(src, s.next).value;
    }
  }

  /** When `tokenize` fails, the stream read one call at a time ends with the same error. */
  lemma {:induction false} LexedFromTokenizeFailure(src: string, p: nat)
    requires p <= |src|
    requires Tokenize(src, p).Failure?
    ensures LexedFrom(src, p)[|LexedFrom(src, p)| - 1] == Failure(Tokenize(src, p).error)
    decreases |src| - p
  {
    if Scanning.NextToken(src, p).Success? {
      var s := Scanning.NextToken(src, p).value;
      LexedFromTokenizeFailure(src, s.next);
      var rest := LexedFrom(src, s.next);
      assert LexedFrom(src, p) == [Success(s.token)] + rest;
    }
  }

  /** A run of statements is separated by NEWLINEs: a block of two statements on one line is turned away. */
  lemma StatementsNeedSeparators(ts: Lexed, st: nat, acc: seq<Statement>)
    requires ValidStream(ts) && ValidState(ts, st)
    requires Current(ts, st).kind != RightBrace && Current(ts, st).kind != Newline
    requires StatementRule(ts, st).Success?
    requires var n := StatementRule(ts, st).value.next; Current(ts, n).kind != Newline && Current(ts, n).kind != RightBrace
    ensures BlockStatements(ts, st, acc).Failure?
  {
  }
}
