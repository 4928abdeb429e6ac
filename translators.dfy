/**
 * The two expression translators of the calculator: the prefix translator
 * writes every operation as a parenthesised `(op left right)`, the postfix
 * translator as `left right op`; unary `+` disappears in both. Numbers are
 * integers here (the calculator's floats are not part of this model).
 */
module Translation {
  import Text

  /** The calculator's tree: numbers, binary operations and unary operations. */
  datatype Arith =
    | NodeNumber(value: int)
    | NodeBinaryOp(left: Arith, operator: string, right: Arith)
    | NodeUnaryOp(operator: string, operand: Arith)

  /** `PrefixTranslator().translate(tree)`. */
  function Prefix(e: Arith): (s: string)
    ensures |s| > 0
    ensures e.NodeBinaryOp? ==> s[0] == '(' && s[|s| - 1] == ')'
    ensures e.NodeUnaryOp? && e.operator != "+" ==> s[0] == '(' && s[|s| - 1] == ')'
  {
    match e
    case NodeNumber(v) => Text.IntToString(v)
    case NodeBinaryOp(l, op, r) => "(" + op + " " + Prefix(l) + " " + Prefix(r) + ")"
    case NodeUnaryOp(op, x) => if op == "+" then Prefix(x) else "(" + op + " " + Prefix(x) + ")"
  }

  /** `PostfixTranslator().translate(tree)`. */
  function Postfix(e: Arith): (s: string)
    ensures |s| > 0
    ensures e.NodeBinaryOp? ==> |s| >= |e.operator| + 4
    ensures e.NodeUnaryOp? && e.operator != "+" ==> |s| >= |e.operator| + 2
  {
    match e
    case NodeNumber(v) => Text.IntToString(v)
    case NodeBinaryOp(l, op, r) => Postfix(l) + " " + Postfix(r) + " " + op
    case NodeUnaryOp(op, x) => if op == "+" then Postfix(x) else Postfix(x) + " " + op
  }

  // ---------------------------------------------------------------------------
  // Words: the translations as sequences of numbers and operators
  // ---------------------------------------------------------------------------

  /** Words joined by single spaces. */
  function Join(ws: seq<string>): string
  {
    if ws == [] then "" else if |ws| == 1 then ws[0] else Join(ws[..|ws| - 1]) + " " + ws[|ws| - 1]
  }

  /** The words of the postfix form: operands before their operator. */
  function PostfixWords(e: Arith): (ws: seq<string>)
    ensures |ws| > 0
    ensures e.NodeBinaryOp? ==> |ws| >= 3 && ws[|ws| - 1] == e.operator
    ensures e.NodeUnaryOp? && e.operator != "+" ==> |ws| >= 2 && ws[|ws| - 1] == e.operator
  {
    match e
    case NodeNumber(v) => [Text.IntToString(v)]
    case NodeBinaryOp(l, op, r) => PostfixWords(l) + PostfixWords(r) + [op]
    case NodeUnaryOp(op, x) => if op == "+" then PostfixWords(x) else PostfixWords(x) + [op]
  }

  /** The words of the prefix form without its parentheses: each operator before its operands (Polish notation). */
  function PrefixWords(e: Arith): (ws: seq<string>)
    ensures |ws| > 0
  {
    match e
    case NodeNumber(v) => [Text.IntToString(v)]
    case NodeBinaryOp(l, op, r) => [op] + PrefixWords(l) + PrefixWords(r)
    case NodeUnaryOp(op, x) => if op == "+" then PrefixWords(x) else [op] + PrefixWords(x)
  }

  /** Joining two non-empty runs of words puts one space between them. */
  lemma {:induction false} JoinAppend(a: seq<string>, b: seq<string>)
    requires a != [] && b != []
    ensures Join(a + b) == Join(a) + " " + Join(b)
    decreases |b|
  {
    if |b| == 1 {
      assert (a + b)[..|a + b| - 1] == a;
    } else {
      var b' := b[..|b| - 1];
      assert (a + b)[..|a + b| - 1] == a + b';
      JoinAppend(a, b');
    }
  }

  /** The postfix translation is its words joined by spaces. */
  lemma {:induction false} PostfixIsJoinedWords(e: Arith)
    ensures Postfix(e) == Join(PostfixWords(e))
  {
    match e
    case NodeNumber(_) =>
    case NodeBinaryOp(l, op, r) =>
      PostfixIsJoinedWords(l);
      PostfixIsJoinedWords(r);
      JoinAppend(PostfixWords(l), PostfixWords(r));
      JoinAppend(PostfixWords(l) + PostfixWords(r), [op]);
    case NodeUnaryOp(op, x) =>
      PostfixIsJoinedWords(x);
      if op != "+" {
        JoinAppend(PostfixWords(x), [op]);
      }
  }

  /** Removes every parenthesis of a text. */
  function Unbracketed(s: string): (r: string)
    ensures '(' !in r && ')' !in r
  {
    if s == [] then []
    else (if s[0] == '(' || s[0] == ')' then [] else [s[0]]) + Unbracketed(s[1..])
  }

  lemma {:induction false} UnbracketedAppend(a: string, b: string)
    ensures Unbracketed(a + b) == Unbracketed(a) + Unbracketed(b)
    decreases |a|
  {
    if a == [] {
      assert a + b == b;
    } else {
      assert (a + b)[1..] == a[1..] + b;
      UnbracketedAppend(a[1..], b);
    }
  }

  lemma {:induction false} UnbracketedPlain(s: string)
    requires '(' !in s && ')' !in s
    ensures Unbracketed(s) == s
    decreases |s|
  {
    if s != [] {
      UnbracketedPlain(s[1..]);
    }
  }

  /** No operator of the tree holds a parenthesis. */
  predicate PlainOperators(e: Arith)
  {
    match e
    case NodeNumber(_) => true
    case NodeBinaryOp(l, op, r) => '(' !in op && ')' !in op && PlainOperators(l) && PlainOperators(r)
    case NodeUnaryOp(op, x) => '(' !in op && ')' !in op && PlainOperators(x)
  }

  lemma NumberPlain(v: int)
    ensures '(' !in Text.IntToString(v) && ')' !in Text.IntToString(v)
  {
  }

  /** The parentheses and the space of the translations, unbracketed. */
  lemma UnbracketedPieces()
    ensures Unbracketed("(") == [] && Unbracketed(")") == [] && Unbracketed(" ") == " "
  {
    assert "("[1..] == [] && ")"[1..] == [] && " "[1..] == [];
  }

  /** Unbracketing `(op a b)` leaves `op a b`. */
  lemma {:induction false} UnbracketedBinary(op: string, a: string, b: string)
    requires '(' !in op && ')' !in op
    ensures Unbracketed("(" + op + " " + a + " " + b + ")") == op + " " + Unbracketed(a) + " " + Unbracketed(b)
  {
    var p0 := "(" + op;
    var p1 := p0 + " ";
    var p2 := p1 + a;
    var p3 := p2 + " ";
    var p4 := p3 + b;
    UnbracketedPieces();
    UnbracketedPlain(op);
    UnbracketedAppend("(", op);
    assert Unbracketed(p0) == op;
    UnbracketedAppend(p0, " ");
    assert Unbracketed(p1) == op + " ";
    UnbracketedAppend(p1, a);
    assert Unbracketed(p2) == op + " " + Unbracketed(a);
    UnbracketedAppend(p2, " ");
    assert Unbracketed(p3) == op + " " + Unbracketed(a) + " ";
    UnbracketedAppend(p3, b);
    assert Unbracketed(p4) == op + " " + Unbracketed(a) + " " + Unbracketed(b);
    UnbracketedAppend(p4, ")");
    assert Unbracketed(p4 + ")") == Unbracketed(p4);
  }

  /** Unbracketing `(op a)` leaves `op a`. */
  lemma {:induction false} UnbracketedUnary(op: string, a: string)
    requires '(' !in op && ')' !in op
    ensures Unbracketed("(" + op + " " + a + ")") == op + " " + Unbracketed(a)
  {
    var p0 := "(" + op;
    var p1 := p0 + " ";
    var p2 := p1 + a;
    UnbracketedPieces();
    UnbracketedPlain(op);
    UnbracketedAppend("(", op);
    assert Unbracketed(p0) == op;
    UnbracketedAppend(p0, " ");
    assert Unbracketed(p1) == op + " ";
    UnbracketedAppend(p1, a);
    assert Unbracketed(p2) == op + " " + Unbracketed(a);
    UnbracketedAppend(p2, ")");
    assert Unbracketed(p2 + ")") == Unbracketed(p2);
  }

  /** With its parentheses removed, the prefix translation is its Polish-notation words joined by spaces. */
  lemma {:induction false} PrefixIsBracketedWords(e: Arith)
    requires PlainOperators(e)
    ensures Unbracketed(Prefix(e)) == Join(PrefixWords(e))
  {
    match e
    case NodeNumber(v) =>
      NumberPlain(v);
      UnbracketedPlain(Text.IntToString(v));
    case NodeBinaryOp(l, op, r) =>
      PrefixIsBracketedWords(l);
      PrefixIsBracketedWords(r);
      UnbracketedBinary(op, Prefix(l), Prefix(r));
      JoinAppend([op], PrefixWords(l));
      JoinAppend([op] + PrefixWords(l), PrefixWords(r));
    case NodeUnaryOp(op, x) =>
      PrefixIsBracketedWords(x);
      if op != "+" {
        UnbracketedUnary(op, Prefix(x));
        JoinAppend([op], PrefixWords(x));
      }
  }

  // ---------------------------------------------------------------------------
  // The two orders are mirror images
  // ---------------------------------------------------------------------------

  /** The tree with the operands of every binary operation swapped. */
  function Mirror(e: Arith): Arith
  {
    match e
    case NodeNumber(v) => NodeNumber(v)
    case NodeBinaryOp(l, op, r) => NodeBinaryOp(Mirror(r), op, Mirror(l))
    case NodeUnaryOp(op, x) => NodeUnaryOp(op, Mirror(x))
  }

  function Reverse<T>(s: seq<T>): (r: seq<T>)
    ensures |r| == |s|
  {
    if s == [] then [] else Reverse(s[1..]) + [s[0]]
  }

  lemma {:induction false} ReverseAppend<T>(a: seq<T>, b: seq<T>)
    ensures Reverse(a + b) == Reverse(b) + Reverse(a)
    decreases |a|
  {
    if a == [] {
      assert a + b == b;
    } else {
      assert (a + b)[1..] == a[1..] + b;
      ReverseAppend(a[1..], b);
    }
  }

  /** The postfix words are the prefix words of the mirrored tree read backwards. */
  lemma {:induction false} PostfixMirrorsPrefix(e: Arith)
    ensures PostfixWords(e) == Reverse(PrefixWords(Mirror(e)))
  {
    match e
    case NodeNumber(_) =>
    case NodeBinaryOp(l, op, r) =>
      PostfixMirrorsPrefix(l);
      PostfixMirrorsPrefix(r);
      ReverseAppend([op] + PrefixWords(Mirror(r)), PrefixWords(Mirror(l)));
      ReverseAppend([op], PrefixWords(Mirror(r)));
    case NodeUnaryOp(op, x) =>
      PostfixMirrorsPrefix(x);
      if op != "+" {
        ReverseAppend([op], PrefixWords(Mirror(x)));
      }
  }

  // ---------------------------------------------------------------------------
  // Brackets and unary plus
  // ---------------------------------------------------------------------------

  function Opens(s: string): nat
  {
    multiset(s)['(']
  }

  function Closes(s: string): nat
  {
    multiset(s)[')']
  }

  /** Every closing parenthesis matches an earlier opening one, and none is left open. */
  predicate WellBracketed(s: string)
  {
    Opens(s) == Closes(s) && forall i | 0 <= i <= |s| :: Closes(s[..i]) <= Opens(s[..i])
  }

  lemma PlainWellBracketed(s: string)
    requires '(' !in s && ')' !in s
    ensures WellBracketed(s)
  {
    forall i | 0 <= i <= |s|
      ensures Closes(s[..i]) <= Opens(s[..i])
    {
      assert ')' !in s[..i];
    }
  }

  lemma ConcatWellBracketed(a: string, b: string)
    requires WellBracketed(a) && WellBracketed(b)
    ensures WellBracketed(a + b)
  {
    var s := a + b;
    forall i | 0 <= i <= |s|
      ensures Closes(s[..i]) <= Opens(s[..i])
    {
      if i <= |a| {
        assert s[..i] == a[..i];
      } else {
        assert s[..i] == a + b[..i - |a|];
      }
    }
  }

  lemma WrapWellBracketed(a: string)
    requires WellBracketed(a)
    ensures WellBracketed("(" + a + ")")
  {
    var s := "(" + a + ")";
    forall i | 0 <= i <= |s|
      ensures Closes(s[..i]) <= Opens(s[..i])
    {
      if 0 < i <= |a| + 1 {
        assert s[..i] == "(" + a[..i - 1];
      } else if i == |s| {
        assert s[..i] == s;
      }
    }
  }

  /** `(op a b)` is well bracketed when `a` and `b` are and `op` holds no parenthesis. */
  lemma BinaryWellBracketed(op: string, a: string, b: string)
    requires '(' !in op && ')' !in op && WellBracketed(a) && WellBracketed(b)
    ensures WellBracketed("(" + op + " " + a + " " + b + ")")
  {
    PlainWellBracketed(op + " ");
    PlainWellBracketed(" ");
    ConcatWellBracketed(op + " ", a);
    ConcatWellBracketed(op + " " + a, " ");
    ConcatWellBracketed(op + " " + a + " ", b);
    WrapWellBracketed(op + " " + a + " " + b);
    assert "(" + op + " " + a + " " + b + ")" == "(" + (op + " " + a + " " + b) + ")";
  }

  /** `(op a)` is well bracketed when `a` is and `op` holds no parenthesis. */
  lemma UnaryWellBracketed(op: string, a: string)
    requires '(' !in op && ')' !in op && WellBracketed(a)
    ensures WellBracketed("(" + op + " " + a + ")")
  {
    PlainWellBracketed(op + " ");
    ConcatWellBracketed(op + " ", a);
    WrapWellBracketed(op + " " + a);
    assert "(" + op + " " + a + ")" == "(" + (op + " " + a) + ")";
  }

  /** The prefix translation is well bracketed when no operator holds a parenthesis. */
  lemma {:induction false} PrefixWellBracketed(e: Arith)
    requires PlainOperators(e)
    ensures WellBracketed(Prefix(e))
  {
    match e
    case NodeNumber(v) =>
      NumberPlain(v);
      PlainWellBracketed(Text.IntToString(v));
    case NodeBinaryOp(l, op, r) =>
      PrefixWellBracketed(l);
      PrefixWellBracketed(r);
      BinaryWellBracketed(op, Prefix(l), Prefix(r));
    case NodeUnaryOp(op, x) =>
      PrefixWellBracketed(x);
      if op != "+" {
        UnaryWellBracketed(op, Prefix(x));
      }
  }

  /** The tree with every unary `+` removed. */
  function WithoutUnaryPlus(e: Arith): Arith
  {
    match e
    case NodeNumber(v) => NodeNumber(v)
    case NodeBinaryOp(l, op, r) => NodeBinaryOp(WithoutUnaryPlus(l), op, WithoutUnaryPlus(r))
    case NodeUnaryOp(op, x) => if op == "+" then WithoutUnaryPlus(x) else NodeUnaryOp(op, WithoutUnaryPlus(x))
  }

  /** Unary `+` leaves no trace: both translations of a tree are those of the tree without it. */
  lemma {:induction false} UnaryPlusInvisible(e: Arith)
    ensures Prefix(e) == Prefix(WithoutUnaryPlus(e))
    ensures Postfix(e) == Postfix(WithoutUnaryPlus(e))
  {
    match e
    case NodeNumber(_) =>
    case NodeBinaryOp(l, _, r) =>
      UnaryPlusInvisible(l);
      UnaryPlusInvisible(r);
    case NodeUnaryOp(_, x) =>
      UnaryPlusInvisible(x);
  }

  /** `-(1 - 2)` and `1 - (-2)`, the two trees of the example below. */
  function MinusOfDifference(): Arith
  {
    NodeUnaryOp("-", NodeBinaryOp(NodeNumber(1), "-", NodeNumber(2)))
  }

  function DifferenceWithMinus(): Arith
  {
    NodeBinaryOp(NodeNumber(1), "-", NodeUnaryOp("-", NodeNumber(2)))
  }

  lemma PostfixOfMinusOfDifference()
    ensures Postfix(MinusOfDifference()) == "1 2 - -"
  {
    assert Text.IntToString(1) == "1";
    assert Text.IntToString(2) == "2";
    assert Postfix(NodeBinaryOp(NodeNumber(1), "-", NodeNumber(2))) == "1 2 -";
  }

  lemma PostfixOfDifferenceWithMinus()
    ensures Postfix(DifferenceWithMinus()) == "1 2 - -"
  {
    assert Text.IntToString(1) == "1";
    assert Text.IntToString(2) == "2";
    assert Postfix(NodeUnaryOp("-", NodeNumber(2))) == "2 -";
  }

  lemma PrefixesOfTheTwoDiffer()
    ensures |Prefix(MinusOfDifference())| > 3 && Prefix(MinusOfDifference())[3] == '('
    ensures |Prefix(DifferenceWithMinus())| > 3 && Prefix(DifferenceWithMinus())[3] == '1'
  {
    assert Text.IntToString(1) == "1";
    assert Prefix(MinusOfDifference()) == "(- " + Prefix(NodeBinaryOp(NodeNumber(1), "-", NodeNumber(2))) + ")";
    assert Prefix(DifferenceWithMinus()) == "(- " + "1" + " " + Prefix(NodeUnaryOp("-", NodeNumber(2))) + ")";
  }

  /**
   * The postfix form does not tell a unary operator from a binary one of
   * the same spelling: `-(1 - 2)` and `1 - (-2)` both read `1 2 - -`, while
   * their prefix forms differ.
   */
  lemma PostfixConflatesUnaryMinus()
    ensures var a, b := MinusOfDifference(), DifferenceWithMinus();
      a != b && Postfix(a) == Postfix(b) && Prefix(a) != Prefix(b)
  {
    PostfixOfMinusOfDifference();
    PostfixOfDifferenceWithMinus();
    PrefixesOfTheTwoDiffer();
  }
}
