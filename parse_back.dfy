/** Printing an expression and parsing the tokens back gives the expression
    again, and what that says about concrete inputs: left folding, the
    precedence ladder, nested unary operators and right-associative
    assignment. */
module ParseBack {
  import opened LoxAst
  import opened Grammar
  import opened GrammarFacts
  import opened RoundTrip

  /** `u` stands in `ts` from `pos` on. */
  predicate Occurs(ts: seq<Token>, pos: nat, u: seq<Token>) {
    pos + |u| <= |ts| && forall i :: 0 <= i < |u| ==> ts[pos + i] == u[i]
  }

  lemma OccursSplit(ts: seq<Token>, pos: nat, a: seq<Token>, b: seq<Token>)
    requires Occurs(ts, pos, a + b)
    ensures Occurs(ts, pos, a) && Occurs(ts, pos + |a|, b)
  {
    forall i | 0 <= i < |a|
      ensures ts[pos + i] == a[i]
    {
      assert (a + b)[i] == a[i];
    }
    forall i | 0 <= i < |b|
      ensures ts[pos + |a| + i] == b[i]
    {
      assert (a + b)[|a| + i] == b[i];
    }
  }

  lemma OccursOne(ts: seq<Token>, pos: nat, t: Token)
    requires Occurs(ts, pos, [t])
    ensures pos < |ts| && ts[pos] == t
  {
    assert ts[pos + 0] == [t][0];
  }

  /** Wherever the tokens of `e` stand, with a token after them, `Written`
      finds `e` there, and `Width` counts those tokens. */
  lemma {:induction false} UnparseWritten(ts: seq<Token>, pos: nat, e: Expr)
    requires Occurs(ts, pos, Unparse(e)) && pos + |Unparse(e)| < |ts|
    ensures |Unparse(e)| == Width(e)
    ensures Written(ts, pos, e)
    decreases e, 1
  {
    match e
    case Literal(_) =>
      OccursOne(ts, pos, Unparse(e)[0]);
    case Variable(_) =>
      OccursOne(ts, pos, Unparse(e)[0]);
    case Grouping(inner) =>
      GroupingWritten(ts, pos, inner);
    case Unary(op, right) =>
      UnaryWritten(ts, pos, op, right);
    case Binary(left, op, right) =>
      BinaryWritten(ts, pos, left, op, right);
    case Assign(name, value) =>
      AssignWritten(ts, pos, name, value);
  }

  lemma {:induction false} GroupingWritten(ts: seq<Token>, pos: nat, inner: Expr)
    requires Occurs(ts, pos, Unparse(Grouping(inner))) && pos + |Unparse(Grouping(inner))| < |ts|
    ensures |Unparse(Grouping(inner))| == Width(Grouping(inner))
    ensures Written(ts, pos, Grouping(inner))
    decreases Grouping(inner), 0
  {
    OccursSplit(ts, pos, [OpenParen] + Unparse(inner), [CloseParen]);
    OccursSplit(ts, pos, [OpenParen], Unparse(inner));
    OccursOne(ts, pos, OpenParen);
    UnparseWritten(ts, pos + 1, inner);
    OccursOne(ts, pos + 1 + Width(inner), CloseParen);
    assert ts[pos].kind == LeftParen && ts[pos + 1 + Width(inner)].kind == RightParen;
  }

  lemma {:induction false} UnaryWritten(ts: seq<Token>, pos: nat, op: Token, right: Expr)
    requires Occurs(ts, pos, Unparse(Unary(op, right))) && pos + |Unparse(Unary(op, right))| < |ts|
    ensures |Unparse(Unary(op, right))| == Width(Unary(op, right))
    ensures Written(ts, pos, Unary(op, right))
    decreases Unary(op, right), 0
  {
    OccursSplit(ts, pos, [op], Unparse(right));
    OccursOne(ts, pos, op);
    UnparseWritten(ts, pos + 1, right);
  }

  lemma {:induction false} BinaryWritten(ts: seq<Token>, pos: nat, left: Expr, op: Token, right: Expr)
    requires Occurs(ts, pos, Unparse(Binary(left, op, right))) && pos + |Unparse(Binary(left, op, right))| < |ts|
    ensures |Unparse(Binary(left, op, right))| == Width(Binary(left, op, right))
    ensures Written(ts, pos, Binary(left, op, right))
    decreases Binary(left, op, right), 0
  {
    OccursSplit(ts, pos, Unparse(left) + [op], Unparse(right));
    OccursSplit(ts, pos, Unparse(left), [op]);
    UnparseWritten(ts, pos, left);
    OccursOne(ts, pos + Width(left), op);
    UnparseWritten(ts, pos + Width(left) + 1, right);
  }

  lemma {:induction false} AssignWritten(ts: seq<Token>, pos: nat, name: Token, value: Expr)
    requires Occurs(ts, pos, Unparse(Assign(name, value))) && pos + |Unparse(Assign(name, value))| < |ts|
    ensures |Unparse(Assign(name, value))| == Width(Assign(name, value))
    ensures Written(ts, pos, Assign(name, value))
    decreases Assign(name, value), 0
  {
    OccursSplit(ts, pos, [name, EqualsSign], Unparse(value));
    assert [name, EqualsSign] == [name] + [EqualsSign];
    OccursSplit(ts, pos, [name], [EqualsSign]);
    OccursOne(ts, pos, name);
    OccursOne(ts, pos + 1, EqualsSign);
    UnparseWritten(ts, pos + 2, value);
  }

  /** `expression` reads a printed expression back to itself, without a
      report, when the token after it can neither continue a binary
      operator chain nor start an assignment. */
  lemma ExpressionRoundTrip(e: Expr, rest: seq<Token>, log: seq<Report>)
    requires PrecOk(e)
    requires |rest| > 0 && rest[|rest| - 1].kind == EOF
    requires OperatorTightness(rest[0].kind) == 0 && rest[0].kind != Equal
    ensures Valid(Unparse(e) + rest, 0)
    ensures Grammar.Expression(Unparse(e) + rest, 0, log) == Step(Parsed(e), |Unparse(e)|, log)
  {
    PrintedLayout(e, rest);
    ExpressionBack(Unparse(e) + rest, e, log);
  }

  /** The tokens of `e` followed by `rest` hold `e` written from the start. */
  lemma PrintedLayout(e: Expr, rest: seq<Token>)
    requires |rest| > 0 && rest[|rest| - 1].kind == EOF
    ensures var ts := Unparse(e) + rest;
      WellFormed(ts) && |Unparse(e)| == Width(e) && Written(ts, 0, e) &&
      ts[Width(e)] == rest[0]
  {
    var ts := Unparse(e) + rest;
    OccursSplit(ts, 0, Unparse(e), rest);
    UnparseWritten(ts, 0, e);
    assert ts[|Unparse(e)|] == rest[0];
  }

  /** The round trip at the start of a token list, from the layout facts. */
  lemma ExpressionBack(ts: seq<Token>, e: Expr, log: seq<Report>)
    requires WellFormed(ts) && PrecOk(e) && Written(ts, 0, e)
    requires OperatorTightness(ts[Width(e)].kind) == 0 && ts[Width(e)].kind != Equal
    ensures Grammar.Expression(ts, 0, log) == Step(Parsed(e), Width(e), log)
  {
    AssignmentBack(ts, e, 0, Width(e), log);
  }

  // ---------------------------------------------------------------------
  // Concrete inputs
  // ---------------------------------------------------------------------

  const End := Punct(EOF, "")

  /** A number token as the scanner makes it: its text and its value. */
  function Num(lexeme: string, n: real): Token {
    Token(Number, lexeme, NumberValue(n), 1)
  }

  function Name(lexeme: string): Token {
    Token(Identifier, lexeme, NilValue, 1)
  }

  /** `1 - 2 - 3` is `(1 - 2) - 3`: the loop of `parseBinaryExpr` folds to
      the left. */
  lemma MinusFoldsLeft(log: seq<Report>)
    ensures var minus := Punct(Minus, "-");
      Grammar.Expression([Num("1", 1.0), minus, Num("2", 2.0), minus, Num("3", 3.0), End], 0, log)
        == Step(Parsed(Binary(Binary(Literal(NumberValue(1.0)), minus, Literal(NumberValue(2.0))), minus, Literal(NumberValue(3.0)))), 5, log)
  {
    var minus := Punct(Minus, "-");
    var e := Binary(Binary(Literal(NumberValue(1.0)), minus, Literal(NumberValue(2.0))), minus, Literal(NumberValue(3.0)));
    var ts := [Num("1", 1.0), minus, Num("2", 2.0), minus, Num("3", 3.0), End];
    assert Written(ts, 0, e.left) && Written(ts, 4, e.right);
    ExpressionBack(ts, e, log);
  }

  /** `1 + 2 * 3` is `1 + (2 * 3)`: factor binds tighter than term. */
  lemma StarBindsTighter(log: seq<Report>)
    ensures var plus := Punct(Plus, "+"); var star := Punct(Star, "*");
      Grammar.Expression([Num("1", 1.0), plus, Num("2", 2.0), star, Num("3", 3.0), End], 0, log)
        == Step(Parsed(Binary(Literal(NumberValue(1.0)), plus, Binary(Literal(NumberValue(2.0)), star, Literal(NumberValue(3.0))))), 5, log)
  {
    var plus := Punct(Plus, "+");
    var star := Punct(Star, "*");
    var e := Binary(Literal(NumberValue(1.0)), plus, Binary(Literal(NumberValue(2.0)), star, Literal(NumberValue(3.0))));
    var ts := [Num("1", 1.0), plus, Num("2", 2.0), star, Num("3", 3.0), End];
    assert Written(ts, 0, e.left) && Written(ts, 2, e.right);
    ExpressionBack(ts, e, log);
  }

  /** `!!true` nests two unary operators by the recursion in `unary`. */
  lemma BangBang(log: seq<Report>)
    ensures var bang := Punct(Bang, "!");
      Grammar.Expression([bang, bang, Punct(True, "true"), End], 0, log)
        == Step(Parsed(Unary(bang, Unary(bang, Literal(BoolValue(true))))), 3, log)
  {
    var bang := Punct(Bang, "!");
    var e := Unary(bang, Unary(bang, Literal(BoolValue(true))));
    assert Unparse(e) + [End] == [bang, bang, Punct(True, "true"), End];
    ExpressionRoundTrip(e, [End], log);
  }

  /** `a = b = c` is `a = (b = c)`: assignment associates to the right. */
  lemma AssignmentNestsRight(log: seq<Report>)
    ensures var a := Name("a"); var b := Name("b"); var c := Name("c");
      Grammar.Expression([a, EqualsSign, b, EqualsSign, c, End], 0, log)
        == Step(Parsed(Assign(a, Assign(b, Variable(c)))), 5, log)
  {
    var a := Name("a");
    var b := Name("b");
    var c := Name("c");
    var e := Assign(a, Assign(b, Variable(c)));
    assert Unparse(e) + [End] == [a, EqualsSign, b, EqualsSign, c, End];
    ExpressionRoundTrip(e, [End], log);
  }
}
