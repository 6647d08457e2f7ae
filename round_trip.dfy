/** The parser inverts printing: any expression with the precedence shape,
    written out as tokens, is parsed back to itself without a report. This
    pins the grammar's precedence and associativity down completely. */
module RoundTrip {
  import opened LoxAst
  import opened Grammar
  import opened GrammarFacts

  /** A token the parser only looks at for its kind, on the first line. */
  function Punct(kind: TokenType, lexeme: string): Token {
    Token(kind, lexeme, NilValue, 1)
  }

  const OpenParen := Punct(LeftParen, "(")
  const CloseParen := Punct(RightParen, ")")
  const EqualsSign := Punct(Equal, "=")

  /** `t` is a literal token that `primary` turns into `Literal(v)`: only
      its kind and, for a number or a string, its literal value count, since
      the parser never reads a token's lexeme or line. */
  predicate Spells(t: Token, v: Value) {
    match v
    case NilValue => t.kind == Nil
    case BoolValue(b) => t.kind == (if b then True else False)
    case NumberValue(_) => t.kind == Number && t.literal == v
    case StringValue(_) => t.kind == String && t.literal == v
  }

  /** The literal token `Unparse` writes for `v`; a number or a string gets
      an empty lexeme, which the parser never reads. */
  function LiteralToken(v: Value): (t: Token)
    ensures Spells(t, v)
  {
    match v
    case NilValue => Punct(Nil, "nil")
    case BoolValue(b) => if b then Punct(True, "true") else Punct(False, "false")
    case NumberValue(_) => Token(Number, "", v, 0)
    case StringValue(_) => Token(String, "", v, 0)
  }

  /** The tokens of an expression, parenthesised only where a Grouping node
      says so. */
  function Unparse(e: Expr): seq<Token> {
    match e
    case Literal(v) => [LiteralToken(v)]
    case Grouping(inner) => [OpenParen] + Unparse(inner) + [CloseParen]
    case Unary(op, right) => [op] + Unparse(right)
    case Binary(left, op, right) => Unparse(left) + [op] + Unparse(right)
    case Variable(name) => [name]
    case Assign(name, value) => [name, EqualsSign] + Unparse(value)
  }

  /** The number of tokens of an expression. */
  function Width(e: Expr): nat {
    match e
    case Literal(_) => 1
    case Grouping(inner) => Width(inner) + 2
    case Unary(_, right) => 1 + Width(right)
    case Binary(left, _, right) => Width(left) + 1 + Width(right)
    case Variable(_) => 1
    case Assign(_, value) => 2 + Width(value)
  }

  /** `e` is written out in `ts` from `pos` on, with at least one token after
      it: `Unparse`, read position by position, where parentheses, `=` and
      literals are compared only by what the parser reads of them (the kind,
      and the literal value of a number or string). */
  predicate Written(ts: seq<Token>, pos: nat, e: Expr)
    decreases e
  {
    pos + Width(e) < |ts| &&
    match e
    case Literal(v) => Spells(ts[pos], v)
    case Grouping(inner) =>
      ts[pos].kind == LeftParen && Written(ts, pos + 1, inner) && ts[pos + 1 + Width(inner)].kind == RightParen
    case Unary(op, right) => ts[pos] == op && Written(ts, pos + 1, right)
    case Binary(left, op, right) =>
      Written(ts, pos, left) && ts[pos + Width(left)] == op && Written(ts, pos + Width(left) + 1, right)
    case Variable(name) => ts[pos] == name
    case Assign(name, value) => ts[pos] == name && ts[pos + 1].kind == Equal && Written(ts, pos + 2, value)
  }

  // ---------------------------------------------------------------------
  // Expressions
  //
  // Each lemma reads an expression `e` written from `pos` on and names the
  // position just past it, `end`, where the token after `e` stands.
  // ---------------------------------------------------------------------

  /** `assignment` reads back a whole expression when what follows it is
      neither a binary operator nor `=`. */
  lemma {:induction false} AssignmentBack(ts: seq<Token>, e: Expr, pos: nat, end: nat, log: seq<Report>)
    requires WellFormed(ts) && PrecOk(e) && Written(ts, pos, e) && end == pos + Width(e)
    requires OperatorTightness(ts[end].kind) == 0 && ts[end].kind != Equal
    ensures Assignment(ts, pos, log) == Step(Parsed(e), end, log)
    decreases Width(e), 16
  {
    if e.Assign? {
      AssignBack(ts, e.name, e.value, pos, end, log);
    } else {
      EqualityBack(ts, e, pos, end, log);
    }
  }

  /** An expression that is not an assignment is read by the equality level
      alone, which stops before the token after it. */
  lemma {:induction false} EqualityBack(ts: seq<Token>, e: Expr, pos: nat, end: nat, log: seq<Report>)
    requires WellFormed(ts) && PrecOk(e) && !e.Assign? && Written(ts, pos, e) && end == pos + Width(e)
    requires OperatorTightness(ts[end].kind) == 0 && ts[end].kind != Equal
    ensures Assignment(ts, pos, log) == Step(Parsed(e), end, log)
    decreases Width(e), 15
  {
    BinaryExprBack(ts, EqualityLevel, e, pos, end, log);
    OperatorsByTightness(ts[end].kind, EqualityLevel);
    BinaryTailStops(ts, EqualityLevel, e, end, log);
    AssignmentPlain(ts, e, pos, end, log);
  }

  /** `name = value` is read as a variable on the left, then `=`, then the
      value by a recursive call of `assignment`. */
  lemma {:induction false} AssignBack(ts: seq<Token>, name: Token, value: Expr, pos: nat, end: nat, log: seq<Report>)
    requires WellFormed(ts) && name.kind == Identifier && PrecOk(value)
    requires Written(ts, pos, Assign(name, value)) && end == pos + 2 + Width(value)
    requires OperatorTightness(ts[end].kind) == 0 && ts[end].kind != Equal
    ensures Assignment(ts, pos, log) == Step(Parsed(Assign(name, value)), end, log)
    decreases Width(value) + 1, 15
  {
    AssignParts(ts, pos, name, value);
    BinaryExprBack(ts, EqualityLevel, Variable(name), pos, pos + 1, log);
    BinaryTailStops(ts, EqualityLevel, Variable(name), pos + 1, log);
    AssignmentBack(ts, value, pos + 2, end, log);
    AssignmentStep(ts, name, value, pos, end, log);
  }

  /** Where the parts of a written assignment sit. */
  lemma AssignParts(ts: seq<Token>, pos: nat, name: Token, value: Expr)
    requires Written(ts, pos, Assign(name, value))
    ensures Written(ts, pos, Variable(name)) && ts[pos + 1].kind == Equal
    ensures Written(ts, pos + 2, value)
  {
  }

  /** `parseBinaryExpr` at level `l` reads an expression binding at least as
      tightly as `l` and hands the rest of the fold over to its loop, as long
      as the next token is no operator of a tighter level. */
  lemma {:induction false} BinaryExprBack(ts: seq<Token>, l: Level, e: Expr, pos: nat, end: nat, log: seq<Report>)
    requires WellFormed(ts) && PrecOk(e) && Strength(e) >= Tightness(l) && Written(ts, pos, e) && end == pos + Width(e)
    requires OperatorTightness(ts[end].kind) <= Tightness(l)
    ensures BinaryExpr(ts, l, pos, log) == BinaryTail(ts, l, e, end, log)
    decreases Width(e), Rank(l) + 2
  {
    if Strength(e) > Tightness(l) {
      SingleOperandBack(ts, l, e, pos, end, log);
    } else {
      var mid := pos + Width(e.left);
      BinaryParts(ts, pos, e.left, e.op, e.right, mid);
      FoldBack(ts, l, e.left, e.op, e.right, pos, mid, end, log);
    }
  }

  /** An expression binding more tightly than `l` is a single operand of
      `l`, read by the next-level parser. */
  lemma {:induction false} SingleOperandBack(ts: seq<Token>, l: Level, e: Expr, pos: nat, end: nat, log: seq<Report>)
    requires WellFormed(ts) && PrecOk(e) && Strength(e) > Tightness(l) && Written(ts, pos, e) && end == pos + Width(e)
    requires OperatorTightness(ts[end].kind) <= Tightness(l)
    ensures BinaryExpr(ts, l, pos, log) == BinaryTail(ts, l, e, end, log)
    decreases Width(e), Rank(l) + 1
  {
    OperandBack(ts, l, e, pos, end, log);
    BinaryExprStep(ts, l, pos, log);
  }

  /** The left fold of one level: `a op b`, with `a` read by the level itself
      up to the operator at `mid`, and `b` by the next level. */
  lemma {:induction false} FoldBack(ts: seq<Token>, l: Level, a: Expr, op: Token, b: Expr, pos: nat, mid: nat, end: nat, log: seq<Report>)
    requires WellFormed(ts) && PrecOk(a) && PrecOk(b)
    requires Strength(a) >= Tightness(l) && Strength(b) > Tightness(l) && OperatorTightness(op.kind) == Tightness(l)
    requires Written(ts, pos, a) && mid == pos + Width(a) && ts[mid] == op
    requires Written(ts, mid + 1, b) && end == mid + 1 + Width(b) && OperatorTightness(ts[end].kind) <= Tightness(l)
    ensures BinaryExpr(ts, l, pos, log) == BinaryTail(ts, l, Binary(a, op, b), end, log)
    decreases Width(a) + 1 + Width(b), Rank(l) + 1
  {
    OperatorsByTightness(op.kind, l);
    BinaryExprBack(ts, l, a, pos, mid, log);
    FoldOperand(ts, l, a, op, b, pos, mid, end, log);
  }

  /** The second half of `FoldBack`: once `a` has been read up to `mid`, the
      operator there and the operand `b` after it extend the fold. */
  lemma {:induction false} FoldOperand(ts: seq<Token>, l: Level, a: Expr, op: Token, b: Expr, pos: nat, mid: nat, end: nat, log: seq<Report>)
    requires WellFormed(ts) && PrecOk(b) && Strength(b) > Tightness(l)
    requires Valid(ts, pos) && Valid(ts, mid) && BinaryExpr(ts, l, pos, log) == BinaryTail(ts, l, a, mid, log)
    requires ts[mid] == op && op.kind in Operators(l)
    requires Written(ts, mid + 1, b) && end == mid + 1 + Width(b) && OperatorTightness(ts[end].kind) <= Tightness(l)
    ensures BinaryExpr(ts, l, pos, log) == BinaryTail(ts, l, Binary(a, op, b), end, log)
    decreases Width(b), Rank(l) + 1
  {
    OperandBack(ts, l, b, mid + 1, end, log);
    FoldStep(ts, l, a, op, b, pos, log, mid, end);
  }

  /** Where the parts of a written binary expression sit, with the operator
      at `mid`. */
  lemma BinaryParts(ts: seq<Token>, pos: nat, a: Expr, op: Token, b: Expr, mid: nat)
    requires Written(ts, pos, Binary(a, op, b)) && mid == pos + Width(a)
    ensures Written(ts, pos, a) && ts[mid] == op
    ensures Written(ts, mid + 1, b) && pos + Width(Binary(a, op, b)) == mid + 1 + Width(b)
  {
  }

  /** The next-level parser of `l` reads back an expression that binds more
      tightly than `l`, when the next token is no operator of a tighter level
      than `l`. */
  lemma {:induction false} OperandBack(ts: seq<Token>, l: Level, e: Expr, pos: nat, end: nat, log: seq<Report>)
    requires WellFormed(ts) && PrecOk(e) && Strength(e) > Tightness(l) && Written(ts, pos, e) && end == pos + Width(e)
    requires OperatorTightness(ts[end].kind) <= Tightness(l)
    ensures Operand(ts, l, pos, log) == Step(Parsed(e), end, log)
    decreases Width(e), Rank(l)
  {
    if l == FactorLevel {
      UnaryBack(ts, e, pos, end, log);
    } else {
      BinaryExprBack(ts, Next(l), e, pos, end, log);
      OperatorsByTightness(ts[end].kind, Next(l));
      BinaryTailStops(ts, Next(l), e, end, log);
    }
  }

  /** `unary` reads back an atomic expression whatever follows it. */
  lemma {:induction false} UnaryBack(ts: seq<Token>, e: Expr, pos: nat, end: nat, log: seq<Report>)
    requires WellFormed(ts) && PrecOk(e) && Strength(e) == 5 && Written(ts, pos, e) && end == pos + Width(e)
    ensures Grammar.Unary(ts, pos, log) == Step(Parsed(e), end, log)
    decreases Width(e), 2
  {
    if e.Unary? {
      UnaryParts(ts, pos, e.op, e.right);
      PrefixBack(ts, e.op, e.right, pos, end, log);
    } else {
      AtomBack(ts, e, pos, end, log);
    }
  }

  /** An operand that is no unary node: `unary` hands it to `primary`. */
  lemma {:induction false} AtomBack(ts: seq<Token>, e: Expr, pos: nat, end: nat, log: seq<Report>)
    requires WellFormed(ts) && PrecOk(e) && (e.Literal? || e.Grouping? || e.Variable?) && Written(ts, pos, e) && end == pos + Width(e)
    ensures Grammar.Unary(ts, pos, log) == Step(Parsed(e), end, log)
    decreases Width(e), 1
  {
    PrimaryBack(ts, e, pos, end, log);
    UnaryToPrimary(ts, pos, log);
  }

  /** Where the parts of a written unary expression sit. */
  lemma UnaryParts(ts: seq<Token>, pos: nat, op: Token, right: Expr)
    requires Written(ts, pos, Unary(op, right))
    ensures ts[pos] == op && Written(ts, pos + 1, right)
    ensures pos + Width(Unary(op, right)) == pos + 1 + Width(right)
  {
  }

  /** A prefix operator followed by an atomic operand: `unary` calls itself
      for the operand and wraps it. */
  lemma {:induction false} PrefixBack(ts: seq<Token>, op: Token, right: Expr, pos: nat, end: nat, log: seq<Report>)
    requires WellFormed(ts) && PrecOk(right) && Strength(right) == 5
    requires Written(ts, pos + 1, right) && end == pos + 1 + Width(right) && ts[pos] == op && op.kind in [Bang, Minus]
    ensures Grammar.Unary(ts, pos, log) == Step(Parsed(Unary(op, right)), end, log)
    decreases Width(right) + 1, 1
  {
    UnaryBack(ts, right, pos + 1, end, log);
    UnaryOperatorStep(ts, pos, log);
  }

  lemma {:induction false} PrimaryBack(ts: seq<Token>, e: Expr, pos: nat, end: nat, log: seq<Report>)
    requires WellFormed(ts) && PrecOk(e) && (e.Literal? || e.Grouping? || e.Variable?) && Written(ts, pos, e) && end == pos + Width(e)
    ensures ts[pos].kind in [False, True, Nil, Number, String, Identifier, LeftParen]
    ensures Primary(ts, pos, log) == Step(Parsed(e), end, log)
    decreases Width(e), 0
  {
    if e.Grouping? {
      AssignmentBack(ts, e.inner, pos + 1, end - 1, log);
      GroupingBack(ts, e.inner, pos, log);
    } else if e.Literal? {
      LiteralBack(ts, e.constant, pos, log);
    } else {
      VariableBack(ts, pos, log);
    }
  }

  // ---------------------------------------------------------------------
  // Single unfoldings of the grammar
  // ---------------------------------------------------------------------

  lemma AssignmentStep(ts: seq<Token>, name: Token, value: Expr, pos: nat, end: nat, log: seq<Report>)
    requires Valid(ts, pos) && Valid(ts, pos + 2)
    requires BinaryExpr(ts, EqualityLevel, pos, log) == Step(Parsed(Variable(name)), pos + 1, log)
    requires ts[pos + 1].kind == Equal
    requires Assignment(ts, pos + 2, log) == Step(Parsed(value), end, log)
    ensures Assignment(ts, pos, log) == Step(Parsed(Assign(name, value)), end, log)
  {
  }

  lemma AssignmentPlain(ts: seq<Token>, e: Expr, pos: nat, end: nat, log: seq<Report>)
    requires Valid(ts, pos) && Valid(ts, end)
    requires BinaryExpr(ts, EqualityLevel, pos, log) == Step(Parsed(e), end, log)
    requires ts[end].kind != Equal
    ensures Assignment(ts, pos, log) == Step(Parsed(e), end, log)
  {
  }

  lemma BinaryExprStep(ts: seq<Token>, l: Level, pos: nat, log: seq<Report>)
    requires Valid(ts, pos) && Operand(ts, l, pos, log).result.Parsed?
    ensures var first := Operand(ts, l, pos, log);
      BinaryExpr(ts, l, pos, log) == BinaryTail(ts, l, first.result.value, first.pos, first.log)
  {
  }

  /** One turn of the fold: once `a` has been read up to `mid`, an operator
      and an operand `b` ending at `end` extend it to `a op b`. */
  lemma FoldStep(ts: seq<Token>, l: Level, a: Expr, op: Token, b: Expr, pos: nat, log: seq<Report>, mid: nat, end: nat)
    requires Valid(ts, pos) && Valid(ts, mid) && BinaryExpr(ts, l, pos, log) == BinaryTail(ts, l, a, mid, log)
    requires ts[mid] == op && op.kind in Operators(l)
    requires Operand(ts, l, mid + 1, log) == Step(Parsed(b), end, log)
    ensures BinaryExpr(ts, l, pos, log) == BinaryTail(ts, l, Binary(a, op, b), end, log)
  {
  }

  lemma BinaryTailStops(ts: seq<Token>, l: Level, acc: Expr, pos: nat, log: seq<Report>)
    requires Valid(ts, pos) && ts[pos].kind !in Operators(l)
    ensures BinaryTail(ts, l, acc, pos, log) == Step(Parsed(acc), pos, log)
  {
  }

  lemma UnaryOperatorStep(ts: seq<Token>, pos: nat, log: seq<Report>)
    requires Valid(ts, pos) && ts[pos].kind in [Bang, Minus]
    requires Grammar.Unary(ts, pos + 1, log).result.Parsed?
    ensures var right := Grammar.Unary(ts, pos + 1, log);
      Grammar.Unary(ts, pos, log) == Step(Parsed(Expr.Unary(ts[pos], right.result.value)), right.pos, right.log)
  {
  }

  lemma UnaryToPrimary(ts: seq<Token>, pos: nat, log: seq<Report>)
    requires Valid(ts, pos) && ts[pos].kind !in [Bang, Minus]
    ensures Grammar.Unary(ts, pos, log) == Primary(ts, pos, log)
  {
  }

  lemma GroupingBack(ts: seq<Token>, inner: Expr, pos: nat, log: seq<Report>)
    requires Valid(ts, pos) && ts[pos].kind == LeftParen
    requires var r := Grammar.Expression(ts, pos + 1, log);
      r.result.Parsed? && r.log == log && Check(ts, r.pos, RightParen) && r.result.value == inner
    ensures Primary(ts, pos, log) == Step(Parsed(Grouping(inner)), Grammar.Expression(ts, pos + 1, log).pos + 1, log)
  {
  }

  lemma LiteralBack(ts: seq<Token>, v: Value, pos: nat, log: seq<Report>)
    requires Valid(ts, pos) && Spells(ts[pos], v)
    ensures Primary(ts, pos, log) == Step(Parsed(Literal(v)), pos + 1, log)
  {
  }

  lemma VariableBack(ts: seq<Token>, pos: nat, log: seq<Report>)
    requires Valid(ts, pos) && ts[pos].kind == Identifier
    ensures Primary(ts, pos, log) == Step(Parsed(Variable(ts[pos])), pos + 1, log)
  {
  }
}
