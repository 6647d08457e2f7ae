/** What the Lox grammar guarantees about every input: the shape of the
    trees it builds (precedence and associativity), the reports it sends,
    and that `parse` yields one entry per declaration with exactly one error
    report for each failed one. Where recovery lands is in recovery.dfy. */
module GrammarFacts {
  import opened LoxAst
  import opened Grammar

  // ---------------------------------------------------------------------
  // Reports
  // ---------------------------------------------------------------------

  /** A report that raises a ParseError; "Invalid assignment target." is the
      only report the parser sends without raising one. */
  predicate Structural(rep: Report) {
    rep.message != InvalidTarget
  }

  predicate TargetErrorsOnly(reps: seq<Report>) {
    forall i :: 0 <= i < |reps| ==> !Structural(reps[i])
  }

  /** `log` is a prefix of `final`: the sink is only ever appended to. */
  predicate Extends(log: seq<Report>, final: seq<Report>) {
    |log| <= |final| && final[..|log|] == log
  }

  /** The reports sent between `log` and `final` by a production that
      succeeded (`ok`) or raised a ParseError: a success sends only
      invalid-target reports; a failure sends exactly one report that raises,
      and it is the last one. */
  predicate ReportsOk(log: seq<Report>, final: seq<Report>, ok: bool) {
    Extends(log, final) &&
    var sent := final[|log|..];
    if ok then TargetErrorsOnly(sent)
    else |sent| > 0 && Structural(sent[|sent| - 1]) && TargetErrorsOnly(sent[..|sent| - 1])
  }

  predicate Reported<T>(log: seq<Report>, r: Step<T>) {
    ReportsOk(log, r.log, r.result.Parsed?)
  }

  lemma TargetErrorsOnlyAppend(a: seq<Report>, b: seq<Report>)
    ensures TargetErrorsOnly(a + b) <==> TargetErrorsOnly(a) && TargetErrorsOnly(b)
  {
    if TargetErrorsOnly(a + b) {
      forall i | 0 <= i < |a| ensures !Structural(a[i]) {
        assert a[i] == (a + b)[i];
      }
      forall i | 0 <= i < |b| ensures !Structural(b[i]) {
        assert b[i] == (a + b)[|a| + i];
      }
    }
  }

  /** A successful production followed by another: the reports compose. */
  lemma ReportsCompose(log: seq<Report>, mid: seq<Report>, final: seq<Report>, ok: bool)
    requires ReportsOk(log, mid, true) && ReportsOk(mid, final, ok)
    ensures ReportsOk(log, final, ok)
  {
    var a := mid[|log|..];
    var b := final[|mid|..];
    assert final[|log|..] == a + b;
    TargetErrorsOnlyAppend(a, b);
    if !ok {
      assert (a + b)[..|a + b| - 1] == a + b[..|b| - 1];
      TargetErrorsOnlyAppend(a, b[..|b| - 1]);
    }
  }

  /** The single report of a failing `consume` or `primary`. */
  lemma ReportsRaise(log: seq<Report>, rep: Report)
    requires Structural(rep)
    ensures ReportsOk(log, log + [rep], false)
  {
    assert (log + [rep])[|log|..] == [rep];
  }

  /** The invalid-target report of `assignment`, sent after a success. */
  lemma ReportsTarget(log: seq<Report>, mid: seq<Report>, rep: Report)
    requires ReportsOk(log, mid, true) && !Structural(rep)
    ensures ReportsOk(log, mid + [rep], true)
  {
    assert (mid + [rep])[|log|..] == mid[|log|..] + [rep];
    TargetErrorsOnlyAppend(mid[|log|..], [rep]);
  }

  // ---------------------------------------------------------------------
  // Precedence and associativity
  // ---------------------------------------------------------------------

  /** The tightness of a binary operator kind, as the level whose operators
      include it gives it; 0 for any kind that is not a binary operator. */
  function OperatorTightness(k: TokenType): (t: nat)
    ensures t <= 4
  {
    match k
    case BangEqual | EqualEqual => 1
    case Greater | GreaterEqual | Less | LessEqual => 2
    case Minus | Plus => 3
    case Slash | Star => 4
    case _ => 0
  }

  /** How tightly the top node of an expression binds: 0 for an assignment,
      the operator's tightness for a binary node, 5 for everything atomic. */
  function Strength(e: Expr): nat {
    match e
    case Assign(_, _) => 0
    case Binary(_, op, _) => OperatorTightness(op.kind)
    case _ => 5
  }

  /** The shape every parsed expression has. A binary node's operator is a
      binary operator, its left operand binds at least as tightly as the node
      and its right operand strictly more tightly (so each level associates
      to the left and tighter levels sit lower in the tree); a unary node's
      operand is atomic; names are identifiers. */
  predicate PrecOk(e: Expr) {
    match e
    case Literal(_) => true
    case Variable(name) => name.kind == Identifier
    case Grouping(inner) => PrecOk(inner)
    case Unary(op, right) => op.kind in [Bang, Minus] && Strength(right) == 5 && PrecOk(right)
    case Binary(left, op, right) =>
      1 <= Strength(e) && Strength(left) >= Strength(e) && Strength(right) > Strength(e)
      && PrecOk(left) && PrecOk(right)
    case Assign(name, value) => name.kind == Identifier && PrecOk(value)
  }

  /** A token kind is an operator of level `l` exactly when its tightness is
      that of `l`. */
  lemma OperatorsByTightness(k: TokenType, l: Level)
    ensures k in Operators(l) <==> OperatorTightness(k) == Tightness(l)
  {
  }

  /** Every expression production: the reports it sends are well formed, and
      a successful parse has the precedence shape, binding at least as tightly
      as the production's level. */
  lemma {:induction false} ExpressionFacts(ts: seq<Token>, pos: nat, log: seq<Report>)
    requires Valid(ts, pos)
    ensures var r := Grammar.Expression(ts, pos, log);
      Reported(log, r) && (r.result.Parsed? ==> PrecOk(r.result.value))
    decreases |ts| - pos, 16
  {
    AssignmentFacts(ts, pos, log);
  }

  lemma {:induction false} AssignmentFacts(ts: seq<Token>, pos: nat, log: seq<Report>)
    requires Valid(ts, pos)
    ensures var r := Assignment(ts, pos, log);
      Reported(log, r) && (r.result.Parsed? ==> PrecOk(r.result.value))
    decreases |ts| - pos, 15
  {
    var left := BinaryExpr(ts, EqualityLevel, pos, log);
    BinaryExprFacts(ts, EqualityLevel, pos, log);
    if left.result.Parsed? && Matches(ts, left.pos, [Equal]) {
      var value := Assignment(ts, left.pos + 1, left.log);
      AssignmentFacts(ts, left.pos + 1, left.log);
      ReportsCompose(log, left.log, value.log, value.result.Parsed?);
      if value.result.Parsed? && !left.result.value.Variable? {
        ReportsTarget(log, value.log, Report(ts[left.pos], InvalidTarget));
      }
    }
  }

  lemma {:induction false} BinaryExprFacts(ts: seq<Token>, l: Level, pos: nat, log: seq<Report>)
    requires Valid(ts, pos)
    ensures var r := BinaryExpr(ts, l, pos, log);
      Reported(log, r) &&
      (r.result.Parsed? ==> PrecOk(r.result.value) && Strength(r.result.value) >= Tightness(l))
    decreases |ts| - pos, Rank(l) + 2
  {
    var first := Operand(ts, l, pos, log);
    OperandFacts(ts, l, pos, log);
    if first.result.Parsed? {
      BinaryTailFacts(ts, l, first.result.value, first.pos, first.log);
      ReportsCompose(log, first.log, BinaryExpr(ts, l, pos, log).log, BinaryExpr(ts, l, pos, log).result.Parsed?);
    }
  }

  lemma {:induction false} BinaryTailFacts(ts: seq<Token>, l: Level, acc: Expr, pos: nat, log: seq<Report>)
    requires Valid(ts, pos) && PrecOk(acc) && Strength(acc) >= Tightness(l)
    ensures var r := BinaryTail(ts, l, acc, pos, log);
      Reported(log, r) &&
      (r.result.Parsed? ==> PrecOk(r.result.value) && Strength(r.result.value) >= Tightness(l))
    decreases |ts| - pos, Rank(l) + 1
  {
    if Matches(ts, pos, Operators(l)) {
      var right := Operand(ts, l, pos + 1, log);
      OperandFacts(ts, l, pos + 1, log);
      if right.result.Parsed? {
        OperatorsByTightness(ts[pos].kind, l);
        var next := Binary(acc, ts[pos], right.result.value);
        BinaryTailFacts(ts, l, next, right.pos, right.log);
        var r := BinaryTail(ts, l, next, right.pos, right.log);
        ReportsCompose(log, right.log, r.log, r.result.Parsed?);
      }
    }
  }

  lemma {:induction false} OperandFacts(ts: seq<Token>, l: Level, pos: nat, log: seq<Report>)
    requires Valid(ts, pos)
    ensures var r := Operand(ts, l, pos, log);
      Reported(log, r) &&
      (r.result.Parsed? ==> PrecOk(r.result.value) && Strength(r.result.value) > Tightness(l))
    decreases |ts| - pos, Rank(l)
  {
    if l == FactorLevel {
      UnaryFacts(ts, pos, log);
    } else {
      BinaryExprFacts(ts, Next(l), pos, log);
    }
  }

  lemma {:induction false} UnaryFacts(ts: seq<Token>, pos: nat, log: seq<Report>)
    requires Valid(ts, pos)
    ensures var r := Grammar.Unary(ts, pos, log);
      Reported(log, r) && (r.result.Parsed? ==> PrecOk(r.result.value) && Strength(r.result.value) == 5)
    decreases |ts| - pos, 2
  {
    if Matches(ts, pos, [Bang, Minus]) {
      UnaryFacts(ts, pos + 1, log);
    } else {
      PrimaryFacts(ts, pos, log);
    }
  }

  lemma {:induction false} PrimaryFacts(ts: seq<Token>, pos: nat, log: seq<Report>)
    requires Valid(ts, pos)
    ensures var r := Primary(ts, pos, log);
      Reported(log, r) && (r.result.Parsed? ==> PrecOk(r.result.value) && Strength(r.result.value) == 5)
    decreases |ts| - pos, 1
  {
    if Matches(ts, pos, [False]) || Matches(ts, pos, [True]) || Matches(ts, pos, [Nil])
      || Matches(ts, pos, [Number, String]) || Matches(ts, pos, [Identifier]) {
    } else if Matches(ts, pos, [LeftParen]) {
      var inner := Grammar.Expression(ts, pos + 1, log);
      ExpressionFacts(ts, pos + 1, log);
      if inner.result.Parsed? {
        var close := Consume(ts, inner.pos, RightParen, ExpectRightParen, inner.log);
        if close.result.ParseError? {
          ReportsRaise(inner.log, Report(ts[inner.pos], ExpectRightParen));
        }
        ReportsCompose(log, inner.log, close.log, close.result.Parsed?);
      }
    } else {
      ReportsRaise(log, Report(ts[pos], ExpectExpression));
    }
  }

  // ---------------------------------------------------------------------
  // Statements and declarations
  // ---------------------------------------------------------------------

  /** The shape every parsed statement has: its expressions have the
      precedence shape, and a declared name is an identifier. */
  predicate StmtOk(s: Stmt) {
    match s
    case Expression(e) => PrecOk(e)
    case Print(e) => PrecOk(e)
    case Var(name, init) => name.kind == Identifier && (init.Some? ==> PrecOk(init.value))
  }

  /** A statement that ends in `consume(SEMICOLON, ...)` after an expression. */
  lemma ClosedByConsume(ts: seq<Token>, log: seq<Report>, e: Step<Expr>, message: string)
    requires Valid(ts, e.pos) && Reported(log, e) && e.result.Parsed?
    requires message != InvalidTarget
    ensures var semi := Consume(ts, e.pos, Semicolon, message, e.log);
      ReportsOk(log, semi.log, semi.result.Parsed?)
  {
    var semi := Consume(ts, e.pos, Semicolon, message, e.log);
    if semi.result.ParseError? {
      ReportsRaise(e.log, Report(ts[e.pos], message));
    }
    ReportsCompose(log, e.log, semi.log, semi.result.Parsed?);
  }

  lemma StatementFacts(ts: seq<Token>, pos: nat, log: seq<Report>)
    requires Valid(ts, pos)
    ensures var r := Statement(ts, pos, log);
      Reported(log, r) && (r.result.Parsed? ==> StmtOk(r.result.value))
  {
    if Matches(ts, pos, [TokenType.Print]) {
      PrintStatementFacts(ts, pos + 1, log);
    } else {
      ExpressionStatementFacts(ts, pos, log);
    }
  }

  lemma PrintStatementFacts(ts: seq<Token>, pos: nat, log: seq<Report>)
    requires Valid(ts, pos)
    ensures var r := PrintStatement(ts, pos, log);
      Reported(log, r) && (r.result.Parsed? ==> StmtOk(r.result.value))
  {
    var value := Grammar.Expression(ts, pos, log);
    ExpressionFacts(ts, pos, log);
    if value.result.Parsed? {
      ClosedByConsume(ts, log, value, ExpectValueSemicolon);
    }
  }

  lemma ExpressionStatementFacts(ts: seq<Token>, pos: nat, log: seq<Report>)
    requires Valid(ts, pos)
    ensures var r := ExpressionStatement(ts, pos, log);
      Reported(log, r) && (r.result.Parsed? ==> StmtOk(r.result.value))
  {
    var expr := Grammar.Expression(ts, pos, log);
    ExpressionFacts(ts, pos, log);
    if expr.result.Parsed? {
      ClosedByConsume(ts, log, expr, ExpectExpressionSemicolon);
    }
  }

  lemma VarDeclarationFacts(ts: seq<Token>, pos: nat, log: seq<Report>)
    requires Valid(ts, pos)
    ensures var r := VarDeclaration(ts, pos, log);
      Reported(log, r) && (r.result.Parsed? ==> StmtOk(r.result.value))
  {
    var name := Consume(ts, pos, Identifier, ExpectVariableName, log);
    if name.result.ParseError? {
      ReportsRaise(log, Report(ts[pos], ExpectVariableName));
    } else if Matches(ts, name.pos, [Equal]) {
      var init := Grammar.Expression(ts, name.pos + 1, log);
      ExpressionFacts(ts, name.pos + 1, log);
      if init.result.Parsed? {
        ClosedByConsume(ts, log, init, ExpectVarSemicolon);
      }
    } else {
      ClosedByConsume(ts, log, Step(Parsed(Variable(ts[pos])), name.pos, log), ExpectVarSemicolon);
    }
  }

  /** `declaration` yields None exactly when the statement raised, and then
      it has sent exactly one report that raises, as its last. */
  lemma DeclarationFacts(ts: seq<Token>, pos: nat, log: seq<Report>)
    requires Valid(ts, pos) && !IsAtEnd(ts, pos)
    ensures var r := Declaration(ts, pos, log);
      ReportsOk(log, r.log, r.result.value.Some?) &&
      (r.result.value.Some? ==> StmtOk(r.result.value.value))
  {
    var s := TryDeclaration(ts, pos, log);
    if Matches(ts, pos, [TokenType.Var]) {
      VarDeclarationFacts(ts, pos + 1, log);
    } else {
      StatementFacts(ts, pos, log);
    }
    var r := Declaration(ts, pos, log);
    assert r.log == s.log && r.result.value.Some? == s.result.Parsed?;
  }

  // ---------------------------------------------------------------------
  // The top level
  // ---------------------------------------------------------------------

  /** How many of `reps` raised a ParseError. */
  function RaisedCount(reps: seq<Report>): nat {
    if reps == [] then 0
    else RaisedCount(reps[..|reps| - 1]) + (if Structural(reps[|reps| - 1]) then 1 else 0)
  }

  /** How many declarations failed. */
  function FailedCount(statements: seq<Option<Stmt>>): nat {
    if statements == [] then 0
    else (if statements[0].None? then 1 else 0) + FailedCount(statements[1..])
  }

  lemma {:induction false} RaisedCountAppend(a: seq<Report>, b: seq<Report>)
    ensures RaisedCount(a + b) == RaisedCount(a) + RaisedCount(b)
    decreases |b|
  {
    if b != [] {
      assert (a + b)[..|a + b| - 1] == a + b[..|b| - 1];
      RaisedCountAppend(a, b[..|b| - 1]);
    } else {
      assert a + b == a;
    }
  }

  lemma {:induction false} RaisedCountNone(reps: seq<Report>)
    ensures RaisedCount(reps) == 0 <==> TargetErrorsOnly(reps)
    decreases |reps|
  {
    if reps != [] {
      var init := reps[..|reps| - 1];
      RaisedCountNone(init);
      assert reps == init + [reps[|reps| - 1]];
      TargetErrorsOnlyAppend(init, [reps[|reps| - 1]]);
    }
  }

  /** Counting the reports of two productions run one after the other. */
  lemma RaisedCountChain(log: seq<Report>, mid: seq<Report>, final: seq<Report>)
    requires Extends(log, mid) && Extends(mid, final)
    ensures Extends(log, final)
    ensures RaisedCount(final[|log|..]) == RaisedCount(mid[|log|..]) + RaisedCount(final[|mid|..])
  {
    assert final[|log|..] == mid[|log|..] + final[|mid|..];
    RaisedCountAppend(mid[|log|..], final[|mid|..]);
  }

  /** A production sends no report that raises when it succeeds, and exactly
      one when it fails. */
  lemma ReportsCounted(log: seq<Report>, final: seq<Report>, ok: bool)
    requires ReportsOk(log, final, ok)
    ensures RaisedCount(final[|log|..]) == if ok then 0 else 1
  {
    var sent := final[|log|..];
    if ok {
      RaisedCountNone(sent);
    } else {
      RaisedCountNone(sent[..|sent| - 1]);
    }
  }

  /** One turn of the loop of `parse`: a declaration, then the rest. */
  lemma ParseFromStep(ts: seq<Token>, pos: nat, log: seq<Report>)
    requires Valid(ts, pos) && !IsAtEnd(ts, pos)
    ensures var d := Declaration(ts, pos, log);
      var rest := ParseFrom(ts, d.pos, d.log);
      var r := ParseFrom(ts, pos, log);
      r.reports == rest.reports && |r.statements| == |rest.statements| + 1 &&
      r.statements[0] == d.result.value && r.statements[1..] == rest.statements
  {
  }

  /** The loop of `parse`: the log only grows, and every failed declaration
      sent exactly one report that raises. */
  lemma {:induction false} ParseFromReports(ts: seq<Token>, pos: nat, log: seq<Report>)
    requires Valid(ts, pos)
    ensures var r := ParseFrom(ts, pos, log);
      Extends(log, r.reports) && RaisedCount(r.reports[|log|..]) == FailedCount(r.statements)
    decreases |ts| - pos
  {
    if !IsAtEnd(ts, pos) {
      var d := Declaration(ts, pos, log);
      var rest := ParseFrom(ts, d.pos, d.log);
      ParseFromStep(ts, pos, log);
      DeclarationFacts(ts, pos, log);
      ParseFromReports(ts, d.pos, d.log);
      ReportsCounted(log, d.log, d.result.value.Some?);
      RaisedCountChain(log, d.log, rest.reports);
    } else {
      assert log[|log|..] == [];
    }
  }

  /** The loop of `parse`: every parsed statement has the statement shape. */
  lemma {:induction false} ParseFromShapes(ts: seq<Token>, pos: nat, log: seq<Report>)
    requires Valid(ts, pos)
    ensures var r := ParseFrom(ts, pos, log);
      forall i :: 0 <= i < |r.statements| && r.statements[i].Some? ==> StmtOk(r.statements[i].value)
    decreases |ts| - pos
  {
    if !IsAtEnd(ts, pos) {
      var d := Declaration(ts, pos, log);
      var r := ParseFrom(ts, pos, log);
      ParseFromStep(ts, pos, log);
      DeclarationFacts(ts, pos, log);
      ParseFromShapes(ts, d.pos, d.log);
      forall i | 1 <= i < |r.statements| ensures r.statements[i] == r.statements[1..][i - 1] {
      }
    }
  }

  /** `parse` on a whole token list: one report that raises per None entry,
      so the program parsed cleanly exactly when no such report was sent. */
  lemma ParseFacts(ts: seq<Token>)
    requires WellFormed(ts)
    ensures var r := Parse(ts);
      RaisedCount(r.reports) == FailedCount(r.statements) &&
      ((forall i :: 0 <= i < |r.statements| ==> r.statements[i].Some?) <==> TargetErrorsOnly(r.reports)) &&
      forall i :: 0 <= i < |r.statements| && r.statements[i].Some? ==> StmtOk(r.statements[i].value)
  {
    var r := Parse(ts);
    ParseFromReports(ts, 0, []);
    ParseFromShapes(ts, 0, []);
    assert r.reports[0..] == r.reports;
    RaisedCountNone(r.reports);
    NoFailures(r.statements);
  }

  lemma {:induction false} NoFailures(statements: seq<Option<Stmt>>)
    ensures FailedCount(statements) == 0 <==> forall i :: 0 <= i < |statements| ==> statements[i].Some?
    decreases |statements|
  {
    if statements != [] {
      NoFailures(statements[1..]);
      assert forall i :: 1 <= i < |statements| ==> statements[i] == statements[1..][i - 1];
    }
  }
}
