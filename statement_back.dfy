/** The statements read back: a written expression followed by `;` makes a
    print statement, an expression statement or a variable initializer, and
    each missing piece is reported with its own message against the token
    found in its place. */
module StatementBack {
  import opened LoxAst
  import opened Grammar
  import opened GrammarFacts
  import opened RoundTrip

  /** The kinds an expression can start with. */
  const ExpressionStarts := [Bang, Minus, False, True, Nil, Number, String, Identifier, LeftParen]

  /** A written expression with the precedence shape starts with a token that
      `unary` or `primary` accepts; in particular no statement keyword. */
  lemma {:induction false} FirstToken(ts: seq<Token>, pos: nat, e: Expr)
    requires PrecOk(e) && Written(ts, pos, e)
    ensures ts[pos].kind in ExpressionStarts
    decreases e
  {
    match e
    case Binary(left, _, _) =>
      FirstToken(ts, pos, left);
    case Literal(v) =>
      assert ts[pos].kind in [False, True, Nil, Number, String];
    case _ =>
  }

  // ---------------------------------------------------------------------
  // Statements that parse
  // ---------------------------------------------------------------------

  /** `print e ;`, entered just past `print`, yields `Print(e)` and moves
      past the `;`, without a report. */
  lemma PrintBack(ts: seq<Token>, e: Expr, pos: nat, end: nat, log: seq<Report>)
    requires WellFormed(ts) && PrecOk(e) && Written(ts, pos, e) && end == pos + Width(e)
    requires ts[end].kind == Semicolon
    ensures PrintStatement(ts, pos, log) == Step(Parsed(Stmt.Print(e)), end + 1, log)
  {
    AssignmentBack(ts, e, pos, end, log);
  }

  /** `e ;` yields `Expression(e)` and moves past the `;`, without a
      report. */
  lemma ExpressionStatementBack(ts: seq<Token>, e: Expr, pos: nat, end: nat, log: seq<Report>)
    requires WellFormed(ts) && PrecOk(e) && Written(ts, pos, e) && end == pos + Width(e)
    requires ts[end].kind == Semicolon
    ensures ExpressionStatement(ts, pos, log) == Step(Parsed(Stmt.Expression(e)), end + 1, log)
  {
    AssignmentBack(ts, e, pos, end, log);
  }

  /** `statement` sends a `print` keyword to `printStatement`. */
  lemma {:induction false} StatementPrintBack(ts: seq<Token>, e: Expr, pos: nat, end: nat, log: seq<Report>)
    requires WellFormed(ts) && PrecOk(e) && Written(ts, pos + 1, e) && end == pos + 1 + Width(e)
    requires ts[pos].kind == TokenType.Print && ts[end].kind == Semicolon
    ensures Statement(ts, pos, log) == Step(Parsed(Stmt.Print(e)), end + 1, log)
  {
    PrintBack(ts, e, pos + 1, end, log);
  }

  /** `statement` sends anything else to `expressionStatement`: an
      expression never starts with `print`. */
  lemma StatementExpressionBack(ts: seq<Token>, e: Expr, pos: nat, end: nat, log: seq<Report>)
    requires WellFormed(ts) && PrecOk(e) && Written(ts, pos, e) && end == pos + Width(e)
    requires ts[end].kind == Semicolon
    ensures Statement(ts, pos, log) == Step(Parsed(Stmt.Expression(e)), end + 1, log)
  {
    FirstToken(ts, pos, e);
    ExpressionStatementBack(ts, e, pos, end, log);
  }

  /** `var name ;`, entered just past `var`, declares `name` without an
      initializer. */
  lemma VarBack(ts: seq<Token>, pos: nat, log: seq<Report>)
    requires Valid(ts, pos + 1) && ts[pos].kind == Identifier && ts[pos + 1].kind == Semicolon
    ensures VarDeclaration(ts, pos, log) == Step(Parsed(Stmt.Var(ts[pos], None)), pos + 2, log)
  {
  }

  /** `var name = e ;`, entered just past `var`, declares `name` with the
      initializer `e`. */
  lemma VarInitBack(ts: seq<Token>, e: Expr, pos: nat, end: nat, log: seq<Report>)
    requires WellFormed(ts) && PrecOk(e) && Written(ts, pos + 2, e) && end == pos + 2 + Width(e)
    requires ts[pos].kind == Identifier && ts[pos + 1].kind == Equal && ts[end].kind == Semicolon
    ensures VarDeclaration(ts, pos, log) == Step(Parsed(Stmt.Var(ts[pos], Some(e))), end + 1, log)
  {
    AssignmentBack(ts, e, pos + 2, end, log);
  }

  /** At the top level, `var` leads to `varDeclaration`, and a declaration
      that parsed is kept as it is. */
  lemma DeclarationVarBack(ts: seq<Token>, e: Expr, pos: nat, end: nat, log: seq<Report>)
    requires WellFormed(ts) && PrecOk(e) && Written(ts, pos + 3, e) && end == pos + 3 + Width(e)
    requires ts[pos].kind == TokenType.Var && ts[pos + 1].kind == Identifier && ts[pos + 2].kind == Equal
    requires ts[end].kind == Semicolon
    ensures Declaration(ts, pos, log) == Step(Parsed(Some(Stmt.Var(ts[pos + 1], Some(e)))), end + 1, log)
  {
    VarInitBack(ts, e, pos + 1, end, log);
  }

  /** At the top level, `print e ;` is kept as the entry `Some(Print(e))`. */
  lemma DeclarationPrintBack(ts: seq<Token>, e: Expr, pos: nat, end: nat, log: seq<Report>)
    requires WellFormed(ts) && PrecOk(e) && Written(ts, pos + 1, e) && end == pos + 1 + Width(e)
    requires ts[pos].kind == TokenType.Print && ts[end].kind == Semicolon
    ensures Declaration(ts, pos, log) == Step(Parsed(Some(Stmt.Print(e))), end + 1, log)
  {
    StatementPrintBack(ts, e, pos, end, log);
  }

  /** At the top level, `e ;` is kept as the entry `Some(Expression(e))`:
      an expression never starts with `var`. */
  lemma DeclarationExpressionBack(ts: seq<Token>, e: Expr, pos: nat, end: nat, log: seq<Report>)
    requires WellFormed(ts) && PrecOk(e) && Written(ts, pos, e) && end == pos + Width(e)
    requires ts[end].kind == Semicolon
    ensures !IsAtEnd(ts, pos) && Declaration(ts, pos, log) == Step(Parsed(Some(Stmt.Expression(e))), end + 1, log)
  {
    FirstToken(ts, pos, e);
    StatementExpressionBack(ts, e, pos, end, log);
  }

  /** At the top level, `var name ;` is kept as `Some(Var(name, None))`. */
  lemma DeclarationBareVarBack(ts: seq<Token>, pos: nat, log: seq<Report>)
    requires Valid(ts, pos + 2) && ts[pos].kind == TokenType.Var
    requires ts[pos + 1].kind == Identifier && ts[pos + 2].kind == Semicolon
    ensures Declaration(ts, pos, log) == Step(Parsed(Some(Stmt.Var(ts[pos + 1], None))), pos + 3, log)
  {
    VarBack(ts, pos + 1, log);
  }

  // ---------------------------------------------------------------------
  // A missing `;` or name
  // ---------------------------------------------------------------------

  /** `print e` followed by a token that neither continues `e` nor is `;`:
      "Expect ; after value." against that token, where the cursor stays. */
  lemma PrintMissingSemicolon(ts: seq<Token>, e: Expr, pos: nat, end: nat, log: seq<Report>)
    requires WellFormed(ts) && PrecOk(e) && Written(ts, pos, e) && end == pos + Width(e)
    requires OperatorTightness(ts[end].kind) == 0 && ts[end].kind != Equal && ts[end].kind != Semicolon
    ensures PrintStatement(ts, pos, log) == Step(ParseError, end, log + [Report(ts[end], ExpectValueSemicolon)])
  {
    AssignmentBack(ts, e, pos, end, log);
  }

  /** `e` followed by a token that neither continues `e` nor is `;`:
      "Expect ; after expression." against that token. */
  lemma ExpressionStatementMissingSemicolon(ts: seq<Token>, e: Expr, pos: nat, end: nat, log: seq<Report>)
    requires WellFormed(ts) && PrecOk(e) && Written(ts, pos, e) && end == pos + Width(e)
    requires OperatorTightness(ts[end].kind) == 0 && ts[end].kind != Equal && ts[end].kind != Semicolon
    ensures ExpressionStatement(ts, pos, log) == Step(ParseError, end, log + [Report(ts[end], ExpectExpressionSemicolon)])
  {
    AssignmentBack(ts, e, pos, end, log);
  }

  /** `var` not followed by an identifier: "Expect variable name." against
      the token found there, where the cursor stays. */
  lemma VarMissingName(ts: seq<Token>, pos: nat, log: seq<Report>)
    requires Valid(ts, pos) && ts[pos].kind != Identifier
    ensures VarDeclaration(ts, pos, log) == Step(ParseError, pos, log + [Report(ts[pos], ExpectVariableName)])
  {
  }

  /** `var name` followed by neither `=` nor `;`: "Expect ';' after variable
      declaration." against that token. */
  lemma VarMissingSemicolon(ts: seq<Token>, pos: nat, log: seq<Report>)
    requires Valid(ts, pos + 1) && ts[pos].kind == Identifier
    requires ts[pos + 1].kind != Equal && ts[pos + 1].kind != Semicolon
    ensures VarDeclaration(ts, pos, log) == Step(ParseError, pos + 1, log + [Report(ts[pos + 1], ExpectVarSemicolon)])
  {
  }

  /** `var name = e` followed by a token that neither continues `e` nor is
      `;`: the same message, against that token. */
  lemma VarInitMissingSemicolon(ts: seq<Token>, e: Expr, pos: nat, end: nat, log: seq<Report>)
    requires WellFormed(ts) && PrecOk(e) && Written(ts, pos + 2, e) && end == pos + 2 + Width(e)
    requires ts[pos].kind == Identifier && ts[pos + 1].kind == Equal
    requires OperatorTightness(ts[end].kind) == 0 && ts[end].kind != Equal && ts[end].kind != Semicolon
    ensures VarDeclaration(ts, pos, log) == Step(ParseError, end, log + [Report(ts[end], ExpectVarSemicolon)])
  {
    AssignmentBack(ts, e, pos + 2, end, log);
  }
}
