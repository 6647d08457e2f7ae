/** The Lox grammar as pure functions over a token sequence and a cursor
    position and the log of reports sent to the diagnostics sink so far. Each
    production returns a Step: whether it produced a node or raised a parse
    error, where it left the cursor, and the log with its own reports
    appended. The imperative parser in parser.dfy is
    proved to do exactly what these functions say. */
module Grammar {
  import opened LoxAst

  /** A production either yields a value or raises the parser's ParseError. */
  datatype Outcome<+T> = Parsed(value: T) | ParseError

  /** The effect of one production: its outcome, the cursor position it
      leaves behind (also after an error), and every report sent to the
      diagnostics sink so far, the production's own appended at the end. */
  datatype Step<+T> = Step(result: Outcome<T>, pos: nat, log: seq<Report>)

  /** What `parse` hands back: one entry per top-level declaration, None where
      the declaration failed, together with every report sent on the way. */
  datatype ParseResult = ParseResult(statements: seq<Option<Stmt>>, reports: seq<Report>)

  const InvalidTarget := "Invalid assignment target."
  const ExpectExpression := "Expect expression."
  const ExpectRightParen := "Expect ')' after expression."
  const ExpectValueSemicolon := "Expect ; after value."
  const ExpectExpressionSemicolon := "Expect ; after expression."
  const ExpectVariableName := "Expect variable name."
  const ExpectVarSemicolon := "Expect ';' after variable declaration."

  /** Keywords at which panic-mode recovery stops without consuming them. */
  const StatementStarts: set<TokenType> := {Class, Fun, TokenType.Var, For, If, While, TokenType.Print, Return}

  // ---------------------------------------------------------------------
  // Cursor
  // ---------------------------------------------------------------------

  /** The scanner's promise: a non-empty token list whose last token is EOF. */
  predicate WellFormed(ts: seq<Token>) {
    |ts| > 0 && ts[|ts| - 1].kind == EOF
  }

  /** A cursor position inside a well-formed token list. */
  predicate Valid(ts: seq<Token>, pos: nat) {
    WellFormed(ts) && pos < |ts|
  }

  predicate IsAtEnd(ts: seq<Token>, pos: nat)
    requires pos < |ts|
  {
    ts[pos].kind == EOF
  }

  predicate Check(ts: seq<Token>, pos: nat, kind: TokenType)
    requires pos < |ts|
  {
    !IsAtEnd(ts, pos) && ts[pos].kind == kind
  }

  /** `match(kinds...)` succeeds iff `check` accepts one of the listed kinds,
      that is, iff the cursor is not on EOF and its token has a listed kind;
      it then consumes exactly that one token. */
  predicate Matches(ts: seq<Token>, pos: nat, kinds: seq<TokenType>)
    requires pos < |ts|
  {
    !IsAtEnd(ts, pos) && ts[pos].kind in kinds
  }

  /** The position after `advance`: one further, except on EOF. */
  function Advanced(ts: seq<Token>, pos: nat): (r: nat)
    requires Valid(ts, pos)
    ensures r < |ts|
    ensures r == pos <==> IsAtEnd(ts, pos)
    ensures pos <= r <= pos + 1
  {
    if IsAtEnd(ts, pos) then pos else pos + 1
  }

  /** `consume(kind, message)`: the expected token is returned and the cursor
      moves one step; otherwise `message` is reported against the token under
      the cursor, the cursor stays, and ParseError is raised. */
  function Consume(ts: seq<Token>, pos: nat, kind: TokenType, message: string, log: seq<Report>): (r: Step<Token>)
    requires Valid(ts, pos)
    ensures r.result.Parsed? <==> Check(ts, pos, kind)
    ensures r.result.Parsed? ==>
      r.result.value == ts[pos] && r.result.value.kind == kind && r.pos == pos + 1 < |ts| && r.log == log
    ensures r.result.ParseError? ==> r.pos == pos && r.log == log + [Report(ts[pos], message)]
  {
    if Check(ts, pos, kind) then Step(Parsed(ts[pos]), pos + 1, log)
    else Step(ParseError, pos, log + [Report(ts[pos], message)])
  }

  /** The cursor stays inside the token list, never moves back, and a
      production that succeeded consumed at least one token. */
  predicate Progress<T>(ts: seq<Token>, pos: nat, r: Step<T>) {
    pos <= r.pos < |ts| && (r.result.Parsed? ==> pos < r.pos)
  }

  /** A ParseError raised with the cursor at `pos` and the reports `log`. */
  function Fail<T>(pos: nat, log: seq<Report>): Step<T> {
    Step(ParseError, pos, log)
  }

  // ---------------------------------------------------------------------
  // Expressions
  // ---------------------------------------------------------------------

  /** Binary-operator precedence levels, loosest first. */
  datatype Level = EqualityLevel | ComparisonLevel | TermLevel | FactorLevel

  function Operators(l: Level): seq<TokenType> {
    match l
    case EqualityLevel => [BangEqual, EqualEqual]
    case ComparisonLevel => [Greater, GreaterEqual, Less, LessEqual]
    case TermLevel => [Minus, Plus]
    case FactorLevel => [Slash, Star]
  }

  /** How tightly a level binds: 1 for equality up to 4 for factor. */
  function Tightness(l: Level): nat {
    match l
    case EqualityLevel => 1
    case ComparisonLevel => 2
    case TermLevel => 3
    case FactorLevel => 4
  }

  /** The level whose productions parse the operands of level `l`. */
  function Next(l: Level): (n: Level)
    requires l != FactorLevel
    ensures Tightness(n) == Tightness(l) + 1
  {
    match l
    case EqualityLevel => ComparisonLevel
    case ComparisonLevel => TermLevel
    case TermLevel => FactorLevel
  }

  /** Ranks that order the mutually recursive productions at one cursor
      position: each production only calls lower-ranked ones without first
      consuming a token. */
  function Rank(l: Level): nat {
    3 * (5 - Tightness(l))
  }

  function Expression(ts: seq<Token>, pos: nat, log: seq<Report>): (r: Step<Expr>)
    requires Valid(ts, pos)
    ensures Progress(ts, pos, r)
    decreases |ts| - pos, 16
  {
    Assignment(ts, pos, log)
  }

  /** `assignment`: an equality expression, optionally followed by `=` and a
      right-nested assignment. A target that is not a variable is reported
      against the `=` token, and the left-hand expression is kept. */
  function Assignment(ts: seq<Token>, pos: nat, log: seq<Report>): (r: Step<Expr>)
    requires Valid(ts, pos)
    ensures Progress(ts, pos, r)
    decreases |ts| - pos, 15
  {
    var left := BinaryExpr(ts, EqualityLevel, pos, log);
    if left.result.ParseError? || !Matches(ts, left.pos, [Equal]) then left
    else
      var equals := ts[left.pos];
      var value := Assignment(ts, left.pos + 1, left.log);
      if value.result.ParseError? then value
      else match left.result.value
        case Variable(name) =>
          Step(Parsed(Assign(name, value.result.value)), value.pos, value.log)
        case _ =>
          Step(left.result, value.pos, value.log + [Report(equals, InvalidTarget)])
  }

  /** `parseBinaryExpr` for one level: an operand, then the left fold of the
      operator/operand pairs that follow. */
  function BinaryExpr(ts: seq<Token>, l: Level, pos: nat, log: seq<Report>): (r: Step<Expr>)
    requires Valid(ts, pos)
    ensures Progress(ts, pos, r)
    decreases |ts| - pos, Rank(l) + 2
  {
    var first := Operand(ts, l, pos, log);
    if first.result.ParseError? then first
    else BinaryTail(ts, l, first.result.value, first.pos, first.log)
  }

  /** The `while (match(types))` loop of `parseBinaryExpr`, with `acc` the
      expression folded so far. */
  function BinaryTail(ts: seq<Token>, l: Level, acc: Expr, pos: nat, log: seq<Report>): (r: Step<Expr>)
    requires Valid(ts, pos)
    ensures pos <= r.pos < |ts|
    decreases |ts| - pos, Rank(l) + 1
  {
    if !Matches(ts, pos, Operators(l)) then Step(Parsed(acc), pos, log)
    else
      var op := ts[pos];
      var right := Operand(ts, l, pos + 1, log);
      if right.result.ParseError? then right
      else BinaryTail(ts, l, Binary(acc, op, right.result.value), right.pos, right.log)
  }

  /** The next-level parser that `parseBinaryExpr` is handed: `comparison`
      for equality, `term` for comparison, `factor` for term, `unary` for
      factor. */
  function Operand(ts: seq<Token>, l: Level, pos: nat, log: seq<Report>): (r: Step<Expr>)
    requires Valid(ts, pos)
    ensures Progress(ts, pos, r)
    decreases |ts| - pos, Rank(l)
  {
    if l == FactorLevel then Unary(ts, pos, log) else BinaryExpr(ts, Next(l), pos, log)
  }

  /** `unary`: any number of prefix `!` / `-` operators, then a primary. */
  function Unary(ts: seq<Token>, pos: nat, log: seq<Report>): (r: Step<Expr>)
    requires Valid(ts, pos)
    ensures Progress(ts, pos, r)
    decreases |ts| - pos, 2
  {
    if Matches(ts, pos, [Bang, Minus]) then
      var op := ts[pos];
      var right := Unary(ts, pos + 1, log);
      if right.result.ParseError? then right
      else Step(Parsed(Expr.Unary(op, right.result.value)), right.pos, right.log)
    else Primary(ts, pos, log)
  }

  /** `primary`: a literal, a variable, or a parenthesised expression kept as
      a Grouping node; anything else is "Expect expression." at the cursor. */
  function Primary(ts: seq<Token>, pos: nat, log: seq<Report>): (r: Step<Expr>)
    requires Valid(ts, pos)
    ensures Progress(ts, pos, r)
    decreases |ts| - pos, 1
  {
    if Matches(ts, pos, [False]) then Step(Parsed(Literal(BoolValue(false))), pos + 1, log)
    else if Matches(ts, pos, [True]) then Step(Parsed(Literal(BoolValue(true))), pos + 1, log)
    else if Matches(ts, pos, [Nil]) then Step(Parsed(Literal(NilValue)), pos + 1, log)
    else if Matches(ts, pos, [Number, String]) then Step(Parsed(Literal(ts[pos].literal)), pos + 1, log)
    else if Matches(ts, pos, [Identifier]) then Step(Parsed(Variable(ts[pos])), pos + 1, log)
    else if Matches(ts, pos, [LeftParen]) then
      var inner := Expression(ts, pos + 1, log);
      if inner.result.ParseError? then inner
      else
        var close := Consume(ts, inner.pos, RightParen, ExpectRightParen, inner.log);
        if close.result.ParseError? then Fail(close.pos, close.log)
        else Step(Parsed(Grouping(inner.result.value)), close.pos, close.log)
    else Fail(pos, log + [Report(ts[pos], ExpectExpression)])
  }

  // ---------------------------------------------------------------------
  // Statements
  // ---------------------------------------------------------------------

  /** A statement that parsed ends just past its `;`. */
  predicate EndsAtSemicolon<T>(ts: seq<Token>, r: Step<T>) {
    r.result.Parsed? ==> 0 < r.pos <= |ts| && ts[r.pos - 1].kind == Semicolon
  }

  /** `statement`: a print statement after `print`, else an expression statement. */
  function Statement(ts: seq<Token>, pos: nat, log: seq<Report>): (r: Step<Stmt>)
    requires Valid(ts, pos)
    ensures Progress(ts, pos, r) && EndsAtSemicolon(ts, r)
  {
    if Matches(ts, pos, [TokenType.Print]) then PrintStatement(ts, pos + 1, log)
    else ExpressionStatement(ts, pos, log)
  }

  /** `printStatement`, entered just past the `print` keyword. */
  function PrintStatement(ts: seq<Token>, pos: nat, log: seq<Report>): (r: Step<Stmt>)
    requires Valid(ts, pos)
    ensures Progress(ts, pos, r) && EndsAtSemicolon(ts, r)
    ensures r.result.Parsed? ==> r.result.value.Print?
  {
    var value := Expression(ts, pos, log);
    if value.result.ParseError? then Fail(value.pos, value.log)
    else
      var semi := Consume(ts, value.pos, Semicolon, ExpectValueSemicolon, value.log);
      if semi.result.ParseError? then Fail(semi.pos, semi.log)
      else Step(Parsed(Stmt.Print(value.result.value)), semi.pos, semi.log)
  }

  function ExpressionStatement(ts: seq<Token>, pos: nat, log: seq<Report>): (r: Step<Stmt>)
    requires Valid(ts, pos)
    ensures Progress(ts, pos, r) && EndsAtSemicolon(ts, r)
    ensures r.result.Parsed? ==> r.result.value.Expression?
  {
    var expr := Expression(ts, pos, log);
    if expr.result.ParseError? then Fail(expr.pos, expr.log)
    else
      var semi := Consume(ts, expr.pos, Semicolon, ExpectExpressionSemicolon, expr.log);
      if semi.result.ParseError? then Fail(semi.pos, semi.log)
      else Step(Parsed(Stmt.Expression(expr.result.value)), semi.pos, semi.log)
  }

  /** `varDeclaration`, entered just past the `var` keyword: a name, an
      optional `= initializer`, and a `;`. */
  function VarDeclaration(ts: seq<Token>, pos: nat, log: seq<Report>): (r: Step<Stmt>)
    requires Valid(ts, pos)
    ensures Progress(ts, pos, r) && EndsAtSemicolon(ts, r)
    ensures r.result.Parsed? ==>
      r.result.value.Var? && r.result.value.name == ts[pos] && ts[pos].kind == Identifier
  {
    var name := Consume(ts, pos, Identifier, ExpectVariableName, log);
    if name.result.ParseError? then Fail(name.pos, name.log)
    else if Matches(ts, name.pos, [Equal]) then
      var init := Expression(ts, name.pos + 1, name.log);
      if init.result.ParseError? then Fail(init.pos, init.log)
      else
        var semi := Consume(ts, init.pos, Semicolon, ExpectVarSemicolon, init.log);
        if semi.result.ParseError? then Fail(semi.pos, semi.log)
        else Step(Parsed(Stmt.Var(name.result.value, Some(init.result.value))), semi.pos, semi.log)
    else
      var semi := Consume(ts, name.pos, Semicolon, ExpectVarSemicolon, name.log);
      if semi.result.ParseError? then Fail(semi.pos, semi.log)
      else Step(Parsed(Stmt.Var(name.result.value, None)), semi.pos, semi.log)
  }

  /** The `try` block of `declaration`: a variable declaration after `var`,
      else a statement. */
  function TryDeclaration(ts: seq<Token>, pos: nat, log: seq<Report>): (r: Step<Stmt>)
    requires Valid(ts, pos)
    ensures Progress(ts, pos, r) && EndsAtSemicolon(ts, r)
  {
    if Matches(ts, pos, [TokenType.Var]) then VarDeclaration(ts, pos + 1, log)
    else Statement(ts, pos, log)
  }

  /** `declaration`, the recovery boundary: a failed statement is replaced by
      None after `synchronize`, so a declaration itself never fails. */
  function Declaration(ts: seq<Token>, pos: nat, log: seq<Report>): (r: Step<Option<Stmt>>)
    requires Valid(ts, pos) && !IsAtEnd(ts, pos)
    ensures r.result.Parsed? && pos < r.pos < |ts|
    ensures r.result.value.None? ==> 1 <= r.pos && SyncPoint(ts, r.pos)
  {
    var s := TryDeclaration(ts, pos, log);
    if s.result.ParseError? then Step(Parsed(None), Synchronize(ts, s.pos), s.log)
    else Step(Parsed(Some(s.result.value)), s.pos, s.log)
  }

  // ---------------------------------------------------------------------
  // Panic-mode recovery
  // ---------------------------------------------------------------------

  /** Where `synchronize` may stop: at EOF, just past a `;`, or at a keyword
      that starts a statement. */
  predicate SyncPoint(ts: seq<Token>, p: nat)
    requires 1 <= p < |ts|
  {
    IsAtEnd(ts, p) || ts[p - 1].kind == Semicolon || ts[p].kind in StatementStarts
  }

  /** `synchronize`: one unconditional `advance`, then the loop. */
  function Synchronize(ts: seq<Token>, pos: nat): (r: nat)
    requires Valid(ts, pos) && (pos >= 1 || !IsAtEnd(ts, pos))
    ensures Advanced(ts, pos) <= r < |ts| && 1 <= r
    ensures SyncPoint(ts, r)
    ensures forall p :: Advanced(ts, pos) <= p < r ==> !SyncPoint(ts, p)
  {
    SkipToSyncPoint(ts, Advanced(ts, pos))
  }

  /** The loop of `synchronize`: advance until the first sync point. */
  function SkipToSyncPoint(ts: seq<Token>, p: nat): (r: nat)
    requires Valid(ts, p) && 1 <= p
    ensures p <= r < |ts|
    ensures SyncPoint(ts, r)
    ensures forall q :: p <= q < r ==> !SyncPoint(ts, q)
    decreases |ts| - p
  {
    if SyncPoint(ts, p) then p else SkipToSyncPoint(ts, p + 1)
  }

  // ---------------------------------------------------------------------
  // The top level
  // ---------------------------------------------------------------------

  /** The `while (!isAtEnd())` loop of `parse`, from position `pos` with the
      reports `log` already sent. */
  function ParseFrom(ts: seq<Token>, pos: nat, log: seq<Report>): (r: ParseResult)
    requires Valid(ts, pos)
    ensures |r.statements| <= |ts| - 1 - pos
    ensures IsAtEnd(ts, pos) <==> r.statements == []
    decreases |ts| - pos
  {
    if IsAtEnd(ts, pos) then ParseResult([], log)
    else
      var d := Declaration(ts, pos, log);
      var rest := ParseFrom(ts, d.pos, d.log);
      ParseResult([d.result.value] + rest.statements, rest.reports)
  }

  /** `parse`: the declarations from the first token up to EOF, at most one
      per token before EOF, and none exactly when the list holds only EOF. */
  function Parse(ts: seq<Token>): (r: ParseResult)
    requires WellFormed(ts)
    ensures |r.statements| <= |ts| - 1
    ensures r.statements == [] <==> ts[0].kind == EOF
  {
    ParseFrom(ts, 0, [])
  }
}
