/** Where panic-mode recovery lands. Every ParseError is raised with the
    cursor still on the token its report is against, since each error is
    reported against the token under the cursor; `declaration` then resumes
    at the first sync point after that token. */
module Recovery {
  import opened LoxAst
  import opened Grammar

  /** A production that raised a ParseError left the cursor on the token
      that its last report is against. */
  predicate RaisedAt<T>(ts: seq<Token>, r: Step<T>) {
    r.result.ParseError? ==> r.pos < |ts| && |r.log| > 0 && r.log[|r.log| - 1].token == ts[r.pos]
  }

  lemma {:induction false} ExpressionRaisedAt(ts: seq<Token>, pos: nat, log: seq<Report>)
    requires Valid(ts, pos)
    ensures RaisedAt(ts, Grammar.Expression(ts, pos, log))
    decreases |ts| - pos, 16
  {
    AssignmentRaisedAt(ts, pos, log);
  }

  lemma {:induction false} AssignmentRaisedAt(ts: seq<Token>, pos: nat, log: seq<Report>)
    requires Valid(ts, pos)
    ensures RaisedAt(ts, Assignment(ts, pos, log))
    decreases |ts| - pos, 15
  {
    var left := BinaryExpr(ts, EqualityLevel, pos, log);
    BinaryExprRaisedAt(ts, EqualityLevel, pos, log);
    if left.result.Parsed? && Matches(ts, left.pos, [Equal]) {
      AssignmentRaisedAt(ts, left.pos + 1, left.log);
    }
  }

  lemma {:induction false} BinaryExprRaisedAt(ts: seq<Token>, l: Level, pos: nat, log: seq<Report>)
    requires Valid(ts, pos)
    ensures RaisedAt(ts, BinaryExpr(ts, l, pos, log))
    decreases |ts| - pos, Rank(l) + 2
  {
    var first := Operand(ts, l, pos, log);
    OperandRaisedAt(ts, l, pos, log);
    if first.result.Parsed? {
      BinaryTailRaisedAt(ts, l, first.result.value, first.pos, first.log);
    }
  }

  lemma {:induction false} BinaryTailRaisedAt(ts: seq<Token>, l: Level, acc: Expr, pos: nat, log: seq<Report>)
    requires Valid(ts, pos)
    ensures RaisedAt(ts, BinaryTail(ts, l, acc, pos, log))
    decreases |ts| - pos, Rank(l) + 1
  {
    if Matches(ts, pos, Operators(l)) {
      var right := Operand(ts, l, pos + 1, log);
      OperandRaisedAt(ts, l, pos + 1, log);
      if right.result.Parsed? {
        BinaryTailRaisedAt(ts, l, Binary(acc, ts[pos], right.result.value), right.pos, right.log);
      }
    }
  }

  lemma {:induction false} OperandRaisedAt(ts: seq<Token>, l: Level, pos: nat, log: seq<Report>)
    requires Valid(ts, pos)
    ensures RaisedAt(ts, Operand(ts, l, pos, log))
    decreases |ts| - pos, Rank(l)
  {
    if l == FactorLevel {
      UnaryRaisedAt(ts, pos, log);
    } else {
      BinaryExprRaisedAt(ts, Next(l), pos, log);
    }
  }

  lemma {:induction false} UnaryRaisedAt(ts: seq<Token>, pos: nat, log: seq<Report>)
    requires Valid(ts, pos)
    ensures RaisedAt(ts, Grammar.Unary(ts, pos, log))
    decreases |ts| - pos, 2
  {
    if Matches(ts, pos, [Bang, Minus]) {
      UnaryRaisedAt(ts, pos + 1, log);
    } else {
      PrimaryRaisedAt(ts, pos, log);
    }
  }

  lemma {:induction false} PrimaryRaisedAt(ts: seq<Token>, pos: nat, log: seq<Report>)
    requires Valid(ts, pos)
    ensures RaisedAt(ts, Primary(ts, pos, log))
    decreases |ts| - pos, 1
  {
    if Matches(ts, pos, [LeftParen]) {
      ExpressionRaisedAt(ts, pos + 1, log);
    }
  }

  lemma PrintStatementRaisedAt(ts: seq<Token>, pos: nat, log: seq<Report>)
    requires Valid(ts, pos)
    ensures RaisedAt(ts, PrintStatement(ts, pos, log))
  {
    ExpressionRaisedAt(ts, pos, log);
  }

  lemma ExpressionStatementRaisedAt(ts: seq<Token>, pos: nat, log: seq<Report>)
    requires Valid(ts, pos)
    ensures RaisedAt(ts, ExpressionStatement(ts, pos, log))
  {
    ExpressionRaisedAt(ts, pos, log);
  }

  lemma StatementRaisedAt(ts: seq<Token>, pos: nat, log: seq<Report>)
    requires Valid(ts, pos)
    ensures RaisedAt(ts, Statement(ts, pos, log))
  {
    if Matches(ts, pos, [TokenType.Print]) {
      PrintStatementRaisedAt(ts, pos + 1, log);
    } else {
      ExpressionStatementRaisedAt(ts, pos, log);
    }
  }

  lemma VarDeclarationRaisedAt(ts: seq<Token>, pos: nat, log: seq<Report>)
    requires Valid(ts, pos)
    ensures RaisedAt(ts, VarDeclaration(ts, pos, log))
  {
    if Matches(ts, pos, [Identifier]) && Matches(ts, pos + 1, [Equal]) {
      ExpressionRaisedAt(ts, pos + 2, log);
    }
  }

  lemma TryDeclarationRaisedAt(ts: seq<Token>, pos: nat, log: seq<Report>)
    requires Valid(ts, pos)
    ensures RaisedAt(ts, TryDeclaration(ts, pos, log))
  {
    if Matches(ts, pos, [TokenType.Var]) {
      VarDeclarationRaisedAt(ts, pos + 1, log);
    } else {
      StatementRaisedAt(ts, pos, log);
    }
  }

  /** `declaration` keeps a statement that parsed, with its cursor and
      reports. When the statement raised, the entry is None, no report is
      added, and the cursor moves to the first sync point after the token the
      error was reported at: `synchronize` steps over that token and stops
      at the first EOF, position just past a `;`, or statement keyword. */
  lemma DeclarationResumes(ts: seq<Token>, pos: nat, log: seq<Report>)
    requires Valid(ts, pos) && !IsAtEnd(ts, pos)
    ensures var s := TryDeclaration(ts, pos, log); var r := Declaration(ts, pos, log);
      (s.result.Parsed? ==> r == Step(Parsed(Some(s.result.value)), s.pos, s.log)) &&
      (s.result.ParseError? ==>
        s.pos < |ts| && |s.log| > 0 && s.log[|s.log| - 1].token == ts[s.pos] &&
        r.result.value.None? && r.log == s.log && r.pos == Synchronize(ts, s.pos))
  {
    TryDeclarationRaisedAt(ts, pos, log);
  }
}
