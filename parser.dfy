/** The parser object: an immutable token list, the mutable cursor `current`
    and the reports sent to the diagnostics sink. The methods are the Java
    methods that move the cursor or send reports, with ParseError returned
    instead of thrown; the four binary levels are `ParseBinaryExpr(l)` and
    `Operand(l)` for a precedence level `l`, and the loop of
    `parseBinaryExpr` is `FoldOperators`. Each method is proved to have
    exactly the effect that the matching function of module Grammar
    describes. */
module LoxParser {
  import opened LoxAst
  import G = Grammar

  class Parser {
    const tokens: seq<Token>
    var current: nat
    /** Every call made to `Lox.error`, in order. */
    var reports: seq<Report>

    ghost predicate Valid()
      reads this
    {
      G.Valid(tokens, current)
    }

    constructor (tokens: seq<Token>)
      requires G.WellFormed(tokens)
      ensures Valid() && this.tokens == tokens && current == 0 && reports == []
    {
      this.tokens := tokens;
      current := 0;
      reports := [];
    }

    // -------------------------------------------------------------------
    // Cursor
    // -------------------------------------------------------------------

    function Peek(): Token
      reads this
      requires Valid()
    {
      tokens[current]
    }

    function Previous(): Token
      reads this
      requires Valid() && current >= 1
    {
      tokens[current - 1]
    }

    predicate IsAtEnd()
      reads this
      requires Valid()
    {
      Peek().kind == EOF
    }

    predicate Check(kind: TokenType)
      reads this
      requires Valid()
    {
      if IsAtEnd() then false else Peek().kind == kind
    }

    /** Moves past the current token unless it is EOF, and returns the token
        just behind the cursor. */
    method Advance() returns (t: Token)
      requires Valid() && (current >= 1 || !IsAtEnd())
      modifies this`current
      ensures Valid() && current == G.Advanced(tokens, old(current)) && current >= 1
      ensures t == tokens[current - 1]
    {
      if !IsAtEnd() {
        current := current + 1;
      }
      t := Previous();
    }

    /** Tries the kinds in order; the first that `Check` accepts is consumed.
        All or nothing: one token and true, or no token and false. */
    method Match(kinds: seq<TokenType>) returns (matched: bool)
      requires Valid()
      modifies this`current
      ensures Valid()
      ensures matched == G.Matches(tokens, old(current), kinds)
      ensures matched ==> tokens[old(current)].kind in kinds && tokens[old(current)].kind != EOF
      ensures current == if matched then old(current) + 1 else old(current)
    {
      for i := 0 to |kinds|
        invariant current == old(current)
        invariant forall j :: 0 <= j < i ==> !Check(kinds[j])
      {
        if Check(kinds[i]) {
          var _ := Advance();
          return true;
        }
      }
      return false;
    }

    /** The diagnostics sink. */
    method Error(token: Token, message: string)
      modifies this`reports
      ensures reports == old(reports) + [Report(token, message)]
    {
      reports := reports + [Report(token, message)];
    }

    method Consume(kind: TokenType, message: string) returns (r: G.Outcome<Token>)
      requires Valid()
      modifies this
      ensures Valid()
      ensures var s := G.Consume(tokens, old(current), kind, message, old(reports));
        r == s.result && current == s.pos && reports == s.log
    {
      if Check(kind) {
        var t := Advance();
        return G.Parsed(t);
      }
      Error(Peek(), message);
      return G.ParseError;
    }

    // -------------------------------------------------------------------
    // Expressions
    // -------------------------------------------------------------------

    method Expression() returns (r: G.Outcome<Expr>)
      requires Valid()
      modifies this
      ensures Valid()
      ensures var s := G.Expression(tokens, old(current), old(reports));
        r == s.result && current == s.pos && reports == s.log
      decreases |tokens| - current, 16
    {
      r := Assignment();
    }

    method Assignment() returns (r: G.Outcome<Expr>)
      requires Valid()
      modifies this
      ensures Valid()
      ensures var s := G.Assignment(tokens, old(current), old(reports));
        r == s.result && current == s.pos && reports == s.log
      decreases |tokens| - current, 15
    {
      var expr := ParseBinaryExpr(G.EqualityLevel);
      if expr.ParseError? {
        return expr;
      }
      var isAssign := Match([Equal]);
      if isAssign {
        var equals := Previous();
        var value := Assignment();
        if value.ParseError? {
          return G.ParseError;
        }
        if expr.value.Variable? {
          return G.Parsed(Assign(expr.value.name, value.value));
        }
        Error(equals, G.InvalidTarget);
      }
      return expr;
    }

    /** `parseBinaryExpr`, with the next-level parser and the operator set
        given by the precedence level `l`. */
    method ParseBinaryExpr(l: G.Level) returns (r: G.Outcome<Expr>)
      requires Valid()
      modifies this
      ensures Valid()
      ensures var s := G.BinaryExpr(tokens, l, old(current), old(reports));
        r == s.result && current == s.pos && reports == s.log
      decreases |tokens| - current, G.Rank(l) + 2
    {
      var first := Operand(l);
      if first.ParseError? {
        return first;
      }
      r := FoldOperators(l, first.value);
    }

    /** The `while (match(...))` loop of `parseBinaryExpr`: `left` has been
        read, and each operator of level `l` with its operand extends it. */
    method FoldOperators(l: G.Level, left: Expr) returns (r: G.Outcome<Expr>)
      requires Valid()
      modifies this
      ensures Valid()
      ensures var s := G.BinaryTail(tokens, l, left, old(current), old(reports));
        r == s.result && current == s.pos && reports == s.log
      decreases |tokens| - current, G.Rank(l) + 1
    {
      var expr := left;
      ghost var goal := G.BinaryTail(tokens, l, left, current, reports);
      ghost var pos := current;
      var more := Match(G.Operators(l));
      while more
        invariant Valid() && old(current) <= pos < |tokens|
        invariant more == G.Matches(tokens, pos, G.Operators(l))
        invariant current == if more then pos + 1 else pos
        invariant G.BinaryTail(tokens, l, expr, pos, reports) == goal
        decreases |tokens| - pos
      {
        var operator := Previous();
        var right := Operand(l);
        if right.ParseError? {
          return G.ParseError;
        }
        expr := Binary(expr, operator, right.value);
        pos := current;
        more := Match(G.Operators(l));
      }
      return G.Parsed(expr);
    }

    /** The next-level parser of level `l`: `comparison`, `term`, `factor`
        or `unary`. */
    method Operand(l: G.Level) returns (r: G.Outcome<Expr>)
      requires Valid()
      modifies this
      ensures Valid()
      ensures var s := G.Operand(tokens, l, old(current), old(reports));
        r == s.result && current == s.pos && reports == s.log
      decreases |tokens| - current, G.Rank(l)
    {
      if l == G.FactorLevel {
        r := Unary();
      } else {
        r := ParseBinaryExpr(G.Next(l));
      }
    }

    method Unary() returns (r: G.Outcome<Expr>)
      requires Valid()
      modifies this
      ensures Valid()
      ensures var s := G.Unary(tokens, old(current), old(reports));
        r == s.result && current == s.pos && reports == s.log
      decreases |tokens| - current, 2
    {
      var isUnary := Match([Bang, Minus]);
      if isUnary {
        var operator := Previous();
        var right := Unary();
        if right.ParseError? {
          return G.ParseError;
        }
        return G.Parsed(Expr.Unary(operator, right.value));
      }
      r := Primary();
    }

    method Primary() returns (r: G.Outcome<Expr>)
      requires Valid()
      modifies this
      ensures Valid()
      ensures var s := G.Primary(tokens, old(current), old(reports));
        r == s.result && current == s.pos && reports == s.log
      decreases |tokens| - current, 1
    {
      var m := Match([False]);
      if m {
        return G.Parsed(Literal(BoolValue(false)));
      }
      m := Match([True]);
      if m {
        return G.Parsed(Literal(BoolValue(true)));
      }
      m := Match([Nil]);
      if m {
        return G.Parsed(Literal(NilValue));
      }
      m := Match([Number, String]);
      if m {
        return G.Parsed(Literal(Previous().literal));
      }
      m := Match([Identifier]);
      if m {
        return G.Parsed(Variable(Previous()));
      }
      m := Match([LeftParen]);
      if m {
        var expr := Expression();
        if expr.ParseError? {
          return G.ParseError;
        }
        var close := Consume(RightParen, G.ExpectRightParen);
        if close.ParseError? {
          return G.ParseError;
        }
        return G.Parsed(Grouping(expr.value));
      }
      Error(Peek(), G.ExpectExpression);
      return G.ParseError;
    }

    // -------------------------------------------------------------------
    // Statements
    // -------------------------------------------------------------------

    /** `declaration`: a failed statement is recovered from here, so the
        caller gets None instead of an error. */
    method Declaration() returns (r: Option<Stmt>)
      requires Valid() && !IsAtEnd()
      modifies this
      ensures Valid()
      ensures var s := G.Declaration(tokens, old(current), old(reports));
        r == s.result.value && current == s.pos && reports == s.log
    {
      var isVar := Match([TokenType.Var]);
      var s: G.Outcome<Stmt>;
      if isVar {
        s := VarDeclaration();
      } else {
        s := Statement();
      }
      if s.ParseError? {
        Synchronize();
        return None;
      }
      return Some(s.value);
    }

    method Statement() returns (r: G.Outcome<Stmt>)
      requires Valid()
      modifies this
      ensures Valid()
      ensures var s := G.Statement(tokens, old(current), old(reports));
        r == s.result && current == s.pos && reports == s.log
    {
      var isPrint := Match([TokenType.Print]);
      if isPrint {
        r := PrintStatement();
        return;
      }
      r := ExpressionStatement();
    }

    method PrintStatement() returns (r: G.Outcome<Stmt>)
      requires Valid()
      modifies this
      ensures Valid()
      ensures var s := G.PrintStatement(tokens, old(current), old(reports));
        r == s.result && current == s.pos && reports == s.log
    {
      var value := Expression();
      if value.ParseError? {
        return G.ParseError;
      }
      var semi := Consume(Semicolon, G.ExpectValueSemicolon);
      if semi.ParseError? {
        return G.ParseError;
      }
      return G.Parsed(Stmt.Print(value.value));
    }

    method VarDeclaration() returns (r: G.Outcome<Stmt>)
      requires Valid()
      modifies this
      ensures Valid()
      ensures var s := G.VarDeclaration(tokens, old(current), old(reports));
        r == s.result && current == s.pos && reports == s.log
    {
      var name := Consume(Identifier, G.ExpectVariableName);
      if name.ParseError? {
        return G.ParseError;
      }
      var initializer: Option<Expr> := None;
      var hasInitializer := Match([Equal]);
      if hasInitializer {
        var init := Expression();
        if init.ParseError? {
          return G.ParseError;
        }
        initializer := Some(init.value);
      }
      var semi := Consume(Semicolon, G.ExpectVarSemicolon);
      if semi.ParseError? {
        return G.ParseError;
      }
      return G.Parsed(Stmt.Var(name.value, initializer));
    }

    method ExpressionStatement() returns (r: G.Outcome<Stmt>)
      requires Valid()
      modifies this
      ensures Valid()
      ensures var s := G.ExpressionStatement(tokens, old(current), old(reports));
        r == s.result && current == s.pos && reports == s.log
    {
      var expr := Expression();
      if expr.ParseError? {
        return G.ParseError;
      }
      var semi := Consume(Semicolon, G.ExpectExpressionSemicolon);
      if semi.ParseError? {
        return G.ParseError;
      }
      return G.Parsed(Stmt.Expression(expr.value));
    }

    // -------------------------------------------------------------------
    // Recovery and the top level
    // -------------------------------------------------------------------

    /** `synchronize`: skip at least one token, then stop just past a `;`,
        before a statement keyword, or at EOF. */
    method Synchronize()
      requires Valid() && (current >= 1 || !IsAtEnd())
      modifies this`current
      ensures Valid() && current == G.Synchronize(tokens, old(current))
    {
      var _ := Advance();
      while !IsAtEnd()
        invariant Valid() && current >= 1
        invariant G.SkipToSyncPoint(tokens, current) == G.Synchronize(tokens, old(current))
        decreases |tokens| - current
      {
        if Previous().kind == Semicolon {
          return;
        }
        if Peek().kind in G.StatementStarts {
          return;
        }
        var _ := Advance();
      }
    }

    /** `parse`: declarations until EOF, one entry each, None for those that
        failed. */
    method Parse() returns (statements: seq<Option<Stmt>>)
      requires Valid()
      modifies this
      ensures Valid() && IsAtEnd()
      ensures var p := G.ParseFrom(tokens, old(current), old(reports));
        statements == p.statements && reports == p.reports
    {
      statements := [];
      ghost var goal := G.ParseFrom(tokens, current, reports);
      while !IsAtEnd()
        invariant Valid()
        invariant var rest := G.ParseFrom(tokens, current, reports);
          goal.statements == statements + rest.statements && goal.reports == rest.reports
        decreases |tokens| - current
      {
        var d := Declaration();
        statements := statements + [d];
        assert goal.statements == statements + G.ParseFrom(tokens, current, reports).statements;
      }
    }
  }
}
