/** The ParseError paths of the expression grammar and panic-mode recovery:
    an error raised by the leading `unary` of an expression reaches
    `expression` unchanged, the messages `primary` and `assignment` send, and
    where `declaration` resumes on concrete inputs. */
module ErrorPaths {
  import opened LoxAst
  import opened Grammar
  import opened GrammarFacts
  import opened RoundTrip
  import opened ParseBack
  import opened StatementBack

  /** A ParseError raised by `unary` passes through every binary level
      untouched: the cursor and the reports are those of the failure. */
  lemma {:induction false} ErrorsRise(ts: seq<Token>, l: Level, pos: nat, log: seq<Report>)
    requires Valid(ts, pos) && Grammar.Unary(ts, pos, log).result.ParseError?
    ensures BinaryExpr(ts, l, pos, log) == Grammar.Unary(ts, pos, log)
    decreases Rank(l)
  {
    if l != FactorLevel {
      ErrorsRise(ts, Next(l), pos, log);
    }
  }

  /** ... and through `assignment` up to `expression`. */
  lemma ExpressionFails(ts: seq<Token>, pos: nat, log: seq<Report>)
    requires Valid(ts, pos) && Grammar.Unary(ts, pos, log).result.ParseError?
    ensures Grammar.Expression(ts, pos, log) == Grammar.Unary(ts, pos, log)
  {
    ErrorsRise(ts, EqualityLevel, pos, log);
  }

  /** A token that starts no expression, EOF included, is reported as
      "Expect expression." against that token, and nothing is consumed. */
  lemma NoExpression(ts: seq<Token>, pos: nat, log: seq<Report>)
    requires Valid(ts, pos)
    requires ts[pos].kind !in [Bang, Minus, False, True, Nil, Number, String, Identifier, LeftParen]
    ensures Grammar.Expression(ts, pos, log) == Step(ParseError, pos, log + [Report(ts[pos], ExpectExpression)])
  {
    UnaryToPrimary(ts, pos, log);
    ExpressionFails(ts, pos, log);
  }

  /** A parenthesised expression not followed by `)` is reported as
      "Expect ')' after expression." against the token found instead; the
      cursor stays on that token. */
  lemma MissingCloseParen(ts: seq<Token>, pos: nat, log: seq<Report>)
    requires Valid(ts, pos) && ts[pos].kind == LeftParen
    requires var inner := Grammar.Expression(ts, pos + 1, log);
      inner.result.Parsed? && ts[inner.pos].kind != RightParen
    ensures var inner := Grammar.Expression(ts, pos + 1, log);
      Grammar.Expression(ts, pos, log) == Step(ParseError, inner.pos, inner.log + [Report(ts[inner.pos], ExpectRightParen)])
  {
    UnaryToPrimary(ts, pos, log);
    ExpressionFails(ts, pos, log);
  }

  /** An assignment whose left side parsed to anything but a variable:
      "Invalid assignment target." is reported against the `=`, the value is
      parsed and dropped, and the left side is the result, without a
      ParseError. */
  lemma InvalidTargetBack(ts: seq<Token>, l: Expr, v: Expr, pos: nat, mid: nat, end: nat, log: seq<Report>)
    requires WellFormed(ts) && PrecOk(l) && !l.Assign? && !l.Variable? && Written(ts, pos, l)
    requires mid == pos + Width(l) && ts[mid].kind == Equal
    requires PrecOk(v) && Written(ts, mid + 1, v) && end == mid + 1 + Width(v)
    requires OperatorTightness(ts[end].kind) == 0 && ts[end].kind != Equal
    ensures Assignment(ts, pos, log) == Step(Parsed(l), end, log + [Report(ts[mid], InvalidTarget)])
  {
    BinaryExprBack(ts, EqualityLevel, l, pos, mid, log);
    OperatorsByTightness(ts[mid].kind, EqualityLevel);
    BinaryTailStops(ts, EqualityLevel, l, mid, log);
    AssignmentBack(ts, v, mid + 1, end, log);
    InvalidTargetStep(ts, l, v, pos, mid, end, log);
  }

  /** One unfolding of `assignment` whose left side is no variable. */
  lemma InvalidTargetStep(ts: seq<Token>, l: Expr, v: Expr, pos: nat, mid: nat, end: nat, log: seq<Report>)
    requires Valid(ts, pos) && Valid(ts, mid + 1) && !l.Variable? && ts[mid].kind == Equal
    requires BinaryExpr(ts, EqualityLevel, pos, log) == Step(Parsed(l), mid, log)
    requires Assignment(ts, mid + 1, log) == Step(Parsed(v), end, log)
    ensures Assignment(ts, pos, log) == Step(Parsed(l), end, log + [Report(ts[mid], InvalidTarget)])
  {
  }

  /** `1 = 2`: the target is no variable, so "Invalid assignment target." is
      reported against the `=` and the left-hand side `1` is the result, with
      the value `2` consumed and no ParseError raised. */
  lemma InvalidTargetKeepsLeft(log: seq<Report>)
    ensures Grammar.Expression([Num("1", 1.0), EqualsSign, Num("2", 2.0), End], 0, log)
      == Step(Parsed(Literal(NumberValue(1.0))), 3, log + [Report(EqualsSign, InvalidTarget)])
  {
    var ts := [Num("1", 1.0), EqualsSign, Num("2", 2.0), End];
    var one := Literal(NumberValue(1.0));
    var two := Literal(NumberValue(2.0));
    assert Written(ts, 0, one) && Written(ts, 2, two);
    InvalidTargetBack(ts, one, two, 0, 1, 3, log);
  }

  const PrintKeyword := Punct(TokenType.Print, "print")

  /** `print 1 print 2 ;`, as the scanner hands it over. */
  const TwoPrints := [PrintKeyword, Num("1", 1.0), PrintKeyword, Num("2", 2.0), Punct(Semicolon, ";"), End]

  /** `print 1 print 2 ;`: the missing `;` is reported against the second
      `print`, and since `synchronize` first steps over the token the error
      was reported at, it skips that keyword and the rest of its statement:
      the second statement is lost, and `parse` returns one None entry. */
  lemma RecoverySkipsNextStatement()
    ensures Parse(TwoPrints) == ParseResult([None], [Report(PrintKeyword, ExpectValueSemicolon)])
  {
    var ts := TwoPrints;
    var reports := [Report(PrintKeyword, ExpectValueSemicolon)];
    FirstPrintFails();
    assert SkipToSyncPoint(ts, 5) == 5;
    assert SkipToSyncPoint(ts, 4) == 5;
    assert Synchronize(ts, 2) == 5;
    assert Declaration(ts, 0, []) == Step(Parsed(None), 5, reports);
    assert ParseFrom(ts, 5, reports) == ParseResult([], reports);
  }

  /** The first statement of `print 1 print 2 ;` raises at the second
      `print`, which stands where its `;` should. */
  lemma FirstPrintFails()
    ensures Statement(TwoPrints, 0, []) == Step(ParseError, 2, [Report(PrintKeyword, ExpectValueSemicolon)])
  {
    var ts := TwoPrints;
    var one := Literal(NumberValue(1.0));
    assert Written(ts, 1, one);
    AssignmentBack(ts, one, 1, 2, []);
    assert PrintStatement(ts, 1, []) == Step(ParseError, 2, [Report(PrintKeyword, ExpectValueSemicolon)]);
  }

  const Semi := Punct(Semicolon, ";")

  /** `print ) ; print 2 ;`, as the scanner hands it over. */
  const BadThenGood := [PrintKeyword, CloseParen, Semi, PrintKeyword, Num("2", 2.0), Semi, End]

  /** `print ) ; print 2 ;`: "Expect expression." is reported against the
      `)`, `synchronize` steps over it and stops just past the `;`, and the
      second statement is parsed as usual. */
  lemma RecoveryResumesNextStatement()
    ensures Parse(BadThenGood)
      == ParseResult([None, Some(Stmt.Print(Literal(NumberValue(2.0))))], [Report(CloseParen, ExpectExpression)])
  {
    FirstDeclarationRecovers();
    SecondDeclarationParses();
    ParseTwo(BadThenGood, 3, 6);
  }

  /** `parse` of a token list that holds two declarations, the first ending
      at `mid` and the second at EOF. */
  lemma ParseTwo(ts: seq<Token>, mid: nat, end: nat)
    requires WellFormed(ts) && !IsAtEnd(ts, 0)
    requires Declaration(ts, 0, []).pos == mid && !IsAtEnd(ts, mid)
    requires Declaration(ts, mid, Declaration(ts, 0, []).log).pos == end && IsAtEnd(ts, end)
    ensures var first := Declaration(ts, 0, []);
      var second := Declaration(ts, mid, first.log);
      Parse(ts) == ParseResult([first.result.value, second.result.value], second.log)
  {
    var first := Declaration(ts, 0, []);
    var second := Declaration(ts, mid, first.log);
    assert ParseFrom(ts, end, second.log) == ParseResult([], second.log);
    assert ParseFrom(ts, mid, first.log) == ParseResult([second.result.value], second.log);
  }

  /** The second declaration of `print ) ; print 2 ;` is `print 2 ;`. */
  lemma SecondDeclarationParses()
    ensures Declaration(BadThenGood, 3, [Report(CloseParen, ExpectExpression)])
      == Step(Parsed(Some(Stmt.Print(Literal(NumberValue(2.0))))), 6, [Report(CloseParen, ExpectExpression)])
  {
    var two := Literal(NumberValue(2.0));
    assert Written(BadThenGood, 4, two);
    DeclarationPrintBack(BadThenGood, two, 3, 5, [Report(CloseParen, ExpectExpression)]);
  }

  /** The first declaration of `print ) ; print 2 ;` fails at the `)` and
      resumes just past the `;`. */
  lemma FirstDeclarationRecovers()
    ensures Declaration(BadThenGood, 0, []) == Step(Parsed(None), 3, [Report(CloseParen, ExpectExpression)])
  {
    BadPrintFails();
    BadPrintSynchronizes();
  }

  /** The first statement of `print ) ; print 2 ;` raises at the `)`. */
  lemma BadPrintFails()
    ensures Statement(BadThenGood, 0, []) == Step(ParseError, 1, [Report(CloseParen, ExpectExpression)])
  {
    NoExpression(BadThenGood, 1, []);
  }

  /** From the `)`, `synchronize` stops just past the `;`. */
  lemma BadPrintSynchronizes()
    ensures Synchronize(BadThenGood, 1) == 3
  {
    var ts := BadThenGood;
    assert SkipToSyncPoint(ts, 3) == 3;
    assert SkipToSyncPoint(ts, 2) == 3;
  }
}
