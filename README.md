# jlox parser, modelled in Dafny

This project models the recursive-descent parser of the Lox language
(`src/com/craftinginterpreters/lox/Parser.java`), which turns a token list
ending in `EOF` into a list of statements, and proves what it promises: the
cursor stays in bounds, `match` and `consume` move by one token or none,
binary operators associate to the left, tighter levels nest lower,
assignment associates to the right, errors are reported with the right
message against the right token, `synchronize` stops at the first restart
point, and `parse` terminates with one entry per declaration.

Files and modules:

- `ast.dfy` (`LoxAst`): tokens (kind, lexeme, literal, line), the
  expression tree (`Literal`, `Grouping`, `Unary`, `Binary`, `Variable`,
  `Assign`), the statements (`Expression`, `Print`, `Var`) and a `Report`,
  one call of the diagnostics sink `Lox.error`.
- `grammar.dfy` (`Grammar`): every production as a pure function of the
  token list, the cursor position and the reports sent so far, returning a
  `Step`: the outcome (`Parsed(value)` or `ParseError`), the new cursor and
  the reports. The Java `ParseError` exception becomes the `ParseError`
  outcome, left with the cursor where it was thrown; `Lox.error` becomes an
  appended report. The four binary levels (`equality`, `comparison`, `term`,
  `factor`) share `BinaryExpr`/`BinaryTail`, indexed by a `Level`, as they
  share `parseBinaryExpr`.
- `parser.dfy` (`LoxParser`): class `Parser` with the immutable `tokens`,
  the mutable cursor `current` and the `reports` sent so far. The Java
  methods that move the cursor or send reports are methods (`advance`,
  `match`, `consume`, `error`, the productions, `synchronize`, `parse`), with
  the Java loops kept as loops (`match`, the fold of `parseBinaryExpr` in
  `FoldOperators`, `synchronize`, `parse`); the four binary levels
  `equality`, `comparison`, `term` and `factor` are `ParseBinaryExpr(l)` and
  `Operand(l)` for a precedence `Level` `l`; `peek`, `previous`, `isAtEnd`
  and `check`, which only read, are functions. Each method is proved to
  return, and leave `current` and `reports` exactly as, the matching
  `Grammar` function says.
- `grammar_facts.dfy` (`GrammarFacts`): what holds for every input: the
  precedence shape `PrecOk` of every parsed expression, the discipline of the
  reports (a production that fails sends exactly one report that raises, as
  its last; a success sends only "Invalid assignment target."), and for
  `parse`: one report that raises per `None` entry.
- `round_trip.dfy` (`RoundTrip`) and `parse_back.dfy` (`ParseBack`): printing
  any expression with the precedence shape (`Unparse`) and parsing it back
  gives that expression again; `1-2-3`, `1+2*3`, `!!true` and `a = b = c`
  follow as instances.
- `statement_back.dfy` (`StatementBack`): the statements read back from a
  written expression and a `;`, and the message and token of every missing
  `;` or variable name.
- `recovery.dfy` (`Recovery`): every ParseError is raised with the cursor
  on the token its report is against, so `declaration` resumes at the first
  sync point after that token.
- `error_paths.dfy` (`ErrorPaths`): the failure paths: a ParseError raised by
  the leading `unary` of an expression reaches `expression` unchanged,
  "Expect expression." and "Expect ')' after expression.", an invalid
  assignment target that keeps the left side, and recovery on two concrete
  inputs, one where the next statement is lost and one where it is parsed.

Where the code and the design differ, the model follows the code:

- A declaration that fails is not dropped from the result: `declaration`
  returns `null` and `parse` appends it (Parser.java:22, :40-42). The model
  returns `seq<Option<Stmt>>` with `None` there.
- `parse` never returns a failure sentinel: `declaration` catches every
  ParseError and `synchronize` raises none, so the `catch` of `parse`
  (Parser.java:26-27) is unreachable. `Grammar.ParseFrom` has no error case;
  whether the pass failed is read from the reports (`GrammarFacts.ParseFacts`).
- `synchronize` first steps over the token the error was reported at. When
  that token is itself a statement keyword (a `print` where a `;` was
  expected), the statement it starts is skipped too
  (`ErrorPaths.RecoverySkipsNextStatement`).

## Model

| member | source | states |
|---|---|---|
| LoxParser.Parser.constructor | src/com/craftinginterpreters/lox/Parser.java:11-16 | the parser starts at the first token with no reports, over a non-empty token list ending in EOF |
| LoxParser.Parser.Advance | src/com/craftinginterpreters/lox/Parser.java:176-179 | moves one token on unless at EOF, never past the last token, and returns the token just behind the cursor |
| Grammar.Advanced | src/com/craftinginterpreters/lox/Parser.java:176-183 | the cursor after `advance` stays in bounds, moves by at most one, and stays put exactly on EOF |
| LoxParser.Parser.Match | src/com/craftinginterpreters/lox/Parser.java:154-163 | all or nothing: true and exactly one token consumed, whose kind is one of those listed and not EOF; or false with the cursor unchanged |
| LoxParser.Parser.Error | src/com/craftinginterpreters/lox/Parser.java:193-196 | one report (token, message) is appended to the sink |
| Grammar.Consume | src/com/craftinginterpreters/lox/Parser.java:165-169 | succeeds iff the current token has the kind and is not EOF, then returns it and moves on by one; otherwise reports the message against the current token and fails with the cursor unchanged |
| LoxParser.Parser.Consume | src/com/craftinginterpreters/lox/Parser.java:165-169 | result, cursor and reports are those of `Grammar.Consume` |
| Grammar.Expression | src/com/craftinginterpreters/lox/Parser.java:31-33 | the cursor stays in bounds and never moves back, and a success consumes at least one token |
| Grammar.Assignment | src/com/craftinginterpreters/lox/Parser.java:76-92 | the same progress guarantee for `assignment` |
| Grammar.BinaryExpr | src/com/craftinginterpreters/lox/Parser.java:142-152 | the same progress guarantee for each binary level |
| Grammar.BinaryTail | src/com/craftinginterpreters/lox/Parser.java:145-149 | the operator loop keeps the cursor in bounds and never moves it back |
| Grammar.Operand | src/com/craftinginterpreters/lox/Parser.java:94-108 | the next-level parser of each binary level makes the same progress |
| Grammar.Unary | src/com/craftinginterpreters/lox/Parser.java:110-118 | the same progress guarantee for `unary` |
| Grammar.Primary | src/com/craftinginterpreters/lox/Parser.java:120-140 | every successful `primary` consumes at least one token and the cursor stays in bounds |
| LoxParser.Parser.Expression | src/com/craftinginterpreters/lox/Parser.java:31-33 | result, cursor and reports are those of `Grammar.Expression` |
| LoxParser.Parser.Assignment | src/com/craftinginterpreters/lox/Parser.java:76-92 | result, cursor and reports are those of `Grammar.Assignment` |
| LoxParser.Parser.ParseBinaryExpr | src/com/craftinginterpreters/lox/Parser.java:142-152 | result, cursor and reports are those of `Grammar.BinaryExpr` |
| LoxParser.Parser.FoldOperators | src/com/craftinginterpreters/lox/Parser.java:145-151 | the loop leaves result, cursor and reports as `Grammar.BinaryTail` says |
| LoxParser.Parser.Operand | src/com/craftinginterpreters/lox/Parser.java:94-108 | result, cursor and reports are those of `Grammar.Operand` |
| LoxParser.Parser.Unary | src/com/craftinginterpreters/lox/Parser.java:110-118 | result, cursor and reports are those of `Grammar.Unary` |
| LoxParser.Parser.Primary | src/com/craftinginterpreters/lox/Parser.java:120-140 | result, cursor and reports are those of `Grammar.Primary` |
| Grammar.Statement | src/com/craftinginterpreters/lox/Parser.java:46-50 | progress, and a statement that parsed ends just past its `;` |
| Grammar.PrintStatement | src/com/craftinginterpreters/lox/Parser.java:52-56 | progress, ends just past `;`, and what it yields is a `Print` statement |
| Grammar.ExpressionStatement | src/com/craftinginterpreters/lox/Parser.java:70-74 | progress, ends just past `;`, and what it yields is an `Expression` statement |
| Grammar.VarDeclaration | src/com/craftinginterpreters/lox/Parser.java:58-68 | progress, ends just past `;`, and what it yields is a `Var` statement named by an identifier |
| Grammar.TryDeclaration | src/com/craftinginterpreters/lox/Parser.java:37-39 | the `try` block of `declaration` makes progress, and a statement that parsed ends just past its `;` |
| Grammar.Declaration | src/com/craftinginterpreters/lox/Parser.java:35-44 | never fails, and always moves the cursor on by at least one token while staying in bounds; after a failed statement (None) the cursor is at a sync point: EOF, just past a `;`, or a statement keyword |
| LoxParser.Parser.Declaration | src/com/craftinginterpreters/lox/Parser.java:35-44 | result, cursor and reports are those of `Grammar.Declaration` |
| LoxParser.Parser.Statement | src/com/craftinginterpreters/lox/Parser.java:46-50 | result, cursor and reports are those of `Grammar.Statement` |
| LoxParser.Parser.PrintStatement | src/com/craftinginterpreters/lox/Parser.java:52-56 | result, cursor and reports are those of `Grammar.PrintStatement` |
| LoxParser.Parser.VarDeclaration | src/com/craftinginterpreters/lox/Parser.java:58-68 | result, cursor and reports are those of `Grammar.VarDeclaration` |
| LoxParser.Parser.ExpressionStatement | src/com/craftinginterpreters/lox/Parser.java:70-74 | result, cursor and reports are those of `Grammar.ExpressionStatement` |
| Grammar.Synchronize | src/com/craftinginterpreters/lox/Parser.java:198-218 | after one unconditional advance, stops at the first position that is EOF, just past a `;`, or at a statement keyword; no earlier position qualifies |
| Grammar.SkipToSyncPoint | src/com/craftinginterpreters/lox/Parser.java:201-217 | the loop stops at the first sync point from where it starts |
| LoxParser.Parser.Synchronize | src/com/craftinginterpreters/lox/Parser.java:198-218 | leaves the cursor where `Grammar.Synchronize` says |
| Grammar.ParseFrom | src/com/craftinginterpreters/lox/Parser.java:18-29 | the loop terminates with at most one entry per remaining token, and with no entry exactly when started at EOF |
| Grammar.Parse | src/com/craftinginterpreters/lox/Parser.java:18-29 | `parse` starts at the first token: at most one entry per token before EOF, and no entry exactly when the list holds only EOF |
| LoxParser.Parser.Parse | src/com/craftinginterpreters/lox/Parser.java:18-29 | ends at EOF with the statements and reports of `Grammar.ParseFrom` |
| GrammarFacts.OperatorsByTightness | src/com/craftinginterpreters/lox/Parser.java:94-108 | each binary operator belongs to exactly one level, the one whose tightness it has |
| GrammarFacts.ExpressionFacts | src/com/craftinginterpreters/lox/Parser.java:31-33 | a parsed expression has the precedence shape, and the reports follow the report discipline |
| GrammarFacts.AssignmentFacts | src/com/craftinginterpreters/lox/Parser.java:76-92 | the same for `assignment`, whose only report without failing is "Invalid assignment target." |
| GrammarFacts.BinaryExprFacts | src/com/craftinginterpreters/lox/Parser.java:142-152 | each level yields an expression of the precedence shape binding at least as tightly as the level |
| GrammarFacts.BinaryTailFacts | src/com/craftinginterpreters/lox/Parser.java:145-149 | the left fold keeps the precedence shape: left operand at least as tight as the node, right operand strictly tighter |
| GrammarFacts.OperandFacts | src/com/craftinginterpreters/lox/Parser.java:94-108 | the operand of a level binds strictly more tightly than that level |
| GrammarFacts.UnaryFacts | src/com/craftinginterpreters/lox/Parser.java:110-118 | `unary` yields an atomic expression (unary, primary) of the precedence shape |
| GrammarFacts.PrimaryFacts | src/com/craftinginterpreters/lox/Parser.java:120-140 | `primary` yields an atomic expression; a failure sends exactly one report |
| GrammarFacts.StatementFacts | src/com/craftinginterpreters/lox/Parser.java:46-50 | a parsed statement's expressions have the precedence shape; reports follow the discipline |
| GrammarFacts.PrintStatementFacts | src/com/craftinginterpreters/lox/Parser.java:52-56 | the same for `printStatement` |
| GrammarFacts.ExpressionStatementFacts | src/com/craftinginterpreters/lox/Parser.java:70-74 | the same for `expressionStatement` |
| GrammarFacts.VarDeclarationFacts | src/com/craftinginterpreters/lox/Parser.java:58-68 | the same for `varDeclaration`, with or without an initializer |
| GrammarFacts.DeclarationFacts | src/com/craftinginterpreters/lox/Parser.java:35-44 | `declaration` yields None exactly when its statement raised, and then exactly one report that raises was sent |
| GrammarFacts.ReportsCounted | src/com/craftinginterpreters/lox/Parser.java:193-196 | a production sends no raising report when it succeeds and exactly one when it fails |
| GrammarFacts.ParseFromStep | src/com/craftinginterpreters/lox/Parser.java:20-23 | one turn of the loop of `parse`: the entry of one declaration, then the rest, in order |
| GrammarFacts.ParseFromReports | src/com/craftinginterpreters/lox/Parser.java:20-23 | the loop only appends reports, and sends one raising report per None entry |
| GrammarFacts.ParseFromShapes | src/com/craftinginterpreters/lox/Parser.java:20-23 | every statement the loop collects has the statement shape |
| GrammarFacts.ParseFacts | src/com/craftinginterpreters/lox/Parser.java:18-29 | `parse` sends one raising report per None entry, has no None entry iff no report raised, and every statement has the precedence shape |
| GrammarFacts.NoFailures | src/com/craftinginterpreters/lox/Parser.java:40-42 | no failed declaration iff every entry is Some |
| RoundTrip.AssignmentBack | src/com/craftinginterpreters/lox/Parser.java:76-92 | `assignment` reads a written expression of the precedence shape back to itself, when the next token continues no operator chain and is not `=` |
| RoundTrip.EqualityBack | src/com/craftinginterpreters/lox/Parser.java:76-91 | an expression that is no assignment is read back by the equality level alone |
| RoundTrip.AssignBack | src/com/craftinginterpreters/lox/Parser.java:76-86 | `name = value` is read back as an `Assign`, with the value read by the recursive call: right associativity |
| RoundTrip.BinaryExprBack | src/com/craftinginterpreters/lox/Parser.java:142-152 | a level reads back an expression binding at least as tightly and hands the rest to its loop |
| RoundTrip.FoldBack | src/com/craftinginterpreters/lox/Parser.java:143-149 | the left fold: `a op b` is read with `a` by the level itself and `b` by the next level |
| RoundTrip.OperandBack | src/com/craftinginterpreters/lox/Parser.java:94-108 | the next-level parser reads back an expression binding more tightly than the level |
| RoundTrip.UnaryBack | src/com/craftinginterpreters/lox/Parser.java:110-118 | `unary` reads back any atomic expression, nested unary operators included |
| RoundTrip.PrefixBack | src/com/craftinginterpreters/lox/Parser.java:111-115 | a `!` or `-` followed by an atomic operand is read by the recursive call of `unary` and wrapped in a `Unary` node |
| RoundTrip.AtomBack | src/com/craftinginterpreters/lox/Parser.java:110-118 | a literal, variable or grouping is handed by `unary` to `primary` and read back to itself |
| RoundTrip.PrimaryBack | src/com/craftinginterpreters/lox/Parser.java:120-137 | `primary` reads back a literal, a variable or a grouping, and the token it starts at is one that `primary` accepts |
| ParseBack.ExpressionRoundTrip | src/com/craftinginterpreters/lox/Parser.java:31-33 | the tokens of any expression of the precedence shape, followed by a token that continues no operator chain and is not `=`, parse back to that expression with no report |
| ParseBack.MinusFoldsLeft | src/com/craftinginterpreters/lox/Parser.java:102-103 | `1 - 2 - 3` parses as `(1 - 2) - 3` |
| ParseBack.StarBindsTighter | src/com/craftinginterpreters/lox/Parser.java:102-108 | `1 + 2 * 3` parses as `1 + (2 * 3)` |
| ParseBack.BangBang | src/com/craftinginterpreters/lox/Parser.java:110-115 | `!!true` parses as `Unary(!, Unary(!, true))` |
| ParseBack.AssignmentNestsRight | src/com/craftinginterpreters/lox/Parser.java:76-86 | `a = b = c` parses as `Assign(a, Assign(b, c))` |
| StatementBack.FirstToken | src/com/craftinginterpreters/lox/Parser.java:110-139 | every expression of the precedence shape starts with a `!`, `-`, literal, identifier or `(`, so never with `print` |
| StatementBack.PrintBack | src/com/craftinginterpreters/lox/Parser.java:52-56 | `e ;` after `print` yields `Print(e)`, ends just past the `;`, sends no report |
| StatementBack.ExpressionStatementBack | src/com/craftinginterpreters/lox/Parser.java:70-74 | `e ;` yields `Expression(e)`, ends just past the `;`, sends no report |
| StatementBack.StatementPrintBack | src/com/craftinginterpreters/lox/Parser.java:46-48 | `statement` on `print e ;` yields `Print(e)` |
| StatementBack.StatementExpressionBack | src/com/craftinginterpreters/lox/Parser.java:46-50 | `statement` on `e ;` yields `Expression(e)` |
| StatementBack.VarBack | src/com/craftinginterpreters/lox/Parser.java:58-68 | `name ;` after `var` yields `Var(name, None)`, ends just past the `;`, sends no report |
| StatementBack.VarInitBack | src/com/craftinginterpreters/lox/Parser.java:58-68 | `name = e ;` after `var` yields `Var(name, Some(e))`, ends just past the `;`, sends no report |
| StatementBack.DeclarationPrintBack | src/com/craftinginterpreters/lox/Parser.java:35-39 | `declaration` on `print e ;` yields `Some(Print(e))`, ends just past the `;`, sends no report |
| StatementBack.DeclarationExpressionBack | src/com/craftinginterpreters/lox/Parser.java:35-39 | `declaration` on `e ;` yields `Some(Expression(e))`: an expression never starts at EOF or with `var` |
| StatementBack.DeclarationBareVarBack | src/com/craftinginterpreters/lox/Parser.java:35-38 | `declaration` on `var name ;` yields `Some(Var(name, None))` |
| StatementBack.DeclarationVarBack | src/com/craftinginterpreters/lox/Parser.java:35-38 | `declaration` on `var name = e ;` yields `Some(Var(name, Some(e)))` |
| StatementBack.PrintMissingSemicolon | src/com/craftinginterpreters/lox/Parser.java:52-55 | `print e` followed by a token that continues no chain and is not `;` fails at that token with "Expect ; after value." reported against it |
| StatementBack.ExpressionStatementMissingSemicolon | src/com/craftinginterpreters/lox/Parser.java:70-73 | the same for an expression statement, with "Expect ; after expression." |
| StatementBack.VarMissingName | src/com/craftinginterpreters/lox/Parser.java:58-59 | `var` followed by no identifier fails there with "Expect variable name." against the token found |
| StatementBack.VarMissingSemicolon | src/com/craftinginterpreters/lox/Parser.java:58-66 | `var name` followed by neither `=` nor `;` fails at that token with "Expect ';' after variable declaration." |
| StatementBack.VarInitMissingSemicolon | src/com/craftinginterpreters/lox/Parser.java:58-66 | `var name = e` followed by a token that continues no chain and is not `;` fails at that token with the same message |
| Recovery.ExpressionRaisedAt | src/com/craftinginterpreters/lox/Parser.java:31-33 | a ParseError from `expression` leaves the cursor on the token its last report is against |
| Recovery.AssignmentRaisedAt | src/com/craftinginterpreters/lox/Parser.java:76-92 | the same for `assignment`, whose invalid-target report raises nothing |
| Recovery.BinaryExprRaisedAt | src/com/craftinginterpreters/lox/Parser.java:142-152 | the same for each binary level |
| Recovery.BinaryTailRaisedAt | src/com/craftinginterpreters/lox/Parser.java:145-149 | the same for the operator loop of a binary level |
| Recovery.OperandRaisedAt | src/com/craftinginterpreters/lox/Parser.java:94-108 | the same for the next-level parser of a binary level |
| Recovery.UnaryRaisedAt | src/com/craftinginterpreters/lox/Parser.java:110-118 | the same for `unary` |
| Recovery.PrimaryRaisedAt | src/com/craftinginterpreters/lox/Parser.java:120-140 | the same for `primary`: "Expect expression." and "Expect ')' after expression." are reported against `peek()` |
| Recovery.PrintStatementRaisedAt | src/com/craftinginterpreters/lox/Parser.java:52-56 | the same for `printStatement` |
| Recovery.ExpressionStatementRaisedAt | src/com/craftinginterpreters/lox/Parser.java:70-74 | the same for `expressionStatement` |
| Recovery.StatementRaisedAt | src/com/craftinginterpreters/lox/Parser.java:46-50 | the same for `statement` |
| Recovery.VarDeclarationRaisedAt | src/com/craftinginterpreters/lox/Parser.java:58-68 | the same for `varDeclaration` |
| Recovery.TryDeclarationRaisedAt | src/com/craftinginterpreters/lox/Parser.java:36-39 | the same for the `try` block of `declaration` |
| Recovery.DeclarationResumes | src/com/craftinginterpreters/lox/Parser.java:35-44 | a statement that parsed is kept as Some with its cursor and reports; one that raised becomes None with no further report, and the cursor moves to `synchronize` from the token the error was reported against, that is, to the first sync point after that token |
| ErrorPaths.ErrorsRise | src/com/craftinginterpreters/lox/Parser.java:142-144 | a ParseError from `unary` passes through every binary level with its cursor and reports |
| ErrorPaths.ExpressionFails | src/com/craftinginterpreters/lox/Parser.java:31-33 | ... and on through `assignment` to `expression` |
| ErrorPaths.NoExpression | src/com/craftinginterpreters/lox/Parser.java:139 | a token that starts no expression, EOF included, fails with "Expect expression." against it and consumes nothing |
| ErrorPaths.MissingCloseParen | src/com/craftinginterpreters/lox/Parser.java:133-136 | `(` and an expression not followed by `)` fail with "Expect ')' after expression." against the token found instead |
| ErrorPaths.InvalidTargetBack | src/com/craftinginterpreters/lox/Parser.java:76-91 | any written left side that is no variable, followed by `=` and a written value: "Invalid assignment target." against the `=`, the value consumed, the left side kept, no ParseError |
| ErrorPaths.InvalidTargetKeepsLeft | src/com/craftinginterpreters/lox/Parser.java:79-91 | `1 = 2` reports "Invalid assignment target." against `=`, consumes the value, and yields `1` without failing |
| ErrorPaths.FirstPrintFails | src/com/craftinginterpreters/lox/Parser.java:52-56 | in `print 1 print 2 ;` the first statement fails with "Expect ; after value." at the second `print` |
| ErrorPaths.RecoverySkipsNextStatement | src/com/craftinginterpreters/lox/Parser.java:198-218 | `parse` of `print 1 print 2 ;` yields a single None entry and a single report: recovery steps over the second `print` |
| ErrorPaths.RecoveryResumesNextStatement | src/com/craftinginterpreters/lox/Parser.java:18-44 | `parse` of `print ) ; print 2 ;` yields None, then `Print(2)`, with the single report "Expect expression." against the `)`: after recovery the next statement is parsed |
| ErrorPaths.FirstDeclarationRecovers | src/com/craftinginterpreters/lox/Parser.java:35-44 | the first declaration of `print ) ; print 2 ;` is None and resumes just past the `;` |
| ErrorPaths.BadPrintFails | src/com/craftinginterpreters/lox/Parser.java:52-54 | `print )` fails at the `)` with "Expect expression." |
| ErrorPaths.BadPrintSynchronizes | src/com/craftinginterpreters/lox/Parser.java:198-218 | from the `)` of `print ) ;`, `synchronize` stops just past the `;` |
| ErrorPaths.SecondDeclarationParses | src/com/craftinginterpreters/lox/Parser.java:35-39 | the second declaration of `print ) ; print 2 ;` yields `Some(Print(2))` |
| ErrorPaths.ParseTwo | src/com/craftinginterpreters/lox/Parser.java:18-25 | two declarations, the second ending at EOF, give `parse` exactly their two entries and the second's reports |

## Left out

- `Lox.error` printing and the global `hadError` flag: the sink is a
  sequence of reports, appended in order; Lox.java is not part of this model.
- The scanner, the interpreter, and the bodies of `Token`, `Expr`, `Stmt` and
  `TokenType`; a token's `literal` is an opaque value the parser only copies.
- The `Void unused` parameters and the `java.util.function.Function` passed to
  `parseBinaryExpr`: the next-level parser is chosen by a precedence `Level`.
- Exceptions as control flow: `ParseError` is an outcome, and the cursor is
  left where the exception was thrown.
- The `catch` of `parse` and its `null` result: no input reaches it, so the
  model has no failure sentinel.
- LoxParser.Parser.Declaration: requires that the cursor is not on EOF, which
  is how `parse` calls it; on an empty input (only EOF) `synchronize` would call
  `previous()` at index -1, which the model does not represent.
- Grammar.Declaration: the same precondition as the method. Its own
  contract gives some sync point after a failure; that it is the first one
  after the token the error was reported against is stated by
  `Recovery.DeclarationResumes`, and what a declaration that parsed yields by
  the `StatementBack.Declaration...Back` lemmas.
- Grammar.TryDeclaration: its own contract gives progress and the closing
  `;`; what it yields is stated by the `StatementBack` lemmas and where it
  raises by `Recovery.TryDeclarationRaisedAt`.
- Grammar.Statement: its own contract gives progress and the closing `;`;
  what it yields is stated by `StatementBack.StatementPrintBack` and
  `StatementBack.StatementExpressionBack`.
- Grammar.PrintStatement: its own contract gives progress and the kind of
  statement; its content and its message are stated by
  `StatementBack.PrintBack` and `StatementBack.PrintMissingSemicolon`.
- Grammar.ExpressionStatement: likewise, by
  `StatementBack.ExpressionStatementBack` and
  `StatementBack.ExpressionStatementMissingSemicolon`.
- Grammar.VarDeclaration: likewise, by `StatementBack.VarBack`,
  `StatementBack.VarInitBack`, `StatementBack.VarMissingName`,
  `StatementBack.VarMissingSemicolon` and
  `StatementBack.VarInitMissingSemicolon`.
- `peek`, `previous`, `isAtEnd` and `check` are functions without contracts of
  their own; `previous` requires `current >= 1`, so every call of it is proved
  in bounds.
- ParseBack.ExpressionRoundTrip: covers expressions followed by a token that
  continues no operator chain and is not `=`; any other follower would be
  consumed by the parser, so the round trip does not hold there.
