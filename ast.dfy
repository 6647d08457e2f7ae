/** Tokens, syntax trees and diagnostics of the Lox parser.
    The scanner that produces tokens and the interpreter that consumes trees
    are not part of this model; only the shapes the parser reads and builds are. */
module LoxAst {

  datatype Option<+T> = None | Some(value: T)

  /** The token kinds of Lox (single-character, one- or two-character,
      literal, keyword, and the end-of-input marker). */
  datatype TokenType =
    | LeftParen | RightParen | LeftBrace | RightBrace
    | Comma | Dot | Minus | Plus | Semicolon | Slash | Star
    | Bang | BangEqual | Equal | EqualEqual
    | Greater | GreaterEqual | Less | LessEqual
    | Identifier | String | Number
    | And | Class | Else | False | Fun | For | If | Nil | Or
    | Print | Return | Super | This | True | Var | While
    | EOF

  /** The runtime value a literal token carries (Java's `Object literal`,
      with `null` as NilValue). The parser never looks inside it. */
  datatype Value = NilValue | BoolValue(b: bool) | NumberValue(n: real) | StringValue(s: string)

  datatype Token = Token(kind: TokenType, lexeme: string, literal: Value, line: int)

  datatype Expr =
    | Literal(constant: Value)
    | Grouping(inner: Expr)
    | Unary(op: Token, right: Expr)
    | Binary(left: Expr, op: Token, right: Expr)
    | Variable(name: Token)
    | Assign(name: Token, value: Expr)

  datatype Stmt =
    | Expression(expr: Expr)
    | Print(expr: Expr)
    | Var(name: Token, initializer: Option<Expr>)

  /** One call of the external diagnostics sink: the token blamed and the message. */
  datatype Report = Report(token: Token, message: string)
}
