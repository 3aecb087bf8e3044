/** The syntax tree the parser builds (the classes Function, VarDecl, Return, Variable and Number). */
module Ast {
  import opened Wrappers
  import opened Tokens

  /**
    An expression. `typ` is the string the node stores: always "i32" for a
    variable, and the token kind "NUM" for a number.
  */
  datatype Expr =
    | Variable(val: Value, typ: string)
    | Number(val: Value, typ: string)

  /** A statement: a declaration `name : type = expr ;` or `return expr ;`. */
  datatype Stmt =
    | VarDecl(val: Value, typ: Value, expr: Expr)
    | Return(expr: Expr)

  /** The function: its name token (absent when the first token is not KEY main) and its body. */
  datatype Function = Function(name: Option<Token>, body: seq<Stmt>)

  /**
    Why parsing stops. The source raises these as Python exceptions: reading an
    attribute of the `None` that `peek` or `get_current_token` returns past the
    last token, the two `assert False`, and reading `.val` of a failed
    `consume` in `parse_decl`.
  */
  datatype ParseError =
    | EndOfInput
    | NotImplemented(found: Token)
    | Unreachable(found: Token)
    | MissingName
    | MissingType
}
