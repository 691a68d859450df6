/** The syntax tree: `NumberExprAST`, `BinaryExprAST`, `PrototypeAST` and
    `FunctionAST` as values. */
module Ast {

  /** An expression: a number, kept as its lexeme, or a binary operation. */
  datatype Expr = Number(lexeme: string) | Binary(op: char, lhs: Expr, rhs: Expr)

  /** A function's name and parameter names. */
  datatype Prototype = Prototype(name: string, args: seq<string>)

  /** A function definition: a prototype and a body. */
  datatype FunctionAst = FunctionAst(proto: Prototype, body: Expr)

  /** The fixed name of the wrapper around every top-level expression. */
  const AnonName: string := "__anon_expr"

}
