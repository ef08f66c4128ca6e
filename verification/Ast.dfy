/** Marigold syntax trees (marigold/ast.go). `Nil` stands for a nil *Expression, which the parser
    leaves behind when an operand is missing. */
module Ast {

  datatype LiteralKind = FloatLit | StringLit | BoolLit

  datatype BinaryOp =
    | Plus | Minus | Multiply | Divide | Modulo
    | Equal | NotEqual | LessThan | GreaterThan | LessEqual | GreaterEqual
    | LogicalAnd | LogicalOr | Exponent

  datatype UnaryOp = Negate | Not

  /** `emit`, `len`, `stop` and `assert` are keywords, not identifiers. */
  datatype Callee = EmitFn | LenFn | StopFn | AssertFn | Named(name: string)

  /** An integer literal is represented by its value, the other literals by their text. */
  datatype Expr =
    | Nil
    | Number(value: nat)
    | Literal(kind: LiteralKind, text: string)
    | Identifier(name: string)
    | Binary(op: BinaryOp, lhs: Expr, rhs: Expr)
    | Unary(uop: UnaryOp, operand: Expr)
    | Call(callee: Callee, args: seq<Expr>)
    | Array(elements: seq<Expr>)
    | MapLiteral
    | Index(base: Expr, index: Expr)
    | Slice(base: Expr, start: Expr, end: Expr)

  datatype ElseBlock = NoElse | Else(block: seq<Stmt>)

  datatype Stmt =
    | Assign(target: string, value: Expr)
    | Return(result: Expr)
    | If(cond: Expr, thenBlock: seq<Stmt>, elseBlock: ElseBlock)
    | While(cond: Expr, body: seq<Stmt>)
    | Break
    | Continue
    | Evaluate(expr: Expr)

  datatype Function = Function(name: string, params: seq<string>, body: seq<Stmt>)
}
