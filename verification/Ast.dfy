/** Syntax trees of the C-like language (source lines are not kept). */
module Ast {
  import opened Wrappers

  datatype BinaryOp =
    | Plus | Minus | Times | Divide | Modulo | ShiftLeft | ShiftRight | BitAnd | BitOr | BitXor
    | Equal | NotEqual | Less | Greater | LessEqual | GreaterEqual
    | LogicalAnd | LogicalOr

  datatype UnaryOp = Negate | Complement | LogicalNot

  datatype Expr =
    | IntLiteral(value: int)
    | VarRef(name: string)
    | Binary(op: BinaryOp, left: Expr, right: Expr)
    | Unary(uop: UnaryOp, operand: Expr)
    | ArrayRef(array: string, index: Expr)
    | AddrOf(target: string)
    | AddrOfElement(target: string, index: Expr)
    | Deref(ptr: Expr)
    | FuncCall(callee: string, args: seq<Expr>)
    | StringLit(text: string)

  /** `=` or `op=`. */
  datatype AssignOp = Set | Compound(op: BinaryOp)

  datatype Stmt =
    | VarDecl(name: string, init: Option<Expr>)
    | ArrayDecl(name: string, size: nat, inits: seq<Expr>)
    | Assign(name: string, aop: AssignOp, value: Expr)
    | ArrayAssign(name: string, index: Expr, aop: AssignOp, value: Expr)
    | DerefAssign(ptr: Expr, aop: AssignOp, value: Expr)
    | If(cond: Expr, thenBody: seq<Stmt>, elseBody: seq<Stmt>)
    | While(cond: Expr, body: seq<Stmt>)
    | For(forInit: Option<Stmt>, forCond: Option<Expr>, update: Option<Stmt>, body: seq<Stmt>)
    | Return(result: Option<Expr>)
    | Break
    | Continue
    | ExprStmt(expr: Expr)
    | Block(stmts: seq<Stmt>)

  /** The operators that compile to one register instruction, and that `op=` accepts. */
  predicate IsArithmetic(op: BinaryOp) {
    op.Plus? || op.Minus? || op.Times? || op.Divide? || op.Modulo? || op.ShiftLeft? || op.ShiftRight?
    || op.BitAnd? || op.BitOr? || op.BitXor?
  }

  predicate IsComparison(op: BinaryOp) {
    op.Equal? || op.NotEqual? || op.Less? || op.Greater? || op.LessEqual? || op.GreaterEqual?
  }

  predicate IsLogical(op: BinaryOp) { op.LogicalAnd? || op.LogicalOr? }
}
