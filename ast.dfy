/** The typed tree of a PL/0 program (the classes of `ast/constructs`).

    Expressions are built left-associatively from the parse tree: `a - b - c`
    is `Binary(Sub, Binary(Sub, a, b), c)`, and a leading sign applies to the
    first term only, so `-a + b` is `Binary(Add, Unary(Minus, a), b)`.
    The parser delivers operators as strings; here they are closed
    enumerations, one constructor per operator the grammar admits. */
module Ast {
  import opened Wrappers

  datatype BinaryOp = Add | Sub | Mul | Div
  datatype UnaryOp = Plus | Minus
  datatype RelOp = Eq | Ne | Lt | Le | Gt | Ge

  datatype Expr =
    | Binary(op: BinaryOp, left: Expr, right: Expr)
    | Unary(uop: UnaryOp, operand: Expr)
    | Number(value: int)
    | Variable(name: string)

  datatype Condition =
    | Odd(expr: Expr)
    | Relational(lhs: Expr, rel: RelOp, rhs: Expr)

  datatype Statement =
    | Assignment(target: string, expr: Expr)
    | Call(callee: string)
    | Begin(body: seq<Statement>)
    | If(cond: Condition, thenStmt: Statement, elseStmt: Option<Statement>)
    | While(guard: Condition, doStmt: Statement)
    | Read(names: seq<string>)
    | Write(exprs: seq<Expr>)
    | Skip

  datatype ConstDecl = ConstDecl(name: string, value: int)
  datatype VarDecl = VarDecl(name: string)

  /** A block: its declarations in source order and its statement.  The
      lists are never absent (the source defaults a missing list to empty). */
  datatype Block = Block(consts: seq<ConstDecl>, vars: seq<VarDecl>,
                         procs: seq<ProcDecl>, stmt: Statement)
  datatype ProcDecl = ProcDecl(name: string, body: Block)

  datatype Program = Program(block: Block)
}
