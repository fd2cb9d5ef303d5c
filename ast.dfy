/**
 * The abstract syntax handed to lowering (src/ast_cerberus.py).
 * A type annotation (TypeNode) is represented by its name.
 */
module Ast {

  /** Expressions: an integer literal, a variable reference, or an ownership wrapper. */
  datatype Expr =
    | LiteralExpr(value: int)
    | VarExpr(name: string)
    | OwExpr(inner: Expr)
    | MvExpr(inner: Expr)

  /**
   * Statements. `UnsupportedStmt` stands for any other object found where a statement
   * is expected; `kind` is its class name.
   */
  datatype Stmt =
    | LetStmt(name: string, typ: string, value: Expr)
    | ReturnStmt(value: Expr)
    | BlockStmt(stmts: seq<Stmt>)
    | UnsupportedStmt(kind: string)

  /** A function; `body` holds the statements of its body block. */
  datatype Function = Function(name: string, returnType: string, body: seq<Stmt>)

  datatype Program = Program(functions: seq<Function>)

  /** The class name Python reports for an expression (`type(expr).__name__`). */
  function ExprKind(e: Expr): string
  {
    match e
    case LiteralExpr(_) => "LiteralExpr"
    case VarExpr(_) => "VarExpr"
    case OwExpr(_) => "OwExpr"
    case MvExpr(_) => "MvExpr"
  }
}
