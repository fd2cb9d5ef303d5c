/**
 * Lowering (src/fates.py) as a pure reference definition: every step of `lower_function`,
 * `_lower_block_content` and `_lower_stmt` is a function from the lowering state before it
 * to the state after it, or to the error it raises. The imperative code in module Fates is
 * proved to compute exactly these functions.
 */
module LoweringSpec {
  import opened Wrappers
  import opened Ast
  import opened Ir

  /** Why a statement breaks the ow/mv discipline. */
  datatype SemanticReason =
    | OwOfVariable(name: string)                     // `ow x`; the message suggests `mv x`
    | OwOfNonLiteral(exprKind: string)               // `ow` of anything else but a literal
    | MvOfLiteral(value: int)                        // `mv 10`; the message suggests `ow 10`
    | MvOfNonVariable(exprKind: string)              // `mv` of anything else but a variable
    | MissingOwnershipTag                            // neither `ow` nor `mv`
    | InternalShape(wrapper: string, exprKind: string)  // the "Internal error: OwExpr with ..." branches

  /** The three ways lowering stops. */
  datatype LowerError =
    | SemanticError(context: string, reason: SemanticReason)   // SemanticError: user discipline violation
    | NotImplementedError(stmtKind: string)                    // NotImplementedError: unsupported statement
    | InternalLoweringError                                    // Exception: scope stack not empty at the end

  /** `validate_ow_expr`: `ow` takes only a literal. */
  function ValidateOwExpr(e: Expr, context: string): (r: Outcome<LowerError>)
    ensures r.Pass? <==> e.LiteralExpr?
    ensures e.VarExpr? ==> r == Fail(SemanticError(context, OwOfVariable(e.name)))
    ensures !e.LiteralExpr? && !e.VarExpr? ==> r == Fail(SemanticError(context, OwOfNonLiteral(ExprKind(e))))
  {
    if e.VarExpr? then Fail(SemanticError(context, OwOfVariable(e.name)))
    else if !e.LiteralExpr? then Fail(SemanticError(context, OwOfNonLiteral(ExprKind(e))))
    else Pass
  }

  /** `validate_mv_expr`: `mv` takes only a variable. */
  function ValidateMvExpr(e: Expr, context: string): (r: Outcome<LowerError>)
    ensures r.Pass? <==> e.VarExpr?
    ensures e.LiteralExpr? ==> r == Fail(SemanticError(context, MvOfLiteral(e.value)))
    ensures !e.LiteralExpr? && !e.VarExpr? ==> r == Fail(SemanticError(context, MvOfNonVariable(ExprKind(e))))
  {
    if e.LiteralExpr? then Fail(SemanticError(context, MvOfLiteral(e.value)))
    else if !e.VarExpr? then Fail(SemanticError(context, MvOfNonVariable(ExprKind(e))))
    else Pass
  }

  /**
   * The four pieces of state `lower_function` threads through the recursion: the output
   * instructions, the function-wide locals in first-seen order, the name-to-type map and the
   * stack of per-block sets of names declared there (index 0 is the outermost block).
   */
  datatype LState = LState(
    instrs: seq<Instr>,
    locals: seq<string>,
    localTypes: map<string, string>,
    scopes: seq<set<string>>)

  /**
   * The order in which Python iterates over a block's remaining set when emitting drops.
   * It is unspecified (string hashing is randomised per process), so it is a parameter,
   * consulted with the number of instructions emitted so far, which differs at every block exit
   * of one function; each function of a program is lowered with an order of its own.
   */
  type DropOrder = (nat, set<string>) -> seq<string>

  /** `register_local`: first declaration goes into the locals; every declaration into the innermost set. */
  function RegisterLocal(st: LState, name: string, typ: string): LState
  {
    var st1 :=
      if name !in st.localTypes
      then st.(localTypes := st.localTypes[name := typ], locals := st.locals + [name])
      else st;
    if |st1.scopes| > 0
    then st1.(scopes := st1.scopes[|st1.scopes| - 1 := st1.scopes[|st1.scopes| - 1] + {name}])
    else st1
  }

  /**
   * Retraction after `mv x` or `return mv x`: scanning from index 0, the first (outermost)
   * set that holds `x` loses it.
   */
  function Retract(scopes: seq<set<string>>, x: string): (r: seq<set<string>>)
    ensures |r| == |scopes|
  {
    if scopes == [] then []
    else if x in scopes[0] then [scopes[0] - {x}] + scopes[1..]
    else [scopes[0]] + Retract(scopes[1..], x)
  }

  /** When some set holds `x`, only the outermost such set changes, and it loses just `x`. */
  lemma {:induction false} RetractOutermost(scopes: seq<set<string>>, x: string, k: nat)
    requires k < |scopes| && x in scopes[k]
    requires forall j :: 0 <= j < k ==> x !in scopes[j]
    ensures Retract(scopes, x) == scopes[k := scopes[k] - {x}]
    decreases k
  {
    if k > 0 {
      assert x !in scopes[0];
      RetractOutermost(scopes[1..], x, k - 1);
      assert [scopes[0]] + scopes[1..][k - 1 := scopes[k] - {x}] == scopes[k := scopes[k] - {x}];
    }
  }

  /** When no set holds `x`, nothing changes. */
  lemma {:induction false} RetractAbsent(scopes: seq<set<string>>, x: string)
    requires forall j :: 0 <= j < |scopes| ==> x !in scopes[j]
    ensures Retract(scopes, x) == scopes
    decreases |scopes|
  {
    if scopes != [] {
      assert x !in scopes[0];
      RetractAbsent(scopes[1..], x);
      assert [scopes[0]] + scopes[1..] == scopes;
    }
  }

  /** `_lower_stmt`. */
  function LowerStmt(st: LState, s: Stmt, ret: string, order: DropOrder): (r: Result<LState, LowerError>)
    ensures r.Success? ==> |r.value.scopes| == |st.scopes|
    decreases s, 2
  {
    match s
    case LetStmt(name, typ, value) =>
      var st1 := RegisterLocal(st, name, typ);
      var ctx := "let " + name;
      (match value
       case OwExpr(inner) =>
         (match ValidateOwExpr(inner, ctx)
          case Fail(e) => Failure(e)
          case Pass =>
            if inner.LiteralExpr?
            then Success(st1.(instrs := st1.instrs + [OwLiteral(name, Literal(inner.value, typ))]))
            else Failure(SemanticError(ctx, InternalShape("OwExpr", ExprKind(inner)))))
       case MvExpr(inner) =>
         (match ValidateMvExpr(inner, ctx)
          case Fail(e) => Failure(e)
          case Pass =>
            if inner.VarExpr?
            then Success(st1.(instrs := st1.instrs + [MvVar(name, inner.name, typ)],
                              scopes := Retract(st1.scopes, inner.name)))
            else Failure(SemanticError(ctx, InternalShape("MvExpr", ExprKind(inner)))))
       case _ => Failure(SemanticError(ctx, MissingOwnershipTag)))
    case ReturnStmt(value) =>
      (match value
       case MvExpr(inner) =>
         (match ValidateMvExpr(inner, "return")
          case Fail(e) => Failure(e)
          case Pass =>
            if inner.VarExpr?
            then Success(st.(instrs := st.instrs + [Return(VarRef(inner.name, ret))],
                             scopes := Retract(st.scopes, inner.name)))
            else Failure(SemanticError("return", InternalShape("MvExpr", ExprKind(inner)))))
       case OwExpr(inner) =>
         (match ValidateOwExpr(inner, "return")
          case Fail(e) => Failure(e)
          case Pass =>
            if inner.LiteralExpr?
            then Success(st.(instrs := st.instrs + [Return(LitOperand(Literal(inner.value, ret)))]))
            else Failure(SemanticError("return", InternalShape("OwExpr", ExprKind(inner)))))
       case _ => Failure(SemanticError("return", MissingOwnershipTag)))
    case BlockStmt(stmts) =>
      (match LowerBlock(st.(instrs := st.instrs + [BlockStart]), stmts, ret, order)
       case Failure(e) => Failure(e)
       case Success(st1) => Success(st1.(instrs := st1.instrs + [BlockEnd])))
    case UnsupportedStmt(kind) => Failure(NotImplementedError(kind))
  }

  /**
   * `_lower_block_content`: push an empty set, lower the statements, emit a Drop for every
   * name left in the pushed set, pop it.
   */
  function LowerBlock(st: LState, stmts: seq<Stmt>, ret: string, order: DropOrder): (r: Result<LState, LowerError>)
    ensures r.Success? ==> |r.value.scopes| == |st.scopes|
    decreases stmts, 1
  {
    var d := |st.scopes|;
    match LowerStmts(st.(scopes := st.scopes + [{}]), stmts, ret, order)
    case Failure(e) => Failure(e)
    case Success(st1) =>
      var names := order(|st1.instrs|, st1.scopes[d]);
      Success(st1.(instrs := st1.instrs + DropsOf(names), scopes := st1.scopes[..d]))
  }

  /** The `for` loop of `_lower_block_content` over the block's statements. */
  function LowerStmts(st: LState, stmts: seq<Stmt>, ret: string, order: DropOrder): (r: Result<LState, LowerError>)
    ensures r.Success? ==> |r.value.scopes| == |st.scopes|
    decreases stmts, 0
  {
    if stmts == [] then Success(st)
    else
      match LowerStmt(st, stmts[0], ret, order)
      case Failure(e) => Failure(e)
      case Success(st1) => LowerStmts(st1, stmts[1..], ret, order)
  }

  /** The empty lowering state `lower_function` starts from. */
  function InitialLState(): LState
  {
    LState([], [], map[], [])
  }

  /** `lower_function`: lower the body block, then insist that the scope stack is empty. */
  function LowerFunction(f: Function, order: DropOrder): Result<IRFunction, LowerError>
  {
    match LowerStmt(InitialLState(), BlockStmt(f.body), f.returnType, order)
    case Failure(e) => Failure(e)
    case Success(st) =>
      if st.scopes != [] then Failure(InternalLoweringError)
      else Success(IRFunction(f.name, f.returnType, st.locals, st.instrs))
  }
}
