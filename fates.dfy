/**
 * Lowering as the source performs it (src/fates.py): a Lowerer object holds the state
 * `lower_function` threads through `_lower_stmt` and `_lower_block_content` (the instruction
 * list, the locals list, the type map and the scope stack) and its methods update it in place.
 * Each method is proved to compute the reference functions of module LoweringSpec.
 */
module Fates {
  import opened Wrappers
  import opened Ast
  import opened Ir
  import opened LoweringSpec

  class Lowerer {
    var instrs: seq<Instr>
    var localsList: seq<string>
    var localTypes: map<string, string>
    var scopeStack: seq<set<string>>
    const returnType: string
    const order: DropOrder

    /** The abstract lowering state held by this object. */
    function State(): LState
      reads this
    {
      LState(instrs, localsList, localTypes, scopeStack)
    }

    constructor (returnType: string, order: DropOrder)
      ensures State() == InitialLState()
      ensures this.returnType == returnType && this.order == order
    {
      instrs := [];
      localsList := [];
      localTypes := map[];
      scopeStack := [];
      this.returnType := returnType;
      this.order := order;
    }

    /** `register_local`. */
    method RegisterLocal(name: string, typ: string)
      modifies this
      ensures State() == LoweringSpec.RegisterLocal(old(State()), name, typ)
    {
      if name !in localTypes {
        localTypes := localTypes[name := typ];
        localsList := localsList + [name];
      }
      if |scopeStack| > 0 {
        var top := |scopeStack| - 1;
        scopeStack := scopeStack[top := scopeStack[top] + {name}];
      }
    }

    /** The retraction loop after a move: remove `name` from the first set, from index 0, that holds it. */
    method RetractFromScopes(name: string)
      modifies this
      ensures State() == old(State()).(scopes := Retract(old(scopeStack), name))
    {
      var i := 0;
      while i < |scopeStack|
        invariant 0 <= i <= |scopeStack|
        invariant State() == old(State())
        invariant forall j :: 0 <= j < i ==> name !in scopeStack[j]
      {
        if name in scopeStack[i] {
          RetractOutermost(scopeStack, name, i);
          scopeStack := scopeStack[i := scopeStack[i] - {name}];
          return;
        }
        i := i + 1;
      }
      RetractAbsent(scopeStack, name);
    }

    /** `_lower_stmt`. */
    method LowerStmt(s: Stmt) returns (r: Outcome<LowerError>)
      modifies this
      decreases s, 2
      ensures r.Pass? ==> LoweringSpec.LowerStmt(old(State()), s, returnType, order) == Success(State())
      ensures r.Fail? ==> LoweringSpec.LowerStmt(old(State()), s, returnType, order) == Failure(r.error)
    {
      match s
      case LetStmt(name, typ, value) =>
        RegisterLocal(name, typ);
        var ctx := "let " + name;
        match value {
        case OwExpr(inner) =>
          r := ValidateOwExpr(inner, ctx);
          if r.Pass? {
            instrs := instrs + [OwLiteral(name, Literal(inner.value, typ))];
          }
        case MvExpr(inner) =>
          r := ValidateMvExpr(inner, ctx);
          if r.Pass? {
            instrs := instrs + [MvVar(name, inner.name, typ)];
            RetractFromScopes(inner.name);
          }
        case _ =>
          r := Fail(SemanticError(ctx, MissingOwnershipTag));
        }
      case ReturnStmt(value) =>
        match value {
        case MvExpr(inner) =>
          r := ValidateMvExpr(inner, "return");
          if r.Pass? {
            instrs := instrs + [Return(VarRef(inner.name, returnType))];
            RetractFromScopes(inner.name);
          }
        case OwExpr(inner) =>
          r := ValidateOwExpr(inner, "return");
          if r.Pass? {
            instrs := instrs + [Return(LitOperand(Literal(inner.value, returnType)))];
          }
        case _ =>
          r := Fail(SemanticError("return", MissingOwnershipTag));
        }
      case BlockStmt(stmts) =>
        instrs := instrs + [BlockStart];
        r := LowerBlockContent(stmts);
        if r.Pass? {
          instrs := instrs + [BlockEnd];
        }
      case UnsupportedStmt(kind) =>
        r := Fail(NotImplementedError(kind));
    }

    /** `_lower_block_content`. */
    method LowerBlockContent(stmts: seq<Stmt>) returns (r: Outcome<LowerError>)
      modifies this
      decreases stmts, 1
      ensures r.Pass? ==> LowerBlock(old(State()), stmts, returnType, order) == Success(State())
      ensures r.Fail? ==> LowerBlock(old(State()), stmts, returnType, order) == Failure(r.error)
    {
      // 1. a new set for the names declared directly in this block
      var d := |scopeStack|;
      scopeStack := scopeStack + [{}];
      // 2. the statements, in order
      r := LowerStatements(stmts);
      if r.Fail? {
        return;
      }
      // 3. a Drop for every name still in the set
      var currentBlockLocals := scopeStack[d];
      EmitDrops(order(|instrs|, currentBlockLocals));
      // 4. pop the set
      scopeStack := scopeStack[..d];
    }

    /** The loop of `_lower_block_content` over the block's statements. */
    method LowerStatements(stmts: seq<Stmt>) returns (r: Outcome<LowerError>)
      modifies this
      decreases stmts, 0
      ensures r.Pass? ==> LowerStmts(old(State()), stmts, returnType, order) == Success(State())
      ensures r.Fail? ==> LowerStmts(old(State()), stmts, returnType, order) == Failure(r.error)
    {
      r := Pass;
      for i := 0 to |stmts|
        invariant r.Pass?
        invariant LowerStmts(State(), stmts[i..], returnType, order) == LowerStmts(old(State()), stmts, returnType, order)
      {
        assert stmts[i..][0] == stmts[i] && stmts[i..][1..] == stmts[i + 1..];
        r := LowerStmt(stmts[i]);
        if r.Fail? {
          return;
        }
      }
      assert stmts[|stmts|..] == [];
    }

    /** The loop of `_lower_block_content` that appends one Drop per remaining name. */
    method EmitDrops(names: seq<string>)
      modifies this
      ensures State() == old(State()).(instrs := old(instrs) + DropsOf(names))
    {
      for k := 0 to |names|
        invariant instrs == old(instrs) + DropsOf(names[..k])
        invariant localsList == old(localsList) && localTypes == old(localTypes) && scopeStack == old(scopeStack)
      {
        DropsOfSnoc(names, k);
        instrs := instrs + [Drop(names[k])];
      }
      assert names[..|names|] == names;
    }
  }

  /** `lower_function`. */
  method LowerFunction(f: Function, order: DropOrder) returns (r: Result<IRFunction, LowerError>)
    ensures r == LoweringSpec.LowerFunction(f, order)
  {
    var lowerer := new Lowerer(f.returnType, order);
    var o := lowerer.LowerStmt(BlockStmt(f.body));
    if o.Fail? {
      return Failure(o.error);
    }
    if lowerer.scopeStack != [] {
      return Failure(InternalLoweringError);
    }
    r := Success(IRFunction(f.name, f.returnType, lowerer.localsList, lowerer.instrs));
  }

  /**
   * `lower_program`: lower every function in order; the first failure stops it. Each function
   * is lowered with its own iteration order, `orders(i)` for the function at index `i`, since
   * two functions may close blocks after the same number of instructions.
   */
  method LowerProgram(p: Program, orders: nat -> DropOrder) returns (r: Result<IRProgram, LowerError>)
    ensures r.Success? <==> forall i :: 0 <= i < |p.functions| ==> LoweringSpec.LowerFunction(p.functions[i], orders(i)).Success?
    ensures r.Success? ==>
              && |r.value.functions| == |p.functions|
              && forall i :: 0 <= i < |p.functions| ==> LoweringSpec.LowerFunction(p.functions[i], orders(i)) == Success(r.value.functions[i])
    ensures forall k ::
              (&& 0 <= k < |p.functions|
               && LoweringSpec.LowerFunction(p.functions[k], orders(k)).Failure?
               && forall j :: 0 <= j < k ==> LoweringSpec.LowerFunction(p.functions[j], orders(j)).Success?)
              ==> r == Failure(LoweringSpec.LowerFunction(p.functions[k], orders(k)).error)
  {
    var functions: seq<IRFunction> := [];
    for i := 0 to |p.functions|
      invariant |functions| == i
      invariant forall j :: 0 <= j < i ==> LoweringSpec.LowerFunction(p.functions[j], orders(j)) == Success(functions[j])
    {
      var fr := LowerFunction(p.functions[i], orders(i));
      if fr.Failure? {
        return Failure(fr.error);
      }
      functions := functions + [fr.value];
    }
    r := Success(IRProgram(functions));
  }
}
