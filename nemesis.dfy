/**
 * The ownership verifier as the source performs it (src/nemesis.py): a Checker object holds
 * the per-function state map, and one method per rule updates it in place. `CheckFunction`
 * and `CheckProgram` are the loops over instructions and functions; each is proved to compute
 * the reference functions of module OwnershipSpec.
 */
module Nemesis {
  import opened Wrappers
  import opened Ir
  import opened OwnershipSpec

  class Checker {
    const fnName: string
    var state: VarStates

    /** `state = {name: "uninit" for name in fn.locals}`. */
    constructor (fn: IRFunction)
      ensures fnName == fn.name && state == InitialStates(fn.locals)
    {
      fnName := fn.name;
      state := map x | x in fn.locals :: Uninit;
    }

    /** `_check_ow_literal`. */
    method CheckOwLiteral(target: string)
      modifies this
      ensures state == OwLiteralRule(target, old(state))
    {
      state := state[target := Alive];
    }

    /** `_check_mv_var`: the three checks, then the two updates. */
    method CheckMvVar(instr: Instr) returns (r: Outcome<NemesisError>)
      requires instr.MvVar?
      modifies this
      ensures r.Pass? ==> MvVarRule(instr.target, instr.source, old(state)) == Success(state)
      ensures r.Fail? ==> state == old(state)
      ensures r.Fail? ==> MvVarRule(instr.target, instr.source, old(state)) == Failure(r.error.reason)
      ensures r.Fail? ==> r.error.fnName == fnName && r.error.instr == instr
    {
      var src := instr.source;
      if src !in state {
        return Fail(NemesisError(MoveFromUnknown(src), fnName, instr));
      }
      if state[src] == Uninit {
        return Fail(NemesisError(MoveOfUninit(src), fnName, instr));
      }
      if state[src] == Moved {
        return Fail(NemesisError(DoubleMove(src), fnName, instr));
      }
      state := state[src := Moved];
      state := state[instr.target := Alive];
      return Pass;
    }

    /** `_check_assign`: `state.get(name)` is absent for a name with no entry, which passes. */
    method CheckAssign(instr: Instr) returns (r: Outcome<NemesisError>)
      requires instr.Assign?
      modifies this
      ensures r.Pass? ==> AssignRule(instr.target, instr.operand, old(state)) == Success(state)
      ensures r.Fail? ==> state == old(state)
      ensures r.Fail? ==> AssignRule(instr.target, instr.operand, old(state)) == Failure(r.error.reason)
      ensures r.Fail? ==> r.error.fnName == fnName && r.error.instr == instr
    {
      var op := instr.operand;
      if op.VarRef? {
        var name := op.name;
        if name in state && state[name] == Moved {
          return Fail(NemesisError(UseAfterMove(name), fnName, instr));
        }
        if name in state && state[name] == Uninit {
          return Fail(NemesisError(UseOfUninit(name), fnName, instr));
        }
      }
      state := state[instr.target := Alive];
      return Pass;
    }

    /** `_check_return`. */
    method CheckReturn(instr: Instr) returns (r: Outcome<NemesisError>)
      requires instr.Return?
      modifies this
      ensures r.Pass? ==> ReturnRule(instr.operand, old(state)) == Success(state)
      ensures r.Fail? ==> state == old(state)
      ensures r.Fail? ==> ReturnRule(instr.operand, old(state)) == Failure(r.error.reason)
      ensures r.Fail? ==> r.error.fnName == fnName && r.error.instr == instr
    {
      var op := instr.operand;
      if op.VarRef? {
        var name := op.name;
        if name in state && state[name] == Moved {
          return Fail(NemesisError(ReturnOfMoved(name), fnName, instr));
        }
        if name in state && state[name] == Uninit {
          return Fail(NemesisError(ReturnOfUninit(name), fnName, instr));
        }
        state := state[name := Moved];
      }
      return Pass;
    }

    /** The body of the loop in `check_function`: dispatch on the instruction's kind. */
    method CheckInstr(instr: Instr) returns (r: Outcome<NemesisError>)
      modifies this
      ensures r.Pass? ==> Step(fnName, instr, old(state)) == Success(state)
      ensures r.Fail? ==> Step(fnName, instr, old(state)) == Failure(r.error)
    {
      match instr {
        case OwLiteral(t, _) =>
          CheckOwLiteral(t);
          r := Pass;
        case MvVar(_, _, _) =>
          r := CheckMvVar(instr);
        case Assign(_, _) =>
          r := CheckAssign(instr);
        case Return(_) =>
          r := CheckReturn(instr);
        case _ =>
          r := Fail(NemesisError(UnknownInstruction, fnName, instr));
      }
    }
  }

  /** `check_function`: a fresh state per call, so the verdict depends on `fn` alone. */
  method CheckFunction(fn: IRFunction) returns (r: Outcome<NemesisError>)
    ensures r == Check(fn)
  {
    var c := new Checker(fn);
    var i := 0;
    while i < |fn.instrs|
      invariant 0 <= i <= |fn.instrs|
      invariant c.fnName == fn.name
      invariant Run(fn.name, fn.instrs[i..], c.state) == Run(fn.name, fn.instrs, InitialStates(fn.locals))
    {
      assert fn.instrs[i..][1..] == fn.instrs[i + 1..];
      var step := c.CheckInstr(fn.instrs[i]);
      if step.Fail? {
        return step;
      }
      i := i + 1;
    }
    return Pass;
  }

  /** `check_program`: the functions in list order, stopping at the first rejection. */
  method CheckProgram(p: IRProgram) returns (r: Outcome<NemesisError>)
    ensures r == CheckAll(p.functions)
    ensures r.Pass? <==> forall k :: 0 <= k < |p.functions| ==> Check(p.functions[k]).Pass?
  {
    var i := 0;
    while i < |p.functions|
      invariant 0 <= i <= |p.functions|
      invariant forall j :: 0 <= j < i ==> Check(p.functions[j]).Pass?
      invariant CheckAll(p.functions[i..]) == CheckAll(p.functions)
    {
      assert p.functions[i..][1..] == p.functions[i + 1..];
      r := CheckFunction(p.functions[i]);
      if r.Fail? {
        return r;
      }
      i := i + 1;
    }
    r := Pass;
    assert p.functions[i..] == [];
  }
}
