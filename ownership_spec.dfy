/**
 * The ownership verifier (src/nemesis.py) as a pure reference definition: one left-to-right
 * pass over a function's instructions, with a map from each name to its state, stopping at
 * the first violation. The imperative checker in module Nemesis is proved to compute it.
 */
module OwnershipSpec {
  import opened Wrappers
  import opened Ir

  /** The three states a name can be in ("uninit", "alive", "moved"). */
  datatype VarState = Uninit | Alive | Moved

  type VarStates = map<string, VarState>

  /** What a violation is about; each carries the offending name where there is one. */
  datatype NemesisReason =
    | MoveFromUnknown(name: string)     // `mv` of a name that has no entry
    | MoveOfUninit(name: string)        // `mv` of an uninitialized name
    | DoubleMove(name: string)          // `mv` of a name already moved
    | UseAfterMove(name: string)        // assignment from a moved name
    | UseOfUninit(name: string)         // assignment from an uninitialized name
    | ReturnOfMoved(name: string)       // return of a moved name
    | ReturnOfUninit(name: string)      // return of an uninitialized name
    | UnknownInstruction                // an instruction kind the checker does not dispatch on

  /** `NemesisError`: the reason, the function's name and the offending instruction. */
  datatype NemesisError = NemesisError(reason: NemesisReason, fnName: string, instr: Instr)

  /** Every local starts uninitialized; no other name has an entry. */
  function InitialStates(locals: seq<string>): (r: VarStates)
    ensures forall x :: x in r <==> x in locals
    ensures forall x :: x in r ==> r[x] == Uninit
  {
    map x | x in locals :: Uninit
  }

  /** The map is `s` except that `x` now maps to `v`: no other entry is added, removed or changed. */
  ghost predicate UpdatedOnly(s: VarStates, r: VarStates, x: string, v: VarState)
  {
    && x in r && r[x] == v
    && (forall y :: y != x ==> (y in r <==> y in s))
    && (forall y :: y != x && y in s ==> r[y] == s[y])
  }

  /** `_check_ow_literal`: the target becomes alive whatever it was before. */
  function OwLiteralRule(target: string, s: VarStates): (r: VarStates)
    ensures UpdatedOnly(s, r, target, Alive)
  {
    s[target := Alive]
  }

  /**
   * `_check_mv_var`: the source must have an entry, must not be uninitialized and must not
   * be moved, checked in that order; then the source becomes moved and after it the target
   * alive, so the target wins when both are the same name.
   */
  function MvVarRule(target: string, source: string, s: VarStates): (r: Result<VarStates, NemesisReason>)
    ensures r.Success? <==> source in s && s[source] == Alive
    ensures source !in s ==> r == Failure(MoveFromUnknown(source))
    ensures source in s && s[source] == Uninit ==> r == Failure(MoveOfUninit(source))
    ensures source in s && s[source] == Moved ==> r == Failure(DoubleMove(source))
    ensures r.Success? && source == target ==> UpdatedOnly(s, r.value, target, Alive)
    ensures r.Success? && source != target ==>
      UpdatedOnly(s[source := Moved], r.value, target, Alive) && r.value[source] == Moved
  {
    if source !in s then Failure(MoveFromUnknown(source))
    else if s[source].Uninit? then Failure(MoveOfUninit(source))
    else if s[source].Moved? then Failure(DoubleMove(source))
    else Success(s[source := Moved][target := Alive])
  }

  /**
   * `_check_assign`: a variable operand must not be moved and must not be uninitialized;
   * a name with no entry passes. The target becomes alive for any operand.
   */
  function AssignRule(target: string, op: Operand, s: VarStates): (r: Result<VarStates, NemesisReason>)
    ensures r.Success? <==> !(op.VarRef? && op.name in s && s[op.name] != Alive)
    ensures op.VarRef? && op.name in s && s[op.name] == Moved ==> r == Failure(UseAfterMove(op.name))
    ensures op.VarRef? && op.name in s && s[op.name] == Uninit ==> r == Failure(UseOfUninit(op.name))
    ensures r.Success? ==> UpdatedOnly(s, r.value, target, Alive)
  {
    if op.VarRef? && op.name in s && s[op.name].Moved? then Failure(UseAfterMove(op.name))
    else if op.VarRef? && op.name in s && s[op.name].Uninit? then Failure(UseOfUninit(op.name))
    else Success(s[target := Alive])
  }

  /**
   * `_check_return`: a returned variable must not be moved and must not be uninitialized;
   * it then becomes moved, and gets an entry if it had none. A returned literal changes nothing.
   */
  function ReturnRule(op: Operand, s: VarStates): (r: Result<VarStates, NemesisReason>)
    ensures r.Success? <==> !(op.VarRef? && op.name in s && s[op.name] != Alive)
    ensures op.VarRef? && op.name in s && s[op.name] == Moved ==> r == Failure(ReturnOfMoved(op.name))
    ensures op.VarRef? && op.name in s && s[op.name] == Uninit ==> r == Failure(ReturnOfUninit(op.name))
    ensures r.Success? && op.VarRef? ==> UpdatedOnly(s, r.value, op.name, Moved)
    ensures r.Success? && op.LitOperand? ==> r.value == s
  {
    match op
    case VarRef(name, _) =>
      if name in s && s[name].Moved? then Failure(ReturnOfMoved(name))
      else if name in s && s[name].Uninit? then Failure(ReturnOfUninit(name))
      else Success(s[name := Moved])
    case LitOperand(_) => Success(s)
  }

  /** One iteration of the loop in `check_function`: dispatch on the four known kinds. */
  function Step(fnName: string, i: Instr, s: VarStates): Result<VarStates, NemesisError>
  {
    match i
    case OwLiteral(t, _) => Success(OwLiteralRule(t, s))
    case MvVar(t, src, _) =>
      (match MvVarRule(t, src, s)
       case Success(s1) => Success(s1)
       case Failure(why) => Failure(NemesisError(why, fnName, i)))
    case Assign(t, op) =>
      (match AssignRule(t, op, s)
       case Success(s1) => Success(s1)
       case Failure(why) => Failure(NemesisError(why, fnName, i)))
    case Return(op) =>
      (match ReturnRule(op, s)
       case Success(s1) => Success(s1)
       case Failure(why) => Failure(NemesisError(why, fnName, i)))
    case _ => Failure(NemesisError(UnknownInstruction, fnName, i))
  }

  /** The loop of `check_function` over `instrs`, from state `s`. */
  function Run(fnName: string, instrs: seq<Instr>, s: VarStates): Result<VarStates, NemesisError>
    decreases |instrs|
  {
    if instrs == [] then Success(s)
    else
      match Step(fnName, instrs[0], s)
      case Failure(e) => Failure(e)
      case Success(s1) => Run(fnName, instrs[1..], s1)
  }

  /** `check_function`: accept, or report the first violation. */
  function Check(fn: IRFunction): Outcome<NemesisError>
  {
    match Run(fn.name, fn.instrs, InitialStates(fn.locals))
    case Success(_) => Pass
    case Failure(e) => Fail(e)
  }

  /** `check_program`: the functions in order; the first rejection stops the check. */
  function CheckAll(fns: seq<IRFunction>): Outcome<NemesisError>
    decreases |fns|
  {
    if fns == [] then Pass
    else
      match Check(fns[0])
      case Fail(e) => Fail(e)
      case Pass => CheckAll(fns[1..])
  }

  // ---------------------------------------------------------------------------
  // A checker that passes over the block structure
  // ---------------------------------------------------------------------------

  /** Drop and the two block brackets carry no ownership transfer; the corrected step skips them. */
  function StepCorrected(fnName: string, i: Instr, s: VarStates): Result<VarStates, NemesisError>
  {
    if i.Drop? || i.BlockStart? || i.BlockEnd? then Success(s) else Step(fnName, i, s)
  }

  function RunCorrected(fnName: string, instrs: seq<Instr>, s: VarStates): Result<VarStates, NemesisError>
    decreases |instrs|
  {
    if instrs == [] then Success(s)
    else
      match StepCorrected(fnName, instrs[0], s)
      case Failure(e) => Failure(e)
      case Success(s1) => RunCorrected(fnName, instrs[1..], s1)
  }

  function CheckCorrected(fn: IRFunction): Outcome<NemesisError>
  {
    match RunCorrected(fn.name, fn.instrs, InitialStates(fn.locals))
    case Success(_) => Pass
    case Failure(e) => Fail(e)
  }
}
