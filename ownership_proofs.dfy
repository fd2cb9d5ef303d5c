/**
 * Properties of the ownership verifier (src/nemesis.py): what acceptance guarantees at every
 * instruction, where a rejection points, what it does to lowered functions, and how the
 * corrected checker relates to the one as written.
 */
module OwnershipProofs {
  import opened Wrappers
  import opened Ast
  import opened Ir
  import opened LoweringSpec
  import opened LoweringProofs
  import opened OwnershipSpec

  // ---------------------------------------------------------------------------
  // A reference semantics: which instructions are admissible, and what they do
  // ---------------------------------------------------------------------------

  /**
   * The ownership discipline at one instruction: a moved-from source is alive; a variable
   * that is assigned from or returned is neither moved nor uninitialized. Instructions of
   * any other kind are not admissible.
   */
  predicate Admissible(i: Instr, s: VarStates)
  {
    match i
    case OwLiteral(_, _) => true
    case MvVar(_, src, _) => src in s && s[src] == Alive
    case Assign(_, op) => op.VarRef? ==> op.name !in s || s[op.name] == Alive
    case Return(op) => op.VarRef? ==> op.name !in s || s[op.name] == Alive
    case _ => false
  }

  /** The state change an instruction stands for, whether or not it is admissible. */
  function Effect(i: Instr, s: VarStates): VarStates
  {
    match i
    case OwLiteral(t, _) => s[t := Alive]
    case MvVar(t, src, _) => s[src := Moved][t := Alive]
    case Assign(t, _) => s[t := Alive]
    case Return(op) => if op.VarRef? then s[op.name := Moved] else s
    case _ => s
  }

  /** The state after the effects of `instrs`, in order, starting from `s`. */
  function Apply(instrs: seq<Instr>, s: VarStates): VarStates
    decreases |instrs|
  {
    if instrs == [] then s else Apply(instrs[1..], Effect(instrs[0], s))
  }

  /** Every instruction is admissible in the state the ones before it lead to. */
  ghost predicate AllAdmissible(instrs: seq<Instr>, s: VarStates)
  {
    forall k :: 0 <= k < |instrs| ==> Admissible(instrs[k], Apply(instrs[..k], s))
  }

  /** Instruction `k` is the first one that is not admissible. */
  ghost predicate FirstViolation(instrs: seq<Instr>, s: VarStates, k: int)
  {
    && 0 <= k < |instrs|
    && !Admissible(instrs[k], Apply(instrs[..k], s))
    && forall j :: 0 <= j < k ==> Admissible(instrs[j], Apply(instrs[..j], s))
  }

  /** One step of the checker passes exactly on admissible instructions and then has their effect. */
  lemma StepAgrees(fnName: string, i: Instr, s: VarStates)
    ensures Step(fnName, i, s).Success? <==> Admissible(i, s)
    ensures Step(fnName, i, s).Success? ==> Step(fnName, i, s).value == Effect(i, s)
    ensures Step(fnName, i, s).Failure? ==> Step(fnName, i, s).error == NemesisError(Step(fnName, i, s).error.reason, fnName, i)
  {
  }

  lemma ApplyPrefix(instrs: seq<Instr>, s: VarStates, k: nat)
    requires 0 < k <= |instrs|
    ensures Apply(instrs[..k], s) == Apply(instrs[1..][..k - 1], Effect(instrs[0], s))
  {
    assert instrs[..k][1..] == instrs[1..][..k - 1];
  }

  /**
   * The checker's loop accepts exactly when every instruction is admissible in the state
   * its predecessors lead to, ending in the state of all their effects; otherwise it stops
   * at the first instruction that is not admissible and reports that instruction.
   */
  lemma {:induction false} RunAdmissible(fnName: string, instrs: seq<Instr>, s: VarStates)
    ensures Run(fnName, instrs, s).Success? <==> AllAdmissible(instrs, s)
    ensures Run(fnName, instrs, s).Success? ==> Run(fnName, instrs, s).value == Apply(instrs, s)
    ensures Run(fnName, instrs, s).Failure? ==>
      exists k :: FirstViolation(instrs, s, k)
        && Run(fnName, instrs, s).error.instr == instrs[k]
        && Run(fnName, instrs, s).error.fnName == fnName
    decreases |instrs|
  {
    if instrs != [] {
      var i := instrs[0];
      StepAgrees(fnName, i, s);
      assert instrs[..0] == [];
      if Admissible(i, s) {
        var s1 := Effect(i, s);
        var rest := instrs[1..];
        RunAdmissible(fnName, rest, s1);
        forall k | 0 < k <= |instrs|
          ensures Apply(instrs[..k], s) == Apply(rest[..k - 1], s1)
        {
          ApplyPrefix(instrs, s, k);
        }
        assert AllAdmissible(instrs, s) <==> AllAdmissible(rest, s1) by {
          assert forall k :: 0 < k < |instrs| ==> instrs[k] == rest[k - 1];
          if AllAdmissible(rest, s1) {
            forall k | 0 <= k < |instrs|
              ensures Admissible(instrs[k], Apply(instrs[..k], s))
            {
              if k > 0 {
                assert Admissible(rest[k - 1], Apply(rest[..k - 1], s1));
              }
            }
          }
          if AllAdmissible(instrs, s) {
            forall k | 0 <= k < |rest|
              ensures Admissible(rest[k], Apply(rest[..k], s1))
            {
              assert Admissible(instrs[k + 1], Apply(instrs[..k + 1], s));
            }
          }
        }
        if Run(fnName, rest, s1).Failure? {
          var k :| FirstViolation(rest, s1, k)
            && Run(fnName, rest, s1).error.instr == rest[k]
            && Run(fnName, rest, s1).error.fnName == fnName;
          assert FirstViolation(instrs, s, k + 1) by {
            assert instrs[k + 1] == rest[k];
            forall j | 0 <= j < k + 1
              ensures Admissible(instrs[j], Apply(instrs[..j], s))
            {
              if j > 0 {
                assert instrs[j] == rest[j - 1];
              }
            }
          }
        }
      } else {
        assert FirstViolation(instrs, s, 0);
      }
    }
  }

  /**
   * Soundness and completeness of `check_function` with respect to the discipline: it
   * accepts exactly the functions in which, starting from every local uninitialized, each
   * `mv` source is alive and each assigned-from or returned variable is neither moved nor
   * uninitialized. A rejection names the function and the first offending instruction.
   */
  lemma CheckAdmissible(fn: IRFunction)
    ensures Check(fn).Pass? <==> AllAdmissible(fn.instrs, InitialStates(fn.locals))
    ensures Check(fn).Fail? ==>
      exists k :: FirstViolation(fn.instrs, InitialStates(fn.locals), k)
        && Check(fn).error.instr == fn.instrs[k]
        && Check(fn).error.fnName == fn.name
  {
    RunAdmissible(fn.name, fn.instrs, InitialStates(fn.locals));
  }

  /**
   * As written, every function lowering produces is rejected at its first instruction,
   * the BlockStart that opens its body, as an unknown instruction.
   */
  lemma LoweredAlwaysRejected(f: Ast.Function, order: DropOrder)
    requires LowerFunction(f, order).Success?
    ensures Check(LowerFunction(f, order).value) == Fail(NemesisError(UnknownInstruction, f.name, BlockStart))
  {
    LowerFunctionShape(f, order);
  }

  // ---------------------------------------------------------------------------
  // The corrected checker
  // ---------------------------------------------------------------------------

  /** The instructions that move ownership: Drops and block brackets removed. */
  function Erase(instrs: seq<Instr>): (r: seq<Instr>)
    ensures forall i :: i in r ==> !i.Drop? && !i.BlockStart? && !i.BlockEnd?
    ensures forall i :: i in instrs && !i.Drop? && !i.BlockStart? && !i.BlockEnd? ==> i in r
    ensures |r| <= |instrs|
    decreases |instrs|
  {
    if instrs == [] then []
    else if instrs[0].Drop? || instrs[0].BlockStart? || instrs[0].BlockEnd? then Erase(instrs[1..])
    else [instrs[0]] + Erase(instrs[1..])
  }

  /** Erasing works element by element: it distributes over concatenation. */
  lemma {:induction false} EraseConcat(a: seq<Instr>, b: seq<Instr>)
    ensures Erase(a + b) == Erase(a) + Erase(b)
    decreases |a|
  {
    if a == [] {
      assert a + b == b;
    } else {
      assert (a + b)[0] == a[0];
      assert (a + b)[1..] == a[1..] + b;
      EraseConcat(a[1..], b);
    }
  }

  /**
   * Erasing keeps the remaining instructions in their order and with their multiplicity: an
   * instruction between two stretches survives, between their erasures, unless it is a Drop
   * or a bracket.
   */
  lemma EraseAround(pre: seq<Instr>, i: Instr, post: seq<Instr>)
    ensures Erase(pre + [i] + post)
         == Erase(pre) + (if i.Drop? || i.BlockStart? || i.BlockEnd? then [] else [i]) + Erase(post)
  {
    EraseConcat(pre + [i], post);
    EraseConcat(pre, [i]);
    EraseOne(i);
  }

  lemma EraseOne(i: Instr)
    ensures Erase([i]) == if i.Drop? || i.BlockStart? || i.BlockEnd? then [] else [i]
  {
    assert [i][1..] == [];
  }

  /** The corrected loop is the checker as written run over the erased instructions. */
  lemma {:induction false} RunCorrectedErases(fnName: string, instrs: seq<Instr>, s: VarStates)
    ensures RunCorrected(fnName, instrs, s) == Run(fnName, Erase(instrs), s)
    decreases |instrs|
  {
    if instrs != [] {
      var i := instrs[0];
      if i.Drop? || i.BlockStart? || i.BlockEnd? {
        RunCorrectedErases(fnName, instrs[1..], s);
      } else {
        var e := [i] + Erase(instrs[1..]);
        assert e[0] == i && e[1..] == Erase(instrs[1..]);
        match Step(fnName, i, s)
        case Failure(_) =>
        case Success(s1) => RunCorrectedErases(fnName, instrs[1..], s1);
      }
    }
  }

  /**
   * The corrected checker judges exactly the ownership instructions of a function by the
   * rules of the checker as written, and never rejects anything as an unknown instruction.
   */
  lemma CheckCorrectedErases(fn: IRFunction)
    ensures CheckCorrected(fn) == Check(fn.(instrs := Erase(fn.instrs)))
    ensures CheckCorrected(fn).Fail? ==> CheckCorrected(fn).error.reason != UnknownInstruction
  {
    var s := InitialStates(fn.locals);
    RunCorrectedErases(fn.name, fn.instrs, s);
    RunNoUnknown(fn.name, Erase(fn.instrs), s);
  }

  /** With no Drop and no bracket to meet, the checker as written never reports an unknown instruction. */
  lemma RunNoUnknown(fnName: string, instrs: seq<Instr>, s: VarStates)
    requires forall i :: i in instrs ==> !i.Drop? && !i.BlockStart? && !i.BlockEnd?
    ensures Run(fnName, instrs, s).Failure? ==> Run(fnName, instrs, s).error.reason != UnknownInstruction
  {
    RunAdmissible(fnName, instrs, s);
    if Run(fnName, instrs, s).Failure? {
      var k :| FirstViolation(instrs, s, k) && Run(fnName, instrs, s).error.instr == instrs[k];
      assert instrs[k] in instrs;
      StepAgrees(fnName, instrs[k], Apply(instrs[..k], s));
      RunStopsAt(fnName, instrs, s, k);
    }
  }

  /** A run that fails at its first violation `k` reports the step's own error there. */
  lemma {:induction false} RunStopsAt(fnName: string, instrs: seq<Instr>, s: VarStates, k: int)
    requires FirstViolation(instrs, s, k)
    ensures Run(fnName, instrs, s) == Step(fnName, instrs[k], Apply(instrs[..k], s))
    decreases |instrs|
  {
    var i := instrs[0];
    StepAgrees(fnName, i, s);
    assert instrs[..0] == [];
    if k > 0 {
      var rest := instrs[1..];
      var s1 := Effect(i, s);
      assert Admissible(instrs[0], Apply(instrs[..0], s));
      ApplyPrefix(instrs, s, k);
      assert FirstViolation(rest, s1, k - 1) by {
        assert rest[k - 1] == instrs[k];
        forall j | 0 <= j < k - 1
          ensures Admissible(rest[j], Apply(rest[..j], s1))
        {
          ApplyPrefix(instrs, s, j + 1);
          assert rest[j] == instrs[j + 1];
        }
      }
      RunStopsAt(fnName, rest, s1, k - 1);
    }
  }

  /** The lowered function of `let x: i32 = ow 1; let y: i32 = mv x; return mv y;`, under both checkers. */
  lemma MoveThenReturnChecks()
    ensures var fn := IRFunction("main", "i32", ["x", "y"],
        [BlockStart, OwLiteral("x", Literal(1, "i32")), MvVar("y", "x", "i32"),
         Return(VarRef("y", "i32")), BlockEnd]);
      && Check(fn) == Fail(NemesisError(UnknownInstruction, "main", BlockStart))
      && CheckCorrected(fn) == Pass
  {
    var instrs := [BlockStart, OwLiteral("x", Literal(1, "i32")), MvVar("y", "x", "i32"),
                   Return(VarRef("y", "i32")), BlockEnd];
    var s0 := InitialStates(["x", "y"]);
    var s1 := s0["x" := Alive];
    var s2 := s1["x" := Moved]["y" := Alive];
    var s3 := s2["y" := Moved];
    assert "x" in s0;
    assert RunCorrected("main", instrs[4..], s3) == Success(s3);
    assert RunCorrected("main", instrs[3..], s2) == Success(s3);
    assert RunCorrected("main", instrs[2..], s1) == Success(s3);
    assert RunCorrected("main", instrs[1..], s0) == Success(s3);
  }

  /**
   * `let x: i32 = ow 1; let y: i32 = mv x; return mv y;` lowered: the checker as written rejects
   * the lowered function at its opening bracket; the corrected checker accepts it.
   */
  lemma MoveThenReturnScenario(order: DropOrder)
    requires ValidOrder(order)
    ensures var f := Function("main", "i32", [LetStmt("x", "i32", OwExpr(LiteralExpr(1))),
                                               LetStmt("y", "i32", MvExpr(VarExpr("x"))),
                                               ReturnStmt(MvExpr(VarExpr("y")))]);
      && LowerFunction(f, order).Success?
      && Check(LowerFunction(f, order).value) == Fail(NemesisError(UnknownInstruction, "main", BlockStart))
      && CheckCorrected(LowerFunction(f, order).value) == Pass
  {
    MoveThenReturnLowering(order);
    MoveThenReturnChecks();
  }

  // ---------------------------------------------------------------------------
  // Whole programs
  // ---------------------------------------------------------------------------

  /**
   * `check_program` accepts exactly when every function is accepted; otherwise it reports
   * the error of the first function, in list order, that is rejected.
   */
  lemma {:induction false} CheckAllFirstFailure(fns: seq<IRFunction>)
    ensures CheckAll(fns).Pass? <==> forall k :: 0 <= k < |fns| ==> Check(fns[k]).Pass?
    ensures CheckAll(fns).Fail? ==>
      exists k :: 0 <= k < |fns| && Check(fns[k]) == CheckAll(fns)
        && forall j :: 0 <= j < k ==> Check(fns[j]).Pass?
    decreases |fns|
  {
    if fns != [] {
      CheckAllFirstFailure(fns[1..]);
      assert forall k :: 0 < k < |fns| ==> fns[k] == fns[1..][k - 1];
      if Check(fns[0]).Pass? && CheckAll(fns[1..]).Fail? {
        var k :| 0 <= k < |fns[1..]| && Check(fns[1..][k]) == CheckAll(fns[1..])
          && forall j :: 0 <= j < k ==> Check(fns[1..][j]).Pass?;
        assert Check(fns[k + 1]) == CheckAll(fns);
      }
    }
  }
}
