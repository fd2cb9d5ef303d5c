/**
 * Properties of lowering (src/fates.py), stated against definitions on the syntax tree
 * that do not mention the lowering state: which statements are supported, which names a
 * block declares and which it moves away, the nesting depth of blocks, the let-bound names.
 */
module LoweringProofs {
  import opened Wrappers
  import opened Ast
  import opened Ir
  import opened LoweringSpec

  // ---------------------------------------------------------------------------
  // Reference definitions on the syntax tree
  // ---------------------------------------------------------------------------

  /** An initializer or returned value lowering accepts: `ow <literal>` or `mv <variable>`. */
  predicate OwnedValue(e: Expr)
  {
    (e.OwExpr? && e.inner.LiteralExpr?) || (e.MvExpr? && e.inner.VarExpr?)
  }

  /** A statement made only of the three supported shapes, with owned values throughout. */
  predicate Supported(s: Stmt)
    decreases s
  {
    match s
    case LetStmt(_, _, value) => OwnedValue(value)
    case ReturnStmt(value) => OwnedValue(value)
    case BlockStmt(stmts) => SupportedAll(stmts)
    case UnsupportedStmt(_) => false
  }

  predicate SupportedAll(stmts: seq<Stmt>)
    decreases stmts
  {
    forall i :: 0 <= i < |stmts| ==> Supported(stmts[i])
  }

  /** The errors a user can cause; the internal-consistency errors are not among them. */
  predicate UserError(e: LowerError)
  {
    e.NotImplementedError? || (e.SemanticError? && !e.reason.InternalShape?)
  }

  /** Names `let`-declared directly in a block (not in blocks nested in it). */
  function DeclaredHere(stmts: seq<Stmt>): set<string>
  {
    if stmts == [] then {}
    else (if stmts[0].LetStmt? then {stmts[0].name} else {}) + DeclaredHere(stmts[1..])
  }

  /** The name a statement itself declares, if any. */
  function DeclaredBy(s: Stmt): set<string>
  {
    if s.LetStmt? then {s.name} else {}
  }

  /** Names moved away by `let _ = mv x` or `return mv x` anywhere in a statement. */
  function MovedBy(s: Stmt): set<string>
    decreases s
  {
    match s
    case LetStmt(_, _, value) => if value.MvExpr? && value.inner.VarExpr? then {value.inner.name} else {}
    case ReturnStmt(value) => if value.MvExpr? && value.inner.VarExpr? then {value.inner.name} else {}
    case BlockStmt(stmts) => MovedIn(stmts)
    case UnsupportedStmt(_) => {}
  }

  function MovedIn(stmts: seq<Stmt>): set<string>
    decreases stmts
  {
    if stmts == [] then {} else MovedBy(stmts[0]) + MovedIn(stmts[1..])
  }

  /** How deeply blocks nest inside a statement. */
  function NestDepth(s: Stmt): nat
    decreases s
  {
    if s.BlockStmt? then 1 + NestDepthAll(s.stmts) else 0
  }

  function NestDepthAll(stmts: seq<Stmt>): nat
    decreases stmts
  {
    if stmts == [] then 0 else Max(NestDepth(stmts[0]), NestDepthAll(stmts[1..]))
  }

  /** The `let`-bound names of a statement, in source order, repetitions kept. */
  function LetNames(s: Stmt): seq<string>
    decreases s
  {
    match s
    case LetStmt(name, _, _) => [name]
    case BlockStmt(stmts) => LetNamesAll(stmts)
    case _ => []
  }

  function LetNamesAll(stmts: seq<Stmt>): seq<string>
    decreases stmts
  {
    if stmts == [] then [] else LetNames(stmts[0]) + LetNamesAll(stmts[1..])
  }

  /** The (name, declared type) pairs of every `let` in a statement. */
  function LetDecls(s: Stmt): set<(string, string)>
    decreases s
  {
    match s
    case LetStmt(name, typ, _) => {(name, typ)}
    case BlockStmt(stmts) => LetDeclsAll(stmts)
    case _ => {}
  }

  function LetDeclsAll(stmts: seq<Stmt>): set<(string, string)>
    decreases stmts
  {
    if stmts == [] then {} else LetDecls(stmts[0]) + LetDeclsAll(stmts[1..])
  }

  /** Append each name of `xs` not yet present: first-seen order without repetitions. */
  function AddNames(acc: seq<string>, xs: seq<string>): seq<string>
    decreases xs
  {
    if xs == [] then acc else AddNames(if xs[0] in acc then acc else acc + [xs[0]], xs[1..])
  }

  predicate NoDup(xs: seq<string>)
  {
    forall i, j :: 0 <= i < j < |xs| ==> xs[i] != xs[j]
  }

  /** `xs` lists the elements of `s`, each once. */
  ghost predicate IsEnumeration(s: set<string>, xs: seq<string>)
  {
    NoDup(xs) && forall x :: x in xs <==> x in s
  }

  lemma HeadIn(xs: seq<string>)
    ensures |xs| > 0 ==> xs[0] in xs
  {
  }

  /** Only the empty sequence enumerates the empty set. */
  lemma EmptyEnumeration(xs: seq<string>)
    requires IsEnumeration({}, xs)
    ensures xs == []
  {
    HeadIn(xs);
  }

  lemma FirstTwoIn(xs: seq<string>)
    ensures |xs| > 1 ==> xs[0] in xs && xs[1] in xs
  {
  }

  /** Only the one-element sequence enumerates a singleton. */
  lemma SingletonEnumeration(x: string, xs: seq<string>)
    requires IsEnumeration({x}, xs)
    ensures xs == [x]
  {
    HeadIn(xs);
    FirstTwoIn(xs);
    assert x in xs;
  }

  /** The iteration order over a set yields every element once. */
  ghost predicate ValidOrder(order: DropOrder)
  {
    forall k, s :: IsEnumeration(s, order(k, s))
  }

  // ---------------------------------------------------------------------------
  // Which statements lower, and with which errors
  // ---------------------------------------------------------------------------

  lemma {:induction false} StmtOutcome(st: LState, s: Stmt, ret: string, order: DropOrder)
    ensures LowerStmt(st, s, ret, order).Success? <==> Supported(s)
    ensures LowerStmt(st, s, ret, order).Failure? ==> UserError(LowerStmt(st, s, ret, order).error)
    decreases s, 2
  {
    if s.BlockStmt? {
      BlockOutcome(st.(instrs := st.instrs + [BlockStart]), s.stmts, ret, order);
    }
  }

  lemma {:induction false} BlockOutcome(st: LState, stmts: seq<Stmt>, ret: string, order: DropOrder)
    ensures LowerBlock(st, stmts, ret, order).Success? <==> SupportedAll(stmts)
    ensures LowerBlock(st, stmts, ret, order).Failure? ==> UserError(LowerBlock(st, stmts, ret, order).error)
    decreases stmts, 1
  {
    StmtsOutcome(st.(scopes := st.scopes + [{}]), stmts, ret, order);
  }

  lemma {:induction false} StmtsOutcome(st: LState, stmts: seq<Stmt>, ret: string, order: DropOrder)
    ensures LowerStmts(st, stmts, ret, order).Success? <==> SupportedAll(stmts)
    ensures LowerStmts(st, stmts, ret, order).Failure? ==> UserError(LowerStmts(st, stmts, ret, order).error)
    decreases stmts, 0
  {
    if stmts != [] {
      StmtOutcome(st, stmts[0], ret, order);
      assert SupportedAll(stmts) <==> Supported(stmts[0]) && SupportedAll(stmts[1..]) by {
        assert forall i :: 0 < i < |stmts| ==> stmts[i] == stmts[1..][i - 1];
      }
      match LowerStmt(st, stmts[0], ret, order)
      case Success(st1) => StmtsOutcome(st1, stmts[1..], ret, order);
      case Failure(_) =>
    }
  }

  /**
   * A function lowers exactly when its body uses only supported statements with `ow` literal /
   * `mv` variable values; otherwise the error is a user error. The "Internal error" branches
   * and the non-empty-scope-stack check are never reached.
   */
  lemma LowerFunctionOutcome(f: Function, order: DropOrder)
    ensures LowerFunction(f, order).Success? <==> SupportedAll(f.body)
    ensures LowerFunction(f, order).Failure? ==> UserError(LowerFunction(f, order).error)
  {
    StmtOutcome(InitialLState(), BlockStmt(f.body), f.returnType, order);
  }

  /** The error an `ow`/`mv`-tagged value draws in context `ctx`, judged by its shape alone. */
  function ValueError(v: Expr, ctx: string): Outcome<LowerError>
  {
    match v
    case OwExpr(e) =>
      if e.LiteralExpr? then Pass
      else if e.VarExpr? then Fail(SemanticError(ctx, OwOfVariable(e.name)))
      else Fail(SemanticError(ctx, OwOfNonLiteral(ExprKind(e))))
    case MvExpr(e) =>
      if e.VarExpr? then Pass
      else if e.LiteralExpr? then Fail(SemanticError(ctx, MvOfLiteral(e.value)))
      else Fail(SemanticError(ctx, MvOfNonVariable(ExprKind(e))))
    case _ => Fail(SemanticError(ctx, MissingOwnershipTag))
  }

  /** The first error in a statement, depth first, with no lowering state involved. */
  function StmtError(s: Stmt): Outcome<LowerError>
    decreases s
  {
    match s
    case LetStmt(name, _, value) => ValueError(value, "let " + name)
    case ReturnStmt(value) => ValueError(value, "return")
    case BlockStmt(stmts) => FirstError(stmts)
    case UnsupportedStmt(kind) => Fail(NotImplementedError(kind))
  }

  /** The first error among statements, in order. */
  function FirstError(stmts: seq<Stmt>): Outcome<LowerError>
    decreases stmts
  {
    if stmts == [] then Pass
    else
      match StmtError(stmts[0])
      case Fail(e) => Fail(e)
      case Pass => FirstError(stmts[1..])
  }

  /** A lowering result seen as pass or fail. */
  function Verdict<T>(r: Result<T, LowerError>): Outcome<LowerError>
  {
    match r
    case Success(_) => Pass
    case Failure(e) => Fail(e)
  }

  /** Lowering a statement fails exactly with the statement's first error, whatever the state. */
  lemma {:induction false} StmtFirstError(st: LState, s: Stmt, ret: string, order: DropOrder)
    ensures Verdict(LowerStmt(st, s, ret, order)) == StmtError(s)
    decreases s, 2
  {
    if s.BlockStmt? {
      BlockFirstError(st.(instrs := st.instrs + [BlockStart]), s.stmts, ret, order);
    }
  }

  lemma {:induction false} BlockFirstError(st: LState, stmts: seq<Stmt>, ret: string, order: DropOrder)
    ensures Verdict(LowerBlock(st, stmts, ret, order)) == FirstError(stmts)
    decreases stmts, 1
  {
    StmtsFirstError(st.(scopes := st.scopes + [{}]), stmts, ret, order);
  }

  /** The statement loop stops at the first statement that fails, with that statement's error. */
  lemma {:induction false} StmtsFirstError(st: LState, stmts: seq<Stmt>, ret: string, order: DropOrder)
    ensures Verdict(LowerStmts(st, stmts, ret, order)) == FirstError(stmts)
    decreases stmts, 0
  {
    if stmts != [] {
      StmtFirstError(st, stmts[0], ret, order);
      match LowerStmt(st, stmts[0], ret, order)
      case Success(st1) => StmtsFirstError(st1, stmts[1..], ret, order);
      case Failure(_) =>
    }
  }

  /** A function's lowering fails exactly with the first error of its body, in source order. */
  lemma LowerFunctionFirstError(f: Function, order: DropOrder)
    ensures Verdict(LowerFunction(f, order)) == FirstError(f.body)
  {
    StmtFirstError(InitialLState(), BlockStmt(f.body), f.returnType, order);
    LowerFunctionOutcome(f, order);
  }

  // ---------------------------------------------------------------------------
  // The emitted instructions: brackets, drops outside brackets, type tags
  // ---------------------------------------------------------------------------

  /**
   * The type tag lowering gives an instruction: a literal or move carries the declared type
   * of a `let` of its target, a return operand the function's return type; lowering never
   * emits an Assign.
   */
  predicate TagOk(i: Instr, decls: set<(string, string)>, ret: string)
  {
    match i
    case OwLiteral(t, l) => (t, l.typ) in decls
    case MvVar(t, _, ty) => (t, ty) in decls
    case Return(op) => op.Typ() == ret
    case Assign(_, _) => false
    case _ => true
  }

  /** `after` begins with `before`. */
  ghost predicate Extends(before: seq<Instr>, after: seq<Instr>)
  {
    |before| <= |after| && after[..|before|] == before
  }

  /**
   * What lowering one statement appends: balanced brackets, no Drop outside a bracket pair,
   * correct tags.
   */
  ghost predicate Segment(seg: seq<Instr>, decls: set<(string, string)>, ret: string)
  {
    && Balanced(seg)
    && DropsAt(seg, 0) == []
    && forall i :: i in seg ==> TagOk(i, decls, ret)
  }

  lemma SegmentConcat(a: seq<Instr>, b: seq<Instr>, da: set<(string, string)>, db: set<(string, string)>, ret: string)
    requires Segment(a, da, ret) && Segment(b, db, ret)
    ensures Segment(a + b, da + db, ret)
    ensures Peak(a + b) == Max(Peak(a), Peak(b))
  {
    BalancedConcat(a, b);
    TagsConcat(a, b, da, db, ret);
  }

  /** Two balanced runs without Drops at their own level, one after the other. */
  lemma BalancedConcat(a: seq<Instr>, b: seq<Instr>)
    requires Balanced(a) && DropsAt(a, 0) == []
    requires Balanced(b) && DropsAt(b, 0) == []
    ensures Balanced(a + b) && DropsAt(a + b, 0) == []
    ensures Peak(a + b) == Max(Peak(a), Peak(b))
  {
    NetConcat(a, b);
    FloorConcat(a, b);
    PeakConcat(a, b);
    DropsAtConcat(a, b, 0);
  }

  lemma TagsConcat(a: seq<Instr>, b: seq<Instr>, da: set<(string, string)>, db: set<(string, string)>, ret: string)
    requires forall i :: i in a ==> TagOk(i, da, ret)
    requires forall i :: i in b ==> TagOk(i, db, ret)
    ensures forall i :: i in a + b ==> TagOk(i, da + db, ret)
  {
    forall i | i in a + b
      ensures TagOk(i, da + db, ret)
    {
      if i in a {
        TagWider(i, da, da + db, ret);
      } else {
        TagWider(i, db, da + db, ret);
      }
    }
  }

  lemma TagWider(i: Instr, d: set<(string, string)>, wider: set<(string, string)>, ret: string)
    requires TagOk(i, d, ret) && d <= wider
    ensures TagOk(i, wider, ret)
  {
  }

  lemma SingleSegment(x: Instr, decls: set<(string, string)>, ret: string)
    requires !x.BlockStart? && !x.BlockEnd? && !x.Drop? && TagOk(x, decls, ret)
    ensures Segment([x], decls, ret) && Peak([x]) == 0
  {
    assert [x][1..] == [];
    assert Net([x]) == Delta(x) + Net([]) == 0;
    assert Floor([x]) == Min(0, Delta(x) + Floor([])) == 0;
    assert Peak([x]) == Max(0, Delta(x) + Peak([])) == 0;
    assert DropsAt([x], 0) == [] + DropsAt([], 0) == [];
  }

  /** A `let` or `return` appends one instruction: no bracket, no Drop, tagged right. */
  lemma SimpleStmtStep(st: LState, s: Stmt, ret: string, order: DropOrder)
    requires !s.BlockStmt? && LowerStmt(st, s, ret, order).Success?
    ensures var after := LowerStmt(st, s, ret, order).value.instrs;
      && |after| == |st.instrs| + 1
      && after == st.instrs + [after[|st.instrs|]]
      && var x := after[|st.instrs|];
         !x.BlockStart? && !x.BlockEnd? && !x.Drop? && TagOk(x, LetDecls(s), ret)
  {
  }

  /** A block's interior: its statements' instructions, then its drops. */
  lemma BlockInterior(inner: seq<Instr>, names: seq<string>, decls: set<(string, string)>, ret: string)
    requires Segment(inner, decls, ret)
    ensures var body := inner + DropsOf(names);
      && Net(body) == 0 && Floor(body) == 0 && Peak(body) == Peak(inner)
      && DropsAt(body, 0) == names && DropsAt(body, 1) == []
      && forall i :: i in body ==> TagOk(i, decls, ret)
  {
    InteriorDepth(inner, names);
    InteriorDrops(inner, names);
    var drops := DropsOf(names);
    assert forall i :: i in drops ==> i.Drop?;
    TagsConcat(inner, drops, decls, {}, ret);
    assert decls + {} == decls;
  }

  lemma InteriorDepth(inner: seq<Instr>, names: seq<string>)
    requires Balanced(inner)
    ensures var body := inner + DropsOf(names);
      Net(body) == 0 && Floor(body) == 0 && Peak(body) == Peak(inner)
  {
    DropsOfShape(names, 0);
    NetConcat(inner, DropsOf(names));
    FloorConcat(inner, DropsOf(names));
    PeakConcat(inner, DropsOf(names));
  }

  lemma InteriorDrops(inner: seq<Instr>, names: seq<string>)
    requires Balanced(inner) && DropsAt(inner, 0) == []
    ensures DropsAt(inner + DropsOf(names), 0) == names
    ensures DropsAt(inner + DropsOf(names), 1) == []
  {
    DropsOfShape(names, 0);
    DropsOfShape(names, 1);
    DropsAtConcat(inner, DropsOf(names), 0);
    DropsAtConcat(inner, DropsOf(names), 1);
    DropsAtAbove(inner, 1);
  }

  /** Bracketing a block interior gives a segment one level deeper. */
  lemma BlockBrackets(body: seq<Instr>, decls: set<(string, string)>, ret: string)
    requires Net(body) == 0 && Floor(body) == 0 && DropsAt(body, 1) == []
    requires forall i :: i in body ==> TagOk(i, decls, ret)
    ensures Segment([BlockStart] + body + [BlockEnd], decls, ret)
    ensures Peak([BlockStart] + body + [BlockEnd]) == 1 + Peak(body)
  {
    var seg := [BlockStart] + body + [BlockEnd];
    ClosedTail(body);
    OpenedTail(body + [BlockEnd]);
    assert seg == [BlockStart] + (body + [BlockEnd]);
    assert forall i :: i in seg ==> i == BlockStart || i == BlockEnd || i in body;
  }

  /** A balanced run closed by one BlockEnd. */
  lemma ClosedTail(body: seq<Instr>)
    requires Net(body) == 0 && Floor(body) == 0 && DropsAt(body, 1) == []
    ensures var tail := body + [BlockEnd];
      Net(tail) == -1 && Floor(tail) == -1 && Peak(tail) == Peak(body) && DropsAt(tail, 1) == []
  {
    assert [BlockEnd][1..] == [];
    assert Net([BlockEnd]) == -1 && Floor([BlockEnd]) == -1 && Peak([BlockEnd]) == 0;
    assert DropsAt([BlockEnd], 1) == [];
    NetConcat(body, [BlockEnd]);
    FloorConcat(body, [BlockEnd]);
    PeakConcat(body, [BlockEnd]);
    DropsAtConcat(body, [BlockEnd], 1);
  }

  /** Opening one bracket before a run that closes it. */
  lemma OpenedTail(tail: seq<Instr>)
    requires Net(tail) == -1 && Floor(tail) == -1 && DropsAt(tail, 1) == []
    ensures var seg := [BlockStart] + tail;
      Balanced(seg) && DropsAt(seg, 0) == [] && Peak(seg) == 1 + Peak(tail)
  {
    var seg := [BlockStart] + tail;
    assert seg[0] == BlockStart && seg[1..] == tail;
  }

  /** The state after lowering a block statement, in terms of the lowering of its statements. */
  lemma BlockStep(st: LState, stmts: seq<Stmt>, ret: string, order: DropOrder)
    requires LowerStmt(st, BlockStmt(stmts), ret, order).Success?
    ensures var pushed := st.(instrs := st.instrs + [BlockStart], scopes := st.scopes + [{}]);
      && LowerStmts(pushed, stmts, ret, order).Success?
      && var st1 := LowerStmts(pushed, stmts, ret, order).value;
         && |st1.scopes| == |st.scopes| + 1
         && LowerStmt(st, BlockStmt(stmts), ret, order).value ==
              st1.(instrs := st1.instrs + DropsOf(order(|st1.instrs|, st1.scopes[|st.scopes|])) + [BlockEnd],
                   scopes := st1.scopes[..|st.scopes|])
  {
    var st0 := st.(instrs := st.instrs + [BlockStart]);
    assert st0.(scopes := st0.scopes + [{}]) == st.(instrs := st.instrs + [BlockStart], scopes := st.scopes + [{}]);
  }

  /** Putting a lowered block together: open bracket, statements, drops, close bracket. */
  lemma BlockAssembly(before: seq<Instr>, mid: seq<Instr>, names: seq<string>, decls: set<(string, string)>, ret: string)
    requires Extends(before + [BlockStart], mid)
    requires Segment(mid[|before| + 1..], decls, ret)
    ensures var after := mid + DropsOf(names) + [BlockEnd];
      && Extends(before, after)
      && Segment(after[|before|..], decls, ret)
      && Peak(after[|before|..]) == 1 + Peak(mid[|before| + 1..])
  {
    var n := |before|;
    var inner := mid[n + 1..];
    var after := mid + DropsOf(names) + [BlockEnd];
    assert mid[..n + 1] == before + [BlockStart];
    assert mid == before + [BlockStart] + inner;
    assert after[n..] == [BlockStart] + (inner + DropsOf(names)) + [BlockEnd];
    assert after[..n] == before;
    BlockInterior(inner, names, decls, ret);
    BlockBrackets(inner + DropsOf(names), decls, ret);
  }

  lemma {:induction false} StmtSegment(st: LState, s: Stmt, ret: string, order: DropOrder)
    requires LowerStmt(st, s, ret, order).Success?
    ensures Extends(st.instrs, LowerStmt(st, s, ret, order).value.instrs)
    ensures Segment(LowerStmt(st, s, ret, order).value.instrs[|st.instrs|..], LetDecls(s), ret)
    ensures Peak(LowerStmt(st, s, ret, order).value.instrs[|st.instrs|..]) == NestDepth(s)
    decreases s, 2
  {
    if s.BlockStmt? {
      BlockStmtSegment(st, s.stmts, ret, order);
    } else {
      var after := LowerStmt(st, s, ret, order).value.instrs;
      var n := |st.instrs|;
      SimpleStmtStep(st, s, ret, order);
      SingleSegment(after[n], LetDecls(s), ret);
      assert after[n..] == [after[n]];
    }
  }

  lemma {:induction false} BlockStmtSegment(st: LState, stmts: seq<Stmt>, ret: string, order: DropOrder)
    requires LowerStmt(st, BlockStmt(stmts), ret, order).Success?
    ensures Extends(st.instrs, LowerStmt(st, BlockStmt(stmts), ret, order).value.instrs)
    ensures Segment(LowerStmt(st, BlockStmt(stmts), ret, order).value.instrs[|st.instrs|..], LetDeclsAll(stmts), ret)
    ensures Peak(LowerStmt(st, BlockStmt(stmts), ret, order).value.instrs[|st.instrs|..]) == 1 + NestDepthAll(stmts)
    decreases stmts, 1
  {
    BlockStep(st, stmts, ret, order);
    var pushed := st.(instrs := st.instrs + [BlockStart], scopes := st.scopes + [{}]);
    StmtsSegment(pushed, stmts, ret, order);
    var st1 := LowerStmts(pushed, stmts, ret, order).value;
    var names := order(|st1.instrs|, st1.scopes[|st.scopes|]);
    BlockAssembly(st.instrs, st1.instrs, names, LetDeclsAll(stmts), ret);
  }

  /** Two segments appended one after the other make one segment. */
  lemma SegmentChain(x0: seq<Instr>, x1: seq<Instr>, x2: seq<Instr>, d1: set<(string, string)>, d2: set<(string, string)>, ret: string)
    requires Extends(x0, x1) && Extends(x1, x2)
    requires Segment(x1[|x0|..], d1, ret) && Segment(x2[|x1|..], d2, ret)
    ensures Extends(x0, x2)
    ensures Segment(x2[|x0|..], d1 + d2, ret)
    ensures Peak(x2[|x0|..]) == Max(Peak(x1[|x0|..]), Peak(x2[|x1|..]))
  {
    assert x2[..|x1|] == x1;
    assert x2[..|x0|] == x1[..|x0|];
    assert x2[|x0|..] == x1[|x0|..] + x2[|x1|..];
    SegmentConcat(x1[|x0|..], x2[|x1|..], d1, d2, ret);
  }

  lemma {:induction false} StmtsSegment(st: LState, stmts: seq<Stmt>, ret: string, order: DropOrder)
    requires LowerStmts(st, stmts, ret, order).Success?
    ensures Extends(st.instrs, LowerStmts(st, stmts, ret, order).value.instrs)
    ensures Segment(LowerStmts(st, stmts, ret, order).value.instrs[|st.instrs|..], LetDeclsAll(stmts), ret)
    ensures Peak(LowerStmts(st, stmts, ret, order).value.instrs[|st.instrs|..]) == NestDepthAll(stmts)
    decreases stmts, 0
  {
    if stmts == [] {
      assert st.instrs[|st.instrs|..] == [];
    } else {
      StmtSegment(st, stmts[0], ret, order);
      var st1 := LowerStmt(st, stmts[0], ret, order).value;
      StmtsSegment(st1, stmts[1..], ret, order);
      SegmentChain(st.instrs, st1.instrs, LowerStmts(st, stmts, ret, order).value.instrs,
                   LetDecls(stmts[0]), LetDeclsAll(stmts[1..]), ret);
    }
  }

  /**
   * A lowered function's instructions open with BlockStart, close with BlockEnd, keep their
   * brackets balanced, nest exactly as deep as the blocks of the source (the body counts as
   * one), have every Drop inside a bracket pair, and carry the declared type tags.
   */
  lemma LowerFunctionShape(f: Function, order: DropOrder)
    requires LowerFunction(f, order).Success?
    ensures var instrs := LowerFunction(f, order).value.instrs;
      && |instrs| >= 2
      && instrs[0] == BlockStart
      && instrs[|instrs| - 1] == BlockEnd
      && Balanced(instrs)
      && Peak(instrs) == 1 + NestDepthAll(f.body)
      && DropsAt(instrs, 0) == []
      && forall i :: i in instrs ==> TagOk(i, LetDeclsAll(f.body), f.returnType)
  {
    var init := InitialLState();
    StmtSegment(init, BlockStmt(f.body), f.returnType, order);
    var instrs := LowerFunction(f, order).value.instrs;
    assert instrs[0..] == instrs;
    var st0 := init.(instrs := init.instrs + [BlockStart]);
    var st1 := LowerBlock(st0, f.body, f.returnType, order).value;
    assert instrs == st1.instrs + [BlockEnd];
    StmtsSegment(st0.(scopes := st0.scopes + [{}]), f.body, f.returnType, order);
  }

  // ---------------------------------------------------------------------------
  // The scope stack: what declarations add and retractions take away
  // ---------------------------------------------------------------------------

  /**
   * How a piece of lowering changed the scope stack: no set gained anything except the
   * innermost one, which gained only names from `declared`; a set lost only names from
   * `moved`; and every name of `declared` not in `moved` ended up in the innermost set.
   */
  ghost predicate ScopeEffect(before: seq<set<string>>, after: seq<set<string>>, declared: set<string>, moved: set<string>)
  {
    && |after| == |before|
    && forall j :: 0 <= j < |before| ==>
         && after[j] <= before[j] + (if j == |before| - 1 then declared else {})
         && before[j] - moved <= after[j]
         && (j == |before| - 1 ==> declared - moved <= after[j])
  }

  lemma ScopeEffectNone(scopes: seq<set<string>>)
    ensures ScopeEffect(scopes, scopes, {}, {})
  {
  }

  lemma {:induction false} ScopeEffectTrans(a: seq<set<string>>, b: seq<set<string>>, c: seq<set<string>>,
                                            d1: set<string>, m1: set<string>, d2: set<string>, m2: set<string>)
    requires ScopeEffect(a, b, d1, m1) && ScopeEffect(b, c, d2, m2)
    ensures ScopeEffect(a, c, d1 + d2, m1 + m2)
  {
    forall j | 0 <= j < |a|
      ensures c[j] <= a[j] + (if j == |a| - 1 then d1 + d2 else {})
      ensures a[j] - (m1 + m2) <= c[j]
      ensures j == |a| - 1 ==> (d1 + d2) - (m1 + m2) <= c[j]
    {
      assert b[j] <= a[j] + (if j == |a| - 1 then d1 else {});
      assert c[j] <= b[j] + (if j == |a| - 1 then d2 else {});
      assert a[j] - m1 <= b[j] && b[j] - m2 <= c[j];
    }
  }

  lemma RegisterLocalScopes(st: LState, name: string, typ: string)
    ensures ScopeEffect(st.scopes, RegisterLocal(st, name, typ).scopes, {name}, {})
  {
  }

  lemma {:induction false} RetractScopes(scopes: seq<set<string>>, x: string)
    ensures ScopeEffect(scopes, Retract(scopes, x), {}, {x})
    ensures forall j, k :: 0 <= j < |scopes| && 0 <= k < |scopes| && j != k && Retract(scopes, x)[j] != scopes[j] ==>
              Retract(scopes, x)[k] == scopes[k]
    decreases |scopes|
  {
    if scopes != [] {
      RetractScopes(scopes[1..], x);
      var r := Retract(scopes, x);
      forall j | 0 < j < |scopes|
        ensures r[j] <= scopes[j] && scopes[j] - {x} <= r[j]
      {
        if x !in scopes[0] {
          assert r[j] == Retract(scopes[1..], x)[j - 1];
        }
      }
      forall j, k | 0 <= j < |scopes| && 0 <= k < |scopes| && j != k && r[j] != scopes[j]
        ensures r[k] == scopes[k]
      {
        if x !in scopes[0] && 0 < j && 0 < k {
          assert r[j] == Retract(scopes[1..], x)[j - 1];
          assert r[k] == Retract(scopes[1..], x)[k - 1];
        }
      }
    }
  }

  /** Leaving a block: the popped stack lost only moved names, and gained nothing. */
  lemma {:induction false} PopScopes(before: seq<set<string>>, inner: seq<set<string>>, declared: set<string>, moved: set<string>)
    requires ScopeEffect(before + [{}], inner, declared, moved)
    ensures ScopeEffect(before, inner[..|before|], {}, moved)
  {
    forall j | 0 <= j < |before|
      ensures inner[..|before|][j] <= before[j]
      ensures before[j] - moved <= inner[..|before|][j]
    {
      assert (before + [{}])[j] == before[j];
    }
  }

  lemma {:induction false} StmtScopes(st: LState, s: Stmt, ret: string, order: DropOrder)
    requires LowerStmt(st, s, ret, order).Success?
    ensures ScopeEffect(st.scopes, LowerStmt(st, s, ret, order).value.scopes, DeclaredBy(s), MovedBy(s))
    decreases s, 2
  {
    match s
    case LetStmt(name, typ, value) =>
      var st1 := RegisterLocal(st, name, typ);
      RegisterLocalScopes(st, name, typ);
      if value.MvExpr? {
        RetractScopes(st1.scopes, value.inner.name);
        ScopeEffectTrans(st.scopes, st1.scopes, Retract(st1.scopes, value.inner.name), {name}, {}, {}, {value.inner.name});
        assert {name} + {} == {name} && {} + {value.inner.name} == {value.inner.name};
      }
    case ReturnStmt(value) =>
      if value.MvExpr? {
        RetractScopes(st.scopes, value.inner.name);
      } else {
        ScopeEffectNone(st.scopes);
      }
    case BlockStmt(stmts) =>
      BlockStmtScopes(st, stmts, ret, order);
  }

  lemma {:induction false} BlockStmtScopes(st: LState, stmts: seq<Stmt>, ret: string, order: DropOrder)
    requires LowerStmt(st, BlockStmt(stmts), ret, order).Success?
    ensures ScopeEffect(st.scopes, LowerStmt(st, BlockStmt(stmts), ret, order).value.scopes, {}, MovedIn(stmts))
    decreases stmts, 1
  {
    BlockStep(st, stmts, ret, order);
    var pushed := st.(instrs := st.instrs + [BlockStart], scopes := st.scopes + [{}]);
    StmtsScopes(pushed, stmts, ret, order);
    PopScopes(st.scopes, LowerStmts(pushed, stmts, ret, order).value.scopes, DeclaredHere(stmts), MovedIn(stmts));
  }

  lemma {:induction false} StmtsScopes(st: LState, stmts: seq<Stmt>, ret: string, order: DropOrder)
    requires LowerStmts(st, stmts, ret, order).Success?
    ensures ScopeEffect(st.scopes, LowerStmts(st, stmts, ret, order).value.scopes, DeclaredHere(stmts), MovedIn(stmts))
    decreases stmts, 0
  {
    if stmts == [] {
      ScopeEffectNone(st.scopes);
    } else {
      var st1 := LowerStmt(st, stmts[0], ret, order).value;
      StmtScopes(st, stmts[0], ret, order);
      StmtsScopes(st1, stmts[1..], ret, order);
      ScopeEffectTrans(st.scopes, st1.scopes, LowerStmts(st, stmts, ret, order).value.scopes,
                       DeclaredBy(stmts[0]), MovedBy(stmts[0]), DeclaredHere(stmts[1..]), MovedIn(stmts[1..]));
    }
  }

  /**
   * The drops a block emits at its exit (the Drops of its body outside any nested block)
   * name each variable at most once, only variables `let`-declared directly in the block,
   * and every such variable that no `mv` in the block moves away.
   */
  lemma BlockExitDrops(st: LState, stmts: seq<Stmt>, ret: string, order: DropOrder)
    requires ValidOrder(order)
    requires LowerStmt(st, BlockStmt(stmts), ret, order).Success?
    ensures var after := LowerStmt(st, BlockStmt(stmts), ret, order).value.instrs;
      var n := |st.instrs|;
      && |after| >= n + 2 && after[n] == BlockStart && after[|after| - 1] == BlockEnd
      && var dropped := DropsAt(after[n + 1..|after| - 1], 0);
         && NoDup(dropped)
         && (forall x :: x in dropped ==> x in DeclaredHere(stmts))
         && (forall x :: x in DeclaredHere(stmts) && x !in MovedIn(stmts) ==> x in dropped)
  {
    BlockStep(st, stmts, ret, order);
    var pushed := st.(instrs := st.instrs + [BlockStart], scopes := st.scopes + [{}]);
    StmtsSegment(pushed, stmts, ret, order);
    StmtsScopes(pushed, stmts, ret, order);
    var st1 := LowerStmts(pushed, stmts, ret, order).value;
    TopScope(st.scopes, st1.scopes, DeclaredHere(stmts), MovedIn(stmts));
    var names := order(|st1.instrs|, st1.scopes[|st.scopes|]);
    OrderEnumerates(order, |st1.instrs|, st1.scopes[|st.scopes|]);
    ExitDrops(st.instrs, st1.instrs, names, LetDeclsAll(stmts), ret);
  }

  /** The innermost set after a block's statements: its own declarations, less some moved ones. */
  lemma TopScope(before: seq<set<string>>, after: seq<set<string>>, declared: set<string>, moved: set<string>)
    requires ScopeEffect(before + [{}], after, declared, moved)
    ensures |after| == |before| + 1
    ensures after[|before|] <= declared && declared - moved <= after[|before|]
  {
    assert (before + [{}])[|before|] == {};
  }

  lemma OrderEnumerates(order: DropOrder, k: nat, s: set<string>)
    requires ValidOrder(order)
    ensures NoDup(order(k, s)) && forall x :: x in order(k, s) <==> x in s
  {
    assert IsEnumeration(s, order(k, s));
  }

  /** The drops at a block's own level are the ones appended at its exit. */
  lemma ExitDrops(before: seq<Instr>, mid: seq<Instr>, names: seq<string>, decls: set<(string, string)>, ret: string)
    requires Extends(before + [BlockStart], mid)
    requires Segment(mid[|before| + 1..], decls, ret)
    ensures var after := mid + DropsOf(names) + [BlockEnd];
      && |after| >= |before| + 2 && after[|before|] == BlockStart && after[|after| - 1] == BlockEnd
      && DropsAt(after[|before| + 1..|after| - 1], 0) == names
  {
    var n := |before|;
    var inner := mid[n + 1..];
    assert mid[n] == (before + [BlockStart])[n] by {
      assert mid[..n + 1] == before + [BlockStart];
    }
    InteriorSlice(mid, DropsOf(names), n + 1);
    BlockInterior(inner, names, decls, ret);
  }

  /** Cutting the closing bracket and a prefix off `mid + extra + [BlockEnd]`. */
  lemma InteriorSlice(mid: seq<Instr>, extra: seq<Instr>, m: nat)
    requires m <= |mid|
    ensures var after := mid + extra + [BlockEnd];
      after[m..|after| - 1] == mid[m..] + extra
  {
    var after := mid + extra + [BlockEnd];
    assert after[..|after| - 1] == mid + extra;
  }

  // ---------------------------------------------------------------------------
  // Exactly which names a block drops
  // ---------------------------------------------------------------------------

  /** A statement's effect on its block's set: its own declaration goes in, then what it moves comes out. */
  function LiveAfter(live: set<string>, s: Stmt): set<string>
  {
    (live + DeclaredBy(s)) - MovedBy(s)
  }

  /** The names left in a block's set after its statements, starting from `live`. */
  function LiveAtExit(live: set<string>, stmts: seq<Stmt>): set<string>
    decreases |stmts|
  {
    if stmts == [] then live else LiveAtExit(LiveAfter(live, stmts[0]), stmts[1..])
  }

  /** No set below index `m` holds a name of `moved`, so a retraction of one of them cannot stop there. */
  ghost predicate Clear(scopes: seq<set<string>>, m: int, moved: set<string>)
  {
    forall j, x :: 0 <= j < m && j < |scopes| && x in scopes[j] ==> x !in moved
  }

  /** A retraction that the sets below `m` cannot absorb leaves them alone and takes the name out of set `m`. */
  lemma {:induction false} RetractAt(scopes: seq<set<string>>, y: string, m: nat)
    requires m < |scopes|
    requires forall j :: 0 <= j < m ==> y !in scopes[j]
    ensures Retract(scopes, y)[..m] == scopes[..m]
    ensures Retract(scopes, y)[m] == scopes[m] - {y}
    decreases m
  {
    if m > 0 {
      assert y !in scopes[0];
      RetractAt(scopes[1..], y, m - 1);
      var r := Retract(scopes, y);
      assert r == [scopes[0]] + Retract(scopes[1..], y);
      assert r[..m] == [scopes[0]] + Retract(scopes[1..], y)[..m - 1];
      assert scopes[..m] == [scopes[0]] + scopes[1..][..m - 1];
    }
  }

  /**
   * Set `m`, strictly below the innermost, while a statement is lowered: only the names the
   * statement moves leave it, provided no set below it holds one of them; the sets below stay as they are.
   */
  lemma {:induction false} StmtBelow(st: LState, s: Stmt, ret: string, order: DropOrder, m: nat)
    requires LowerStmt(st, s, ret, order).Success?
    requires m + 1 < |st.scopes|
    requires Clear(st.scopes, m, MovedBy(s))
    ensures var sc := LowerStmt(st, s, ret, order).value.scopes;
      sc[..m] == st.scopes[..m] && sc[m] == st.scopes[m] - MovedBy(s)
    decreases s, 2
  {
    match s
    case LetStmt(name, typ, value) =>
      var st1 := RegisterLocal(st, name, typ);
      assert st1.scopes[..m + 1] == st.scopes[..m + 1];
      if value.MvExpr? {
        var y := value.inner.name;
        forall j | 0 <= j < m
          ensures y !in st1.scopes[j]
        {
          assert st1.scopes[j] == st.scopes[j];
        }
        RetractAt(st1.scopes, y, m);
      }
    case ReturnStmt(value) =>
      if value.MvExpr? {
        RetractAt(st.scopes, value.inner.name, m);
      }
    case BlockStmt(stmts) =>
      BlockStep(st, stmts, ret, order);
      var pushed := st.(instrs := st.instrs + [BlockStart], scopes := st.scopes + [{}]);
      assert pushed.scopes[..m + 1] == st.scopes[..m + 1];
      StmtsBelow(pushed, stmts, ret, order, m);
      var inner := LowerStmts(pushed, stmts, ret, order).value.scopes;
      assert inner[..|st.scopes|][..m] == inner[..m];
    case UnsupportedStmt(_) =>
  }

  lemma {:induction false} StmtsBelow(st: LState, stmts: seq<Stmt>, ret: string, order: DropOrder, m: nat)
    requires LowerStmts(st, stmts, ret, order).Success?
    requires m + 1 < |st.scopes|
    requires Clear(st.scopes, m, MovedIn(stmts))
    ensures var sc := LowerStmts(st, stmts, ret, order).value.scopes;
      sc[..m] == st.scopes[..m] && sc[m] == st.scopes[m] - MovedIn(stmts)
    decreases stmts, 0
  {
    if stmts != [] {
      var st1 := LowerStmt(st, stmts[0], ret, order).value;
      assert MovedIn(stmts) == MovedBy(stmts[0]) + MovedIn(stmts[1..]);
      StmtBelow(st, stmts[0], ret, order, m);
      assert forall j :: 0 <= j < m ==> st1.scopes[j] == st.scopes[..m][j];
      StmtsBelow(st1, stmts[1..], ret, order, m);
    }
  }

  /** The innermost set while a statement of its block is lowered changes as `LiveAfter` says. */
  lemma StmtTop(st: LState, s: Stmt, ret: string, order: DropOrder, m: nat)
    requires LowerStmt(st, s, ret, order).Success?
    requires m + 1 == |st.scopes|
    requires Clear(st.scopes, m, MovedBy(s))
    ensures var sc := LowerStmt(st, s, ret, order).value.scopes;
      sc[..m] == st.scopes[..m] && sc[m] == LiveAfter(st.scopes[m], s)
  {
    match s
    case LetStmt(name, typ, value) =>
      var st1 := RegisterLocal(st, name, typ);
      assert st1.scopes[..m] == st.scopes[..m];
      if value.MvExpr? {
        var y := value.inner.name;
        forall j | 0 <= j < m
          ensures y !in st1.scopes[j]
        {
          assert st1.scopes[j] == st.scopes[j];
        }
        RetractAt(st1.scopes, y, m);
      }
    case ReturnStmt(value) =>
      if value.MvExpr? {
        RetractAt(st.scopes, value.inner.name, m);
      }
    case BlockStmt(stmts) =>
      BlockStep(st, stmts, ret, order);
      var pushed := st.(instrs := st.instrs + [BlockStart], scopes := st.scopes + [{}]);
      assert pushed.scopes[..m + 1] == st.scopes[..m + 1];
      StmtsBelow(pushed, stmts, ret, order, m);
      var inner := LowerStmts(pushed, stmts, ret, order).value.scopes;
      assert inner[..|st.scopes|][..m] == inner[..m];
    case UnsupportedStmt(_) =>
  }

  /** The innermost set after a block's statements is `LiveAtExit` of what it held before. */
  lemma {:induction false} StmtsTop(st: LState, stmts: seq<Stmt>, ret: string, order: DropOrder, m: nat)
    requires LowerStmts(st, stmts, ret, order).Success?
    requires m + 1 == |st.scopes|
    requires Clear(st.scopes, m, MovedIn(stmts))
    ensures var sc := LowerStmts(st, stmts, ret, order).value.scopes;
      sc[..m] == st.scopes[..m] && sc[m] == LiveAtExit(st.scopes[m], stmts)
    decreases |stmts|
  {
    if stmts != [] {
      var st1 := LowerStmt(st, stmts[0], ret, order).value;
      assert MovedIn(stmts) == MovedBy(stmts[0]) + MovedIn(stmts[1..]);
      StmtTop(st, stmts[0], ret, order, m);
      assert forall j :: 0 <= j < m ==> st1.scopes[j] == st.scopes[..m][j];
      StmtsTop(st1, stmts[1..], ret, order, m);
    }
  }

  /**
   * When no enclosing open block holds a name the block moves, the Drops at the block's own
   * level list exactly the names its own statements leave live, each once: a name moved away
   * after its last declaration in the block is not dropped.
   */
  lemma BlockExitLive(st: LState, stmts: seq<Stmt>, ret: string, order: DropOrder)
    requires ValidOrder(order)
    requires LowerStmt(st, BlockStmt(stmts), ret, order).Success?
    requires Clear(st.scopes, |st.scopes|, MovedIn(stmts))
    ensures var after := LowerStmt(st, BlockStmt(stmts), ret, order).value.instrs;
      var n := |st.instrs|;
      && |after| >= n + 2
      && IsEnumeration(LiveAtExit({}, stmts), DropsAt(after[n + 1..|after| - 1], 0))
  {
    BlockStep(st, stmts, ret, order);
    var pushed := st.(instrs := st.instrs + [BlockStart], scopes := st.scopes + [{}]);
    StmtsSegment(pushed, stmts, ret, order);
    assert forall j :: 0 <= j < |st.scopes| ==> pushed.scopes[j] == st.scopes[j];
    StmtsTop(pushed, stmts, ret, order, |st.scopes|);
    var st1 := LowerStmts(pushed, stmts, ret, order).value;
    var names := order(|st1.instrs|, st1.scopes[|st.scopes|]);
    assert IsEnumeration(st1.scopes[|st.scopes|], names);
    ExitDrops(st.instrs, st1.instrs, names, LetDeclsAll(stmts), ret);
  }

  /** The Drops at a function body's own level list exactly the names its statements leave live. */
  lemma LowerFunctionDrops(f: Function, order: DropOrder)
    requires ValidOrder(order)
    requires LowerFunction(f, order).Success?
    ensures var instrs := LowerFunction(f, order).value.instrs;
      && |instrs| >= 2
      && IsEnumeration(LiveAtExit({}, f.body), DropsAt(instrs[1..|instrs| - 1], 0))
  {
    BlockExitLive(InitialLState(), f.body, f.returnType, order);
  }

  // ---------------------------------------------------------------------------
  // The locals list
  // ---------------------------------------------------------------------------

  /** The locals list and the type map name the same variables. */
  ghost predicate LocalsAgree(st: LState)
  {
    forall x :: x in st.locals <==> x in st.localTypes
  }

  lemma {:induction false} AddNamesConcat(acc: seq<string>, xs: seq<string>, ys: seq<string>)
    ensures AddNames(AddNames(acc, xs), ys) == AddNames(acc, xs + ys)
    decreases xs
  {
    if xs == [] {
      assert xs + ys == ys;
    } else {
      assert (xs + ys)[0] == xs[0] && (xs + ys)[1..] == xs[1..] + ys;
      AddNamesConcat(if xs[0] in acc then acc else acc + [xs[0]], xs[1..], ys);
    }
  }

  /**
   * First-seen accumulation keeps what was there in front, never repeats a name, and ends
   * up with exactly the names it started with or was given.
   */
  lemma {:induction false} AddNamesFacts(acc: seq<string>, xs: seq<string>)
    ensures |acc| <= |AddNames(acc, xs)| && AddNames(acc, xs)[..|acc|] == acc
    ensures NoDup(acc) ==> NoDup(AddNames(acc, xs))
    ensures forall x :: x in AddNames(acc, xs) <==> x in acc || x in xs
    decreases xs
  {
    if xs != [] {
      var acc1 := if xs[0] in acc then acc else acc + [xs[0]];
      AddNamesFacts(acc1, xs[1..]);
      assert acc1[..|acc|] == acc;
      assert AddNames(acc, xs)[..|acc|] == AddNames(acc, xs)[..|acc1|][..|acc|];
      assert forall x :: x in xs <==> x == xs[0] || x in xs[1..];
    }
  }

  lemma {:induction false} StmtLocals(st: LState, s: Stmt, ret: string, order: DropOrder)
    requires LocalsAgree(st)
    requires LowerStmt(st, s, ret, order).Success?
    ensures LocalsAgree(LowerStmt(st, s, ret, order).value)
    ensures LowerStmt(st, s, ret, order).value.locals == AddNames(st.locals, LetNames(s))
    decreases s, 2
  {
    match s
    case LetStmt(name, typ, value) =>
      assert LetNames(s)[1..] == [];
    case ReturnStmt(value) =>
    case BlockStmt(stmts) =>
      BlockStep(st, stmts, ret, order);
      var pushed := st.(instrs := st.instrs + [BlockStart], scopes := st.scopes + [{}]);
      StmtsLocals(pushed, stmts, ret, order);
  }

  lemma {:induction false} StmtsLocals(st: LState, stmts: seq<Stmt>, ret: string, order: DropOrder)
    requires LocalsAgree(st)
    requires LowerStmts(st, stmts, ret, order).Success?
    ensures LocalsAgree(LowerStmts(st, stmts, ret, order).value)
    ensures LowerStmts(st, stmts, ret, order).value.locals == AddNames(st.locals, LetNamesAll(stmts))
    decreases stmts, 0
  {
    if stmts != [] {
      var st1 := LowerStmt(st, stmts[0], ret, order).value;
      StmtLocals(st, stmts[0], ret, order);
      StmtsLocals(st1, stmts[1..], ret, order);
      AddNamesConcat(st.locals, LetNames(stmts[0]), LetNamesAll(stmts[1..]));
    }
  }

  /**
   * A lowered function's locals are its `let`-bound names in order of first declaration,
   * each once: a name re-declared in a nested block is not listed again, and names that
   * are only moved or returned are never listed.
   */
  lemma LowerFunctionLocals(f: Function, order: DropOrder)
    requires LowerFunction(f, order).Success?
    ensures var locals := LowerFunction(f, order).value.locals;
      && locals == AddNames([], LetNamesAll(f.body))
      && NoDup(locals)
      && forall x :: x in locals <==> x in LetNamesAll(f.body)
  {
    StmtLocals(InitialLState(), BlockStmt(f.body), f.returnType, order);
    AddNamesFacts([], LetNamesAll(f.body));
  }

  // ---------------------------------------------------------------------------
  // Retraction from the outermost scope, on an example
  // ---------------------------------------------------------------------------

  /** `let x: i32 = ow 1` at the top of the body. */
  lemma ScenarioOuterLet(order: DropOrder)
    ensures LowerStmt(LState([BlockStart], [], map[], [{}]), LetStmt("x", "i32", OwExpr(LiteralExpr(1))), "i32", order)
         == Success(LState([BlockStart, OwLiteral("x", Literal(1, "i32"))], ["x"], map["x" := "i32"], [{"x"}]))
  {
    var s0 := LState([BlockStart], [], map[], [{}]);
    assert RegisterLocal(s0, "x", "i32") == LState([BlockStart], ["x"], map["x" := "i32"], [{"x"}]) by {
      assert map[]["x" := "i32"] == map["x" := "i32"];
      assert {} + {"x"} == {"x"};
      assert [{}][0 := {} + {"x"}] == [{"x"}];
    }
    var r := LowerStmt(s0, LetStmt("x", "i32", OwExpr(LiteralExpr(1))), "i32", order);
    assert r.Success? && r.value.instrs == [BlockStart, OwLiteral("x", Literal(1, "i32"))];
  }

  /** The nested block's two statements: `x` shadowed, then moved into `y`. */
  lemma ScenarioInnerLets(order: DropOrder)
    ensures var s2 := LState([BlockStart, OwLiteral("x", Literal(1, "i32")), BlockStart], ["x"], map["x" := "i32"], [{"x"}, {}]);
      LowerStmts(s2, [LetStmt("x", "i32", OwExpr(LiteralExpr(2))), LetStmt("y", "i32", MvExpr(VarExpr("x")))], "i32", order)
      == Success(LState([BlockStart, OwLiteral("x", Literal(1, "i32")), BlockStart, OwLiteral("x", Literal(2, "i32")),
                         MvVar("y", "x", "i32")],
                        ["x", "y"], map["x" := "i32", "y" := "i32"], [{}, {"x", "y"}]))
  {
    var inner := [LetStmt("x", "i32", OwExpr(LiteralExpr(2))), LetStmt("y", "i32", MvExpr(VarExpr("x")))];
    var s2 := LState([BlockStart, OwLiteral("x", Literal(1, "i32")), BlockStart], ["x"], map["x" := "i32"], [{"x"}, {}]);
    var s3 := s2.(instrs := s2.instrs + [OwLiteral("x", Literal(2, "i32"))], scopes := [{"x"}, {"x"}]);
    assert RegisterLocal(s2, "x", "i32") == s3.(instrs := s2.instrs) by {
      assert {} + {"x"} == {"x"};
      assert [{"x"}, {}][1 := {} + {"x"}] == [{"x"}, {"x"}];
    }
    var r3 := LowerStmt(s2, inner[0], "i32", order);
    assert r3.Success? && r3.value.instrs == s3.instrs;
    assert r3 == Success(s3);
    var s4 := s3.(instrs := s3.instrs + [MvVar("y", "x", "i32")], locals := ["x", "y"],
                  localTypes := map["x" := "i32", "y" := "i32"], scopes := [{}, {"x", "y"}]);
    assert RegisterLocal(s3, "y", "i32") == s4.(instrs := s3.instrs, scopes := [{"x"}, {"x", "y"}]) by {
      assert map["x" := "i32"]["y" := "i32"] == map["x" := "i32", "y" := "i32"];
      assert {"x"} + {"y"} == {"x", "y"};
      assert [{"x"}, {"x"}][1 := {"x"} + {"y"}] == [{"x"}, {"x", "y"}];
    }
    assert Retract([{"x"}, {"x", "y"}], "x") == [{}, {"x", "y"}] by {
      assert {"x"} - {"x"} == {};
    }
    var r4 := LowerStmt(s3, inner[1], "i32", order);
    assert r4.Success? && r4.value.instrs == s4.instrs && r4.value.scopes == s4.scopes;
    assert r4 == Success(s4);
    assert LowerStmts(s4, inner[2..], "i32", order) == Success(s4);
    assert LowerStmts(s3, inner[1..], "i32", order) == Success(s4);
    assert LowerStmts(s2, inner, "i32", order) == Success(s4);
    assert s4.instrs == [BlockStart, OwLiteral("x", Literal(1, "i32")), BlockStart, OwLiteral("x", Literal(2, "i32")),
                         MvVar("y", "x", "i32")];
  }

  /** The nested block as a whole: its statements, then a Drop for each of `x` and `y`. */
  lemma ScenarioInnerBlock(order: DropOrder)
    ensures var s1 := LState([BlockStart, OwLiteral("x", Literal(1, "i32"))], ["x"], map["x" := "i32"], [{"x"}]);
      LowerStmt(s1, BlockStmt([LetStmt("x", "i32", OwExpr(LiteralExpr(2))), LetStmt("y", "i32", MvExpr(VarExpr("x")))]), "i32", order)
      == Success(LState([BlockStart, OwLiteral("x", Literal(1, "i32")), BlockStart, OwLiteral("x", Literal(2, "i32")),
                         MvVar("y", "x", "i32")] + DropsOf(order(5, {"x", "y"})) + [BlockEnd],
                        ["x", "y"], map["x" := "i32", "y" := "i32"], [{}]))
  {
    var inner := [LetStmt("x", "i32", OwExpr(LiteralExpr(2))), LetStmt("y", "i32", MvExpr(VarExpr("x")))];
    var s1 := LState([BlockStart, OwLiteral("x", Literal(1, "i32"))], ["x"], map["x" := "i32"], [{"x"}]);
    var s2 := LState([BlockStart, OwLiteral("x", Literal(1, "i32")), BlockStart], ["x"], map["x" := "i32"], [{"x"}, {}]);
    var s4 := LState([BlockStart, OwLiteral("x", Literal(1, "i32")), BlockStart, OwLiteral("x", Literal(2, "i32")),
                      MvVar("y", "x", "i32")], ["x", "y"], map["x" := "i32", "y" := "i32"], [{}, {"x", "y"}]);
    ScenarioInnerLets(order);
    assert s1.(instrs := s1.instrs + [BlockStart]).(scopes := s1.scopes + [{}]) == s2;
    assert LowerStmts(s2, inner, "i32", order) == Success(s4);
    assert |s4.instrs| == 5 && s4.scopes[1] == {"x", "y"} && s4.scopes[..1] == [{}];
    var s5 := s4.(instrs := s4.instrs + DropsOf(order(5, {"x", "y"})), scopes := [{}]);
    assert LowerBlock(s1.(instrs := s1.instrs + [BlockStart]), inner, "i32", order) == Success(s5);
  }

  /** The body block as a whole: the outer let, the nested block, no Drop of its own, then `}`. */
  lemma ScenarioBody(order: DropOrder)
    requires ValidOrder(order)
    ensures var body := [LetStmt("x", "i32", OwExpr(LiteralExpr(1))),
                         BlockStmt([LetStmt("x", "i32", OwExpr(LiteralExpr(2))),
                                    LetStmt("y", "i32", MvExpr(VarExpr("x")))])];
      LowerStmt(InitialLState(), BlockStmt(body), "i32", order)
      == Success(LState([BlockStart, OwLiteral("x", Literal(1, "i32")), BlockStart, OwLiteral("x", Literal(2, "i32")),
                         MvVar("y", "x", "i32")] + DropsOf(order(5, {"x", "y"})) + [BlockEnd, BlockEnd],
                        ["x", "y"], map["x" := "i32", "y" := "i32"], []))
  {
    var inner := [LetStmt("x", "i32", OwExpr(LiteralExpr(2))), LetStmt("y", "i32", MvExpr(VarExpr("x")))];
    var body := [LetStmt("x", "i32", OwExpr(LiteralExpr(1))), BlockStmt(inner)];
    var s0 := LState([BlockStart], [], map[], [{}]);
    var s1 := LState([BlockStart, OwLiteral("x", Literal(1, "i32"))], ["x"], map["x" := "i32"], [{"x"}]);
    ScenarioOuterLet(order);
    ScenarioInnerBlock(order);
    var names := order(5, {"x", "y"});
    var s5 := LState([BlockStart, OwLiteral("x", Literal(1, "i32")), BlockStart, OwLiteral("x", Literal(2, "i32")),
                      MvVar("y", "x", "i32")] + DropsOf(names) + [BlockEnd],
                     ["x", "y"], map["x" := "i32", "y" := "i32"], [{}]);
    assert LowerStmts(s5, body[2..], "i32", order) == Success(s5);
    assert LowerStmts(s1, body[1..], "i32", order) == Success(s5);
    assert LowerStmts(s0, body, "i32", order) == Success(s5);
    var rest := order(|s5.instrs|, {});
    EmptyEnumeration(rest);
    var init := InitialLState();
    assert init.(instrs := init.instrs + [BlockStart]).(scopes := init.scopes + [{}]) == s0;
    assert s5.instrs + DropsOf(rest) == s5.instrs;
    assert LowerBlock(init.(instrs := init.instrs + [BlockStart]), body, "i32", order) == Success(s5.(scopes := []));
    assert s5.instrs + [BlockEnd] == [BlockStart, OwLiteral("x", Literal(1, "i32")), BlockStart, OwLiteral("x", Literal(2, "i32")),
                                      MvVar("y", "x", "i32")] + DropsOf(names) + [BlockEnd, BlockEnd];
  }

  /**
   * `x` is declared in the body and again in a nested block, where it is moved into `y`.
   * The move retracts the outer `x` (the outermost set holding it), so the nested block
   * still drops its own, moved, `x`, and the body drops nothing.
   */
  lemma ShadowedMoveScenario(order: DropOrder)
    requires ValidOrder(order)
    ensures var f := Function("f", "i32", [
        LetStmt("x", "i32", OwExpr(LiteralExpr(1))),
        BlockStmt([LetStmt("x", "i32", OwExpr(LiteralExpr(2))),
                   LetStmt("y", "i32", MvExpr(VarExpr("x")))])]);
      LowerFunction(f, order)
      == Success(IRFunction("f", "i32", ["x", "y"],
                            [BlockStart, OwLiteral("x", Literal(1, "i32")), BlockStart, OwLiteral("x", Literal(2, "i32")),
                             MvVar("y", "x", "i32")] + DropsOf(order(5, {"x", "y"})) + [BlockEnd, BlockEnd]))
    ensures Drop("x") in DropsOf(order(5, {"x", "y"}))
  {
    ScenarioBody(order);
    var names := order(5, {"x", "y"});
    assert IsEnumeration({"x", "y"}, names);
    var k :| 0 <= k < |names| && names[k] == "x";
    assert DropsOf(names)[k] == Drop("x");
  }



  // ---------------------------------------------------------------------------
  // Moves that take a name out of the drops, on examples
  // ---------------------------------------------------------------------------

  /** A supported body that leaves nothing live lowers and drops nothing at its own level. */
  lemma NothingLiveNoDrops(f: Function, order: DropOrder)
    requires ValidOrder(order)
    requires SupportedAll(f.body) && LiveAtExit({}, f.body) == {}
    ensures LowerFunction(f, order).Success?
    ensures var instrs := LowerFunction(f, order).value.instrs;
      |instrs| >= 2 && DropsAt(instrs[1..|instrs| - 1], 0) == []
  {
    LowerFunctionOutcome(f, order);
    LowerFunctionDrops(f, order);
    var instrs := LowerFunction(f, order).value.instrs;
    EmptyEnumeration(DropsAt(instrs[1..|instrs| - 1], 0));
  }

  /** `let a: i32 = ow 10; return mv a;`: the body lowers and drops nothing at its own level. */
  lemma ReturnMoveScenario(order: DropOrder)
    requires ValidOrder(order)
    ensures var f := Function("f", "i32", [LetStmt("a", "i32", OwExpr(LiteralExpr(10))), ReturnStmt(MvExpr(VarExpr("a")))]);
      && LowerFunction(f, order).Success?
      && var instrs := LowerFunction(f, order).value.instrs;
         |instrs| >= 2 && DropsAt(instrs[1..|instrs| - 1], 0) == []
  {
    var body := [LetStmt("a", "i32", OwExpr(LiteralExpr(10))), ReturnStmt(MvExpr(VarExpr("a")))];
    assert Supported(body[0]) && Supported(body[1]);
    assert SupportedAll(body[2..]);
    assert LiveAtExit({}, body) == {} by {
      assert LiveAfter({}, body[0]) == {"a"};
      assert LiveAfter({"a"}, body[1]) == {};
      assert LiveAtExit({}, body) == LiveAtExit({"a"}, body[1..]);
      assert LiveAtExit({"a"}, body[1..]) == LiveAtExit({}, body[2..]);
    }
    NothingLiveNoDrops(Function("f", "i32", body), order);
  }

  /**
   * `{ let a: i32 = ow 1; { let b: i32 = mv a; } }`, in any context whose open blocks do not
   * hold `a`: the move in the nested block empties the outer block's set, so the outer block
   * drops nothing at its own level.
   */
  lemma NestedMoveScenario(st: LState, order: DropOrder)
    requires ValidOrder(order)
    requires forall j :: 0 <= j < |st.scopes| ==> "a" !in st.scopes[j]
    ensures var outer := BlockStmt([LetStmt("a", "i32", OwExpr(LiteralExpr(1))),
                                    BlockStmt([LetStmt("b", "i32", MvExpr(VarExpr("a")))])]);
      && LowerStmt(st, outer, "i32", order).Success?
      && var after := LowerStmt(st, outer, "i32", order).value.instrs;
         |after| >= |st.instrs| + 2 && DropsAt(after[|st.instrs| + 1..|after| - 1], 0) == []
  {
    var inner := [LetStmt("b", "i32", MvExpr(VarExpr("a")))];
    var stmts := [LetStmt("a", "i32", OwExpr(LiteralExpr(1))), BlockStmt(inner)];
    NestedMoveFacts();
    NothingLiveBlock(st, stmts, "i32", order);
  }

  /** The syntactic facts about the statements of the nested-move example. */
  lemma NestedMoveFacts()
    ensures var stmts := [LetStmt("a", "i32", OwExpr(LiteralExpr(1))),
                          BlockStmt([LetStmt("b", "i32", MvExpr(VarExpr("a")))])];
      SupportedAll(stmts) && MovedIn(stmts) == {"a"} && LiveAtExit({}, stmts) == {}
  {
    var inner := [LetStmt("b", "i32", MvExpr(VarExpr("a")))];
    var stmts := [LetStmt("a", "i32", OwExpr(LiteralExpr(1))), BlockStmt(inner)];
    assert Supported(inner[0]) && SupportedAll(inner[1..]) && SupportedAll(inner);
    assert Supported(stmts[0]) && Supported(stmts[1]) && SupportedAll(stmts[2..]);
    assert MovedIn(inner) == {"a"} by {
      assert MovedIn(inner) == MovedBy(inner[0]) + MovedIn(inner[1..]);
    }
    assert MovedIn(stmts) == {"a"} by {
      assert MovedIn(stmts) == MovedBy(stmts[0]) + MovedIn(stmts[1..]);
      assert MovedIn(stmts[1..]) == MovedBy(stmts[1]) + MovedIn(stmts[2..]);
    }
    assert LiveAtExit({}, stmts) == {} by {
      assert LiveAfter({}, stmts[0]) == {"a"};
      assert LiveAfter({"a"}, stmts[1]) == {};
      assert LiveAtExit({}, stmts) == LiveAtExit({"a"}, stmts[1..]);
      assert LiveAtExit({"a"}, stmts[1..]) == LiveAtExit({}, stmts[2..]);
    }
  }

  /** A supported block that leaves nothing live, and moves nothing an open block holds, drops nothing at its own level. */
  lemma NothingLiveBlock(st: LState, stmts: seq<Stmt>, ret: string, order: DropOrder)
    requires ValidOrder(order)
    requires SupportedAll(stmts) && LiveAtExit({}, stmts) == {}
    requires forall j, x :: 0 <= j < |st.scopes| && x in st.scopes[j] ==> x !in MovedIn(stmts)
    ensures LowerStmt(st, BlockStmt(stmts), ret, order).Success?
    ensures var after := LowerStmt(st, BlockStmt(stmts), ret, order).value.instrs;
      |after| >= |st.instrs| + 2 && DropsAt(after[|st.instrs| + 1..|after| - 1], 0) == []
  {
    StmtOutcome(st, BlockStmt(stmts), ret, order);
    BlockExitLive(st, stmts, ret, order);
    var after := LowerStmt(st, BlockStmt(stmts), ret, order).value.instrs;
    EmptyEnumeration(DropsAt(after[|st.instrs| + 1..|after| - 1], 0));
  }

  /** The nested block of `let x: i32 = ow 1; { let y: i32 = mv x; }`: it drops `y`, and `x` leaves the outer set. */
  lemma ScenarioMoveIntoBlock(order: DropOrder)
    requires ValidOrder(order)
    ensures LowerStmt(LState([BlockStart, OwLiteral("x", Literal(1, "i32"))], ["x"], map["x" := "i32"], [{"x"}]),
                      BlockStmt([LetStmt("y", "i32", MvExpr(VarExpr("x")))]), "i32", order)
         == Success(LState([BlockStart, OwLiteral("x", Literal(1, "i32")), BlockStart, MvVar("y", "x", "i32"),
                            Drop("y"), BlockEnd],
                           ["x", "y"], map["x" := "i32", "y" := "i32"], [{}]))
  {
    var inner := [LetStmt("y", "i32", MvExpr(VarExpr("x")))];
    var s1 := LState([BlockStart, OwLiteral("x", Literal(1, "i32"))], ["x"], map["x" := "i32"], [{"x"}]);
    var t0 := LState([BlockStart, OwLiteral("x", Literal(1, "i32")), BlockStart], ["x"], map["x" := "i32"], [{"x"}, {}]);
    assert s1.(instrs := s1.instrs + [BlockStart]).(scopes := s1.scopes + [{}]) == t0;
    var t1 := LState([BlockStart, OwLiteral("x", Literal(1, "i32")), BlockStart, MvVar("y", "x", "i32")],
                     ["x", "y"], map["x" := "i32", "y" := "i32"], [{}, {"y"}]);
    assert RegisterLocal(t0, "y", "i32") == t1.(instrs := t0.instrs, scopes := [{"x"}, {"y"}]) by {
      assert map["x" := "i32"]["y" := "i32"] == map["x" := "i32", "y" := "i32"];
      assert {} + {"y"} == {"y"};
      assert [{"x"}, {}][1 := {} + {"y"}] == [{"x"}, {"y"}];
    }
    assert Retract([{"x"}, {"y"}], "x") == [{}, {"y"}] by {
      assert {"x"} - {"x"} == {};
    }
    var r := LowerStmt(t0, inner[0], "i32", order);
    assert r.Success? && r.value.instrs == t1.instrs && r.value.scopes == t1.scopes;
    assert r == Success(t1);
    assert LowerStmts(t1, inner[1..], "i32", order) == Success(t1);
    assert LowerStmts(t0, inner, "i32", order) == Success(t1);
    SingletonEnumeration("y", order(4, {"y"}));
    assert t1.scopes[1] == {"y"} && t1.scopes[..1] == [{}];
    assert t1.instrs + DropsOf(["y"]) + [BlockEnd] == [BlockStart, OwLiteral("x", Literal(1, "i32")), BlockStart,
                                                       MvVar("y", "x", "i32"), Drop("y"), BlockEnd];
  }

  /** The body of `let x: i32 = ow 1; { let y: i32 = mv x; }` lowered from the empty state. */
  lemma ScenarioMoveIntoBlockBody(order: DropOrder)
    requires ValidOrder(order)
    ensures var body := [LetStmt("x", "i32", OwExpr(LiteralExpr(1))),
                         BlockStmt([LetStmt("y", "i32", MvExpr(VarExpr("x")))])];
      LowerStmt(InitialLState(), BlockStmt(body), "i32", order)
      == Success(LState([BlockStart, OwLiteral("x", Literal(1, "i32")), BlockStart, MvVar("y", "x", "i32"),
                         Drop("y"), BlockEnd, BlockEnd], ["x", "y"], map["x" := "i32", "y" := "i32"], []))
  {
    var body := [LetStmt("x", "i32", OwExpr(LiteralExpr(1))), BlockStmt([LetStmt("y", "i32", MvExpr(VarExpr("x")))])];
    var s0 := LState([BlockStart], [], map[], [{}]);
    var s1 := LState([BlockStart, OwLiteral("x", Literal(1, "i32"))], ["x"], map["x" := "i32"], [{"x"}]);
    ScenarioOuterLet(order);
    ScenarioMoveIntoBlock(order);
    var s2 := LState([BlockStart, OwLiteral("x", Literal(1, "i32")), BlockStart, MvVar("y", "x", "i32"),
                      Drop("y"), BlockEnd], ["x", "y"], map["x" := "i32", "y" := "i32"], [{}]);
    assert LowerStmts(s2, body[2..], "i32", order) == Success(s2);
    assert LowerStmts(s1, body[1..], "i32", order) == Success(s2);
    assert LowerStmts(s0, body, "i32", order) == Success(s2);
    var rest := order(|s2.instrs|, {});
    EmptyEnumeration(rest);
    var init := InitialLState();
    assert init.(instrs := init.instrs + [BlockStart]).(scopes := init.scopes + [{}]) == s0;
    assert s2.instrs + DropsOf(rest) == s2.instrs;
    assert LowerBlock(init.(instrs := init.instrs + [BlockStart]), body, "i32", order) == Success(s2.(scopes := []));
    assert s2.instrs + [BlockEnd] == [BlockStart, OwLiteral("x", Literal(1, "i32")), BlockStart, MvVar("y", "x", "i32"),
                                      Drop("y"), BlockEnd, BlockEnd];
  }

  /**
   * `let x: i32 = ow 1; { let y: i32 = mv x; }` lowered: the nested block drops `y`; the move
   * took `x` out of the body's set, so no `drop x` appears anywhere.
   */
  lemma MoveIntoBlockScenario(order: DropOrder)
    requires ValidOrder(order)
    ensures var f := Function("f", "i32", [LetStmt("x", "i32", OwExpr(LiteralExpr(1))),
                                            BlockStmt([LetStmt("y", "i32", MvExpr(VarExpr("x")))])]);
      LowerFunction(f, order)
      == Success(IRFunction("f", "i32", ["x", "y"],
                            [BlockStart, OwLiteral("x", Literal(1, "i32")), BlockStart, MvVar("y", "x", "i32"),
                             Drop("y"), BlockEnd, BlockEnd]))
    ensures Drop("x") !in [BlockStart, OwLiteral("x", Literal(1, "i32")), BlockStart, MvVar("y", "x", "i32"),
                           Drop("y"), BlockEnd, BlockEnd]
  {
    ScenarioMoveIntoBlockBody(order);
  }

  /** The body of `let x: i32 = ow 1; let y: i32 = mv x; return mv y;` lowered from the empty state. */
  lemma ScenarioMoveThenReturnBody(order: DropOrder)
    requires ValidOrder(order)
    ensures var body := [LetStmt("x", "i32", OwExpr(LiteralExpr(1))), LetStmt("y", "i32", MvExpr(VarExpr("x"))),
                         ReturnStmt(MvExpr(VarExpr("y")))];
      LowerStmt(InitialLState(), BlockStmt(body), "i32", order)
      == Success(LState([BlockStart, OwLiteral("x", Literal(1, "i32")), MvVar("y", "x", "i32"),
                         Return(VarRef("y", "i32")), BlockEnd], ["x", "y"], map["x" := "i32", "y" := "i32"], []))
  {
    var body := [LetStmt("x", "i32", OwExpr(LiteralExpr(1))), LetStmt("y", "i32", MvExpr(VarExpr("x"))),
                 ReturnStmt(MvExpr(VarExpr("y")))];
    var s0 := LState([BlockStart], [], map[], [{}]);
    var s1 := LState([BlockStart, OwLiteral("x", Literal(1, "i32"))], ["x"], map["x" := "i32"], [{"x"}]);
    ScenarioOuterLet(order);
    var s2 := LState([BlockStart, OwLiteral("x", Literal(1, "i32")), MvVar("y", "x", "i32")],
                     ["x", "y"], map["x" := "i32", "y" := "i32"], [{"y"}]);
    assert RegisterLocal(s1, "y", "i32") == s2.(instrs := s1.instrs, scopes := [{"x", "y"}]) by {
      assert map["x" := "i32"]["y" := "i32"] == map["x" := "i32", "y" := "i32"];
      assert {"x"} + {"y"} == {"x", "y"};
      assert [{"x"}][0 := {"x"} + {"y"}] == [{"x", "y"}];
    }
    assert Retract([{"x", "y"}], "x") == [{"y"}] by {
      assert {"x", "y"} - {"x"} == {"y"};
    }
    var r2 := LowerStmt(s1, body[1], "i32", order);
    assert r2.Success? && r2.value.instrs == s2.instrs && r2.value.scopes == s2.scopes;
    assert r2 == Success(s2);
    var s3 := s2.(instrs := s2.instrs + [Return(VarRef("y", "i32"))], scopes := [{}]);
    assert Retract([{"y"}], "y") == [{}] by {
      assert {"y"} - {"y"} == {};
    }
    assert LowerStmt(s2, body[2], "i32", order) == Success(s3);
    assert LowerStmts(s3, body[3..], "i32", order) == Success(s3);
    assert LowerStmts(s2, body[2..], "i32", order) == Success(s3);
    assert LowerStmts(s1, body[1..], "i32", order) == Success(s3);
    assert LowerStmts(s0, body, "i32", order) == Success(s3);
    var rest := order(|s3.instrs|, {});
    EmptyEnumeration(rest);
    var init := InitialLState();
    assert init.(instrs := init.instrs + [BlockStart]).(scopes := init.scopes + [{}]) == s0;
    assert s3.instrs + DropsOf(rest) == s3.instrs;
    assert LowerBlock(init.(instrs := init.instrs + [BlockStart]), body, "i32", order) == Success(s3.(scopes := []));
    assert s3.instrs + [BlockEnd] == [BlockStart, OwLiteral("x", Literal(1, "i32")), MvVar("y", "x", "i32"),
                                      Return(VarRef("y", "i32")), BlockEnd];
  }

  /** `let x: i32 = ow 1; let y: i32 = mv x; return mv y;` lowered: both moves leave nothing to drop. */
  lemma MoveThenReturnLowering(order: DropOrder)
    requires ValidOrder(order)
    ensures var f := Function("main", "i32", [LetStmt("x", "i32", OwExpr(LiteralExpr(1))),
                                               LetStmt("y", "i32", MvExpr(VarExpr("x"))),
                                               ReturnStmt(MvExpr(VarExpr("y")))]);
      LowerFunction(f, order)
      == Success(IRFunction("main", "i32", ["x", "y"],
                            [BlockStart, OwLiteral("x", Literal(1, "i32")), MvVar("y", "x", "i32"),
                             Return(VarRef("y", "i32")), BlockEnd]))
  {
    ScenarioMoveThenReturnBody(order);
  }
}
