# Cerberus lowering and ownership checking, modelled in Dafny

This project models the two middle stages of the Cerberus compiler.

* **Lowering** (`src/fates.py`). It turns a parsed function into a flat list of IR
  instructions: `ow_literal`, `mv_var`, `return`, `drop`, and the block brackets `{` and `}`.
  - It keeps four pieces of mutable state: the instruction list, the function-wide locals,
    the name-to-type map, and a stack with one set of names per open block.
  - `let x = ow <literal>` and `let x = mv <variable>` declare `x` in the innermost block.
  - A move (`let _ = mv x` or `return mv x`) removes `x` from the first set, scanning from
    the outermost block, that holds it.
  - When a block closes, every name left in its set gets a `drop`, in the unspecified order
    in which Python iterates the set.
  - `ow` accepts only a literal and `mv` only a variable. Any other shape is a semantic
    error, and an unknown statement kind is "not implemented".
* **The ownership checker "Nemesis"** (`src/nemesis.py`). It walks each lowered function
  once, with every local starting out uninitialised. It tracks each name as uninitialised,
  alive or moved, and stops at the first violation: a move of an unknown, uninitialised or
  already-moved name; a use or return of a moved or uninitialised name; or an instruction
  kind it does not handle.

## Structure

Each stage is modelled twice, and the two are proved equal:

* **Pure reference definitions:** `LoweringSpec`, `OwnershipSpec`, and in `Ir` the rendering
  done by `ir_pretty`.
* **Imperative versions in the source's own form:** `Fates.Lowerer` is a class whose fields
  are the four pieces of lowering state, updated in place by its methods. `Nemesis.Checker`
  is a class whose state map is updated in place by one method per rule. The loops of
  `lower_program`, `_lower_block_content`, `check_function` and `check_program` are `while`
  or `for` loops.
* **Lemmas:** `LoweringProofs` and `OwnershipProofs` state what the two passes guarantee.

What lowering guarantees:

* It succeeds exactly on the supported statement shapes. A failure reports the first error
  in source order: an unknown statement kind, or the validation error of the first ill-formed
  `ow`/`mv` value, with its `let` or `return` context.
* Its output has balanced brackets that nest as deeply as the source's blocks.
* At each block exit it drops each name at most once. It drops only names declared directly
  in that block, and every such name that nothing inside the block moves.
* When no enclosing open block holds a name moved inside the block, it drops exactly the names
  the block's statements leave live. A `let` makes its name live and a move kills its source,
  in statement order, and a nested block kills every name it moves. This is always the case
  for a function's body. Otherwise the outer declaration may be retracted instead, as below.
* The locals are the `let` names in order of first declaration, without repeats.

What the checker guarantees:

* It accepts exactly the instruction sequences in which every step is admissible under an
  independent statement of the ownership discipline.
* A rejection names the first offending instruction.

**A behaviour of the lowering that the model makes explicit.** The retraction after a move
scans the scope stack from the outermost block. So when a nested block shadows a name and
then moves it, it is the *outer* declaration that stops being dropped, while the nested
block still drops its own, moved, copy. `LoweringProofs.ShadowedMoveScenario` gives the exact
lowering of such a function.

## Model

| member | source | states |
|---|---|---|
| LoweringSpec.ValidateOwExpr | src/fates.py:153-177 | passes exactly on a literal; a variable gets the "use mv" error naming it; any other kind gets the non-literal error naming its kind |
| LoweringSpec.ValidateMvExpr | src/fates.py:180-204 | passes exactly on a variable; a literal gets the "use ow" error carrying its value; any other kind gets the non-variable error naming its kind |
| LoweringSpec.RetractOutermost | src/fates.py:323-327 | when some set holds the moved name, only the outermost such set changes, and it loses only that name |
| LoweringSpec.RetractAbsent | src/fates.py:323-327 | when no open block holds the moved name, the scope stack is unchanged |
| LoweringSpec.LowerStmt | src/fates.py:272-396 | lowering a statement leaves as many blocks open as before |
| LoweringSpec.LowerBlock | src/fates.py:244-270 | a block pops exactly the set it pushed |
| LoweringSpec.LowerStmts | src/fates.py:260-263 | lowering a statement list leaves the scope depth unchanged |
| LoweringProofs.StmtOutcome | src/fates.py:272-396 | a statement lowers without error exactly when it and every nested statement is a supported shape with `ow literal`/`mv variable` values; any error is a semantic or not-implemented error, never an internal one |
| LoweringProofs.BlockOutcome | src/fates.py:244-270 | a block lowers exactly when all its statements are supported; errors are user errors |
| LoweringProofs.StmtsOutcome | src/fates.py:260-263 | the statement loop succeeds exactly when every statement is supported; errors are user errors |
| LoweringProofs.LowerFunctionOutcome | src/fates.py:218-241 | `lower_function` succeeds exactly when the body is supported; the scope-stack sanity error never happens |
| LoweringProofs.StmtFirstError | src/fates.py:293-396 | a statement fails exactly when it has an error, and then with its first one in source order: the unknown kind, or the `ow`/`mv` validation error of the first ill-formed value with its `let NAME` or `return` context |
| LoweringProofs.BlockFirstError | src/fates.py:244-270 | a block fails exactly with the first error among its statements, in order |
| LoweringProofs.StmtsFirstError | src/fates.py:260-263 | the statement loop stops at the first statement that fails, with that statement's error |
| LoweringProofs.LowerFunctionFirstError | src/fates.py:218-241 | `lower_function` fails exactly with the first error of its body in source order |
| LoweringProofs.StmtSegment | src/fates.py:272-396 | a statement only appends instructions. The appended part has balanced brackets, has no Drop outside them, carries the declared type tags, and nests exactly as deep as the statement's blocks |
| LoweringProofs.BlockStmtSegment | src/fates.py:383-393 | a block appends `{`, its contents and `}`. The part is balanced, nests one deeper than its statements, and has no Drop outside it |
| LoweringProofs.StmtsSegment | src/fates.py:260-263 | the statement loop appends a balanced, well-tagged segment as deep as the deepest statement |
| LoweringProofs.LowerFunctionShape | src/fates.py:218-241 | a lowered body starts with `{` and ends with `}`. Its brackets are balanced, its peak depth is one plus the body's block nesting, no Drop lies outside the outer brackets, and every instruction carries a declared or the return type |
| LoweringProofs.RegisterLocalScopes | src/fates.py:283-291 | a declaration adds its name to the innermost open set and changes no other set |
| LoweringProofs.RetractScopes | src/fates.py:323-327 | a retraction only removes the moved name, and changes at most one set |
| LoweringProofs.StmtScopes | src/fates.py:272-396 | a statement adds to the innermost set only the name it declares, removes only names it moves, and leaves other sets no larger |
| LoweringProofs.BlockStmtScopes | src/fates.py:244-270 | a nested block leaves the enclosing sets no larger, and removes from them only names moved inside it |
| LoweringProofs.StmtsScopes | src/fates.py:260-263 | the statement loop adds to the innermost set only names declared directly in the list, keeps there every such name it does not move, and removes from any set only names it moves; started on a fresh block's empty set, that set ends holding only declared names, including every declared name that is never moved |
| LoweringProofs.BlockExitDrops | src/fates.py:265-267 | at a block's exit, the Drops at its own level name each name at most once. They name only names declared directly in the block, and include every such name not moved anywhere inside it |
| LoweringProofs.StmtLocals | src/fates.py:283-291 | a statement extends the locals by its `let` names not already present, in order, and keeps the locals and the type map in agreement |
| LoweringProofs.StmtsLocals | src/fates.py:260-263 | the statement loop extends the locals by the new `let` names in source order |
| LoweringProofs.LowerFunctionLocals | src/fates.py:218-241 | a function's locals are its `let` names in order of first declaration, with no repeats, and no other names |
| LoweringProofs.StmtsBelow | src/fates.py:319-327 | for an open set other than the innermost, when no set before it holds a name the statements move, the statement loop leaves the sets before it unchanged and removes from it exactly the moved names |
| LoweringProofs.StmtsTop | src/fates.py:283-291 | when no outer set holds a name the statements move, the statement loop leaves every outer set unchanged and the innermost set holding exactly the names its statements leave live |
| LoweringProofs.BlockExitLive | src/fates.py:265-267 | when no enclosing open block holds a name moved inside the block, the Drops at the block's own level name, each once, exactly the names its statements leave live |
| LoweringProofs.LowerFunctionDrops | src/fates.py:218-241 | a lowered body's own-level Drops name, each once, exactly the names its statements leave live |
| LoweringProofs.NothingLiveNoDrops | src/fates.py:265-267 | a supported body that leaves nothing live lowers and drops nothing at its own level |
| LoweringProofs.NothingLiveBlock | src/fates.py:265-267 | a supported block that leaves nothing live, and moves no name an open block holds, drops nothing at its own level |
| LoweringProofs.ReturnMoveScenario | src/fates.py:352-361 | `let a = ow 10; return mv a;` lowers, and its body emits no Drop, so no `drop a` |
| LoweringProofs.NestedMoveScenario | src/fates.py:319-327 | `{ let a = ow 1; { let b = mv a; } }`, in any context not holding `a`, lowers, and the outer block emits no Drop at its own level |
| LoweringProofs.MoveIntoBlockScenario | src/fates.py:319-327 | the exact lowering of `let x = ow 1; { let y = mv x; }`: the nested block drops `y`, and no `drop x` appears |
| LoweringProofs.MoveThenReturnLowering | src/fates.py:341-361 | the exact lowering of `let x = ow 1; let y = mv x; return mv y;`, with no Drop |
| LoweringProofs.ShadowedMoveScenario | src/fates.py:319-327 | for `let x = ow 1; { let x = ow 2; let y = mv x; }` the exact instruction list and locals. The nested block drops both `x` and `y`, and the body drops nothing |
| Ir.DropsOf | src/fates.py:266-267 | one Drop per remaining name, in iteration order |
| Ir.DropsOfShape | src/fates.py:266-267 | the emitted Drops leave the nesting depth unchanged at every point, and at the block's own level drop exactly the names given, in order |
| Ir.NatToString | src/fates.py:125 | the decimal digits of a natural number read back as that number |
| Ir.IntToString | src/fates.py:125 | the rendering of an integer is non-empty, has no line break, and starts with `-` exactly for negative values |
| Ir.Render | src/fates.py:123-145 | an instruction's line is `{` exactly for BlockStart and `}` exactly for BlockEnd, and has no line break when the names in it have none |
| Ir.SplitJoin | src/fates.py:146 | splitting the joined lines at line breaks gives the lines back |
| Ir.PrettyLines | src/fates.py:121-146 | the printed text splits into one line per instruction, in order, each that instruction's line; `{` and `}` lines mark exactly the brackets |
| Fates.Lowerer.constructor | src/fates.py:220-228 | the lowering state starts with no instructions, no locals and no open block |
| Fates.Lowerer.RegisterLocal | src/fates.py:283-291 | updates the fields in place to exactly the reference `register_local` state |
| Fates.Lowerer.RetractFromScopes | src/fates.py:323-327 | the in-place scan leaves the scope stack as the reference retraction and changes nothing else |
| Fates.Lowerer.LowerStmt | src/fates.py:272-396 | on success the fields hold the reference lowering of the statement; on failure it reports the reference error |
| Fates.Lowerer.LowerBlockContent | src/fates.py:244-270 | push, loop, drops and pop leave the fields as the reference block lowering, or report its error |
| Fates.Lowerer.LowerStatements | src/fates.py:260-263 | the loop over a block's statements computes the reference statement-list lowering, stopping at the first error |
| Fates.Lowerer.EmitDrops | src/fates.py:266-267 | appends one Drop per name, in order, and changes no other field |
| Fates.LowerFunction | src/fates.py:218-241 | returns exactly the reference lowering of the function |
| Fates.LowerProgram | src/fates.py:211-215 | succeeds exactly when every function lowers, each with its own drop order, keeping the results in order; otherwise it reports the first failing function's error |
| OwnershipSpec.InitialStates | src/nemesis.py:53 | every local, and no other name, starts uninitialised |
| OwnershipSpec.OwLiteralRule | src/nemesis.py:71-78 | the target becomes alive whatever it was; no other entry changes |
| OwnershipSpec.MvVarRule | src/nemesis.py:81-109 | accepts exactly when the source is alive. It reports unknown, uninitialised and already-moved sources in that order. On success the source is moved and the target alive (the target wins when they coincide); nothing else changes |
| OwnershipSpec.AssignRule | src/nemesis.py:112-137 | rejects exactly a variable operand that is moved or uninitialised, with the matching error; a name with no entry passes. The target becomes alive and nothing else changes |
| OwnershipSpec.ReturnRule | src/nemesis.py:140-166 | rejects exactly a returned variable that is moved or uninitialised. An accepted variable becomes moved, gaining an entry if it had none; a literal changes nothing |
| OwnershipProofs.StepAgrees | src/nemesis.py:55-65 | one step passes exactly on admissible instructions, applies their effect, and tags an error with the function and instruction |
| OwnershipProofs.RunAdmissible | src/nemesis.py:55-65 | the loop accepts exactly when every instruction is admissible in the state its predecessors lead to. It then ends in the composed effect; otherwise it reports the first inadmissible instruction |
| OwnershipProofs.RunStopsAt | src/nemesis.py:55-65 | a run whose first violation is at position k reports the step error of instruction k |
| OwnershipProofs.CheckAdmissible | src/nemesis.py:51-65 | `check_function` is sound and complete for the discipline starting from all locals uninitialised; a rejection names the function and the first offending instruction |
| OwnershipProofs.LoweredAlwaysRejected | src/nemesis.py:55-65 | every successfully lowered function is rejected at its opening BlockStart as an unknown instruction |
| OwnershipProofs.Erase | src/nemesis.py:55-65 | keeps exactly the ownership-moving instructions, with no Drop or bracket left |
| OwnershipProofs.EraseConcat | src/nemesis.py:55-65 | erasing distributes over concatenation |
| OwnershipProofs.EraseAround | src/nemesis.py:55-65 | erasing keeps the remaining instructions in order and with their multiplicity; an instruction disappears exactly when it is a Drop or a bracket |
| OwnershipProofs.RunCorrectedErases | src/nemesis.py:55-65 | the checker that skips Drops and brackets runs exactly like the checker as written on the erased sequence |
| OwnershipProofs.CheckCorrectedErases | src/nemesis.py:55-65 | the corrected checker judges a function by the as-written rules on its ownership instructions and never reports an unknown instruction |
| OwnershipProofs.RunNoUnknown | src/nemesis.py:55-65 | on instructions with no Drop and no bracket, the checker as written never reports an unknown instruction |
| OwnershipProofs.MoveThenReturnChecks | src/nemesis.py:55-65 | the five-instruction function of the move-then-return program is rejected as written at `{` and accepted by the corrected checker |
| OwnershipProofs.MoveThenReturnScenario | src/nemesis.py:55-65 | `let x = ow 1; let y = mv x; return mv y;`, lowered under any drop order, is rejected as written at `{` and accepted by the corrected checker |
| OwnershipProofs.CheckAllFirstFailure | src/nemesis.py:43-45 | a program is accepted exactly when every function is; otherwise the error is that of the first rejected function in list order |
| Nemesis.Checker.constructor | src/nemesis.py:53 | the state map starts as every local uninitialised |
| Nemesis.Checker.CheckOwLiteral | src/nemesis.py:71-78 | updates the state in place exactly as the `ow` rule |
| Nemesis.Checker.CheckMvVar | src/nemesis.py:81-109 | updates the state in place exactly as the `mv` rule. On a violation the state is untouched and the error carries the rule's reason, the function and the instruction |
| Nemesis.Checker.CheckAssign | src/nemesis.py:112-137 | updates the state in place exactly as the assignment rule, or reports its error without changing the state |
| Nemesis.Checker.CheckReturn | src/nemesis.py:140-166 | updates the state in place exactly as the return rule, or reports its error without changing the state |
| Nemesis.Checker.CheckInstr | src/nemesis.py:55-65 | one dispatch step has exactly the effect or error of the reference step |
| Nemesis.CheckFunction | src/nemesis.py:51-65 | the loop over instructions gives exactly the reference verdict of `check_function` |
| Nemesis.CheckProgram | src/nemesis.py:43-45 | gives the reference verdict of `check_program`. It accepts exactly when every function is accepted |

## Left out

- The parser (`src/parser.py`), the driver (`src/main.py`) and the translation of the IR into target source text are not part of this model. Nothing here reads files, prints or exits.
- Function parameters are not modelled, because lowering never reads them. A type annotation is modelled as its type name.
- The `context` argument of `_lower_stmt` and `_lower_block_content` is not modelled, because neither reads it.
- Error message texts are not reproduced. Each error is a constructor carrying the data its message interpolates: the name, the literal's value, or the expression kind. `NemesisError.__str__` and the `repr` of the offending instruction are not modelled.
- Python's iteration order over a block's remaining set is unspecified, because string hashing is randomised per process. It is a parameter `order`, consulted with the number of instructions emitted so far. The lemmas assume only that it enumerates the set without repeats.
- The "Internal error: OwExpr/MvExpr with ..." branches (src/fates.py:310, 329, 363, 371) are kept in the reference lowering and proved never to be taken (`StmtOutcome`). The imperative `Fates.Lowerer.LowerStmt` does not spell them out.
- The `<unknown instr>` line of `ir_pretty` (src/fates.py:144-145) and the "Unknown return operand type" error (src/nemesis.py:167-168) are left out, because the instruction and operand types here are closed and these branches cannot be reached.
- LoweringProofs.BlockExitLive: the exact set of dropped names is stated only when no enclosing open block holds a name moved inside the block. Otherwise only the bounds of `BlockExitDrops` are stated; `ShadowedMoveScenario` gives such a case exactly.
- Ir.Render: its contract states only the bracket lines and the absence of line breaks; the text of the other lines is given by its definition.
- Python exception classes are modelled as the error arm of a result, and the first exception raised is the reported error.

## Findings

The described behaviour of the toolchain has a program that moves a variable and then uses it
rejected at that use. The checker as written rejects such a program earlier, at the opening
bracket of the function, and would reject any lowered function the same way. The classes in
`Nemesis` model the checker as written. `OwnershipSpec.CheckCorrected` is the corrected
checker.

| source | as written | input that shows it | evidently intended | confidence | as-written member | corrected member |
|---|---|---|---|---|---|---|
| src/nemesis.py:55-65 | `check_function` handles only `ow_literal`, `mv_var`, assignment and `return`. It rejects every other instruction as unknown, including the `{`, `}` and `drop` that lowering always emits, so every lowered function is rejected at its first instruction | a function `main` whose body is `let x: i32 = ow 1; let y: i32 = mv x; return mv y;`, lowered and then checked | brackets and drops move no ownership and are skipped, so the function above is accepted | not executed | OwnershipProofs.LoweredAlwaysRejected | OwnershipProofs.CheckCorrectedErases |
