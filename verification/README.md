# A model of ProtoScript2 and its proofs

This project models three parts of ProtoScript2 in Dafny and proves what they promise.

**The compiler's middle end.** `c/frontend.c` lowers structured code to basic blocks; `src/optimizer.js`
inlines calls, folds constants and drops repeated checks. `Source.dfy` gives the int/bool fragment of
the language the meaning the reference manual describes: lexical scopes, evaluation from left to
right, short-circuit logic, checked arithmetic. `Ir.dfy` gives instructions and block graphs a
small-step meaning. Runs take fuel: the source pays for loop rounds, the graph for jumps and calls, so
straight-line rewriting does not change how much a run needs. `Lowering.dfy` is the lowering as a
function of its context, `LoweringContext.dfy` the same as a class whose methods change their fields,
each method tied to its function. The main result, `LoweringPreservesMeaning`, is an equivalence over
all programs of the fragment, all arguments and all outcomes. `LoweredCode.dfy` shows that lowered code is what
the optimizer asks for, and `Pipeline.dfy` puts both halves together; the repository itself does not chain
them: its optimizer gets what `src/ir.js` builds, and `c/frontend.c` leaves its graphs as they are.

**Runtime algorithms.** `src/c_backend.js` emits them as C text; the model is of the C that the text
spells out. Calendar and ISO 8601, UTF-8 and strings, the merge sort, JSON, and list views. C's
division truncates (section 6.5.5 of C11), so `Arith.dfy` defines truncating division and remainder.

**Frontend algorithms.** The expression parser, the prototype hierarchy, the suggestion picker (in C
and in JavaScript), and the line map of the preprocessor.

Code that updates things step by step is a method over arrays, classes or local variables, tied to a
function; the laws are lemmas about the functions.

## Where code and documents disagree

The model follows the code; each point has a lemma.

- The manual evaluates one arm of `?:`; the lowering runs both (`TernaryIff`, `TernaryTraps`).
- The manual reads `x op= e` as `x = x op e`; the lowering loads `x` after `e` (`CompoundIff`, `CompoundOrder`).
- `++`, `--` and unary minus carry no overflow check, unlike `+` and `-` (`IncrementIff`, `NegationIff`);
  nor does arithmetic on operands whose type is not known (`UncheckedIff`).
- A declaration sees its own name (`OwnNameIff`, `OwnSumFails`, `OwnGuardWorks`, `OwnNameIsUndefined`).
- The variable of a `for` outlives the loop, and so does a bare declaration that is an arm, a loop body or part
  of a clause (`NameStaysIff`, `ForNameStays`, `ClauseHides`).
- The lowering of a `for` takes its parts by position, although the parser has dropped those that are missing
  (`ForPartsIff`, `ForWithoutStart`).
- A `switch` without clauses leaves its block without a terminator, unless it is unreachable there
  (`LoweringIsWellFormed`, `EmptySwitchMovesOn`, `EmptySwitchFallsOff`).
- The optimizer takes a raw JSON `true` for false, keeps the fraction of a folded quotient, and computes
  `~`, `<<` and `>>` in 32 bits (`SelectGuardIff`, `InexactQuotientMisleads`, `DivGuardIff`, `NotGuardIff`,
  `ShlGuardIff`, `ShrGuardIff`); it drops a repeated check even if its operands have changed (`DroppedCheckIff`).
- The JSON decoder writes the zero that ends a string one byte past its block if the decoded length is 64,
  128, 256 and so on (`JsonRoundTrip`, `JsonRoundTripIff`, `FullBlockIff`, `SixtyFourBytes`).
- The JSON encoder escapes nothing, and the decoder takes an array that breaks off after a comma for a
  whole one (`StringRoundTripIff`, `BrokenArrayAccepted`).
- Years outside 0 to 9999 are formatted but cannot be read back (`IsoRoundTrip`).
- The checks on prototypes accept two that extend each other (`AcceptedIff`, `CycleAccepted`).
- The frontend stops collecting fields after 64 levels, the backend does not (`CollectionsAgree`).

## Conditions of the main results

`Static.dfy` lists the conditions of `LoweringPreservesMeaning`. Names are declared before use, `break` and
`continue` have a target, and arithmetic is on operands whose types are known to be int; a variable has the type of
its last plain assignment in text order, or the declared one before that. The others shut out
the departures of the lowering above, each with its exact condition there: arms of `?:` are literals or
variables, the right-hand side of `x op= e` does not change `x`, an initialiser does not mention its own name,
a declaration that is the start of a `for`, an arm, a loop body or part of a clause has a new name, and a
`switch` has a clause. `++`, `--` and unary minus need none, because their source meaning is the unchecked one.
`Optimizer.Optimizable` lists those of the optimizer: distinct function names, straight-line callees
that define before they read, none of the optimizer's own temporaries, no name overwritten after a
check or call has read it, and folds within their guards.

## Model

| member | source | states |
|---|---|---|
| `FunctionMeaning.LoweringPreservesMeaning` | c/frontend.c:8470-10552 | for every function that meets the static conditions and all arguments, the source execution ends with an outcome (value, void, fall-off, or a particular trap) if and only if the lowered block graph does; so one runs forever exactly when the other does |
| `FunctionMeaning.LoweringSimulates` | c/frontend.c:11034-11080 | every finished source run, parameters and final `ret` included, has a run of the graph with the same outcome, and while the source is out of fuel so is the graph |
| `StmtMeaning.SimStmt` | c/frontend.c:9332-10552 | a statement lowered anywhere in a graph makes the run reach the end of its code, the innermost break or continue target, or the same stop, with every visible variable holding its source value |
| `StmtMeaning.SimAll` | c/frontend.c:9335-9350 | a list of statements runs one after the other; an abrupt end skips the rest although its code is still emitted |
| `StmtMeaning.SimIf` | c/frontend.c:10013-10085 | `if` with and without `else`: exactly the chosen arm runs, and both join in the done block |
| `StmtMeaning.SimLoop` | c/frontend.c:10086-10552 | all three loop forms as one: test, body, what `continue` goes to, again; `break` and a false test leave to the done block |
| `StmtMeaning.SimWhile` | c/frontend.c:10086-10152 | `while` reaches its test first; the run then follows the loop semantics |
| `StmtMeaning.SimDo` | c/frontend.c:10153-10251 | `do … while` runs its body before the first test; `continue` goes to the test |
| `StmtMeaning.SimFor` | c/frontend.c:10437-10552 | three-part `for`: init once, `continue` goes to the step; the loop variable, and a body that is a bare declaration, stay in the scope around it |
| `StmtMeaning.SimSwitch` | c/frontend.c:10253-10436 | the compare chain runs the first clause whose value is equal, or the default, without fall-through; `break` leaves the switch, `continue` the enclosing loop round |
| `StmtMeaning.SimCases` | c/frontend.c:10334-10420 | from case `i` on, values are compared in order and a trap while computing one ends the run with that trap |
| `StmtFollows.SimDecl` | c/frontend.c:9351-9399 | after a declaration, with or without an initialiser, the new IR variable holds its value and all others keep theirs |
| `StmtFollows.SimAssign` | c/frontend.c:9400-9474 | plain and compound assignment to a visible variable store the value that the manual gives, or end in its trap |
| `StmtFollows.SimLate` | c/frontend.c:9400-9474 | without any restriction on the right-hand side, `x op= e` follows the reading in which `x` is loaded after `e` has run |
| `StmtFollows.SimReturn` | c/frontend.c:9713-9736 | `return e` ends the run with the value of `e`, or with its trap |
| `ExprMeaning.SimLowered` | c/frontend.c:8470-9330 | for every expression over declared names, whatever its types and arms, and whether or not its variables have been written: running its code does what the lowered evaluation says (both arms of `?:`, checks only where the guessed types are int, a read of an unwritten variable is `Undefined`), in value, variables and trap; older temporaries stay untouched |
| `ExprMeaning.LoweredIsEval` | c/frontend.c:8470-9330 | within the static conditions the lowered evaluation is the evaluation of the manual |
| `ExprMeaning.SimExpr` | c/frontend.c:8470-9330 | so running the code of an expression leaves its value in the result register, all variables as the evaluation leaves them, and older temporaries untouched, or ends in the same trap |
| `ExprMeaning.SimLogic` | c/frontend.c:8615-8727 | logical and / or run the right operand only when the left one does not decide, and rejoin with the result in one register |
| `ExprMeaning.SimBinary` | c/frontend.c:8728-8787 | operands run from left to right; then come the checks, if both guessed types are int, and the bare instruction |
| `ExprMeaning.ChecksAre` | c/frontend.c:8728-8787 | a check stops exactly where the source operator faults on its own account, and when it passes, the bare instruction computes the source operator |
| `ExprMeaning.SimUn` | c/frontend.c:9045-9092 | prefix operators, and the literal −2^63 whose digits alone would not fit |
| `ExprMeaning.SimInc` | c/frontend.c:8788-8870 | `++` and `--`, prefix and postfix: the variable and the result are the new and the old value as written; an unwritten variable stops the run |
| `TypesKept.AssignRetypes` | c/frontend.c:9623-9650 | in any context, after `x = e` the guessed type of `x` is the guessed type of `e`, and no other variable is retyped |
| `TypesKept.StmtTypes` | c/frontend.c:9332-10552 | after any statement each visible variable has the recorded type of its last plain assignment in text order, or its declared one |
| `FunctionMeaning.AssignedIsChecked` | c/frontend.c:9623-9650 | `var n = 12; n = a; n = n + 1` with `a` at 2^63 − 1 stops with an overflow |
| `LoweringLimits.SimEager` | c/frontend.c:9212-9238 | for all arms, the lowered `?:` follows the evaluation that runs both arms before selecting |
| `LoweringLimits.TernaryIff` | c/frontend.c:9212-9238 | for any arms, the eager evaluation agrees with the manual in value, variables and trap: where the first arm is chosen, if and only if it traps or the second then has a value and changes nothing; where the second is chosen, if and only if the first traps alike or leaves the second one's result as it was |
| `LoweringLimits.TernaryQuietIff` | c/frontend.c:9212-9238 | for arms without `++`/`--`: if and only if the arm not chosen has a value, or the chosen arm traps first or alike |
| `LoweringLimits.TernaryTraps` | c/frontend.c:9212-9238 | `true ? 1 : 1 / 0` is 1, its lowered form divides by zero |
| `LoweringLimits.CompoundIff` | c/frontend.c:9400-9474 | for `+=`, `-=`, `*=` and `/=`, results and traps alike: the lowered form agrees with `x = x op e` if and only if `e` traps or the late load makes no difference, that is, `x` is unchanged, or both sums, differences or products overflow, or the factor is 0, or the divisor is 0 or the two quotients are the same |
| `LoweringLimits.CompoundOrder` | c/frontend.c:9400-9474 | `x += x++` from 1 gives 2 by the manual and 3 when lowered |
| `LoweringLimits.OwnNameIff` | c/frontend.c:9351-9399 | for every legal initialiser: the lowered declaration, its new variable not yet written, does what the manual says if and only if the evaluation from left to right, short circuits respected, does not come to the declared name, or the manual's own run ends in `Undefined` too; and where it does not come there, in every later round of a loop as well |
| `LoweringLimits.SimOwn` | c/frontend.c:9351-9399 | for every initialiser, its own name in it or not, the lowered declaration follows the evaluation in which that name is the new variable: unwritten the first time, the value of the last round after that |
| `LoweringLimits.OwnNameIsUndefined` | c/frontend.c:9351-9399 | `T x = x` always reads the new variable, which nothing has written, whatever an outer `x` holds |
| `LoweringLimits.OwnSumFails` | c/frontend.c:9351-9399 | `int x = x + 1` where an outer `x` is 1 gives 2 by the manual and stops when lowered |
| `LoweringLimits.OwnGuardWorks` | c/frontend.c:9351-9399 | `bool x = c && x` does what the manual says while `c` is false |
| `NamesStay.NameStaysIff` | c/frontend.c:9332-10552 | for every statement and every name: afterwards the name resolves as before if and only if the statement leaves no declaration of it behind, as a `for` does with its start, and arms, loop bodies and clauses do that are bare declarations |
| `NamesStay.ClauseHides` | c/frontend.c:10353-10370 | `case v: int y = 2; break;` hides an outer `y` for the rest of the scope around the `switch` |
| `LoweringLimits.ForNameStays` | c/frontend.c:10476-10479 | after a `for` with a declaration, a visible name still resolves as before if and only if it is not the loop variable |
| `LoweringLimits.ForPartsIff` | c/frontend.c:10438-10448 | the parser adds the parts of a `for` that are there, and lowering takes them by position: each is taken for what it is if and only if no part is missing before one that is there |
| `LoweringLimits.ForWithoutStart` | c/frontend.c:10438-10448 | `for (; c; s)` is lowered with `c` as its start, `s` as its test and no step |
| `LoweringLimits.UncheckedIff` | c/frontend.c:8728-8787 | where the guessed types give no check, the bare instruction agrees with the source operator if and only if no missing check would have fired |
| `LoweringLimits.IncrementIff` | c/frontend.c:8788-8870 | `++` does what `x += 1` does if and only if `x` does not hold 2^63 − 1, and `--` what `x -= 1` does if and only if it does not hold −2^63, prefix or postfix |
| `LoweringLimits.NegationIff` | c/frontend.c:9045-9092 | `-e` does what `0 - e` does if and only if `e` is not −2^63 |
| `Names.BindsDefine` | c/frontend.c:7292-7321 | defining a name keeps scopes and declarations in step: each visible name resolves to its own IR variable, the new one to a fresh variable |
| `StmtShape.StmtWent` | c/frontend.c:9332-10552 | lowering any well-formed statement extends the graph, keeps labels distinct and keeps every visible name bound to its own variable |
| `StmtShape.ForLeaves` | c/frontend.c:10437-10552 | after a `for` its variable is still bound in the enclosing scope |
| `LoweringGraph.LoweringIsWellFormed` | c/frontend.c:7439-7507 | for every program, terminating or not, typed or not: labels are distinct, every jump and branch names a block and every block holds a terminator if and only if each switch without clauses is reached only in a block that is already finished; and no two declarations or parameters share an IR name, and every variable that is read or written is a parameter, is declared, or was not in scope |
| `Finished.StmtStage` | c/frontend.c:9332-10552 | a statement leaves an unfinished block behind if and only if it has such a switch, and its last block is finished exactly if a `return`, `break` or `continue` with a target ended it |
| `Finished.ExprStage` | c/frontend.c:8470-9330 | an expression leaves no block behind, and moves on to an unfinished one exactly if it has a short circuit |
| `Finished.ClausesCover` | c/frontend.c:10253-10436 | if every switch has a clause the condition holds |
| `LoweringGraph.StmtFine` | c/frontend.c:9995-10552 | the graph invariant behind that: `break` and `continue` aim at blocks that exist or will, and declared names are new |
| `LoweringGraph.EmptySwitchMovesOn` | c/frontend.c:10313-10333 | a switch without clauses leaves the block before it exactly as it was: finished after if and only if finished before |
| `LoweringGraph.EmptySwitchFallsOff` | c/frontend.c:10313-10333 | a function that consists of such a switch is not a well-formed graph |
| `LoweringContext.IrFnCtx.Resolve` | c/frontend.c:7309-7316 | finds the newest binding, searching outwards; the whole new context equals the one the lowering function gives |
| `LoweringContext.IrFnCtx.JumpUnlessTerminated` | c/frontend.c:7502-7507 | emits a jump unless the last instruction ends the block; the whole new context equals the one the lowering function gives |
| `LoweringContext.IrFnCtx.GuessType` | c/frontend.c:7573-7640 | the guessed type that decides about checks; the whole new context equals the one the lowering function gives |
| `LoweringContext.IrFnCtx.LowerExpr` | c/frontend.c:8470-9330 | an expression, in place, as the lowering function says; the whole new context equals the one the lowering function gives |
| `LoweringContext.IrFnCtx.LowerLogic` | c/frontend.c:8615-8727 | logical and / or, in place; the whole new context equals the one the lowering function gives |
| `LoweringContext.IrFnCtx.LowerDecl` | c/frontend.c:9351-9399 | a declaration, in place; the whole new context equals the one the lowering function gives |
| `LoweringContext.IrFnCtx.LowerAssign` | c/frontend.c:9401-9650 | an assignment, in place, the type of a plainly assigned variable included; the whole new context equals the one the lowering function gives |
| `LoweringContext.IrFnCtx.LowerStmt` | c/frontend.c:9332-10552 | a statement, in place; the whole new context equals the one the lowering function gives |
| `LoweringContext.IrFnCtx.LowerAll` | c/frontend.c:9335-9350 | the loop over the statements of a block; the whole new context equals the one the lowering function gives |
| `LoweringContext.IrFnCtx.LowerIf` | c/frontend.c:10013-10085 | `if`, in place; the whole new context equals the one the lowering function gives |
| `LoweringContext.IrFnCtx.LowerWhile` | c/frontend.c:10086-10152 | `while`, in place; the whole new context equals the one the lowering function gives |
| `LoweringContext.IrFnCtx.LowerDo` | c/frontend.c:10153-10251 | `do`, in place; the whole new context equals the one the lowering function gives |
| `LoweringContext.IrFnCtx.LowerFor` | c/frontend.c:10437-10552 | `for`, in place; the whole new context equals the one the lowering function gives |
| `LoweringContext.IrFnCtx.LowerSwitch` | c/frontend.c:10253-10436 | `switch`, in place; the whole new context equals the one the lowering function gives |
| `LoweringContext.IrFnCtx.LowerCases` | c/frontend.c:10334-10400 | the loop over the cases; the whole new context equals the one the lowering function gives |
| `LoweringContext.IrFnCtx.DefineParams` | c/frontend.c:11043-11061 | the loop over the parameters; the whole new context equals the one the lowering function gives |
| `LoweringContext.LowerFunction` | c/frontend.c:11034-11080 | lowering one function through the mutable context gives the function that all results above speak of |
| `Pipeline.CompiledMeaning` | src/optimizer.js:289-295 | a program of the fragment, lowered and then optimized, with folds within their guards: every defined outcome of a source function is an outcome of the compiled one, which has no other outcome unless the source is undefined; in the repository the optimizer gets what `src/ir.js` builds instead |
| `Pipeline.NothingToInline` | src/optimizer.js:188-287 | inlining leaves lowered programs of the fragment as they are |
| `LoweredCode.LoweredIsStable` | c/frontend.c:8470-10552 | for every program: no block of its lowered code writes a name after a check has read it, none uses a temporary of the optimizer, none calls, and no boolean constant is text |
| `LoweredCode.ExprLater` | c/frontend.c:8470-9330 | an expression guards and yields only temporaries that it draws itself |
| `Optimizer.OptimizePreserves` | src/optimizer.js:289-295 | for every function and all arguments, a defined outcome of the original is an outcome of the optimized program, and the optimized program has no outcome of its own unless the original is undefined |
| `Optimizer.OptimizeCall` | src/optimizer.js:289-295 | the same with fuel made explicit, through all three passes |
| `Optimizer.InlineKeepsStable` | src/optimizer.js:188-295 | inlined code still never overwrites what an earlier check of the block has read, which the last pass needs |
| `Optimizer.PropKeepsStable` | src/optimizer.js:88-151 | and so does folded code |
| `OptimizerDone.OptimizeIsDone` | src/optimizer.js:289-295 | afterwards no block repeats a check; no unary or binary operation is left whose operands are constants there and whose result is a number or a truth value, nor a selection on a constant; and no call is left of a function of one straight block with that number of parameters; functions, parameters and labels stay |
| `OptimizerDone.PropLeavesNone` | src/optimizer.js:88-151 | the constants that the pass knows at a point are exactly those traced back through copies to a `const` in the code before it |
| `OptimizerDone.CandidateIs` | src/optimizer.js:153-185 | a function is a candidate if and only if it has one block that ends in `ret` and holds no jump, store, declaration or call before that |
| `OptimizerDone.NewTemporaries` | src/optimizer.js:187-213 | the new temporaries of the whole program are numbered from 1000001 on in the order in which they are written, none twice |
| `Optimizer.Optimize` | src/optimizer.js:289-295 | the three passes in order yield the module that the results speak of |
| `Optimizer.PropFunctions` | src/optimizer.js:88-151 | the loop over functions and blocks of constant propagation |
| `Optimizer.ReduceFunctions` | src/optimizer.js:18-36 | the loop over functions and blocks of check reduction |
| `RedundantChecks.ReduceCall` | src/optimizer.js:18-36 | with repeated checks dropped everywhere, every call ends exactly as before, with the same fuel |
| `RedundantChecks.ReduceRuns` | src/optimizer.js:18-36 | inside a block: if the checks seen so far would pass again, the reduced rest runs like the original rest |
| `RedundantChecks.DroppedCheckIff` | src/optimizer.js:18-36 | where one check is repeated, dropping it leaves the outcome as it was if and only if the run does not come there, the operands pass again, or the rest stops with what the check would have reported |
| `RedundantChecks.UnstableCheckIsLost` | src/optimizer.js:18-36 | where a checked name is overwritten between two equal checks, dropping the second loses a division trap |
| `RedundantChecks.ReduceInstrs` | src/optimizer.js:18-36 | the loop with its `seen` set keeps the first of every group of equal checks |
| `ConstantPropagation.PropCall` | src/optimizer.js:88-151 | every defined call ends as before, with the same fuel |
| `ConstantPropagation.PropRuns` | src/optimizer.js:88-151 | the rewritten block ends as the original one from any registers that hold the known constants |
| `ConstantPropagation.ConstantsHold` | src/optimizer.js:88-151 | at every point of a block, every name in the constant map holds that constant in every run |
| `ConstantPropagation.PropStep` | src/optimizer.js:88-151 | one instruction and its replacement do the same, and the constant map stays true |
| `ConstantPropagation.PropStable` | src/optimizer.js:88-151 | folding writes what the original writes and guards no more names |
| `ConstantPropagation.IntFoldExact` | src/optimizer.js:38-86 | within 2^53 − 1, JavaScript folding of two whole numbers is what the 64-bit instruction computes |
| `ConstantPropagation.BinFoldExact` | src/optimizer.js:38-86 | a guarded fold of two literals is the value that the bare instruction computes, and a truth value comes out as text |
| `ConstantPropagation.FoldedType` | src/optimizer.js:108-135 | for constants of any type, comparisons and `!` give a truth value as text, and any other fold keeps the type of the first operand |
| `ConstantPropagation.MixedNeverEqual` | src/optimizer.js:67-70 | a truth value never equals a number in a fold |
| `ConstantPropagation.TruthValuesCount` | src/optimizer.js:108-127 | a truth value counts as 1 or 0 in a fold; the operand of a binary one that is a raw `true` counts as 0 |
| `ConstantPropagation.DivGuardIff` | src/optimizer.js:38-86 | with quotients rounded to the nearest double, a folded quotient is the machine quotient if and only if the division leaves no remainder; otherwise the constant is a fraction |
| `ConstantPropagation.NeverWhole` | src/optimizer.js:38-86 | a quotient with a remainder is never rounded to a whole number |
| `ConstantPropagation.NotGuardIff` | src/optimizer.js:38-43 | a folded `~` is right if and only if its operand fits 32 bits |
| `ConstantPropagation.ShrGuardIff` | src/optimizer.js:38-86 | a folded `>>` is the machine result if and only if, for counts below 32, the operand fits 32 bits, and for counts from 32 on, its upper and lower word agree from bit count − 32 on |
| `ConstantPropagation.ShlGuardIff` | src/optimizer.js:38-86 | a folded left shift is the machine result if and only if it is zero or stays within 32 bits |
| `ConstantPropagation.SelectGuardIff` | src/optimizer.js:88-151 | a selection on a boolean constant takes the right arm if and only if the constant is not a raw JSON `true` |
| `ConstantPropagation.InexactQuotientMisleads` | src/optimizer.js:38-86 | `(7 / 2) * 2` is 6 but folds to 7, as 3.5 and whole numbers are exact |
| `ConstantPropagation.PropInstrs` | src/optimizer.js:88-151 | the loop over a block rewrites it as the function says |
| `Inlining.InlineCall` | src/optimizer.js:188-287 | a call in the inlined module ends as in the original, up to one unit of fuel a call |
| `Inlining.InlineRuns` | src/optimizer.js:188-287 | running inlined code agrees with running the original from registers that differ only in the optimizer's own temporaries |
| `Inlining.CallInlined` | src/optimizer.js:188-287 | the renamed body in place of one call leaves the result the call returns, or ends in the trap of the call |
| `Inlining.InlineStable` | src/optimizer.js:188-287 | inlining overwrites nothing that a check or a remaining call has read |
| `Inlining.InlineIRIs` | src/optimizer.js:153-287 | inlining function by function, with candidates collected before, yields an inlined module |
| `Inlining.OwnResultIsLost` | src/optimizer.js:188-287 | a renamed copy, unary or binary operation or selection reads its own unwritten result if and only if the original reads what it writes |
| `Inlining.InlineCallee` | src/optimizer.js:188-287 | the loop over the callee's instructions, with its rename map and counter |
| `Inlining.InlineInstrs` | src/optimizer.js:188-287 | the loop over a block |
| `Inlining.InlineFunctions` | src/optimizer.js:188-287 | the loop over functions |
| `Blocks.RunIsRunCode` | src/optimizer.js:88-90 | running from a position and running the rest of its block are the same, which lets passes be compared block by block |
| `Calendar.DaysAre` | src/c_backend.js:1905-1912 | for every year, negative ones included, the formula is days before the year, plus days before the month by leap-year rules, plus the day |
| `Calendar.NextDayIsNext` | src/c_backend.js:1905-1922 | the next calendar day has the next number |
| `Calendar.EpochIsZero` | src/c_backend.js:1905-1912 | 1 January 1970 is day 0 |
| `Calendar.DaysMonotonic` | src/c_backend.js:1905-1922 | an earlier valid date has a smaller number |
| `Calendar.DaysBijective` | src/c_backend.js:1905-1922 | valid dates and whole numbers correspond one to one |
| `Calendar.WeekdayIs` | src/c_backend.js:1993-1998 | the weekday number counts days from Monday, day 0 being a Thursday, for negative day numbers too |
| `Calendar.WeeksAreThursdays` | src/c_backend.js:2004-2009 | the number of ISO weeks is the number of Thursdays of the year |
| `Calendar.IsoWeekCorrect` | src/c_backend.js:2010-2018 | the week belongs to the year of its Thursday, and its number is that Thursday's ordinal in that year (section 2.2.10 of ISO 8601:2004) |
| `Calendar.ComputeDayOfYear` | src/c_backend.js:1999-2003 | the loop over the months adds up to the ordinal of the day |
| `Iso8601.SplitIsFloor` | src/c_backend.js:1969-1975 | seconds and milliseconds of an epoch, negative ones included, are quotient and remainder rounded down |
| `Iso8601.GmTimeInverts` | src/c_backend.js:1976-1979 | splitting seconds into a date and a time of day and recombining them gives the seconds back |
| `Iso8601.IsoRoundTrip` | src/c_backend.js:2218-2300 | parsing the formatted form of any 64-bit millisecond gives it back if and only if its year lies in 0 to 9999 |
| `IsoTexts.IsoReadIff` | src/c_backend.js:2218-2275 | for every text and every number: the text is read as that number if and only if it spells it, as the date and time of a valid moment in the years 0 to 9999 with or without milliseconds, followed by `Z`, `+hh:mm` (minus that many minutes), `-hh:mm` (plus) or nothing, or as a date alone (midnight), within 64 bits |
| `IsoTexts.HourAhead` | src/c_backend.js:2264 | `1970-01-01T01:00:00.000+01:00` is 0 |
| `IsoTexts.FormatWritten` | src/c_backend.js:2276-2300 | every epoch is written as its year, month, day, hour, minute, second and millisecond in UTC, in the spelling that is read back |
| `IsoTexts.YearWritten` | src/c_backend.js:2276-2300 | a year has its decimal digits, four at least and no more zeros in front than that takes |
| `IsoTexts.NegativeYear` | src/c_backend.js:2276-2300 | a negative year has a sign before that |
| `Iso8601.CanonicalTexts` | src/c_backend.js:2218-2300 | a text of 24 characters that is read is exactly what formatting its value writes |
| `Iso8601.OtherYears` | src/c_backend.js:2276-2300 | for every other year the formatted text has no dash where the parser needs one |
| `Utf8.NextIffWellFormed` | src/c_backend.js:2406-2443 | the decoder accepts a prefix exactly when the text starts with a well-formed sequence of section 4 of RFC 3629, and takes that one |
| `Utf8.EncodeIffScalar` | src/c_backend.js:2834-2866 | the encoder accepts exactly the Unicode scalar values and writes a well-formed sequence |
| `Utf8.DecodeEncode` | c/frontend.c:566-584 | decoding an encoded scalar gives it back with its length, whatever follows |
| `Utf8.EncodeDecode` | src/c_backend.js:2406-2443 | encoding a decoded glyph gives its bytes back |
| `Utf8.Utf8Bijective` | src/c_backend.js:2406-2462 | valid byte strings and sequences of scalars correspond one to one |
| `Utf8.Boundary` | src/c_backend.js:2505-2544 | a valid string inside a valid string starts and ends on glyph boundaries |
| `Utf8.PrefixIff` | src/c_backend.js:2537-2540 | one encoding is a prefix of another if and only if the glyphs are |
| `Utf8.Validate` | src/c_backend.js:2444-2452 | the loop answers whether the whole text is well-formed UTF-8 |
| `Utf8.GlyphLen` | src/c_backend.js:2453-2462 | the loop counts the glyphs, or panics exactly on invalid text |
| `Strings.StartsWithGlyphs` | src/c_backend.js:2537-2540 | on valid strings the byte test is the glyph-prefix test |
| `Strings.EndsWithGlyphs` | src/c_backend.js:2541-2544 | on valid strings the byte test is the glyph-suffix test |
| `Strings.IndexOf` | src/c_backend.js:2505-2518 | for any bytes: the number of glyphs before the first glyph boundary at which the needle stands; without one, −1 if the string is valid and a panic if not; on valid strings that is the first glyph index of the needle |
| `Strings.LastIndexOf` | src/c_backend.js:2522-2536 | for any bytes: a panic if the string is not valid, otherwise the glyphs before the last boundary at which the needle stands, or −1; on valid strings that is the last glyph index |
| `Strings.JoinSplit` | src/c_backend.js:2707-2833 | joining the parts of a split restores the string, for every separator |
| `Strings.PartsLackSep` | src/c_backend.js:2778-2833 | no part of a split contains the separator |
| `Strings.JoinGlyphs` | src/c_backend.js:2778-2833 | splitting by the empty separator and joining restores the string |
| `Strings.RewriteIsJoinSplit` | src/c_backend.js:2589-2629 | replacing every occurrence is splitting at it and joining with the replacement |
| `Strings.WalkIsRewrite` | src/c_backend.js:2589-2629 | on valid strings the two-pass walk meets no invalid byte and rewrites every occurrence from the left |
| `Strings.CountedLength` | src/c_backend.js:2589-2629 | the second pass writes exactly as many bytes as the first pass has counted |
| `Strings.SplitString` | src/c_backend.js:2778-2833 | for any bytes: cuts at the first boundary that has the separator, counted from the cut before, and panics exactly where the walk meets bytes that are no glyph while the separator would still fit; on valid strings these are the parts, and the glyphs for an empty separator |
| `Strings.Replace` | src/c_backend.js:2568-2588 | for any bytes: the first boundary at which the pattern stands is replaced; without one, the string, or a panic exactly if the walk gets stuck before; with an empty pattern nothing changes |
| `Boundaries.EdgeStep` | src/c_backend.js:2505-2518 | from a glyph boundary the walk goes to the next one, or there is none |
| `Strings.ReplaceAll` | src/c_backend.js:2589-2629 | the buffer of the counted size is filled with the rewritten string; an empty pattern is an error, invalid UTF-8 a trap |
| `Strings.CountOccurrences` | src/c_backend.js:2589-2629 | the first pass |
| `Strings.WriteReplaced` | src/c_backend.js:2589-2629 | the second pass stays within its buffer and fills it |
| `Strings.JoinStrings` | src/c_backend.js:2707-2738 | one buffer of the computed size holds the parts with the separator between them |
| `MergeSort.Sort` | src/c_backend.js:4744-4801 | in place, through a buffer, width doubling: the first `n` elements become a sorted, stable permutation of themselves for every total preorder, and the rest stays |
| `MergeSort.SortCorrect` | src/c_backend.js:4744-4801 | the bottom-up passes yield a sorted sequence that keeps the order of elements that compare equal |
| `MergeSort.StableSortUnique` | src/c_backend.js:4744-4801 | there is only one sorted stable permutation, so the result is the one any correct stable sort gives |
| `MergeSort.MergeStable` | src/c_backend.js:4753-4790 | merging sorted runs keeps equal elements in order, the left run first |
| `MergeSort.MergePass` | src/c_backend.js:4744-4801 | one pass over the array merges neighbouring runs into the buffer |
| `MergeSort.MergeRuns` | src/c_backend.js:4753-4790 | one merge fills exactly its part of the buffer |
| `MergeSort.StringsAreOrdered` | src/c_backend.js:4744-4801 | the byte comparator is a total preorder |
| `MergeSort.CompareIsLex` | src/c_backend.js:4744-4801 | and is lexicographic order, defined on its own |
| `MergeSort.FloatsAreOrdered` | src/c_backend.js:4744-4801 | the float comparator with NaN last is a total preorder |
| `MergeSort.CompareIsFloatLe` | src/c_backend.js:4744-4801 | and is the order from the negative infinity over the finite values to the positive infinity and NaN |
| `MergeSort.IntsAreOrdered` | src/c_backend.js:4744-4801 | the comparator of whole numbers is `<=` |
| `MergeSort.SortedInts` | src/c_backend.js:4744-4801 | sorting whole numbers leaves the same elements, none smaller than the one before |
| `MergeSort.SortedFloats` | src/c_backend.js:4744-4801 | sorting floats leaves the same elements in that order |
| `MergeSort.SortedStrings` | src/c_backend.js:4744-4801 | sorting strings leaves the same elements in lexicographic order |
| `Views.RunOps` | src/c_backend.js:4707-4931 | safety over all runs, for any interleaving of pushes, pops, writes and sorts of the list, views of it and of views, and reads and writes through any view made before: an access through a view goes through if and only if its index is in range and no push or pop was carried out since the first view of its chain; it then touches the element at the summed offsets plus the index, and the run stops at the first operation that is not allowed, with nothing changed |
| `Views.Step` | src/c_backend.js:4707-4931 | one operation with the views made so far: it goes through exactly when allowed, and every view keeps its place |
| `Views.Take` | src/c_backend.js:4840-4890 | a view of the list or of a view is made exactly for a range inside it, and stands at the summed offsets |
| `Views.Access` | src/c_backend.js:4891-4931 | an access checks index and version, which says the same as the history |
| `Views.Change` | src/c_backend.js:4707-4931 | one operation on the list has exactly its stated effect on the elements, the version, and whether it panics |
| `Views.VersionTells` | src/c_backend.js:2393-2402 | the version a view holds is the current one exactly if nothing was resized since its chain began |
| `Views.FreshInside` | src/c_backend.js:4840-4931 | a view whose chain saw no resize lies inside the list |
| `Views.StaysStale` | src/c_backend.js:4707-4813 | a view that is out of date stays so, whatever follows, and so does every view of it |
| `Views.ViewSurvives` | src/c_backend.js:2393-2402 | whatever keeps pointer and length under an unchanged version keeps every view good |
| `Views.PsList.Push` | src/c_backend.js:4707-4717 | appends, moves to a block of twice the size (of four at first) when full, and counts the version up |
| `Views.PsList.Pop` | src/c_backend.js:4802-4813 | removes and returns the last element, or panics on an empty list without a change |
| `Views.PsList.Set` | src/c_backend.js:4914-4931 | writes one element; the version stays |
| `Views.PsList.SortList` | src/c_backend.js:4744-4801 | sorts the elements in place; the version stays |
| `Views.PsList.MakeView` | src/c_backend.js:4840-4890 | a view is made exactly for a range inside the list |
| `Views.View.SubView` | src/c_backend.js:4840-4890 | a view of a view copies the version it was given |
| `Views.View.Get` | src/c_backend.js:4891-4913 | reads the list element, or panics on a bad index or a stale version |
| `Views.View.Put` | src/c_backend.js:4914-4931 | writes exactly one list element, or panics and changes nothing |
| `JsonExact.JsonRoundTripIff` | src/c_backend.js:1711-1790 | for every value whose numbers are whole and at most 2^53: decoding its encoding gives it back if and only if all its strings and keys are valid UTF-8 with nothing to escape, none of them has a length of 64·2^k, and no object in it has a key twice |
| `JsonExact.ValueFair` | src/c_backend.js:1523-1725 | no text that is read is shorter than the encoding of what it is read as, and one that is no longer was read without an escape |
| `JsonTexts.DecodesTheGrammar` | src/c_backend.js:1523-1725 | for every text and every value: the text is decoded as the value if and only if it is one of its texts, by a grammar with white space, escapes, numbers without exponents, later duplicates of a key replacing earlier ones, and arrays that may break off after a comma |
| `JsonTexts.SetMemberIs` | src/c_backend.js:1540-1563 | a member that comes again gets the later value in its place; other keys keep theirs |
| `JsonTexts.WordsSpelled` | src/c_backend.js:1698-1785 | the words and symbols of both directions |
| `JsonStrings.LiteralRead` | src/c_backend.js:1631-1679 | every literal by section 7 of RFC 8259 (plain bytes, the eight two-character escapes, `\uXXXX` in both cases of hex, surrogate pairs) is read as its bytes |
| `JsonStrings.LiteralWritten` | src/c_backend.js:1631-1679 | and every text that is read, panics or overruns its block starts with such a literal |
| `JsonStrings.EscapesRead` | src/c_backend.js:1631-1679 | scalars, each spelled in any of its ways, are read back as their UTF-8 bytes, unless these fill a block |
| `JsonStrings.LineFeed` | src/c_backend.js:1651-1656 | `"\n"` is a line feed |
| `Json.JsonRoundTrip` | src/c_backend.js:1711-1790 | for any nested value of valid strings with nothing to escape, unique keys and whole numbers up to 2^53: decoding its encoding gives that value and consumes everything if and only if no string or key in it has a length of 64·2^k; otherwise the decoder writes past a block |
| `Json.FullBlockIff` | src/c_backend.js:1587-1596 | the block that doubles from 64 is full exactly at the lengths 64·2^k |
| `Json.SixtyFourBytes` | src/c_backend.js:1631-1640 | a string of 64 letters does not come back |
| `Json.ValueBack` | src/c_backend.js:1523-1725 | the same with any text after it that cannot continue a number; exactly that text is left |
| `Json.StringRoundTripIff` | src/c_backend.js:1744-1790 | a string survives if and only if it is valid UTF-8 without quote, backslash or control byte and its length is not 64·2^k |
| `Json.BrokenArrayAccepted` | src/c_backend.js:1564-1586 | text that breaks off after a comma is taken for a whole array |
| `JsonParser.DecodeText` | src/c_backend.js:1711-1725 | the decoder, with its moving position, decodes what the grammar functions say |
| `JsonParser.Cursor.Value` | src/c_backend.js:1698-1710 | one value from the current position on: same value, same rest, same failure or panic |
| `JsonParser.Cursor.Array` | src/c_backend.js:1564-1580 | the loop over elements |
| `JsonParser.Cursor.Object` | src/c_backend.js:1540-1563 | the loop over members, later duplicates replacing earlier ones |
| `JsonParser.Cursor.String` | src/c_backend.js:1631-1679 | the loop over a string literal with its growing block, escapes and surrogate pairs included: text, failure, panic or a write past the block as the grammar function says |
| `JsonParser.Chars.Push` | src/c_backend.js:1587-1596 | every push is inside the block, which is doubled when full, and appends one byte |
| `JsonParser.Chars.Terminate` | src/c_backend.js:1637-1639 | the terminating zero is inside the block if and only if the length is not 64·2^k |
| `JsonParser.Cursor.Number` | src/c_backend.js:1680-1697 | scans sign, digits and fraction |
| `JsonParser.Cursor.SkipSpace` | src/c_backend.js:1524-1530 | skips white space |
| `JsonParser.Cursor.MatchWord` | src/c_backend.js:1531-1537 | moves on exactly when the word is there |
| `JsonParser.Buffer.EncodeValue` | src/c_backend.js:1745-1785 | appends exactly the encoding of the value to the buffer |
| `ExprParser.ParsesTheGrammar` | c/frontend.c:1662-2011 | for all tokens and trees: the parser reads the tokens as that tree if and only if a grammar with seven rows of binary operators, prefix operators, casts, postfix operations and conditionals writes them so |
| `ExprParser.Precedence` | c/frontend.c:1947-2011 | for all pairs of binary operators, `a op1 b op2 c` groups to the right exactly if `op2` stands in a tighter row, with `==` tighter than `<`, bitwise and in the row of `*`, and bitwise or and exclusive or in the row of `+` |
| `ExprParser.ParseWritten` | c/frontend.c:1662-2011 | whatever is read at a level was written by the grammar at that level |
| `ExprParser.ExpressionRoundTrip` | c/frontend.c:1662-2011 | any tree of the grammar, written with parentheses where it needs them, parses back to itself and leaves no token |
| `ExprParser.FewestTokens` | c/frontend.c:1662-2011 | and no shorter sequence of tokens is read as that tree |
| `ExprParser.ParseInvertsText` | c/frontend.c:1783-2011 | any way to write an expression is read as the tree that is meant, at every level and in front of any token that does not continue the expression |
| `ExprParser.Spine` | c/frontend.c:1914-1946 | a chain of operators of one level becomes a left-nested tree |
| `ExprParser.PostfixSpine` | c/frontend.c:1783-1874 | calls, indexes, members and postfix operators apply from left to right |
| `ExprParser.Lift` | c/frontend.c:1914-1982 | what a higher level reads, a lower level reads too, if nothing continues it |
| `TokenParser.Cursor.Level` | c/frontend.c:1947-2011 | the recursive descent from one level to the next reads what the grammar functions say and stops at the same token |
| `TokenParser.Cursor.TernaryLevel` | c/frontend.c:1982-2011 | the conditional expression |
| `TokenParser.Cursor.Chain` | c/frontend.c:1914-1946 | the operator loop |
| `TokenParser.Cursor.UnaryLevel` | c/frontend.c:1876-1912 | prefix operators and casts |
| `TokenParser.Cursor.PostfixLevel` | c/frontend.c:1783-1874 | the postfix loop |
| `TokenParser.Cursor.Primary` | c/frontend.c:1662-1781 | primaries, list and map literals included |
| `TokenParser.Cursor.Pairs` | c/frontend.c:1733-1777 | the loop over the pairs of a map literal |
| `ExprParser.PairsInvert` | c/frontend.c:1733-1777 | the pairs of a map literal parse back to themselves |
| `Prototypes.OverrideSound` | c/frontend.c:4535-4581 | if the declarations are accepted, every method has the parameters of, a covariant return for, and the visibility of every method of its name anywhere above, although only the nearest is compared; on a cycle however often it goes round |
| `Prototypes.OverridesTransitive` | c/frontend.c:3942-3961 | overriding is transitive, covariant returns included |
| `Prototypes.SubtypeTransitive` | c/frontend.c:2938-2947 | so is being a subtype, on cycles too |
| `Prototypes.FieldsExtend` | src/c_backend.js:598-610 | along a chain that ends, the fields collected for a parent are a prefix of those of each child, and all names differ |
| `Prototypes.LayoutAssertsHold` | src/c_backend.js:769-797 | every emitted size and offset assertion holds, for any field sizes and any alignments of which one divides the other |
| `Prototypes.LayoutIsLegal` | src/c_backend.js:769-797 | the layout that the assertions compare is one that C allows: fields in order without overlap, each aligned, the first at 0, and sizes and alignments that let structs stand side by side |
| `Prototypes.CollectionsAgree` | c/frontend.c:2989-3012 | along a chain that ends, the frontend collects the fields that the backend collects if and only if nothing is declared above the 64th level |
| `Hierarchy.SoundIff` | c/frontend.c:4408-4592 | for any declarations: they are accepted if and only if the hierarchy is sound and no walk runs into a cycle, and where nothing is above itself the checks always say which; sound means that names are unique, parents known and not sealed, no field has the name of one above, and every method has the parameters of every method of its name anywhere above, a return type that is the same or below, and is public where that is |
| `Hierarchy.MoreGeneralIsRejected` | c/frontend.c:3942-3961 | an override that returns something above the return type of a method above is an error |
| `Prototypes.AcceptedIff` | c/frontend.c:4408-4592 | for any declarations, cyclic ones included: they are accepted if and only if names are unique, parents known and not sealed, fields new and overrides of the nearest method valid, and each prototype on or below a cycle declares no field and no method that is not above it already |
| `Prototypes.EndingDecides` | c/frontend.c:4408-4592 | without cycles the checks always come to an end, and accept exactly the sound hierarchies |
| `Prototypes.CycleAccepted` | c/frontend.c:4535-4581 | two prototypes that extend each other pass the checks, and a collection of fields without a bound, like that of the backend, never ends on them |
| `Prototypes.ChainCovers` | c/frontend.c:2920-2934 | a walk up, however far, meets nothing that it has not met within as many steps as there are prototypes |
| `Prototypes.CollectPrototypes` | c/frontend.c:4408-4592 | collecting the declarations one by one and checking the list, each walk up with a number of steps: given one step for each prototype, accepted, rejected or never through as `AcceptedIff` and `EndingDecides` say |
| `Prototypes.CheckPrototypes` | c/frontend.c:4535-4581 | the loop over the list, which goes on after an error |
| `Prototypes.CheckOne` | c/frontend.c:4535-4581 | the checks on one prototype: fields, then methods, each up to the first that is wrong |
| `Prototypes.FindMethod` | c/frontend.c:2920-2934 | the walk up finds the nearest method of a name, finds none where the chain ends, and otherwise never ends |
| `Prototypes.FindField` | c/frontend.c:2899-2912 | the walk up finds a field exactly when the chain has one; without it the walk ends exactly if the chain does |
| `Prototypes.IsSubtype` | c/frontend.c:2938-2947 | the walk up answers whether the chain leads to the other prototype, or never ends |
| `Prototypes.CollectProtoFields` | src/c_backend.js:598-610 | walk up, then fields from the root down; the walk ends exactly if the chain does |
| `Prototypes.CollectFields64` | c/frontend.c:2989-3012 | the same with room for 64 levels |
| `Levenshtein.EditDistance` | c/diag.c:121-146 | the one-row table, updated in place, ends with the distance |
| `Levenshtein.NextRow` | c/diag.c:131-143 | one pass turns the row for `i - 1` into the row for `i` |
| `Levenshtein.ScriptExists` | src/diagnostics.js:23-43 | some script of insertions, deletions and replacements has that cost |
| `Levenshtein.NoCheaperScript` | c/diag.c:121-146 | and no script is cheaper |
| `Suggestions.PickC` | c/diag.c:148-204 | for any names and any room: the distinct nearest candidates within distance 2 when there are one or two, nothing otherwise, in byte order whatever the order and repeats of the input, as many as there is room for, each cut to 63 bytes |
| `Suggestions.ShortNamesPicked` | c/diag.c:197-204 | with names below 64 bytes and room for two, that is exactly the choice |
| `Suggestions.PickJs` | src/diagnostics.js:18-62 | the same set for any limit, ordered by the locale comparison |
| `Suggestions.Collect` | c/diag.c:161-183 | the scored list holds each near candidate once with its distance |
| `LineMap.DiagnosticLine` | c/frontend.c:441-449 | a diagnostic on line `k` is reported at the file that the last named marker before it gives, and at the number that the last numbered marker gives plus the lines kept since |
| `LineMap.MarkerIff` | c/preprocess.c:139-183 | for every text, number and name: the text is a marker with that number and name if and only if it is spelled as blanks, `#`, blanks, perhaps `line` and blanks, the decimal digits of the number, blanks, and perhaps the name in quotes |
| `LineMap.OutputLines` | c/preprocess.c:117-193 | the lines of the output are exactly the lines that are not markers, with one map entry each |
| `LineMap.EntryIsBefore` | c/preprocess.c:117-193 | entry `k` is the state before the source line that output line `k` comes from |
| `LineMap.LineIsExpected` | c/preprocess.c:117-193 | the running number is the last marker's number plus the lines kept since |
| `LineMap.FileIsExpected` | c/preprocess.c:117-193 | the running file is the last named marker's |
| `LineMap.StripLineMarkers` | c/preprocess.c:117-193 | the scan over one buffer, writing another and appending to the map, does just that |

## Left out

- A `for` with a missing start, test or step: the syntax of `SFor` has all three (`ForPartsIff` says which parts the code takes for which).
- `try`/`catch`/`finally`, `throw`, `for … in`/`of`, calls, strings, floats, bytes and glyphs in the lowering: not in the fragment.
- FunctionMeaning.LoweringPreservesMeaning: the source meaning takes `++`, `--` and unary minus as unchecked, so at the limits of 64 bits both sides end as `Undefined` (`IncrementIff` and `NegationIff` say when that differs from checked arithmetic); what C leaves undefined (a signed result outside 64 bits that no check guards, a variable read before it is written) is the outcome `Undefined`, not whatever a C compiler makes of it.
- Pipeline.CompiledMeaning: joins the two modelled halves; `src/ir.js`, which builds what the optimizer gets in the repository, is not part of this model.
- Optimizer.OptimizePreserves: is about any module in the IR that meets `Optimizable`; that `src/ir.js`, whose output the optimizer gets, meets it is not shown; for lowered programs of the fragment `CompiledMeaning` needs only distinct names and the guards on folds.
- Folding of strings and floats, the operators `&`, `|`, `^` and `&&`, `||` as IR instructions, and the checks for indexes and map keys: the IR of the model does not have them.
- ConstantPropagation.SelectGuardIff: is about one selection; text constants other than "true" and "false" are not modelled.
- JavaScript numbers: reals, rounded by a function that is exact up to 2^53 − 1 and, for quotients, off by at most their 2^53rd part; infinities, NaN and −0 arise only where a fold is refused.
- Iso8601.GmTimeInverts: `gmtime_r` is the proved inverse of the day count; time zones, daylight saving and 64-bit overflow of seconds are left out.
- Calendar.IsoWeekCorrect: the casts of years to `int` are left out.
- MergeSort.FloatsAreOrdered: floats are reals, infinities or NaN; the order of −0 and 0 is left out.
- Views.RunOps: one list and its views; views of glyph strings and of maps, copies of list structs, and `realloc` that fails are left out. An operation's panic ends the run.
- Json.JsonRoundTrip: what happens after a write past a block is left open, as C leaves it; printing and reading of numbers are parameters that agree on whole numbers up to 2^53 (`snprintf`, `strtod`); how other numbers are printed and read is left out.
- JsonExact.JsonRoundTripIff: reading is also taken to give no whole number from fewer digits than it is written with, which holds as long as texts have no exponents.
- ExprParser.ExpressionRoundTrip: tokens are given, not lexed.
- Prototypes.CollectPrototypes: a walk up may take a given number of steps and is `Going` after that, as a walk on a cycle is for ever; the reserved names are those of the built-in prototypes.
- Prototypes.LayoutAssertsHold: sizes and alignments are parameters; padding follows the usual rule of C compilers.
- Suggestions.PickC: `qsort` is taken to sort.
- LineMap.DiagnosticLine: marker numbers are whole numbers, without the cast to `int`.
- Allocation failure, wrap-around of `size_t` and of version counters, and integer widths other than those named above.
- The lexer, module loading, static typing of calls, the virtual machine, I/O and processes.
